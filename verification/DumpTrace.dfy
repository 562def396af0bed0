/** The commands that mysqldump sends (client/mysqldump.c), as a function of its options and of
    what there is to dump, and what their order guarantees. */
module DumpTrace {
  import opened DumpServer

  datatype Options = Options(
    singleTransaction: bool,
    lockAllTables: bool,
    masterData: bool,
    slaveData: bool,
    deleteMasterLogs: bool,
    flushLogs: bool,
    lockTables: bool,
    events: bool,
    routines: bool)

  /** What main may rely on. */
  predicate Accepted(o: Options) {
    && !(o.singleTransaction && o.lockAllTables)
    && (o.masterData || o.slaveData ==> o.singleTransaction || o.lockAllTables)
    && (o.singleTransaction || o.lockAllTables ==> !o.lockTables)
    && (o.deleteMasterLogs ==> o.masterData)
    && !(o.masterData && o.slaveData)
  }

  /** All tables of some databases, and then their views if there are any, or some tables of
      one database. */
  datatype What = Databases(dbs: seq<seq<string>>, views: bool) | Selected(tables: seq<string>)

  const EVENT_TABLE := "mysql.event"
  const PROC_TABLE := "mysql.proc"

  // ------------------------------------------------------------ the tables

  function LockTrace(o: Options, tables: seq<string>): seq<Command> {
    if o.lockTables && tables != [] then [LockTables(tables)] else []
  }

  function FlushTrace(o: Options): seq<Command> {
    if o.flushLogs then [RefreshLog] else []
  }

  function UnlockTrace(o: Options): seq<Command> {
    if o.lockTables then [UnlockTables] else []
  }

  /** The lock around the events or the routines. */
  function ProgramTrace(o: Options, dumped: bool, table: string): seq<Command> {
    if dumped && o.lockTables then [LockTables([table]), UnlockTables] else []
  }

  function Reads(tables: seq<string>): seq<Command> {
    seq(|tables|, i requires 0 <= i < |tables| => Read(tables[i]))
  }

  function EventTrace(o: Options): seq<Command> {
    ProgramTrace(o, o.events, EVENT_TABLE)
  }

  function RoutineTrace(o: Options): seq<Command> {
    ProgramTrace(o, o.routines, PROC_TABLE)
  }

  /** dump_all_tables_in_db */
  function DatabaseTrace(o: Options, tables: seq<string>): seq<Command> {
    LockTrace(o, tables) + FlushTrace(o) + Reads(tables) + (EventTrace(o) + RoutineTrace(o) + UnlockTrace(o))
  }

  /** dump_selected_tables: the routines come before the tables. */
  function SelectedTrace(o: Options, tables: seq<string>): seq<Command> {
    LockTrace(o, tables) + FlushTrace(o) + RoutineTrace(o) + Reads(tables) + (EventTrace(o) + UnlockTrace(o))
  }

  /** dump_all_views_in_db */
  function ViewsTrace(o: Options, tables: seq<string>): seq<Command> {
    LockTrace(o, tables) + FlushTrace(o) + UnlockTrace(o)
  }

  function DatabasesTrace(o: Options, dbs: seq<seq<string>>): seq<Command> {
    if dbs == [] then [] else DatabasesTrace(o, dbs[..|dbs| - 1]) + DatabaseTrace(o, dbs[|dbs| - 1])
  }

  function AllViewsTrace(o: Options, dbs: seq<seq<string>>): seq<Command> {
    if dbs == [] then [] else AllViewsTrace(o, dbs[..|dbs| - 1]) + ViewsTrace(o, dbs[|dbs| - 1])
  }

  function TablesTrace(o: Options, what: What): seq<Command> {
    match what
    case Databases(dbs, views) => DatabasesTrace(o, dbs) + if views then AllViewsTrace(o, dbs) else []
    case Selected(tables) => SelectedTrace(o, tables)
  }

  // ------------------------------------------------------------ main

  function StopTrace(running: seq<bool>): seq<Command> {
    if running == [] then []
    else
      var n := |running| - 1;
      StopTrace(running[..n]) + if running[n] then [StopSlave(n)] else []
  }

  function StartTrace(running: seq<bool>): seq<Command> {
    if running == [] then []
    else
      var n := |running| - 1;
      StartTrace(running[..n]) + if running[n] then [] else [StartSlave(n)]
  }

  /** The slaves once they are stopped. */
  function Stopped(n: nat): seq<bool> {
    seq(n, _ => false)
  }

  /** The global read lock is taken. */
  predicate LocksAll(o: Options, consistent: bool) {
    o.lockAllTables || (o.masterData && !consistent) || (o.singleTransaction && o.flushLogs)
  }

  /** The logs are flushed before the first table, if at all. */
  predicate FlushesEarly(o: Options) {
    o.lockAllTables || o.masterData || (o.singleTransaction && o.flushLogs) || o.deleteMasterLogs
  }

  /** The options from then on. */
  function Later(o: Options): Options {
    if FlushesEarly(o) then o.(flushLogs := false) else o
  }

  /** Up to the global read lock. */
  function LockAllTrace(o: Options, running: seq<bool>, consistent: bool): seq<Command> {
    (if o.slaveData then [ShowSlaves] + StopTrace(running) else [])
    + (if o.singleTransaction && o.masterData then [SnapshotStatus] else [])
    + (if LocksAll(o, consistent) then [FlushTables, LockAll] else [])
  }

  function EarlyFlush(o: Options): seq<Command> {
    if FlushesEarly(o) && (o.flushLogs || o.deleteMasterLogs) then [RefreshLog] else []
  }

  function PositionTrace(o: Options, consistent: bool): seq<Command> {
    (if o.masterData then [if consistent then SnapshotStatus else MasterStatus] else [])
    + (if o.slaveData then [ShowSlaves] else [])
  }

  /** From the flush to the first table. */
  function PinTrace(o: Options, consistent: bool): seq<Command> {
    (if o.singleTransaction then [Begin] else []) + PositionTrace(o, consistent)
    + (if o.singleTransaction then [UnlockTables] else [])
  }

  /** Where the log stands after the flush. */
  function StatusTrace(o: Options): seq<Command> {
    if o.deleteMasterLogs then [MasterStatus] else []
  }

  function PrepareTrace(o: Options, running: seq<bool>, consistent: bool): seq<Command> {
    LockAllTrace(o, running, consistent) + EarlyFlush(o) + StatusTrace(o) + PinTrace(o, consistent)
  }

  function PurgeTrace(o: Options, purgeTo: nat): seq<Command> {
    if o.deleteMasterLogs then [Purge(purgeTo)] else []
  }

  function StartAllTrace(o: Options, slaves: nat): seq<Command> {
    if o.slaveData then [ShowSlaves] + StartTrace(Stopped(slaves)) else []
  }

  function FinishTrace(o: Options, slaves: nat, purgeTo: nat): seq<Command> {
    PurgeTrace(o, purgeTo) + StartAllTrace(o, slaves)
  }

  function MainTrace(o: Options, running: seq<bool>, consistent: bool, what: What, purgeTo: nat): seq<Command> {
    PrepareTrace(o, running, consistent) + TablesTrace(Later(o), what) + FinishTrace(o, |running|, purgeTo)
  }

  // ------------------------------------------------------------ every read behind its lock

  /** The table read in place `i` was locked before, and nothing since then has unlocked it. */
  ghost predicate Locked(sent: seq<Command>, i: nat)
    requires i < |sent| && sent[i].Read?
  {
    exists j :: 0 <= j < i && sent[j].LockTables? && sent[i].table in sent[j].tables
      && forall k :: j < k < i ==> !sent[k].LockTables? && !sent[k].UnlockTables?
  }

  ghost predicate AllLocked(sent: seq<Command>) {
    forall i :: 0 <= i < |sent| && sent[i].Read? ==> Locked(sent, i)
  }

  predicate NoReads(sent: seq<Command>) {
    forall i :: 0 <= i < |sent| ==> !sent[i].Read?
  }

  /** What happened before and comes after does not matter for a read that is locked. */
  lemma LockedInside(a: seq<Command>, b: seq<Command>, c: seq<Command>, i: nat)
    requires i < |b| && b[i].Read? && Locked(b, i)
    ensures Locked(a + b + c, |a| + i)
  {
    var j :| 0 <= j < i && b[j].LockTables? && b[i].table in b[j].tables
      && forall k :: j < k < i ==> !b[k].LockTables? && !b[k].UnlockTables?;
    var all := a + b + c;
    assert all[|a| + j] == b[j] && all[|a| + i] == b[i];
    forall k | |a| + j < k < |a| + i ensures !all[k].LockTables? && !all[k].UnlockTables? {
      assert all[k] == b[k - |a|];
    }
  }

  lemma AllLockedConcat(a: seq<Command>, b: seq<Command>)
    requires AllLocked(a) && AllLocked(b)
    ensures AllLocked(a + b)
  {
    var all := a + b;
    forall i | 0 <= i < |all| && all[i].Read? ensures Locked(all, i) {
      if i < |a| {
        LockedInside([], a, b, i);
        assert [] + a + b == all;
      } else {
        LockedInside(a, b, [], i - |a|);
        assert a + b + [] == all;
      }
    }
  }

  lemma NoReadsLocked(a: seq<Command>)
    requires NoReads(a)
    ensures AllLocked(a)
  {
  }

  /** Reads right after the lock, with at most a log flush in between. */
  lemma ReadsLocked(tables: seq<string>, flush: seq<Command>)
    requires tables != [] && forall i :: 0 <= i < |flush| ==> flush[i] == RefreshLog
    ensures AllLocked([LockTables(tables)] + flush + Reads(tables))
  {
    var all := [LockTables(tables)] + flush + Reads(tables);
    forall i | 0 <= i < |all| && all[i].Read? ensures Locked(all, i) {
      assert i > |flush| && all[i].table == tables[i - 1 - |flush|];
      assert all[0] == LockTables(tables);
      forall k | 0 < k < i ensures !all[k].LockTables? && !all[k].UnlockTables? {
        assert all[k] == if k <= |flush| then flush[k - 1] else Read(tables[k - 1 - |flush|]);
      }
    }
  }

  lemma DatabaseLocked(o: Options, tables: seq<string>)
    requires o.lockTables
    ensures AllLocked(DatabaseTrace(o, tables))
  {
    var rest := EventTrace(o) + RoutineTrace(o) + UnlockTrace(o);
    var front := LockTrace(o, tables) + FlushTrace(o) + Reads(tables);
    assert AllLocked(front) by {
      if tables == [] { NoReadsLocked(front); } else { ReadsLocked(tables, FlushTrace(o)); }
    }
    NoReadsLocked(rest);
    AllLockedConcat(front, rest);
  }

  /** The lock around the routines ends the lock of the tables that are read after it. */
  lemma SelectedLocked(o: Options, tables: seq<string>)
    requires o.lockTables
    ensures AllLocked(SelectedTrace(o, tables)) <==> !o.routines || tables == []
  {
    var rest := EventTrace(o) + UnlockTrace(o);
    var gates := LockTrace(o, tables) + FlushTrace(o) + RoutineTrace(o);
    var front := gates + Reads(tables);
    NoReadsLocked(rest);
    if tables == [] {
      NoReadsLocked(front);
      AllLockedConcat(front, rest);
    } else if !o.routines {
      assert gates == [LockTables(tables)] + FlushTrace(o);
      ReadsLocked(tables, FlushTrace(o));
      AllLockedConcat(front, rest);
    } else {
      UnlockedRead(gates, Reads(tables) + rest);
      assert gates + (Reads(tables) + rest) == SelectedTrace(o, tables);
    }
  }

  /** A read right after an UNLOCK TABLES is not locked. */
  lemma UnlockedRead(a: seq<Command>, b: seq<Command>)
    requires a != [] && a[|a| - 1] == UnlockTables && b != [] && b[0].Read?
    ensures !AllLocked(a + b)
  {
    var all, i := a + b, |a|;
    assert all[i] == b[0] && all[i - 1] == UnlockTables;
    forall j | 0 <= j < i && all[j].LockTables?
      ensures exists k :: j < k < i && (all[k].LockTables? || all[k].UnlockTables?)
    {
      assert j < i - 1 < i && all[i - 1].UnlockTables?;
    }
  }

  lemma {:induction false} DatabasesLocked(o: Options, dbs: seq<seq<string>>)
    requires o.lockTables
    ensures AllLocked(DatabasesTrace(o, dbs))
  {
    if dbs != [] {
      DatabasesLocked(o, dbs[..|dbs| - 1]);
      DatabaseLocked(o, dbs[|dbs| - 1]);
      AllLockedConcat(DatabasesTrace(o, dbs[..|dbs| - 1]), DatabaseTrace(o, dbs[|dbs| - 1]));
    }
  }

  lemma {:induction false} ViewsReadNothing(o: Options, dbs: seq<seq<string>>)
    ensures NoReads(AllViewsTrace(o, dbs))
  {
    if dbs != [] { ViewsReadNothing(o, dbs[..|dbs| - 1]); }
  }

  lemma TablesLocked(o: Options, what: What)
    requires o.lockTables
    ensures AllLocked(TablesTrace(o, what)) <==> what.Databases? || !o.routines || what.tables == []
  {
    match what
    case Databases(dbs, views) =>
      var more := if views then AllViewsTrace(o, dbs) else [];
      DatabasesLocked(o, dbs);
      ViewsReadNothing(o, dbs);
      NoReadsLocked(more);
      AllLockedConcat(DatabasesTrace(o, dbs), more);
    case Selected(tables) => SelectedLocked(o, tables);
  }

  /** Events and routines are dumped under locks of their own, and no lock is left at the end
      of a database. */
  lemma ProgramsLocked(o: Options, tables: seq<string>, selected: bool)
    requires o.lockTables
    ensures var sent := if selected then SelectedTrace(o, tables) else DatabaseTrace(o, tables);
      && (o.events ==> LockTables([EVENT_TABLE]) in sent) && (o.routines ==> LockTables([PROC_TABLE]) in sent)
      && sent[|sent| - 1] == UnlockTables && ViewsTrace(o, tables)[|ViewsTrace(o, tables)| - 1] == UnlockTables
  {
    var event, proc := EventTrace(o), RoutineTrace(o);
    assert o.events ==> event[0] == LockTables([EVENT_TABLE]) && event[0] in event;
    assert o.routines ==> proc[0] == LockTables([PROC_TABLE]) && proc[0] in proc;
  }

  // ------------------------------------------------------------ whole dumps

  /** Without a consistent mode there are only the commands for the tables. */
  lemma PlainTrace(o: Options, running: seq<bool>, consistent: bool, what: What, purgeTo: nat)
    requires Accepted(o) && !o.singleTransaction && !o.lockAllTables
    ensures MainTrace(o, running, consistent, what, purgeTo) == TablesTrace(o, what)
  {
    assert [] + TablesTrace(o, what) + [] == TablesTrace(o, what);
  }

  /** In the default mode, each table is read behind a lock that still holds, exactly if whole
      databases are dumped or no routines are. */
  lemma ReadsBehindLocks(o: Options, running: seq<bool>, consistent: bool, what: What, purgeTo: nat)
    requires Accepted(o) && o.lockTables
    ensures AllLocked(MainTrace(o, running, consistent, what, purgeTo)) <==>
      what.Databases? || !o.routines || what.tables == []
  {
    PlainTrace(o, running, consistent, what, purgeTo);
    TablesLocked(o, what);
  }

  /** In the consistent modes nothing but reads is sent for the tables. */
  lemma {:induction false} GatedDatabases(o: Options, dbs: seq<seq<string>>)
    requires !o.lockTables && !o.flushLogs
    ensures AllViewsTrace(o, dbs) == [] && forall c :: c in DatabasesTrace(o, dbs) ==> c.Read?
  {
    if dbs != [] { GatedDatabases(o, dbs[..|dbs| - 1]); }
  }

  lemma GatedReads(o: Options, what: What)
    requires !o.lockTables && !o.flushLogs
    ensures forall c :: c in TablesTrace(o, what) ==> c.Read?
  {
    if what.Databases? { GatedDatabases(o, what.dbs); }
  }

  lemma {:induction false} StopsOnly(running: seq<bool>)
    ensures forall c :: c in StopTrace(running) ==> c.StopSlave?
  {
    if running != [] { StopsOnly(running[..|running| - 1]); }
  }

  lemma {:induction false} StartsOnly(running: seq<bool>)
    ensures forall c :: c in StartTrace(running) ==> c.StartSlave?
  {
    if running != [] { StartsOnly(running[..|running| - 1]); }
  }

  lemma FinishOnly(o: Options, slaves: nat, purgeTo: nat)
    ensures forall c :: c in FinishTrace(o, slaves, purgeTo) ==>
      (c == Purge(purgeTo) && o.deleteMasterLogs) || c.ShowSlaves? || c.StartSlave?
  {
    StartsOnly(Stopped(slaves));
  }

  lemma LockAllOnly(o: Options, running: seq<bool>, consistent: bool)
    ensures forall c :: c in LockAllTrace(o, running, consistent) ==>
      c.ShowSlaves? || c.StopSlave? || c.SnapshotStatus? || c.FlushTables? || (c.LockAll? && LocksAll(o, consistent))
    ensures LockAll in LockAllTrace(o, running, consistent) <==> LocksAll(o, consistent)
    ensures o.singleTransaction && o.masterData ==> SnapshotStatus in LockAllTrace(o, running, consistent)
  {
    StopsOnly(running);
  }

  /** A --lock-all-tables dump never gives its lock back. */
  lemma NeverUnlocks(o: Options, running: seq<bool>, consistent: bool, what: What, purgeTo: nat)
    requires Accepted(o) && o.lockAllTables
    ensures UnlockTables !in MainTrace(o, running, consistent, what, purgeTo)
  {
    LockAllOnly(o, running, consistent);
    GatedReads(Later(o), what);
    FinishOnly(o, |running|, purgeTo);
  }

  /** No LOCK TABLES, log flush or global lock from the snapshot on. */
  ghost predicate QuietAfterBegin(sent: seq<Command>) {
    forall i, j :: 0 <= i < j < |sent| && sent[i] == Begin ==>
      !sent[j].LockTables? && !sent[j].RefreshLog? && !sent[j].LockAll?
  }

  lemma QuietSplit(before: seq<Command>, after: seq<Command>)
    requires Begin !in before && forall c :: c in after ==> !c.LockTables? && !c.RefreshLog? && !c.LockAll?
    ensures QuietAfterBegin(before + after)
  {
    var sent := before + after;
    forall i, j | 0 <= i < j < |sent| && sent[i] == Begin
      ensures !sent[j].LockTables? && !sent[j].RefreshLog? && !sent[j].LockAll?
    {
      assert sent[i] in before || i >= |before|;
      assert sent[j] == after[j - |before|] && sent[j] in after;
    }
  }

  /** The commands up to the log flush, and those after it. */
  function AfterFlush(o: Options, running: seq<bool>, consistent: bool, what: What, purgeTo: nat): seq<Command> {
    StatusTrace(o) + PinTrace(o, consistent) + TablesTrace(Later(o), what) + FinishTrace(o, |running|, purgeTo)
  }

  lemma FlushSplit(o: Options, running: seq<bool>, consistent: bool, what: What, purgeTo: nat)
    ensures MainTrace(o, running, consistent, what, purgeTo) ==
      LockAllTrace(o, running, consistent) + EarlyFlush(o) + AfterFlush(o, running, consistent, what, purgeTo)
  {
    Regroup(LockAllTrace(o, running, consistent) + EarlyFlush(o), StatusTrace(o), PinTrace(o, consistent),
            TablesTrace(Later(o), what), FinishTrace(o, |running|, purgeTo));
  }

  lemma Regroup(a: seq<Command>, b: seq<Command>, c: seq<Command>, d: seq<Command>, e: seq<Command>)
    ensures a + b + c + d + e == a + (b + c + d + e)
  {
    assert a + b + c == a + (b + c);
    assert a + (b + c) + d == a + (b + c + d);
  }

  lemma PinOnly(o: Options, consistent: bool)
    ensures forall c :: c in PinTrace(o, consistent) ==>
      c.Begin? || c.SnapshotStatus? || c.MasterStatus? || c.ShowSlaves? || c.UnlockTables?
  {
  }

  lemma AfterFlushOnly(o: Options, running: seq<bool>, consistent: bool, what: What, purgeTo: nat)
    requires Accepted(o) && (o.singleTransaction || o.lockAllTables)
    ensures forall c :: c in AfterFlush(o, running, consistent, what, purgeTo) ==>
      !c.LockTables? && !c.RefreshLog? && !c.LockAll? && !c.FlushTables?
  {
    PinOnly(o, consistent);
    GatedReads(Later(o), what);
    FinishOnly(o, |running|, purgeTo);
    var status, pin := StatusTrace(o), PinTrace(o, consistent);
    var tables, end := TablesTrace(Later(o), what), FinishTrace(o, |running|, purgeTo);
    forall c | c in AfterFlush(o, running, consistent, what, purgeTo)
      ensures !c.LockTables? && !c.RefreshLog? && !c.LockAll? && !c.FlushTables?
    {
      InOneOf(status, pin, tables, end, c);
    }
  }

  lemma InOneOf(a: seq<Command>, b: seq<Command>, c: seq<Command>, d: seq<Command>, x: Command)
    requires x in a + b + c + d
    ensures x in a || x in b || x in c || x in d
  {
  }

  lemma QuietSnapshot(o: Options, running: seq<bool>, consistent: bool, what: What, purgeTo: nat)
    requires Accepted(o) && o.singleTransaction
    ensures QuietAfterBegin(MainTrace(o, running, consistent, what, purgeTo))
  {
    FlushSplit(o, running, consistent, what, purgeTo);
    LockAllOnly(o, running, consistent);
    AfterFlushOnly(o, running, consistent, what, purgeTo);
    QuietSplit(LockAllTrace(o, running, consistent) + EarlyFlush(o), AfterFlush(o, running, consistent, what, purgeTo));
  }

  /** One log flush, behind the global lock if that is taken, and before the snapshot, the
      positions and all reads. */
  ghost predicate FlushedFirst(sent: seq<Command>) {
    exists f :: 0 <= f < |sent| && sent[f] == RefreshLog &&
      (forall i :: 0 <= i < f ==> !sent[i].RefreshLog? && !sent[i].Begin? && !sent[i].MasterStatus? && !sent[i].Read?) &&
      (forall i :: f < i < |sent| ==> !sent[i].RefreshLog? && !sent[i].LockAll?)
  }

  lemma FlushPlace(before: seq<Command>, after: seq<Command>)
    requires forall c :: c in before ==> !c.RefreshLog? && !c.Begin? && !c.MasterStatus? && !c.Read?
    requires forall c :: c in after ==> !c.RefreshLog? && !c.LockAll?
    ensures FlushedFirst(before + [RefreshLog] + after)
  {
    var sent, f := before + [RefreshLog] + after, |before|;
    assert sent[f] == RefreshLog;
    forall i | 0 <= i < f ensures !sent[i].RefreshLog? && !sent[i].Begin? && !sent[i].MasterStatus? && !sent[i].Read? {
      assert sent[i] in before;
    }
    forall i | f < i < |sent| ensures !sent[i].RefreshLog? && !sent[i].LockAll? {
      assert sent[i] == after[i - f - 1] && sent[i] in after;
    }
  }

  /** In the consistent modes the logs are flushed exactly if asked to, once, and in time; and
      the global lock is taken exactly if something needs it. */
  lemma FlushesOnce(o: Options, running: seq<bool>, consistent: bool, what: What, purgeTo: nat)
    requires Accepted(o) && (o.singleTransaction || o.lockAllTables)
    ensures var sent := MainTrace(o, running, consistent, what, purgeTo);
      && (LockAll in sent <==> LocksAll(o, consistent))
      && if o.flushLogs || o.deleteMasterLogs then FlushedFirst(sent) else RefreshLog !in sent
  {
    var before, after := LockAllTrace(o, running, consistent), AfterFlush(o, running, consistent, what, purgeTo);
    FlushSplit(o, running, consistent, what, purgeTo);
    LockAllOnly(o, running, consistent);
    AfterFlushOnly(o, running, consistent, what, purgeTo);
    FlushOrNot(before, EarlyFlush(o), after);
  }

  lemma FlushOrNot(before: seq<Command>, flush: seq<Command>, after: seq<Command>)
    requires forall c :: c in before ==> !c.RefreshLog? && !c.Begin? && !c.MasterStatus? && !c.Read?
    requires forall c :: c in after ==> !c.RefreshLog? && !c.LockAll?
    requires flush == [RefreshLog] || flush == []
    ensures var sent := before + flush + after;
      && (LockAll in sent <==> LockAll in before)
      && if flush != [] then FlushedFirst(sent) else RefreshLog !in sent
  {
    if flush != [] { FlushPlace(before, after); }
  }

  /** How often the default mode flushes the logs: for each database, and again for its views. */
  function Flushes(what: What): nat {
    match what
    case Databases(dbs, views) => if views then 2 * |dbs| else |dbs|
    case Selected(_) => 1
  }

  lemma {:induction false} DatabaseFlushes(o: Options, dbs: seq<seq<string>>)
    ensures multiset(DatabasesTrace(o, dbs))[RefreshLog] == if o.flushLogs then |dbs| else 0
    ensures multiset(AllViewsTrace(o, dbs))[RefreshLog] == if o.flushLogs then |dbs| else 0
  {
    if dbs != [] {
      DatabaseFlushes(o, dbs[..|dbs| - 1]);
      OneFlush(o, dbs[|dbs| - 1]);
      ViewsFlush(o, dbs[|dbs| - 1]);
    }
  }

  lemma NoFlush(sent: seq<Command>)
    requires forall i :: 0 <= i < |sent| ==> !sent[i].RefreshLog?
    ensures multiset(sent)[RefreshLog] == 0
  {
    assert RefreshLog !in sent;
  }

  /** Flushes before commands that are none. */
  lemma FlushesIn(a: seq<Command>, b: seq<Command>, c: seq<Command>, d: seq<Command>)
    requires forall i :: 0 <= i < |b| ==> !b[i].RefreshLog?
    requires forall i :: 0 <= i < |c| ==> !c[i].RefreshLog?
    requires forall i :: 0 <= i < |d| ==> !d[i].RefreshLog?
    ensures multiset(a + b + c + d)[RefreshLog] == multiset(a)[RefreshLog]
  {
    NoFlush(b);
    NoFlush(c);
    NoFlush(d);
  }

  lemma GateFlush(o: Options, tables: seq<string>)
    ensures multiset(LockTrace(o, tables) + FlushTrace(o))[RefreshLog] == if o.flushLogs then 1 else 0
  {
    NoFlush(LockTrace(o, tables));
  }

  lemma OneFlush(o: Options, tables: seq<string>)
    ensures multiset(DatabaseTrace(o, tables))[RefreshLog] == if o.flushLogs then 1 else 0
  {
    var front, all := LockTrace(o, tables) + FlushTrace(o), Reads(tables);
    var rest := EventTrace(o) + RoutineTrace(o) + UnlockTrace(o);
    GateFlush(o, tables);
    FlushesIn(front, all, rest, []);
    assert front + all + rest + [] == front + all + rest;
  }

  lemma ViewsFlush(o: Options, tables: seq<string>)
    ensures multiset(ViewsTrace(o, tables))[RefreshLog] == if o.flushLogs then 1 else 0
  {
    GateFlush(o, tables);
    NoFlush(UnlockTrace(o));
  }

  lemma SelectedFlush(o: Options, tables: seq<string>)
    ensures multiset(SelectedTrace(o, tables))[RefreshLog] == if o.flushLogs then 1 else 0
  {
    GateFlush(o, tables);
    FlushesIn(LockTrace(o, tables) + FlushTrace(o), RoutineTrace(o), Reads(tables), EventTrace(o) + UnlockTrace(o));
  }

  lemma FlushesEach(o: Options, running: seq<bool>, consistent: bool, what: What, purgeTo: nat)
    requires Accepted(o) && !o.singleTransaction && !o.lockAllTables
    ensures multiset(MainTrace(o, running, consistent, what, purgeTo))[RefreshLog] == if o.flushLogs then Flushes(what) else 0
  {
    PlainTrace(o, running, consistent, what, purgeTo);
    match what
    case Databases(dbs, views) => DatabaseFlushes(o, dbs);
    case Selected(tables) => SelectedFlush(o, tables);
  }

  /** The old logs are purged exactly if asked to, and after everything was read. */
  ghost predicate PurgesLast(sent: seq<Command>, purgeTo: nat) {
    Purge(purgeTo) in sent && forall i, j :: 0 <= i < j < |sent| && sent[i].Purge? ==> !sent[j].Read? && !sent[j].Purge?
  }

  lemma {:induction false} DatabasesPurgeNothing(o: Options, dbs: seq<seq<string>>)
    ensures forall c :: c in DatabasesTrace(o, dbs) + AllViewsTrace(o, dbs) ==> !c.Purge?
  {
    if dbs != [] { DatabasesPurgeNothing(o, dbs[..|dbs| - 1]); }
  }

  /** Everything before the end of main. */
  lemma PreparePurgesNothing(o: Options, running: seq<bool>, consistent: bool)
    ensures forall c :: c in PrepareTrace(o, running, consistent) ==> !c.Purge?
  {
    LockAllOnly(o, running, consistent);
    PinOnly(o, consistent);
    var lock, flush, status, pin := LockAllTrace(o, running, consistent), EarlyFlush(o), StatusTrace(o), PinTrace(o, consistent);
    forall c: Command | c in lock + flush + status + pin ensures !c.Purge? {
      InOneOf(lock, flush, status, pin, c);
    }
  }

  lemma TablesPurgeNothing(o: Options, what: What)
    ensures forall c :: c in TablesTrace(o, what) ==> !c.Purge?
  {
    if what.Databases? { DatabasesPurgeNothing(o, what.dbs); }
  }

  lemma PurgesIfAsked(o: Options, running: seq<bool>, consistent: bool, what: What, purgeTo: nat)
    ensures var sent := MainTrace(o, running, consistent, what, purgeTo);
      if o.deleteMasterLogs then PurgesLast(sent, purgeTo) else forall i :: 0 <= i < |sent| ==> !sent[i].Purge?
  {
    PreparePurgesNothing(o, running, consistent);
    TablesPurgeNothing(Later(o), what);
    StartsOnly(Stopped(|running|));
    PurgePlace(PrepareTrace(o, running, consistent), TablesTrace(Later(o), what), PurgeTrace(o, purgeTo),
               StartAllTrace(o, |running|), purgeTo);
  }

  lemma PurgePlace(a: seq<Command>, b: seq<Command>, purge: seq<Command>, after: seq<Command>, purgeTo: nat)
    requires (forall c :: c in a ==> !c.Purge?) && (forall c :: c in b ==> !c.Purge?)
    requires (forall c :: c in after ==> !c.Purge? && !c.Read?) && (purge == [Purge(purgeTo)] || purge == [])
    ensures var sent := a + b + (purge + after);
      if purge != [] then PurgesLast(sent, purgeTo) else forall i :: 0 <= i < |sent| ==> !sent[i].Purge?
  {
    var before, sent := a + b, a + b + (purge + after);
    forall i | 0 <= i < |before| ensures !sent[i].Purge? {
      assert before[i] in a || before[i] in b;
    }
    forall i | |before| + |purge| <= i < |sent| ensures !sent[i].Purge? && !sent[i].Read? {
      assert sent[i] == after[i - |before| - |purge|] && sent[i] in after;
    }
    if purge != [] { assert sent[|before|] == Purge(purgeTo); }
  }

  /** What the order of the commands guarantees, in each mode. */
  ghost predicate WellOrdered(o: Options, consistent: bool, what: What, purgeTo: nat, sent: seq<Command>) {
    && (o.lockAllTables ==> UnlockTables !in sent)
    && (o.singleTransaction ==> QuietAfterBegin(sent))
    && (o.lockTables ==> (AllLocked(sent) <==> what.Databases? || !o.routines || what.tables == []))
    && (if o.singleTransaction || o.lockAllTables
        then (LockAll in sent <==> LocksAll(o, consistent)) &&
             if o.flushLogs || o.deleteMasterLogs then FlushedFirst(sent) else RefreshLog !in sent
        else multiset(sent)[RefreshLog] == if o.flushLogs then Flushes(what) else 0)
    && (if o.deleteMasterLogs then PurgesLast(sent, purgeTo) else forall i :: 0 <= i < |sent| ==> !sent[i].Purge?)
  }

  lemma TraceIsOrdered(o: Options, running: seq<bool>, consistent: bool, what: What, purgeTo: nat)
    requires Accepted(o)
    ensures WellOrdered(o, consistent, what, purgeTo, MainTrace(o, running, consistent, what, purgeTo))
  {
    if o.lockAllTables { NeverUnlocks(o, running, consistent, what, purgeTo); }
    if o.singleTransaction { QuietSnapshot(o, running, consistent, what, purgeTo); }
    if o.lockTables { ReadsBehindLocks(o, running, consistent, what, purgeTo); }
    if o.singleTransaction || o.lockAllTables {
      FlushesOnce(o, running, consistent, what, purgeTo);
    } else {
      FlushesEach(o, running, consistent, what, purgeTo);
    }
    PurgesIfAsked(o, running, consistent, what, purgeTo);
  }
}
