/** The consistent-dump protocol of mysqldump (client/mysqldump.c): option rules, the order
    of locks, log flush, snapshot and position in main, and the gates in the functions that
    dump databases. */
module Dump {
  import opened Text
  import opened DumpServer
  import opened DumpTrace

  /** The locking part of get_options, on the options as given. */
  method GetOptions(given: Options) returns (r: Option<Options>)
    ensures r.None? <==> given.singleTransaction && given.lockAllTables && !given.slaveData
    ensures r.Some? ==> Accepted(r.value)
    ensures r.Some? ==>
      && r.value.singleTransaction == given.singleTransaction && r.value.flushLogs == given.flushLogs
      && r.value.masterData == ((given.masterData || given.deleteMasterLogs) && !given.slaveData)
      && r.value.slaveData == given.slaveData
      && r.value.deleteMasterLogs == (given.deleteMasterLogs && !given.slaveData)
      && r.value.lockAllTables == (!given.singleTransaction &&
           (given.lockAllTables || given.slaveData || given.masterData || given.deleteMasterLogs))
      && r.value.events == given.events && r.value.routines == given.routines
      && r.value.lockTables == (given.lockTables && !r.value.singleTransaction && !r.value.lockAllTables)
  {
    var o := given;
    if o.slaveData {
      o := o.(lockAllTables := !o.singleTransaction, masterData := false, deleteMasterLogs := false);
    }
    if o.deleteMasterLogs && !o.masterData { o := o.(masterData := true); }
    if o.singleTransaction && o.lockAllTables { return None; }
    if o.masterData { o := o.(lockAllTables := !o.singleTransaction, slaveData := false); }
    if o.singleTransaction || o.lockAllTables { o := o.(lockTables := false); }
    return Some(o);
  }

  datatype Dumped = Dumped(table: string, rows: Rows)

  /** The position in the server's own log, those of its slaves in their masters' logs, and
      the tables, database by database. */
  datatype DumpFile = DumpFile(position: Option<Position>, slaves: Option<seq<nat>>, parts: seq<seq<Dumped>>)

  function Names(out: seq<Dumped>): seq<string> {
    seq(|out|, i requires 0 <= i < |out| => out[i].table)
  }

  /** The tables of every database that is dumped. */
  function TablesOf(what: What): seq<seq<string>> {
    if what.Databases? then what.dbs else [what.tables]
  }

  ghost predicate Named(parts: seq<seq<Dumped>>, dbs: seq<seq<string>>) {
    |parts| == |dbs| && forall i :: 0 <= i < |dbs| ==> Names(parts[i]) == dbs[i]
  }

  /** All dumped tables are as of point `n` of the history. */
  ghost predicate AsOf(base: Data, history: seq<Transaction>, n: nat, out: seq<Dumped>) {
    n <= |history| && forall i :: 0 <= i < |out| ==> out[i].rows == Content(Replay(base, history[..n]), out[i].table)
  }

  /** The past does not change. */
  lemma AsOfLater(base: Data, history: seq<Transaction>, history': seq<Transaction>, n: nat, out: seq<Dumped>)
    requires AsOf(base, history, n, out) && history <= history'
    ensures AsOf(base, history', n, out)
  {
    assert history'[..n] == history[..n];
  }

  ghost predicate AllAsOf(base: Data, history: seq<Transaction>, points: seq<nat>, parts: seq<seq<Dumped>>) {
    |points| == |parts| && forall i :: 0 <= i < |parts| ==> AsOf(base, history, points[i], parts[i])
  }

  lemma AllAsOfLater(base: Data, history: seq<Transaction>, history': seq<Transaction>, points: seq<nat>, parts: seq<seq<Dumped>>)
    requires AllAsOf(base, history, points, parts) && history <= history'
    ensures AllAsOf(base, history', points, parts)
  {
    forall i | 0 <= i < |parts| ensures AsOf(base, history', points[i], parts[i]) {
      AsOfLater(base, history, history', points[i], parts[i]);
    }
  }

  // ------------------------------------------------------------ the tables

  /** The server only goes on: nothing that was logged is lost, and nothing is purged, started
      or stopped. */
  twostate predicate GoesOn(srv: Server)
    reads srv
  {
    && srv.Valid() && srv.purged == old(srv.purged) && srv.running == old(srv.running)
    && old(srv.files) <= srv.files && old(srv.history) <= srv.history && old(srv.origins) <= srv.origins
  }

  /** dump_events_for_db and dump_routines_for_db: the lock around mysql.event or mysql.proc. */
  method DumpPrograms(o: Options, srv: Server, dumped: bool, table: string)
    requires srv.Valid()
    modifies srv
    ensures GoesOn(srv) && srv.sent == old(srv.sent) + ProgramTrace(o, dumped, table)
    ensures ProgramTrace(o, dumped, table) == [] ==> unchanged(srv)
  {
    if dumped && o.lockTables {
      srv.LockSomeTables([table]);
      srv.Unlock();
    }
  }

  /** What is read of these tables is as of point `n`. */
  ghost predicate Fixed(srv: Server, tables: seq<string>, n: nat)
    reads srv
  {
    srv.Pinned(n) || (srv.snapshot == None && srv.Holds(n) && forall i :: 0 <= i < |tables| ==> tables[i] in srv.held)
  }

  /** The rows of some tables, one after the other. */
  method ReadTables(srv: Server, tables: seq<string>, ghost fixed: bool, ghost n: nat) returns (out: seq<Dumped>)
    requires srv.Valid() && (fixed ==> Fixed(srv, tables, n))
    modifies srv`history, srv`origins, srv`files, srv`sent
    ensures GoesOn(srv) && Names(out) == tables && srv.sent == old(srv.sent) + Reads(tables)
    ensures fixed ==> AsOf(srv.base, srv.history, n, out)
    ensures old(srv.Pinned(n)) ==> srv.Pinned(n)
  {
    out := [];
    for i := 0 to |tables|
      invariant GoesOn(srv) && Names(out) == tables[..i] && srv.sent == old(srv.sent) + Reads(tables[..i])
      invariant (old(srv.Pinned(n)) ==> srv.Pinned(n)) && (old(srv.Holds(n)) ==> srv.Holds(n))
      invariant fixed ==> AsOf(srv.base, srv.history, n, out)
    {
      ghost var history := srv.history;
      var rows := srv.ReadTable(tables[i]);
      if fixed { AsOfLater(srv.base, history, srv.history, n, out); }
      assert Reads(tables[..i + 1]) == Reads(tables[..i]) + [Read(tables[i])];
      out := out + [Dumped(tables[i], rows)];
    }
    assert tables[..|tables|] == tables;
  }

  /** What is sent before the tables of a database, if a gate is open. The locked tables are
      those of point `n`. */
  method OpenGates(o: Options, srv: Server, tables: seq<string>) returns (ghost n: nat)
    requires srv.Valid()
    modifies srv
    ensures GoesOn(srv) && srv.sent == old(srv.sent) + (LockTrace(o, tables) + FlushTrace(o))
    ensures LockTrace(o, tables) + FlushTrace(o) == [] ==> unchanged(srv)
    ensures srv.locked == old(srv.locked)
    ensures o.lockTables && tables != [] ==> Fixed(srv, tables, n)
  {
    n := 0;
    if o.lockTables && tables != [] {
      srv.LockSomeTables(tables);
      n := |srv.history|;
    }
    if o.flushLogs { srv.Refresh(); }
  }

  /** And after them, with the events and perhaps the routines. */
  method CloseGates(o: Options, srv: Server, routines: bool)
    requires srv.Valid()
    modifies srv
    ensures GoesOn(srv)
    ensures srv.sent == old(srv.sent) + (EventTrace(o) + (if routines then RoutineTrace(o) else []) + UnlockTrace(o))
    ensures !o.lockTables ==> unchanged(srv)
  {
    DumpPrograms(o, srv, o.events, EVENT_TABLE);
    DumpPrograms(o, srv, routines && o.routines, PROC_TABLE);
    if o.lockTables { srv.Unlock(); }
  }

  /** dump_all_tables_in_db: under --lock-tables, the tables of the database are as of one
      point. */
  method DumpDatabase(o: Options, srv: Server, tables: seq<string>, ghost pinned: bool, ghost n: nat)
    returns (out: seq<Dumped>, ghost point: nat)
    requires srv.Valid() && (pinned ==> !o.lockTables && !o.flushLogs && srv.Pinned(n))
    modifies srv
    ensures GoesOn(srv) && Names(out) == tables && srv.sent == old(srv.sent) + DatabaseTrace(o, tables)
    ensures pinned ==> srv.Pinned(n) && AsOf(srv.base, srv.history, n, out)
    ensures o.lockTables ==> AsOf(srv.base, srv.history, point, out)
    ensures !o.lockTables ==> srv.locked == old(srv.locked)
  {
    point := OpenGates(o, srv, tables);
    point := if pinned then n else if tables == [] then 0 else point;
    ghost var fixed := pinned || (o.lockTables && tables != []);
    out := ReadTables(srv, tables, fixed, point);
    ghost var history := srv.history;
    CloseGates(o, srv, true);
    if fixed { AsOfLater(srv.base, history, srv.history, point, out); }
    InOrder(old(srv.sent), LockTrace(o, tables) + FlushTrace(o), Reads(tables), EventTrace(o) + RoutineTrace(o) + UnlockTrace(o));
  }

  lemma InOrder(sent: seq<Command>, a: seq<Command>, b: seq<Command>, c: seq<Command>)
    ensures sent + a + b + c == sent + (a + b + c)
  {
  }

  /** dump_selected_tables: the same only without routines, whose lock comes before the reads. */
  method DumpSelected(o: Options, srv: Server, tables: seq<string>, ghost pinned: bool, ghost n: nat)
    returns (out: seq<Dumped>, ghost point: nat)
    requires srv.Valid() && (pinned ==> !o.lockTables && !o.flushLogs && srv.Pinned(n))
    modifies srv
    ensures GoesOn(srv) && Names(out) == tables && srv.sent == old(srv.sent) + SelectedTrace(o, tables)
    ensures pinned ==> srv.Pinned(n) && AsOf(srv.base, srv.history, n, out)
    ensures o.lockTables && !o.routines ==> AsOf(srv.base, srv.history, point, out)
    ensures !o.lockTables ==> srv.locked == old(srv.locked)
  {
    point := OpenGates(o, srv, tables);
    DumpPrograms(o, srv, o.routines, PROC_TABLE);
    point := if pinned then n else if tables == [] then 0 else point;
    ghost var fixed := pinned || (o.lockTables && !o.routines && tables != []);
    out := ReadTables(srv, tables, fixed, point);
    ghost var history := srv.history;
    CloseGates(o, srv, false);
    if fixed { AsOfLater(srv.base, history, srv.history, point, out); }
    SelectedOrder(old(srv.sent), LockTrace(o, tables) + FlushTrace(o), RoutineTrace(o), Reads(tables), EventTrace(o), UnlockTrace(o));
  }

  lemma SelectedOrder(sent: seq<Command>, a: seq<Command>, b: seq<Command>, c: seq<Command>, d: seq<Command>, e: seq<Command>)
    ensures sent + a + b + c + (d + [] + e) == sent + (a + b + c + (d + e))
  {
    assert d + [] == d;
    InOrder(sent, a, b, c);
    InOrder(sent, a + b, c, d + e);
  }

  /** dump_all_views_in_db: the gates around the views of one database. */
  method DumpViews(o: Options, srv: Server, tables: seq<string>)
    requires srv.Valid()
    modifies srv
    ensures GoesOn(srv) && srv.sent == old(srv.sent) + ViewsTrace(o, tables) && (!o.lockTables ==> srv.locked == old(srv.locked))
    ensures !o.lockTables && !o.flushLogs ==> unchanged(srv)
  {
    ghost var n := OpenGates(o, srv, tables);
    if o.lockTables { srv.Unlock(); }
  }

  /** The views of all databases. */
  method DumpAllViews(o: Options, srv: Server, dbs: seq<seq<string>>)
    requires srv.Valid()
    modifies srv
    ensures GoesOn(srv) && srv.sent == old(srv.sent) + AllViewsTrace(o, dbs) && (!o.lockTables ==> srv.locked == old(srv.locked))
    ensures !o.lockTables && !o.flushLogs ==> unchanged(srv)
  {
    for i := 0 to |dbs|
      invariant GoesOn(srv) && srv.sent == old(srv.sent) + AllViewsTrace(o, dbs[..i])
      invariant !o.lockTables ==> srv.locked == old(srv.locked)
      invariant !o.lockTables && !o.flushLogs ==> unchanged(srv)
    {
      assert dbs[..i + 1][..i] == dbs[..i];
      DumpViews(o, srv, dbs[i]);
    }
    assert dbs[..|dbs|] == dbs;
  }

  lemma OneMore(base: Data, history: seq<Transaction>, history': seq<Transaction>, points: seq<nat>, parts: seq<seq<Dumped>>,
                point: nat, more: seq<Dumped>)
    requires AllAsOf(base, history, points, parts) && history <= history' && AsOf(base, history', point, more)
    ensures AllAsOf(base, history', points + [point], parts + [more])
  {
    AllAsOfLater(base, history, history', points, parts);
  }

  lemma NamedMore(parts: seq<seq<Dumped>>, dbs: seq<seq<string>>, more: seq<Dumped>, i: nat)
    requires i < |dbs| && Named(parts, dbs[..i]) && Names(more) == dbs[i]
    ensures Named(parts + [more], dbs[..i + 1])
  {
  }

  lemma TraceMore(sent: seq<Command>, o: Options, dbs: seq<seq<string>>, i: nat)
    requires i < |dbs|
    ensures sent + DatabasesTrace(o, dbs[..i]) + DatabaseTrace(o, dbs[i]) == sent + DatabasesTrace(o, dbs[..i + 1])
  {
    assert dbs[..i + 1][..i] == dbs[..i];
    InOrder(sent, DatabasesTrace(o, dbs[..i]), DatabaseTrace(o, dbs[i]), []);
  }

  /** The tables of all databases. */
  method DumpAllTables(o: Options, srv: Server, dbs: seq<seq<string>>, ghost pinned: bool, ghost n: nat)
    returns (parts: seq<seq<Dumped>>, ghost points: seq<nat>)
    requires srv.Valid() && (pinned ==> !o.lockTables && !o.flushLogs && srv.Pinned(n))
    modifies srv
    ensures GoesOn(srv) && Named(parts, dbs) && srv.sent == old(srv.sent) + DatabasesTrace(o, dbs)
    ensures !o.lockTables ==> srv.locked == old(srv.locked)
    ensures |points| == |dbs| && (pinned ==> srv.Pinned(n) && forall i :: 0 <= i < |dbs| ==> points[i] == n)
    ensures pinned || o.lockTables ==> AllAsOf(srv.base, srv.history, points, parts)
  {
    parts, points := [], [];
    for i := 0 to |dbs|
      invariant GoesOn(srv) && Named(parts, dbs[..i]) && srv.sent == old(srv.sent) + DatabasesTrace(o, dbs[..i])
      invariant !o.lockTables ==> srv.locked == old(srv.locked)
      invariant |points| == i && (pinned ==> srv.Pinned(n) && forall j :: 0 <= j < i ==> points[j] == n)
      invariant pinned || o.lockTables ==> AllAsOf(srv.base, srv.history, points, parts)
    {
      ghost var history := srv.history;
      var more; ghost var point;
      more, point := DumpDatabase(o, srv, dbs[i], pinned, n);
      if pinned { point := n; }
      if pinned || o.lockTables { OneMore(srv.base, history, srv.history, points, parts, point, more); }
      NamedMore(parts, dbs, more, i);
      TraceMore(old(srv.sent), o, dbs, i);
      parts, points := parts + [more], points + [point];
    }
    assert dbs[..|dbs|] == dbs;
  }

  /** dump_databases: the tables of every database, then the views. */
  method DumpDatabases(o: Options, srv: Server, dbs: seq<seq<string>>, views: bool, ghost pinned: bool, ghost n: nat)
    returns (parts: seq<seq<Dumped>>, ghost points: seq<nat>)
    requires srv.Valid() && (pinned ==> !o.lockTables && !o.flushLogs && srv.Pinned(n))
    modifies srv
    ensures GoesOn(srv) && Named(parts, dbs) && srv.sent == old(srv.sent) + TablesTrace(o, Databases(dbs, views))
    ensures !o.lockTables ==> srv.locked == old(srv.locked)
    ensures |points| == |dbs| && (pinned ==> srv.Pinned(n) && forall i :: 0 <= i < |dbs| ==> points[i] == n)
    ensures pinned || o.lockTables ==> AllAsOf(srv.base, srv.history, points, parts)
  {
    parts, points := DumpAllTables(o, srv, dbs, pinned, n);
    ghost var history := srv.history;
    if views { DumpAllViews(o, srv, dbs); }
    if pinned || o.lockTables { AllAsOfLater(srv.base, history, srv.history, points, parts); }
  }

  /** Whatever there is to dump. */
  method DumpTables(o: Options, srv: Server, what: What, ghost pinned: bool, ghost n: nat)
    returns (parts: seq<seq<Dumped>>, ghost points: seq<nat>)
    requires srv.Valid() && (pinned ==> !o.lockTables && !o.flushLogs && srv.Pinned(n))
    modifies srv
    ensures GoesOn(srv) && Named(parts, TablesOf(what)) && srv.sent == old(srv.sent) + TablesTrace(o, what)
    ensures !o.lockTables ==> srv.locked == old(srv.locked)
    ensures |points| == |parts| && (pinned ==> srv.Pinned(n) && forall i :: 0 <= i < |parts| ==> points[i] == n)
    ensures pinned || (o.lockTables && (what.Databases? || !o.routines)) ==> AllAsOf(srv.base, srv.history, points, parts)
  {
    match what
    case Databases(dbs, views) =>
      parts, points := DumpDatabases(o, srv, dbs, views, pinned, n);
    case Selected(tables) =>
      var out; ghost var point;
      out, point := DumpSelected(o, srv, tables, pinned, n);
      parts, points := [out], [if pinned then n else point];
  }

  // ------------------------------------------------------------ the slaves

  /** do_stop_slave_sql: the slaves stop, and stay where they are. */
  method StopSlaves(srv: Server)
    requires srv.Valid()
    modifies srv
    ensures srv.Valid() && unchanged(srv`purged, srv`locked, srv`snapshot) && old(srv.files) <= srv.files
    ensures NoneRunning(srv.running) && |srv.running| == |old(srv.running)|
    ensures srv.sent == old(srv.sent) + ([ShowSlaves] + StopTrace(old(srv.running)))
  {
    var positions := srv.ShowSlaveStatus();
    ghost var was := srv.running;
    for j := 0 to |srv.running|
      invariant srv.Valid() && unchanged(srv`purged, srv`locked, srv`snapshot) && old(srv.files) <= srv.files
      invariant |srv.running| == |was| && srv.running[j..] == was[j..] && forall i :: 0 <= i < j ==> !srv.running[i]
      invariant srv.sent == old(srv.sent) + ([ShowSlaves] + StopTrace(was[..j]))
    {
      assert srv.running[j] == srv.running[j..][0] == was[j] && was[..j + 1][..j] == was[..j];
      if srv.running[j] { srv.SetSlave(j, false); }
      assert srv.running[j + 1..] == was[j..][1..];
    }
    assert was[..|was|] == was;
  }

  ghost predicate AllRunning(running: seq<bool>) {
    forall j :: 0 <= j < |running| ==> running[j]
  }

  /** do_start_slave_sql: every slave that does not run is started. */
  method StartSlaves(srv: Server)
    requires srv.Valid()
    modifies srv
    ensures srv.Valid() && unchanged(srv`purged, srv`locked) && old(srv.files) <= srv.files
    ensures old(srv.history) <= srv.history && old(srv.origins) <= srv.origins
    ensures |srv.running| == |old(srv.running)| && AllRunning(srv.running)
    ensures srv.sent == old(srv.sent) + ([ShowSlaves] + StartTrace(old(srv.running)))
  {
    var positions := srv.ShowSlaveStatus();
    ghost var was := srv.running;
    for j := 0 to |srv.running|
      invariant srv.Valid() && unchanged(srv`purged, srv`locked) && old(srv.files) <= srv.files
      invariant old(srv.history) <= srv.history && old(srv.origins) <= srv.origins
      invariant |srv.running| == |was| && srv.running[j..] == was[j..] && forall i :: 0 <= i < j ==> srv.running[i]
      invariant srv.sent == old(srv.sent) + ([ShowSlaves] + StartTrace(was[..j]))
    {
      assert srv.running[j] == srv.running[j..][0] == was[j] && was[..j + 1][..j] == was[..j];
      if !srv.running[j] { srv.SetSlave(j, true); }
      assert srv.running[j + 1..] == was[j..][1..];
    }
    assert was[..|was|] == was;
  }

  /** The positions of the slaves are those they had at point `n` of the history. */
  ghost predicate SlavesAsOf(origins: seq<Origin>, n: nat, positions: seq<nat>) {
    n <= |origins| && forall j :: 0 <= j < |positions| ==> positions[j] == Executed(origins[..n], j)
  }

  /** Positions of the past do not change. */
  lemma SlavesLater(origins: seq<Origin>, origins': seq<Origin>, n: nat, positions: seq<nat>)
    requires SlavesAsOf(origins, n, positions) && origins <= origins'
    ensures SlavesAsOf(origins', n, positions)
  {
    assert origins'[..n] == origins[..n];
  }

  // ------------------------------------------------------------ main

  /** The global read lock, and the log flush, which in the consistent modes is done here or
      never. */
  method LockAndFlush(o: Options, srv: Server, consistent: bool) returns (o': Options)
    requires srv.Valid() && Accepted(o) && !srv.locked && srv.snapshot == None
    modifies srv
    ensures GoesOn(srv) && srv.snapshot == None && srv.locked == LocksAll(o, consistent) && o' == Later(o)
    ensures o.deleteMasterLogs ==> |old(srv.files)| < |srv.files|
    ensures srv.sent == old(srv.sent) + (if LocksAll(o, consistent) then [FlushTables, LockAll] else []) + EarlyFlush(o)
  {
    o' := o;
    if o.lockAllTables || (o.masterData && !consistent) || (o.singleTransaction && o.flushLogs) {
      srv.LockAllTables();
    }
    if o.lockAllTables || o.masterData || (o.singleTransaction && o.flushLogs) || o.deleteMasterLogs {
      if o.flushLogs || o.deleteMasterLogs { srv.Refresh(); }
      o' := o'.(flushLogs := false);
    }
  }

  /** The snapshot, the positions and the unlock. Afterwards reads are pinned to point `n`,
      which is the printed position. */
  method PinAndPrint(o: Options, srv: Server, consistent: bool)
    returns (position: Option<Position>, slaves: Option<seq<nat>>, ghost n: nat)
    requires srv.Valid() && srv.snapshot == None
    requires !(o.singleTransaction && o.lockAllTables)
    requires o.masterData || o.slaveData ==> o.singleTransaction || o.lockAllTables
    requires o.lockAllTables || (o.masterData && !consistent) ==> srv.locked
    requires consistent ==> o.singleTransaction && o.masterData
    requires o.slaveData ==> NoneRunning(srv.running)
    modifies srv
    ensures GoesOn(srv) && srv.locked == (old(srv.locked) && !o.singleTransaction)
    ensures o.singleTransaction || o.lockAllTables ==> srv.Pinned(n)
    ensures position.Some? <==> o.masterData
    ensures position.Some? ==>
      && srv.ValidPosition(position.value) && srv.Absolute(position.value) == n
      && |old(srv.files)| <= position.value.file + 1
    ensures slaves.Some? <==> o.slaveData
    ensures slaves.Some? ==> |slaves.value| == |srv.running| && SlavesAsOf(srv.origins, n, slaves.value)
    ensures srv.sent == old(srv.sent) + PinTrace(o, consistent)
  {
    n := 0;
    if o.singleTransaction { srv.StartTransaction(); }
    if o.singleTransaction || o.lockAllTables { n := |srv.history|; }
    assert srv.history[..|srv.history|] == srv.history;
    position, slaves := Print(o, srv, consistent, n);
    if o.singleTransaction {
      ghost var origins := srv.origins;
      srv.Unlock();
      if slaves.Some? { SlavesLater(origins, srv.origins, n, slaves.value); }
    }
    InOrder(old(srv.sent), if o.singleTransaction then [Begin] else [], PositionTrace(o, consistent),
            if o.singleTransaction then [UnlockTables] else []);
  }

  /** The positions, while reads are pinned to point `n`. */
  method Print(o: Options, srv: Server, consistent: bool, ghost n: nat)
    returns (position: Option<Position>, slaves: Option<seq<nat>>)
    requires srv.Valid()
    requires o.singleTransaction || o.lockAllTables ==> srv.Pinned(n) && |srv.history| == n
    requires o.masterData || o.slaveData ==> o.singleTransaction || o.lockAllTables
    requires o.masterData ==>
      if consistent then srv.snapshot.Some? && srv.Absolute(srv.snapshot.value.position) == n else srv.locked
    requires o.slaveData ==> NoneRunning(srv.running)
    modifies srv`history, srv`origins, srv`files, srv`sent
    ensures GoesOn(srv)
    ensures o.singleTransaction || o.lockAllTables ==> srv.Pinned(n)
    ensures position.Some? <==> o.masterData
    ensures position.Some? ==>
      && srv.ValidPosition(position.value) && srv.Absolute(position.value) == n
      && if consistent then position.value == srv.snapshot.value.position else |old(srv.files)| <= position.value.file + 1
    ensures slaves.Some? <==> o.slaveData
    ensures slaves.Some? ==> |slaves.value| == |srv.running| && SlavesAsOf(srv.origins, n, slaves.value)
    ensures srv.sent == old(srv.sent) + PositionTrace(o, consistent)
  {
    position, slaves := None, None;
    assert o.slaveData ==> srv.origins[..n] == srv.origins;
    if o.masterData { position := ShowPosition(srv, consistent, n); }
    if o.slaveData { slaves := ShowSlavePositions(srv, n); }
  }

  /** do_show_slave_status: the slaves stand where they stood at the pinned point. */
  method ShowSlavePositions(srv: Server, ghost n: nat) returns (slaves: Option<seq<nat>>)
    requires srv.Valid() && srv.Pinned(n) && NoneRunning(srv.running) && Grew(srv.origins[..n], srv.origins, srv.running)
    modifies srv`history, srv`origins, srv`files, srv`sent
    ensures GoesOn(srv) && srv.Pinned(n) && Grew(old(srv.origins), srv.origins, srv.running)
    ensures slaves.Some? && |slaves.value| == |srv.running| && SlavesAsOf(srv.origins, n, slaves.value)
    ensures srv.sent == old(srv.sent) + [ShowSlaves]
  {
    var positions := srv.ShowSlaveStatus();
    slaves := Some(positions);
    ghost var pinned := srv.origins[..n];
    forall j | 0 <= j < |positions| ensures positions[j] == Executed(pinned, j) {
      ExecutedStays(pinned, srv.origins, srv.running, j);
    }
  }

  /** do_show_master_status: the snapshot's own position, or that of the locked log. */
  method ShowPosition(srv: Server, consistent: bool, ghost n: nat) returns (position: Option<Position>)
    requires srv.Valid() && srv.Pinned(n) && |srv.history| == n
    requires if consistent
      then srv.snapshot.Some? && srv.Absolute(srv.snapshot.value.position) == n
      else srv.locked
    modifies srv`history, srv`origins, srv`files, srv`sent
    ensures GoesOn(srv) && srv.Pinned(n) && Grew(old(srv.origins), srv.origins, srv.running)
    ensures position.Some? && srv.ValidPosition(position.value) && srv.Absolute(position.value) == n
    ensures if consistent then position.value == srv.snapshot.value.position else |old(srv.files)| <= position.value.file + 1
    ensures srv.sent == old(srv.sent) + [if consistent then SnapshotStatus else MasterStatus]
  {
    if consistent {
      srv.Send(SnapshotStatus);
      position := Some(srv.snapshot.value.position);
    } else {
      var p := srv.ShowMasterStatus();
      position := Some(p);
    }
  }

  /** Replaying the log from point `n` on the dumped tables gives the live data. */
  ghost predicate Recovers(base: Data, history: seq<Transaction>, n: nat, out: seq<Dumped>) {
    n <= |history| && forall i :: 0 <= i < |out| ==>
      ReplayTable(out[i].rows, history[n..], out[i].table) == Content(Replay(base, history), out[i].table)
  }

  /** A dump taken as of a point of the log recovers from there, now and after anything
      committed later. */
  lemma AsOfRecovers(base: Data, history: seq<Transaction>, later: seq<Transaction>, n: nat, out: seq<Dumped>)
    requires AsOf(base, history, n, out)
    ensures Recovers(base, history + later, n, out)
  {
    var all := history + later;
    forall i | 0 <= i < |out|
      ensures ReplayTable(out[i].rows, all[n..], out[i].table) == Content(Replay(base, all), out[i].table)
    {
      assert all[..n] == history[..n];
      TableReplay(base, all, n, out[i].table);
    }
  }

  /** No slave comes or goes, and without --dump-slave none is started or stopped. */
  ghost predicate KeepsSlaves(o: Options, before: seq<bool>, after: seq<bool>) {
    |after| == |before| && (!o.slaveData ==> after == before)
  }

  /** The slaves stop, and the server is asked for snapshot positions. */
  method Settle(o: Options, srv: Server)
    requires srv.Valid()
    modifies srv
    ensures srv.Valid() && unchanged(srv`purged, srv`locked, srv`snapshot) && old(srv.files) <= srv.files
    ensures KeepsSlaves(o, old(srv.running), srv.running) && (o.slaveData ==> NoneRunning(srv.running))
    ensures srv.sent == old(srv.sent) + ((if o.slaveData then [ShowSlaves] + StopTrace(old(srv.running)) else [])
      + (if o.singleTransaction && o.masterData then [SnapshotStatus] else []))
  {
    if o.slaveData { StopSlaves(srv); }
    if o.singleTransaction && o.masterData { srv.Send(SnapshotStatus); }
  }

  lemma FreezeOrder(sent: seq<Command>, a: seq<Command>, c: seq<Command>, f: seq<Command>, m: seq<Command>)
    ensures sent + a + c + f + m == sent + (a + c + f + m)
  {
    InOrder(sent, a, c, f);
    InOrder(sent, a + c + f, m, []);
  }

  lemma PrepareOrder(sent: seq<Command>, o: Options, running: seq<bool>, consistent: bool)
    ensures sent + (LockAllTrace(o, running, consistent) + EarlyFlush(o) + StatusTrace(o))
      + PinTrace(Later(o), consistent) == sent + PrepareTrace(o, running, consistent)
  {
    var front := LockAllTrace(o, running, consistent) + EarlyFlush(o) + StatusTrace(o);
    InOrder(sent, front, PinTrace(o, consistent), []);
  }

  /** Main up to the start of the transaction. */
  method Freeze(o: Options, srv: Server, consistent: bool) returns (o': Options, purgeTo: nat)
    requires srv.Valid() && Accepted(o) && !srv.locked && srv.snapshot == None
    modifies srv
    ensures srv.Valid() && unchanged(srv`purged) && KeepsSlaves(o, old(srv.running), srv.running)
    ensures (o.slaveData ==> NoneRunning(srv.running)) && o' == Later(o)
    ensures srv.snapshot == None && srv.locked == LocksAll(o, consistent)
    ensures srv.purged <= purgeTo < |srv.files| && (o.deleteMasterLogs ==> |old(srv.files)| <= purgeTo)
    ensures srv.sent == old(srv.sent) + (LockAllTrace(o, old(srv.running), consistent) + EarlyFlush(o)
      + StatusTrace(o))
  {
    Settle(o, srv);
    o' := LockAndFlush(o, srv, consistent);
    purgeTo := srv.purged;
    if o.deleteMasterLogs {
      var p := srv.ShowMasterStatus();
      purgeTo := p.file;
    }
    FreezeOrder(old(srv.sent), (if o.slaveData then [ShowSlaves] + StopTrace(old(srv.running)) else [])
                + (if o.singleTransaction && o.masterData then [SnapshotStatus] else []),
                if LocksAll(o, consistent) then [FlushTables, LockAll] else [],
                EarlyFlush(o), StatusTrace(o));
  }

  /** Main up to the first table. */
  method Prepare(o: Options, srv: Server, consistent: bool)
    returns (o': Options, position: Option<Position>, slaves: Option<seq<nat>>, purgeTo: nat, ghost n: nat)
    requires srv.Valid() && Accepted(o) && !srv.locked && srv.snapshot == None
    requires consistent ==> o.singleTransaction && o.masterData
    modifies srv
    ensures srv.Valid() && unchanged(srv`purged) && KeepsSlaves(o, old(srv.running), srv.running)
    ensures (o.slaveData ==> NoneRunning(srv.running)) && o' == Later(o) && srv.locked == o.lockAllTables
    ensures o.singleTransaction || o.lockAllTables ==> srv.Pinned(n)
    ensures position.Some? <==> o.masterData
    ensures position.Some? ==>
      srv.ValidPosition(position.value) && srv.Absolute(position.value) == n && purgeTo <= position.value.file
    ensures srv.purged <= purgeTo < |srv.files| && (o.deleteMasterLogs ==> |old(srv.files)| <= purgeTo)
    ensures slaves.Some? <==> o.slaveData
    ensures slaves.Some? ==> |slaves.value| == |srv.running| && SlavesAsOf(srv.origins, n, slaves.value)
    ensures srv.sent == old(srv.sent) + PrepareTrace(o, old(srv.running), consistent)
  {
    o', purgeTo := Freeze(o, srv, consistent);
    position, slaves, n := PinAndPrint(o', srv, consistent);
    PrepareOrder(old(srv.sent), o, old(srv.running), consistent);
  }

  /** All parts of the dump are as of one point of the history, now and later. */
  ghost predicate OnePoint(srv: Server, n: nat, dump: DumpFile)
    reads srv
  {
    && Taken(srv, n, dump)
    && (forall i :: 0 <= i < |dump.parts| ==> Recovers(srv.base, srv.history, n, dump.parts[i]))
    && (dump.position.Some? ==> srv.purged <= dump.position.value.file)
  }

  /** What stays true of a dump as the server goes on. */
  ghost predicate Taken(srv: Server, n: nat, dump: DumpFile)
    reads srv
  {
    && (forall i :: 0 <= i < |dump.parts| ==> AsOf(srv.base, srv.history, n, dump.parts[i]))
    && (dump.slaves.Some? ==> SlavesAsOf(srv.origins, n, dump.slaves.value))
    && (dump.position.Some? ==> srv.ValidPosition(dump.position.value) && srv.Absolute(dump.position.value) == n)
  }

  /** The end of main: purge the logs before the flush, and start the slaves, if asked to. */
  method Finish(o: Options, srv: Server, purgeTo: nat)
    requires srv.Valid() && srv.purged <= purgeTo < |srv.files| && (o.slaveData ==> NoneRunning(srv.running))
    modifies srv
    ensures srv.Valid() && KeepsSlaves(o, old(srv.running), srv.running) && (o.slaveData ==> AllRunning(srv.running))
    ensures old(srv.files) <= srv.files && old(srv.history) <= srv.history && old(srv.origins) <= srv.origins
    ensures srv.purged == (if o.deleteMasterLogs then purgeTo else old(srv.purged)) && srv.locked == old(srv.locked)
    ensures srv.sent == old(srv.sent) + FinishTrace(o, |srv.running|, purgeTo)
  {
    assert o.slaveData ==> srv.running == Stopped(|srv.running|);
    if o.deleteMasterLogs { srv.PurgeTo(purgeTo); }
    if o.slaveData { StartSlaves(srv); }
    InOrder(old(srv.sent), PurgeTrace(o, purgeTo), StartAllTrace(o, |old(srv.running)|), []);
  }

  /** What was taken stays, while the server goes on. */
  lemma TakenLater(srv: Server, n: nat, dump: DumpFile, history: seq<Transaction>, origins: seq<Origin>, files: seq<nat>)
    requires srv.Valid() && history <= srv.history && origins <= srv.origins && files <= srv.files
    requires forall i :: 0 <= i < |dump.parts| ==> AsOf(srv.base, history, n, dump.parts[i])
    requires dump.slaves.Some? ==> SlavesAsOf(origins, n, dump.slaves.value)
    requires dump.position.Some? ==>
      var p := dump.position.value; p.file < |files| && files[p.file] + p.offset == n <= |history| && srv.purged <= p.file
    ensures OnePoint(srv, n, dump)
  {
    forall i | 0 <= i < |dump.parts|
      ensures AsOf(srv.base, srv.history, n, dump.parts[i]) && Recovers(srv.base, srv.history, n, dump.parts[i])
    {
      AsOfLater(srv.base, history, srv.history, n, dump.parts[i]);
      AsOfRecovers(srv.base, srv.history, [], n, dump.parts[i]);
      assert srv.history + [] == srv.history;
    }
    if dump.slaves.Some? { SlavesLater(origins, srv.origins, n, dump.slaves.value); }
  }

  lemma MainOrder(sent: seq<Command>, o: Options, running: seq<bool>, consistent: bool, what: What, purgeTo: nat, purged: nat)
    requires o.deleteMasterLogs ==> purged == purgeTo
    ensures sent + PrepareTrace(o, running, consistent) + TablesTrace(Later(o), what) + FinishTrace(o, |running|, purgeTo) ==
      sent + MainTrace(o, running, consistent, what, purged)
  {
    InOrder(sent, PrepareTrace(o, running, consistent), TablesTrace(Later(o), what), FinishTrace(o, |running|, purged));
  }

  /** The steps of main, with the points that were dumped. */
  method Steps(o: Options, srv: Server, consistent: bool, what: What)
    returns (dump: DumpFile, ghost n: nat, ghost points: seq<nat>)
    requires srv.Valid() && Accepted(o) && !srv.locked && srv.snapshot == None
    requires consistent ==> o.singleTransaction && o.masterData
    modifies srv
    ensures srv.Valid() && Named(dump.parts, TablesOf(what))
    ensures (dump.position.Some? <==> o.masterData) && (dump.slaves.Some? <==> o.slaveData)
    ensures o.singleTransaction || o.lockAllTables ==> OnePoint(srv, n, dump)
    ensures o.lockTables && (what.Databases? || !o.routines) ==> AllAsOf(srv.base, srv.history, points, dump.parts)
    ensures o.slaveData ==> |dump.slaves.value| == |srv.running| && AllRunning(srv.running)
    ensures KeepsSlaves(o, old(srv.running), srv.running)
    ensures if o.deleteMasterLogs then |old(srv.files)| <= srv.purged else srv.purged == old(srv.purged)
    ensures !o.lockTables ==> srv.locked == o.lockAllTables
    ensures srv.sent == old(srv.sent) + MainTrace(o, old(srv.running), consistent, what, srv.purged)
  {
    var o', position, slaves, purgeTo;
    o', position, slaves, purgeTo, n := Prepare(o, srv, consistent);
    ghost var pinned := o.singleTransaction || o.lockAllTables;
    ghost var origins, files := srv.origins, srv.files;
    var parts;
    parts, points := DumpTables(o', srv, what, pinned, n);
    dump := DumpFile(position, slaves, parts);
    ghost var history := srv.history;
    Finish(o, srv, purgeTo);
    if pinned { TakenLater(srv, n, dump, history, origins, files); }
    if o.lockTables && (what.Databases? || !o.routines) { AllAsOfLater(srv.base, history, srv.history, points, parts); }
    MainOrder(old(srv.sent), o, old(srv.running), consistent, what, purgeTo, srv.purged);
  }

  /** main of mysqldump, from the accepted options to the end. Whatever other clients and the
      slaves commit in between: a printed position is still in the log, and replaying the log
      from it on the dumped tables gives the live data, now and later; the positions printed
      for --dump-slave are those of the dumped tables, and all slaves run at the end, which is
      as before if and only if all ran before; without a position, --single-transaction and
      --lock-all-tables still dump one state, and the default mode one state of each database,
      unless selected tables are dumped with routines. */
  method DumpMain(o: Options, srv: Server, snapshotStatus: bool, what: What) returns (dump: DumpFile)
    requires srv.Valid() && Accepted(o) && !srv.locked && srv.snapshot == None && srv.sent == []
    modifies srv
    ensures srv.Valid() && Named(dump.parts, TablesOf(what))
    ensures (dump.position.Some? <==> o.masterData) && (dump.slaves.Some? <==> o.slaveData)
    ensures o.singleTransaction || o.lockAllTables ==> exists n :: OnePoint(srv, n, dump)
    ensures o.lockTables && (what.Databases? || !o.routines) ==>
      exists points :: AllAsOf(srv.base, srv.history, points, dump.parts)
    ensures o.slaveData ==> |dump.slaves.value| == |srv.running| && AllRunning(srv.running)
    ensures |srv.running| == |old(srv.running)|
    ensures srv.running == old(srv.running) <==> !o.slaveData || AllRunning(old(srv.running))
    ensures if o.deleteMasterLogs then |old(srv.files)| <= srv.purged else srv.purged == old(srv.purged)
    ensures !o.lockTables ==> srv.locked == o.lockAllTables
    ensures var consistent := snapshotStatus && o.singleTransaction && o.masterData;
      srv.sent == MainTrace(o, old(srv.running), consistent, what, srv.purged)
    ensures (o.lockAllTables ==> UnlockTables !in srv.sent) && (o.singleTransaction ==> QuietAfterBegin(srv.sent))
  {
    var consistent := snapshotStatus && o.singleTransaction && o.masterData;
    ghost var n, points;
    dump, n, points := Steps(o, srv, consistent, what);
    if o.lockAllTables { NeverUnlocks(o, old(srv.running), consistent, what, srv.purged); }
    if o.singleTransaction { QuietSnapshot(o, old(srv.running), consistent, what, srv.purged); }
  }
}
