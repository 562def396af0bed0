/** The server as mysqldump sees it: committed transactions in a binary log, the data they
    make, a global read lock and a snapshot. Other clients act before every command. */
module DumpServer {
  import opened Text

  type Rows = map<string, string>

  /** A logged row change: the new row under a key, or none after a delete. */
  datatype Change = Change(table: string, key: string, row: Option<string>)

  type Transaction = seq<Change>

  type Data = map<string, Rows>

  function Content(d: Data, table: string): Rows {
    if table in d then d[table] else map[]
  }

  function ApplyRow(rows: Rows, c: Change): Rows {
    match c.row
    case Some(row) => rows[c.key := row]
    case None => rows - {c.key}
  }

  function Apply(d: Data, t: Transaction): Data
    decreases |t|
  {
    if t == [] then d
    else Apply(d[t[0].table := ApplyRow(Content(d, t[0].table), t[0])], t[1..])
  }

  /** The data after the transactions of a log. */
  function Replay(d: Data, log: seq<Transaction>): Data {
    if log == [] then d else Apply(Replay(d, log[..|log| - 1]), log[|log| - 1])
  }

  /** The same for the rows of one table alone, as when a dumped table is brought up to date. */
  function ApplyTable(rows: Rows, t: Transaction, table: string): Rows
    decreases |t|
  {
    if t == [] then rows
    else ApplyTable(if t[0].table == table then ApplyRow(rows, t[0]) else rows, t[1..], table)
  }

  function ReplayTable(rows: Rows, log: seq<Transaction>, table: string): Rows {
    if log == [] then rows
    else ApplyTable(ReplayTable(rows, log[..|log| - 1], table), log[|log| - 1], table)
  }

  lemma {:induction false} TableApply(d: Data, t: Transaction, table: string)
    ensures Content(Apply(d, t), table) == ApplyTable(Content(d, table), t, table)
    decreases |t|
  {
    if t != [] {
      TableApply(d[t[0].table := ApplyRow(Content(d, t[0].table), t[0])], t[1..], table);
    }
  }

  /** Replaying the rest of the log on a table from a point of the log gives the table now. */
  lemma {:induction false} TableReplay(d: Data, log: seq<Transaction>, n: nat, table: string)
    requires n <= |log|
    ensures ReplayTable(Content(Replay(d, log[..n]), table), log[n..], table) == Content(Replay(d, log), table)
    decreases |log| - n
  {
    var rest := log[n..];
    if n == |log| {
      assert log[..n] == log;
    } else {
      var m := |log| - 1;
      var before := log[..m];
      assert before[..n] == log[..n] && rest[..|rest| - 1] == before[n..];
      TableReplay(d, before, n, table);
      TableApply(Replay(d, before), log[m], table);
    }
  }

  /** A log file and an offset in it. */
  datatype Position = Position(file: nat, offset: nat)

  datatype Snapshot = Snapshot(data: Data, position: Position)

  datatype Command =
    | FlushTables
    | LockAll              // FLUSH TABLES WITH READ LOCK
    | RefreshLog
    | Begin                // START TRANSACTION WITH CONSISTENT SNAPSHOT
    | MasterStatus
    | SnapshotStatus       // SHOW STATUS LIKE 'binlog_snapshot_%'
    | LockTables(tables: seq<string>)
    | UnlockTables
    | Read(table: string)
    | Purge(file: nat)
    | ShowSlaves
    | StopSlave(slave: nat)
    | StartSlave(slave: nat)

  /** Where transactions came from: a replication slave of this server, or a client. */
  type Origin = Option<nat>

  /** How many transactions a slave has executed. */
  function Executed(origins: seq<Origin>, slave: nat): nat {
    if origins == [] then 0
    else Executed(origins[..|origins| - 1], slave) + if origins[|origins| - 1] == Some(slave) then 1 else 0
  }

  /** Only clients, and slaves that are running, have added transactions. */
  ghost predicate Grew(origins: seq<Origin>, origins': seq<Origin>, running: seq<bool>) {
    && origins <= origins'
    && forall i :: |origins| <= i < |origins'| ==>
         origins'[i].None? || (origins'[i].value < |running| && running[origins'[i].value])
  }

  ghost predicate NoneRunning(running: seq<bool>) {
    forall i :: 0 <= i < |running| ==> !running[i]
  }

  /** Slaves that do not run stay where they are. */
  lemma {:induction false} ExecutedStays(origins: seq<Origin>, origins': seq<Origin>, running: seq<bool>, slave: nat)
    requires Grew(origins, origins', running) && NoneRunning(running)
    ensures Executed(origins', slave) == Executed(origins, slave)
    decreases |origins'|
  {
    if |origins| < |origins'| {
      ExecutedStays(origins, origins'[..|origins'| - 1], running, slave);
    } else {
      assert origins == origins';
    }
  }

  /** Nothing in the log from point `n` on changes one of these tables. */
  ghost predicate Untouched(log: seq<Transaction>, n: nat, tables: seq<string>) {
    n <= |log| && forall i :: n <= i < |log| ==> LeavesAlone(log[i], tables)
  }

  predicate LeavesAlone(t: Transaction, tables: seq<string>) {
    forall i :: 0 <= i < |t| ==> t[i].table !in tables
  }

  lemma {:induction false} ApplyLeaves(d: Data, t: Transaction, tables: seq<string>, table: string)
    requires LeavesAlone(t, tables) && table in tables
    ensures Content(Apply(d, t), table) == Content(d, table)
    decreases |t|
  {
    if t != [] {
      assert t[0].table != table && forall i :: 0 <= i < |t[1..]| ==> t[1..][i] == t[i + 1];
      ApplyLeaves(d[t[0].table := ApplyRow(Content(d, t[0].table), t[0])], t[1..], tables, table);
    }
  }

  /** Then the table is what it was. */
  lemma {:induction false} UntouchedContent(d: Data, log: seq<Transaction>, n: nat, tables: seq<string>, table: string)
    requires Untouched(log, n, tables) && table in tables
    ensures Content(Replay(d, log), table) == Content(Replay(d, log[..n]), table)
    decreases |log|
  {
    if n == |log| {
      assert log[..n] == log;
    } else {
      var before := log[..|log| - 1];
      assert before[..n] == log[..n];
      UntouchedContent(d, before, n, tables, table);
      ApplyLeaves(Replay(d, before), log[|log| - 1], tables, table);
    }
  }

  class Server {
    const base: Data
    var history: seq<Transaction>  // everything ever committed
    var files: seq<nat>            // where each log file starts in it
    var purged: nat                // files before this one are gone
    var origins: seq<Origin>       // and where it came from
    var running: seq<bool>         // the SQL threads of the slaves
    var locked: bool
    var held: seq<string>          // the tables under LOCK TABLES
    var snapshot: Option<Snapshot>
    var sent: seq<Command>         // what the dump has sent

    constructor (base: Data, running: seq<bool>)
      ensures Valid() && sent == [] && !locked && held == [] && snapshot == None && this.base == base && purged == 0
      ensures this.running == running
    {
      this.base := base;
      history, origins, files, purged, locked, held, snapshot, sent := [], [], [0], 0, false, [], None, [];
      this.running := running;
    }

    ghost predicate Valid()
      reads this
    {
      && files != [] && purged < |files| && |origins| == |history|
      && (forall i :: 0 <= i < |files| ==> files[i] <= |history|)
      && (snapshot.Some? ==>
            && ValidPosition(snapshot.value.position)
            && snapshot.value.data == Replay(base, history[..Absolute(snapshot.value.position)]))
    }

    ghost predicate ValidPosition(p: Position)
      reads this
    {
      p.file < |files| && files[p.file] + p.offset <= |history|
    }

    /** Where in the whole history a position points. */
    ghost function Absolute(p: Position): nat
      requires p.file < |files|
      reads this
    {
      files[p.file] + p.offset
    }

    function Live(): Data
      reads this
    {
      Replay(base, history)
    }

    /** The data as of point `n` of the history is what reads see. */
    ghost predicate Pinned(n: nat)
      reads this
    {
      && n <= |history|
      && if snapshot.Some? then snapshot.value.data == Replay(base, history[..n]) else locked && n == |history|
    }

    /** The tables under LOCK TABLES are as of point `n` of the history. */
    ghost predicate Holds(n: nat)
      reads this
    {
      Untouched(history, n, held)
    }

    /** What other clients may do between two commands of the dump: commit, unless the
        global read lock is held or the tables are locked, and rotate the log. */
    method Others()
      requires Valid()
      modifies this`history, this`origins, this`files
      ensures Valid() && old(files) <= files
      ensures old(history) <= history && (locked ==> history == old(history)) && Grew(old(origins), origins, running)
      ensures forall n: nat :: old(Pinned(n)) ==> Pinned(n) && history[..n] == old(history)[..n]
      ensures forall n: nat :: old(Holds(n)) ==> Holds(n)
    {
      var actions: nat :| true;
      while actions > 0
        invariant Valid() && old(files) <= files
        invariant old(history) <= history && (locked ==> history == old(history)) && Grew(old(origins), origins, running)
        invariant Untouched(history, |old(history)|, held)
      {
        if * {
          files := files + [|history|];
        } else if !locked {
          var t: Transaction :| LeavesAlone(t, held);
          assert forall n :: 0 <= n <= |history| ==> (history + [t])[..n] == history[..n];
          var o: Origin :| o.None? || (o.value < |running| && running[o.value]);
          history, origins := history + [t], origins + [o];
        }
        actions := actions - 1;
      }
      assert forall n :: 0 <= n <= |old(history)| ==> history[..n] == old(history)[..n];
    }

    /** A command that has no effect on the data, the log or the locks. */
    method Send(c: Command)
      requires Valid()
      modifies this`history, this`origins, this`files, this`sent
      ensures Valid() && old(files) <= files
      ensures old(history) <= history && (locked ==> history == old(history)) && Grew(old(origins), origins, running)
      ensures forall n: nat :: old(Pinned(n)) ==> Pinned(n) && history[..n] == old(history)[..n]
      ensures forall n: nat :: old(Holds(n)) ==> Holds(n)
      ensures sent == old(sent) + [c]
    {
      Others();
      sent := sent + [c];
    }

    /** FLUSH TABLES, then FLUSH TABLES WITH READ LOCK */
    method LockAllTables()
      requires Valid()
      modifies this`history, this`origins, this`files, this`sent, this`locked
      ensures Valid() && locked && old(files) <= files && old(history) <= history && Grew(old(origins), origins, running)
      ensures sent == old(sent) + [FlushTables, LockAll]
    {
      Send(FlushTables);
      Send(LockAll);
      locked := true;
    }

    /** The server starts a new log file; an open transaction is committed. */
    method Refresh()
      requires Valid()
      modifies this
      ensures Valid() && unchanged(this`locked, this`held, this`purged, this`running) && snapshot == None
      ensures forall n: nat :: old(Holds(n)) ==> Holds(n)
      ensures old(files) < files && old(history) <= history && (locked ==> history == old(history))
      ensures Grew(old(origins), origins, running)
      ensures sent == old(sent) + [RefreshLog]
    {
      Send(RefreshLog);
      files := files + [|history|];
      snapshot := None;
    }

    /** Where the log stands now. */
    function Current(): (p: Position)
      requires files != [] && files[|files| - 1] <= |history|
      reads this
    {
      Position(|files| - 1, |history| - files[|files| - 1])
    }

    /** START TRANSACTION WITH CONSISTENT SNAPSHOT; the snapshot knows its log position. */
    method StartTransaction()
      requires Valid()
      modifies this`history, this`origins, this`files, this`sent, this`snapshot
      ensures Valid() && old(files) <= files && old(history) <= history && Grew(old(origins), origins, running)
      ensures locked ==> history == old(history)
      ensures snapshot.Some? && Pinned(|history|) && Absolute(snapshot.value.position) == |history|
      ensures |old(files)| <= snapshot.value.position.file + 1
      ensures sent == old(sent) + [Begin]
    {
      Send(Begin);
      snapshot := Some(Snapshot(Live(), Current()));
      assert history[..|history|] == history;
    }

    /** SHOW MASTER STATUS */
    method ShowMasterStatus() returns (p: Position)
      requires Valid()
      modifies this`history, this`origins, this`files, this`sent
      ensures Valid() && old(files) <= files
      ensures old(history) <= history && (locked ==> history == old(history)) && Grew(old(origins), origins, running)
      ensures forall n: nat :: old(Pinned(n)) ==> Pinned(n) && history[..n] == old(history)[..n]
      ensures p == Current() && Absolute(p) == |history| && p.file + 1 == |files|
      ensures sent == old(sent) + [MasterStatus]
    {
      Send(MasterStatus);
      p := Current();
    }

    /** UNLOCK TABLES: the transaction and its snapshot stay. */
    method Unlock()
      requires Valid()
      modifies this`history, this`origins, this`files, this`sent, this`locked, this`held
      ensures Valid() && !locked && old(files) <= files && old(history) <= history && Grew(old(origins), origins, running)
      ensures snapshot.Some? ==>
        forall n: nat :: old(Pinned(n)) ==> Pinned(n) && history[..n] == old(history)[..n]
      ensures sent == old(sent) + [UnlockTables]
    {
      Send(UnlockTables);
      locked, held := false, [];
    }

    /** LOCK TABLES commits an open transaction and releases the tables locked before. */
    method LockSomeTables(tables: seq<string>)
      requires Valid()
      modifies this`history, this`origins, this`files, this`sent, this`snapshot, this`held
      ensures Valid() && snapshot == None && old(files) <= files && old(history) <= history && Grew(old(origins), origins, running)
      ensures held == tables && Holds(|history|)
      ensures sent == old(sent) + [LockTables(tables)]
    {
      Send(LockTables(tables));
      snapshot, held := None, tables;
    }

    method ReadTable(table: string) returns (rows: Rows)
      requires Valid()
      modifies this`history, this`origins, this`files, this`sent
      ensures Valid() && old(files) <= files
      ensures old(history) <= history && (locked ==> history == old(history)) && Grew(old(origins), origins, running)
      ensures forall n: nat :: old(Pinned(n)) ==>
        Pinned(n) && history[..n] == old(history)[..n] && rows == Content(Replay(base, history[..n]), table)
      ensures forall n: nat :: old(Holds(n)) ==>
        Holds(n) && (snapshot.None? && table in held ==> rows == Content(Replay(base, history[..n]), table))
      ensures sent == old(sent) + [Read(table)]
    {
      Send(Read(table));
      assert history[..|history|] == history;
      rows := Content(if snapshot.Some? then snapshot.value.data else Live(), table);
      if snapshot.None? && table in held {
        forall n: nat | Holds(n) ensures rows == Content(Replay(base, history[..n]), table) {
          UntouchedContent(base, history, n, held, table);
        }
      }
    }

    /** PURGE BINARY LOGS TO */
    method PurgeTo(file: nat)
      requires Valid() && purged <= file < |files|
      modifies this`history, this`origins, this`files, this`sent, this`purged
      ensures Valid() && purged == file && old(files) <= files
      ensures old(history) <= history && Grew(old(origins), origins, running)
      ensures sent == old(sent) + [Purge(file)]
    {
      Send(Purge(file));
      purged := file;
    }

    /** SHOW SLAVE STATUS: how far each slave has come, and whether it runs. */
    method ShowSlaveStatus() returns (positions: seq<nat>)
      requires Valid()
      modifies this`history, this`origins, this`files, this`sent
      ensures Valid() && old(files) <= files
      ensures old(history) <= history && (locked ==> history == old(history)) && Grew(old(origins), origins, running)
      ensures forall n: nat :: old(Pinned(n)) ==> Pinned(n) && history[..n] == old(history)[..n]
      ensures |positions| == |running| && forall j :: 0 <= j < |running| ==> positions[j] == Executed(origins, j)
      ensures sent == old(sent) + [ShowSlaves]
    {
      Send(ShowSlaves);
      var n, all := |running|, origins;
      positions := seq(n, j requires 0 <= j < n => Executed(all, j));
    }

    /** STOP SLAVE SQL_THREAD or START SLAVE, for one slave. */
    method SetSlave(slave: nat, run: bool)
      requires Valid() && slave < |running|
      modifies this`history, this`origins, this`files, this`sent, this`running
      ensures Valid() && old(files) <= files && running == old(running)[slave := run]
      ensures old(history) <= history && (locked ==> history == old(history)) && Grew(old(origins), origins, old(running))
      ensures forall n: nat :: old(Pinned(n)) ==> Pinned(n) && history[..n] == old(history)[..n]
      ensures sent == old(sent) + [if run then StartSlave(slave) else StopSlave(slave)]
    {
      Send(if run then StartSlave(slave) else StopSlave(slave));
      running := running[slave := run];
    }
  }
}
