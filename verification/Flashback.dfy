/** mysqlbinlog --flashback (print_row_event, process_event and the output loop of main in
    client/mysqlbinlog.cc): the row events of each statement are printed last to first, as
    their inverses, and the statements last to first at the end. */
module Flashback {
  import opened Text

  /** A logged change of one row: an insert has no `before`, a delete no `after`. */
  datatype RowChange = RowChange(before: Option<string>, after: Option<string>)

  datatype Event =
    | Begin                // GTID event or BEGIN
    | Commit               // XID event or COMMIT
    | Map(id: nat)
    | Rows(id: nat, changes: seq<RowChange>, stmtEnd: bool)

  /** Pieces of output: COMMIT for a Begin, START TRANSACTION for a Commit, or one BINLOG
      statement. */
  datatype Chunk = CommitText | StartText | Binlog(events: seq<Event>)

  // ------------------------------------------------------------ inverses

  function Swap(c: RowChange): RowChange {
    RowChange(c.after, c.before)
  }

  function Undo(changes: seq<RowChange>): seq<RowChange> {
    if changes == [] then [] else Undo(changes[1..]) + [Swap(changes[0])]
  }

  /** A rows event as it is printed: insert and delete exchanged, images swapped, rows last
      to first; the flags are those of the event. */
  function Inverse(e: Event): Event
    requires e.Rows?
  {
    e.(changes := Undo(e.changes))
  }

  // ------------------------------------------------------------ the program

  class Flashback {
    var eventsInStmt: seq<Event>
    var bodyCache: seq<Event>
    var binlogEvents: seq<Chunk>

    constructor ()
      ensures eventsInStmt == [] && bodyCache == [] && binlogEvents == []
    {
      eventsInStmt, bodyCache, binlogEvents := [], [], [];
    }

    /** print_row_event: mark and collect; at the end of the statement print all of it. */
    method PrintRowEvent(ev: Event)
      requires ev.Rows? && RowsOnly(eventsInStmt)
      modifies this
      ensures RowsOnly(eventsInStmt)
      ensures
        var all := old(eventsInStmt) + [Marked(ev, old(eventsInStmt) == [])];
        if ev.stmtEnd
        then eventsInStmt == [] && bodyCache == [] &&
             binlogEvents == old(binlogEvents) + [Binlog(old(bodyCache) + Backwards(all))]
        else eventsInStmt == all && unchanged(this`bodyCache, this`binlogEvents)
    {
      var e := ev;
      if ev.stmtEnd { e := e.(stmtEnd := false); }
      if eventsInStmt == [] { e := e.(stmtEnd := true); }
      eventsInStmt := eventsInStmt + [e];
      if ev.stmtEnd {
        PrintCollected(eventsInStmt);
      }
    }

    /** The collected events, last to first; the last one printed carries the end flag and
        flushes the cache. */
    method PrintCollected(all: seq<Event>)
      requires all != [] && all == eventsInStmt && RowsOnly(all)
      modifies this
      ensures eventsInStmt == [] && bodyCache == []
      ensures binlogEvents == old(binlogEvents) + [Binlog(old(bodyCache) + Backwards(all))]
    {
      var i := |all|;
      assert all[..i] == all;
      while i > 0
        invariant 0 <= i <= |all| && unchanged(this`binlogEvents)
        invariant old(bodyCache) + Backwards(all) == bodyCache + Backwards(all[..i])
      {
        i := i - 1;
        BackwardsLast(all[..i + 1]);
        assert all[..i + 1][..i] == all[..i];
        assert bodyCache + ([Inverse(all[i])] + Backwards(all[..i])) == bodyCache + [Inverse(all[i])] + Backwards(all[..i]);
        bodyCache := bodyCache + [Inverse(all[i])];
      }
      assert bodyCache + [] == bodyCache;
      binlogEvents := binlogEvents + [Binlog(bodyCache)];
      bodyCache, eventsInStmt := [], [];
    }

    method ProcessEvent(ev: Event)
      requires RowsOnly(eventsInStmt)
      modifies this
      ensures Value() == Next(old(Value()), ev)
    {
      match ev
      case Begin => binlogEvents := binlogEvents + [CommitText];
      case Commit => binlogEvents := binlogEvents + [StartText];
      case Map(_) =>
        bodyCache := bodyCache + [ev];
        eventsInStmt := [];
      case Rows(_, _, _) => PrintRowEvent(ev);
    }

    function Value(): State
      reads this
    {
      State(eventsInStmt, bodyCache, binlogEvents)
    }

    /** The whole log, and the output loop of main, which prints last to first. */
    method Dump(events: seq<Event>) returns (file: seq<Chunk>)
      requires Value() == State([], [], [])
      modifies this
      ensures file == Output(Run(State([], [], []), events))
    {
      for i := 0 to |events|
        invariant RowsOnly(eventsInStmt)
        invariant Run(State([], [], []), events) == Run(Value(), events[i..])
      {
        assert events[i..][0] == events[i] && events[i..][1..] == events[i + 1..];
        ProcessEvent(events[i]);
      }
      assert events[|events|..] == [];
      file := PrintBackwards(binlogEvents);
      file := file + [CommitText];
    }
  }

  /** The output loop of main. */
  method PrintBackwards(chunks: seq<Chunk>) returns (file: seq<Chunk>)
    ensures file == Reverse(chunks)
  {
    file := [];
    var i := |chunks|;
    assert chunks[..i] == chunks && [] + Reverse(chunks) == Reverse(chunks);
    while i > 0
      invariant 0 <= i <= |chunks|
      invariant Reverse(chunks) == file + Reverse(chunks[..i])
    {
      i := i - 1;
      ReverseLast(chunks[..i + 1]);
      assert chunks[..i + 1][..i] == chunks[..i];
      assert file + ([chunks[i]] + Reverse(chunks[..i])) == file + [chunks[i]] + Reverse(chunks[..i]);
      file := file + [chunks[i]];
    }
    assert file + [] == file;
  }

  // ------------------------------------------------------------ its specification

  function Marked(e: Event, first: bool): Event
    requires e.Rows?
  {
    e.(stmtEnd := first)
  }

  function Reverse<T>(s: seq<T>): seq<T> {
    if s == [] then [] else Reverse(s[1..]) + [s[0]]
  }

  /** The inverses of the events, last to first. */
  function Backwards(events: seq<Event>): seq<Event>
    requires forall i :: 0 <= i < |events| ==> events[i].Rows?
  {
    if events == [] then [] else Backwards(events[1..]) + [Inverse(events[0])]
  }

  lemma {:induction false} BackwardsLast(events: seq<Event>)
    requires events != [] && forall i :: 0 <= i < |events| ==> events[i].Rows?
    ensures Backwards(events) == [Inverse(events[|events| - 1])] + Backwards(events[..|events| - 1])
  {
    var n := |events| - 1;
    if n > 0 {
      BackwardsLast(events[1..]);
      assert events[1..][..n - 1] == events[..n][1..];
    }
  }

  lemma {:induction false} ReverseLast<T>(s: seq<T>)
    requires s != []
    ensures Reverse(s) == [s[|s| - 1]] + Reverse(s[..|s| - 1])
  {
    var n := |s| - 1;
    if n > 0 {
      ReverseLast(s[1..]);
      assert s[1..][..n - 1] == s[..n][1..];
    }
  }

  datatype State = State(stmt: seq<Event>, cache: seq<Event>, chunks: seq<Chunk>)

  predicate RowsOnly(events: seq<Event>) {
    forall i :: 0 <= i < |events| ==> events[i].Rows?
  }

  function Next(s: State, e: Event): (t: State)
    requires RowsOnly(s.stmt)
    ensures RowsOnly(t.stmt)
  {
    match e
    case Begin => s.(chunks := s.chunks + [CommitText])
    case Commit => s.(chunks := s.chunks + [StartText])
    case Map(_) => s.(cache := s.cache + [e], stmt := [])
    case Rows(_, _, stmtEnd) =>
      var all := s.stmt + [Marked(e, s.stmt == [])];
      if stmtEnd then State([], [], s.chunks + [Binlog(s.cache + Backwards(all))]) else s.(stmt := all)
  }

  function Run(s: State, events: seq<Event>): State
    requires RowsOnly(s.stmt)
    decreases |events|
  {
    if events == [] then s else Run(Next(s, events[0]), events[1..])
  }

  function Output(s: State): seq<Chunk> {
    Reverse(s.chunks) + [CommitText]
  }

  // ------------------------------------------------------------ well-formed logs

  /** Transaction boundaries, and row statements: maps, then rows, of which the last alone
      ends the statement. */
  datatype Unit = Opens | Closes | Statement(maps: seq<Event>, rows: seq<Event>)

  ghost predicate WellFormed(u: Unit) {
    u.Statement? ==>
      && (forall i :: 0 <= i < |u.maps| ==> u.maps[i].Map?)
      && u.rows != [] && RowsOnly(u.rows)
      && (forall i :: 0 <= i < |u.rows| ==> (u.rows[i].stmtEnd <==> i == |u.rows| - 1))
  }

  function EventsOf(u: Unit): seq<Event> {
    match u
    case Opens => [Begin]
    case Closes => [Commit]
    case Statement(maps, rows) => maps + rows
  }

  function Log(units: seq<Unit>): seq<Event> {
    if units == [] then [] else EventsOf(units[0]) + Log(units[1..])
  }

  /** The rows of a statement in reverse: its inverses last to first, and the end flag on
      the last of them alone. */
  ghost function ReversedRows(rows: seq<Event>): (r: seq<Event>)
    requires RowsOnly(rows)
  {
    seq(|rows|, i requires 0 <= i < |rows| =>
      Inverse(rows[|rows| - 1 - i]).(stmtEnd := i == |rows| - 1))
  }

  ghost function ChunkOf(u: Unit): Chunk
    requires WellFormed(u)
  {
    match u
    case Opens => CommitText
    case Closes => StartText
    case Statement(maps, rows) => Binlog(maps + ReversedRows(rows))
  }

  /** What should come out: the units last to first, each reversed. */
  ghost function Expected(units: seq<Unit>): seq<Chunk>
    requires forall i :: 0 <= i < |units| ==> WellFormed(units[i])
  {
    seq(|units|, i requires 0 <= i < |units| => ChunkOf(units[|units| - 1 - i])) + [CommitText]
  }

  lemma {:induction false} RunConcat(s: State, a: seq<Event>, b: seq<Event>)
    requires RowsOnly(s.stmt)
    ensures RowsOnly(Run(s, a).stmt) && Run(s, a + b) == Run(Run(s, a), b)
    decreases |a|
  {
    if a == [] {
      assert a + b == b;
    } else {
      assert (a + b)[0] == a[0] && (a + b)[1..] == a[1..] + b;
      RunConcat(Next(s, a[0]), a[1..], b);
    }
  }

  lemma {:induction false} RunMaps(s: State, maps: seq<Event>)
    requires s.stmt == [] && forall i :: 0 <= i < |maps| ==> maps[i].Map?
    ensures Run(s, maps) == s.(cache := s.cache + maps)
    decreases |maps|
  {
    if maps == [] {
      assert s.cache + maps == s.cache;
    } else {
      RunMaps(Next(s, maps[0]), maps[1..]);
      assert s.cache + [maps[0]] + maps[1..] == s.cache + maps;
    }
  }

  /** The rows of a statement with the flags moved to the first. */
  ghost function MarkedRows(rows: seq<Event>): (r: seq<Event>)
    requires RowsOnly(rows)
    ensures RowsOnly(r)
  {
    seq(|rows|, i requires 0 <= i < |rows| => Marked(rows[i], i == 0))
  }

  lemma {:induction false} RunRows(s: State, all: seq<Event>, n: nat)
    requires RowsOnly(all) && n < |all| && s.stmt == MarkedRows(all[..n])
    requires forall i :: 0 <= i < |all| ==> (all[i].stmtEnd <==> i == |all| - 1)
    ensures Run(s, all[n..]) == State([], [], s.chunks + [Binlog(s.cache + Backwards(MarkedRows(all)))])
    decreases |all| - n
  {
    var e := all[n];
    var rest := all[n..];
    assert rest[0] == e && rest[1..] == all[n + 1..];
    assert MarkedRows(all[..n + 1]) == s.stmt + [Marked(e, s.stmt == [])];
    if n + 1 == |all| {
      assert all[..n + 1] == all && rest[1..] == [];
    } else {
      RunRows(Next(s, e), all, n + 1);
    }
  }

  lemma {:induction false} BackwardsAt(events: seq<Event>, i: nat)
    requires RowsOnly(events) && i < |events|
    ensures |Backwards(events)| == |events| && Backwards(events)[i] == Inverse(events[|events| - 1 - i])
  {
    BackwardsLast(events);
    var n := |events| - 1;
    if n > 0 { BackwardsAt(events[..n], if i > 0 then i - 1 else 0); }
  }

  /** Reversing a statement moves the end flag to the last event printed. */
  lemma MarkedReversed(rows: seq<Event>)
    requires RowsOnly(rows)
    ensures Backwards(MarkedRows(rows)) == ReversedRows(rows)
  {
    var b := Backwards(MarkedRows(rows));
    if rows != [] { BackwardsAt(MarkedRows(rows), 0); }
    forall i | 0 <= i < |rows| ensures b[i] == ReversedRows(rows)[i] {
      BackwardsAt(MarkedRows(rows), i);
    }
  }

  lemma UnitRun(s: State, u: Unit)
    requires WellFormed(u) && s.stmt == [] && s.cache == []
    ensures Run(s, EventsOf(u)) == s.(chunks := s.chunks + [ChunkOf(u)])
  {
    if u.Statement? {
      RunConcat(s, u.maps, u.rows);
      RunMaps(s, u.maps);
      var s1 := s.(cache := s.cache + u.maps);
      assert u.rows[0..] == u.rows && MarkedRows(u.rows[..0]) == [];
      RunRows(s1, u.rows, 0);
      MarkedReversed(u.rows);
      assert [] + u.maps == u.maps;
    } else {
      var e := EventsOf(u)[0];
      assert EventsOf(u)[1..] == [];
    }
  }

  lemma {:induction false} LogRun(s: State, units: seq<Unit>)
    requires s.stmt == [] && s.cache == [] && forall i :: 0 <= i < |units| ==> WellFormed(units[i])
    ensures Run(s, Log(units)) == s.(chunks := s.chunks + Chunks(units))
    decreases |units|
  {
    if units == [] {
      assert s.chunks + [] == s.chunks;
    } else {
      RunConcat(s, EventsOf(units[0]), Log(units[1..]));
      UnitRun(s, units[0]);
      LogRun(s.(chunks := s.chunks + [ChunkOf(units[0])]), units[1..]);
      ChunksFirst(s.chunks, units);
    }
  }

  lemma ChunksFirst(chunks: seq<Chunk>, units: seq<Unit>)
    requires units != [] && forall i :: 0 <= i < |units| ==> WellFormed(units[i])
    ensures chunks + [ChunkOf(units[0])] + Chunks(units[1..]) == chunks + Chunks(units)
  {
    assert Chunks(units) == [ChunkOf(units[0])] + Chunks(units[1..]);
  }

  ghost function Chunks(units: seq<Unit>): seq<Chunk>
    requires forall i :: 0 <= i < |units| ==> WellFormed(units[i])
  {
    seq(|units|, i requires 0 <= i < |units| => ChunkOf(units[i]))
  }

  lemma {:induction false} ReverseAt<T>(s: seq<T>, i: nat)
    requires i < |s|
    ensures |Reverse(s)| == |s| && Reverse(s)[i] == s[|s| - 1 - i]
  {
    ReverseLast(s);
    var n := |s| - 1;
    if n > 0 { ReverseAt(s[..n], if i > 0 then i - 1 else 0); }
  }

  lemma ReverseChunks(units: seq<Unit>)
    requires forall i :: 0 <= i < |units| ==> WellFormed(units[i])
    ensures Reverse(Chunks(units)) + [CommitText] == Expected(units)
  {
    var chunks := Chunks(units);
    if units != [] { ReverseAt(chunks, 0); }
    forall i | 0 <= i < |units| ensures Reverse(chunks)[i] == ChunkOf(units[|units| - 1 - i]) {
      ReverseAt(chunks, i);
    }
  }

  /** For every well-formed log, the output is the exact reverse of the input: transactions,
      statements and rows events last to first, each event inverted, the end flag on the
      last event of each statement, and boundaries exchanged. */
  lemma OutputIsReverse(units: seq<Unit>)
    requires forall i :: 0 <= i < |units| ==> WellFormed(units[i])
    ensures Output(Run(State([], [], []), Log(units))) == Expected(units)
  {
    LogRun(State([], [], []), units);
    assert [] + Chunks(units) == Chunks(units);
    ReverseChunks(units);
  }

  // ------------------------------------------------------------ what the output does

  /** The rows of all tables. */
  type Database = multiset<(nat, string)>

  function Image(id: nat, row: Option<string>): Database {
    if row.Some? then multiset{(id, row.value)} else multiset{}
  }

  /** A change needs its before image. */
  function DoChange(db: Database, id: nat, c: RowChange): Option<Database> {
    if Image(id, c.before) <= db then Some(db - Image(id, c.before) + Image(id, c.after)) else None
  }

  function DoChanges(db: Database, id: nat, changes: seq<RowChange>): Option<Database>
    decreases |changes|
  {
    if changes == [] then Some(db) else
    var d := DoChange(db, id, changes[0]);
    if d.None? then None else DoChanges(d.value, id, changes[1..])
  }

  function DoEvents(db: Database, events: seq<Event>): Option<Database>
    decreases |events|
  {
    if events == [] then Some(db) else
    var e := events[0];
    var d := if e.Rows? then DoChanges(db, e.id, e.changes) else Some(db);
    if d.None? then None else DoEvents(d.value, events[1..])
  }

  function DoChunks(db: Database, chunks: seq<Chunk>): Option<Database>
    decreases |chunks|
  {
    if chunks == [] then Some(db) else
    var d := if chunks[0].Binlog? then DoEvents(db, chunks[0].events) else Some(db);
    if d.None? then None else DoChunks(d.value, chunks[1..])
  }

  lemma {:induction false} ChangesConcat(db: Database, id: nat, a: seq<RowChange>, b: seq<RowChange>)
    ensures DoChanges(db, id, a + b) ==
      var d := DoChanges(db, id, a); if d.None? then None else DoChanges(d.value, id, b)
    decreases |a|
  {
    if a == [] {
      assert a + b == b;
    } else {
      assert (a + b)[0] == a[0] && (a + b)[1..] == a[1..] + b;
      var d := DoChange(db, id, a[0]);
      if d.Some? { ChangesConcat(d.value, id, a[1..], b); }
    }
  }

  lemma {:induction false} EventsConcat(db: Database, a: seq<Event>, b: seq<Event>)
    ensures DoEvents(db, a + b) == var d := DoEvents(db, a); if d.None? then None else DoEvents(d.value, b)
    decreases |a|
  {
    if a == [] {
      assert a + b == b;
    } else {
      assert (a + b)[0] == a[0] && (a + b)[1..] == a[1..] + b;
      var d := if a[0].Rows? then DoChanges(db, a[0].id, a[0].changes) else Some(db);
      if d.Some? { EventsConcat(d.value, a[1..], b); }
    }
  }

  lemma SwapRestores(db: Database, id: nat, c: RowChange)
    requires DoChange(db, id, c).Some?
    ensures DoChange(DoChange(db, id, c).value, id, Swap(c)) == Some(db)
  {
    var b, a := Image(id, c.before), Image(id, c.after);
    assert db - b + a - a == db - b;
    assert db - b + b == db;
  }

  /** Undoing the changes of an event restores the rows. */
  lemma {:induction false} UndoRestores(db: Database, id: nat, changes: seq<RowChange>)
    requires DoChanges(db, id, changes).Some?
    ensures DoChanges(DoChanges(db, id, changes).value, id, Undo(changes)) == Some(db)
    decreases |changes|
  {
    if changes != [] {
      var d := DoChange(db, id, changes[0]).value;
      UndoRestores(d, id, changes[1..]);
      ChangesConcat(DoChanges(db, id, changes).value, id, Undo(changes[1..]), [Swap(changes[0])]);
      SwapRestores(db, id, changes[0]);
      assert [Swap(changes[0])][1..] == [];
    }
  }

  /** The same changes, whatever the flags. */
  ghost predicate SameChanges(a: seq<Event>, b: seq<Event>) {
    RowsOnly(a) && RowsOnly(b) && |a| == |b| &&
    forall i :: 0 <= i < |a| ==> a[i].id == b[i].id && a[i].changes == b[i].changes
  }

  lemma {:induction false} BackwardsRestores(db: Database, rows: seq<Event>, marked: seq<Event>)
    requires SameChanges(rows, marked) && DoEvents(db, rows).Some?
    ensures DoEvents(DoEvents(db, rows).value, Backwards(marked)) == Some(db)
    decreases |rows|
  {
    if rows != [] {
      var n := |rows| - 1;
      var r := rows[n];
      assert rows == rows[..n] + [r] && [r][1..] == [];
      EventsConcat(db, rows[..n], [r]);
      var d := DoEvents(db, rows[..n]).value;
      UndoRestores(d, r.id, r.changes);
      BackwardsLast(marked);
      BackwardsRestores(db, rows[..n], marked[..n]);
      var back := Backwards(marked);
      assert back[0] == Inverse(marked[n]) && back[1..] == Backwards(marked[..n]);
    }
  }

  lemma {:induction false} MapsDoNothing(db: Database, maps: seq<Event>)
    requires forall i :: 0 <= i < |maps| ==> maps[i].Map?
    ensures DoEvents(db, maps) == Some(db)
    decreases |maps|
  {
    if maps != [] { MapsDoNothing(db, maps[1..]); }
  }

  lemma UnitRestored(db: Database, u: Unit)
    requires WellFormed(u) && DoEvents(db, EventsOf(u)).Some?
    ensures DoChunks(DoEvents(db, EventsOf(u)).value, [ChunkOf(u)]) == Some(db)
  {
    var d := DoEvents(db, EventsOf(u)).value;
    assert [ChunkOf(u)][1..] == [];
    if u.Statement? {
      EventsConcat(db, u.maps, u.rows);
      MapsDoNothing(db, u.maps);
      BackwardsRestores(db, u.rows, MarkedRows(u.rows));
      MarkedReversed(u.rows);
      EventsConcat(d, u.maps, ReversedRows(u.rows));
      MapsDoNothing(d, u.maps);
    } else {
      assert EventsOf(u)[1..] == [];
    }
  }

  lemma {:induction false} LogSnoc(units: seq<Unit>, u: Unit)
    ensures Log(units + [u]) == Log(units) + EventsOf(u)
    decreases |units|
  {
    if units == [] {
      assert [u][1..] == [] && EventsOf(u) + [] == EventsOf(u) && [] + EventsOf(u) == EventsOf(u);
      assert units + [u] == [u];
    } else {
      assert (units + [u])[1..] == units[1..] + [u];
      LogSnoc(units[1..], u);
      assert EventsOf(units[0]) + (Log(units[1..]) + EventsOf(u)) == EventsOf(units[0]) + Log(units[1..]) + EventsOf(u);
    }
  }

  lemma {:induction false} ReverseRestores(db: Database, units: seq<Unit>)
    requires forall i :: 0 <= i < |units| ==> WellFormed(units[i])
    requires DoEvents(db, Log(units)).Some?
    ensures DoChunks(DoEvents(db, Log(units)).value, Expected(units)) == Some(db)
    decreases |units|
  {
    if units == [] {
      var out := Expected(units);
      assert out == [CommitText] && out[1..] == [];
    } else {
      var n := |units| - 1;
      var u, before := units[n], units[..n];
      assert units == before + [u];
      LogSnoc(before, u);
      EventsConcat(db, Log(before), EventsOf(u));
      UnitRestored(DoEvents(db, Log(before)).value, u);
      ReverseRestores(db, before);
      ExpectedSnoc(before, u);
      ChunksCons(DoEvents(db, Log(units)).value, ChunkOf(u), Expected(before));
    }
  }

  lemma ExpectedSnoc(units: seq<Unit>, u: Unit)
    requires WellFormed(u) && forall i :: 0 <= i < |units| ==> WellFormed(units[i])
    ensures Expected(units + [u]) == [ChunkOf(u)] + Expected(units)
  {
  }

  lemma ChunksCons(db: Database, c: Chunk, rest: seq<Chunk>)
    ensures DoChunks(db, [c] + rest) ==
      var d := DoChunks(db, [c]); if d.None? then None else DoChunks(d.value, rest)
  {
    assert ([c] + rest)[1..] == rest && [c][1..] == [];
  }

  /** Running the output of a flashback after the log restores the rows as they were
      before the log, whatever transactions and statements it holds. */
  lemma FlashbackRestores(db: Database, units: seq<Unit>)
    requires forall i :: 0 <= i < |units| ==> WellFormed(units[i])
    requires DoEvents(db, Log(units)).Some?
    ensures DoChunks(DoEvents(db, Log(units)).value, Output(Run(State([], [], []), Log(units)))) == Some(db)
  {
    OutputIsReverse(units);
    ReverseRestores(db, units);
  }

  // ------------------------------------------------------------ transactions

  /** BINLOG statements stand between START TRANSACTION and COMMIT, and transactions are not
      nested; a COMMIT by itself does nothing. */
  predicate Bracketed(file: seq<Chunk>, open: bool)
    decreases |file|
  {
    if file == [] then !open
    else
      match file[0]
      case StartText => !open && Bracketed(file[1..], true)
      case CommitText => Bracketed(file[1..], false)
      case Binlog(_) => open && Bracketed(file[1..], open)
  }

  /** A log of transactions, each with its statements. */
  function Transactions(ts: seq<seq<Unit>>): seq<Unit> {
    if ts == [] then [] else Transactions(ts[..|ts| - 1]) + [Opens] + ts[|ts| - 1] + [Closes]
  }

  ghost predicate StatementsOnly(units: seq<Unit>) {
    forall i :: 0 <= i < |units| ==> units[i].Statement? && WellFormed(units[i])
  }

  ghost predicate AllWellFormed(units: seq<Unit>) {
    forall i :: 0 <= i < |units| ==> WellFormed(units[i])
  }

  lemma {:induction false} InTransaction(units: seq<Unit>, statements: seq<Unit>)
    requires AllWellFormed(units) && StatementsOnly(statements) && Bracketed(Expected(units), false)
    ensures AllWellFormed(units + [Opens] + statements) && Bracketed(Expected(units + [Opens] + statements), true)
    decreases |statements|
  {
    if statements == [] {
      ExpectedSnoc(units, Opens);
      assert units + [Opens] + statements == units + [Opens];
      assert Expected(units + [Opens])[1..] == Expected(units);
    } else {
      var n := |statements| - 1;
      var before := units + [Opens] + statements[..n];
      InTransaction(units, statements[..n]);
      ExpectedSnoc(before, statements[n]);
      assert units + [Opens] + statements == before + [statements[n]];
      assert Expected(before + [statements[n]])[1..] == Expected(before);
    }
  }

  /** The output for a log of transactions is one of transactions. */
  lemma {:induction false} OutputBracketed(ts: seq<seq<Unit>>)
    requires forall i :: 0 <= i < |ts| ==> StatementsOnly(ts[i])
    ensures AllWellFormed(Transactions(ts)) && Bracketed(Output(Run(State([], [], []), Log(Transactions(ts)))), false)
  {
    ExpectedBracketed(ts);
    OutputIsReverse(Transactions(ts));
  }

  lemma {:induction false} ExpectedBracketed(ts: seq<seq<Unit>>)
    requires forall i :: 0 <= i < |ts| ==> StatementsOnly(ts[i])
    ensures AllWellFormed(Transactions(ts)) && Bracketed(Expected(Transactions(ts)), false)
  {
    if ts == [] {
      assert Expected([]) == [CommitText] && [CommitText][1..] == [];
    } else {
      var n := |ts| - 1;
      ExpectedBracketed(ts[..n]);
      var before := Transactions(ts[..n]) + [Opens] + ts[n];
      InTransaction(Transactions(ts[..n]), ts[n]);
      ExpectedSnoc(before, Closes);
      assert Expected(before + [Closes])[1..] == Expected(before);
    }
  }
}
