/** Row events in mysqlbinlog without --flashback (process_event and print_row_event in
    client/mysqlbinlog.cc): table maps filtered by --database and --table, the rows of a
    filtered map dropped, and an Annotate event held back until something is printed. */
module RowFilter {
  import opened Text

  datatype Filter = Filter(database: Option<string>, table: Option<string>, skipAnnotate: bool)

  datatype Event =
    | Annotate(text: string)
    | Map(id: nat, db: string, table: string)
    | Rows(id: nat, stmtEnd: bool, data: string)

  /** What reaches the result file: a comment, or a BINLOG statement with its events. */
  datatype Chunk = Comment(text: string) | Binlog(events: seq<Event>)

  /** shall_skip_database and shall_skip_table */
  predicate Passes(f: Filter, e: Event)
    requires e.Map?
  {
    !(f.database.Some? && f.database.value != e.db) && !(f.table.Some? && f.table.value != e.table)
  }

  // ------------------------------------------------------------ the state machine

  /** The ids of ignored maps, the kept Annotate event, the body cache and the file. */
  datatype State = State(ignored: set<nat>, annotate: Option<string>, cache: seq<Event>, file: seq<Chunk>)

  function Flush(s: State): State {
    if s.cache == [] then s else s.(cache := [], file := s.file + [Binlog(s.cache)])
  }

  function Step(f: Filter, s: State, e: Event): State {
    match e
    case Annotate(text) => if f.skipAnnotate then s else s.(annotate := Some(text))
    case Map(id, _, _) =>
      if !Passes(f, e) then s.(ignored := s.ignored + {id})
      else
        var s1 := if s.annotate.Some? then s.(annotate := None, file := s.file + [Comment(s.annotate.value)]) else s;
        s1.(cache := s1.cache + [e])
    case Rows(id, stmtEnd, _) =>
      var skip := id in s.ignored;
      var s1 := if stmtEnd then s.(ignored := {}, annotate := None) else s;
      var s2 := if skip then s1 else s1.(cache := s1.cache + [e]);
      if stmtEnd then Flush(s2) else s2
  }

  function Run(f: Filter, s: State, events: seq<Event>): State
    decreases |events|
  {
    if events == [] then s else Run(f, Step(f, s, events[0]), events[1..])
  }

  class Printer {
    const f: Filter
    var ignored: set<nat>
    var annotate: Option<string>
    var cache: seq<Event>
    var file: seq<Chunk>

    constructor (f: Filter)
      ensures this.f == f && Value() == State({}, None, [], [])
    {
      this.f := f;
      ignored, annotate, cache, file := {}, None, [], [];
    }

    function Value(): State
      reads this
    {
      State(ignored, annotate, cache, file)
    }

    /** print_annotate_event */
    method PrintAnnotate()
      modifies this
      ensures Value() == if old(annotate).Some?
        then old(Value()).(annotate := None, file := old(file) + [Comment(old(annotate).value)]) else old(Value())
    {
      if annotate.Some? {
        file := file + [Comment(annotate.value)];
        annotate := None;
      }
    }

    /** print_row_event, with the flush that a printed last event does itself. */
    method PrintRow(e: Event)
      requires e.Rows?
      modifies this
      ensures Value() == Step(f, old(Value()), e)
    {
      var skipEvent := e.id in ignored;
      if e.stmtEnd {
        if |ignored| > 0 { ignored := {}; }
        annotate := None;
        if skipEvent && cache != [] {
          file := file + [Binlog(cache)];
          cache := [];
        }
      }
      if skipEvent { return; }
      cache := cache + [e];
      if e.stmtEnd {
        file := file + [Binlog(cache)];
        cache := [];
      }
    }

    method ProcessEvent(e: Event)
      modifies this
      ensures Value() == Step(f, old(Value()), e)
    {
      match e
      case Annotate(text) =>
        if !f.skipAnnotate { annotate := Some(text); }
      case Map(id, _, _) =>
        if !Passes(f, e) {
          ignored := ignored + {id};
        } else {
          PrintAnnotate();
          cache := cache + [e];
        }
      case Rows(_, _, _) => PrintRow(e);
    }

    method ProcessLog(events: seq<Event>)
      modifies this
      ensures Value() == Run(f, old(Value()), events)
    {
      for i := 0 to |events|
        invariant Run(f, old(Value()), events) == Run(f, Value(), events[i..])
      {
        assert events[i..][0] == events[i] && events[i..][1..] == events[i + 1..];
        ProcessEvent(events[i]);
      }
      assert events[|events|..] == [];
    }
  }

  // ------------------------------------------------------------ well-formed statements

  /** A logged row statement: perhaps an Annotate event, its table maps, its row events, of
      which the last alone ends the statement. */
  datatype Statement = Statement(annotate: Option<string>, maps: seq<Event>, rows: seq<Event>)

  ghost predicate WellFormed(st: Statement) {
    && (forall i :: 0 <= i < |st.maps| ==> st.maps[i].Map?)
    && (forall i, j :: 0 <= i < j < |st.maps| ==> st.maps[i].id != st.maps[j].id)
    && st.rows != []
    && (forall i :: 0 <= i < |st.rows| ==> st.rows[i].Rows? && (st.rows[i].stmtEnd <==> i == |st.rows| - 1))
    && (forall i :: 0 <= i < |st.rows| ==> exists j :: 0 <= j < |st.maps| && st.maps[j].id == st.rows[i].id)
  }

  function EventsOf(st: Statement): seq<Event> {
    (if st.annotate.Some? then [Annotate(st.annotate.value)] else []) + st.maps + st.rows
  }

  function Log(sts: seq<Statement>): seq<Event> {
    if sts == [] then [] else EventsOf(sts[0]) + Log(sts[1..])
  }

  // ------------------------------------------------------------ what should be printed

  function PassingMaps(f: Filter, maps: seq<Event>): seq<Event>
    requires forall i :: 0 <= i < |maps| ==> maps[i].Map?
  {
    if maps == [] then []
    else (if Passes(f, maps[0]) then [maps[0]] else []) + PassingMaps(f, maps[1..])
  }

  /** The map of `id` passes. */
  predicate Kept(f: Filter, maps: seq<Event>, id: nat)
    requires forall i :: 0 <= i < |maps| ==> maps[i].Map?
  {
    exists i :: 0 <= i < |maps| && maps[i].id == id && Passes(f, maps[i])
  }

  function KeptRows(f: Filter, maps: seq<Event>, rows: seq<Event>): seq<Event>
    requires forall i :: 0 <= i < |maps| ==> maps[i].Map?
    requires forall i :: 0 <= i < |rows| ==> rows[i].Rows?
  {
    if rows == [] then []
    else (if Kept(f, maps, rows[0].id) then [rows[0]] else []) + KeptRows(f, maps, rows[1..])
  }

  /** The annotation, if some map passes, and one BINLOG statement of the passing maps and
      of the rows whose map passes. */
  ghost function Expected(f: Filter, st: Statement): seq<Chunk>
    requires WellFormed(st)
  {
    var maps := PassingMaps(f, st.maps);
    var events := maps + KeptRows(f, st.maps, st.rows);
    (if st.annotate.Some? && !f.skipAnnotate && maps != [] then [Comment(st.annotate.value)] else []) +
    (if events != [] then [Binlog(events)] else [])
  }

  ghost function ExpectedLog(f: Filter, sts: seq<Statement>): seq<Chunk>
    requires forall i :: 0 <= i < |sts| ==> WellFormed(sts[i])
  {
    if sts == [] then [] else Expected(f, sts[0]) + ExpectedLog(f, sts[1..])
  }

  // ------------------------------------------------------------ and is

  lemma {:induction false} RunConcat(f: Filter, s: State, a: seq<Event>, b: seq<Event>)
    ensures Run(f, s, a + b) == Run(f, Run(f, s, a), b)
    decreases |a|
  {
    if a == [] {
      assert a + b == b;
    } else {
      assert (a + b)[0] == a[0] && (a + b)[1..] == a[1..] + b;
      RunConcat(f, Step(f, s, a[0]), a[1..], b);
    }
  }

  function SkippedIds(f: Filter, maps: seq<Event>): set<nat>
    requires forall i :: 0 <= i < |maps| ==> maps[i].Map?
  {
    if maps == [] then {} else (if Passes(f, maps[0]) then {} else {maps[0].id}) + SkippedIds(f, maps[1..])
  }

  /** The maps: the first that passes brings the annotation out. */
  lemma {:induction false} RunMaps(f: Filter, s: State, maps: seq<Event>)
    requires forall i :: 0 <= i < |maps| ==> maps[i].Map?
    ensures var p := PassingMaps(f, maps);
      Run(f, s, maps) == State(
        s.ignored + SkippedIds(f, maps),
        if p != [] then None else s.annotate,
        s.cache + p,
        s.file + if p != [] && s.annotate.Some? then [Comment(s.annotate.value)] else [])
    decreases |maps|
  {
    if maps == [] {
      assert s.ignored + {} == s.ignored && s.cache + [] == s.cache && s.file + [] == s.file;
    } else {
      var s1 := Step(f, s, maps[0]);
      RunMaps(f, s1, maps[1..]);
      var p := PassingMaps(f, maps[1..]);
      if Passes(f, maps[0]) {
        assert s.cache + [maps[0]] + p == s.cache + ([maps[0]] + p);
        assert s1.file + [] == s1.file;
        assert s.ignored + SkippedIds(f, maps[1..]) == s.ignored + ({} + SkippedIds(f, maps[1..]));
      } else {
        assert s.ignored + {maps[0].id} + SkippedIds(f, maps[1..]) == s.ignored + ({maps[0].id} + SkippedIds(f, maps[1..]));
        assert [] + p == p;
      }
    }
  }

  /** With distinct ids, an id is skipped exactly if its map does not pass. */
  lemma {:induction false} SkippedOrKept(f: Filter, maps: seq<Event>, id: nat)
    requires forall i :: 0 <= i < |maps| ==> maps[i].Map?
    requires forall i, j :: 0 <= i < j < |maps| ==> maps[i].id != maps[j].id
    requires exists i :: 0 <= i < |maps| && maps[i].id == id
    ensures id in SkippedIds(f, maps) <==> !Kept(f, maps, id)
  {
    var k :| 0 <= k < |maps| && maps[k].id == id;
    InSkipped(f, maps, id);
    assert Kept(f, maps, id) <==> Passes(f, maps[k]);
  }

  lemma {:induction false} InSkipped(f: Filter, maps: seq<Event>, id: nat)
    requires forall i :: 0 <= i < |maps| ==> maps[i].Map?
    ensures id in SkippedIds(f, maps) <==> exists i :: 0 <= i < |maps| && maps[i].id == id && !Passes(f, maps[i])
  {
    if maps != [] {
      InSkipped(f, maps[1..], id);
      assert forall i :: 0 <= i < |maps| - 1 ==> maps[1..][i] == maps[i + 1];
      if exists i :: 0 <= i < |maps| && maps[i].id == id && !Passes(f, maps[i]) {
        var i :| 0 <= i < |maps| && maps[i].id == id && !Passes(f, maps[i]);
        assert i > 0 ==> maps[1..][i - 1] == maps[i];
      }
      if exists i :: 0 <= i < |maps[1..]| && maps[1..][i].id == id && !Passes(f, maps[1..][i]) {
        var i :| 0 <= i < |maps[1..]| && maps[1..][i].id == id && !Passes(f, maps[1..][i]);
        assert maps[i + 1].id == id && !Passes(f, maps[i + 1]);
      }
    }
  }

  /** The rows: kept ones join the cache, and the last one, kept or not, empties it. */
  lemma {:induction false} RunRows(f: Filter, s: State, maps: seq<Event>, rows: seq<Event>)
    requires forall i :: 0 <= i < |maps| ==> maps[i].Map?
    requires rows != []
    requires forall i :: 0 <= i < |rows| ==> rows[i].Rows? && (rows[i].stmtEnd <==> i == |rows| - 1)
    requires forall i :: 0 <= i < |rows| ==> (rows[i].id in s.ignored <==> !Kept(f, maps, rows[i].id))
    ensures Run(f, s, rows) == Flush(State({}, None, s.cache + KeptRows(f, maps, rows), s.file))
    decreases |rows|
  {
    var s1 := Step(f, s, rows[0]);
    var k := if Kept(f, maps, rows[0].id) then [rows[0]] else [];
    assert s.cache + k == if k == [] then s.cache else s.cache + [rows[0]];
    if |rows| == 1 {
      assert rows[1..] == [] && k + [] == k;
    } else {
      assert forall i :: 0 <= i < |rows| - 1 ==> rows[1..][i] == rows[i + 1];
      RunRows(f, s1, maps, rows[1..]);
      assert s.cache + k + KeptRows(f, maps, rows[1..]) == s.cache + (k + KeptRows(f, maps, rows[1..]));
    }
  }

  ghost predicate AtBoundary(s: State) {
    s.ignored == {} && s.annotate == None && s.cache == []
  }

  /** The annotation, if there is one, is held back. */
  lemma RunHead(f: Filter, s: State, annotate: Option<string>)
    requires s.annotate == None
    ensures Run(f, s, if annotate.Some? then [Annotate(annotate.value)] else []) ==
      s.(annotate := if f.skipAnnotate then None else annotate)
  {
    if annotate.Some? { assert [Annotate(annotate.value)][1..] == []; }
  }

  lemma StatementPrinted(f: Filter, s: State, st: Statement)
    requires WellFormed(st) && AtBoundary(s)
    ensures Run(f, s, EventsOf(st)) == s.(file := s.file + Expected(f, st))
  {
    var head := if st.annotate.Some? then [Annotate(st.annotate.value)] else [];
    RunConcat(f, s, head + st.maps, st.rows);
    RunConcat(f, s, head, st.maps);
    RunHead(f, s, st.annotate);
    var s0 := s.(annotate := if f.skipAnnotate then None else st.annotate);
    RunMaps(f, s0, st.maps);
    var s1 := Run(f, s0, st.maps);
    assert {} + SkippedIds(f, st.maps) == SkippedIds(f, st.maps);
    forall i | 0 <= i < |st.rows| ensures st.rows[i].id in s1.ignored <==> !Kept(f, st.maps, st.rows[i].id) {
      SkippedOrKept(f, st.maps, st.rows[i].id);
    }
    RunRows(f, s1, st.maps, st.rows);
    ChunksPrinted(f, s, st);
  }

  lemma ChunksPrinted(f: Filter, s: State, st: Statement)
    requires WellFormed(st)
    ensures var maps := PassingMaps(f, st.maps);
      var note := if st.annotate.Some? && !f.skipAnnotate && maps != [] then [Comment(st.annotate.value)] else [];
      Flush(State({}, None, [] + maps + KeptRows(f, st.maps, st.rows), s.file + note)) ==
      State({}, None, [], s.file + Expected(f, st))
  {
    var maps := PassingMaps(f, st.maps);
    var note := if st.annotate.Some? && !f.skipAnnotate && maps != [] then [Comment(st.annotate.value)] else [];
    var events := maps + KeptRows(f, st.maps, st.rows);
    assert [] + maps == maps && note + [] == note;
    Regroup(s.file, note, [Binlog(events)]);
  }

  lemma Regroup(a: seq<Chunk>, b: seq<Chunk>, c: seq<Chunk>)
    ensures a + b + c == a + (b + c)
  {
  }

  /** Over every log of well-formed row statements: exactly the maps that pass and the rows
      of maps that pass are printed; an annotation is printed once, before the first such
      map, or not at all; and nothing is left over at any statement boundary. */
  lemma {:induction false} LogPrinted(f: Filter, s: State, sts: seq<Statement>)
    requires AtBoundary(s) && forall i :: 0 <= i < |sts| ==> WellFormed(sts[i])
    ensures Run(f, s, Log(sts)) == s.(file := s.file + ExpectedLog(f, sts))
    ensures AtBoundary(Run(f, s, Log(sts)))
    decreases |sts|
  {
    if sts == [] {
      assert s.file + [] == s.file;
    } else {
      StatementPrinted(f, s, sts[0]);
      var s1 := s.(file := s.file + Expected(f, sts[0]));
      RunConcat(f, s, EventsOf(sts[0]), Log(sts[1..]));
      LogPrinted(f, s1, sts[1..]);
      Regroup(s.file, Expected(f, sts[0]), ExpectedLog(f, sts[1..]));
    }
  }

  // ------------------------------------------------------------ what a filter lets through

  /** The events in the BINLOG statements of a file. */
  function Printed(file: seq<Chunk>): seq<Event> {
    if file == [] then []
    else (if file[0].Binlog? then file[0].events else []) + Printed(file[1..])
  }

  lemma {:induction false} PrintedConcat(a: seq<Chunk>, b: seq<Chunk>)
    ensures Printed(a + b) == Printed(a) + Printed(b)
  {
    if a == [] {
      assert a + b == b;
    } else {
      assert (a + b)[1..] == a[1..] + b;
      PrintedConcat(a[1..], b);
    }
  }

  /** Database and table are those asked for, if any are. */
  predicate Wanted(f: Filter, m: Event) {
    m.Map? && (f.database == None || f.database == Some(m.db)) && (f.table == None || f.table == Some(m.table))
  }

  /** A map that is wanted, or rows of one. */
  ghost predicate Concerns(f: Filter, st: Statement, e: Event) {
    (e in st.maps && Wanted(f, e)) || (e in st.rows && e.Rows? && exists m :: m in st.maps && Wanted(f, m) && m.id == e.id)
  }

  lemma {:induction false} InPassing(f: Filter, maps: seq<Event>, e: Event)
    requires forall i :: 0 <= i < |maps| ==> maps[i].Map?
    ensures e in PassingMaps(f, maps) <==> e in maps && Wanted(f, e)
  {
    if maps != [] { InPassing(f, maps[1..], e); }
  }

  lemma {:induction false} InKept(f: Filter, maps: seq<Event>, rows: seq<Event>, e: Event)
    requires forall i :: 0 <= i < |maps| ==> maps[i].Map?
    requires forall i :: 0 <= i < |rows| ==> rows[i].Rows?
    ensures e in KeptRows(f, maps, rows) <==> e in rows && Kept(f, maps, e.id)
  {
    if rows != [] { InKept(f, maps, rows[1..], e); }
  }

  lemma PrintedBoth(note: seq<Chunk>, events: seq<Event>)
    requires forall i :: 0 <= i < |note| ==> note[i].Comment?
    requires |note| <= 1
    ensures Printed(note + if events != [] then [Binlog(events)] else []) == events
  {
    var last := if events != [] then [Binlog(events)] else [];
    PrintedConcat(note, last);
    assert |note| == 1 ==> note[1..] == [];
    assert last != [] ==> last[1..] == [] && events + [] == events;
  }

  lemma ExpectedEvents(f: Filter, st: Statement)
    requires WellFormed(st)
    ensures Printed(Expected(f, st)) == PassingMaps(f, st.maps) + KeptRows(f, st.maps, st.rows)
  {
    var maps := PassingMaps(f, st.maps);
    var note := if st.annotate.Some? && !f.skipAnnotate && maps != [] then [Comment(st.annotate.value)] else [];
    PrintedBoth(note, maps + KeptRows(f, st.maps, st.rows));
  }

  lemma StatementConcerns(f: Filter, st: Statement, e: Event)
    requires WellFormed(st)
    ensures e in Printed(Expected(f, st)) <==> Concerns(f, st, e)
  {
    ExpectedEvents(f, st);
    InPassing(f, st.maps, e);
    InKept(f, st.maps, st.rows, e);
    if e in st.rows { KeptIsWanted(f, st.maps, e.id); }
  }

  lemma KeptIsWanted(f: Filter, maps: seq<Event>, id: nat)
    requires forall i :: 0 <= i < |maps| ==> maps[i].Map?
    ensures Kept(f, maps, id) <==> exists m :: m in maps && Wanted(f, m) && m.id == id
  {
    if i :| 0 <= i < |maps| && maps[i].id == id && Passes(f, maps[i]) { assert maps[i] in maps && Wanted(f, maps[i]); }
  }

  /** An event comes out if and only if it is a wanted map, or rows whose map, in the same
      statement, is wanted. */
  lemma {:induction false} LogConcerns(f: Filter, sts: seq<Statement>, e: Event)
    requires forall i :: 0 <= i < |sts| ==> WellFormed(sts[i])
    ensures e in Printed(ExpectedLog(f, sts)) <==> exists i :: 0 <= i < |sts| && Concerns(f, sts[i], e)
  {
    if sts != [] {
      LogConcerns(f, sts[1..], e);
      StatementConcerns(f, sts[0], e);
      PrintedConcat(Expected(f, sts[0]), ExpectedLog(f, sts[1..]));
      if i :| 0 <= i < |sts[1..]| && Concerns(f, sts[1..][i], e) { assert Concerns(f, sts[i + 1], e); }
      if i :| 0 <= i < |sts| && Concerns(f, sts[i], e) { assert i > 0 ==> Concerns(f, sts[1..][i - 1], e); }
    }
  }
}
