/** LOAD DATA in mysqlbinlog (class Load_log_processor in client/mysqlbinlog.cc): the blocks
    of each loaded file come as events of their own, mixed with those of other files, and
    are put together in temporary files until the statement is executed. */
module LoadData {
  import opened Text

  /** `Create` and `Exec` are the old format, `Begin` and `Execute` the new one. `skip`
      says that the event's database is filtered out. */
  datatype Event =
    | Create(id: nat, block: string, skip: bool)
    | Begin(id: nat, block: string)
    | Append(id: nat, block: string)
    | Exec(id: nat)
    | Execute(id: nat, skip: bool)

  /** What happens at an event: a file is handed to a LOAD DATA statement, or nothing. */
  datatype Effect = HandOver(content: string) | Warned | Silent

  // ------------------------------------------------------------ one file id on its own

  /** An open load: what has been collected, and whether the old format began it. */
  datatype Load = Load(legacy: bool, content: string)

  function Step(l: Option<Load>, e: Event): Option<Load> {
    match e
    case Create(_, block, skip) => if skip then l else Some(Load(true, block))
    case Begin(_, block) => Some(Load(false, block))
    case Append(_, block) => if l.Some? then Some(l.value.(content := l.value.content + block)) else None
    case Exec(_) => if l.Some? && l.value.legacy then None else l
    case Execute(_, _) => if l.Some? && !l.value.legacy then None else l
  }

  /** The load of `id` after some events, by the events of that id alone. */
  function Track(events: seq<Event>, id: nat): Option<Load> {
    if events == [] then None
    else
      var l := Track(events[..|events| - 1], id);
      var e := events[|events| - 1];
      if e.id == id then Step(l, e) else l
  }

  /** What an event does, given the load of its id. */
  function EffectOf(l: Option<Load>, e: Event): Effect {
    match e
    case Create(_, _, _) => Silent
    case Begin(_, _) => Silent
    case Append(_, _) => if l.Some? then Silent else Warned
    case Exec(_) => if l.Some? && l.value.legacy then HandOver(l.value.content) else Warned
    case Execute(_, skip) =>
      if skip then Silent else if l.Some? && !l.value.legacy then HandOver(l.value.content) else Warned
  }

  // ------------------------------------------------------------ the processor

  /** File_name_record: zeroed, or a file and whether a Create_file event is kept. */
  datatype Record = Record(fname: Option<nat>, event: bool)

  const ZEROED := Record(None, false)

  function RecordAt(names: seq<Record>, id: nat): Record {
    if id < |names| then names[id] else ZEROED
  }

  /** set_dynamic: an index past the end extends the array with zeroed records. */
  function SetRecord(names: seq<Record>, id: nat, r: Record): (s: seq<Record>)
    ensures forall i: nat :: RecordAt(s, i) == if i == id then r else RecordAt(names, i)
  {
    if id < |names| then names[id := r] else names + seq(id - |names|, _ => ZEROED) + [r]
  }

  /** A record stands for a load. */
  predicate Stands(r: Record, files: map<nat, string>, l: Option<Load>) {
    match l
    case None => r == ZEROED
    case Some(l) => r.fname.Some? && r.event == l.legacy && r.fname.value in files && files[r.fname.value] == l.content
  }

  /** Every record stands for the load of its id, and open loads share no file. */
  ghost predicate Consistent(names: seq<Record>, files: map<nat, string>, seen: seq<Event>) {
    && (forall id: nat :: Stands(RecordAt(names, id), files, Track(seen, id)))
    && (forall i: nat, j: nat :: i != j && RecordAt(names, i).fname.Some? ==>
          RecordAt(names, i).fname != RecordAt(names, j).fname)
  }

  lemma TrackSnoc(seen: seq<Event>, e: Event, id: nat)
    ensures Track(seen + [e], id) == if e.id == id then Step(Track(seen, id), e) else Track(seen, id)
  {
    assert (seen + [e])[..|seen|] == seen;
  }

  /** One event changes the record of its id, and at most that id's file. */
  lemma ConsistentStep(names: seq<Record>, files: map<nat, string>, seen: seq<Event>, e: Event,
                       names': seq<Record>, files': map<nat, string>)
    requires Consistent(names, files, seen)
    requires forall i: nat :: i != e.id ==> RecordAt(names', i) == RecordAt(names, i)
    requires Stands(RecordAt(names', e.id), files', Step(Track(seen, e.id), e))
    requires forall f :: f in files ==> f in files' && (files'[f] == files[f] || Some(f) == RecordAt(names, e.id).fname)
    requires var f := RecordAt(names', e.id).fname; f == None || f == RecordAt(names, e.id).fname || f.value !in files
    ensures Consistent(names', files', seen + [e])
  {
    forall id: nat ensures Stands(RecordAt(names', id), files', Track(seen + [e], id)) {
      TrackSnoc(seen, e, id);
      assert Stands(RecordAt(names, id), files, Track(seen, id));
      if id != e.id { assert RecordAt(names, id).fname.Some? ==> RecordAt(names, id).fname != RecordAt(names, e.id).fname; }
    }
    forall i: nat, j: nat | i != j && RecordAt(names', i).fname.Some?
      ensures RecordAt(names', i).fname != RecordAt(names', j).fname
    {
      assert Stands(RecordAt(names, i), files, Track(seen, i));
      assert Stands(RecordAt(names, j), files, Track(seen, j));
    }
  }

  class Processor {
    var fileNames: seq<Record>
    var files: map<nat, string>
    ghost var seen: seq<Event>

    ghost predicate Valid()
      reads this
    {
      Consistent(fileNames, files, seen)
    }

    constructor ()
      ensures Valid() && seen == []
    {
      fileNames, files, seen := [], map[], [];
    }

    /** create_unique_file: the first name that is not in use. */
    method UnusedName() returns (fname: nat)
      ensures fname !in files
    {
      fname := 0;
      ghost var tried: set<nat> := {};
      while fname in files
        invariant forall n :: n in tried ==> n < fname
        decreases files.Keys - tried
      {
        assert fname in files.Keys - tried;
        tried := tried + {fname};
        fname := fname + 1;
      }
    }

    /** process_first_event: a new file with the first block, registered under its id. */
    method ProcessFirst(id: nat, block: string, legacy: bool, ghost e: Event)
      requires Valid() && e.id == id && Step(Track(seen, id), e) == Some(Load(legacy, block))
      modifies this
      ensures Valid() && seen == old(seen) + [e]
    {
      var fname := UnusedName();
      var names := SetRecord(fileNames, id, Record(Some(fname), legacy));
      ConsistentStep(fileNames, files, seen, e, names, files[fname := block]);
      files := files[fname := block];
      fileNames := names;
      seen := seen + [e];
    }

    /** process(Append_block): the block goes to the file of its id, if there is one. */
    method ProcessAppend(id: nat, block: string) returns (r: Effect)
      requires Valid()
      modifies this
      ensures Valid() && seen == old(seen) + [Append(id, block)]
      ensures r == EffectOf(Track(old(seen), id), Append(id, block))
    {
      assert Stands(RecordAt(fileNames, id), files, Track(seen, id));
      var fname := if id < |fileNames| then fileNames[id].fname else None;
      var files' := if fname.Some? then files[fname.value := files[fname.value] + block] else files;
      ConsistentStep(fileNames, files, seen, Append(id, block), fileNames, files');
      files := files';
      r := if fname.Some? then Silent else Warned;
      seen := seen + [Append(id, block)];
    }

    /** grab_event (`legacy`) and grab_fname: the file of an id, which is forgotten. */
    method Grab(id: nat, legacy: bool, ghost e: Event) returns (content: Option<string>)
      requires Valid() && e.id == id && (if legacy then e.Exec? else e.Execute?)
      modifies this
      ensures Valid() && seen == old(seen) + [e]
      ensures var l := Track(old(seen), id);
        content == if l.Some? && l.value.legacy == legacy then Some(l.value.content) else None
    {
      assert Stands(RecordAt(fileNames, id), files, Track(seen, id));
      content := None;
      var names := fileNames;
      if id < |fileNames| && fileNames[id].event == legacy {
        if fileNames[id].fname.Some? { content := Some(files[fileNames[id].fname.value]); }
        names := fileNames[id := ZEROED];
      }
      ConsistentStep(fileNames, files, seen, e, names, files);
      fileNames := names;
      seen := seen + [e];
    }

    /** The LOAD DATA cases of process_event. */
    method ProcessEvent(e: Event) returns (r: Effect)
      requires Valid()
      modifies this
      ensures Valid() && seen == old(seen) + [e]
      ensures r == EffectOf(Track(old(seen), e.id), e)
    {
      match e
      case Create(id, block, skip) =>
        r := Silent;
        if skip {
          assert Stands(RecordAt(fileNames, id), files, Track(seen, id));
          ConsistentStep(fileNames, files, seen, e, fileNames, files);
          seen := seen + [e];
        } else {
          ProcessFirst(id, block, true, e);
        }
      case Begin(id, block) =>
        r := Silent;
        ProcessFirst(id, block, false, e);
      case Append(id, block) => r := ProcessAppend(id, block);
      case Exec(id) =>
        var content := Grab(id, true, e);
        r := if content.Some? then HandOver(content.value) else Warned;
      case Execute(id, skip) =>
        var content := Grab(id, false, e);
        r := if skip then Silent else if content.Some? then HandOver(content.value) else Warned;
    }
  }

  /** A whole log: the effects are those of each file id on its own. */
  method ProcessLog(events: seq<Event>) returns (effects: seq<Effect>)
    ensures |effects| == |events|
    ensures forall i :: 0 <= i < |events| ==> effects[i] == EffectOf(Track(events[..i], events[i].id), events[i])
  {
    var p := new Processor();
    effects := [];
    for i := 0 to |events|
      invariant p.Valid() && p.seen == events[..i] && |effects| == i
      invariant forall j :: 0 <= j < i ==> effects[j] == EffectOf(Track(events[..j], events[j].id), events[j])
    {
      var r := p.ProcessEvent(events[i]);
      effects := effects + [r];
    }
  }

  // ------------------------------------------------------------ what a group delivers

  /** The events of one id. */
  function Only(events: seq<Event>, id: nat): seq<Event> {
    if events == [] then []
    else
      var e := events[|events| - 1];
      Only(events[..|events| - 1], id) + if e.id == id then [e] else []
  }

  /** Events of other ids make no difference. */
  lemma {:induction false} TrackOnly(events: seq<Event>, id: nat)
    ensures Track(events, id) == Track(Only(events, id), id)
  {
    if events != [] {
      var n := |events| - 1;
      TrackOnly(events[..n], id);
      if events[n].id == id {
        TrackSnoc(Only(events[..n], id), events[n], id);
      } else {
        assert Only(events[..n], id) + [] == Only(events[..n], id);
      }
    }
  }

  function Joined(blocks: seq<string>): string {
    if blocks == [] then "" else Joined(blocks[..|blocks| - 1]) + blocks[|blocks| - 1]
  }

  function Appends(id: nat, blocks: seq<string>): seq<Event> {
    if blocks == [] then [] else Appends(id, blocks[..|blocks| - 1]) + [Append(id, blocks[|blocks| - 1])]
  }

  lemma {:induction false} TrackGroup(before: seq<Event>, first: Event, blocks: seq<string>)
    requires first.Begin? || (first.Create? && !first.skip)
    ensures Track(before + [first] + Appends(first.id, blocks), first.id) ==
      Some(Load(first.Create?, first.block + Joined(blocks)))
  {
    var start := before + [first];
    if blocks == [] {
      assert start + [] == start && first.block + "" == first.block;
      TrackSnoc(before, first, first.id);
    } else {
      var n := |blocks| - 1;
      TrackGroup(before, first, blocks[..n]);
      var e, most := Append(first.id, blocks[n]), Appends(first.id, blocks[..n]);
      assert start + (most + [e]) == start + most + [e];
      TrackSnoc(start + most, e, first.id);
      var a, b := first.block, Joined(blocks[..n]);
      assert a + b + blocks[n] == a + (b + blocks[n]);
    }
  }

  /** For every interleaving: if the events of an id, whatever they were before, end in a
      first block and appended blocks, then executing it hands over exactly these blocks
      in order; and it is handed over once, and blocks that come later are ignored. */
  lemma GroupDelivered(events: seq<Event>, before: seq<Event>, first: Event, blocks: seq<string>, late: seq<Event>, last: Event)
    requires first.Begin? || (first.Create? && !first.skip)
    requires last.id == first.id && (if first.Begin? then last.Execute? && !last.skip else last.Exec?)
    requires Only(events, first.id) == before + [first] + Appends(first.id, blocks)
    requires forall i :: 0 <= i < |late| && late[i].id == first.id ==> late[i].Append? || late[i].Exec? || late[i].Execute?
    ensures EffectOf(Track(events, first.id), last) == HandOver(first.block + Joined(blocks))
    ensures Track(events + [last] + late, first.id) == None
    ensures !EffectOf(Track(events + [last] + late, first.id), last).HandOver?
  {
    TrackOnly(events, first.id);
    TrackGroup(before, first, blocks);
    TrackSnoc(events, last, first.id);
    StaysClosed(events + [last], late, first.id);
  }

  lemma {:induction false} StaysClosed(events: seq<Event>, late: seq<Event>, id: nat)
    requires Track(events, id) == None
    requires forall i :: 0 <= i < |late| && late[i].id == id ==> late[i].Append? || late[i].Exec? || late[i].Execute?
    ensures Track(events + late, id) == None
  {
    if late == [] {
      assert events + late == events;
    } else {
      var n := |late| - 1;
      StaysClosed(events, late[..n], id);
      assert events + late == events + late[..n] + [late[n]];
      TrackSnoc(events + late[..n], late[n], id);
    }
  }

  /** A filtered first block in the old format counts as if it were not there: without an
      open load its blocks are ignored, and executing it hands over nothing. */
  lemma {:induction false} SkippedCreate(before: seq<Event>, id: nat, block: string, late: seq<Event>)
    ensures Track(before + [Create(id, block, true)] + late, id) == Track(before + late, id)
    ensures Track(before, id) == None && (forall i :: 0 <= i < |late| && late[i].id == id ==> late[i].Append?) ==>
      EffectOf(Track(before + [Create(id, block, true)] + late, id), Exec(id)) == Warned
  {
    var first := Create(id, block, true);
    if late == [] {
      assert before + [first] + late == before + [first] && before + late == before;
      TrackSnoc(before, first, id);
    } else {
      var n := |late| - 1;
      SkippedCreate(before, id, block, late[..n]);
      assert before + [first] + late == before + [first] + late[..n] + [late[n]];
      assert before + late == before + late[..n] + [late[n]];
      TrackSnoc(before + [first] + late[..n], late[n], id);
      TrackSnoc(before + late[..n], late[n], id);
    }
    if Track(before, id) == None && forall i :: 0 <= i < |late| && late[i].id == id ==> late[i].Append? {
      StaysClosed(before, late, id);
    }
  }

  /** A filtered statement in the new format says nothing, and its file is forgotten all the
      same; one of the other format is warned of, and changes nothing. */
  lemma EndsOfGroup(before: seq<Event>, first: Event, blocks: seq<string>)
    requires first.Begin? || (first.Create? && !first.skip)
    ensures var group, id := before + [first] + Appends(first.id, blocks), first.id;
      first.Begin? ==>
      && EffectOf(Track(group, id), Execute(id, true)) == Silent && Track(group + [Execute(id, true)], id) == None
      && EffectOf(Track(group, id), Exec(id)) == Warned && Track(group + [Exec(id)], id) == Track(group, id)
    ensures var group, id := before + [first] + Appends(first.id, blocks), first.id;
      first.Create? ==>
      EffectOf(Track(group, id), Execute(id, false)) == Warned && Track(group + [Execute(id, false)], id) == Track(group, id)
  {
    var group, id := before + [first] + Appends(first.id, blocks), first.id;
    TrackGroup(before, first, blocks);
    TrackSnoc(group, Execute(id, true), id);
    TrackSnoc(group, Execute(id, false), id);
    TrackSnoc(group, Exec(id), id);
  }
}
