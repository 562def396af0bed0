/** read_and_execute of client/mysql.cc in batch mode, on the reader's own buffer: each line is
    executed where it stands, in front of the input still to come. */
module Execute {
  import opened Text
  import opened Splitter
  import opened LineReader
  import opened Batch
  import opened Overwrite
  import SplitterFacts
  import InPlace

  /** What is pending after a line that spills, or does not. */
  function After(spills: bool, pending: string): string {
    if spills && pending != "" then "\n" + pending[1..] else pending
  }

  lemma BinarySpills(e: Env, k: Carry, line: string, truncated: bool)
    requires ValidCarry(k)
    ensures Spills(e, k, line, truncated) ==> e.binaryMode && !truncated
  {
    OverMeans(e, StartCore(k), "", line);
  }

  /** The splitter at work in the buffer. If the line spills, and the byte after it has been
      read already, that byte is overwritten; nothing else of what is pending changes. */
  method SplitLine(e: Env, k: Carry, input: LineBuffer, at: nat, len: nat, ghost line: string, ghost exact: bool)
    returns (k': Carry, quit: bool)
    requires ValidCarry(k) && input.Valid() && input.Placed(exact) && (e.binaryMode ==> exact)
    requires input.startOfLine <= at && at + len == input.startOfLine + input.readLength < input.buffer.Length
    requires input.buffer[at..at + len] == line && input.buffer[at + len] == NUL
    modifies input.buffer
    ensures Line(k', quit) == AddLine(e, k, line, input.truncated)
    ensures input.Valid()
    ensures input.Pending() == After(Spills(e, k, line, input.truncated) && input.endOfLine < input.end, old(input.Pending()))
  {
    BinarySpills(e, k, line, input.truncated);
    ghost var before := input.buffer[..];
    k', quit := InPlace.AddLineInPlace(e, k, input.buffer, at, len, input.truncated, line);
    PendingAfter(input, before, Spills(e, k, line, input.truncated));
  }

  /** What one byte behind the line does to the input still to come. */
  lemma PendingAfter(input: LineBuffer, before: string, spills: bool)
    requires input.startOfLine <= input.endOfLine <= input.end < input.buffer.Length == |before|
    requires input.eof ==> input.file == "" && (input.endOfLine < input.end ==> before[input.end - 1] == '\n')
    requires !input.eof ==> IO_SIZE <= input.bufread && input.buffer.Length == input.bufread + 1
    requires forall i :: input.endOfLine < i < |before| ==> input.buffer[i] == before[i]
    requires input.endOfLine < input.end ==>
      input.buffer[input.endOfLine] == if spills then '\n' else before[input.endOfLine]
    ensures input.Valid()
    ensures input.Pending() ==
      After(spills && input.endOfLine < input.end, before[input.endOfLine..input.end] + input.file)
  {
    var was, now := before[input.endOfLine..input.end], input.buffer[input.endOfLine..input.end];
    assert |was| == |now| && forall i :: 0 < i < |was| ==> now[i] == was[i];
    assert was != "" ==> now[0] == input.buffer[input.endOfLine] && was[0] == before[input.endOfLine];
    OneByte(was, now, input.file, spills);
  }

  lemma OneByte(was: string, now: string, more: string, spills: bool)
    requires |was| == |now| && forall i :: 0 < i < |was| ==> now[i] == was[i]
    requires was != "" ==> now[0] == if spills then '\n' else was[0]
    ensures now + more == After(spills && was != "", was + more)
  {
    if was == "" {
      assert now == was;
    } else if spills {
      assert now == "\n" + was[1..];
      assert (was + more)[1..] == was[1..] + more;
      assert "\n" + was[1..] + more == "\n" + (was[1..] + more);
    } else {
      assert now == was;
    }
  }

  /** One line: a client command, or text for the splitter. */
  method DoLine(e: Env, named: bool, k: Carry, input: LineBuffer, at: nat, len: nat, line: string, ghost exact: bool)
    returns (l: Line)
    requires ValidCarry(k) && input.Valid() && input.Placed(exact) && (e.binaryMode ==> exact)
    requires input.startOfLine <= at && at + len == input.startOfLine + input.readLength < input.buffer.Length
    requires input.buffer[at..at + len] == line && input.buffer[at + len] == NUL
    modifies input.buffer
    ensures input.Valid() && l == OneLine(e, named, k, line, input.truncated)
    ensures var spills := LineCommand(e, named, k, line) == None && Spills(e, k, line, input.truncated);
      input.Pending() == After(spills && input.endOfLine < input.end, old(input.Pending()))
  {
    var found := LineCommand(e, named, k, line);
    match found
    case Some(command) =>
      var o := Perform(e, k.client, Run(command, CString(line), k.client.buffer));
      l := Line(k.(client := o.client), o.fatal);
    case None =>
      var k', quit := SplitLine(e, k, input, at, len, line, exact);
      l := Line(k', quit);
  }

  /** A byte order mark is skipped. */
  method SkipMark(input: LineBuffer, first: bool, ghost text: string) returns (at: nat, len: nat, line: string)
    requires input.Current(text)
    ensures line == SkipBom(text, first)
    ensures input.startOfLine <= at && at + len == input.startOfLine + input.readLength < input.buffer.Length
    ensures input.buffer[at..at + len] == line && input.buffer[at + len] == NUL
  {
    at, len := input.startOfLine, input.readLength;
    line := input.buffer[at..at + len];
    if first && PrefixAt(line, 0, BOM) {
      at, len, line := at + 3, len - 3, line[3..];
    }
  }

  /** The line returned last is executed in place. */
  method DoTurn(e: Env, named: bool, k: Carry, input: LineBuffer, first: bool, ghost text: string, ghost exact: bool)
    returns (r: Result)
    requires ValidCarry(k) && input.Valid() && input.Current(text) && input.Placed(exact) && (e.binaryMode ==> exact)
    modifies input.buffer
    ensures input.Valid() && r == Turn(e, named, k, Piece(text, input.truncated), first)
    ensures var spills := TurnSpills(e, named, k, Piece(text, input.truncated), first);
      input.Pending() == After(spills && input.endOfLine < input.end, old(input.Pending()))
  {
    if !e.binaryMode && NUL in input.buffer[input.startOfLine..input.startOfLine + input.readLength] {
      return Result(k, NulByte);
    }
    var at, len, line := SkipMark(input, first, text);
    var l := DoLine(e, named, k, input, at, len, line, exact);
    r := Result(l.carry, if l.quit then Fatal else Eof);
  }

  // ------------------------------------------------------------ the whole input

  /** From the end of the input up to place `m`, two sets are the same. */
  ghost predicate Agree(u: set<nat>, v: set<nat>, m: nat) {
    forall n: nat :: n >= m ==> (n in u <==> n in v)
  }

  ghost function Continued(e: Env, named: bool, r: Result, pending: string, exact: bool, unread: set<nat>, first: bool): Result
    requires ValidCarry(r.carry)
  {
    if r.end != Eof then r else RunBuffered(e, named, r.carry, pending, exact, unread, first)
  }

  /** Whatever the reads will bring, the run over `total` comes down to what is pending. */
  ghost predicate HeadsFor(e: Env, named: bool, k: Carry, total: string, exact: bool, unread: set<nat>,
                           r: Result, pending: string, first: bool)
  {
    && ValidCarry(k) && ValidCarry(r.carry)
    && (forall n :: n in unread ==> n >= |pending|)
    && forall u: set<nat> :: Agree(u, unread, |pending|) ==>
         RunBuffered(e, named, k, total, exact, u, true) == Continued(e, named, r, pending, exact, u, first)
  }

  lemma FirstRawIs(raw: Raw, rest: string)
    requires IsRaw(raw.text, raw.ending) && raw.ending != Cut && (raw.ending == LastLine ==> rest == "")
    ensures var s := raw.text + rest; FirstRaw(s) == raw && Rest(s) == rest
  {
    var s := raw.text + rest;
    FirstLine(raw.text, raw.ending, rest);
    assert s[..|raw.text|] == raw.text && s[|raw.text|..] == rest;
  }

  lemma HeadsOn(e: Env, named: bool, k: Carry, total: string, exact: bool, unread: set<nat>,
                r: Result, first: bool, raw: Raw, rest: string, loaded: bool) returns (unread': set<nat>)
    requires HeadsFor(e, named, k, total, exact, unread, r, raw.text + rest, first) && r.end == Eof
    requires IsRaw(raw.text, raw.ending) && raw.ending != Cut && (raw.ending == LastLine ==> rest == "")
    requires loaded ==> rest != ""
    ensures unread' == if rest != "" && !loaded then unread + {|rest|} else unread
    ensures var p := Piece(TextOf(raw.text, raw.ending, exact), false);
      HeadsFor(e, named, k, total, exact, unread', Turn(e, named, r.carry, p, first),
               After(TurnSpills(e, named, r.carry, p, first) && loaded, rest), false)
  {
    unread' := if rest != "" && !loaded then unread + {|rest|} else unread;
    var p := Piece(TextOf(raw.text, raw.ending, exact), false);
    var left := After(TurnSpills(e, named, r.carry, p, first) && loaded, rest);
    forall u: set<nat> | Agree(u, unread', |left|)
      ensures RunBuffered(e, named, k, total, exact, u, true) ==
        Continued(e, named, Turn(e, named, r.carry, p, first), left, exact, u, false)
    {
      assert Agree(u, unread, |raw.text + rest|);
      BufferedStep(e, named, r.carry, raw, rest, exact, u, first, loaded);
    }
  }

  lemma BufferedStep(e: Env, named: bool, k: Carry, raw: Raw, rest: string, exact: bool, u: set<nat>, first: bool, loaded: bool)
    requires ValidCarry(k) && (loaded ==> rest != "") && (rest != "" ==> (|rest| in u <==> !loaded))
    requires IsRaw(raw.text, raw.ending) && raw.ending != Cut && (raw.ending == LastLine ==> rest == "")
    ensures var p := Piece(TextOf(raw.text, raw.ending, exact), false);
      RunBuffered(e, named, k, raw.text + rest, exact, u, first) ==
      Continued(e, named, Turn(e, named, k, p, first), After(TurnSpills(e, named, k, p, first) && loaded, rest), exact, u, false)
  {
    FirstRawIs(raw, rest);
  }

  /** The ghost state of a run: the raw lines read, the pieces they were returned as, the input
      as the reader had it, and the places where it had not read on. */
  datatype Trace = Trace(raws: seq<Raw>, pieces: seq<Piece>, seen: string, unread: set<nat>)

  /** Line `j` of a run, counted from 1, writes its newline over the byte after it. */
  ghost predicate SpillsAt(e: Env, named: bool, k: Carry, pieces: seq<Piece>, j: nat)
    requires ValidCarry(k) && 0 < j <= |pieces|
  {
    TurnSpills(e, named, RunPieces(e, named, k, pieces[..j - 1], true).carry, pieces[j - 1], j == 1)
  }

  /** And byte `i` is that byte. */
  ghost predicate HitBy(e: Env, named: bool, k: Carry, raws: seq<Raw>, pieces: seq<Piece>, i: nat, j: nat)
    requires ValidCarry(k) && |raws| == |pieces| && 0 < j <= |raws|
  {
    |Concat(raws[..j])| == i && SpillsAt(e, named, k, pieces, j)
  }

  /** Byte `i` of an input of length `n` stands right after a line that spills, and had been
      read when that line was executed. */
  ghost predicate Hit(e: Env, named: bool, k: Carry, raws: seq<Raw>, pieces: seq<Piece>, unread: set<nat>, n: nat, i: nat)
    requires ValidCarry(k) && |raws| == |pieces|
  {
    n - i !in unread && exists j :: 0 < j <= |raws| && HitBy(e, named, k, raws, pieces, i, j)
  }

  /** `seen` is the input with newlines over exactly the bytes hit. */
  ghost predicate SeenAs(e: Env, named: bool, k: Carry, raws: seq<Raw>, pieces: seq<Piece>, unread: set<nat>,
                         total: string, seen: string)
    requires ValidCarry(k) && |raws| == |pieces|
  {
    && |seen| == |total|
    && forall i :: 0 <= i < |total| ==>
         seen[i] == if Hit(e, named, k, raws, pieces, unread, |total|, i) then '\n' else total[i]
  }

  /** What a run has come to: the raw lines read, the pieces they were returned as, and the
      state those pieces lead to; `seen` is the input as the reader had it. */
  ghost predicate Ran(e: Env, named: bool, k: Carry, r: Result, t: Trace, exact: bool, total: string, pending: string) {
    && ValidCarry(k) && ValidCarry(r.carry) && r == RunPieces(e, named, k, t.pieces, true)
    && IsRun(t.raws) && t.pieces == Pieces(t.raws, exact)
    && (t.raws != [] && t.raws[|t.raws| - 1].ending == LastLine ==> pending == "")
    && t.seen == Concat(t.raws) + pending && (forall n :: n in t.unread ==> n >= |pending|)
    && SeenAs(e, named, k, t.raws, t.pieces, t.unread, total, t.seen)
  }

  /** One line more. */
  ghost function Longer(t: Trace, raw: Raw, exact: bool, rest: string, left: string, loaded: bool): Trace
    requires IsRaw(raw.text, raw.ending)
  {
    Trace(t.raws + [raw], t.pieces + [Piece(TextOf(raw.text, raw.ending, exact), raw.ending == Cut)],
          Concat(t.raws) + raw.text + left, if rest != "" && !loaded then t.unread + {|rest|} else t.unread)
  }

  lemma {:induction false} RanOn(e: Env, named: bool, k: Carry, r: Result, t: Trace, exact: bool, total: string,
              raw: Raw, rest: string, loaded: bool)
    requires Ran(e, named, k, r, t, exact, total, raw.text + rest) && r.end == Eof
    requires IsRaw(raw.text, raw.ending) && (raw.ending == LastLine ==> rest == "") && (loaded ==> rest != "")
    ensures var p := Piece(TextOf(raw.text, raw.ending, exact), raw.ending == Cut);
      var left := After(TurnSpills(e, named, r.carry, p, t.pieces == []) && loaded, rest);
      Ran(e, named, k, Turn(e, named, r.carry, p, t.pieces == []), Longer(t, raw, exact, rest, left, loaded), exact, total, left)
  {
    var p := Piece(TextOf(raw.text, raw.ending, exact), raw.ending == Cut);
    RunSnoc(e, named, k, t.pieces, p);
    PiecesSnoc(t.raws, raw, exact);
    ConcatSnoc(t.raws, raw);
    SeenOn(e, named, k, t, raw, p, total, rest, loaded);
  }

  lemma RunSnoc(e: Env, named: bool, k: Carry, pieces: seq<Piece>, p: Piece)
    requires ValidCarry(k) && RunPieces(e, named, k, pieces, true).end == Eof
    ensures RunPieces(e, named, k, pieces + [p], true) ==
      Turn(e, named, RunPieces(e, named, k, pieces, true).carry, p, pieces == [])
  {
    RunAppend(e, named, k, pieces, [p], true);
    assert [p][1..] == [];
  }

  /** One line more hits what the lines before it hit, and the byte after it if it spills. */
  lemma HitByOld(e: Env, named: bool, k: Carry, raws: seq<Raw>, pieces: seq<Piece>, raw: Raw, p: Piece, i: nat, j: nat)
    requires ValidCarry(k) && |raws| == |pieces| && 0 < j <= |raws|
    ensures HitBy(e, named, k, raws + [raw], pieces + [p], i, j) <==> HitBy(e, named, k, raws, pieces, i, j)
  {
    assert (raws + [raw])[..j] == raws[..j] && (pieces + [p])[..j - 1] == pieces[..j - 1];
  }

  lemma HitByNew(e: Env, named: bool, k: Carry, raws: seq<Raw>, pieces: seq<Piece>, raw: Raw, p: Piece, i: nat)
    requires ValidCarry(k) && |raws| == |pieces|
    ensures HitBy(e, named, k, raws + [raw], pieces + [p], i, |raws| + 1) <==>
      i == |Concat(raws)| + |raw.text| && TurnSpills(e, named, RunPieces(e, named, k, pieces, true).carry, p, pieces == [])
  {
    ConcatSnoc(raws, raw);
    var m := |raws| + 1;
    assert (raws + [raw])[..m] == raws + [raw] && (pieces + [p])[..m - 1] == pieces && (pieces + [p])[m - 1] == p;
  }

  lemma {:induction false} HitOn(e: Env, named: bool, k: Carry, raws: seq<Raw>, pieces: seq<Piece>, raw: Raw, p: Piece,
                                 u: set<nat>, n: nat, i: nat)
    requires ValidCarry(k) && |raws| == |pieces|
    ensures Hit(e, named, k, raws + [raw], pieces + [p], u, n, i) <==>
      || Hit(e, named, k, raws, pieces, u, n, i)
      || (n - i !in u && i == |Concat(raws)| + |raw.text| &&
          TurnSpills(e, named, RunPieces(e, named, k, pieces, true).carry, p, pieces == []))
  {
    HitByNew(e, named, k, raws, pieces, raw, p, i);
    forall j | 0 < j <= |raws|
      ensures HitBy(e, named, k, raws + [raw], pieces + [p], i, j) <==> HitBy(e, named, k, raws, pieces, i, j)
    {
      HitByOld(e, named, k, raws, pieces, raw, p, i, j);
    }
  }

  /** What lies ahead does not matter for what was hit. */
  lemma {:induction false} HitBefore(e: Env, named: bool, k: Carry, raws: seq<Raw>, pieces: seq<Piece>,
                                     u: set<nat>, v: set<nat>, n: nat, i: nat)
    requires ValidCarry(k) && |raws| == |pieces| && i <= n && |Concat(raws)| <= n
    requires Agree(u, v, n - |Concat(raws)|)
    ensures Hit(e, named, k, raws, pieces, u, n, i) <==> Hit(e, named, k, raws, pieces, v, n, i)
  {
    forall j | 0 < j <= |raws| ensures |Concat(raws[..j])| <= |Concat(raws)| { ConcatPrefix(raws, j); }
  }

  lemma {:induction false} ConcatPrefix(raws: seq<Raw>, j: nat)
    requires j <= |raws|
    ensures Concat(raws[..j]) <= Concat(raws)
    decreases |raws| - j
  {
    if j == |raws| {
      assert raws[..j] == raws;
    } else {
      ConcatPrefix(raws, j + 1);
      assert raws[..j + 1] == raws[..j] + [raws[j]];
      ConcatSnoc(raws[..j], raws[j]);
    }
  }

  lemma AfterAt(front: string, rest: string, spills: bool, i: nat)
    requires i < |front| + |rest|
    ensures (front + After(spills, rest))[i] == if spills && i == |front| then '\n' else (front + rest)[i]
  {
  }

  lemma {:induction false} SeenOn(e: Env, named: bool, k: Carry, t: Trace, raw: Raw, p: Piece, total: string,
                                  rest: string, loaded: bool)
    requires ValidCarry(k) && |t.raws| == |t.pieces| && raw.text != "" && (loaded ==> rest != "")
    requires t.seen == Concat(t.raws) + (raw.text + rest) && (forall n :: n in t.unread ==> n >= |raw.text + rest|)
    requires SeenAs(e, named, k, t.raws, t.pieces, t.unread, total, t.seen)
    ensures var u := if rest != "" && !loaded then t.unread + {|rest|} else t.unread;
      var spills := TurnSpills(e, named, RunPieces(e, named, k, t.pieces, true).carry, p, t.pieces == []);
      SeenAs(e, named, k, t.raws + [raw], t.pieces + [p], u, total, Concat(t.raws) + raw.text + After(spills && loaded, rest))
  {
    var u := if rest != "" && !loaded then t.unread + {|rest|} else t.unread;
    var spills := TurnSpills(e, named, RunPieces(e, named, k, t.pieces, true).carry, p, t.pieces == []);
    var front := Concat(t.raws) + raw.text;
    assert t.seen == front + rest;
    forall i: nat | i < |total|
      ensures (front + After(spills && loaded, rest))[i] ==
        if Hit(e, named, k, t.raws + [raw], t.pieces + [p], u, |total|, i) then '\n' else total[i]
    {
      AfterAt(front, rest, spills && loaded, i);
      HitNow(e, named, k, t, raw, p, u, |total|, rest, loaded, i);
    }
  }

  /** What a new line hits, of what was seen: the byte behind it, if that was read. */
  lemma {:induction false} HitNow(e: Env, named: bool, k: Carry, t: Trace, raw: Raw, p: Piece, u: set<nat>, n: nat,
                                  rest: string, loaded: bool, i: nat)
    requires ValidCarry(k) && |t.raws| == |t.pieces| && raw.text != "" && (loaded ==> rest != "")
    requires n == |Concat(t.raws)| + |raw.text| + |rest| && i < n && (forall x :: x in t.unread ==> x > |rest|)
    requires u == if rest != "" && !loaded then t.unread + {|rest|} else t.unread
    ensures var spills := TurnSpills(e, named, RunPieces(e, named, k, t.pieces, true).carry, p, t.pieces == []);
      Hit(e, named, k, t.raws + [raw], t.pieces + [p], u, n, i) <==>
      || Hit(e, named, k, t.raws, t.pieces, t.unread, n, i)
      || (spills && loaded && i == |Concat(t.raws)| + |raw.text|)
  {
    HitOn(e, named, k, t.raws, t.pieces, raw, p, u, n, i);
    HitBefore(e, named, k, t.raws, t.pieces, t.unread, u, n, i);
  }

  lemma {:induction false} FitsAfter(s: string, maxSize: nat)
    requires Fits(s, maxSize) && s != ""
    ensures Fits("\n" + s[1..], maxSize)
  {
    var t := "\n" + s[1..];
    assert LineLength(t) == 0 && t[1..] == s[1..];
    if s[0] != '\n' && s[1..] != "" {
      var n := LineLength(s);
      assert LineLength(s[1..]) == n - 1;
      if n < |s| { assert s[1..][n..] == s[n + 1..]; }
    }
  }

  /** In a run without cut lines, what is pending leads to the end the whole input has. */
  ghost predicate Running(e: Env, named: bool, k: Carry, r: Result, t: Trace, exact: bool, inString: bool, whole: bool,
                          total: string, pending: string, maxSize: nat)
  {
    && Ran(e, named, k, r, t, exact, total, pending)
    && (whole ==>
        (inString || Fits(pending, maxSize)) && HeadsFor(e, named, k, total, exact, t.unread, r, pending, t.pieces == []))
  }

  lemma {:induction false} RunningOn(e: Env, named: bool, k: Carry, r: Result, t: Trace, exact: bool, inString: bool, whole: bool,
                  total: string, maxSize: nat, pending: string, raw: Raw, rest: string, loaded: bool, r': Result, left: string)
    returns (t': Trace)
    requires Running(e, named, k, r, t, exact, inString, whole, total, pending, maxSize) && r.end == Eof
    requires pending == raw.text + rest && IsRaw(raw.text, raw.ending)
    requires var p := Piece(TextOf(raw.text, raw.ending, exact), raw.ending == Cut);
      && r' == Turn(e, named, r.carry, p, t.pieces == [])
      && left == After(TurnSpills(e, named, r.carry, p, t.pieces == []) && loaded, rest)
    requires (raw.ending == LastLine ==> rest == "") && (loaded ==> rest != "")
    requires raw.ending == Cut ==> maxSize < 2 * (|raw.text| + IO_SIZE) && !inString
    ensures t'.pieces != [] && (rest == "" || loaded ==> t'.unread == t.unread)
    ensures Running(e, named, k, r', t', exact, inString, whole, total, left, maxSize)
  {
    RanOn(e, named, k, r, t, exact, total, raw, rest, loaded);
    t' := Longer(t, raw, exact, rest, left, loaded);
    if whole {
      if !inString {
        FitsPiece(raw.text, raw.ending, rest, maxSize);
        if rest != "" { FitsAfter(rest, maxSize); }
      }
      var unread := HeadsOn(e, named, k, total, exact, t.unread, r, t.pieces == [], raw, rest, loaded);
    }
  }

  /** One line read and executed, without its place in the run. `inString` says that the input
      is a command string. */
  method ReadOne(e: Env, named: bool, k: Carry, input: LineBuffer, first: bool, ghost inString: bool)
    returns (found: bool, r: Result, ghost raw: Raw, ghost rest: string, ghost loaded: bool)
    requires ValidCarry(k) && input.Valid() && (inString ==> input.eof)
    requires input.eof && !inString ==> input.Pending() == ""
    modifies input, input.buffer
    ensures input.Valid() && (input.buffer == old(input.buffer) || fresh(input.buffer))
    ensures input.maxSize == old(input.maxSize) && (inString ==> input.eof)
    ensures (input.eof && !inString) || !found ==> input.Pending() == ""
    ensures !found ==> old(input.Pending()) == ""
    ensures found ==>
      && old(input.Pending()) == raw.text + rest && IsRaw(raw.text, raw.ending)
      && (raw.ending == LastLine ==> rest == "") && (loaded ==> rest != "") && (inString ==> rest == "" || loaded)
      && (raw.ending == Cut ==> input.maxSize < 2 * (|raw.text| + IO_SIZE) && !inString)
    ensures found ==>
      var p := Piece(TextOf(raw.text, raw.ending, e.binaryMode || inString), raw.ending == Cut);
      && r == Turn(e, named, k, p, first)
      && input.Pending() == After(TurnSpills(e, named, k, p, first) && loaded, rest)
  {
    ghost var line, ending;
    found, line, ending := input.BatchReadline(e.binaryMode, input.Pending());
    raw, rest, loaded := Raw(line, ending), input.Pending(), input.endOfLine < input.end;
    if !found { return false, Result(k, Eof), raw, rest, loaded; }
    ghost var exact := e.binaryMode || inString;
    r := DoTurn(e, named, k, input, first, TextOf(line, ending, exact), exact);
  }

  /** One line read and executed. */
  method ReadTurn(e: Env, named: bool, r: Result, input: LineBuffer, first: bool, ghost k: Carry, ghost t: Trace,
                  ghost total: string, ghost whole: bool, ghost inString: bool)
    returns (found: bool, r': Result, ghost t': Trace)
    requires input.Valid() && (inString ==> input.eof && t.unread == {})
    requires input.eof && !inString ==> input.Pending() == ""
    requires Running(e, named, k, r, t, e.binaryMode || inString, inString, whole, total, input.Pending(), input.maxSize)
    requires r.end == Eof && (first <==> t.pieces == [])
    modifies input, input.buffer
    ensures input.Valid() && (input.buffer == old(input.buffer) || fresh(input.buffer))
    ensures input.maxSize == old(input.maxSize) && (inString ==> input.eof && t'.unread == {})
    ensures (input.eof && !inString) || !found ==> input.Pending() == ""
    ensures found ==> |input.Pending()| < |old(input.Pending())| && t'.pieces != []
    ensures !found ==> r' == r && t' == t
    ensures Running(e, named, k, r', t', e.binaryMode || inString, inString, whole, total, input.Pending(), input.maxSize)
  {
    ghost var raw, rest, loaded;
    found, r', raw, rest, loaded := ReadOne(e, named, r.carry, input, first, inString);
    if !found { return false, r, t; }
    t' := RunningOn(e, named, k, r, t, e.binaryMode || inString, inString, whole, total, input.maxSize,
                    old(input.Pending()), raw, rest, loaded, r', input.Pending());
  }

  /** What read_and_execute does with the input `total`, in terms of its trace; `whole` says
      that no line is cut. */
  ghost predicate Executes(e: Env, named: bool, k: Carry, total: string, exact: bool, whole: bool, r: Result, t: Trace)
    requires ValidCarry(k)
  {
    // the effect is that of the pieces, which are what the reader had of the input
    && r == SendRest(e, RunPieces(e, named, k, t.pieces, true))
    && IsRun(t.raws) && t.pieces == Pieces(t.raws, exact)
    && Concat(t.raws) <= t.seen && (r.end == Eof ==> Concat(t.raws) == t.seen)
    // and that is the input, but for the bytes right after lines that spilled
    && SeenAs(e, named, k, t.raws, t.pieces, t.unread, total, t.seen) && (!e.binaryMode ==> t.seen == total)
    // without cut lines, it is a function of the input and of where the reads ended
    && (whole ==>
        && r == SendRest(e, RunBuffered(e, named, k, total, exact, t.unread, true))
        && (r == RunInput(e, named, k, total, exact) <==> Undamaged(e, named, k, total, exact, t.unread, true))
        && (!e.binaryMode ==> r == RunInput(e, named, k, total, exact)))
  }

  /** Outside binary mode no byte is hit. */
  lemma NoHit(e: Env, named: bool, k: Carry, raws: seq<Raw>, pieces: seq<Piece>, u: set<nat>, n: nat, i: nat)
    requires ValidCarry(k) && |raws| == |pieces| && !e.binaryMode
    ensures !Hit(e, named, k, raws, pieces, u, n, i)
  {
    forall j | 0 < j <= |raws| ensures !SpillsAt(e, named, k, pieces, j) {
      var p := pieces[j - 1];
      BinarySpills(e, RunPieces(e, named, k, pieces[..j - 1], true).carry, SkipBom(p.text, j == 1), p.truncated);
    }
  }

  lemma {:induction false} SeenAll(e: Env, named: bool, k: Carry, t: Trace, total: string)
    requires ValidCarry(k) && |t.raws| == |t.pieces| && !e.binaryMode
    requires SeenAs(e, named, k, t.raws, t.pieces, t.unread, total, t.seen)
    ensures t.seen == total
  {
    forall i | 0 <= i < |total| ensures t.seen[i] == total[i] {
      NoHit(e, named, k, t.raws, t.pieces, t.unread, |total|, i);
    }
  }

  lemma {:induction false} Ended(e: Env, named: bool, k: Carry, r: Result, t: Trace, exact: bool, inString: bool, whole: bool,
              total: string, pending: string, maxSize: nat)
    requires Running(e, named, k, r, t, exact, inString, whole, total, pending, maxSize) && (r.end == Eof ==> pending == "")
    requires SplitterFacts.Exclusive(k.inString, k.mlComment) && (e.binaryMode ==> exact)
    ensures Executes(e, named, k, total, exact, whole, SendRest(e, r), t)
  {
    if r.end == Eof { assert Concat(t.raws) + pending == Concat(t.raws); }
    if !e.binaryMode { SeenAll(e, named, k, t, total); }
    if whole {
      assert Agree(t.unread, t.unread, |pending|);
      RunsAlike(e, named, k, total, exact, t.unread, true);
      if !e.binaryMode { TextUndamaged(e, named, k, total, exact, t.unread, true); }
    }
  }

  lemma {:induction false} Started(e: Env, named: bool, k: Carry, exact: bool, inString: bool, whole: bool, total: string, maxSize: nat)
    requires ValidCarry(k) && (whole ==> inString || Fits(total, maxSize))
    ensures Running(e, named, k, Result(k, Eof), Trace([], [], total, {}), exact, inString, whole, total, total, maxSize)
  {
    assert Concat([]) + total == total;
  }

  /** read_and_execute in batch mode. For every input and every schedule of reads, the effect
      is that of the pieces read, in order, and they are the input, but for the bytes that a
      line overwrote. For command strings, and for lines that fit the buffer, the effect is
      that of the lines of the input if and only if no byte was overwritten by something
      else, or only blanks follow from there on. */
  method ReadAndExecute(e: Env, named: bool, client: Client, input: LineBuffer)
    returns (r: Result, ghost t: Trace)
    requires ValidDelimiter(client.delimiter) && input.Valid()
    modifies input, input.buffer
    ensures Executes(e, named, Carry(client, NUL, false), old(input.Pending()), e.binaryMode || old(input.eof),
                     old(input.eof) || Fits(old(input.Pending()), old(input.maxSize)), r, t)
    ensures old(input.eof) ==> t.unread == {}
  {
    ghost var k, total, inString := Carry(client, NUL, false), input.Pending(), input.eof;
    ghost var exact, whole := e.binaryMode || inString, inString || Fits(total, input.maxSize);
    r, t := Result(Carry(client, NUL, false), Eof), Trace([], [], total, {});
    Started(e, named, k, exact, inString, whole, total, input.maxSize);
    var first, found := true, true;
    while found && r.end == Eof
      invariant input.Valid() && (input.buffer == old(input.buffer) || fresh(input.buffer))
      invariant input.maxSize == old(input.maxSize) && (inString ==> input.eof && t.unread == {})
      invariant (input.eof && !inString) || !found ==> input.Pending() == ""
      invariant Running(e, named, k, r, t, exact, inString, whole, total, input.Pending(), input.maxSize)
      invariant first <==> t.pieces == []
      decreases found && r.end == Eof, |input.Pending()|
    {
      found, r, t := ReadTurn(e, named, r, input, first, k, t, total, whole, inString);
      first := first && !found;
    }
    Ended(e, named, k, r, t, exact, inString, whole, total, input.Pending(), input.maxSize);
    r := SendRest(e, r);
  }

  /** The first `n` commands given with -e, as one input. */
  function Commands(commands: seq<string>, n: nat): string
    requires 0 < n <= |commands|
  {
    if n == 1 then commands[0] + "\n" else Joined(Commands(commands, n - 1), commands[n - 1])
  }

  /** batch_readline_command for each of them. */
  method OpenCommands(commands: seq<string>) returns (input: LineBuffer)
    requires commands != []
    ensures fresh(input) && fresh(input.buffer) && input.Valid() && input.eof && input.Pending() == Commands(commands, |commands|)
  {
    input := new LineBuffer.FromString(commands[0]);
    for i := 1 to |commands|
      invariant input.Valid() && input.eof && input.endOfLine == 0 && fresh(input) && fresh(input.buffer)
      invariant input.Pending() == Commands(commands, i)
    {
      input.AddString(commands[i]);
    }
  }

  /** Run with -e options. The effect is that of the lines of the joined commands, always
      outside binary mode, and in it if and only if no byte was overwritten by something
      else, or only blanks follow from there on. */
  method RunCommands(e: Env, named: bool, client: Client, commands: seq<string>) returns (r: Result)
    requires ValidDelimiter(client.delimiter) && commands != []
    ensures var k, total := Carry(client, NUL, false), Commands(commands, |commands|);
      && r == SendRest(e, RunBuffered(e, named, k, total, true, {}, true))
      && (r == RunInput(e, named, k, total, true) <==> Undamaged(e, named, k, total, true, {}, true))
      && (!e.binaryMode ==> r == RunInput(e, named, k, total, true))
  {
    var input := OpenCommands(commands);
    ghost var t;
    r, t := ReadAndExecute(e, named, client, input);
  }
}
