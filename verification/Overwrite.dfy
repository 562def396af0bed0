/** What batch mode makes of its input when a line overwrites the first byte of the next one
    in the reader's buffer: the run is the run over the lines of the input if and only if
    nothing but blanks follows from that byte on. */
module Overwrite {
  import opened Text
  import opened Splitter
  import opened LineReader
  import opened Batch
  import opened SplitterFacts
  import opened Statements

  // ------------------------------------------------------------ what an outsider sees

  /** The statement buffer that goes with an event. */
  function Shown(ev: Event): string
    requires !ev.Unknown?
  {
    if ev.Query? then ev.text else ev.buffer
  }

  function FirstShown(evs: seq<Event>): Option<string> {
    if evs == [] then None
    else if evs[0].Unknown? then FirstShown(evs[1..])
    else Some(Shown(evs[0]))
  }

  lemma {:induction false} FirstSnoc(evs: seq<Event>, ev: Event)
    ensures FirstShown(evs + [ev]) ==
      if FirstShown(evs).Some? then FirstShown(evs) else if ev.Unknown? then None else Some(Shown(ev))
  {
    if evs == [] {
      assert evs + [ev] == [ev] && [ev][1..] == [];
    } else {
      assert (evs + [ev])[1..] == evs[1..] + [ev];
      FirstSnoc(evs[1..], ev);
    }
  }

  lemma {:induction false} AllUnknown(evs: seq<Event>)
    requires FirstShown(evs) == None && evs != []
    ensures evs[|evs| - 1].Unknown?
  {
    if |evs| > 1 { AllUnknown(evs[1..]); }
  }

  /** Since event `n`, a buffer was shown, and the first one shown starts with `p`. */
  ghost predicate Sealed(c: Client, n: nat, p: string) {
    n <= |c.sent| && var f := FirstShown(c.sent[n..]); f.Some? && p <= f.value
  }

  /** Since event `n`, no buffer was shown. */
  ghost predicate Silent(c: Client, n: nat) {
    n <= |c.sent| && FirstShown(c.sent[n..]) == None
  }

  /** Since event `n`, the buffer starts with `p`, or did so when it was first shown. */
  ghost predicate Keeps(c: Client, n: nat, p: string) {
    Sealed(c, n, p) || (Silent(c, n) && p <= c.buffer)
  }

  lemma PerformShows(e: Env, c: Client, ev: Event, n: nat, p: string)
    requires ValidDelimiter(c.delimiter) && n <= |c.sent|
    requires ev.Unknown? || Shown(ev) == c.buffer
    ensures var c' := Perform(e, c, ev).client;
      && (Sealed(c, n, p) ==> Sealed(c', n, p))
      && (!ev.Unknown? && Keeps(c, n, p) ==> Sealed(c', n, p))
      && (ev.Unknown? ==> c'.buffer == c.buffer && (Silent(c, n) ==> Silent(c', n)))
  {
    var c' := Perform(e, c, ev).client;
    assert c'.sent[n..] == c.sent[n..] + [ev];
    FirstSnoc(c.sent[n..], ev);
  }

  // ------------------------------------------------------------ what is kept is shown

  /** `p` is kept, or stands in the buffer `b` and the text not yet in the buffer. */
  ghost predicate Tracks(e: Env, c: Core, out: string, n: nat, b: string, p: string) {
    || Keeps(c.client, n, p)
    || (Silent(c.client, n) && c.client.buffer == b && p <= b + out && !(c.mlComment && !e.preserveComments))
  }

  lemma FlushKeeps(e: Env, c: Core, out: string, more: string, n: nat, b: string, p: string)
    requires Tracks(e, c, out, n, b, p)
    ensures Keeps(Flush(c, out + more).client, n, p)
  {
    assert c.client.buffer + (out + more) == c.client.buffer + out + more;
  }

  lemma FlushKept(c: Core, out: string, n: nat, p: string)
    requires Keeps(c.client, n, p)
    ensures Keeps(Flush(c, out).client, n, p)
  {
  }

  lemma MoreOut(b: string, out: string, more: string, p: string)
    requires p <= b + out
    ensures p <= b + (out + more)
  {
    assert b + (out + more) == b + out + more;
  }

  lemma DispatchSeals(e: Env, c: Client, n: nat, p: string)
    requires ValidDelimiter(c.delimiter) && Keeps(c, n, p)
    ensures Sealed(Dispatch(e, c).client, n, p)
  {
    var text := CString(c.buffer);
    match FindName(e, text, c.delimiter)
    case Some(command) => PerformShows(e, c, Run(command, text, c.buffer), n, p);
    case None => PerformShows(e, c, Query(c.buffer), n, p);
  }

  lemma EscapeTracks(e: Env, c: Core, out: string, rest: string, n: nat, b: string, p: string)
    requires ValidCore(c) && IsEscape(c, rest) && Tracks(e, c, out, n, b, p)
    ensures var s := EscapeStep(e, c, out, rest); Tracks(e, s.core, s.out, n, b, p)
    ensures Keeps(c.client, n, p) ==> Keeps(EscapeStep(e, c, out, rest).core.client, n, p)
  {
    var x := At(rest, 1);
    if c.client.buffer == b && p <= b + out { MoreOut(b, out, ['\\', x], p); }
    PerformShows(e, c.client, Unknown(x), n, p);
    var found := FindLetter(e, x);
    if found.Some? { CommandTracks(e, c, out, rest, found.value, n, b, p); }
  }

  lemma CommandTracks(e: Env, c: Core, out: string, rest: string, command: Command, n: nat, b: string, p: string)
    requires ValidCore(c) && Tracks(e, c, out, n, b, p)
    ensures var c1 := Flush(c, out); Sealed(Perform(e, c1.client, Run(command, CString(rest), c1.client.buffer)).client, n, p)
  {
    var c1 := Flush(c, out);
    assert out + "" == out;
    FlushKeeps(e, c, out, "", n, b, p);
    PerformShows(e, c1.client, Run(command, CString(rest), c1.client.buffer), n, p);
  }

  lemma DelimiterTracks(e: Env, c: Core, out: string, rest: string, n: nat, b: string, p: string)
    requires ValidCore(c) && IsDelimiter(c, rest) && Tracks(e, c, out, n, b, p)
    ensures Sealed(DelimiterStep(e, c, out, rest).core.client, n, p)
  {
    var t := TrailingText(e, rest[|c.client.delimiter|..]);
    FlushKeeps(e, c, out, t, n, b, p);
    DispatchSeals(e, Flush(c, out + t).client, n, p);
  }

  lemma CommentTracks(e: Env, c: Core, out: string, rest: string, n: nat, b: string, p: string)
    requires ValidCore(c) && rest != "" && Tracks(e, c, out, n, b, p)
    ensures Keeps(LineCommentStep(e, c, out, rest).core.client, n, p)
  {
    var c1 := Flush(c, out);
    assert out + "" == out;
    FlushKeeps(e, c, out, "", n, b, p);
    var c2 := Flush(c1, CString(rest));
    FlushKept(c1, CString(rest), n, p);
    PerformShows(e, c2.client, Query(c2.client.buffer), n, p);
  }

  lemma CharTracks(e: Env, c: Core, out: string, rest: string, n: nat, b: string, p: string)
    requires ValidCore(c) && rest != "" && Tracks(e, c, out, n, b, p)
    ensures var s := CharStep(e, c, out, rest); s.core.client == c.client && Tracks(e, s.core, s.out, n, b, p)
  {
    if c.client.buffer == b && p <= b + out {
      MoreOut(b, out, [rest[0]], p);
      MoreOut(b, out, [' ', rest[0]], p);
    }
  }

  lemma NextTracks(e: Env, c: Core, out: string, rest: string, n: nat, b: string, p: string)
    requires ValidCore(c) && rest != "" && Tracks(e, c, out, n, b, p)
    ensures var s := Next(e, c, out, rest); Tracks(e, s.core, s.out, n, b, p)
    ensures Keeps(c.client, n, p) ==> Keeps(Next(e, c, out, rest).core.client, n, p)
  {
    match KindOf(e, c, out, rest)
    case Skipped =>
    case Backslash => EscapeTracks(e, c, out, rest, n, b, p);
    case Delimiter => DelimiterTracks(e, c, out, rest, n, b, p);
    case Comment => CommentTracks(e, c, out, rest, n, b, p);
    case Opening =>
      assert out + "" == out;
      FlushKeeps(e, c, out, if e.preserveComments then "/*" else "", n, b, p);
    case Closing =>
      assert out + "" == out;
      FlushKeeps(e, c, out, if e.preserveComments then "*/" else "", n, b, p);
    case Plain => CharTracks(e, c, out, rest, n, b, p);
  }

  lemma {:induction false} ScanTracks(e: Env, c: Core, out: string, rest: string, n: nat, b: string, p: string)
    requires ValidCore(c) && Tracks(e, c, out, n, b, p)
    ensures var s := Scan(e, c, out, rest); Tracks(e, s.core, s.out, n, b, p)
    ensures Keeps(c.client, n, p) ==> Keeps(Scan(e, c, out, rest).core.client, n, p)
    decreases |rest|
  {
    if rest != "" {
      var s := ScanUnfold(e, c, out, rest);
      NextTracks(e, c, out, rest, n, b, p);
      if s.status == Continue && s.n <= |rest| { ScanTracks(e, s.core, s.out, rest[s.n..], n, b, p); }
      if c.client.buffer == b && p <= b + out {
        assert out + (rest + [NUL]) == out + rest + [NUL];
        MoreOut(b, out, rest + [NUL], p);
      }
    }
  }

  /** One line: what was kept is shown or still kept. */
  lemma TurnKeeps(e: Env, named: bool, k: Carry, p: Piece, first: bool, n: nat, t: string)
    requires ValidCarry(k) && Keeps(k.client, n, t)
    ensures Keeps(Turn(e, named, k, p, first).carry.client, n, t)
  {
    var line := SkipBom(p.text, first);
    match LineCommand(e, named, k, line)
    case Some(command) => PerformShows(e, k.client, Run(command, CString(line), k.client.buffer), n, t);
    case None => LineKeeps(e, k, line, p.truncated, n, t);
  }

  lemma LineKeeps(e: Env, k: Carry, line: string, truncated: bool, n: nat, t: string)
    requires ValidCarry(k) && Keeps(k.client, n, t)
    ensures Keeps(AddLine(e, k, line, truncated).carry.client, n, t)
  {
    var s := Scan(e, StartCore(k), "", line);
    ScanTracks(e, StartCore(k), "", line, n, k.client.buffer, t);
    FlushKept(s.core, s.out, n, t);
    FlushKept(s.core, s.out + "\n", n, t);
  }

  lemma {:induction false} PiecesKeep(e: Env, named: bool, k: Carry, pieces: seq<Piece>, first: bool, n: nat, t: string)
    requires ValidCarry(k) && Keeps(k.client, n, t)
    ensures Keeps(RunPieces(e, named, k, pieces, first).carry.client, n, t)
    decreases |pieces|
  {
    if pieces != [] {
      TurnKeeps(e, named, k, pieces[0], first, n, t);
      var r := Turn(e, named, k, pieces[0], first);
      if r.end == Eof { PiecesKeep(e, named, r.carry, pieces[1..], false, n, t); }
    }
  }

  lemma {:induction false} BufferedKeeps(e: Env, named: bool, k: Carry, s: string, exact: bool, unread: set<nat>, first: bool, n: nat, t: string)
    requires ValidCarry(k) && Keeps(k.client, n, t)
    ensures Keeps(RunBuffered(e, named, k, s, exact, unread, first).carry.client, n, t)
    decreases |s|
  {
    if s != "" {
      var p := FirstPiece(s, exact);
      TurnKeeps(e, named, k, p, first, n, t);
      var r := Turn(e, named, k, p, first);
      if r.end == Eof {
        BufferedKeeps(e, named, r.carry, Left(e, named, k, s, exact, unread, first), exact, unread, false, n, t);
      }
    }
  }

  // ------------------------------------------------------------ a fatal end shows itself

  /** Events are only added; an end other than that of the input adds one. */
  ghost predicate Grows(c: Client, c': Client, quit: bool) {
    c.sent <= c'.sent && (quit ==> |c.sent| < |c'.sent|)
  }

  lemma NextGrows(e: Env, c: Core, out: string, rest: string)
    requires ValidCore(c) && rest != ""
    ensures var s := Next(e, c, out, rest); Grows(c.client, s.core.client, s.status == Quit)
  {
    match KindOf(e, c, out, rest)
    case Skipped =>
    case Backslash => EscapeGrows(e, c, out, rest);
    case Delimiter => DelimiterGrows(e, c, out, rest);
    case Comment => CommentGrows(e, c, out, rest);
    case Opening =>
    case Closing =>
    case Plain =>
  }

  lemma EscapeGrows(e: Env, c: Core, out: string, rest: string)
    requires ValidCore(c) && rest != ""
    ensures var s := EscapeStep(e, c, out, rest); Grows(c.client, s.core.client, s.status == Quit)
  {
  }

  lemma DelimiterGrows(e: Env, c: Core, out: string, rest: string)
    requires ValidCore(c) && IsDelimiter(c, rest)
    ensures var s := DelimiterStep(e, c, out, rest); Grows(c.client, s.core.client, s.status == Quit)
  {
  }

  lemma CommentGrows(e: Env, c: Core, out: string, rest: string)
    requires ValidCore(c) && rest != ""
    ensures var s := LineCommentStep(e, c, out, rest); Grows(c.client, s.core.client, s.status == Quit)
  {
  }

  lemma {:induction false} ScanGrows(e: Env, c: Core, out: string, rest: string)
    requires ValidCore(c)
    ensures var s := Scan(e, c, out, rest); Grows(c.client, s.core.client, s.status == Quit)
    decreases |rest|
  {
    if rest != "" {
      var s := ScanUnfold(e, c, out, rest);
      NextGrows(e, c, out, rest);
      if s.status == Continue && s.n <= |rest| { ScanGrows(e, s.core, s.out, rest[s.n..]); }
    }
  }

  lemma TurnGrows(e: Env, named: bool, k: Carry, p: Piece, first: bool)
    requires ValidCarry(k) && e.binaryMode
    ensures var r := Turn(e, named, k, p, first);
      Grows(k.client, r.carry.client, r.end != Eof) && (r.end == Eof || r.end == Fatal)
  {
    ScanGrows(e, StartCore(k), "", SkipBom(p.text, first));
  }

  lemma {:induction false} PiecesGrow(e: Env, named: bool, k: Carry, pieces: seq<Piece>, first: bool)
    requires ValidCarry(k) && e.binaryMode
    ensures var r := RunPieces(e, named, k, pieces, first);
      Grows(k.client, r.carry.client, r.end != Eof) && (r.end == Eof || r.end == Fatal)
    decreases |pieces|
  {
    if pieces != [] {
      TurnGrows(e, named, k, pieces[0], first);
      var r := Turn(e, named, k, pieces[0], first);
      if r.end == Eof { PiecesGrow(e, named, r.carry, pieces[1..], false); }
    }
  }

  lemma {:induction false} BufferedGrows(e: Env, named: bool, k: Carry, s: string, exact: bool, unread: set<nat>, first: bool)
    requires ValidCarry(k) && e.binaryMode
    ensures var r := RunBuffered(e, named, k, s, exact, unread, first);
      Grows(k.client, r.carry.client, r.end != Eof) && (r.end == Eof || r.end == Fatal)
    decreases |s|
  {
    if s != "" {
      var p := FirstPiece(s, exact);
      TurnGrows(e, named, k, p, first);
      var r := Turn(e, named, k, p, first);
      if r.end == Eof {
        BufferedGrows(e, named, r.carry, Left(e, named, k, s, exact, unread, first), exact, unread, false);
      }
    }
  }

  lemma SilentNotQuitted(c: Client, n: nat)
    requires Silent(c, n) && n < |c.sent|
    ensures !Quitted(c) && !Quitted(c.(buffer := TrimEnd(c.buffer)))
  {
    AllUnknown(c.sent[n..]);
  }

  // ------------------------------------------------------------ blanks inside a string

  predicate Blank(s: string) {
    forall i :: 0 <= i < |s| ==> !IsGraph(s[i])
  }

  /** Inside a string, in the middle of a statement. */
  predicate InText(k: Carry) {
    ValidCarry(k) && IsQuote(k.inString) && !k.mlComment && k.client.buffer != ""
  }

  predicate InTextCore(c: Core) {
    ValidCore(c) && IsQuote(c.inString) && !c.mlComment && !c.needSpace && c.client.buffer != ""
  }

  lemma BlankStep(e: Env, c: Core, out: string, rest: string)
    requires InTextCore(c) && rest != "" && !IsGraph(rest[0])
    ensures Next(e, c, out, rest) == Step(1, c, out + [rest[0]], Continue)
  {
  }

  /** Blanks in a string are kept as they are. */
  lemma {:induction false} BlankScan(e: Env, c: Core, out: string, blank: string, rest: string)
    requires InTextCore(c) && Blank(blank)
    ensures Scan(e, c, out, blank + rest) == Scan(e, c, out + blank, rest)
    decreases |blank|
  {
    if blank == "" {
      assert blank + rest == rest && out + blank == out;
    } else {
      var line := blank + rest;
      BlankStep(e, c, out, line);
      var s := ScanUnfold(e, c, out, line);
      assert line[1..] == blank[1..] + rest;
      BlankScan(e, c, out + [blank[0]], blank[1..], rest);
      assert out + [blank[0]] + blank[1..] == out + blank;
    }
  }

  lemma BlankTurn(e: Env, named: bool, k: Carry, line: string)
    requires InText(k) && e.binaryMode && Blank(line)
    ensures Turn(e, named, k, Piece(line, false), false) ==
      Result(k.(client := k.client.(buffer := k.client.buffer + line + "\n")), Eof)
  {
    BlankScan(e, StartCore(k), "", line, "");
    assert line + "" == line && "" + line == line;
    assert k.client.buffer + (line + "\n") == k.client.buffer + line + "\n";
  }

  /** A run over blanks inside a string only adds blanks to the buffer. */
  ghost predicate AddsBlanks(k: Carry, r: Result) {
    && r.end == Eof && k.client.buffer <= r.carry.client.buffer
    && Blank(r.carry.client.buffer[|k.client.buffer|..])
    && r.carry == k.(client := k.client.(buffer := r.carry.client.buffer))
  }

  lemma BlanksOnBlanks(k: Carry, line: string, r: Result)
    requires Blank(line) && AddsBlanks(k.(client := k.client.(buffer := k.client.buffer + line + "\n")), r)
    ensures AddsBlanks(k, r)
  {
    var b, more := k.client.buffer, r.carry.client.buffer[|k.client.buffer + line + "\n"|..];
    assert r.carry.client.buffer == b + line + "\n" + more;
    assert r.carry.client.buffer[|b|..] == line + "\n" + more;
  }

  lemma BlankParts(s: string)
    requires s != "" && Blank(s)
    ensures Blank(FirstPiece(s, true).text) && Blank(Rest(s))
  {
  }

  lemma {:induction false} BlankPieces(e: Env, named: bool, k: Carry, s: string)
    requires InText(k) && e.binaryMode && Blank(s)
    ensures AddsBlanks(k, RunPieces(e, named, k, Whole(SplitLines(s, true)), false))
    decreases |s|
  {
    if s == "" {
      assert k.client.buffer[|k.client.buffer|..] == "";
    } else {
      var line := FirstPiece(s, true).text;
      BlankParts(s);
      FirstOfAll(s, true);
      BlankTurn(e, named, k, line);
      var lines, rest := Whole(SplitLines(s, true)), Whole(SplitLines(Rest(s), true));
      assert lines[1..] == rest;
      var k1 := k.(client := k.client.(buffer := k.client.buffer + line + "\n"));
      BlankPieces(e, named, k1, Rest(s));
      BlanksOnBlanks(k, line, RunPieces(e, named, k1, rest, false));
    }
  }

  lemma {:induction false} BlankBuffered(e: Env, named: bool, k: Carry, s: string, unread: set<nat>)
    requires InText(k) && e.binaryMode && Blank(s)
    ensures AddsBlanks(k, RunBuffered(e, named, k, s, true, unread, false))
    decreases |s|
  {
    if s == "" {
      assert k.client.buffer[|k.client.buffer|..] == "";
    } else {
      var line := FirstPiece(s, true).text;
      BlankParts(s);
      BlankTurn(e, named, k, line);
      var k1 := k.(client := k.client.(buffer := k.client.buffer + line + "\n"));
      var left := Left(e, named, k, s, true, unread, false);
      BlankBuffered(e, named, k1, left, unread);
      BlanksOnBlanks(k, line, RunBuffered(e, named, k1, left, true, unread, false));
    }
  }

  // ------------------------------------------------------------ trimming

  lemma {:induction false} TrimBlank(b: string, blank: string)
    requires Blank(blank)
    ensures TrimEnd(b + blank) == TrimEnd(b)
    decreases |blank|
  {
    if blank == "" {
      assert b + blank == b;
    } else {
      var n := |blank| - 1;
      assert (b + blank)[..|b + blank| - 1] == b + blank[..n];
      TrimBlank(b, blank[..n]);
    }
  }

  lemma {:induction false} TrimKeeps(s: string, p: string)
    requires p <= s && p != "" && IsGraph(p[|p| - 1])
    ensures p <= TrimEnd(s)
  {
    if !IsGraph(s[|s| - 1]) { TrimKeeps(s[..|s| - 1], p); }
  }

  lemma {:induction false} TrimPrefix(s: string)
    ensures TrimEnd(s) <= s
  {
    if s != "" && !IsGraph(s[|s| - 1]) { TrimPrefix(s[..|s| - 1]); }
  }

  lemma BlanksAlike(e: Env, k: Carry, r: Result, r': Result)
    requires ValidCarry(k) && AddsBlanks(k, r) && AddsBlanks(k, r')
    ensures SendRest(e, r) == SendRest(e, r')
  {
    var b := k.client.buffer;
    assert r.carry.client.buffer == b + r.carry.client.buffer[|b|..];
    assert r'.carry.client.buffer == b + r'.carry.client.buffer[|b|..];
    TrimBlank(b, r.carry.client.buffer[|b|..]);
    TrimBlank(b, r'.carry.client.buffer[|b|..]);
  }

  // ------------------------------------------------------------ the run over the lines themselves

  /** A run that went on inside a string with the text `x`: what it showed first, or holds at
      its end, starts with `b` and then `x`, up to a character that is not trimmed; only a
      fatal end may have lost it. */
  ghost predicate Follows(r: Result, n: nat, b: string, x: char) {
    || Sealed(r.carry.client, n, b + [x])
    || (Silent(r.carry.client, n) && r.end == Eof && b + [x] <= TrimEnd(r.carry.client.buffer))
    || (Silent(r.carry.client, n) && r.end == Fatal &&
        (r.carry.client.buffer == b || b + [x] <= r.carry.client.buffer))
  }

  /** The first character in a string that is not blank. */
  lemma GraphStep(e: Env, c: Core, out: string, rest: string)
    requires InTextCore(c) && e.binaryMode && rest != "" && IsGraph(rest[0])
    ensures var s := Next(e, c, out, rest);
      s.status == Continue && s.core.client == c.client && !s.core.mlComment && out + [rest[0]] <= s.out
  {
  }

  lemma GraphScan(e: Env, c: Core, line: string, j: nat, n: nat, p: string)
    requires InTextCore(c) && e.binaryMode && j < |line| && Blank(line[..j]) && IsGraph(line[j])
    requires Silent(c.client, n) && p == c.client.buffer + line[..j + 1]
    ensures var s := Scan(e, c, "", line); Tracks(e, s.core, s.out, n, c.client.buffer, p)
  {
    var blank, rest := line[..j], line[j..];
    assert blank + rest == line && "" + blank == blank;
    BlankScan(e, c, "", blank, rest);
    assert line[..j + 1] == blank + [rest[0]];
    GraphOn(e, c, blank, rest, n, p);
  }

  lemma GraphOn(e: Env, c: Core, out: string, rest: string, n: nat, p: string)
    requires InTextCore(c) && e.binaryMode && rest != "" && IsGraph(rest[0])
    requires Silent(c.client, n) && p == c.client.buffer + (out + [rest[0]])
    ensures var s := Scan(e, c, out, rest); Tracks(e, s.core, s.out, n, c.client.buffer, p)
  {
    GraphStep(e, c, out, rest);
    var s := ScanUnfold(e, c, out, rest);
    if s.n <= |rest| {
      GraphTracks(e, c, s, out + [rest[0]], n, p);
      ScanTracks(e, s.core, s.out, rest[s.n..], n, c.client.buffer, p);
    } else {
      assert out + [rest[0]] <= out + rest + [NUL];
      GraphTracks(e, c, Step(1, c, out + rest + [NUL], Continue), out + [rest[0]], n, p);
    }
  }

  lemma GraphTracks(e: Env, c: Core, s: Step, text: string, n: nat, p: string)
    requires Silent(c.client, n) && p == c.client.buffer + text
    requires s.core.client == c.client && !s.core.mlComment && text <= s.out
    ensures Tracks(e, s.core, s.out, n, c.client.buffer, p)
  {
  }

  /** A line that is not blank, inside a string. */
  lemma GraphTurn(e: Env, named: bool, k: Carry, line: string, j: nat, n: nat, p: string)
    requires InText(k) && e.binaryMode && j < |line| && Blank(line[..j]) && IsGraph(line[j])
    requires Silent(k.client, n) && p == k.client.buffer + line[..j + 1]
    ensures var r := Turn(e, named, k, Piece(line, false), false);
      Keeps(r.carry.client, n, p) || (Silent(r.carry.client, n) && r.end == Fatal && r.carry.client.buffer == k.client.buffer)
  {
    var s := Scan(e, StartCore(k), "", line);
    GraphScan(e, StartCore(k), line, j, n, p);
    assert s.out + "" == s.out;
    FlushKeeps(e, s.core, s.out, "", n, k.client.buffer, p);
    FlushKeeps(e, s.core, s.out, "\n", n, k.client.buffer, p);
  }

  lemma FirstGraph(line: string) returns (j: nat)
    requires !Blank(line)
    ensures j < |line| && Blank(line[..j]) && IsGraph(line[j])
  {
    j := 0;
    while !IsGraph(line[j])
      invariant j < |line| && Blank(line[..j])
      invariant exists i :: j <= i < |line| && IsGraph(line[i])
      decreases |line| - j
    {
      j := j + 1;
    }
  }

  lemma KeepsFollows(r: Result, n: nat, b: string, p: string)
    requires Keeps(r.carry.client, n, p) && (r.end == Eof || r.end == Fatal)
    requires b < p && IsGraph(p[|p| - 1])
    ensures Follows(r, n, b, p[|b|])
  {
    assert b + [p[|b|]] <= p;
    if Silent(r.carry.client, n) { TrimKeeps(r.carry.client.buffer, p); }
  }

  lemma FollowsBack(r: Result, n: nat, b: string, x: char, b': string, x': char)
    requires Follows(r, n, b', x') && b + [x] <= b'
    ensures Follows(r, n, b, x)
  {
    assert b + [x] <= b' + [x'];
  }

  /** The rest of the run after a line that is not blank. */
  lemma GraphRun(e: Env, named: bool, k: Carry, pieces: seq<Piece>, n: nat)
    requires InText(k) && e.binaryMode && Silent(k.client, n)
    requires pieces != [] && !Blank(pieces[0].text) && !pieces[0].truncated
    ensures Follows(RunPieces(e, named, k, pieces, false), n, k.client.buffer, pieces[0].text[0])
  {
    var line, b := pieces[0].text, k.client.buffer;
    var j := FirstGraph(line);
    var p := b + line[..j + 1];
    assert pieces[0] == Piece(line, false) && p[|b|] == line[0];
    GraphTurn(e, named, k, line, j, n, p);
    var r := Turn(e, named, k, pieces[0], false);
    PiecesGrow(e, named, k, pieces, false);
    if r.end == Eof { PiecesKeep(e, named, r.carry, pieces[1..], false, n, p); }
    var r' := RunPieces(e, named, k, pieces, false);
    if Keeps(r'.carry.client, n, p) { KeepsFollows(r', n, b, p); }
  }

  /** The run over an input that goes on inside a string, and is not blank. */
  lemma {:induction false} StringRun(e: Env, named: bool, k: Carry, s: string, n: nat)
    requires InText(k) && e.binaryMode && !Blank(s) && Silent(k.client, n)
    ensures Follows(RunPieces(e, named, k, Whole(SplitLines(s, true)), false), n, k.client.buffer, s[0])
    decreases |s|
  {
    var line, b := FirstPiece(s, true).text, k.client.buffer;
    FirstOfAll(s, true);
    var lines, rest := Whole(SplitLines(s, true)), Whole(SplitLines(Rest(s), true));
    assert lines[1..] == rest && lines[0] == Piece(line, false);
    if Blank(line) {
      BlankTurn(e, named, k, line);
      BlankFirst(s);
      var b1 := b + line + "\n";
      var k1 := k.(client := k.client.(buffer := b1));
      StringRun(e, named, k1, Rest(s), n);
      assert b + [s[0]] <= b1 by { assert b + (line + "\n") == b1; }
      FollowsBack(RunPieces(e, named, k1, rest, false), n, b, s[0], b1, Rest(s)[0]);
    } else {
      GraphRun(e, named, k, lines, n);
    }
  }

  lemma BlankWhole(s: string)
    requires s != "" && Blank(FirstPiece(s, true).text) && Blank(Rest(s))
    ensures Blank(s)
  {
    var raw := FirstRaw(s);
    forall i | 0 <= i < |s| ensures !IsGraph(s[i]) {
      if i < |raw.text| {
        assert raw.text[i] == s[i];
        assert i < |FirstPiece(s, true).text| ==> FirstPiece(s, true).text[i] == s[i];
      } else {
        assert Rest(s)[i - |raw.text|] == s[i];
      }
    }
  }

  /** A blank first line of an input that is not blank is followed by more. */
  lemma BlankFirst(s: string)
    requires !Blank(s) && Blank(FirstPiece(s, true).text)
    ensures !Blank(Rest(s)) && [s[0]] <= FirstPiece(s, true).text + "\n"
  {
    var raw := FirstRaw(s);
    if raw.ending == AtNewline { assert FirstPiece(s, true).text + "\n" == raw.text; }
    if Blank(Rest(s)) { BlankWhole(s); }
  }

  /** The run that finds a newline where the string should go on. */
  lemma NewlineRun(e: Env, named: bool, k: Carry, x: string, unread: set<nat>, n: nat)
    requires InText(k) && e.binaryMode && Silent(k.client, n)
    ensures Keeps(RunBuffered(e, named, k, "\n" + x, true, unread, false).carry.client, n, k.client.buffer + "\n")
  {
    var s := "\n" + x;
    assert FirstRaw(s) == Raw("\n", AtNewline) by { assert LineLength(s) == 0; }
    assert FirstPiece(s, true) == Piece("", false);
    BlankTurn(e, named, k, "");
    var r := Turn(e, named, k, Piece("", false), false);
    assert k.client.buffer + "" + "\n" == k.client.buffer + "\n";
    BufferedKeeps(e, named, r.carry, Left(e, named, k, s, true, unread, false), true, unread, false, n, k.client.buffer + "\n");
  }

  /** What the rest of the run shows. */
  lemma RestShows(e: Env, r: Result, n: nat, q: string)
    requires ValidCarry(r.carry) && Keeps(r.carry.client, n, q) && (r.end == Eof || (r.end == Fatal && n < |r.carry.client.sent|))
    ensures var f := FirstShown(SendRest(e, r).carry.client.sent[n..]);
      if Sealed(r.carry.client, n, q) then f.Some? && q <= f.value
      else if r.end == Eof then
        var t := TrimEnd(r.carry.client.buffer); f == if t == "" then None else Some(t)
      else f == None && SendRest(e, r) == r
    ensures n <= |SendRest(e, r).carry.client.sent| && SendRest(e, r).end == r.end
  {
    var t := TrimEnd(r.carry.client.buffer);
    var c := r.carry.client.(buffer := t);
    FirstSnoc(c.sent[n..], Query(t));
    assert (c.sent + [Query(t)])[n..] == c.sent[n..] + [Query(t)];
    if Silent(r.carry.client, n) && r.end == Fatal { SilentNotQuitted(r.carry.client, n); }
  }

  lemma FollowsShows(e: Env, r: Result, n: nat, b: string, x: char)
    requires ValidCarry(r.carry) && Follows(r, n, b, x) && (r.end == Eof || (r.end == Fatal && n < |r.carry.client.sent|))
    ensures n <= |SendRest(e, r).carry.client.sent| && SendRest(e, r).end == r.end
    ensures var f := FirstShown(SendRest(e, r).carry.client.sent[n..]);
      || (f.Some? && b + [x] <= f.value)
      || (f == None && r.end == Fatal && SendRest(e, r) == r &&
          (r.carry.client.buffer == b || b + [x] <= r.carry.client.buffer))
  {
    var t := TrimEnd(r.carry.client.buffer);
    TrimPrefix(r.carry.client.buffer);
    if Sealed(r.carry.client, n, b + [x]) {
      RestShows(e, r, n, b + [x]);
    } else {
      RestShows(e, r, n, "");
    }
  }

  /** The two runs are told apart by the character after `b`. */
  lemma ToldApart(e: Env, r: Result, r': Result, n: nat, b: string, x: char)
    requires ValidCarry(r.carry) && ValidCarry(r'.carry) && x != '\n'
    requires r.end == Eof || (r.end == Fatal && n < |r.carry.client.sent|)
    requires r'.end == Eof || (r'.end == Fatal && n < |r'.carry.client.sent|)
    requires Follows(r, n, b, x) && Keeps(r'.carry.client, n, b + "\n")
    ensures SendRest(e, r) != SendRest(e, r')
  {
    FollowsShows(e, r, n, b, x);
    RestShows(e, r', n, b + "\n");
    TrimPrefix(r'.carry.client.buffer);
    var f, f' := FirstShown(SendRest(e, r).carry.client.sent[n..]), FirstShown(SendRest(e, r').carry.client.sent[n..]);
    if f.Some? && f'.Some? {
      assert f.value[|b|] == x;
      assert |f'.value| > |b| ==> f'.value[|b|] == '\n';
    } else if f == None && f' == None && r'.end == Fatal {
      assert r'.carry.client.buffer[|b|] == '\n';
      assert |r.carry.client.buffer| > |b| ==> r.carry.client.buffer[|b|] == x;
    }
  }

  // ------------------------------------------------------------ the theorem

  /** The input from the first byte on that was overwritten by something else. */
  ghost function FirstAltered(e: Env, named: bool, k: Carry, s: string, exact: bool, unread: set<nat>, first: bool): Option<string>
    requires ValidCarry(k)
    decreases |s|
  {
    if s == "" then None else
    var r := Turn(e, named, k, FirstPiece(s, exact), first);
    if r.end != Eof then None
    else if Overwrites(e, named, k, s, exact, unread, first) && Rest(s)[0] != '\n' then Some(Rest(s))
    else FirstAltered(e, named, r.carry, Rest(s), exact, unread, false)
  }

  /** No byte was overwritten by something else, or only blanks follow from there on. */
  ghost predicate Undamaged(e: Env, named: bool, k: Carry, s: string, exact: bool, unread: set<nat>, first: bool)
    requires ValidCarry(k)
  {
    var a := FirstAltered(e, named, k, s, exact, unread, first);
    a.None? || Blank(a.value)
  }

  /** Two runs have the same effect, with the statement sent at their end. */
  ghost predicate Alike(e: Env, r: Result, r': Result)
    requires ValidCarry(r.carry) && ValidCarry(r'.carry)
  {
    SendRest(e, r) == SendRest(e, r')
  }

  /** A line that spills ends in binary mode, inside a string. */
  lemma SpillsInText(e: Env, named: bool, k: Carry, p: Piece, first: bool)
    requires ValidCarry(k) && Exclusive(k.inString, k.mlComment) && TurnSpills(e, named, k, p, first)
    ensures var r := Turn(e, named, k, p, first); e.binaryMode && r.end == Eof && InText(r.carry)
  {
    var line := SkipBom(p.text, first);
    OverMeans(e, StartCore(k), "", line);
    TurnExclusive(e, named, k, p, first);
  }

  /** Inside a string, the run over `[x] + rest` and the run that finds a newline instead
      of `x` end alike if and only if `[x] + rest` is blank. */
  lemma AlikeInText(e: Env, named: bool, k: Carry, s: string, unread: set<nat>)
    requires InText(k) && e.binaryMode && s != "" && s[0] != '\n'
    ensures var r := RunBuffered(e, named, k, "\n" + s[1..], true, unread, false);
      var r' := RunPieces(e, named, k, Whole(SplitLines(s, true)), false);
      Alike(e, r, r') <==> Blank(s)
  {
    var t := "\n" + s[1..];
    var r, r' := RunPieces(e, named, k, Whole(SplitLines(s, true)), false), RunBuffered(e, named, k, t, true, unread, false);
    if Blank(s) {
      assert Blank(t);
      BlankPieces(e, named, k, s);
      BlankBuffered(e, named, k, t, unread);
      BlanksAlike(e, k, r, r');
    } else {
      var n := |k.client.sent|;
      assert k.client.sent[n..] == [];
      StringRun(e, named, k, s, n);
      NewlineRun(e, named, k, s[1..], unread, n);
      PiecesGrow(e, named, k, Whole(SplitLines(s, true)), false);
      BufferedGrows(e, named, k, t, true, unread, false);
      ToldApart(e, r, r', n, k.client.buffer, s[0]);
    }
  }

  /** For every input and every schedule of reads: batch mode has the effect of the lines of
      its input if and only if no byte was overwritten by something else, or everything
      from the first such byte on is blank. */
  lemma {:induction false} RunsAlike(e: Env, named: bool, k: Carry, s: string, exact: bool, unread: set<nat>, first: bool)
    requires ValidCarry(k) && Exclusive(k.inString, k.mlComment) && (e.binaryMode ==> exact)
    ensures var r := RunBuffered(e, named, k, s, exact, unread, first);
      var r' := RunPieces(e, named, k, Whole(SplitLines(s, exact)), first);
      Alike(e, r, r') <==> Undamaged(e, named, k, s, exact, unread, first)
    decreases |s|
  {
    if s != "" {
      var p := FirstPiece(s, exact);
      RunsUnfold(e, named, k, s, exact, unread, first);
      TurnExclusive(e, named, k, p, first);
      var r := Turn(e, named, k, p, first);
      if r.end == Eof {
        if Overwrites(e, named, k, s, exact, unread, first) && Rest(s)[0] != '\n' {
          SpillsInText(e, named, k, p, first);
          AlikeInText(e, named, r.carry, Rest(s), unread);
        } else {
          RunsAlike(e, named, r.carry, Rest(s), exact, unread, false);
        }
      }
    }
  }

  /** The first line of both runs. */
  lemma RunsUnfold(e: Env, named: bool, k: Carry, s: string, exact: bool, unread: set<nat>, first: bool)
    requires ValidCarry(k) && s != ""
    ensures var r := Turn(e, named, k, FirstPiece(s, exact), first);
      var altered := Overwrites(e, named, k, s, exact, unread, first) && Rest(s)[0] != '\n';
      && RunPieces(e, named, k, Whole(SplitLines(s, exact)), first) ==
         (if r.end != Eof then r else RunPieces(e, named, r.carry, Whole(SplitLines(Rest(s), exact)), false))
      && RunBuffered(e, named, k, s, exact, unread, first) ==
         (if r.end != Eof then r
          else RunBuffered(e, named, r.carry, if altered then "\n" + Rest(s)[1..] else Rest(s), exact, unread, false))
      && FirstAltered(e, named, k, s, exact, unread, first) ==
         (if r.end != Eof then None else if altered then Some(Rest(s))
          else FirstAltered(e, named, r.carry, Rest(s), exact, unread, false))
  {
    LinesUnfold(e, named, k, s, exact, first);
    BufferedUnfold(e, named, k, s, exact, unread, first);
  }

  lemma BufferedUnfold(e: Env, named: bool, k: Carry, s: string, exact: bool, unread: set<nat>, first: bool)
    requires ValidCarry(k) && s != ""
    ensures var r := Turn(e, named, k, FirstPiece(s, exact), first);
      var altered := Overwrites(e, named, k, s, exact, unread, first) && Rest(s)[0] != '\n';
      RunBuffered(e, named, k, s, exact, unread, first) ==
      if r.end != Eof then r
      else RunBuffered(e, named, r.carry, if altered then "\n" + Rest(s)[1..] else Rest(s), exact, unread, false)
  {
    if Overwrites(e, named, k, s, exact, unread, first) && Rest(s)[0] == '\n' {
      assert Rest(s) == "\n" + Rest(s)[1..];
    }
  }

  lemma LinesUnfold(e: Env, named: bool, k: Carry, s: string, exact: bool, first: bool)
    requires ValidCarry(k) && s != ""
    ensures var r := Turn(e, named, k, FirstPiece(s, exact), first);
      RunPieces(e, named, k, Whole(SplitLines(s, exact)), first) ==
      if r.end != Eof then r else RunPieces(e, named, r.carry, Whole(SplitLines(Rest(s), exact)), false)
  {
    FirstOfAll(s, exact);
    assert Whole(SplitLines(s, exact))[1..] == Whole(SplitLines(Rest(s), exact));
  }

  /** Outside binary mode nothing is overwritten. */
  lemma {:induction false} TextUndamaged(e: Env, named: bool, k: Carry, s: string, exact: bool, unread: set<nat>, first: bool)
    requires ValidCarry(k) && !e.binaryMode
    ensures FirstAltered(e, named, k, s, exact, unread, first) == None
    decreases |s|
  {
    if s != "" {
      var p := FirstPiece(s, exact);
      OverMeans(e, StartCore(k), "", SkipBom(p.text, first));
      var r := Turn(e, named, k, p, first);
      if r.end == Eof { TextUndamaged(e, named, r.carry, Rest(s), exact, unread, false); }
    }
  }

  /** Nor if every read ended with a line. */
  lemma {:induction false} UnreadUndamaged(e: Env, named: bool, k: Carry, s: string, exact: bool, unread: set<nat>, first: bool)
    requires ValidCarry(k) && forall n: nat :: n <= |s| ==> n in unread
    ensures FirstAltered(e, named, k, s, exact, unread, first) == None
    decreases |s|
  {
    if s != "" {
      var r := Turn(e, named, k, FirstPiece(s, exact), first);
      if r.end == Eof { UnreadUndamaged(e, named, r.carry, Rest(s), exact, unread, false); }
    }
  }

  // ------------------------------------------------------------ a family of inputs that lose a byte

  lemma {:induction false} EffectKeeps(items: seq<Item>, s: State, d: string)
    requires AsPrinted(items) && forall i :: 0 <= i < |items| ==> Printable(items[i], d)
    requires !s.gap && (s.text != "" || !IsSpace(At(PrintAll(items, d), 0)))
    ensures EffectAll(items, s) == s.(text := s.text + PrintAll(items, d))
    decreases |items|
  {
    if items == [] {
      assert s.text + PrintAll(items, d) == s.text;
    } else {
      var p, rest := Print(items[0], d), PrintAll(items[1..], d);
      EffectKeepsOne(items[0], s, d, rest);
      EffectKeeps(items[1..], s.(text := s.text + p), d);
      Statements.Regroup(s.text, p, rest, "");
    }
  }

  lemma EffectKeepsOne(item: Item, s: State, d: string, rest: string)
    requires Kept(item) && Printable(item, d) && !s.gap && (s.text != "" || !IsSpace(At(Print(item, d) + rest, 0)))
    ensures Effect(item, s) == s.(text := s.text + Print(item, d))
    ensures s.text + Print(item, d) != "" || Print(item, d) + rest == rest
  {
    match item
    case Word(text) =>
      if text == "" {
        assert s.text + text == s.text && text + rest == rest;
      } else {
        EmitAllKeeps(s, text);
      }
    case Quoted(quote, body) =>
      var t := Escaped(body, quote);
      assert s.text + [quote] + t + [quote] == s.text + ([quote] + t + [quote]);
    case Version(maria) => EmitAllKeeps(s, VersionMark(maria));
    case EndVersion => EmitAllKeeps(s, "*/");
  }

  lemma {:induction false} NotNote(s: State, t: string)
    requires s.text != "" || t == "" || (!IsSpace(t[0]) && !(t[0] == '-' && At(t, 1) == '-'))
    ensures !StartsNote(s, t)
    decreases |t|
  {
    if t != "" { NotNote(Emit(s, t[0]), t[1..]); }
  }

  /** Nothing in such a line is a statement, or a comment. */
  lemma {:induction false} NoStatements(e: Env, items: seq<Item>, s: State, d: string)
    requires AsPrinted(items) && forall i :: 0 <= i < |items| ==> Printable(items[i], d)
    requires !s.gap && (s.text != "" || !(IsSpace(At(PrintAll(items, d), 0)) || "--" <= PrintAll(items, d)))
    ensures AllQueries(e, items, s, d)
    decreases |items|
  {
    if items != [] {
      var p, rest := Print(items[0], d), PrintAll(items[1..], d);
      EffectKeepsOne(items[0], s, d, rest);
      if items[0].Word? {
        if p != "" && p[0] == '-' && At(p, 1) == '-' { WordStart(p, d, rest); }
        NotNote(s, p);
      }
      NoStatements(e, items[1..], s.(text := s.text + p), d);
    }
  }

  lemma WordStart(text: string, d: string, rest: string)
    requires Printable(Word(text), d) && text != "" && text[0] == '-' && At(text, 1) == '-'
    ensures "--" <= text + rest
  {
    assert text + rest == ['-', '-'] + (text + rest)[2..];
  }

  lemma {:induction false} AllPrintable(items: seq<Item>, inVersion: bool, d: string, keep: bool, after: string)
    requires ValidItems(items, inVersion, d, keep, after)
    ensures forall i :: 0 <= i < |items| ==> Printable(items[i], d)
    decreases |items|
  {
    if items != [] { AllPrintable(items[1..], VersionAfter(items[0], inVersion), d, keep, after); }
  }

  /** A line of code and strings that opens a string itself, and does not close it, spills
      exactly if it ends, in binary mode, in a lone backslash. */
  lemma SpillsOpened(e: Env, d: string, client: Client, items: seq<Item>, quote: char, body: string)
    requires Quiet(e, d) && ClearDelimiter(d) && Fresh(client, d)
    requires ValidItems(items, false, d, e.preserveComments, [quote] + body) && AsPrinted(items)
    requires !(IsSpace(At(PrintAll(items, d), 0)) || "--" <= PrintAll(items, d)) && IsQuote(quote) && quote != '`' && Stays(body, quote)
    ensures Spills(e, Carry(client, NUL, false), PrintAll(items, d) + ([quote] + body), false) <==> e.binaryMode && Lone(body)
  {
    var c2, out2 := ScanOpened(e, d, client, items, quote, body);
    OverrunExactly(e, c2, out2, body);
    if e.binaryMode { TerminatorTaken(e, c2, out2, body); }
    var line := PrintAll(items, d) + ([quote] + body);
    assert |PrintAll(items, d) + [quote] + body + [NUL]| == |line| + 1;
    PrintAllNulFree(items, false, d, e.preserveComments, [quote] + body);
    assert At(line, 0) != NUL by { if PrintAll(items, d) == "" { assert line == [quote] + body; } }
  }

  lemma ScanOpened(e: Env, d: string, client: Client, items: seq<Item>, quote: char, body: string) returns (c: Core, out: string)
    requires Quiet(e, d) && ClearDelimiter(d) && Fresh(client, d)
    requires ValidItems(items, false, d, e.preserveComments, [quote] + body) && AsPrinted(items)
    requires !(IsSpace(At(PrintAll(items, d), 0)) || "--" <= PrintAll(items, d)) && IsQuote(quote)
    ensures ValidCore(c) && InQuote(c, d, quote) && c.client == client && out == PrintAll(items, d) + [quote]
    ensures Scan(e, StartCore(Carry(client, NUL, false)), "", PrintAll(items, d) + ([quote] + body)) == Scan(e, c, out, body)
  {
    var start := StartCore(Carry(client, NUL, false));
    var s := State("", false, client.sent, e.preserveComments);
    assert start.client.buffer + "" == "" && Abstract(e, start, "") == s;
    AllPrintable(items, false, d, e.preserveComments, [quote] + body);
    NoStatements(e, items, s, d);
    c, out := ScanItems(e, d, start, "", items, [quote] + body);
    EffectKeeps(items, s, d);
    assert "" + out == out && "" + PrintAll(items, d) == PrintAll(items, d);
    c, out := OneChar(e, d, c, out, quote, body);
    assert "" + out == out;
  }

  /** For every such line in binary mode, and any input after it that is not blank, two
      schedules of reads have different effects: one that read on loses the byte. */
  lemma ByteLost(e: Env, named: bool, d: string, client: Client, line: string, x: string, all: set<nat>)
    requires e.binaryMode && ValidDelimiter(d) && Fresh(client, d) && '\n' !in line && line != ""
    requires !PrefixAt(line, 0, BOM) && LineCommand(e, named, Carry(client, NUL, false), line) == None
    requires Spills(e, Carry(client, NUL, false), line, false) && !Blank(x) && x[0] != '\n'
    requires forall n: nat :: n <= |line + "\n" + x| ==> n in all
    ensures var k, s := Carry(client, NUL, false), line + "\n" + x;
      && FirstAltered(e, named, k, s, true, {}, true) == Some(x)
      && SendRest(e, RunBuffered(e, named, k, s, true, {}, true)) != RunInput(e, named, k, s, true)
      && SendRest(e, RunBuffered(e, named, k, s, true, all, true)) == RunInput(e, named, k, s, true)
  {
    var k, s := Carry(client, NUL, false), line + "\n" + x;
    FirstLineOf(line, x);
    SpillsInText(e, named, k, Piece(line, false), true);
    RunsAlike(e, named, k, s, true, {}, true);
    UnreadUndamaged(e, named, k, s, true, all, true);
    RunsAlike(e, named, k, s, true, all, true);
  }

  lemma FirstLineOf(line: string, x: string)
    requires '\n' !in line
    ensures var s := line + "\n" + x; FirstPiece(s, true) == Piece(line, false) && Rest(s) == x
  {
    var s, raw := line + "\n" + x, line + "\n";
    assert IsRaw(raw, AtNewline);
    FirstLine(raw, AtNewline, x);
    assert s == raw + x && s[..|raw|] == raw && s[|raw|..] == x && raw[..|raw| - 1] == line;
  }

  /** The smallest script of this kind: `b` is lost when the reader had read on, and is not
      when each read ended with a line. */
  lemma SelectLost(e: Env, named: bool, client: Client, s: string, all: set<nat>)
    requires e.binaryMode && Quiet(e, ";") && Fresh(client, ";")
    requires s == "select 'a\\\nb';" && forall n: nat :: n <= |s| ==> n in all
    ensures var k := Carry(client, NUL, false);
      && SendRest(e, RunBuffered(e, named, k, s, true, {}, true)) != RunInput(e, named, k, s, true)
      && SendRest(e, RunBuffered(e, named, k, s, true, all, true)) == RunInput(e, named, k, s, true)
  {
    var word, body, x := SelectParts(s);
    var line, items := word + (['\''] + body), [Word(word)];
    assert items[1..] == [] && word + "" == word;
    SpillsOpened(e, client.delimiter, client, items, '\'', body);
    ShortName(e, named, Carry(client, NUL, false), line);
    ByteLost(e, named, client.delimiter, client, line, x, all);
  }

  lemma SelectParts(s: string) returns (word: string, body: string, x: string)
    requires s == "select 'a\\\nb';"
    ensures Printable(Word(word), ";") && word != "" && !IsSpace(word[0]) && !("--" <= word)
    ensures Stays(body, '\'') && Lone(body) && !Blank(x) && x[0] != '\n'
    ensures var line := word + (['\''] + body);
      && s == line + "\n" + x && '\n' !in line && NUL !in line && !PrefixAt(line, 0, BOM)
      && |line| > 6 && line[6] == ' ' && forall i :: 0 <= i < 6 ==> line[i] != ' ' && line[i] != '\t'
  {
    word, body, x := "select ", "a\\", "b';";
    assert x[0] == 'b' && IsGraph('b') && word[0] == 's';
    WordPrints();
    assert body[1..] == "\\" && Stays(body[1..], '\'') && Lone(body[1..]);
    var line := word + (['\''] + body);
    assert line == "select 'a\\" && line[0] == 's';
  }

  /** In binary mode only DELIMITER is looked up by name, and its name has nine letters. */
  lemma ShortName(e: Env, named: bool, k: Carry, line: string)
    requires e.binaryMode && NUL !in line && |line| > 6 && !IsSpace(line[0])
    requires line[6] == ' ' && forall i :: 0 <= i < 6 ==> line[i] != ' ' && line[i] != '\t'
    ensures LineCommand(e, named, k, line) == None
  {
    CStringWhole(line);
    assert DropSpaces(line) == line;
    NameEnds(line, 6);
  }

  lemma WordPrints()
    ensures Printable(Word("select "), ";")
  {
    var text := "select ";
    forall i | 0 <= i < |text| ensures Ordinary(text[i..], ";") {
      assert text[i..][0] == text[i] && (i + 1 < |text| ==> At(text[i..], 1) == text[i + 1]);
    }
  }
}
