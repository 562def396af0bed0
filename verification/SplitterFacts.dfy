/** Facts about every run of the splitter, with any commands, replies, delimiters and
    options. */
module SplitterFacts {
  import opened Text
  import opened Splitter
  import Batch
  import LineReader

  /** Never inside a string and a comment at once; an open string has a quote. */
  predicate Exclusive(inString: char, mlComment: bool) {
    (inString != NUL ==> IsQuote(inString)) && !(inString != NUL && mlComment)
  }

  /** Escapes, delimiters and single-line comments leave strings and comments as they are. */
  lemma SameMode(e: Env, c: Core, out: string, rest: string)
    requires ValidCore(c) && rest != ""
    ensures var s := EscapeStep(e, c, out, rest).core; s.inString == c.inString && s.mlComment == c.mlComment
    ensures var s := LineCommentStep(e, c, out, rest).core; s.inString == c.inString && s.mlComment == c.mlComment
  {
  }

  lemma DelimiterMode(e: Env, c: Core, out: string, rest: string)
    requires ValidCore(c) && IsDelimiter(c, rest)
    ensures var s := DelimiterStep(e, c, out, rest).core; s.inString == c.inString && s.mlComment == c.mlComment
  {
  }

  lemma NextExclusive(e: Env, c: Core, out: string, rest: string)
    requires ValidCore(c) && rest != "" && Exclusive(c.inString, c.mlComment)
    ensures var s := Next(e, c, out, rest); Exclusive(s.core.inString, s.core.mlComment)
  {
    match KindOf(e, c, out, rest)
    case Skipped =>
    case Backslash => SameMode(e, c, out, rest);
    case Delimiter => DelimiterMode(e, c, out, rest);
    case Comment => SameMode(e, c, out, rest);
    case Opening =>
    case Closing =>
    case Plain =>
  }

  lemma {:induction false} ScanExclusive(e: Env, c: Core, out: string, rest: string)
    requires ValidCore(c) && Exclusive(c.inString, c.mlComment)
    ensures var s := Scan(e, c, out, rest); Exclusive(s.core.inString, s.core.mlComment)
    decreases |rest|
  {
    if rest != "" {
      NextExclusive(e, c, out, rest);
      var s := Next(e, c, out, rest);
      if s.status == Continue && s.n <= |rest| { ScanExclusive(e, s.core, s.out, rest[s.n..]); }
    }
  }

  lemma TurnExclusive(e: Env, named: bool, k: Carry, p: LineReader.Piece, first: bool)
    requires ValidCarry(k) && Exclusive(k.inString, k.mlComment)
    ensures var r := Batch.Turn(e, named, k, p, first); Exclusive(r.carry.inString, r.carry.mlComment)
  {
    ScanExclusive(e, StartCore(k), "", Batch.SkipBom(p.text, first));
  }

  /** Over any input, from any exclusive state, `in_string` and `ml_comment` are never
      both set: prompts, escapes and delimiters mean one thing at a time. */
  lemma {:induction false} RunExclusive(e: Env, named: bool, k: Carry, pieces: seq<LineReader.Piece>, first: bool)
    requires ValidCarry(k) && Exclusive(k.inString, k.mlComment)
    ensures var r := Batch.RunPieces(e, named, k, pieces, first); Exclusive(r.carry.inString, r.carry.mlComment)
    decreases |pieces|
  {
    if pieces != [] {
      TurnExclusive(e, named, k, pieces[0], first);
      var r := Batch.Turn(e, named, k, pieces[0], first);
      if r.end == Batch.Eof { RunExclusive(e, named, r.carry, pieces[1..], false); }
    }
  }

  // ------------------------------------------------------------ when a line takes its terminator

  /** Inside a string whose escapes are on. */
  predicate Escaping(c: Core) {
    ValidCore(c) && c.inString != NUL && IsEscape(c, "\\")
  }

  /** Read in pairs, the text does not close the string. */
  predicate Stays(s: string, quote: char) {
    if s == "" then true
    else if s[0] == '\\' then |s| == 1 || Stays(s[2..], quote)
    else s[0] != quote && Stays(s[1..], quote)
  }

  /** Read in pairs, the text ends in a lone backslash. */
  predicate Lone(s: string) {
    s != "" && if s[0] == '\\' then |s| == 1 || Lone(s[2..]) else Lone(s[1..])
  }

  /** Inside a string that a line does not close: the terminator is taken as data exactly
      in binary mode, and exactly if the line ends in a lone backslash. */
  lemma {:induction false} OverrunExactly(e: Env, c: Core, out: string, rest: string)
    requires Escaping(c) && Stays(rest, c.inString)
    ensures Scan(e, c, out, rest).over <==> e.binaryMode && Lone(rest)
    decreases |rest|
  {
    if rest != "" {
      var s := Next(e, c, out, rest);
      InStringStep(e, c, out, rest);
      if s.status == Continue && s.n <= |rest| { OverrunExactly(e, s.core, s.out, rest[s.n..]); }
    }
  }

  /** One step inside a string. */
  lemma InStringStep(e: Env, c: Core, out: string, rest: string)
    requires Escaping(c) && rest != "" && (rest[0] == '\\' || rest[0] != c.inString)
    ensures var s := Next(e, c, out, rest);
      if rest[0] == '\\' then
        if At(rest, 1) == NUL && !e.binaryMode then s == Step(1, c, out, Stop)
        else s == Step(2, c, out + ['\\', At(rest, 1)], Continue)
      else s.n == 1 && s.status == Continue && Escaping(s.core) && s.core.inString == c.inString
    ensures rest[0] != '\\' && !c.needSpace && (c.client.buffer != "" || out != "") ==>
      Next(e, c, out, rest) == Step(1, c, out + [rest[0]], Continue)
  {
  }

  /** The scan of a line comes to `rest` in state `c'`, with `out'` kept. */
  ghost predicate Reaches(e: Env, c: Core, out: string, line: string, c': Core, out': string, rest: string)
    requires ValidCore(c)
    decreases |line|
  {
    || (c == c' && out == out' && line == rest)
    || (line != "" &&
        var s := Next(e, c, out, line);
        s.status == Continue && s.n <= |line| && Reaches(e, s.core, s.out, line[s.n..], c', out', rest))
  }

  lemma {:induction false} ReachesScan(e: Env, c: Core, out: string, line: string, c': Core, out': string, rest: string)
    requires ValidCore(c) && Reaches(e, c, out, line, c', out', rest)
    ensures ValidCore(c') && Scan(e, c, out, line) == Scan(e, c', out', rest)
    decreases |line|
  {
    if !(c == c' && out == out' && line == rest) {
      var s := Next(e, c, out, line);
      ReachesScan(e, s.core, s.out, line[s.n..], c', out', rest);
    }
  }

  /** The line comes into a string, or starts in one, that it does not close, and ends there
      in a lone backslash. */
  ghost predicate EndsLone(e: Env, c: Core, out: string, line: string)
    requires ValidCore(c)
  {
    exists c', out', rest ::
      Reaches(e, c, out, line, c', out', rest) && Escaping(c') && Stays(rest, c'.inString) && Lone(rest)
  }

  /** For every line and state: the terminator is taken as data if and only if it is binary
      mode and the line ends inside a string in a lone backslash. */
  lemma OverrunIff(e: Env, c: Core, out: string, line: string)
    requires ValidCore(c)
    ensures Scan(e, c, out, line).over <==> e.binaryMode && EndsLone(e, c, out, line)
  {
    if Scan(e, c, out, line).over {
      var c', out' := LastStep(e, c, out, line);
      OverMeans(e, c, out, line);
    } else if EndsLone(e, c, out, line) {
      var c', out', rest :|
        Reaches(e, c, out, line, c', out', rest) && Escaping(c') && Stays(rest, c'.inString) && Lone(rest);
      ReachesScan(e, c, out, line, c', out', rest);
      OverrunExactly(e, c', out', rest);
    }
  }

  lemma {:induction false} LastStep(e: Env, c: Core, out: string, line: string) returns (c': Core, out': string)
    requires ValidCore(c) && Scan(e, c, out, line).over
    ensures Reaches(e, c, out, line, c', out', "\\") && Escaping(c')
    decreases |line|
  {
    var s := Next(e, c, out, line);
    StepBound(e, c, out, line);
    if s.n > |line| {
      c', out' := c, out;
    } else {
      c', out' := LastStep(e, s.core, s.out, line[s.n..]);
    }
  }

  /** What is kept of such a string: all of it, and the terminator. */
  lemma {:induction false} TerminatorTaken(e: Env, c: Core, out: string, rest: string)
    requires e.binaryMode && Escaping(c) && !c.needSpace && (c.client.buffer != "" || out != "")
    requires Stays(rest, c.inString)
    ensures Scan(e, c, out, rest) ==
      Scanned(c, if Lone(rest) then out + rest + [NUL] else out + rest, Continue, Lone(rest))
    decreases |rest|
  {
    if rest == "" {
      assert out + rest == out;
    } else {
      var n := KeepsStep(e, c, out, rest);
      if n <= |rest| {
        TerminatorTaken(e, c, out + rest[..n], rest[n..]);
        Parts(out, rest, n);
      }
    }
  }

  lemma KeepsStep(e: Env, c: Core, out: string, rest: string) returns (n: nat)
    requires e.binaryMode && Escaping(c) && !c.needSpace && (c.client.buffer != "" || out != "")
    requires Stays(rest, c.inString) && rest != ""
    ensures n == if rest[0] == '\\' then 2 else 1
    ensures Scan(e, c, out, rest) ==
      if n > |rest| then Scanned(c, out + rest + [NUL], Continue, true) else Scan(e, c, out + rest[..n], rest[n..])
  {
    InStringStep(e, c, out, rest);
    var s := ScanUnfold(e, c, out, rest);
    n := s.n;
    if n <= |rest| {
      assert rest[..n] == if rest[0] == '\\' then ['\\', At(rest, 1)] else [rest[0]];
    }
  }

  // ------------------------------------------------------------ when the newline lands behind it

  /** Everything was kept as it is, or something was dropped and is still missing. */
  predicate Verbatim(c: Core, out: string, done: string) {
    (out == done && !c.needSpace) || |out| + (if c.needSpace then 1 else 0) < |done|
  }

  lemma NextVerbatim(e: Env, c: Core, out: string, done: string, rest: string)
    requires ValidCore(c) && rest != "" && Verbatim(c, out, done)
    ensures var s := Next(e, c, out, rest);
      s.status == Continue && s.n <= |rest| ==>
      Verbatim(s.core, s.out, done + rest[..s.n])
  {
    match KindOf(e, c, out, rest)
    case Skipped =>
    case Backslash => EscapeVerbatim(e, c, out, done, rest);
    case Delimiter => DelimiterVerbatim(e, c, out, done, rest);
    case Comment =>
    case Opening =>
    case Closing =>
    case Plain => assert rest[..1] == [rest[0]];
  }

  lemma EscapeVerbatim(e: Env, c: Core, out: string, done: string, rest: string)
    requires ValidCore(c) && IsEscape(c, rest) && Verbatim(c, out, done)
    ensures var s := EscapeStep(e, c, out, rest);
      s.status == Continue && s.n <= |rest| ==>
      Verbatim(s.core, s.out, done + rest[..s.n])
  {
    if |rest| >= 2 { assert rest[..2] == ['\\', rest[1]]; }
  }

  lemma DelimiterVerbatim(e: Env, c: Core, out: string, done: string, rest: string)
    requires ValidCore(c) && IsDelimiter(c, rest) && Verbatim(c, out, done)
    ensures var s := DelimiterStep(e, c, out, rest);
      s.status == Continue ==> Verbatim(s.core, s.out, done + rest[..s.n])
  {
  }

  lemma VerbatimStep(e: Env, c: Core, out: string, done: string, rest: string) returns (s: Step, done': string)
    requires ValidCore(c) && Verbatim(c, out, done) && rest != ""
    ensures s.n >= 1 && ValidCore(s.core)
    ensures Scan(e, c, out, rest) ==
      if s.status != Continue then Scanned(s.core, s.out, s.status, false)
      else if s.n > |rest| then Scanned(c, out + rest + [NUL], Continue, true)
      else Scan(e, s.core, s.out, rest[s.n..])
    ensures s == Next(e, c, out, rest) && (s.n <= |rest| ==> done' == done + rest[..s.n] && done' + rest[s.n..] == done + rest)
    ensures s.status == Continue && s.n <= |rest| ==> Verbatim(s.core, s.out, done')
  {
    s := ScanUnfold(e, c, out, rest);
    NextVerbatim(e, c, out, done, rest);
    done' := if s.n <= |rest| then done + rest[..s.n] else done;
    if s.n <= |rest| { Parts(done, rest, s.n); }
  }

  lemma Parts(done: string, rest: string, n: nat)
    requires n <= |rest|
    ensures done + rest[..n] + rest[n..] == done + rest
  {
  }

  /** What is kept with a taken terminator: the whole line, or less than the line. */
  ghost predicate AllOrLess(s: Scanned, line: string) {
    s.over ==> s.out == line + [NUL] || |s.out| <= |line|
  }

  lemma {:induction false} ScanVerbatim(e: Env, c: Core, out: string, done: string, rest: string)
    requires ValidCore(c) && Verbatim(c, out, done)
    ensures AllOrLess(Scan(e, c, out, rest), done + rest)
    decreases |rest|
  {
    if rest != "" {
      var s, done' := VerbatimStep(e, c, out, done, rest);
      if s.status == Continue && s.n <= |rest| { ScanVerbatim(e, s.core, s.out, done', rest[s.n..]); }
    }
  }

  /** Every step of the scan keeps exactly the characters it takes: nothing is skipped, sent,
      removed as a comment or put in its place. */
  ghost predicate AllKept(e: Env, c: Core, out: string, rest: string)
    requires ValidCore(c)
    decreases |rest|
  {
    rest == "" ||
    var s := Next(e, c, out, rest);
    s.status == Continue &&
    (s.n > |rest| || (s.out == out + rest[..s.n] && AllKept(e, s.core, s.out, rest[s.n..])))
  }

  /** The place that a removed comment still claims. */
  function Gap(c: Core): nat {
    if c.needSpace then 1 else 0
  }

  /** No step keeps more than it takes. */
  lemma NextRoom(e: Env, c: Core, out: string, rest: string)
    requires ValidCore(c) && rest != ""
    ensures var s := Next(e, c, out, rest); s.status == Continue ==> |s.out| + Gap(s.core) <= |out| + Gap(c) + s.n
  {
    match KindOf(e, c, out, rest)
    case Skipped =>
    case Backslash => EscapeRoom(e, c, out, rest);
    case Delimiter => DelimiterRoom(e, c, out, rest);
    case Comment =>
    case Opening =>
    case Closing =>
    case Plain =>
  }

  lemma EscapeRoom(e: Env, c: Core, out: string, rest: string)
    requires ValidCore(c) && rest != ""
    ensures var s := EscapeStep(e, c, out, rest); s.status == Continue ==> |s.out| + Gap(s.core) <= |out| + Gap(c) + s.n
  {
  }

  lemma DelimiterRoom(e: Env, c: Core, out: string, rest: string)
    requires ValidCore(c) && IsDelimiter(c, rest)
    ensures var s := DelimiterStep(e, c, out, rest); |s.out| + Gap(s.core) <= |out| + Gap(c) + s.n
  {
  }

  lemma {:induction false} ScanRoom(e: Env, c: Core, out: string, rest: string)
    requires ValidCore(c)
    ensures var s := Scan(e, c, out, rest); s.over ==> |s.out| <= |out| + Gap(c) + |rest| + 1
    decreases |rest|
  {
    if rest != "" {
      var s := ScanUnfold(e, c, out, rest);
      NextRoom(e, c, out, rest);
      if s.status == Continue && s.n <= |rest| { ScanRoom(e, s.core, s.out, rest[s.n..]); }
    }
  }

  /** With a taken terminator, the whole line is what is left if and only if every step keeps
      what it takes. */
  lemma {:induction false} KeptExactly(e: Env, c: Core, out: string, rest: string)
    requires ValidCore(c) && !c.needSpace && Scan(e, c, out, rest).over
    ensures Scan(e, c, out, rest).out == out + rest + [NUL] <==> AllKept(e, c, out, rest)
    decreases |rest|
  {
    var s, done := VerbatimStep(e, c, out, out, rest);
    if s.n <= |rest| {
      if s.out == done {
        KeptExactly(e, s.core, s.out, rest[s.n..]);
      } else {
        ScanRoom(e, s.core, s.out, rest[s.n..]);
      }
    }
  }

  /** The newline lands behind the terminator if and only if the terminator was taken as data
      and every step kept what it took. */
  lemma SpillsExactly(e: Env, k: Carry, line: string, truncated: bool)
    requires ValidCarry(k)
    ensures Spills(e, k, line, truncated) <==>
      && !truncated && !Ignored(k, line) && e.binaryMode && EndsLone(e, StartCore(k), "", line)
      && AllKept(e, StartCore(k), "", line)
  {
    OverrunIff(e, StartCore(k), "", line);
    ScanVerbatim(e, StartCore(k), "", "", line);
    assert "" + line + [NUL] == line + [NUL] && "" + line == line;
    if Scan(e, StartCore(k), "", line).over { KeptExactly(e, StartCore(k), "", line); }
  }

  /** A line that starts inside a string and does not close it spills exactly if it is
      not truncated and ends, in binary mode, in a lone backslash. */
  lemma SpillsInside(e: Env, k: Carry, line: string, truncated: bool)
    requires ValidCarry(k) && Escaping(StartCore(k)) && k.client.buffer != "" && Stays(line, k.inString)
    ensures Spills(e, k, line, truncated) <==> !truncated && e.binaryMode && Lone(line)
  {
    OverrunExactly(e, StartCore(k), "", line);
    if e.binaryMode {
      TerminatorTaken(e, StartCore(k), "", line);
      assert "" + line + [NUL] == line + [NUL] && "" + line == line;
    }
  }
}
