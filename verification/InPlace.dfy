/** add_line of client/mysql.cc on a mutable line: the text kept so far is written
    at `out` over the part already read at `pos`, and each branch of the loop
    refines the pure scanner of `Splitter`.

    The line stands somewhere in a larger array. All positions are positions in that
    array; `at` is where the line starts, and `orig` what the array held up to the end
    of the line. */
module InPlace {
  import opened Text
  import opened Splitter

  /** `line` still holds the unread part of `orig` with its terminator, and from `at`
      to `out` the text kept so far. */
  ghost predicate Mem(line: array<char>, at: nat, orig: string, pos: nat, out: nat, kept: string)
    reads line
  {
    && |orig| < line.Length
    && out == at + |kept| <= pos && out <= line.Length
    && (forall i :: at <= i < out ==> line[i] == kept[i - at])
    && (forall i :: pos <= i < |orig| ==> line[i] == orig[i])
    && (pos <= |orig| ==> line[|orig|] == NUL)
  }

  /** There is room for the space that replaces a removed comment. */
  predicate Room(c: Core, pos: nat, out: nat) {
    out + (if c.needSpace then 1 else 0) <= pos
  }

  /** What a branch establishes: the scanner's step `s`, carried out in memory. */
  ghost predicate Done(line: array<char>, at: nat, orig: string, pos: nat, s: Step,
                       pos': nat, out': nat, c': Core, status: Status)
    reads line
  {
    && c' == s.core && status == s.status && pos' == pos + s.n
    && (status == Continue ==> Mem(line, at, orig, pos', out', s.out) && Room(c', pos', out'))
    && (status == Stop ==> Mem(line, at, orig, pos, out', s.out))
  }

  /** *out++= x, behind the read position. */
  method Put(line: array<char>, at: nat, pos: nat, out: nat, x: char, ghost orig: string, ghost kept: string)
    requires Mem(line, at, orig, pos, out, kept) && out < pos && out <= |orig|
    modifies line
    ensures Mem(line, at, orig, pos, out + 1, kept + [x])
    ensures forall i :: 0 <= i < at || |orig| < i < line.Length ==> line[i] == old(line[i])
  {
    line[out] := x;
  }

  /** buffer.append(line, out - line) reads the kept text. */
  method TakeKept(line: array<char>, at: nat, pos: nat, out: nat, ghost orig: string, ghost kept: string) returns (text: string)
    requires Mem(line, at, orig, pos, out, kept)
    ensures text == kept && Mem(line, at, orig, pos, at, "")
  {
    text := line[at..out];
  }

  method IsPrefix(line: array<char>, pos: nat, d: string, ghost orig: string) returns (b: bool)
    requires pos <= |orig| < line.Length && NUL !in d
    requires forall i :: pos <= i < |orig| ==> line[i] == orig[i]
    requires line[|orig|] == NUL
    ensures b == PrefixAt(orig[pos..], 0, d)
  {
    var k := 0;
    while k < |d|
      invariant k <= |d| && pos + k <= |orig|
      invariant forall i :: 0 <= i < k ==> orig[pos + i] == d[i]
    {
      if line[pos + k] != d[k] {
        assert pos + k < |orig| ==> orig[pos..][k] != d[k];
        return false;
      }
      k := k + 1;
    }
    assert orig[pos..][0..|d|] == d;
    return true;
  }

  /** The tests of the loop, on the bytes at and after `pos`. */
  method Classify(e: Env, c: Core, line: array<char>, at: nat, pos: nat, out: nat, ghost orig: string, ghost kept: string)
    returns (k: Kind)
    requires Mem(line, at, orig, pos, out, kept) && pos < |orig| && ValidCore(c)
    ensures k == KindOf(e, c, kept, orig[pos..])
  {
    ghost var rest := orig[pos..];
    assert forall i :: 0 <= i <= |rest| ==> line[pos + i] == At(rest, i);
    var inchar := line[pos];
    if !e.preserveComments && IsSpace(inchar) && out == at && c.client.buffer == "" { return Skipped; }
    if !c.mlComment && inchar == '\\' && c.inString != '`' &&
       !(c.inString == '"' && c.client.ansiQuotes) &&
       !(c.inString != NUL && c.client.noBackslash) { return Backslash; }
    var d := IsPrefix(line, pos, c.client.delimiter, orig);
    if !c.mlComment && c.inString == NUL && d { return Delimiter; }
    if !c.mlComment && c.inString == NUL &&
       (inchar == '#' || (inchar == '-' && line[pos + 1] == '-' &&
        (IsSpace(line[pos + 2]) || line[pos + 2] == NUL || (c.client.buffer == "" && out == at)))) { return Comment; }
    if c.inString == NUL && inchar == '/' && line[pos + 1] == '*' &&
       !(line[pos + 2] == '!' || (line[pos + 2] == 'M' && line[pos + 3] == '!')) { return Opening; }
    if c.mlComment && !c.ssComment && inchar == '*' && line[pos + 1] == '/' { return Closing; }
    return Plain;
  }

  /** Skip the parameters of a short command inside a server-side comment. */
  method SkipToClose(line: array<char>, pos: nat, ghost orig: string) returns (pos': nat)
    requires pos <= |orig| < line.Length
    requires forall i :: pos <= i < |orig| ==> line[i] == orig[i]
    requires line[|orig|] == NUL
    ensures pos' == pos + UntilClose(orig[pos..])
  {
    pos' := pos;
    while line[pos'] != NUL && (line[pos'] != '*' || line[pos' + 1] != '/')
      invariant pos <= pos' <= |orig|
      invariant pos' + UntilClose(orig[pos'..]) == pos + UntilClose(orig[pos..])
      decreases |orig| - pos'
    {
      assert orig[pos'..][1..] == orig[pos' + 1..];
      pos' := pos' + 1;
    }
  }

  /** Skip the parameters of a short command, and the delimiter after them. */
  method SkipPastDelimiter(d: string, line: array<char>, pos: nat, ghost orig: string) returns (pos': nat)
    requires pos <= |orig| < line.Length && ValidDelimiter(d)
    requires forall i :: pos <= i < |orig| ==> line[i] == orig[i]
    requires line[|orig|] == NUL
    ensures var k := UntilDelimiter(orig[pos..], d);
      pos' == pos + if PrefixAt(orig[pos..], k, d) then k + |d| else k
  {
    pos' := pos;
    var found := IsPrefix(line, pos', d, orig);
    while line[pos'] != NUL && !found
      invariant pos <= pos' <= |orig|
      invariant pos' + UntilDelimiter(orig[pos'..], d) == pos + UntilDelimiter(orig[pos..], d)
      invariant found == PrefixAt(orig[pos'..], 0, d)
      decreases |orig| - pos'
    {
      assert orig[pos'..][1..] == orig[pos' + 1..];
      pos' := pos' + 1;
      found := IsPrefix(line, pos', d, orig);
    }
    PrefixOfSuffix(orig, pos, pos', d);
    if found { pos' := pos' + |d|; }
  }

  method PutEscape(line: array<char>, at: nat, pos: nat, out: nat, x: char, ghost orig: string, ghost kept: string)
    requires Mem(line, at, orig, pos, out, kept) && out + 2 <= pos && out < |orig|
    modifies line
    ensures Mem(line, at, orig, pos, out + 2, kept + ['\\', x])
    ensures forall i :: 0 <= i < at || |orig| < i < line.Length ==> line[i] == old(line[i])
  {
    Put(line, at, pos, out, '\\', orig, kept);
    Put(line, at, pos, out + 1, x, orig, kept + ['\\']);
    assert kept + ['\\'] + [x] == kept + ['\\', x];
  }

  /** `\\` outside comments: an escaped character, or a short command. */
  method DoEscape(e: Env, c: Core, line: array<char>, at: nat, pos: nat, out: nat, ghost orig: string, ghost kept: string)
    returns (pos': nat, out': nat, c': Core, status: Status)
    requires Mem(line, at, orig, pos, out, kept) && pos < |orig| && ValidCore(c) && Room(c, pos, out)
    requires IsEscape(c, orig[pos..])
    modifies line
    ensures Done(line, at, orig, pos, EscapeStep(e, c, kept, orig[pos..]), pos', out', c', status)
    ensures forall i :: 0 <= i < at || |orig| < i < line.Length ==> line[i] == old(line[i])
  {
    ghost var rest := orig[pos..];
    assert line[pos + 1] == At(rest, 1);
    var inchar := line[pos + 1];
    pos', out', c' := pos + 2, out, c;
    if inchar == NUL && (!e.binaryMode || c.inString == NUL) {
      pos', status := pos + 1, Stop;
    } else if c.inString != NUL || inchar == 'N' {
      PutEscape(line, at, pos', out, inchar, orig, kept);
      out', status := out + 2, Continue;
    } else {
      var found := FindLetter(e, inchar);
      match found
      case Some(command) =>
        pos', out', c', status := DoCommand(e, c, line, at, pos, out, command, orig, kept);
      case None =>
        var o := Perform(e, c.client, Unknown(inchar));
        c' := c.(client := o.client);
        if o.fatal { status := Quit; return; }
        PutEscape(line, at, pos', out, inchar, orig, kept);
        out', status := out + 2, Continue;
    }
  }

  method DoCommand(e: Env, c: Core, line: array<char>, at: nat, pos: nat, out: nat, command: Command,
                   ghost orig: string, ghost kept: string)
    returns (pos': nat, out': nat, c': Core, status: Status)
    requires Mem(line, at, orig, pos, out, kept) && pos + 1 < |orig| && ValidCore(c) && Room(c, pos, out)
    requires line[pos + 1] != NUL && c.inString == NUL && line[pos + 1] != 'N'
    requires FindLetter(e, line[pos + 1]) == Some(command)
    ensures Done(line, at, orig, pos, EscapeStep(e, c, kept, orig[pos..]), pos', out', c', status)
  {
    ghost var rest := orig[pos..];
    assert line[pos + 1] == At(rest, 1);
    var text := TakeKept(line, at, pos, out, orig, kept);
    var c1 := Flush(c, text);
    var len := StringEnd(line, pos, orig);
    var o := Perform(e, c1.client, Run(command, line[pos..len], c1.client.buffer));
    pos', out', c' := pos + 2, at, c1.(client := o.client);
    if o.fatal { status := Quit; return; }
    if command.takesParams {
      assert rest[2..] == orig[pos + 2..];
      if c'.ssComment {
        pos' := SkipToClose(line, pos + 2, orig);
      } else {
        pos' := SkipPastDelimiter(c'.client.delimiter, line, pos + 2, orig);
      }
    }
    status := Continue;
  }

  /** strlen: the end of the C string at `pos`. */
  method StringEnd(line: array<char>, pos: nat, ghost orig: string) returns (end: nat)
    requires pos <= |orig| < line.Length
    requires forall i :: pos <= i < |orig| ==> line[i] == orig[i]
    requires line[|orig|] == NUL
    ensures pos <= end <= |orig| && line[pos..end] == CString(orig[pos..])
  {
    end := pos;
    while line[end] != NUL
      invariant pos <= end <= |orig|
      invariant forall i :: pos <= i < end ==> line[i] != NUL
      decreases |orig| - end
    {
      end := end + 1;
    }
    CStringEnds(orig[pos..], end - pos);
    assert line[pos..end] == orig[pos..][..end - pos];
  }

  /** Under preserved comments, white space after a delimiter is copied. */
  method CopySpaces(line: array<char>, at: nat, pos: nat, out: nat, ghost orig: string, ghost kept: string)
    returns (pos': nat, text: string)
    requires Mem(line, at, orig, pos, out, kept) && pos <= |orig|
    modifies line
    ensures text == kept + SpaceText(orig[pos..]) && pos' == pos + |SpaceText(orig[pos..])|
    ensures Mem(line, at, orig, pos', at, "")
    ensures forall i :: 0 <= i < at || |orig| < i < line.Length ==> line[i] == old(line[i])
  {
    pos' := pos;
    var out': nat := out;
    ghost var acc := kept;
    while IsSpace(line[pos'])
      invariant pos <= pos' <= |orig|
      invariant Mem(line, at, orig, pos', out', acc)
      invariant kept + SpaceText(orig[pos..]) == acc + SpaceText(orig[pos'..])
      invariant |SpaceText(orig[pos..])| == pos' - pos + |SpaceText(orig[pos'..])|
      invariant forall i :: 0 <= i < at || |orig| < i < line.Length ==> line[i] == old(line[i])
      decreases |orig| - pos'
    {
      SpaceStep(acc, orig, pos');
      var x := line[pos'];
      pos' := pos' + 1;
      Put(line, at, pos', out', x, orig, acc);
      out', acc := out' + 1, acc + [x];
    }
    text := TakeKept(line, at, pos', out', orig, acc);
  }

  lemma SpaceStep(acc: string, orig: string, p: nat)
    requires p < |orig| && IsSpace(orig[p])
    ensures acc + SpaceText(orig[p..]) == acc + [orig[p]] + SpaceText(orig[p + 1..])
    ensures |SpaceText(orig[p..])| == 1 + |SpaceText(orig[p + 1..])|
  {
    assert orig[p..][1..] == orig[p + 1..];
    assert acc + ([orig[p]] + SpaceText(orig[p + 1..])) == acc + [orig[p]] + SpaceText(orig[p + 1..]);
  }

  /** A single-line comment right after a delimiter. */
  method ReadTrailing(line: array<char>, at: nat, pos: nat, ghost orig: string) returns (text: string)
    requires Mem(line, at, orig, pos, at, "") && pos <= |orig|
    ensures text == TrailingComment(orig[pos..])
  {
    ghost var rest := orig[pos..];
    assert forall i :: 0 <= i <= |rest| ==> line[pos + i] == At(rest, i);
    text := "";
    if line[pos] == '#' || (line[pos] == '-' && line[pos + 1] == '-' && IsSpace(line[pos + 2])) {
      var end := StringEnd(line, pos, orig);
      text := line[pos..end];
    }
  }

  lemma FlushTrailing(e: Env, c: Core, kept: string, orig: string, pos: nat, mid: nat) returns (t: string)
    requires e.preserveComments && pos <= |orig| && mid == pos + |SpaceText(orig[pos..])|
    ensures t == TrailingText(e, orig[pos..])
    ensures Flush(Flush(c, kept + SpaceText(orig[pos..])), TrailingComment(orig[mid..])) == Flush(c, kept + t)
    ensures |t| == mid - pos + |TrailingComment(orig[mid..])|
  {
    var sp := SpaceText(orig[pos..]);
    var comment := TrailingComment(orig[mid..]);
    assert orig[pos..][|sp|..] == orig[mid..];
    assert c.client.buffer + (kept + (sp + comment)) == c.client.buffer + (kept + sp) + comment;
    t := sp + comment;
  }

  /** The statement before the delimiter that ends at `pos`, with its trailing
      text, joins the buffer. */
  method DoTrailing(e: Env, c: Core, line: array<char>, at: nat, pos: nat, out: nat, ghost orig: string, ghost kept: string)
    returns (pos': nat, c': Core, ghost t: string)
    requires Mem(line, at, orig, pos, out, kept) && pos <= |orig| && e.preserveComments
    modifies line
    ensures t == TrailingText(e, orig[pos..]) && pos' == pos + |t| && c' == Flush(c, kept + t)
    ensures Mem(line, at, orig, pos', at, "")
    ensures forall i :: 0 <= i < at || |orig| < i < line.Length ==> line[i] == old(line[i])
  {
    var text, comment;
    pos', text := CopySpaces(line, at, pos, out, orig, kept);
    comment := ReadTrailing(line, at, pos', orig);
    t := FlushTrailing(e, c, kept, orig, pos, pos');
    c', pos' := Flush(Flush(c, text), comment), pos' + |comment|;
  }

  /** A delimiter: the statement is complete and goes out. */
  method DoDelimiter(e: Env, c: Core, line: array<char>, at: nat, pos: nat, out: nat, ghost orig: string, ghost kept: string)
    returns (pos': nat, out': nat, c': Core, status: Status)
    requires Mem(line, at, orig, pos, out, kept) && pos < |orig| && ValidCore(c)
    requires IsDelimiter(c, orig[pos..])
    modifies line
    ensures Done(line, at, orig, pos, DelimiterStep(e, c, kept, orig[pos..]), pos', out', c', status)
    ensures forall i :: 0 <= i < at || |orig| < i < line.Length ==> line[i] == old(line[i])
  {
    ghost var t;
    pos', out' := pos + |c.client.delimiter|, at;
    if e.preserveComments {
      pos', c', t := DoTrailing(e, c, line, at, pos', out, orig, kept);
    } else {
      var text := TakeKept(line, at, pos', out, orig, kept);
      c', t := Flush(c, text), "";
    }
    DelimiterStepAt(e, c, kept, orig, pos, t);
    var o := Dispatch(e, c'.client);
    if o.fatal {
      c', status := c'.(client := o.client), Quit;
    } else {
      c', status := c'.(client := o.client.(buffer := "")), Continue;
    }
  }

  lemma DelimiterStepAt(e: Env, c: Core, kept: string, orig: string, pos: nat, t: string)
    requires pos < |orig| && ValidCore(c) && IsDelimiter(c, orig[pos..])
    requires t == if e.preserveComments then TrailingText(e, orig[pos + |c.client.delimiter|..]) else ""
    ensures DelimiterStep(e, c, kept, orig[pos..])
         == Dispatched(e, Flush(c, if e.preserveComments then kept + t else kept), |c.client.delimiter| + |t|)
  {
    var d := |c.client.delimiter|;
    assert orig[pos..][d..] == orig[pos + d..];
    assert kept + "" == kept;
  }

  /** A comment to the end of the line. */
  method DoLineComment(e: Env, c: Core, line: array<char>, at: nat, pos: nat, out: nat, ghost orig: string, ghost kept: string)
    returns (c': Core, status: Status)
    requires Mem(line, at, orig, pos, out, kept) && pos < |orig| && ValidCore(c)
    ensures var s := LineCommentStep(e, c, kept, orig[pos..]);
      c' == s.core && status == s.status && s.out == ""
  {
    var text := TakeKept(line, at, pos, out, orig, kept);
    c', status := Flush(c, text), Stop;
    if e.preserveComments {
      var startedWithNothing := c'.client.buffer == "";
      var end := StringEnd(line, pos, orig);
      c' := Flush(c', line[pos..end]);
      if startedWithNothing {
        var o := Perform(e, c'.client, Query(c'.client.buffer));
        if o.fatal {
          c', status := c'.(client := o.client), Quit;
        } else {
          c' := c'.(client := o.client.(buffer := ""));
        }
      }
    }
  }

  /** The two characters that open or close a comment, copied if comments are kept. */
  method CopyPair(e: Env, line: array<char>, at: nat, pos: nat, out: nat, x: char, y: char, ghost orig: string, ghost kept: string)
    returns (text: string)
    requires Mem(line, at, orig, pos, out, kept) && pos + 1 < |orig| && orig[pos] == x && orig[pos + 1] == y
    modifies line
    ensures text == if e.preserveComments then kept + [x, y] else kept
    ensures Mem(line, at, orig, pos + 2, at, "")
    ensures forall i :: 0 <= i < at || |orig| < i < line.Length ==> line[i] == old(line[i])
  {
    if e.preserveComments {
      Put(line, at, pos + 1, out, line[pos], orig, kept);
      Put(line, at, pos + 2, out + 1, line[pos + 1], orig, kept + [x]);
      text := TakeKept(line, at, pos + 2, out + 2, orig, kept + [x] + [y]);
      assert kept + [x] + [y] == kept + [x, y];
    } else {
      text := TakeKept(line, at, pos + 2, out, orig, kept);
    }
  }

  method DoChar(e: Env, c: Core, line: array<char>, at: nat, pos: nat, out: nat, ghost orig: string, ghost kept: string)
    returns (out': nat, c': Core)
    requires Mem(line, at, orig, pos, out, kept) && pos < |orig| && ValidCore(c) && Room(c, pos, out)
    modifies line
    ensures Done(line, at, orig, pos, CharStep(e, c, kept, orig[pos..]), pos + 1, out', c', Continue)
    ensures forall i :: 0 <= i < at || |orig| < i < line.Length ==> line[i] == old(line[i])
  {
    ghost var rest := orig[pos..];
    assert forall i :: 0 <= i <= |rest| ==> line[pos + i] == At(rest, i);
    var inchar := line[pos];
    out', c' := out, c;
    if c.inString == NUL && inchar == '/' && line[pos + 1] == '*' && line[pos + 2] == '!' {
      c' := c'.(ssComment := true);
    } else if c.inString == NUL && c.ssComment && inchar == '*' && line[pos + 1] == '/' {
      c' := c'.(ssComment := false);
    }
    if inchar == c.inString {
      c' := c'.(inString := NUL);
    } else if !c.mlComment && c.inString == NUL && IsQuote(inchar) {
      c' := c'.(inString := inchar);
    }
    assert c' == AfterChar(c, rest);
    if !c.mlComment || e.preserveComments {
      ghost var kept' := kept;
      if c.needSpace && !IsSpace(inchar) {
        Put(line, at, pos, out', ' ', orig, kept');
        out', kept' := out' + 1, kept' + [' '];
      }
      c' := c'.(needSpace := false);
      Put(line, at, pos + 1, out', inchar, orig, kept');
      out' := out' + 1;
      assert kept + [' '] + [inchar] == kept + [' ', inchar];
    }
  }

  /** The start of a comment. */
  method DoOpen(e: Env, c: Core, line: array<char>, at: nat, pos: nat, out: nat, ghost orig: string, ghost kept: string)
    returns (c': Core)
    requires Mem(line, at, orig, pos, out, kept) && pos < |orig| && ValidCore(c)
    requires IsOpen(c, orig[pos..])
    modifies line
    ensures Done(line, at, orig, pos, OpenStep(e, c, kept), pos + 2, at, c', Continue)
    ensures forall i :: 0 <= i < at || |orig| < i < line.Length ==> line[i] == old(line[i])
  {
    assert orig[pos] == orig[pos..][0] && orig[pos + 1] == orig[pos..][1];
    var text := CopyPair(e, line, at, pos, out, '/', '*', orig, kept);
    c' := Flush(c, text).(mlComment := true);
    assert kept + ['/', '*'] == kept + "/*";
  }

  /** The end of a comment, which leaves a gap. */
  method DoClose(e: Env, c: Core, line: array<char>, at: nat, pos: nat, out: nat, ghost orig: string, ghost kept: string)
    returns (c': Core)
    requires Mem(line, at, orig, pos, out, kept) && pos < |orig| && ValidCore(c)
    requires IsClose(c, orig[pos..])
    modifies line
    ensures Done(line, at, orig, pos, CloseStep(e, c, kept), pos + 2, at, c', Continue)
    ensures forall i :: 0 <= i < at || |orig| < i < line.Length ==> line[i] == old(line[i])
  {
    assert orig[pos] == orig[pos..][0] && orig[pos + 1] == orig[pos..][1];
    var text := CopyPair(e, line, at, pos, out, '*', '/', orig, kept);
    c' := Flush(c, text).(mlComment := false, needSpace := true);
    assert kept + ['*', '/'] == kept + "*/";
  }

  /** One turn of the loop; `s` is the scanner's step. */
  method DoStep(e: Env, c: Core, line: array<char>, at: nat, pos: nat, out: nat, ghost orig: string, ghost kept: string, ghost s: Step)
    returns (pos': nat, out': nat, c': Core, status: Status)
    requires Mem(line, at, orig, pos, out, kept) && pos < |orig| && ValidCore(c) && Room(c, pos, out)
    requires s == Next(e, c, kept, orig[pos..])
    modifies line
    ensures Done(line, at, orig, pos, s, pos', out', c', status)
    ensures forall i :: 0 <= i < at || |orig| < i < line.Length ==> line[i] == old(line[i])
  {
    var kind := Classify(e, c, line, at, pos, out, orig, kept);
    pos', out', c', status := pos + 1, out, c, Continue;
    match kind
    case Skipped =>
    case Backslash => pos', out', c', status := DoEscape(e, c, line, at, pos, out, orig, kept);
    case Delimiter => pos', out', c', status := DoDelimiter(e, c, line, at, pos, out, orig, kept);
    case Comment =>
      c', status := DoLineComment(e, c, line, at, pos, out, orig, kept);
      out' := at;
    case Opening =>
      c' := DoOpen(e, c, line, at, pos, out, orig, kept);
      pos', out' := pos + 2, at;
    case Closing =>
      c' := DoClose(e, c, line, at, pos, out, orig, kept);
      pos', out' := pos + 2, at;
    case Plain => out', c' := DoChar(e, c, line, at, pos, out, orig, kept);
  }

  /** The kept text stands at the front of the line. */
  ghost predicate Kept(line: array<char>, at: nat, out: nat, kept: string)
    reads line
  {
    out == at + |kept| <= line.Length && forall i :: at <= i < out ==> line[i] == kept[i - at]
  }

  /** The loop between two turns, and after its last one. */
  ghost predicate Looping(line: array<char>, at: nat, orig: string, pos: nat, out: nat, kept: string, c: Core, status: Status)
    reads line
  {
    && (status == Continue ==> Mem(line, at, orig, pos, out, kept) && Room(c, pos, out))
    && (status == Stop ==> out <= |orig| && Kept(line, at, out, kept))
  }

  lemma DoneLoops(line: array<char>, at: nat, orig: string, pos: nat, s: Step, pos': nat, out': nat, c': Core, status: Status)
    requires Done(line, at, orig, pos, s, pos', out', c', status) && pos < |orig|
    ensures Looping(line, at, orig, pos', out', s.out, c', status)
  {
  }

  type Stepper = (Core, string, string) -> Step

  /** `next` is the step of the scanner. */
  ghost predicate Follows(e: Env, next: Stepper) {
    forall c: Core, kept: string, rest: string {:trigger Next(e, c, kept, rest)} ::
      ValidCore(c) && rest != "" ==> next(c, kept, rest) == Next(e, c, kept, rest)
  }

  /** The scan, for any step function. */
  ghost function ScanBy(next: Stepper, c: Core, kept: string, rest: string): Scanned
    decreases |rest|
  {
    if rest == "" then Scanned(c, kept, Continue, false) else
    var s := next(c, kept, rest);
    if s.status != Continue then Scanned(s.core, s.out, s.status, false)
    else if s.n > |rest| || s.n == 0 then Scanned(s.core, s.out, Continue, true)
    else ScanBy(next, s.core, s.out, rest[s.n..])
  }

  lemma {:induction false} ScanByNext(e: Env, next: Stepper, c: Core, kept: string, rest: string)
    requires Follows(e, next) && ValidCore(c)
    ensures ScanBy(next, c, kept, rest) == Scan(e, c, kept, rest)
    decreases |rest|
  {
    if rest != "" {
      var s := Next(e, c, kept, rest);
      assert next(c, kept, rest) == s;
      if s.status == Continue && s.n <= |rest| { ScanByNext(e, next, s.core, s.out, rest[s.n..]); }
    }
  }

  /** After consuming the line up to `pos`, or at a `Stop` or `Quit`, the scan of the
      whole line comes down to the scan of what is left. */
  ghost predicate Reached(next: Stepper, scan: Scanned, orig: string, pos: nat, c: Core, kept: string, status: Status) {
    scan == if status != Continue then Scanned(c, kept, status, false)
      else if pos > |orig| then Scanned(c, kept, Continue, true)
      else ScanBy(next, c, kept, orig[pos..])
  }

  lemma ReachNext(next: Stepper, scan: Scanned, orig: string, pos: nat, c: Core, kept: string, s: Step)
    requires pos < |orig| && Reached(next, scan, orig, pos, c, kept, Continue) && s == next(c, kept, orig[pos..]) && s.n >= 1
    ensures Reached(next, scan, orig, pos + s.n, s.core, s.out, s.status)
  {
    if pos + s.n <= |orig| { assert orig[pos..][s.n..] == orig[pos + s.n..]; }
  }

  lemma ReachEnd(next: Stepper, scan: Scanned, orig: string, pos: nat, c: Core, kept: string, status: Status)
    requires Reached(next, scan, orig, pos, c, kept, status) && (pos >= |orig| || status != Continue)
    ensures scan == Scanned(c, kept, status, pos > |orig| && status == Continue)
  {
    if pos == |orig| { assert orig[pos..] == ""; }
  }

  /** The loop of add_line. */
  method Loop(e: Env, start: Core, line: array<char>, at: nat, ghost orig: string, end: nat, ghost next: Stepper)
    returns (out: nat, c: Core, status: Status, ghost scan: Scanned)
    requires at <= end == |orig| < line.Length && ValidCore(start) && Follows(e, next)
    requires Looping(line, at, orig, at, at, "", start, Continue)
    modifies line
    ensures scan == ScanBy(next, start, "", orig[at..]) && c == scan.core && status == scan.status
    ensures status != Quit ==> Kept(line, at, out, scan.out) && (out <= end || (out == end + 1 && scan.over))
    ensures forall i :: 0 <= i < at || end < i < line.Length ==> line[i] == old(line[i])
  {
    var pos: nat := at;
    out, c, status := at, start, Continue;
    scan := ScanBy(next, start, "", orig[at..]);
    ghost var kept := "";
    while pos < end && status == Continue
      invariant ValidCore(c) && pos <= end + 1 && Reached(next, scan, orig, pos, c, kept, status)
      invariant Looping(line, at, orig, pos, out, kept, c, status)
      invariant forall i :: 0 <= i < at || end < i < line.Length ==> line[i] == old(line[i])
      decreases end - pos, status == Continue
    {
      ghost var s := next(c, kept, orig[pos..]);
      ghost var was, before, text := pos, c, kept;
      pos, out, c, status, kept := Turn(e, c, line, at, pos, out, orig, kept, next);
      ReachNext(next, scan, orig, was, before, text, s);
    }
    ReachEnd(next, scan, orig, pos, c, kept, status);
  }

  method ScanLine(e: Env, start: Core, line: array<char>, at: nat, ghost orig: string, end: nat)
    returns (out: nat, c: Core, status: Status, ghost scan: Scanned)
    requires at <= end == |orig| < line.Length && ValidCore(start) && !start.needSpace
    requires forall i :: at <= i < end ==> line[i] == orig[i]
    requires line[end] == NUL
    modifies line
    ensures scan == Scan(e, start, "", orig[at..]) && c == scan.core && status == scan.status
    ensures status != Quit ==> Kept(line, at, out, scan.out) && (out <= end || (out == end + 1 && scan.over))
    ensures forall i :: 0 <= i < at || end < i < line.Length ==> line[i] == old(line[i])
  {
    ghost var next := NextStep(e);
    out, c, status, scan := Loop(e, start, line, at, orig, end, next);
    ScanByNext(e, next, start, "", orig[at..]);
  }

  lemma NextStep(e: Env) returns (next: Stepper)
    ensures Follows(e, next)
  {
    next := (c: Core, kept: string, rest: string) =>
      if ValidCore(c) && rest != "" then Next(e, c, kept, rest) else Step(1, c, kept, Stop);
  }

  /** One turn of the loop, which carries out one step. */
  method Turn(e: Env, c: Core, line: array<char>, at: nat, pos: nat, out: nat, ghost orig: string, ghost kept: string,
              ghost next: Stepper)
    returns (pos': nat, out': nat, c': Core, status: Status, ghost kept': string)
    requires ValidCore(c) && pos < |orig| && Looping(line, at, orig, pos, out, kept, c, Continue) && Follows(e, next)
    modifies line
    ensures var s := next(c, kept, orig[pos..]); pos' == pos + s.n && c' == s.core && status == s.status && kept' == s.out
    ensures pos < pos' <= |orig| + 1 && ValidCore(c') && Looping(line, at, orig, pos', out', kept', c', status)
    ensures forall i :: 0 <= i < at || |orig| < i < line.Length ==> line[i] == old(line[i])
  {
    ghost var s := Next(e, c, kept, orig[pos..]);
    StepBound(e, c, kept, orig[pos..]);
    pos', out', c', status := DoStep(e, c, line, at, pos, out, orig, kept, s);
    DoneLoops(line, at, orig, pos, s, pos', out', c', status);
    kept' := s.out;
  }

  /** A newline is added to what is kept of a line. */
  predicate Ends(e: Env, c: Core, kept: string, truncated: bool) {
    (kept != "" || c.client.buffer != "") && AddsNewline(e, c, kept, truncated)
  }

  /** The end of add_line: a newline behind the kept text, which joins the buffer. */
  method FinishLine(e: Env, c: Core, line: array<char>, at: nat, out: nat, truncated: bool, ghost kept: string)
    returns (k': Carry)
    requires at <= out && Kept(line, at, out, kept) && (!truncated ==> out < line.Length)
    modifies line
    ensures k' == Finish(e, c, kept, truncated)
    ensures forall i :: 0 <= i < line.Length && i != out ==> line[i] == old(line[i])
    ensures out < line.Length ==> line[out] == if Ends(e, c, kept, truncated) then '\n' else old(line[out])
  {
    assert line[at..out] == kept;
    k' := Carry(c.client, c.inString, c.mlComment);
    if out != at || c.client.buffer != "" {
      var end := out;
      if !truncated && (!IsDelimiterCommand(e, line[at..out]) || c.inString != NUL || c.mlComment) {
        line[out] := '\n';
        end := out + 1;
        assert line[at..end] == kept + "\n";
      }
      if !c.mlComment || e.preserveComments {
        k' := Carry(Flush(c, line[at..end]).client, c.inString, c.mlComment);
      }
    }
  }

  /** add_line, in terms of the scan `s` of the line. */
  lemma AddLineOf(e: Env, k: Carry, text: string, truncated: bool, s: Scanned)
    requires ValidCarry(k) && !Ignored(k, text) && s == Scan(e, StartCore(k), "", text)
    ensures AddLine(e, k, text, truncated) ==
      if s.status == Quit then Line(Carry(s.core.client, s.core.inString, s.core.mlComment), true)
      else Line(Finish(e, s.core, s.out, truncated), false)
    ensures |s.out| <= |text| || s.over ==>
      (Spills(e, k, text, truncated) <==>
       s.status != Quit && |s.out| == |text| + 1 && Ends(e, s.core, s.out, truncated))
  {
    OverMeans(e, StartCore(k), "", text);
  }

  /** The loop, and the end of the line. */
  method ScanAndFinish(e: Env, start: Core, line: array<char>, at: nat, ghost orig: string, end: nat, truncated: bool)
    returns (k': Carry, quit: bool, ghost s: Scanned)
    requires at <= end == |orig| < line.Length && ValidCore(start) && !start.needSpace
    requires forall i :: at <= i < end ==> line[i] == orig[i]
    requires line[end] == NUL && (!truncated ==> end + 1 < line.Length)
    modifies line
    ensures s == Scan(e, start, "", orig[at..]) && quit == (s.status == Quit)
    ensures k' == if quit then Carry(s.core.client, s.core.inString, s.core.mlComment)
                  else Finish(e, s.core, s.out, truncated)
    ensures !quit ==> at + |s.out| <= end || (at + |s.out| == end + 1 && s.over)
    ensures forall i :: 0 <= i < at || end + 1 < i < line.Length ==> line[i] == old(line[i])
    ensures end + 1 < line.Length ==>
      line[end + 1] ==
      if !quit && at + |s.out| == end + 1 && Ends(e, s.core, s.out, truncated) then '\n' else old(line[end + 1])
  {
    var out, c, status;
    out, c, status, s := ScanLine(e, start, line, at, orig, end);
    if status == Quit { return Carry(c.client, c.inString, c.mlComment), true, s; }
    k' := FinishLine(e, c, line, at, out, truncated, s.out);
    quit := false;
  }

  /** add_line on the line of `len` characters at `at`: the whole line, and the newline
      after it. The byte behind the terminator is written exactly if the line spills. */
  method AddLineInPlace(e: Env, k: Carry, line: array<char>, at: nat, len: nat, truncated: bool, ghost text: string)
    returns (k': Carry, quit: bool)
    requires |text| == len && ValidCarry(k)
    requires at + len < line.Length && (!truncated ==> at + len + 1 < line.Length)
    requires line[at..at + len] == text && line[at + len] == NUL
    modifies line
    ensures Line(k', quit) == AddLine(e, k, text, truncated)
    ensures forall i :: 0 <= i < at || at + len + 1 < i < line.Length ==> line[i] == old(line[i])
    ensures at + len + 1 < line.Length ==>
      line[at + len + 1] == if Spills(e, k, text, truncated) then '\n' else old(line[at + len + 1])
  {
    if line[at] == NUL && k.client.buffer == "" { return k, false; }
    ghost var orig := line[..at + len];
    assert orig[at..] == text;
    ghost var s;
    k', quit, s := ScanAndFinish(e, StartCore(k), line, at, orig, at + len, truncated);
    AddLineOf(e, k, text, truncated, s);
  }
}
