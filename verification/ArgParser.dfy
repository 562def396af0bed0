/** Argument parsing of client commands: get_arg in client/mysql.cc.

    The function finds the first argument of a command line, honours quotes,
    and removes escapes by shifting the text left under the scan
    (GET), or only checks that an argument is there (CHECK). */
module ArgParser {
  import opened Text

  function DropWord(s: string): (r: string)
    ensures |r| <= |s|
    ensures r == "" || IsSpace(r[0])
  {
    if s != "" && !IsSpace(s[0]) then DropWord(s[1..]) else s
  }

  predicate ShortCommand(s: string) {
    At(DropSpaces(s), 0) == '\\'
  }

  /** The callers' side: a short command has its command character. */
  predicate WellFormedLine(s: string) {
    ShortCommand(s) ==> |DropSpaces(s)| >= 2
  }

  /** What follows the command name. */
  function AfterCommand(s: string): string
    requires WellFormedLine(s)
  {
    var t := DropSpaces(s);
    if ShortCommand(s) then t[2..] else DropWord(t)
  }

  /** A backslash escape, or a doubled closing quote, starts at s[0]. */
  predicate EscapeHere(s: string, quote: char, short: bool) {
    if short then At(s, 0) == '\\' && At(s, 1) != NUL
    else
      || (At(s, 0) == '\\' && At(s, 1) != NUL && quote != '`')
      || (quote != NUL && At(s, 0) == quote && At(s, 1) == quote)
  }

  predicate StopsAt(c: char, quote: char) {
    c == (if quote != NUL then quote else ' ')
  }

  datatype Body = Body(text: string, closed: bool)

  /** The unescaped argument body, and whether its quote was closed. */
  function Unescape(s: string, quote: char, short: bool): Body
  {
    if s == "" then Body("", quote == NUL)
    else if EscapeHere(s, quote, short) then
      var b := Unescape(s[2..], quote, short);
      Body([s[1]] + b.text, b.closed)
    else if StopsAt(s[0], quote) then Body("", true)
    else
      var b := Unescape(s[1..], quote, short);
      Body([s[0]] + b.text, b.closed)
  }

  function OpenQuote(s: string): char {
    if IsQuote(At(s, 0)) then s[0] else NUL
  }

  /** The first argument of command line `s`, escapes removed. */
  function Argument(s: string): Option<string>
    requires WellFormedLine(s)
  {
    var u := AfterCommand(s);
    if u == "" then None else
    var v := DropSpaces(u);
    var q := OpenQuote(v);
    var b := Unescape(if q == NUL then v else v[1..], q, ShortCommand(s));
    if b.closed && b.text != "" then Some(b.text) else None
  }

  /** strmov_overlapp(ptr, ptr + 1): the rest of the string, with its
      terminator, moves one place to the left. */
  method ShiftLeft(line: array<char>, p: nat, ghost s: string)
    requires s != "" && Holds(line, p, s)
    modifies line
    ensures Holds(line, p, s[1..])
    ensures forall i :: 0 <= i < p || p + |s| < i < line.Length ==> line[i] == old(line[i])
  {
    var i := p;
    while line[i + 1] != NUL
      invariant p <= i < p + |s|
      invariant forall k :: p <= k < i ==> line[k] == s[k - p + 1]
      invariant forall k :: i <= k < p + |s| ==> line[k] == s[k - p]
      invariant forall k :: 0 <= k < p || p + |s| <= k < line.Length ==> line[k] == old(line[k])
      decreases p + |s| - i
    {
      line[i] := line[i + 1];
      i := i + 1;
    }
    line[i] := NUL;
  }

  /** get_arg up to the end of the command name. */
  method SkipCommand(line: array<char>, ghost s: string) returns (ptr: nat, short: bool)
    requires Holds(line, 0, s) && WellFormedLine(s)
    ensures short == ShortCommand(s)
    ensures Holds(line, ptr, AfterCommand(s)) && ptr + |AfterCommand(s)| == |s|
  {
    ptr := SkipSpaces(line, 0, s);
    short := line[ptr] == '\\';
    if short {
      ptr := ptr + 2;
    } else {
      ptr := SkipWord(line, ptr, DropSpaces(s));
    }
  }

  /** From there to the argument's first character: spaces and an opening quote. */
  method SkipToBody(line: array<char>, p: nat, ghost u: string) returns (ptr: nat, quote: char, ghost v: string)
    requires Holds(line, p, u)
    ensures Holds(line, ptr, v) && ptr + |v| == p + |u|
    ensures quote == OpenQuote(DropSpaces(u))
    ensures v == if quote == NUL then DropSpaces(u) else DropSpaces(u)[1..]
  {
    ptr := SkipSpaces(line, p, u);
    v, quote := DropSpaces(u), NUL;
    if IsQuote(line[ptr]) {
      quote, ptr, v := line[ptr], ptr + 1, v[1..];
    }
  }

  /** The two leading `while` loops of get_arg. */
  method SkipSpaces(line: array<char>, p: nat, ghost s: string) returns (q: nat)
    requires Holds(line, p, s)
    ensures q == p + |s| - |DropSpaces(s)|
    ensures Holds(line, q, DropSpaces(s))
  {
    q := p;
    ghost var rest := s;
    while IsSpace(line[q])
      invariant Holds(line, q, rest) && q + |rest| == p + |s|
      invariant DropSpaces(rest) == DropSpaces(s)
      decreases |rest|
    {
      rest := rest[1..];
      q := q + 1;
    }
  }

  method SkipWord(line: array<char>, p: nat, ghost s: string) returns (q: nat)
    requires Holds(line, p, s)
    ensures q == p + |s| - |DropWord(s)|
    ensures Holds(line, q, DropWord(s))
  {
    q := p;
    ghost var rest := s;
    while line[q] != NUL && !IsSpace(line[q])
      invariant Holds(line, q, rest) && q + |rest| == p + |s|
      invariant DropWord(rest) == DropWord(s)
      decreases |rest|
    {
      rest := rest[1..];
      q := q + 1;
    }
  }

  /** The escape test of the `for` loop in get_arg, read from memory. */
  method IsEscape(line: array<char>, p: nat, quote: char, short: bool, ghost s: string) returns (b: bool)
    requires s != "" && Holds(line, p, s)
    ensures b == EscapeHere(s, quote, short)
  {
    assert line[p] == s[0] && line[p + 1] == At(s, 1);
    b := if short then line[p] == '\\' && line[p + 1] != NUL
         else (line[p] == '\\' && line[p + 1] != NUL && quote != '`') ||
              (quote != NUL && line[p] == quote && line[p + 1] == quote);
  }

  ghost function Prepend(t: string, b: Body): Body {
    Body(t + b.text, b.closed)
  }

  /** One turn of the loop: one character moves from the rest to the argument. */
  lemma UnescapeStep(done: string, rest: string, quote: char, short: bool)
    requires rest != ""
    ensures EscapeHere(rest, quote, short) ==>
      && |rest| >= 2
      && Prepend(done, Unescape(rest, quote, short)) == Prepend(done + [rest[1]], Unescape(rest[2..], quote, short))
    ensures !EscapeHere(rest, quote, short) && !StopsAt(rest[0], quote) ==>
      Prepend(done, Unescape(rest, quote, short)) == Prepend(done + [rest[0]], Unescape(rest[1..], quote, short))
    ensures !EscapeHere(rest, quote, short) && StopsAt(rest[0], quote) ==>
      Prepend(done, Unescape(rest, quote, short)) == Body(done, true)
  {
    if EscapeHere(rest, quote, short) {
      PrependOne(done, rest[1], Unescape(rest[2..], quote, short));
    } else if !StopsAt(rest[0], quote) {
      PrependOne(done, rest[0], Unescape(rest[1..], quote, short));
    } else {
      assert done + "" == done;
    }
  }

  lemma PrependOne(done: string, x: char, b: Body)
    ensures Prepend(done, Body([x] + b.text, b.closed)) == Prepend(done + [x], b)
  {
    assert done + ([x] + b.text) == done + [x] + b.text;
  }

  /** The `for` loop of get_arg in CHECK mode: escapes are stepped over. */
  method ScanCheck(line: array<char>, start: nat, quote: char, short: bool, ghost s: string)
    returns (r: Option<nat>)
    requires Holds(line, start, s)
    ensures var b := Unescape(s, quote, short);
      r == if b.closed && b.text != "" then Some(start) else None
  {
    var ptr, open := start, quote;
    ghost var rest := s;
    ghost var done := "";
    while line[ptr] != NUL
      invariant ptr >= 0 && open == quote
      invariant Holds(line, ptr, rest)
      invariant start <= ptr && (ptr == start <==> done == "")
      invariant Unescape(s, quote, short) == Prepend(done, Unescape(rest, quote, short))
      decreases |rest|
    {
      var escape := IsEscape(line, ptr, quote, short, rest);
      UnescapeStep(done, rest, quote, short);
      if escape {
        ptr := ptr + 1;
        done, rest := done + [rest[1]], rest[2..];
      } else if line[ptr] == (if quote != NUL then quote else ' ') {
        open := NUL;
        break;
      } else {
        done, rest := done + [rest[0]], rest[1..];
      }
      ptr := ptr + 1;
    }
    r := if ptr != start && open == NUL then Some(start) else None;
  }

  /** Between two turns in GET mode: the unescaped text `done` from `start` on, and behind it
      the text `rest` still to scan. */
  ghost predicate Getting(line: array<char>, start: nat, done: string, rest: string)
    reads line
  {
    && Holds(line, start + |done|, rest)
    && forall k :: 0 <= k < |done| ==> line[start + k] == done[k] && done[k] != NUL
  }

  /** An escape is removed: its second character stands where its first one was. */
  method RemoveEscape(line: array<char>, start: nat, ghost done: string, ptr: nat, ghost rest: string)
    requires Getting(line, start, done, rest) && ptr == start + |done| && |rest| >= 2
    modifies line
    ensures Getting(line, start, done + [rest[1]], rest[2..])
    ensures forall i :: 0 <= i < start || ptr + |rest| < i < line.Length ==> line[i] == old(line[i])
  {
    ShiftLeft(line, ptr, rest);
    assert rest[1..][0] == rest[1] && rest[1..][1..] == rest[2..];
  }

  lemma GetChar(line: array<char>, start: nat, done: string, rest: string)
    requires Getting(line, start, done, rest) && rest != ""
    ensures Getting(line, start, done + [rest[0]], rest[1..])
  {
  }

  /** The argument is complete: its end is marked. */
  method EndArgument(line: array<char>, start: nat, ghost done: string, ptr: nat, ghost rest: string)
    requires Getting(line, start, done, rest) && ptr == start + |done|
    modifies line
    ensures Holds(line, start, done)
    ensures forall i :: 0 <= i < start || ptr < i < line.Length ==> line[i] == old(line[i])
  {
    line[ptr] := NUL;
  }

  /** The `for` loop of get_arg in GET mode: escapes are removed by shifting the
      rest of the line under the scan, and the argument gets a terminator. */
  method ScanGet(line: array<char>, start: nat, quote: char, short: bool, ghost s: string)
    returns (r: Option<nat>)
    requires Holds(line, start, s)
    modifies line
    ensures var b := Unescape(s, quote, short);
      r == if b.closed && b.text != "" then Some(start) else None
    ensures r.Some? ==> Holds(line, start, Unescape(s, quote, short).text)
    ensures forall i :: 0 <= i < start || start + |s| < i < line.Length ==> line[i] == old(line[i])
  {
    var ptr, open := start, quote;
    ghost var rest := s;
    ghost var done := "";
    while line[ptr] != NUL
      invariant ptr == start + |done| && ptr + |rest| <= start + |s| && open == quote
      invariant Getting(line, start, done, rest)
      invariant Unescape(s, quote, short) == Prepend(done, Unescape(rest, quote, short))
      invariant forall i :: 0 <= i < start || start + |s| < i < line.Length ==> line[i] == old(line[i])
      decreases |rest|
    {
      var escape := IsEscape(line, ptr, quote, short, rest);
      UnescapeStep(done, rest, quote, short);
      if escape {
        RemoveEscape(line, start, done, ptr, rest);
        done, rest := done + [rest[1]], rest[2..];
      } else if line[ptr] == (if quote != NUL then quote else ' ') {
        open := NUL;
        EndArgument(line, start, done, ptr, rest);
        break;
      } else {
        GetChar(line, start, done, rest);
        done, rest := done + [rest[0]], rest[1..];
      }
      ptr := ptr + 1;
    }
    r := if ptr != start && open == NUL then Some(start) else None;
  }

  /** get_arg with mode CHECK (`check`) or GET. The result is the offset of the
      argument's first character. */
  method GetArg(line: array<char>, check: bool, ghost s: string) returns (r: Option<nat>)
    requires Holds(line, 0, s) && WellFormedLine(s)
    modifies line
    ensures r.Some? <==> Argument(s).Some?
    ensures check ==> forall i :: 0 <= i < line.Length ==> line[i] == old(line[i])
    ensures !check && r.Some? ==> Holds(line, r.value, Argument(s).value)
    ensures forall i :: |s| < i < line.Length ==> line[i] == old(line[i])
  {
    var ptr, short := SkipCommand(line, s);
    if line[ptr] == NUL { return None; }
    assert AfterCommand(s) != "";
    var start, quote, v := SkipToBody(line, ptr, AfterCommand(s));
    if check {
      r := ScanCheck(line, start, quote, short, v);
    } else {
      r := ScanGet(line, start, quote, short, v);
    }
  }

  lemma {:induction false} UnescapeQuoted(x: string, quote: char, tail: string)
    requires IsQuote(quote) && NUL !in x && At(tail, 0) != quote
    ensures Unescape(Escaped(x, quote) + [quote] + tail, quote, false) == Body(x, true)
  {
    if x != "" {
      var t := Escaped(x[1..], quote) + [quote] + tail;
      UnescapeQuoted(x[1..], quote, tail);
      UnescapeOne(x[0], quote, t, x[1..]);
      Regroup(EscapedChar(x[0], quote), Escaped(x[1..], quote), [quote], tail);
      assert [x[0]] + x[1..] == x;
    }
  }

  lemma Regroup(a: string, b: string, c: string, d: string)
    ensures a + b + c + d == a + (b + c + d)
  {
    assert a + b + c == a + (b + c);
  }

  lemma UnescapeOne(x: char, quote: char, t: string, text: string)
    requires IsQuote(quote) && x != NUL && Unescape(t, quote, false) == Body(text, true)
    ensures Unescape(EscapedChar(x, quote) + t, quote, false) == Body([x] + text, true)
  {
    var s := EscapedChar(x, quote) + t;
    assert if |EscapedChar(x, quote)| == 2 then s[2..] == t else s[1..] == t;
  }

  /** A text without blanks and backslashes needs no quotes; it ends at a blank. */
  lemma {:induction false} UnescapeBare(x: string, tail: string)
    requires '\\' !in x && ' ' !in x && NUL !in x && (tail == "" || tail[0] == ' ')
    ensures Unescape(x + tail, NUL, false) == Body(x, true)
  {
    if x == "" {
      assert x + tail == tail;
    } else {
      UnescapeBare(x[1..], tail);
      assert (x + tail)[1..] == x[1..] + tail && [x[0]] + x[1..] == x;
    }
  }

  predicate LongCommand(command: string) {
    command != "" && command[0] != '\\' && forall i :: 0 <= i < |command| ==> !IsSpace(command[i])
  }

  /** Round trip: every non-empty argument can be passed, under each of the three
      quotes, and get_arg returns it unchanged. */
  lemma ArgumentRoundTrip(command: string, x: string, quote: char, tail: string)
    requires IsQuote(quote) && NUL !in x && x != "" && LongCommand(command)
    requires At(tail, 0) != quote
    ensures var s := command + " " + [quote] + Escaped(x, quote) + [quote] + tail;
      WellFormedLine(s) && Argument(s) == Some(x)
  {
    var body := Escaped(x, quote) + [quote] + tail;
    Regroup(command + " " + [quote], Escaped(x, quote), [quote], tail);
    Regroup(command, " ", [quote], body);
    assert " " + [quote] + body == " " + ([quote] + body);
    AfterLong(command, [quote] + body);
    UnescapeQuoted(x, quote, tail);
    assert ([quote] + body)[1..] == body;
  }

  /** The same without quotes. */
  lemma BareArgument(command: string, x: string, tail: string)
    requires LongCommand(command) && x != "" && !IsQuote(x[0]) && !IsSpace(x[0])
    requires '\\' !in x && ' ' !in x && NUL !in x && (tail == "" || tail[0] == ' ')
    ensures var s := command + (" " + (x + tail)); WellFormedLine(s) && Argument(s) == Some(x)
  {
    AfterLong(command, x + tail);
    UnescapeBare(x, tail);
  }

  /** What follows a long command. */
  lemma AfterLong(command: string, v: string)
    requires LongCommand(command) && v != "" && !IsSpace(v[0])
    ensures var s := command + (" " + v);
      WellFormedLine(s) && !ShortCommand(s) && AfterCommand(s) != "" && DropSpaces(AfterCommand(s)) == v
  {
    var t := " " + v;
    var s := command + t;
    assert DropSpaces(s) == s by { assert s[0] == command[0]; }
    DropWordOver(command, t);
    assert t[1..] == v;
  }

  lemma {:induction false} DropWordOver(w: string, t: string)
    requires forall i :: 0 <= i < |w| ==> !IsSpace(w[i])
    requires t != "" && IsSpace(t[0])
    ensures DropWord(w + t) == t
  {
    if w != "" {
      assert (w + t)[1..] == w[1..] + t;
      DropWordOver(w[1..], t);
    } else {
      assert w + t == t;
    }
  }

  // ------------------------------------------------------------ short commands and bare arguments

  /** How a text is written with backslashes: before a blank, a quote and a backslash. */
  function Slashed(x: string): string {
    if x == "" then "" else SlashedChar(x[0]) + Slashed(x[1..])
  }

  function SlashedChar(c: char): (t: string)
    ensures t != "" && !IsSpace(t[0]) && !IsQuote(t[0])
  {
    if c == '\\' || IsQuote(c) || IsSpace(c) then ['\\', c] else [c]
  }

  lemma {:induction false} SlashedPlain(x: string)
    requires forall i :: 0 <= i < |x| ==> x[i] != '\\' && !IsQuote(x[i]) && !IsSpace(x[i])
    ensures Slashed(x) == x
  {
    if x != "" {
      SlashedPlain(x[1..]);
      assert [x[0]] + x[1..] == x;
    }
  }

  /** `tail` ends an argument: a blank or the end of the line, or the closing quote. In a
      short command a doubled quote is two quotes; in a long one a backslash between
      backticks is a backslash. */
  predicate Closes(quote: char, short: bool, tail: string) {
    if quote == NUL then tail == "" || tail[0] == ' '
    else IsQuote(quote) && At(tail, 0) == quote && (short || (quote != '`' && At(tail, 1) != quote))
  }

  lemma {:induction false} UnescapeSlashed(x: string, quote: char, short: bool, tail: string)
    requires NUL !in x && Closes(quote, short, tail)
    ensures Unescape(Slashed(x) + tail, quote, short) == Body(x, true)
  {
    if x == "" {
      assert Slashed(x) + tail == tail;
    } else {
      var t := Slashed(x[1..]) + tail;
      UnescapeSlashed(x[1..], quote, short, tail);
      assert Slashed(x) + tail == SlashedChar(x[0]) + t;
      SlashedOne(x[0], quote, short, t, x[1..]);
      assert [x[0]] + x[1..] == x;
    }
  }

  lemma SlashedOne(c: char, quote: char, short: bool, t: string, text: string)
    requires c != NUL && (quote == NUL || IsQuote(quote)) && (short || quote != '`')
    requires Unescape(t, quote, short) == Body(text, true)
    ensures Unescape(SlashedChar(c) + t, quote, short) == Body([c] + text, true)
  {
    var s := SlashedChar(c) + t;
    assert if |SlashedChar(c)| == 2 then s[2..] == t else s[1..] == t;
  }

  lemma {:induction false} DropGap(gap: string, v: string)
    requires Spaces(gap) && v != "" && !IsSpace(v[0])
    ensures DropSpaces(gap + v) == v
  {
    if gap == "" {
      assert gap + v == v;
    } else {
      assert (gap + v)[1..] == gap[1..] + v;
      DropGap(gap[1..], v);
    }
  }

  /** The name of a command, and the white space behind it; a short one needs none. */
  predicate Leads(name: string, gap: string) {
    && Spaces(gap)
    && if |name| == 2 && name[0] == '\\' then name[1] != NUL else LongCommand(name) && gap != ""
  }

  lemma AfterName(name: string, gap: string, v: string)
    requires Leads(name, gap) && v != "" && !IsSpace(v[0])
    ensures var s := name + (gap + v);
      && WellFormedLine(s) && ShortCommand(s) == (name[0] == '\\')
      && AfterCommand(s) != "" && DropSpaces(AfterCommand(s)) == v
  {
    var t := gap + v;
    var s := name + t;
    assert DropSpaces(s) == s by { assert s[0] == name[0]; }
    DropGap(gap, v);
    if name[0] == '\\' {
      assert s[2..] == t;
    } else {
      DropWordOver(name, t);
    }
  }

  /** Every non-empty argument can be passed with backslashes, to long and to short commands,
      bare or quoted, and comes back unchanged. */
  lemma SlashedArgument(name: string, gap: string, x: string, quote: char, tail: string)
    requires Leads(name, gap) && x != "" && NUL !in x && Closes(quote, name[0] == '\\', tail)
    ensures var s := name + (gap + ((if quote == NUL then "" else [quote]) + (Slashed(x) + tail)));
      WellFormedLine(s) && Argument(s) == Some(x)
  {
    var body := Slashed(x) + tail;
    var v := (if quote == NUL then "" else [quote]) + body;
    assert body[0] == SlashedChar(x[0])[0] && v == if quote == NUL then body else [quote] + body;
    AfterName(name, gap, v);
    UnescapeSlashed(x, quote, name[0] == '\\', tail);
    assert quote != NUL ==> v[1..] == body;
  }
}
