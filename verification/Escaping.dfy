/** Quoting in the dump and import tools: the two field_escape functions of
    client/mysqldump.c and client/mysqlimport.c, and print_xml_cdata. */
module Escaping {
  import opened Text

  // ------------------------------------------------------------ SQL string literals

  /** The text between the quotes. `odd` says that an odd run of backslashes came before. */
  function Escape(s: string, odd: bool): (t: string)
    ensures |t| <= 2 * |s| + (if odd then 1 else 0)
  {
    if s == "" then (if odd then "\\" else "")
    else if s[0] == '\\' then [s[0]] + Escape(s[1..], !odd)
    else if s[0] == '\'' && !odd then [s[0], '\''] + Escape(s[1..], false)
    else [s[0]] + Escape(s[1..], false)
  }

  datatype Literal = Literal(value: string, rest: string)

  /** How the server reads a literal after its opening quote: a backslash takes the next
      character, a doubled quote is a quote, a single quote closes. */
  function ReadLiteral(esc: char -> char, s: string): Option<Literal> {
    if s == "" then None
    else if s[0] == '\\' then
      if |s| == 1 then None else Prepend(esc(s[1]), ReadLiteral(esc, s[2..]))
    else if s[0] == '\'' then
      if At(s, 1) == '\'' then Prepend('\'', ReadLiteral(esc, s[2..])) else Some(Literal("", s[1..]))
    else Prepend(s[0], ReadLiteral(esc, s[1..]))
  }

  function Prepend(c: char, r: Option<Literal>): Option<Literal> {
    if r.None? then None else Some(r.value.(value := [c] + r.value.value))
  }

  /** What the user meant: backslash escapes, and a last lone backslash for itself. */
  function Meaning(esc: char -> char, s: string, odd: bool): string {
    if s == "" then (if odd then [esc('\\')] else "")
    else if odd then [esc(s[0])] + Meaning(esc, s[1..], false)
    else if s[0] == '\\' then Meaning(esc, s[1..], true)
    else [s[0]] + Meaning(esc, s[1..], false)
  }

  lemma ReadSteps(esc: char -> char, x: char, tail: string)
    ensures ReadLiteral(esc, ['\\', x] + tail) == Prepend(esc(x), ReadLiteral(esc, tail))
    ensures ReadLiteral(esc, ['\'', '\''] + tail) == Prepend('\'', ReadLiteral(esc, tail))
    ensures x != '\\' && x != '\'' ==> ReadLiteral(esc, [x] + tail) == Prepend(x, ReadLiteral(esc, tail))
    ensures At(tail, 0) != '\'' ==> ReadLiteral(esc, ['\''] + tail) == Some(Literal("", tail))
  {
    assert (['\\', x] + tail)[2..] == tail && (['\'', '\''] + tail)[2..] == tail;
    assert ([x] + tail)[1..] == tail && (['\''] + tail)[1..] == tail;
    assert At(['\''] + tail, 1) == At(tail, 0);
  }

  function Lead(odd: bool): string {
    if odd then "\\" else ""
  }

  /** For every text, the literal closes exactly at the quote added after it, unless another
      quote follows, and stands for what the user meant. */
  lemma {:induction false} EscapeCloses(esc: char -> char, s: string, odd: bool, rest: string)
    requires At(rest, 0) != '\''
    ensures ReadLiteral(esc, Lead(odd) + Escape(s, odd) + "'" + rest) == Some(Literal(Meaning(esc, s, odd), rest))
    decreases |s|
  {
    if s == "" {
      EscapeEnd(esc, odd, rest);
    } else {
      var next := s[0] == '\\' && !odd;
      EscapeCloses(esc, s[1..], next, rest);
      ReadSteps(esc, s[0], Lead(next) + Escape(s[1..], next) + "'" + rest);
      EscapeHead(s, odd, rest);
    }
  }

  lemma EscapeEnd(esc: char -> char, odd: bool, rest: string)
    requires At(rest, 0) != '\''
    ensures ReadLiteral(esc, Lead(odd) + Escape("", odd) + "'" + rest) == Some(Literal(Meaning(esc, "", odd), rest))
  {
    var tail := ['\''] + rest;
    ReadSteps(esc, '\\', rest);
    ReadSteps(esc, '\\', tail);
    assert Lead(odd) + Escape("", odd) + "'" + rest == if odd then ['\\', '\\'] + tail else tail;
    assert [esc('\\')] + "" == [esc('\\')];
  }

  lemma EscapeHead(s: string, odd: bool, rest: string)
    requires s != ""
    ensures var next := s[0] == '\\' && !odd;
      var tail := Lead(next) + Escape(s[1..], next) + "'" + rest;
      Lead(odd) + Escape(s, odd) + "'" + rest ==
        if odd then ['\\', s[0]] + tail
        else if s[0] == '\\' then tail
        else if s[0] == '\'' then ['\'', '\''] + tail
        else [s[0]] + tail
  {
  }

  /** field_escape of mysqldump: appends the whole literal to a string. */
  method DumpFieldEscape(init: string, from: string) returns (r: string)
    requires NUL !in from
    ensures r == init + "'" + Escape(from, false) + "'"
  {
    r := init + "'";
    var endBackslashes := false;
    var i := 0;
    while At(from, i) != NUL
      invariant i <= |from|
      invariant init + "'" + Escape(from, false) == r + Escape(from[i..], endBackslashes)
      decreases |from| - i
    {
      EscapeStep(r, from, i, endBackslashes);
      r := r + [from[i]];
      if from[i] == '\\' {
        endBackslashes := !endBackslashes;
      } else {
        if from[i] == '\'' && !endBackslashes { r := r + "'"; }
        endBackslashes := false;
      }
      i := i + 1;
    }
    assert from[i..] == "";
    if endBackslashes { r := r + "\\"; }
    r := r + "'";
  }

  lemma EscapeStep(r: string, s: string, i: nat, odd: bool)
    requires i < |s|
    ensures r + Escape(s[i..], odd) ==
      if s[i] == '\\' then r + [s[i]] + Escape(s[i + 1..], !odd)
      else if s[i] == '\'' && !odd then r + [s[i]] + "'" + Escape(s[i + 1..], false)
      else r + [s[i]] + Escape(s[i + 1..], false)
  {
    assert s[i..][1..] == s[i + 1..];
    assert r + ([s[i]] + Escape(s[i + 1..], !odd)) == r + [s[i]] + Escape(s[i + 1..], !odd);
    assert r + ([s[i]] + Escape(s[i + 1..], false)) == r + [s[i]] + Escape(s[i + 1..], false);
    assert r + ([s[i], '\''] + Escape(s[i + 1..], false)) == r + [s[i]] + "'" + Escape(s[i + 1..], false);
  }

  /** The buffer holds `t` from offset `at` up to `end`. */
  ghost predicate Wrote(to: array<char>, at: nat, end: nat, t: string)
    reads to
  {
    at + |t| == end <= to.Length && forall k :: 0 <= k < |t| ==> to[at + k] == t[k]
  }

  method Put(to: array<char>, at: nat, end: nat, x: char, ghost t: string) returns (end': nat)
    requires Wrote(to, at, end, t) && end < to.Length
    modifies to
    ensures end' == end + 1 && Wrote(to, at, end', t + [x])
    ensures forall k :: 0 <= k < at || end < k < to.Length ==> to[k] == old(to[k])
  {
    to[end] := x;
    end' := end + 1;
  }

  /** field_escape of mysqlimport: writes into a caller's buffer, and
      returns the end. Twice the length of the text is always room enough. */
  method ImportFieldEscape(to: array<char>, at: nat, from: string) returns (end: nat)
    requires at + 2 * |from| <= to.Length
    modifies to
    ensures Wrote(to, at, end, Escape(from, false))
    ensures forall k :: 0 <= k < at || end <= k < to.Length ==> to[k] == old(to[k])
  {
    end := at;
    var endBackslashes := false;
    ghost var t := "";
    for i := 0 to |from|
      invariant Wrote(to, at, end, t) && Escape(from, false) == t + Escape(from[i..], endBackslashes)
      invariant |t| + (if endBackslashes then 1 else 0) <= 2 * i
      invariant forall k :: 0 <= k < at || end <= k < to.Length ==> to[k] == old(to[k])
    {
      EscapeStep(t, from, i, endBackslashes);
      end := Put(to, at, end, from[i], t);
      t := t + [from[i]];
      if from[i] == '\\' {
        endBackslashes := !endBackslashes;
      } else {
        if from[i] == '\'' && !endBackslashes {
          end := Put(to, at, end, '\'', t);
          t := t + "'";
        }
        endBackslashes := false;
      }
    }
    assert from[|from|..] == "";
    if endBackslashes {
      end := Put(to, at, end, '\\', t);
      t := t + "\\";
    }
  }

  // ------------------------------------------------------------ XML CDATA sections

  const OPEN := "<![CDATA["
  const CLOSE := "]]>"

  predicate Closes(s: string) {
    At(s, 0) == ']' && At(s, 1) == ']' && At(s, 2) == '>'
  }

  /** Reading CDATA by section 2.7 of XML 1.0: a section ends at the first `]]>`; a
      section that starts right there goes on with the text. */
  function ReadCdata(s: string): Option<Literal>
    decreases |s|
  {
    if s == "" then None
    else if Closes(s) then
      if OPEN <= s[3..] then ReadCdata(s[12..]) else Some(Literal("", s[3..]))
    else Prepend(s[0], ReadCdata(s[1..]))
  }

  /** The text with each `]]>` broken over two sections. */
  function CdataBody(s: string): string {
    if s == "" then ""
    else if Closes(s) then "]]]]><![CDATA[>" + CdataBody(s[3..])
    else [s[0]] + CdataBody(s[1..])
  }

  function Cdata(s: string): string {
    OPEN + "\n" + CdataBody(s) + "\n]]>\n"
  }

  const TAIL := "\n]]>\n"

  /** No `]>` comes up in front of the body unless it is in the text. */
  lemma {:induction false} BodyStart(s: string)
    ensures var b := CdataBody(s) + TAIL;
      && (At(b, 0) == '>' ==> At(s, 0) == '>')
      && (At(b, 0) == ']' && At(b, 1) == '>' ==> At(s, 0) == ']' && At(s, 1) == '>')
  {
    if s != "" && !Closes(s) {
      BodyStart(s[1..]);
      var b := CdataBody(s[1..]) + TAIL;
      assert CdataBody(s) + TAIL == [s[0]] + b;
    }
  }

  lemma {:induction false} ReadBody(s: string)
    ensures ReadCdata(CdataBody(s) + TAIL) == Some(Literal(s + "\n", "\n"))
  {
    if s == "" {
      ReadEnd();
      assert CdataBody(s) + TAIL == TAIL && s + "\n" == "\n";
    } else if Closes(s) {
      ReadBody(s[3..]);
      ReadClose(s);
    } else {
      ReadBody(s[1..]);
      ReadPlain(s);
      assert [s[0]] + (s[1..] + "\n") == s + "\n";
    }
  }

  lemma ReadClose(s: string)
    requires Closes(s) && ReadCdata(CdataBody(s[3..]) + TAIL) == Some(Literal(s[3..] + "\n", "\n"))
    ensures ReadCdata(CdataBody(s) + TAIL) == Some(Literal(s + "\n", "\n"))
  {
    var b := CdataBody(s[3..]) + TAIL;
    assert CdataBody(s) + TAIL == "]]]]><![CDATA[>" + b;
    ReadBroken(b, s[3..] + "\n", "\n");
    assert CLOSE + (s[3..] + "\n") == s + "\n";
  }

  lemma ReadPlain(s: string)
    requires s != "" && !Closes(s)
    ensures ReadCdata(CdataBody(s) + TAIL) == Prepend(s[0], ReadCdata(CdataBody(s[1..]) + TAIL))
  {
    var b := CdataBody(s[1..]) + TAIL;
    assert CdataBody(s) + TAIL == [s[0]] + b;
    BodyStart(s[1..]);
    assert At([s[0]] + b, 1) == At(b, 0) && At([s[0]] + b, 2) == At(b, 1);
    ReadChar(s[0], b);
  }

  lemma ReadChar(x: char, b: string)
    requires !Closes([x] + b)
    ensures ReadCdata([x] + b) == Prepend(x, ReadCdata(b))
  {
    assert ([x] + b)[1..] == b;
  }

  lemma ReadEnd()
    ensures ReadCdata(TAIL) == Some(Literal("\n", "\n"))
  {
    var t := "]]>\n";
    assert TAIL == ['\n'] + t;
    ReadChar('\n', t);
    assert t[3..] == "\n" && ['\n'] + "" == "\n";
  }

  /** A broken `]]>` is read back over the two sections. */
  lemma ReadBroken(b: string, value: string, rest: string)
    requires ReadCdata(b) == Some(Literal(value, rest))
    ensures ReadCdata("]]]]><![CDATA[>" + b) == Some(Literal(CLOSE + value, rest))
  {
    var s := "]]><![CDATA[" + (['>'] + b);
    assert At(s, 0) == ']' && At(s, 1) == ']';
    ReadChar('>', b);
    ReadReopened(['>'] + b);
    ReadBrackets(s);
    BrokenParts(b);
    CloseParts(value);
  }

  lemma BrokenParts(b: string)
    ensures "]]]]><![CDATA[>" + b == [']'] + ([']'] + ("]]><![CDATA[" + (['>'] + b)))
  {
  }

  lemma CloseParts(value: string)
    ensures [']'] + ([']'] + (['>'] + value)) == CLOSE + value
  {
  }

  lemma ReadBrackets(s: string)
    requires At(s, 0) == ']' && At(s, 1) == ']'
    ensures ReadCdata([']'] + ([']'] + s)) == Prepend(']', Prepend(']', ReadCdata(s)))
  {
    ReadChar(']', s);
    ReadChar(']', [']'] + s);
  }

  /** Closing and opening a section in one place changes nothing. */
  lemma ReadReopened(t: string)
    ensures ReadCdata("]]><![CDATA[" + t) == ReadCdata(t)
  {
    var s := "]]><![CDATA[" + t;
    assert s[3..] == OPEN + t && s[12..] == t;
  }

  /** Round trip, for every string: what an XML reader joins from the printed sections is
      the string, between the two added newlines. */
  lemma CdataRoundTrip(s: string)
    ensures OPEN <= Cdata(s)
    ensures ReadCdata(Cdata(s)[|OPEN|..]) == Some(Literal("\n" + s + "\n", "\n"))
  {
    var line := ['\n'] + (CdataBody(s) + TAIL);
    assert Cdata(s) == OPEN + line;
    assert Cdata(s)[|OPEN|..] == line;
    ReadBody(s);
    ReadChar('\n', CdataBody(s) + TAIL);
    assert "\n" + s + "\n" == ['\n'] + (s + "\n");
  }

  /** print_xml_cdata; the characters after the end of `str` read as its terminator. */
  method PrintXmlCdata(str: string) returns (file: string)
    ensures file == Cdata(str)
  {
    file := "<![CDATA[\n";
    var i := 0;
    while i != |str|
      invariant i <= |str|
      invariant OPEN + "\n" + CdataBody(str) == file + CdataBody(str[i..])
      decreases |str| - i
    {
      CdataStep(file, str, i);
      if str[i] == ']' && At(str, i + 1) == ']' && At(str, i + 2) == '>' {
        file := file + "]]]]><![CDATA[>";
        i := i + 2;
      } else {
        file := file + [str[i]];
      }
      i := i + 1;
    }
    assert file + "" == file;
    file := file + "\n]]>\n";
  }

  lemma CdataStep(r: string, s: string, i: nat)
    requires i < |s|
    ensures if s[i] == ']' && At(s, i + 1) == ']' && At(s, i + 2) == '>'
      then i + 3 <= |s| && r + CdataBody(s[i..]) == r + "]]]]><![CDATA[>" + CdataBody(s[i + 3..])
      else r + CdataBody(s[i..]) == r + [s[i]] + CdataBody(s[i + 1..])
  {
    assert At(s[i..], 1) == At(s, i + 1) && At(s[i..], 2) == At(s, i + 2);
    if s[i] == ']' && At(s, i + 1) == ']' && At(s, i + 2) == '>' {
      assert s[i..][3..] == s[i + 3..];
      assert r + ("]]]]><![CDATA[>" + CdataBody(s[i + 3..])) == r + "]]]]><![CDATA[>" + CdataBody(s[i + 3..]);
    } else {
      assert s[i..][1..] == s[i + 1..];
      assert r + ([s[i]] + CdataBody(s[i + 1..])) == r + [s[i]] + CdataBody(s[i + 1..]);
    }
  }
}
