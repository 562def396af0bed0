/** What the splitter of client/mysql.cc is for: text written as statements,
    separated by a delimiter, comes apart into exactly those statements, however
    many delimiters, quotes and comment marks hide inside strings and comments.

    The reference is a printer: a line is a list of items, printed one after the
    other, and what the items mean is stated without the scanner. */
module Statements {
  import opened Text
  import opened Splitter

  datatype Item =
    | Word(text: string)                // code outside strings and comments
    | Quoted(quote: char, body: string) // a string; any body
    | Note(body: string)                // a C-style comment
    | Version(maria: bool)              // the start of a version comment, whose text is code
    | EndVersion                        // and its end
    | Slash(letter: char)               // `\N`, or a backslash before a letter of no command
    | End(space: string)                // the delimiter, and white space behind it

  function Print(item: Item, d: string): string {
    match item
    case Word(text) => text
    case Quoted(quote, body) => [quote] + Escaped(body, quote) + [quote]
    case Note(body) => "/*" + body + "*/"
    case Version(maria) => VersionMark(maria)
    case EndVersion => "*/"
    case Slash(letter) => ['\\', letter]
    case End(space) => d + space
  }

  function VersionMark(maria: bool): string {
    if maria then "/*M!" else "/*!"
  }

  function PrintAll(items: seq<Item>, d: string): string {
    if items == [] then "" else Print(items[0], d) + PrintAll(items[1..], d)
  }

  /** Code goes on in `s` with a character that starts no string, comment, escape or
      delimiter, nor could start a delimiter with what may follow. */
  predicate Ordinary(s: string, d: string) {
    && s != "" && Harmless(s[0], At(s, 1), At(s, 2)) && !(d <= s) && !(s <= d)
  }

  /** Two dashes start a comment only before white space or the end of the line. */
  predicate Harmless(x: char, next: char, third: char) {
    && x != NUL && x != '\\' && !IsQuote(x) && x != '#'
    && !(x == '-' && next == '-' && (IsSpace(third) || third == NUL)) && !(x == '/' && next == '*')
  }

  /** No comment mark inside the comment. */
  predicate NoteChar(x: char, next: char) {
    x != NUL && !(x == '/' && next == '*') && !(x == '*' && next == '/')
  }

  predicate Printable(item: Item, d: string) {
    match item
    case Word(text) =>
      && (forall i :: 0 <= i < |text| ==> Ordinary(text[i..], d))
      && (text != "" ==> text[|text| - 1] !in {'-', '/'})
    case Quoted(quote, body) => IsQuote(quote) && NUL !in body
    case Note(body) => LastNote(body) && !IsVersion(body)
    case Version(_) => At(d, 0) !in {'/', '*', '!', 'M'}
    case EndVersion => At(d, 0) !in {'/', '*'}
    case Slash(letter) => letter != NUL
    case End(space) => Spaces(space)
  }

  /** The rest of a comment, up to its end mark. */
  predicate LastNote(body: string) {
    forall i :: 0 <= i < |body| ==> NoteChar(body[i], At(body + "*/", i + 1))
  }

  /** What follows a comment mark makes it a version comment. */
  predicate IsVersion(body: string) {
    At(body, 0) == '!' || (At(body, 0) == 'M' && At(body, 1) == '!')
  }

  /** Inside a version comment that began on this line, no other comment starts. */
  predicate Allowed(item: Item, inVersion: bool) {
    match item
    case Word(text) => inVersion ==>
      (forall i :: 0 <= i < |text| ==> !(text[i] == '*' && At(text, i + 1) in {'/', NUL}))
    case Quoted(_, _) => true
    case Note(_) => !inVersion
    case Version(_) => !inVersion
    case EndVersion => true
    case Slash(_) => true
    case End(_) => true
  }

  function VersionAfter(item: Item, inVersion: bool): bool {
    match item
    case Word(_) => inVersion
    case Quoted(_, _) => inVersion
    case Note(_) => inVersion
    case Version(maria) => !maria
    case EndVersion => false
    case Slash(_) => inVersion
    case End(_) => inVersion
  }

  function VersionAfterAll(items: seq<Item>, inVersion: bool): bool {
    if items == [] then inVersion else VersionAfterAll(items[1..], VersionAfter(items[0], inVersion))
  }

  /** What follows a delimiter, and the white space behind it, is not a comment that belongs to
      the statement. */
  predicate Apart(rest: string) {
    !IsSpace(At(rest, 0)) && At(rest, 0) != '#' && !(At(rest, 0) == '-' && At(rest, 1) == '-' && IsSpace(At(rest, 2)))
  }

  /** The items of a line, with `after` behind them, can be told apart; `keep` says that comments
      are kept. */
  predicate ValidItems(items: seq<Item>, inVersion: bool, d: string, keep: bool, after: string)
    decreases |items|
  {
    items != [] ==>
    var rest := PrintAll(items[1..], d) + after;
    && Printable(items[0], d) && Allowed(items[0], inVersion)
    && (items[0].EndVersion? ==> At(rest, 0) != '*') && (items[0].End? && keep ==> Apart(rest))
    && ValidItems(items[1..], VersionAfter(items[0], inVersion), d, keep, after)
  }

  /** A delimiter that cannot be taken for white space, a quote or a comment. */
  predicate ClearDelimiter(d: string) {
    ValidDelimiter(d) && !IsSpace(d[0]) && !IsQuote(d[0]) && !(d[0] == '/' && At(d, 1) in {NUL, '*'})
  }

  // ------------------------------------------------------------ what items mean

  /** The statement being collected, whether a comment just ended in it, everything dispatched
      so far, and whether comments are kept. */
  datatype State = State(text: string, gap: bool, sent: seq<Event>, keep: bool)

  /** White space does not start a statement, unless comments are kept, and a comment
      separates. */
  function Emit(s: State, x: char): State {
    if s.text == "" && IsSpace(x) && !s.keep then s
    else s.(text := s.text + (if s.gap && !IsSpace(x) then [' ', x] else [x]), gap := false)
  }

  function EmitAll(s: State, t: string): State
    decreases |t|
  {
    if t == "" then s else EmitAll(Emit(s, t[0]), t[1..])
  }

  lemma {:induction false} EmitAllKeeps(s: State, t: string)
    requires !s.gap && (s.text != "" || (t != "" && !IsSpace(t[0])))
    ensures EmitAll(s, t) == s.(text := s.text + t)
    decreases |t|
  {
    if t == "" {
      assert s.text + t == s.text;
    } else {
      EmitAllKeeps(Emit(s, t[0]), t[1..]);
      assert s.text + [t[0]] + t[1..] == s.text + t;
    }
  }

  /** The text of a comment: dropped or kept, and set apart from what follows. */
  function OpenNote(s: State): State {
    if s.keep then s.(text := s.text + "/*") else s
  }

  function InNoteText(s: State, body: string): State {
    if s.keep then EmitAll(s, body) else s
  }

  function CloseNote(s: State): State {
    s.(text := if s.keep then s.text + "*/" else s.text, gap := true)
  }

  function Effect(item: Item, s: State): State {
    match item
    case Word(text) => EmitAll(s, text)
    case Quoted(quote, body) =>
      var s1 := Emit(s, quote);
      s1.(text := s1.text + Escaped(body, quote) + [quote])
    case Note(body) => CloseNote(InNoteText(OpenNote(s), body))
    case Version(maria) => EmitAll(s, VersionMark(maria))
    case EndVersion => EmitAll(s, "*/")
    case Slash(letter) =>
      s.(text := s.text + ['\\', letter], sent := if letter == 'N' then s.sent else s.sent + [Unknown(letter)])
    case End(space) => Sends(s, space)
  }

  /** The statement ends; with comments kept, what trails it belongs to it. */
  function Sends(s: State, trailing: string): State {
    State("", s.gap, s.sent + [Query(s.text + if s.keep then trailing else "")], s.keep)
  }

  function EffectAll(items: seq<Item>, s: State): State {
    if items == [] then s else EffectAll(items[1..], Effect(items[0], s))
  }

  /** Somewhere in the text `--` stands where the statement is still empty: a comment there,
      whatever follows. */
  predicate StartsNote(s: State, t: string)
    decreases |t|
  {
    t != "" && ((s.text == "" && t[0] == '-' && At(t, 1) == '-') || StartsNote(Emit(s, t[0]), t[1..]))
  }

  /** Every statement is a query: none is a client command, nor starts with `--`; and no letter
      behind a backslash is that of a command. */
  predicate AllQueries(e: Env, items: seq<Item>, s: State, d: string)
    decreases |items|
  {
    items != [] ==>
    && (items[0].End? ==> FindName(e, CString(s.text + if s.keep then items[0].space else ""), d) == None)
    && (items[0].Word? ==> !StartsNote(s, items[0].text))
    && (items[0].Slash? ==> items[0].letter == 'N' || FindLetter(e, items[0].letter) == None)
    && AllQueries(e, items[1..], Effect(items[0], s), d)
  }

  // ------------------------------------------------------------ the scanner agrees

  /** Statements neither fail fatally nor change the delimiter or the quoting rules. */
  ghost predicate Quiet(e: Env, d: string) {
    forall h :: var r := e.world(h);
      !r.fatal && (r.delimiter == d || !ValidDelimiter(r.delimiter)) && !r.ansiQuotes && !r.noBackslash
  }

  /** A client before its first statement, whose quoting rules are the default ones. */
  predicate Fresh(client: Client, d: string) {
    client == Client("", d, false, false, client.sent)
  }

  predicate Rules(c: Core, d: string) {
    c.client.delimiter == d && !c.client.ansiQuotes && !c.client.noBackslash
  }

  /** Outside strings and comments. */
  predicate InCode(c: Core, d: string) {
    Rules(c, d) && c.inString == NUL && !c.mlComment
  }

  predicate InQuote(c: Core, d: string, quote: char) {
    Rules(c, d) && c.inString == quote && !c.mlComment && !c.needSpace
  }

  function Abstract(e: Env, c: Core, out: string): State {
    State(c.client.buffer + out, c.needSpace, c.client.sent, e.preserveComments)
  }

  /** One step of the scan. */
  lemma Unfold(e: Env, c: Core, out: string, line: string, s: Step, rest: string)
    requires ValidCore(c) && line != "" && s == Next(e, c, out, line)
    requires s.status == Continue && s.n <= |line| && rest == line[s.n..]
    ensures Scan(e, c, out, line) == Scan(e, s.core, s.out, rest)
  {
  }

  /** A character of a word, or a quote. */
  predicate Codes(c: Core, out: string, x: char, rest: string, d: string) {
    || IsQuote(x)
    || (&& Harmless(x, At(rest, 0), At(rest, 1)) && !(d <= [x] + rest)
        && (x == '-' && At(rest, 0) == '-' ==> c.client.buffer + out != ""))
  }

  lemma OrdinaryKind(e: Env, d: string, c: Core, out: string, x: char, rest: string)
    requires ClearDelimiter(d) && InCode(c, d) && Codes(c, out, x, rest, d)
    ensures KindOf(e, c, out, [x] + rest) ==
      if out == "" && c.client.buffer == "" && IsSpace(x) && !e.preserveComments then Skipped else Plain
  {
    assert At([x] + rest, 1) == At(rest, 0) && At([x] + rest, 2) == At(rest, 1);
    assert c.client.buffer + out != "" ==> c.client.buffer != "" || out != "";
  }

  /** A character that takes the last branch of the loop, or is skipped at the start. */
  lemma EmitChar(e: Env, d: string, c: Core, out: string, x: char, rest: string) returns (c': Core, out': string)
    requires ClearDelimiter(d) && InCode(c, d) && x != NUL
    requires KindOf(e, c, out, [x] + rest) ==
      if out == "" && c.client.buffer == "" && IsSpace(x) && !e.preserveComments then Skipped else Plain
    ensures ValidCore(c') && Scan(e, c, out, [x] + rest) == Scan(e, c', out', rest)
    ensures Abstract(e, c', out') == Emit(Abstract(e, c, out), x) && c'.client == c.client
    ensures if IsQuote(x) then InQuote(c', d, x) else InCode(c', d)
    ensures c'.ssComment == if x == '/' && At(rest, 0) == '*' && At(rest, 1) == '!' then true
      else c.ssComment && !(x == '*' && At(rest, 0) == '/')
  {
    var s := Next(e, c, out, [x] + rest);
    c', out' := s.core, s.out;
    Unfold(e, c, out, [x] + rest, s, rest);
    AbstractAppend(e, c, out, [x]);
    AbstractAppend(e, c, out, [' ', x]);
    assert At([x] + rest, 1) == At(rest, 0) && At([x] + rest, 2) == At(rest, 1);
  }

  lemma OneChar(e: Env, d: string, c: Core, out: string, x: char, rest: string) returns (c': Core, out': string)
    requires ClearDelimiter(d) && InCode(c, d) && Codes(c, out, x, rest, d)
    ensures ValidCore(c') && Scan(e, c, out, [x] + rest) == Scan(e, c', out', rest)
    ensures Abstract(e, c', out') == Emit(Abstract(e, c, out), x) && c'.client == c.client
    ensures if IsQuote(x) then InQuote(c', d, x) else InCode(c', d)
    ensures c'.ssComment == (c.ssComment && !(x == '*' && At(rest, 0) == '/'))
  {
    OrdinaryKind(e, d, c, out, x, rest);
    c', out' := EmitChar(e, d, c, out, x, rest);
  }

  /** The start of a version comment is code. */
  lemma ScanVersion(e: Env, d: string, c: Core, out: string, maria: bool, rest: string) returns (c': Core, out': string)
    requires ClearDelimiter(d) && InCode(c, d) && Printable(Version(maria), d) && !c.ssComment
    ensures ValidCore(c') && Scan(e, c, out, VersionMark(maria) + rest) == Scan(e, c', out', rest)
    ensures Abstract(e, c', out') == EmitAll(Abstract(e, c, out), VersionMark(maria)) && InCode(c', d)
    ensures c'.ssComment == !maria && c'.client == c.client
  {
    var mark := VersionMark(maria)[1..];
    assert VersionMark(maria) + rest == ['/'] + (mark + rest);
    MarkPrints(maria, d, rest);
    VersionKind(e, d, c, out, mark + rest);
    c', out' := EmitChar(e, d, c, out, '/', mark + rest);
    NoDashes(Abstract(e, c', out'), mark);
    c', out' := ScanWord(e, d, c', out', mark, rest);
  }

  lemma {:induction false} NoDashes(s: State, t: string)
    requires '-' !in t
    ensures !StartsNote(s, t)
    decreases |t|
  {
    if t != "" { NoDashes(Emit(s, t[0]), t[1..]); }
  }

  lemma MarkPrints(maria: bool, d: string, rest: string)
    requires ClearDelimiter(d) && Printable(Version(maria), d)
    ensures var mark := VersionMark(maria)[1..];
      && VersionMark(maria)[0] == '/' && Printable(Word(mark), d) && Allowed(Word(mark), true) && '-' !in mark
      && At(mark + rest, 0) == '*' && (At(mark + rest, 1) == '!' <==> !maria)
      && (maria ==> At(mark + rest, 1) == 'M' && At(mark + rest, 2) == '!')
  {
    var mark := VersionMark(maria)[1..];
    assert mark == if maria then "*M!" else "*!";
    forall i | 0 <= i < |mark| ensures Ordinary(mark[i..], d) {
      assert mark[i..][0] == mark[i] && At(mark[i..], 1) == At(mark, i + 1);
    }
  }

  lemma VersionKind(e: Env, d: string, c: Core, out: string, after: string)
    requires ClearDelimiter(d) && InCode(c, d) && At(d, 0) != '/'
    requires At(after, 0) == '*' && (At(after, 1) == '!' || (At(after, 1) == 'M' && At(after, 2) == '!'))
    ensures KindOf(e, c, out, ['/'] + after) == Plain
  {
    var line := ['/'] + after;
    assert At(line, 1) == '*' && At(line, 2) == At(after, 1) && At(line, 3) == At(after, 2);
  }

  lemma ScanEndVersion(e: Env, d: string, c: Core, out: string, rest: string) returns (c': Core, out': string)
    requires ClearDelimiter(d) && InCode(c, d) && Printable(EndVersion, d) && At(rest, 0) != '*'
    ensures ValidCore(c') && Scan(e, c, out, "*/" + rest) == Scan(e, c', out', rest)
    ensures Abstract(e, c', out') == EmitAll(Abstract(e, c, out), "*/") && InCode(c', d)
    ensures !c'.ssComment && c'.client == c.client
  {
    assert "*/" + rest == ['*'] + (['/'] + rest);
    c', out' := OneChar(e, d, c, out, '*', ['/'] + rest);
    c', out' := OneChar(e, d, c', out', '/', rest);
    assert "*/"[1..] == "/" && "/"[1..] == "";
  }

  lemma AbstractAppend(e: Env, c: Core, out: string, t: string)
    ensures Abstract(e, c, out + t) == Abstract(e, c, out).(text := Abstract(e, c, out).text + t)
  {
    assert c.client.buffer + (out + t) == c.client.buffer + out + t;
  }

  lemma WordChar(c: Core, out: string, text: string, rest: string, d: string, inVersion: bool)
    requires Printable(Word(text), d) && Allowed(Word(text), inVersion) && text != ""
    requires c.client.buffer + out == "" ==> !(text[0] == '-' && At(text, 1) == '-')
    ensures Codes(c, out, text[0], text[1..] + rest, d) && !IsQuote(text[0])
    ensures inVersion ==> !(text[0] == '*' && At(text[1..] + rest, 0) == '/')
  {
    assert text[0..] == text && Ordinary(text[0..], d);
    assert [text[0]] + (text[1..] + rest) == text + rest;
    if |text| == 1 {
      assert text[|text| - 1] == text[0];
    } else {
      assert At(text[1..] + rest, 0) == text[1];
      if |text| == 2 {
        assert text[|text| - 1] == text[1];
      } else {
        assert At(text[1..] + rest, 1) == text[2];
      }
    }
  }

  lemma WordTail(text: string, d: string, inVersion: bool)
    requires Printable(Word(text), d) && Allowed(Word(text), inVersion) && text != ""
    ensures Printable(Word(text[1..]), d) && Allowed(Word(text[1..]), inVersion)
  {
    var tail := text[1..];
    forall i | 0 <= i < |tail| ensures Ordinary(tail[i..], d) {
      assert tail[i..] == text[i + 1..];
    }
    if inVersion {
      forall i | 0 <= i < |tail| ensures !(tail[i] == '*' && At(tail, i + 1) in {'/', NUL}) {
        assert tail[i] == text[i + 1] && At(tail, i + 1) == At(text, i + 2);
      }
    }
  }

  lemma {:induction false} ScanWord(e: Env, d: string, c: Core, out: string, text: string, rest: string)
    returns (c': Core, out': string)
    requires ClearDelimiter(d) && InCode(c, d) && Printable(Word(text), d) && Allowed(Word(text), c.ssComment)
    requires !StartsNote(Abstract(e, c, out), text)
    ensures ValidCore(c') && Scan(e, c, out, text + rest) == Scan(e, c', out', rest) && c'.ssComment == c.ssComment
    ensures Abstract(e, c', out') == EmitAll(Abstract(e, c, out), text) && InCode(c', d) && c'.client == c.client
    decreases |text|
  {
    if text == "" {
      assert text + rest == rest;
      c', out' := c, out;
    } else {
      var tail := text[1..];
      assert text + rest == [text[0]] + (tail + rest);
      WordChar(c, out, text, rest, d, c.ssComment);
      WordTail(text, d, c.ssComment);
      c', out' := OneChar(e, d, c, out, text[0], tail + rest);
      c', out' := ScanWord(e, d, c', out', tail, rest);
    }
  }

  /** Inside a string, one escaped character is kept and changes nothing. */
  lemma OneQuotedChar(e: Env, d: string, c: Core, out: string, quote: char, x: char, rest: string)
    requires ClearDelimiter(d) && InQuote(c, d, quote) && IsQuote(quote) && x != NUL
    requires c.client.buffer + out != ""
    ensures var t := EscapedChar(x, quote); Scan(e, c, out, t + rest) == Scan(e, c, out + t, rest)
  {
    if x == quote {
      var c1 := c.(inString := NUL);
      var line := [x, x] + rest;
      var s := Next(e, c, out, line);
      Unfold(e, c, out, line, s, [x] + rest);
      OrdinaryKind(e, d, c1, out + [x], x, rest);
      var s1 := Next(e, c1, out + [x], [x] + rest);
      Unfold(e, c1, out + [x], [x] + rest, s1, rest);
      assert out + [x] + [x] == out + [x, x];
    } else if x == '\\' && quote != '`' {
      var line := [x, x] + rest;
      Unfold(e, c, out, line, Next(e, c, out, line), rest);
    } else {
      var line := [x] + rest;
      Unfold(e, c, out, line, Next(e, c, out, line), rest);
    }
  }

  lemma Regroup(out: string, t: string, tail: string, rest: string)
    ensures t + tail + rest == t + (tail + rest)
    ensures out + t + tail == out + (t + tail)
  {
  }

  lemma {:induction false} ScanBody(e: Env, d: string, c: Core, out: string, quote: char, body: string, rest: string)
    requires ClearDelimiter(d) && InQuote(c, d, quote) && IsQuote(quote) && NUL !in body
    requires c.client.buffer + out != ""
    ensures Scan(e, c, out, Escaped(body, quote) + rest) == Scan(e, c, out + Escaped(body, quote), rest)
    decreases |body|
  {
    if body == "" {
      assert Escaped(body, quote) + rest == rest;
      assert out + "" == out;
    } else {
      var x, tail := body[0], Escaped(body[1..], quote);
      var t := EscapedChar(x, quote);
      Regroup(out, t, tail, rest);
      OneQuotedChar(e, d, c, out, quote, x, tail + rest);
      assert c.client.buffer + (out + t) != "" by { AbstractAppend(e, c, out, t); }
      ScanBody(e, d, c, out + t, quote, body[1..], rest);
    }
  }

  /** The closing quote. */
  lemma ScanClose(e: Env, d: string, c: Core, out: string, quote: char, rest: string)
    requires InQuote(c, d, quote) && IsQuote(quote) && ValidCore(c)
    ensures Scan(e, c, out, [quote] + rest) == Scan(e, c.(inString := NUL), out + [quote], rest)
  {
    var line := [quote] + rest;
    var s := Next(e, c, out, line);
    assert KindOf(e, c, out, line) == Plain;
    Unfold(e, c, out, line, s, rest);
  }

  lemma ScanQuoted(e: Env, d: string, c: Core, out: string, quote: char, body: string, rest: string)
    returns (c': Core, out': string)
    requires ClearDelimiter(d) && InCode(c, d) && Printable(Quoted(quote, body), d)
    ensures ValidCore(c') && Scan(e, c, out, Print(Quoted(quote, body), d) + rest) == Scan(e, c', out', rest)
    ensures Abstract(e, c', out') == Effect(Quoted(quote, body), Abstract(e, c, out)) && InCode(c', d)
    ensures c'.ssComment == c.ssComment && c'.client == c.client
  {
    var t := Escaped(body, quote);
    assert Print(Quoted(quote, body), d) + rest == [quote] + (t + ([quote] + rest));
    c', out' := OneChar(e, d, c, out, quote, t + ([quote] + rest));
    ScanBody(e, d, c', out', quote, body, [quote] + rest);
    ScanClose(e, d, c', out' + t, quote, rest);
    AbstractAppend(e, c', out', t);
    AbstractAppend(e, c', out' + t, [quote]);
    c', out' := c'.(inString := NUL), out' + t + [quote];
  }

  predicate InNote(c: Core, d: string) {
    Rules(c, d) && c.inString == NUL && c.mlComment && !c.ssComment
  }

  /** Inside a comment, characters are dropped, or kept. */
  lemma OneNoteChar(e: Env, d: string, c: Core, out: string, x: char, rest: string) returns (c': Core, out': string)
    requires ClearDelimiter(d) && InNote(c, d) && NoteChar(x, At(rest, 0))
    ensures ValidCore(c') && Scan(e, c, out, [x] + rest) == Scan(e, c', out', rest) && InNote(c', d)
    ensures Abstract(e, c', out') == InNoteText(Abstract(e, c, out), [x])
    ensures c'.client == c.client && (!e.preserveComments ==> c' == c && out' == out)
  {
    var line := [x] + rest;
    assert At(line, 1) == At(rest, 0);
    var s := Next(e, c, out, line);
    c', out' := s.core, s.out;
    Unfold(e, c, out, line, s, rest);
    AbstractAppend(e, c, out, [x]);
    AbstractAppend(e, c, out, [' ', x]);
    var t := [x];
    assert t[0] == x && t[1..] == "" && EmitAll(Abstract(e, c, out), t) == Emit(Abstract(e, c, out), x);
  }

  lemma {:induction false} ScanNoteText(e: Env, d: string, c: Core, out: string, body: string, rest: string)
    returns (c': Core, out': string)
    requires ClearDelimiter(d) && InNote(c, d)
    requires forall i :: 0 <= i < |body| ==> NoteChar(body[i], At(body + rest, i + 1))
    ensures ValidCore(c') && Scan(e, c, out, body + rest) == Scan(e, c', out', rest) && InNote(c', d)
    ensures Abstract(e, c', out') == InNoteText(Abstract(e, c, out), body)
    ensures c'.client == c.client && (!e.preserveComments ==> c' == c && out' == out)
    decreases |body|
  {
    if body == "" {
      assert body + rest == rest;
      c', out' := c, out;
    } else {
      var tail := body[1..];
      assert body + rest == [body[0]] + (tail + rest) && At(tail + rest, 0) == At(body + rest, 1);
      c', out' := OneNoteChar(e, d, c, out, body[0], tail + rest);
      forall i | 0 <= i < |tail| ensures NoteChar(tail[i], At(tail + rest, i + 1)) {
        assert NoteChar(body[i + 1], At(body + rest, i + 2));
      }
      c', out' := ScanNoteText(e, d, c', out', tail, rest);
      EmitOne(Abstract(e, c, out), body);
    }
  }

  lemma EmitOne(s: State, t: string)
    requires t != ""
    ensures EmitAll(s, t) == EmitAll(EmitAll(s, [t[0]]), t[1..])
  {
    assert [t[0]][1..] == "";
  }

  /** The rest of a comment, and its end. */
  lemma ScanNoteBody(e: Env, d: string, c: Core, out: string, body: string, rest: string) returns (c': Core, out': string)
    requires ClearDelimiter(d) && InNote(c, d) && LastNote(body)
    ensures ValidCore(c') && Scan(e, c, out, body + "*/" + rest) == Scan(e, c', out', rest)
    ensures Abstract(e, c', out') == CloseNote(InNoteText(Abstract(e, c, out), body)) && InCode(c', d) && !c'.ssComment
  {
    var line := "*/" + rest;
    Regroup("", body, "*/", rest);
    forall i | 0 <= i < |body| ensures NoteChar(body[i], At(body + line, i + 1)) {
      assert At(body + line, i + 1) == At(body + "*/", i + 1);
    }
    c', out' := ScanNoteText(e, d, c, out, body, line);
    assert At(line, 0) == '*' && At(line, 1) == '/';
    var s := Next(e, c', out', line);
    assert s == CloseStep(e, c', out');
    Unfold(e, c', out', line, s, rest);
    AbstractAppend(e, c', out', "*/");
    FlushAll(e, c', if e.preserveComments then out' + "*/" else out');
    c', out' := s.core, s.out;
  }

  lemma FlushAll(e: Env, c: Core, out: string)
    ensures Abstract(e, Flush(c, out), "") == Abstract(e, c, out)
  {
    assert c.client.buffer + out + "" == c.client.buffer + out;
  }

  lemma ScanNote(e: Env, d: string, c: Core, out: string, body: string, rest: string)
    returns (c': Core, out': string)
    requires ClearDelimiter(d) && InCode(c, d) && Printable(Note(body), d) && !c.ssComment
    ensures ValidCore(c') && Scan(e, c, out, Print(Note(body), d) + rest) == Scan(e, c', out', rest)
    ensures Abstract(e, c', out') == Effect(Note(body), Abstract(e, c, out)) && InCode(c', d) && !c'.ssComment
  {
    var after := body + "*/" + rest;
    assert Print(Note(body), d) + rest == "/*" + after;
    assert At(after, 0) == At(body + "*/", 0) && At(after, 1) == At(body + "*/", 1);
    c', out' := ScanOpening(e, d, c, out, after);
    c', out' := ScanNoteBody(e, d, c', out', body, rest);
  }

  /** A comment mark outside strings. */
  lemma ScanOpening(e: Env, d: string, c: Core, out: string, after: string) returns (c': Core, out': string)
    requires ClearDelimiter(d) && InCode(c, d) && !IsVersion(after) && !c.ssComment
    ensures ValidCore(c') && Scan(e, c, out, "/*" + after) == Scan(e, c', out', after)
    ensures Abstract(e, c', out') == OpenNote(Abstract(e, c, out)) && InNote(c', d)
    ensures out' == "" && c'.client.sent == c.client.sent
  {
    var line := "/*" + after;
    OpeningKind(e, d, c, out, after);
    var s := OpenStep(e, c, out);
    assert line[2..] == after;
    Unfold(e, c, out, line, s, after);
    AbstractAppend(e, c, out, "/*");
    FlushAll(e, c, if e.preserveComments then out + "/*" else out);
    c', out' := s.core, s.out;
  }

  lemma OpeningKind(e: Env, d: string, c: Core, out: string, after: string)
    requires ClearDelimiter(d) && InCode(c, d) && !IsVersion(after)
    ensures KindOf(e, c, out, "/*" + after) == Opening
  {
    var line := "/*" + after;
    assert At(line, 2) == At(after, 0) && At(line, 3) == At(after, 1);
    assert !PrefixAt(line, 0, d) by { assert |d| > 1 ==> At(d, 1) == d[1]; }
  }

  /** White space at the start of a statement. */
  lemma {:induction false} ScanSpaces(e: Env, c: Core, space: string, rest: string)
    requires ValidCore(c) && Spaces(space) && c.client.buffer == "" && !e.preserveComments
    ensures Scan(e, c, "", space + rest) == Scan(e, c, "", rest)
    decreases |space|
  {
    if space == "" {
      assert space + rest == rest;
    } else {
      var line := space + rest;
      assert line[1..] == space[1..] + rest;
      var s := Next(e, c, "", line);
      Unfold(e, c, "", line, s, space[1..] + rest);
      ScanSpaces(e, c, space[1..], rest);
    }
  }

  lemma {:induction false} SpaceTextIs(space: string, rest: string)
    requires Spaces(space) && !IsSpace(At(rest, 0))
    ensures SpaceText(space + rest) == space
  {
    if space == "" {
      assert space + rest == rest;
    } else {
      assert (space + rest)[1..] == space[1..] + rest;
      SpaceTextIs(space[1..], rest);
      assert [space[0]] + space[1..] == space;
    }
  }

  /** The statement in the buffer, with `t` behind it, goes out as a query. */
  lemma DispatchQuery(e: Env, d: string, c: Core, out: string, t: string, n: nat)
    requires Quiet(e, d) && ClearDelimiter(d) && InCode(c, d)
    requires FindName(e, CString(c.client.buffer + out + t), d) == None
    ensures var s := Dispatched(e, Flush(c, out + t), n);
      && s.status == Continue && s.out == "" && s.n == n && InCode(s.core, d) && s.core.ssComment == c.ssComment
      && s.core.client.buffer == "" && s.core.needSpace == c.needSpace
      && s.core.client.sent == c.client.sent + [Query(c.client.buffer + out + t)]
  {
    assert c.client.buffer + (out + t) == c.client.buffer + out + t;
  }

  lemma ScanEnd(e: Env, d: string, c: Core, out: string, space: string, rest: string) returns (c': Core, out': string)
    requires Quiet(e, d) && ClearDelimiter(d) && InCode(c, d) && Spaces(space) && (e.preserveComments ==> Apart(rest))
    requires FindName(e, CString(c.client.buffer + out + if e.preserveComments then space else ""), d) == None
    ensures ValidCore(c') && Scan(e, c, out, d + space + rest) == Scan(e, c', out', rest)
    ensures Abstract(e, c', out') == Effect(End(space), Abstract(e, c, out)) && InCode(c', d) && c'.ssComment == c.ssComment
  {
    var t := if e.preserveComments then space else "";
    Regroup("", d, space, rest);
    TrailingIs(e, space, rest);
    var s := DelimiterDone(e, d, c, out, t, space + rest);
    BehindDelimiter(d, space, rest);
    if e.preserveComments {
      Unfold(e, c, out, d + (space + rest), s, rest);
    } else {
      Unfold(e, c, out, d + (space + rest), s, space + rest);
      ScanSpaces(e, s.core, space, rest);
    }
    c', out' := s.core, "";
    SentAs(e, c, out, t, s.core);
  }

  lemma SentAs(e: Env, c: Core, out: string, t: string, c': Core)
    requires c'.client.buffer == "" && c'.needSpace == c.needSpace
    requires c'.client.sent == c.client.sent + [Query(c.client.buffer + out + t)]
    ensures var s := Abstract(e, c, out); Abstract(e, c', "") == State("", s.gap, s.sent + [Query(s.text + t)], s.keep)
  {
    assert c'.client.buffer + "" == "";
  }

  lemma BehindDelimiter(d: string, space: string, rest: string)
    ensures var line := d + (space + rest); line[|d|..] == space + rest && line[|d| + |space|..] == rest
  {
    assert (space + rest)[|space|..] == rest;
  }

  lemma TrailingIs(e: Env, space: string, rest: string)
    requires Spaces(space) && (e.preserveComments ==> Apart(rest))
    ensures TrailingText(e, space + rest) == if e.preserveComments then space else ""
  {
    if e.preserveComments {
      SpaceTextIs(space, rest);
      assert (space + rest)[|space|..] == rest && space + "" == space;
    }
  }

  /** The step at a delimiter. */
  lemma DelimiterDone(e: Env, d: string, c: Core, out: string, t: string, after: string) returns (s: Step)
    requires Quiet(e, d) && ClearDelimiter(d) && InCode(c, d)
    requires TrailingText(e, after) == t && FindName(e, CString(c.client.buffer + out + t), d) == None
    ensures s == Next(e, c, out, d + after) && s.n == |d| + |t| <= |d + after| && s.status == Continue && s.out == ""
    ensures InCode(s.core, d) && s.core.ssComment == c.ssComment && s.core.needSpace == c.needSpace
    ensures s.core.client.buffer == "" && s.core.client.sent == c.client.sent + [Query(c.client.buffer + out + t)]
  {
    var line := d + after;
    assert PrefixAt(line, 0, d) && line[|d|..] == after;
    assert KindOf(e, c, out, line) == Delimiter;
    DispatchQuery(e, d, c, out, t, |d| + |t|);
    s := Next(e, c, out, line);
  }

  lemma ScanSlash(e: Env, d: string, c: Core, out: string, letter: char, rest: string) returns (c': Core, out': string)
    requires Quiet(e, d) && ClearDelimiter(d) && InCode(c, d) && letter != NUL
    requires letter == 'N' || FindLetter(e, letter) == None
    ensures ValidCore(c') && Scan(e, c, out, ['\\', letter] + rest) == Scan(e, c', out', rest)
    ensures Abstract(e, c', out') == Effect(Slash(letter), Abstract(e, c, out)) && InCode(c', d) && c'.ssComment == c.ssComment
  {
    var line := ['\\', letter] + rest;
    assert At(line, 0) == '\\' && At(line, 1) == letter && line[2..] == rest;
    assert KindOf(e, c, out, line) == Backslash;
    var s := Next(e, c, out, line);
    Unfold(e, c, out, line, s, rest);
    AbstractAppend(e, c, out, ['\\', letter]);
    c', out' := s.core, s.out;
  }

  /** Code and closed strings are kept as they are printed. */
  predicate Kept(item: Item) {
    !item.End? && !item.Note? && !item.Slash?
  }

  predicate AsPrinted(items: seq<Item>) {
    forall i :: 0 <= i < |items| ==> Kept(items[i])
  }

  lemma ScanItem(e: Env, d: string, c: Core, out: string, item: Item, rest: string) returns (c': Core, out': string)
    requires Quiet(e, d) && ClearDelimiter(d) && InCode(c, d) && Printable(item, d) && Allowed(item, c.ssComment)
    requires AllQueries(e, [item], Abstract(e, c, out), d)
    requires (item.EndVersion? ==> At(rest, 0) != '*') && (item.End? && e.preserveComments ==> Apart(rest))
    ensures ValidCore(c') && Scan(e, c, out, Print(item, d) + rest) == Scan(e, c', out', rest)
    ensures Abstract(e, c', out') == Effect(item, Abstract(e, c, out)) && InCode(c', d)
    ensures c'.ssComment == VersionAfter(item, c.ssComment)
    ensures Kept(item) ==> c'.client == c.client
  {
    match item
    case Word(text) => c', out' := ScanWord(e, d, c, out, text, rest);
    case Quoted(quote, body) => c', out' := ScanQuoted(e, d, c, out, quote, body, rest);
    case Note(body) => c', out' := ScanNote(e, d, c, out, body, rest);
    case Version(maria) => c', out' := ScanVersion(e, d, c, out, maria, rest);
    case EndVersion => c', out' := ScanEndVersion(e, d, c, out, rest);
    case Slash(letter) => c', out' := ScanSlash(e, d, c, out, letter, rest);
    case End(space) => c', out' := ScanEnd(e, d, c, out, space, rest);
  }

  lemma OneQuery(e: Env, items: seq<Item>, s: State, d: string)
    requires items != [] && AllQueries(e, items, s, d)
    ensures AllQueries(e, [items[0]], s, d) && AllQueries(e, items[1..], Effect(items[0], s), d)
  {
    assert [items[0]][1..] == [];
  }

  lemma {:induction false} ScanItems(e: Env, d: string, c: Core, out: string, items: seq<Item>, rest: string)
    returns (c': Core, out': string)
    requires Quiet(e, d) && ClearDelimiter(d) && InCode(c, d) && ValidItems(items, c.ssComment, d, e.preserveComments, rest)
    requires AllQueries(e, items, Abstract(e, c, out), d)
    ensures ValidCore(c') && Scan(e, c, out, PrintAll(items, d) + rest) == Scan(e, c', out', rest)
    ensures Abstract(e, c', out') == EffectAll(items, Abstract(e, c, out)) && InCode(c', d)
    ensures c'.ssComment == VersionAfterAll(items, c.ssComment)
    ensures AsPrinted(items) ==> c'.client == c.client
    decreases |items|
  {
    if items == [] {
      assert PrintAll(items, d) + rest == rest;
      c', out' := c, out;
    } else {
      var tail := PrintAll(items[1..], d) + rest;
      Regroup("", Print(items[0], d), PrintAll(items[1..], d), rest);
      OneQuery(e, items, Abstract(e, c, out), d);
      c', out' := ScanItem(e, d, c, out, items[0], tail);
      c', out' := ScanItems(e, d, c', out', items[1..], rest);
    }
  }

  // ------------------------------------------------------------ short commands

  /** Commands leave the statement alone. */
  ghost predicate Calm(e: Env) {
    forall h: seq<Event> :: h != [] && h[|h| - 1].Run? ==> e.world(h).buffer == h[|h| - 1].buffer
  }

  /** A command in the middle of a statement, with what follows it on the line; CLEAR alone
      drops the statement. */
  function Ordered(s: State, command: Command, line: string): State {
    s.(text := if command.func == ComClear then "" else s.text, sent := s.sent + [Run(command, line, s.text)])
  }

  /** The delimiter does not stand in the parameters, but behind them, or they end the line. */
  predicate Undivided(params: string, d: string, ended: bool, after: string) {
    if ended then forall i :: 0 <= i < |params| ==> !(d <= (params + (d + after))[i..])
    else after == "" && forall i :: 0 <= i < |params| ==> !(d <= params[i..])
  }

  /** In a version comment, its end does not stand in the parameters, but behind them, or they
      end the line. */
  predicate Uncut(params: string, after: string) {
    && (after == "" || "*/" <= after)
    && forall i :: 0 <= i < |params| ==> !(params[i] == '*' && At(params + after, i + 1) == '/')
  }

  lemma {:induction false} UntilDelimiterIs(params: string, d: string, after: string)
    requires NUL !in params && (after == "" || d <= after)
    requires forall i :: 0 <= i < |params| ==> !(d <= (params + after)[i..])
    ensures UntilDelimiter(params + after, d) == |params|
  {
    var s := params + after;
    if params == "" {
      assert s == after;
    } else {
      assert s[0..] == s && !(d <= s[0..]);
      assert s[1..] == params[1..] + after;
      forall i | 0 <= i < |params[1..]| ensures !(d <= (params[1..] + after)[i..]) {
        assert (params[1..] + after)[i..] == s[i + 1..];
      }
      UntilDelimiterIs(params[1..], d, after);
    }
  }

  lemma {:induction false} UntilCloseIs(params: string, after: string)
    requires NUL !in params && Uncut(params, after)
    ensures UntilClose(params + after) == |params|
  {
    var s := params + after;
    if params == "" {
      assert s == after;
    } else {
      assert s[1..] == params[1..] + after && At(s, 1) == At(params + after, 1);
      forall i | 0 <= i < |params[1..]| ensures !(params[1..][i] == '*' && At(params[1..] + after, i + 1) == '/') {
        assert At(params[1..] + after, i + 1) == At(s, i + 2);
      }
      UntilCloseIs(params[1..], after);
    }
  }

  /** The parameters that a command takes of the line. */
  predicate Takes(command: Command, params: string, ended: bool, inVersion: bool, d: string, after: string) {
    && NUL !in params
    && if !command.takesParams then params == "" && !ended
       else if inVersion then !ended && Uncut(params, after)
       else Undivided(params, d, ended, after)
  }

  lemma ParamsAre(c: Core, command: Command, params: string, ended: bool, d: string, after: string)
    requires ValidDelimiter(d) && c.client.delimiter == d && Takes(command, params, ended, c.ssComment, d, after)
    ensures var rest := params + ((if ended then d else "") + after);
      var n := if command.takesParams then ParamLength(c, rest) else 0;
      n <= |rest| && rest[n..] == after
  {
    assert (if ended then d else "") + after == if ended then d + after else after;
    if command.takesParams {
      if c.ssComment {
        UntilCloseIs(params, after);
      } else if ended {
        EndedParams(c, params, d, after);
      } else {
        assert params + after == params;
        UntilDelimiterIs(params, d, after);
      }
    }
  }

  lemma EndedParams(c: Core, params: string, d: string, after: string)
    requires ValidDelimiter(d) && c.client.delimiter == d && !c.ssComment && NUL !in params && Undivided(params, d, true, after)
    ensures var rest := params + (d + after); ParamLength(c, rest) == |params| + |d| && rest[|params| + |d|..] == after
  {
    var behind := d + after;
    var rest := params + behind;
    UntilDelimiterIs(params, d, behind);
    assert rest[|params|..] == behind && behind[..|d|] == d && behind[|d|..] == after;
    assert rest[|params|..|params| + |d|] == d;
    assert rest[|params| + |d|..] == behind[|d|..];
  }

  /** The step at a short command. */
  lemma ScanShort(e: Env, d: string, c: Core, out: string, letter: char, params: string, ended: bool, after: string, command: Command)
    returns (c': Core)
    requires Quiet(e, d) && ClearDelimiter(d) && InCode(c, d) && letter != NUL && letter != 'N' && NUL !in after
    requires FindLetter(e, letter) == Some(command) && command.func != ComDelimiter && command.func != ComQuit
    requires command.func == ComClear || Calm(e)
    requires Takes(command, params, ended, c.ssComment, d, after)
    ensures var line := ['\\', letter] + (params + ((if ended then d else "") + after));
      && ValidCore(c') && Scan(e, c, out, line) == Scan(e, c', "", after)
      && Abstract(e, c', "") == Ordered(Abstract(e, c, out), command, line)
    ensures InCode(c', d) && c'.ssComment == c.ssComment
  {
    var rest := params + ((if ended then d else "") + after);
    var line := ['\\', letter] + rest;
    assert At(line, 0) == '\\' && At(line, 1) == letter && line[2..] == rest;
    assert NUL !in line;
    CStringWhole(line);
    assert KindOf(e, c, out, line) == Backslash;
    ParamsAre(c, command, params, ended, d, after);
    var s := Ordering(e, d, c, out, line, rest, command);
    SkipTwo(line, rest, s.n);
    Unfold(e, c, out, line, s, after);
    c' := s.core;
  }

  lemma SkipTwo(line: string, rest: string, n: nat)
    requires 2 <= n <= |line| && line[2..] == rest
    ensures line[n..] == rest[n - 2..]
  {
  }

  lemma Ordering(e: Env, d: string, c: Core, out: string, line: string, rest: string, command: Command) returns (s: Step)
    requires Quiet(e, d) && ClearDelimiter(d) && InCode(c, d) && CString(line) == line && |line| >= 2 && line[2..] == rest
    requires line[0] == '\\' && line[1] != NUL && line[1] != 'N' && KindOf(e, c, out, line) == Backslash
    requires FindLetter(e, line[1]) == Some(command) && command.func != ComDelimiter && command.func != ComQuit
    requires command.func == ComClear || Calm(e)
    ensures s == Next(e, c, out, line) && s.status == Continue && s.out == "" && InCode(s.core, d) && s.core.ssComment == c.ssComment
    ensures s.n == 2 + if command.takesParams then ParamLength(c, rest) else 0
    ensures Abstract(e, s.core, "") == Ordered(Abstract(e, c, out), command, line)
  {
    s := Next(e, c, out, line);
    var c1 := Flush(c, out);
    var sent := c1.client.sent + [Run(command, line, c1.client.buffer)];
    assert sent[|sent| - 1] == Run(command, line, c1.client.buffer);
    assert c1.client.buffer + "" == c1.client.buffer && "" + "" == "";
  }

  // ------------------------------------------------------------ whole scripts

  /** What is open at the start or the end of a line. */
  datatype Mode = Outside | Within(quote: char) | Commented

  /** How a line ends: in code; inside a string or a comment it opens; with a comment to the end
      of the line, by itself or right behind a delimiter; or with a short command, its
      parameters, with or without the delimiter, and more. */
  datatype Tail =
    | Closed
    | Opens(quote: char, body: string)
    | OpensNote(body: string)
    | LineNote(text: string)
    | Ends(space: string, note: string)
    | Short(letter: char, params: string, ended: bool, items: seq<Item>, tail: Tail)

  /** One line of a script. A line that starts inside a string or a comment either stays
      inside it (`Inner`) or closes it after `head`. */
  datatype Row = Inner(body: string) | Row(head: string, items: seq<Item>, tail: Tail)

  function TailText(tail: Tail, d: string): string {
    match tail
    case Closed => ""
    case Opens(quote, body) => [quote] + Escaped(body, quote)
    case OpensNote(body) => "/*" + body
    case LineNote(text) => text
    case Ends(space, note) => d + (space + note)
    case Short(letter, params, ended, items, rest) =>
      ['\\', letter] + (params + ((if ended then d else "") + (PrintAll(items, d) + TailText(rest, d))))
  }

  function HeadText(head: string, m: Mode): string {
    match m
    case Outside => ""
    case Within(quote) => Escaped(head, quote) + [quote]
    case Commented => head + "*/"
  }

  function InnerText(body: string, m: Mode): string {
    match m
    case Outside => ""
    case Within(quote) => Escaped(body, quote)
    case Commented => body
  }

  /** The line, when `m` is open. */
  function RowText(row: Row, m: Mode, d: string): string {
    match row
    case Inner(body) => InnerText(body, m)
    case Row(head, items, tail) => HeadText(head, m) + (PrintAll(items, d) + TailText(tail, d))
  }

  function TailMode(tail: Tail): Mode {
    match tail
    case Closed => Outside
    case Opens(quote, _) => Within(quote)
    case OpensNote(_) => Commented
    case LineNote(_) => Outside
    case Ends(_, _) => Outside
    case Short(_, _, _, _, rest) => TailMode(rest)
  }

  function ModeAfter(row: Row, m: Mode): Mode {
    if row.Inner? then m else TailMode(row.tail)
  }

  /** A comment that ends separates; a string belongs to the statement. */
  function HeadEffect(head: string, m: Mode, s: State): State {
    match m
    case Outside => s
    case Within(_) => s.(text := s.text + HeadText(head, m))
    case Commented => CloseNote(InNoteText(s, head))
  }

  /** A comment to the end of the line is dropped, or kept; one that stands alone is sent at
      once. */
  function NotesLine(s: State, text: string): State {
    if !s.keep then s
    else if s.text == "" then s.(sent := s.sent + [Query(text)])
    else s.(text := s.text + text)
  }

  function TailEffect(e: Env, tail: Tail, s: State, d: string): State {
    match tail
    case Closed => s
    case Opens(quote, body) =>
      var s1 := Emit(s, quote);
      s1.(text := s1.text + Escaped(body, quote))
    case OpensNote(body) => InNoteText(OpenNote(s), body)
    case LineNote(text) => NotesLine(s, text)
    case Ends(space, note) => Sends(s, space + note)
    case Short(letter, _, _, items, rest) =>
      match FindLetter(e, letter)
      case None => s
      case Some(command) => TailEffect(e, rest, EffectAll(items, Ordered(s, command, TailText(tail, d))), d)
  }

  function RowEffect(e: Env, row: Row, m: Mode, s: State, d: string): State {
    match row
    case Inner(body) =>
      if m.Within? then s.(text := s.text + InnerText(body, m)) else if m.Commented? then InNoteText(s, body) else s
    case Row(head, items, tail) => TailEffect(e, tail, EffectAll(items, HeadEffect(head, m, s)), d)
  }

  /** The end of a line separates like white space, once a statement has begun, unless it is
      inside a comment that is dropped. */
  function Newline(s: State, m: Mode): State {
    s.(text := if s.text == "" || (m == Commented && !s.keep) then s.text else s.text + "\n", gap := false)
  }

  /** A piece of a line that was cut ends without one. */
  function LineEnd(s: State, m: Mode, truncated: bool): State {
    if truncated then s.(gap := false) else Newline(s, m)
  }

  /** The text does not end in something that could be a DELIMITER command, after
      which the client adds no newline. */
  predicate NoDelimiterCommand(e: Env, text: string) {
    forall i :: 0 <= i <= |text| ==> !IsDelimiterCommand(e, text[i..])
  }

  /** A comment to the end of the line: `#`, or two dashes before white space, the end, or
      anything if the statement has not begun. */
  predicate IsLineNote(text: string, d: string, empty: bool) {
    && NUL !in text && !(d <= text)
    && (|| At(text, 0) == '#'
        || (At(text, 0) == '-' && At(text, 1) == '-' && (|text| == 2 || IsSpace(text[2]) || empty)))
  }

  /** A comment right behind a delimiter. */
  predicate IsTrailingNote(note: string, d: string) {
    && NUL !in note && !(d <= note)
    && (At(note, 0) == '#' || (At(note, 0) == '-' && At(note, 1) == '-' && IsSpace(At(note, 2))))
  }

  predicate ValidInner(body: string, m: Mode) {
    match m
    case Outside => false
    case Within(_) => NUL !in body
    case Commented => InnerNote(body)
  }

  /** A line, or its rest, inside a comment that it does not close. */
  predicate InnerNote(body: string) {
    forall i :: 0 <= i < |body| ==> NoteChar(body[i], At(body, i + 1))
  }

  predicate ValidHead(head: string, m: Mode) {
    match m
    case Outside => true
    case Within(_) => NUL !in head
    case Commented => LastNote(head)
  }

  ghost predicate ValidTail(e: Env, tail: Tail, inVersion: bool, s: State, d: string) {
    match tail
    case Closed => true
    case Opens(quote, body) => IsQuote(quote) && NUL !in body
    case OpensNote(body) => InnerNote(body) && !IsVersion(body) && !inVersion
    case LineNote(text) => IsLineNote(text, d, s.text == "")
    case Ends(space, note) =>
      && Spaces(space) && IsTrailingNote(note, d)
      && FindName(e, CString(s.text + if s.keep then space + note else ""), d) == None
    case Short(letter, params, ended, items, rest) =>
      && letter != NUL && letter != 'N' && FindLetter(e, letter).Some?
      && var command := FindLetter(e, letter).value;
      && var s1 := Ordered(s, command, TailText(tail, d));
      && command.func != ComDelimiter && command.func != ComQuit && (command.func == ComClear || Calm(e))
      && Takes(command, params, ended, inVersion, d, PrintAll(items, d) + TailText(rest, d))
      && ValidItems(items, inVersion, d, s.keep, TailText(rest, d)) && AllQueries(e, items, s1, d)
      && ValidTail(e, rest, VersionAfterAll(items, inVersion), EffectAll(items, s1), d)
  }

  /** The line ends in code. */
  predicate EndsInCode(tail: Tail) {
    tail.Closed? || (tail.Short? && EndsInCode(tail.tail))
  }

  ghost predicate ValidRow(e: Env, row: Row, m: Mode, s: State, d: string) {
    match row
    case Inner(body) => ValidInner(body, m)
    case Row(head, items, tail) =>
      && ValidHead(head, m) && ValidItems(items, false, d, s.keep, TailText(tail, d))
      && AllQueries(e, items, HeadEffect(head, m, s), d)
      && ValidTail(e, tail, VersionAfterAll(items, false), EffectAll(items, HeadEffect(head, m, s)), d)
      && (EndsInCode(tail) ==> NoDelimiterCommand(e, RowEffect(e, row, m, s, d).text))
  }

  ghost predicate ValidRows(e: Env, rows: seq<Row>, m: Mode, s: State, d: string)
    decreases |rows|
  {
    rows != [] ==>
    var m' := ModeAfter(rows[0], m);
    && ValidRow(e, rows[0], m, s, d)
    && ValidRows(e, rows[1..], m', Newline(RowEffect(e, rows[0], m, s, d), m'), d)
  }

  function RowsText(rows: seq<Row>, m: Mode, d: string): seq<string>
    decreases |rows|
  {
    if rows == [] then [] else [RowText(rows[0], m, d)] + RowsText(rows[1..], ModeAfter(rows[0], m), d)
  }

  function RowsEffect(e: Env, rows: seq<Row>, m: Mode, s: State, d: string): State
    decreases |rows|
  {
    if rows == [] then s else
    var m' := ModeAfter(rows[0], m);
    RowsEffect(e, rows[1..], m', Newline(RowEffect(e, rows[0], m, s, d), m'), d)
  }

  /** add_line over the lines of a script. */
  function AddLines(e: Env, k: Carry, lines: seq<string>): (r: Line)
    requires ValidCarry(k)
    decreases |lines|
  {
    if lines == [] then Line(k, false) else
    var r := AddLine(e, k, lines[0], false);
    if r.quit then r else AddLines(e, r.carry, lines[1..])
  }

  /** The carried state is the reference state, with `m` open. */
  predicate Carries(k: Carry, s: State, m: Mode, d: string) {
    && k.client.delimiter == d && !k.client.ansiQuotes && !k.client.noBackslash
    && k.inString == (if m.Within? then m.quote else NUL) && k.mlComment == m.Commented?
    && s == State(k.client.buffer, false, k.client.sent, s.keep)
    && (m.Within? ==> IsQuote(m.quote) && s.text != "")
  }

  predicate InMode(c: Core, m: Mode, d: string) {
    match m
    case Outside => InCode(c, d)
    case Within(quote) => InQuote(c, d, quote)
    case Commented => InNote(c, d)
  }

  lemma ScanHead(e: Env, d: string, c: Core, head: string, m: Mode, rest: string) returns (c': Core, out': string)
    requires ClearDelimiter(d) && InMode(c, m, d) && ValidHead(head, m) && !c.ssComment
    requires m.Within? ==> IsQuote(m.quote) && c.client.buffer != ""
    ensures ValidCore(c') && InCode(c', d) && !c'.ssComment
    ensures Scan(e, c, "", HeadText(head, m) + rest) == Scan(e, c', out', rest)
    ensures Abstract(e, c', out') == HeadEffect(head, m, Abstract(e, c, ""))
  {
    match m
    case Outside =>
      assert HeadText(head, m) + rest == rest;
      c', out' := c, "";
    case Within(quote) => c', out' := ScanStringHead(e, d, c, head, quote, rest);
    case Commented => c', out' := ScanNoteBody(e, d, c, "", head, rest);
  }

  lemma ScanStringHead(e: Env, d: string, c: Core, head: string, quote: char, rest: string) returns (c': Core, out': string)
    requires ClearDelimiter(d) && InQuote(c, d, quote) && NUL !in head && !c.ssComment
    requires IsQuote(quote) && c.client.buffer != ""
    ensures ValidCore(c') && InCode(c', d) && !c'.ssComment
    ensures Scan(e, c, "", HeadText(head, Within(quote)) + rest) == Scan(e, c', out', rest)
    ensures Abstract(e, c', out') == HeadEffect(head, Within(quote), Abstract(e, c, ""))
  {
    var t := Escaped(head, quote);
    assert HeadText(head, Within(quote)) + rest == t + ([quote] + rest);
    assert c.client.buffer + "" == c.client.buffer && "" + t == t;
    ScanBody(e, d, c, "", quote, head, [quote] + rest);
    ScanClose(e, d, c, t, quote, rest);
    HeadAbstract(e, c, t, quote);
    c', out' := c.(inString := NUL), t + [quote];
  }

  lemma HeadAbstract(e: Env, c: Core, t: string, quote: char)
    ensures Abstract(e, c.(inString := NUL), t + [quote]) ==
      Abstract(e, c, "").(text := Abstract(e, c, "").text + (t + [quote]))
  {
    assert c.client.buffer + "" == c.client.buffer;
  }

  /** The scan of a line ended without quitting. */
  ghost predicate Ended(s: Scanned, c: Core, out: string) {
    s == Scanned(c, out, s.status, false) && s.status != Quit
  }

  /** A scan that ended, as the reference has it, with `m` open. */
  ghost predicate EndsAs(e: Env, sc: Scanned, c: Core, out: string, s: State, m: Mode, d: string, inCode: bool) {
    && Ended(sc, c, out) && ValidCore(c) && InMode(c, m, d)
    && c.client.buffer + out == s.text && c.client.sent == s.sent
    && (m.Commented? && out != "" ==> e.preserveComments) && (m.Outside? && out != "" ==> inCode)
    && (m.Within? ==> IsQuote(m.quote) && s.text != "")
  }

  lemma ScanOpens(e: Env, d: string, c: Core, out: string, quote: char, body: string) returns (c': Core, out': string)
    requires ClearDelimiter(d) && InCode(c, d) && IsQuote(quote) && NUL !in body
    ensures EndsAs(e, Scan(e, c, out, TailText(Opens(quote, body), d)), c', out',
                   TailEffect(e, Opens(quote, body), Abstract(e, c, out), d), Within(quote), d, false)
  {
    var t := Escaped(body, quote);
    c', out' := OneChar(e, d, c, out, quote, t);
    assert t + "" == t;
    ScanBody(e, d, c', out', quote, body, "");
    AbstractAppend(e, c', out', t);
    out' := out' + t;
  }

  lemma ScanOpensNote(e: Env, d: string, c: Core, out: string, body: string) returns (c': Core, out': string)
    requires ClearDelimiter(d) && InCode(c, d) && InnerNote(body) && !IsVersion(body) && !c.ssComment
    ensures EndsAs(e, Scan(e, c, out, "/*" + body), c', out', InNoteText(OpenNote(Abstract(e, c, out)), body), Commented, d, false)
  {
    c', out' := ScanOpening(e, d, c, out, body);
    c', out' := ScanInnerNote(e, d, c', out', body);
  }

  lemma ScanInnerNote(e: Env, d: string, c: Core, out: string, body: string) returns (c': Core, out': string)
    requires ClearDelimiter(d) && InNote(c, d) && InnerNote(body) && (out == "" || e.preserveComments)
    ensures EndsAs(e, Scan(e, c, out, body), c', out', InNoteText(Abstract(e, c, out), body), Commented, d, false)
  {
    assert body + "" == body;
    c', out' := ScanNoteText(e, d, c, out, body, "");
  }

  lemma ScanLineNote(e: Env, d: string, c: Core, out: string, text: string) returns (c': Core, out': string)
    requires Quiet(e, d) && ClearDelimiter(d) && InCode(c, d) && IsLineNote(text, d, c.client.buffer + out == "")
    ensures EndsAs(e, Scan(e, c, out, text), c', out', NotesLine(Abstract(e, c, out), text), Outside, d, false)
  {
    LineNoteKind(e, d, c, out, text);
    var s := LineNoteStep(e, d, c, out, text);
    c', out' := s.core, "";
    assert c'.client.buffer + "" == c'.client.buffer;
  }

  lemma LineNoteKind(e: Env, d: string, c: Core, out: string, text: string)
    requires ClearDelimiter(d) && InCode(c, d) && IsLineNote(text, d, c.client.buffer + out == "")
    ensures KindOf(e, c, out, text) == Comment
  {
    assert c.client.buffer + out == "" ==> c.client.buffer == "" && out == "";
  }

  lemma LineNoteStep(e: Env, d: string, c: Core, out: string, text: string) returns (s: Step)
    requires Quiet(e, d) && ClearDelimiter(d) && InCode(c, d) && NUL !in text && text != ""
    ensures s == LineCommentStep(e, c, out, text) && s.status == Stop && s.out == "" && InCode(s.core, d)
    ensures var t := NotesLine(Abstract(e, c, out), text); s.core.client.buffer == t.text && s.core.client.sent == t.sent
  {
    CStringWhole(text);
    s := LineCommentStep(e, c, out, text);
    var b := c.client.buffer + out;
    assert b == "" ==> b + text == text;
  }

  /** A delimiter with a comment right behind it. */
  lemma ScanEnds(e: Env, d: string, c: Core, out: string, space: string, note: string) returns (c': Core, out': string)
    requires Quiet(e, d) && ClearDelimiter(d) && InCode(c, d) && Spaces(space) && IsTrailingNote(note, d)
    requires FindName(e, CString(c.client.buffer + out + if e.preserveComments then space + note else ""), d) == None
    ensures EndsAs(e, Scan(e, c, out, d + (space + note)), c', out', Sends(Abstract(e, c, out), space + note), Outside, d, false)
  {
    var after := space + note;
    TrailingNoteIs(e, d, space, note);
    var s := DelimiterDone(e, d, c, out, if e.preserveComments then after else "", after);
    var line := d + after;
    assert line[|d|..] == after && c.client.buffer + out + "" == c.client.buffer + out;
    if e.preserveComments {
      assert line[s.n..] == "";
      Unfold(e, c, out, line, s, "");
      c', out' := s.core, "";
    } else {
      Unfold(e, c, out, line, s, after);
      ScanSpaces(e, s.core, space, note);
      c', out' := ScanLineNote(e, d, s.core, "", note);
    }
  }

  lemma TrailingNoteIs(e: Env, d: string, space: string, note: string)
    requires Spaces(space) && IsTrailingNote(note, d)
    ensures TrailingText(e, space + note) == if e.preserveComments then space + note else ""
  {
    if e.preserveComments {
      SpaceTextIs(space, note);
      assert (space + note)[|space|..] == note;
      CStringWhole(note);
    }
  }

  lemma {:induction false} ScanTail(e: Env, d: string, c: Core, out: string, tail: Tail) returns (c': Core, out': string)
    requires Quiet(e, d) && ClearDelimiter(d) && InCode(c, d) && ValidTail(e, tail, c.ssComment, Abstract(e, c, out), d)
    ensures EndsAs(e, Scan(e, c, out, TailText(tail, d)), c', out', TailEffect(e, tail, Abstract(e, c, out), d),
                   TailMode(tail), d, EndsInCode(tail))
    decreases tail
  {
    match tail
    case Closed => c', out' := c, out;
    case Opens(quote, body) => c', out' := ScanOpens(e, d, c, out, quote, body);
    case OpensNote(body) => c', out' := ScanOpensNote(e, d, c, out, body);
    case LineNote(text) => c', out' := ScanLineNote(e, d, c, out, text);
    case Ends(space, note) => c', out' := ScanEnds(e, d, c, out, space, note);
    case Short(_, _, _, _, rest) =>
      c', out' := ScanShortItems(e, d, c, out, tail);
      c', out' := ScanTail(e, d, c', out', rest);
  }

  /** A short command and the items behind it. */
  lemma ScanShortItems(e: Env, d: string, c: Core, out: string, tail: Tail) returns (c': Core, out': string)
    requires Quiet(e, d) && ClearDelimiter(d) && InCode(c, d)
    requires tail.Short? && ValidTail(e, tail, c.ssComment, Abstract(e, c, out), d)
    ensures ValidCore(c') && InCode(c', d) && Scan(e, c, out, TailText(tail, d)) == Scan(e, c', out', TailText(tail.tail, d))
    ensures ValidTail(e, tail.tail, c'.ssComment, Abstract(e, c', out'), d)
    ensures TailEffect(e, tail, Abstract(e, c, out), d) == TailEffect(e, tail.tail, Abstract(e, c', out'), d)
  {
    var items, rest, command := tail.items, tail.tail, FindLetter(e, tail.letter).value;
    var s1 := Ordered(Abstract(e, c, out), command, TailText(tail, d));
    PrintAllNulFree(items, c.ssComment, d, e.preserveComments, TailText(rest, d));
    TailNulFree(e, rest, VersionAfterAll(items, c.ssComment), EffectAll(items, s1), d);
    c' := ScanShort(e, d, c, out, tail.letter, tail.params, tail.ended, PrintAll(items, d) + TailText(rest, d), command);
    c', out' := ScanItems(e, d, c', "", items, TailText(rest, d));
  }

  lemma ScanRow(e: Env, d: string, c: Core, row: Row, m: Mode) returns (c': Core, out': string)
    requires Quiet(e, d) && ClearDelimiter(d) && InMode(c, m, d) && !c.ssComment
    requires m.Within? ==> IsQuote(m.quote) && c.client.buffer != ""
    requires ValidRow(e, row, m, Abstract(e, c, ""), d)
    ensures EndsAs(e, Scan(e, c, "", RowText(row, m, d)), c', out', RowEffect(e, row, m, Abstract(e, c, ""), d),
                   ModeAfter(row, m), d, row.Row? && EndsInCode(row.tail))
  {
    match row
    case Inner(body) =>
      assert c.client.buffer + "" == c.client.buffer;
      if m.Within? {
        var t := Escaped(body, m.quote);
        assert t + "" == t && "" + t == t;
        ScanBody(e, d, c, "", m.quote, body, "");
        c', out' := c, t;
      } else {
        c', out' := ScanInnerNote(e, d, c, "", body);
      }
    case Row(head, items, tail) =>
      c', out' := ScanHead(e, d, c, head, m, PrintAll(items, d) + TailText(tail, d));
      c', out' := ScanItems(e, d, c', out', items, TailText(tail, d));
      c', out' := ScanTail(e, d, c', out', tail);
  }

  lemma PrintNulFree(item: Item, d: string)
    requires Printable(item, d) && ClearDelimiter(d)
    ensures NUL !in Print(item, d)
  {
    match item
    case Word(text) => assert forall i :: 0 <= i < |text| ==> Ordinary(text[i..], d) && text[i..][0] == text[i];
    case Quoted(quote, body) => EscapedNulFree(body, quote);
    case Note(body) => assert forall i :: 0 <= i < |body| ==> NoteChar(body[i], At(body + "*/", i + 1));
    case Version(_) =>
    case EndVersion =>
    case Slash(_) =>
    case End(_) =>
  }

  lemma {:induction false} PrintAllNulFree(items: seq<Item>, inVersion: bool, d: string, keep: bool, after: string)
    requires ClearDelimiter(d) && ValidItems(items, inVersion, d, keep, after)
    ensures NUL !in PrintAll(items, d)
    decreases |items|
  {
    if items != [] {
      PrintNulFree(items[0], d);
      PrintAllNulFree(items[1..], VersionAfter(items[0], inVersion), d, keep, after);
    }
  }

  lemma {:induction false} TailNulFree(e: Env, tail: Tail, inVersion: bool, s: State, d: string)
    requires ClearDelimiter(d) && ValidTail(e, tail, inVersion, s, d)
    ensures NUL !in TailText(tail, d)
    decreases tail
  {
    match tail
    case Closed =>
    case Opens(quote, body) => EscapedNulFree(body, quote);
    case OpensNote(body) => NoteNulFree(body, body);
    case LineNote(_) =>
    case Ends(_, _) =>
    case Short(letter, params, ended, items, rest) =>
      var s1 := Ordered(s, FindLetter(e, letter).value, TailText(tail, d));
      PrintAllNulFree(items, inVersion, d, s.keep, TailText(rest, d));
      TailNulFree(e, rest, VersionAfterAll(items, inVersion), EffectAll(items, s1), d);
  }

  lemma RowNulFree(e: Env, row: Row, m: Mode, s: State, d: string)
    requires ClearDelimiter(d) && ValidRow(e, row, m, s, d) && (m.Within? ==> IsQuote(m.quote))
    ensures NUL !in RowText(row, m, d)
  {
    match row
    case Inner(body) => InnerNulFree(body, m);
    case Row(head, items, tail) =>
      HeadNulFree(head, m);
      PrintAllNulFree(items, false, d, s.keep, TailText(tail, d));
      TailNulFree(e, tail, VersionAfterAll(items, false), EffectAll(items, HeadEffect(head, m, s)), d);
  }

  lemma NoteNulFree(body: string, full: string)
    requires forall i :: 0 <= i < |body| ==> NoteChar(body[i], At(full, i + 1))
    ensures NUL !in body
  {
  }

  lemma InnerNulFree(body: string, m: Mode)
    requires ValidInner(body, m)
    ensures NUL !in InnerText(body, m)
  {
    if m.Within? { EscapedNulFree(body, m.quote); } else { NoteNulFree(body, body); }
  }

  lemma HeadNulFree(head: string, m: Mode)
    requires ValidHead(head, m) && (m.Within? ==> IsQuote(m.quote))
    ensures NUL !in HeadText(head, m)
  {
    if m.Within? { EscapedNulFree(head, m.quote); }
    if m.Commented? { NoteNulFree(head, head + "*/"); }
  }

  lemma AddLineIs(e: Env, k: Carry, line: string, truncated: bool, c: Core, out: string)
    requires ValidCarry(k) && NUL !in line && Ended(Scan(e, StartCore(k), "", line), c, out)
    ensures AddLine(e, k, line, truncated) == Line(Finish(e, c, out, truncated), false)
  {
    if Ignored(k, line) { assert line == ""; }
  }

  /** One line, from any carried state: the statements its items end go out, and
      the rest is carried on, without a newline if the line was cut there. */
  lemma AddRow(e: Env, d: string, k: Carry, row: Row, m: Mode, s: State, truncated: bool)
    requires Quiet(e, d) && ClearDelimiter(d) && Carries(k, s, m, d) && s.keep == e.preserveComments
    requires ValidRow(e, row, m, s, d)
    ensures var r := AddLine(e, k, RowText(row, m, d), truncated);
      var m' := ModeAfter(row, m);
      !r.quit && Carries(r.carry, LineEnd(RowEffect(e, row, m, s, d), m', truncated), m', d)
  {
    RowNulFree(e, row, m, s, d);
    StartIs(e, k, s, m, d);
    var c', out' := ScanRow(e, d, StartCore(k), row, m);
    AddLineIs(e, k, RowText(row, m, d), truncated, c', out');
    KeepsKeep(e, row, m, s, d);
    FinishRow(e, c', out', ModeAfter(row, m), d, RowEffect(e, row, m, s, d), truncated);
  }

  lemma StartIs(e: Env, k: Carry, s: State, m: Mode, d: string)
    requires Carries(k, s, m, d) && s.keep == e.preserveComments
    ensures var c := StartCore(k); InMode(c, m, d) && !c.ssComment && c.client == k.client && Abstract(e, c, "") == s
  {
    assert k.client.buffer + "" == k.client.buffer;
  }

  /** Whether comments are kept does not change. */
  lemma {:induction false} EmitKeep(s: State, t: string)
    ensures EmitAll(s, t).keep == s.keep
    decreases |t|
  {
    if t != "" { EmitKeep(Emit(s, t[0]), t[1..]); }
  }

  lemma {:induction false} EffectKeep(items: seq<Item>, s: State)
    ensures EffectAll(items, s).keep == s.keep
    decreases |items|
  {
    if items != [] {
      match items[0] {
        case Word(text) => EmitKeep(s, text);
        case Quoted(_, _) =>
        case Note(body) => EmitKeep(OpenNote(s), body);
        case Version(maria) => EmitKeep(s, VersionMark(maria));
        case EndVersion => EmitKeep(s, "*/");
        case Slash(_) =>
        case End(_) =>
      }
      EffectKeep(items[1..], Effect(items[0], s));
    }
  }

  lemma {:induction false} TailKeep(e: Env, tail: Tail, s: State, d: string)
    ensures TailEffect(e, tail, s, d).keep == s.keep
    decreases tail
  {
    match tail
    case Closed =>
    case Opens(_, _) =>
    case OpensNote(body) => EmitKeep(OpenNote(s), body);
    case LineNote(_) =>
    case Ends(_, _) =>
    case Short(letter, _, _, items, rest) =>
      match FindLetter(e, letter)
      case None =>
      case Some(command) =>
        var s1 := Ordered(s, command, TailText(tail, d));
        EffectKeep(items, s1);
        TailKeep(e, rest, EffectAll(items, s1), d);
  }

  lemma KeepsKeep(e: Env, row: Row, m: Mode, s: State, d: string)
    ensures RowEffect(e, row, m, s, d).keep == s.keep
  {
    match row
    case Inner(body) => EmitKeep(s, body);
    case Row(head, items, tail) =>
      EmitKeep(s, head);
      EffectKeep(items, HeadEffect(head, m, s));
      TailKeep(e, tail, EffectAll(items, HeadEffect(head, m, s)), d);
  }

  lemma FinishRow(e: Env, c: Core, out: string, m: Mode, d: string, s: State, truncated: bool)
    requires InMode(c, m, d) && s.keep == e.preserveComments && (m.Within? ==> IsQuote(m.quote) && s.text != "")
    requires s.text == c.client.buffer + out && s.sent == c.client.sent
    requires m.Outside? ==> out == "" || NoDelimiterCommand(e, s.text)
    requires m.Commented? ==> out == "" || e.preserveComments
    ensures Carries(Finish(e, c, out, truncated), LineEnd(s, m, truncated), m, d)
  {
    assert s.text[|c.client.buffer|..] == out;
    assert c.client.buffer + (out + "\n") == s.text + "\n";
    assert c.client.buffer + "" == c.client.buffer;
  }

  /** Splitting undoes printing, over whole scripts: whatever strings and comments
      contain, and however they are spread over lines, the client dispatches exactly
      the statements of the script, in order, and keeps exactly what is unfinished. */
  lemma {:induction false} ScriptSplits(e: Env, d: string, k: Carry, rows: seq<Row>, m: Mode, s: State)
    requires Quiet(e, d) && ClearDelimiter(d) && Carries(k, s, m, d) && s.keep == e.preserveComments
    requires ValidRows(e, rows, m, s, d)
    ensures var r := AddLines(e, k, RowsText(rows, m, d));
      && !r.quit
      && r.carry.client.sent == RowsEffect(e, rows, m, s, d).sent
      && r.carry.client.buffer == RowsEffect(e, rows, m, s, d).text
    decreases |rows|
  {
    if rows != [] {
      var m' := ModeAfter(rows[0], m);
      AddRow(e, d, k, rows[0], m, s, false);
      KeepsKeep(e, rows[0], m, s, d);
      var r := AddLine(e, k, RowText(rows[0], m, d), false);
      assert RowsText(rows, m, d)[1..] == RowsText(rows[1..], m', d);
      ScriptSplits(e, d, r.carry, rows[1..], m', Newline(RowEffect(e, rows[0], m, s, d), m'));
    }
  }

  // ------------------------------------------------------------ a DELIMITER command in the text

  /** No newline follows a line of code that starts with `delimiter`, in any case, so that the
      client can still find the command there. */
  lemma DelimiterLine(e: Env, d: string, k: Carry, text: string)
    requires ClearDelimiter(d) && Carries(k, State(k.client.buffer, false, k.client.sent, e.preserveComments), Outside, d)
    requires Printable(Word(text), d) && text != "" && !IsSpace(text[0]) && text[0] != '-'
    ensures var starts := |text| >= 9 && forall i :: 0 <= i < 9 ==> e.fold(text[i]) == e.fold("delimiter"[i]);
      var r := AddLine(e, k, text, false);
      !r.quit && r.carry == k.(client := k.client.(buffer := k.client.buffer + if starts then text else text + "\n"))
  {
    var c, s := StartCore(k), State(k.client.buffer, false, k.client.sent, e.preserveComments);
    StartIs(e, k, s, Outside, d);
    assert text + "" == text && k.client.buffer + "" == k.client.buffer;
    OneWordScan(e, d, c, text);
    PrintNulFree(Word(text), d);
    AddLineIs(e, k, text, false, c, text);
  }

  lemma OneWordScan(e: Env, d: string, c: Core, text: string)
    requires ClearDelimiter(d) && InCode(c, d) && !c.ssComment && !c.needSpace
    requires Printable(Word(text), d) && text != "" && !IsSpace(text[0]) && text[0] != '-'
    ensures Ended(Scan(e, c, "", text), c, text)
  {
    var s := Abstract(e, c, "");
    assert c.client.buffer + "" == c.client.buffer && text + "" == text;
    LateDashes(s, text);
    var c', out' := ScanWord(e, d, c, "", text, "");
    EmitAllKeeps(s, text);
    assert c'.client.buffer + out' == c.client.buffer + text;
    assert out' == (c.client.buffer + out')[|c.client.buffer|..] == (c.client.buffer + text)[|c.client.buffer|..];
  }

  lemma {:induction false} LateDashes(s: State, t: string)
    requires s.text != "" || (t != "" && !IsSpace(t[0]) && t[0] != '-')
    ensures !StartsNote(s, t)
    decreases |t|
  {
    if t != "" { LateDashes(Emit(s, t[0]), t[1..]); }
  }

  // ------------------------------------------------------------ strings under other quoting rules

  /** A backslash escapes in strings, but not between backticks, nor between double quotes
      under ANSI_QUOTES, nor anywhere under NO_BACKSLASH_ESCAPES. */
  predicate Escapes(client: Client, quote: char) {
    !client.noBackslash && quote != '`' && !(quote == '"' && client.ansiQuotes)
  }

  function CharUnder(client: Client, x: char, quote: char): (t: string)
    ensures t != ""
  {
    if x == quote || (x == '\\' && Escapes(client, quote)) then [x, x] else [x]
  }

  function EscapedUnder(client: Client, body: string, quote: char): string {
    if body == "" then "" else CharUnder(client, body[0], quote) + EscapedUnder(client, body[1..], quote)
  }

  /** Under all rules, a string written by them is one unit. */
  lemma {:induction false} StringUnder(e: Env, c: Core, out: string, quote: char, body: string, rest: string)
    requires ValidCore(c) && c.inString == quote && IsQuote(quote) && !c.mlComment && !c.needSpace
    requires NUL !in body && out != "" && ClearDelimiter(c.client.delimiter)
    ensures Scan(e, c, out, EscapedUnder(c.client, body, quote) + ([quote] + rest)) ==
      Scan(e, c.(inString := NUL), out + EscapedUnder(c.client, body, quote) + [quote], rest)
    decreases |body|
  {
    if body == "" {
      var line := [quote] + rest;
      assert "" + line == line && out + "" == out;
      CloseUnder(e, c, out, quote, rest);
    } else {
      var t, tail := CharUnder(c.client, body[0], quote), EscapedUnder(c.client, body[1..], quote);
      Regroup(out, t, tail, [quote] + rest);
      ScanCharUnder(e, c, out, quote, body[0], tail + ([quote] + rest));
      StringUnder(e, c, out + t, quote, body[1..], rest);
    }
  }

  lemma CloseUnder(e: Env, c: Core, out: string, quote: char, rest: string)
    requires ValidCore(c) && c.inString == quote && IsQuote(quote) && !c.mlComment && !c.needSpace && out != ""
    ensures Scan(e, c, out, [quote] + rest) == Scan(e, c.(inString := NUL), out + [quote], rest)
  {
    var line := [quote] + rest;
    assert KindOf(e, c, out, line) == Plain;
    Unfold(e, c, out, line, Next(e, c, out, line), rest);
  }

  lemma ScanCharUnder(e: Env, c: Core, out: string, quote: char, x: char, rest: string)
    requires ValidCore(c) && c.inString == quote && IsQuote(quote) && !c.mlComment && !c.needSpace
    requires x != NUL && out != "" && ClearDelimiter(c.client.delimiter)
    ensures var t := CharUnder(c.client, x, quote); Scan(e, c, out, t + rest) == Scan(e, c, out + t, rest)
  {
    var t := CharUnder(c.client, x, quote);
    if x == quote {
      DoubledUnder(e, c, out, x, rest);
    } else {
      var line := t + rest;
      assert line[|t|..] == rest && At(line, 0) == x && (|t| == 2 ==> At(line, 1) == x);
      Unfold(e, c, out, line, Next(e, c, out, line), rest);
    }
  }

  lemma DoubledUnder(e: Env, c: Core, out: string, x: char, rest: string)
    requires ValidCore(c) && c.inString == x && IsQuote(x) && !c.mlComment && !c.needSpace
    requires out != "" && ClearDelimiter(c.client.delimiter)
    ensures Scan(e, c, out, [x, x] + rest) == Scan(e, c, out + [x, x], rest)
  {
    assert [x, x] + rest == [x] + ([x] + rest) && out + [x] + [x] == out + [x, x];
    CloseUnder(e, c, out, x, [x] + rest);
    OpenUnder(e, c.(inString := NUL), out + [x], x, rest);
  }

  lemma OpenUnder(e: Env, c: Core, out: string, x: char, rest: string)
    requires ValidCore(c) && c.inString == NUL && IsQuote(x) && !c.mlComment && !c.needSpace
    requires out != "" && ClearDelimiter(c.client.delimiter)
    ensures Scan(e, c, out, [x] + rest) == Scan(e, c.(inString := x), out + [x], rest)
  {
    var line := [x] + rest;
    assert KindOf(e, c, out, line) == Plain;
    Unfold(e, c, out, line, Next(e, c, out, line), rest);
  }
}
