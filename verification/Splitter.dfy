/** The statement splitter of the mysql client (client/mysql.cc), as a pure
    scanner: what one input line does to the statement buffer, to the lexical
    state carried to the next line, and which statements and client commands it
    dispatches. `InPlace` refines it on a mutable line. */
module Splitter {
  import opened Text
  import ArgParser

  /** The function a command runs, where the client's own state depends on it. */
  datatype Function = ComDelimiter | ComClear | ComQuit | ComOther

  datatype Command = Command(name: string, letter: char, func: Function, takesParams: bool)

  /** What the client hands to the outside, in order: a statement for the server
      (com_go), a client command with its text, or a complaint about `\c`. */
  datatype Event =
    | Query(text: string)
    | Run(command: Command, text: string, buffer: string)
    | Unknown(letter: char)

  /** The outside's answer to the latest event: fatal or not, and the state that
      a command function may have changed. */
  datatype Reply = Reply(fatal: bool, buffer: string, delimiter: string, ansiQuotes: bool, noBackslash: bool)

  /** Options, the command table, the collation's folding of command names, and
      the outside world as an arbitrary function of everything sent to it. */
  datatype Env = Env(
    preserveComments: bool,
    binaryMode: bool,
    table: seq<Command>,
    fold: char -> char,
    world: seq<Event> -> Reply)

  datatype Client = Client(
    buffer: string,
    delimiter: string,
    ansiQuotes: bool,
    noBackslash: bool,
    sent: seq<Event>)

  /** Delimiters are non-empty, backslash-free C strings of at most 15 bytes. */
  predicate ValidDelimiter(d: string) {
    0 < |d| <= 15 && '\\' !in d && NUL !in d
  }

  // ---------------------------------------------------------------- commands

  function FindLetterIn(table: seq<Command>, c: char): Option<Command> {
    if table == [] then None
    else if table[0].letter == c then Some(table[0])
    else FindLetterIn(table[1..], c)
  }

  /** find_command(char): in binary mode only `\C` is a command. */
  function FindLetter(e: Env, c: char): Option<Command> {
    if e.binaryMode && c != 'C' then None else FindLetterIn(e.table, c)
  }

  predicate SameName(e: Env, s: string, t: string) {
    |s| == |t| && forall i :: 0 <= i < |s| ==> e.fold(s[i]) == e.fold(t[i])
  }

  const DELIMITER_NAME := "delimiter"

  predicate IsDelimiterCommand(e: Env, s: string) {
    |s| >= 9 && SameName(e, s[..9], DELIMITER_NAME)
  }

  predicate Contains(s: string, t: string) {
    exists i :: 0 <= i <= |s| && PrefixAt(s, i, t)
  }

  /** The command name ends at the first blank or tab. */
  function NameLength(s: string): (n: nat)
    ensures n <= |s|
  {
    if s == "" || s[0] == ' ' || s[0] == '\t' then 0 else 1 + NameLength(s[1..])
  }

  lemma {:induction false} NameEnds(s: string, n: nat)
    requires n < |s| && s[n] == ' ' && forall i :: 0 <= i < n ==> s[i] != ' ' && s[i] != '\t'
    ensures NameLength(s) == n
  {
    if n > 0 { NameEnds(s[1..], n - 1); }
  }

  predicate HasArgument(s: string) {
    ArgParser.WellFormedLine(s) && ArgParser.Argument(s).Some?
  }

  function FindNameIn(e: Env, table: seq<Command>, s: string): Option<Command> {
    if table == [] then None else
    var n := NameLength(s);
    if SameName(e, s[..n], table[0].name) &&
       (DropSpaces(s[n..]) == "" || (table[0].takesParams && HasArgument(s)))
    then Some(table[0])
    else FindNameIn(e, table[1..], s)
  }

  /** find_command(char*): the long form of a command. */
  function FindName(e: Env, text: string, delimiter: string): Option<Command> {
    var s := DropSpaces(text);
    if (!e.binaryMode && Contains(s, "\\g")) ||
       (Contains(s, delimiter) && !IsDelimiterCommand(e, s)) then None
    else if e.binaryMode then
      if IsDelimiterCommand(e, s[..NameLength(s)]) then FindLetterIn(e.table, 'd') else None
    else FindNameIn(e, e.table, s)
  }

  function Truncate(s: string, n: nat): string {
    if |s| <= n then s else s[..n]
  }

  /** com_delimiter: an empty argument or one with a backslash is refused. */
  function NewDelimiter(current: string, text: string): (d: string)
    requires ValidDelimiter(current)
    ensures ValidDelimiter(d)
  {
    var line := CString(Truncate(text, 255));
    if !HasArgument(line) then current else
    var arg := CString(ArgParser.Argument(line).value);
    CStringFree(ArgParser.Argument(line).value);
    if arg == "" || '\\' in arg then current else Truncate(arg, 15)
  }

  lemma {:induction false} CStringWhole(s: string)
    requires NUL !in s
    ensures CString(s) == s
  {
    if s != "" { CStringWhole(s[1..]); }
  }

  /** A delimiter given in quotes is set, cut to 15 bytes; with a backslash in it, the old one
      stays. */
  lemma DelimiterSet(current: string, command: string, x: string, quote: char)
    requires ValidDelimiter(current) && IsQuote(quote) && x != "" && NUL !in x
    requires ArgParser.LongCommand(command) && NUL !in command
    requires |command + " " + [quote] + Escaped(x, quote) + [quote]| <= 255
    ensures NewDelimiter(current, command + " " + [quote] + Escaped(x, quote) + [quote]) ==
      if '\\' in x then current else Truncate(x, 15)
  {
    var text := command + " " + [quote] + Escaped(x, quote) + [quote];
    EscapedNulFree(x, quote);
    assert text + "" == text;
    ArgParser.ArgumentRoundTrip(command, x, quote, "");
    DelimiterIs(current, text, x);
  }

  /** Of a longer line, the first 255 bytes count. */
  lemma DelimiterLongLine(current: string, text: string)
    requires ValidDelimiter(current) && |text| > 255
    ensures NewDelimiter(current, text) == NewDelimiter(current, text[..255])
  {
    assert text[..255][..|text[..255]|] == text[..255];
  }

  /** So is one given without quotes, up to a blank. */
  lemma DelimiterBare(current: string, command: string, x: string, tail: string)
    requires ValidDelimiter(current) && ArgParser.LongCommand(command) && NUL !in command
    requires x != "" && !IsQuote(x[0]) && !IsSpace(x[0]) && '\\' !in x && ' ' !in x && NUL !in x
    requires NUL !in tail && (tail == "" || tail[0] == ' ') && |command + (" " + (x + tail))| <= 255
    ensures NewDelimiter(current, command + (" " + (x + tail))) == Truncate(x, 15)
  {
    ArgParser.BareArgument(command, x, tail);
    DelimiterIs(current, command + (" " + (x + tail)), x);
  }

  lemma DelimiterIs(current: string, text: string, x: string)
    requires ValidDelimiter(current) && NUL !in text && |text| <= 255 && x != "" && NUL !in x
    requires ArgParser.WellFormedLine(text) && ArgParser.Argument(text) == Some(x)
    ensures NewDelimiter(current, text) == if '\\' in x then current else Truncate(x, 15)
  {
    CStringWhole(text);
    CStringWhole(x);
  }

  datatype Outcome = Outcome(client: Client, fatal: bool)

  /** Dispatch one event. DELIMITER, CLEAR and QUIT are the client's own; every other
      command, and the server, may do what the world says. */
  function Perform(e: Env, c: Client, ev: Event): (r: Outcome)
    requires ValidDelimiter(c.delimiter)
    ensures ValidDelimiter(r.client.delimiter)
    ensures r.client.sent == c.sent + [ev]
  {
    var c' := c.(sent := c.sent + [ev]);
    var reply := e.world(c'.sent);
    if ev.Unknown? then Outcome(c', reply.fatal)
    else if ev.Run? && ev.command.func == ComDelimiter then
      Outcome(c'.(delimiter := NewDelimiter(c.delimiter, ev.text)), false)
    else if ev.Run? && ev.command.func == ComClear then Outcome(c'.(buffer := ""), false)
    else if ev.Run? && ev.command.func == ComQuit then Outcome(c', true)
    else
      Outcome(c'.(buffer := reply.buffer,
                  delimiter := if ValidDelimiter(reply.delimiter) then reply.delimiter else c.delimiter,
                  ansiQuotes := reply.ansiQuotes,
                  noBackslash := reply.noBackslash),
              reply.fatal)
  }

  // ---------------------------------------------------------------- one step

  /** The scanner's state beside the text kept so far. `inString` is the open
      quote or NUL; `ssComment` says that a server-side (version) comment is open; `needSpace`
      that a comment was just removed. */
  datatype Core = Core(client: Client, inString: char, mlComment: bool, ssComment: bool, needSpace: bool)

  predicate ValidCore(c: Core) {
    ValidDelimiter(c.client.delimiter)
  }

  datatype Status = Continue | Stop | Quit

  /** `n` characters consumed, and the state and kept text after them. */
  datatype Step = Step(n: nat, core: Core, out: string, status: Status)

  /** The text kept so far joins the statement buffer. */
  function Flush(c: Core, out: string): Core {
    c.(client := c.client.(buffer := c.client.buffer + out))
  }

  /** Leading white space of a statement is dropped. */
  predicate SkipsSpace(e: Env, c: Core, out: string, rest: string) {
    !e.preserveComments && IsSpace(At(rest, 0)) && out == "" && c.client.buffer == ""
  }

  predicate IsEscape(c: Core, rest: string) {
    && !c.mlComment && At(rest, 0) == '\\' && c.inString != '`'
    && !(c.inString == '"' && c.client.ansiQuotes)
    && !(c.inString != NUL && c.client.noBackslash)
  }

  predicate IsDelimiter(c: Core, rest: string) {
    !c.mlComment && c.inString == NUL && PrefixAt(rest, 0, c.client.delimiter)
  }

  predicate IsLineComment(c: Core, out: string, rest: string) {
    && !c.mlComment && c.inString == NUL
    && (|| At(rest, 0) == '#'
        || (&& At(rest, 0) == '-' && At(rest, 1) == '-'
            && (IsSpace(At(rest, 2)) || At(rest, 2) == NUL || (c.client.buffer == "" && out == ""))))
  }

  predicate IsOpen(c: Core, rest: string) {
    && c.inString == NUL && At(rest, 0) == '/' && At(rest, 1) == '*'
    && !(At(rest, 2) == '!' || (At(rest, 2) == 'M' && At(rest, 3) == '!'))
  }

  predicate IsClose(c: Core, rest: string) {
    c.mlComment && !c.ssComment && At(rest, 0) == '*' && At(rest, 1) == '/'
  }

  /** Characters before the end of a server-side comment, or of the line. */
  function UntilClose(s: string): (n: nat)
    ensures n <= |s|
  {
    if s == "" || s[0] == NUL || (s[0] == '*' && At(s, 1) == '/') then 0 else 1 + UntilClose(s[1..])
  }

  function UntilDelimiter(s: string, d: string): (n: nat)
    ensures n <= |s|
  {
    if s == "" || s[0] == NUL || PrefixAt(s, 0, d) then 0 else 1 + UntilDelimiter(s[1..], d)
  }

  /** How much of the line a command's parameters take. */
  function ParamLength(c: Core, s: string): (n: nat)
    ensures n <= |s|
  {
    if c.ssComment then UntilClose(s) else
    var k := UntilDelimiter(s, c.client.delimiter);
    if PrefixAt(s, k, c.client.delimiter) then k + |c.client.delimiter| else k
  }

  function EscapeStep(e: Env, c: Core, out: string, rest: string): (r: Step)
    requires ValidCore(c) && rest != ""
    ensures r.n >= 1 && ValidCore(r.core)
  {
    var x := At(rest, 1);
    if x == NUL && (!e.binaryMode || c.inString == NUL) then Step(1, c, out, Stop)
    else if c.inString != NUL || x == 'N' then Step(2, c, out + ['\\', x], Continue)
    else
      match FindLetter(e, x)
      case None =>
        var o := Perform(e, c.client, Unknown(x));
        if o.fatal then Step(2, c.(client := o.client), out, Quit)
        else Step(2, c.(client := o.client), out + ['\\', x], Continue)
      case Some(command) =>
        var c1 := Flush(c, out);
        var o := Perform(e, c1.client, Run(command, CString(rest), c1.client.buffer));
        var c2 := c1.(client := o.client);
        if o.fatal then Step(2, c2, "", Quit)
        else Step(2 + if command.takesParams then ParamLength(c2, rest[2..]) else 0, c2, "", Continue)
  }

  function SpaceText(s: string): (t: string)
    ensures |t| <= |s|
  {
    if s != "" && IsSpace(s[0]) then [s[0]] + SpaceText(s[1..]) else ""
  }

  /** A single-line comment right after a delimiter stays with its statement. */
  predicate IsTrailingComment(s: string) {
    At(s, 0) == '#' || (At(s, 0) == '-' && At(s, 1) == '-' && IsSpace(At(s, 2)))
  }

  /** The statement in the buffer goes out, as a client command if it is one. */
  function Dispatch(e: Env, c: Client): (r: Outcome)
    requires ValidDelimiter(c.delimiter)
    ensures ValidDelimiter(r.client.delimiter)
  {
    var text := CString(c.buffer);
    match FindName(e, text, c.delimiter)
    case Some(command) => Perform(e, c, Run(command, text, c.buffer))
    case None => Perform(e, c, Query(c.buffer))
  }

  /** Under preserved comments, the white space and the single-line comment that
      follow a delimiter on its line belong to the statement. */
  function TrailingText(e: Env, s: string): (t: string)
    ensures |t| <= |s|
  {
    if !e.preserveComments then "" else
    var t := SpaceText(s);
    t + TrailingComment(s[|t|..])
  }

  function TrailingComment(s: string): (t: string)
    ensures |t| <= |s|
  {
    if IsTrailingComment(s) then CString(s) else ""
  }

  function DelimiterStep(e: Env, c: Core, out: string, rest: string): (r: Step)
    requires ValidCore(c) && IsDelimiter(c, rest)
    ensures 1 <= r.n <= |rest| && ValidCore(r.core)
  {
    var d := |c.client.delimiter|;
    var t := TrailingText(e, rest[d..]);
    Dispatched(e, Flush(c, out + t), d + |t|)
  }

  /** The step whose `n` characters complete the statement now in the buffer. */
  function Dispatched(e: Env, c: Core, n: nat): (r: Step)
    requires ValidCore(c)
    ensures r.n == n && ValidCore(r.core)
  {
    var o := Dispatch(e, c.client);
    if o.fatal then Step(n, c.(client := o.client), "", Quit)
    else Step(n, c.(client := o.client.(buffer := "")), "", Continue)
  }

  function LineCommentStep(e: Env, c: Core, out: string, rest: string): (r: Step)
    requires ValidCore(c) && rest != ""
    ensures r.n >= 1 && ValidCore(r.core)
  {
    var c1 := Flush(c, out);
    if !e.preserveComments then Step(1, c1, "", Stop)
    else
      var c2 := Flush(c1, CString(rest));
      if c1.client.buffer != "" then Step(1, c2, "", Stop)
      else
        var o := Perform(e, c2.client, Query(c2.client.buffer));
        if o.fatal then Step(1, c2.(client := o.client), "", Quit)
        else Step(1, c2.(client := o.client.(buffer := "")), "", Stop)
  }

  function OpenStep(e: Env, c: Core, out: string): (r: Step)
    requires ValidCore(c)
    ensures r.n >= 1 && ValidCore(r.core)
  {
    Step(2, Flush(c, if e.preserveComments then out + "/*" else out).(mlComment := true), "", Continue)
  }

  function CloseStep(e: Env, c: Core, out: string): (r: Step)
    requires ValidCore(c)
    ensures r.n >= 1 && ValidCore(r.core)
  {
    Step(2, Flush(c, if e.preserveComments then out + "*/" else out).(mlComment := false, needSpace := true),
         "", Continue)
  }

  /** Lexical state after an ordinary character. */
  function AfterChar(c: Core, rest: string): Core {
    var x := At(rest, 0);
    var ss :=
      if c.inString == NUL && x == '/' && At(rest, 1) == '*' && At(rest, 2) == '!' then true
      else if c.inString == NUL && c.ssComment && x == '*' && At(rest, 1) == '/' then false
      else c.ssComment;
    var q :=
      if x == c.inString then NUL
      else if !c.mlComment && c.inString == NUL && IsQuote(x) then x
      else c.inString;
    c.(ssComment := ss, inString := q)
  }

  function CharStep(e: Env, c: Core, out: string, rest: string): (r: Step)
    requires ValidCore(c) && rest != ""
    ensures r.n == 1 && ValidCore(r.core)
  {
    var c1 := AfterChar(c, rest);
    if c1.mlComment && !e.preserveComments then Step(1, c1, out, Continue)
    else
      var kept := if c1.needSpace && !IsSpace(rest[0]) then [' ', rest[0]] else [rest[0]];
      Step(1, c1.(needSpace := false), out + kept, Continue)
  }

  datatype Kind = Skipped | Backslash | Delimiter | Comment | Opening | Closing | Plain

  /** Which branch of the loop in add_line the next character takes. */
  function KindOf(e: Env, c: Core, out: string, rest: string): Kind {
    if SkipsSpace(e, c, out, rest) then Skipped
    else if IsEscape(c, rest) then Backslash
    else if IsDelimiter(c, rest) then Delimiter
    else if IsLineComment(c, out, rest) then Comment
    else if IsOpen(c, rest) then Opening
    else if IsClose(c, rest) then Closing
    else Plain
  }

  /** One turn of the loop. */
  function Next(e: Env, c: Core, out: string, rest: string): (r: Step)
    requires ValidCore(c) && rest != ""
    ensures r.n >= 1 && ValidCore(r.core)
  {
    match KindOf(e, c, out, rest)
    case Skipped => Step(1, c, out, Continue)
    case Backslash => EscapeStep(e, c, out, rest)
    case Delimiter => DelimiterStep(e, c, out, rest)
    case Comment => LineCommentStep(e, c, out, rest)
    case Opening => OpenStep(e, c, out)
    case Closing => CloseStep(e, c, out)
    case Plain => CharStep(e, c, out, rest)
  }

  // ---------------------------------------------------------------- one line

  /** `over` says that the scan took the terminator of the line as data. */
  datatype Scanned = Scanned(core: Core, out: string, status: Status, over: bool)

  function Scan(e: Env, c: Core, out: string, rest: string): (r: Scanned)
    requires ValidCore(c)
    ensures ValidCore(r.core)
    decreases |rest|
  {
    if rest == "" then Scanned(c, out, Continue, false) else
    var s := Next(e, c, out, rest);
    if s.status != Continue then Scanned(s.core, s.out, s.status, false)
    else if s.n > |rest| then Scanned(s.core, s.out, Continue, true)
    else Scan(e, s.core, s.out, rest[s.n..])
  }

  /** The state that add_line carries from line to line. */
  datatype Carry = Carry(client: Client, inString: char, mlComment: bool)

  predicate ValidCarry(k: Carry) {
    ValidDelimiter(k.client.delimiter)
  }

  predicate AddsNewline(e: Env, c: Core, out: string, truncated: bool) {
    !truncated && (!IsDelimiterCommand(e, out) || c.inString != NUL || c.mlComment)
  }

  /** What is left of the line joins the statement buffer. */
  function Finish(e: Env, c: Core, out: string, truncated: bool): Carry {
    var text := if AddsNewline(e, c, out, truncated) then out + "\n" else out;
    var keep := (out != "" || c.client.buffer != "") && (!c.mlComment || e.preserveComments);
    Carry(if keep then Flush(c, text).client else c.client, c.inString, c.mlComment)
  }

  datatype Line = Line(carry: Carry, quit: bool)

  function StartCore(k: Carry): Core {
    Core(k.client, k.inString, k.mlComment, false, false)
  }

  /** Nothing happens for an empty line before a statement. */
  predicate Ignored(k: Carry, line: string) {
    At(line, 0) == NUL && k.client.buffer == ""
  }

  /** add_line as a function of the line and the carried state. */
  function AddLine(e: Env, k: Carry, line: string, truncated: bool): (r: Line)
    requires ValidCarry(k)
    ensures ValidCarry(r.carry)
  {
    if Ignored(k, line) then Line(k, false) else
    var s := Scan(e, StartCore(k), "", line);
    if s.status == Quit then Line(Carry(s.core.client, s.core.inString, s.core.mlComment), true)
    else Line(Finish(e, s.core, s.out, truncated), false)
  }

  /** The terminator was taken as data and nothing was dropped from the line, so that
      the newline lands behind the terminator. */
  predicate Spills(e: Env, k: Carry, line: string, truncated: bool)
    requires ValidCarry(k)
  {
    && !truncated && !Ignored(k, line)
    && var s := Scan(e, StartCore(k), "", line); s.over && |s.out| == |line| + 1
  }

  /** A step consumes at most one character more than the line has, and that only
      for a lone backslash at the end of a binary-mode line, inside a string. */
  lemma StepBound(e: Env, c: Core, out: string, rest: string)
    requires ValidCore(c) && rest != ""
    ensures var s := Next(e, c, out, rest);
      s.n <= |rest| ||
      (rest == "\\" && e.binaryMode && c.inString != NUL && IsEscape(c, rest) && s == Step(2, c, out + ['\\', NUL], Continue))
  {
  }

  /** One turn of the scan, with the step `s`. */
  lemma ScanUnfold(e: Env, c: Core, out: string, rest: string) returns (s: Step)
    requires ValidCore(c) && rest != ""
    ensures s == Next(e, c, out, rest) && s.n >= 1 && ValidCore(s.core)
    ensures Scan(e, c, out, rest) ==
      if s.status != Continue then Scanned(s.core, s.out, s.status, false)
      else if s.n > |rest| then Scanned(c, out + rest + [NUL], Continue, true)
      else Scan(e, s.core, s.out, rest[s.n..])
  {
    s := Next(e, c, out, rest);
    StepBound(e, c, out, rest);
    if s.n > |rest| { assert out + ['\\', NUL] == out + rest + [NUL]; }
  }

  /** The scan takes the terminator only in binary mode, for a backslash that ends the line
      inside a string, and it ends inside that string. */
  lemma {:induction false} OverMeans(e: Env, c: Core, out: string, rest: string)
    requires ValidCore(c)
    ensures var s := Scan(e, c, out, rest);
      s.over ==>
      && e.binaryMode && rest != "" && rest[|rest| - 1] == '\\'
      && s.status == Continue && IsEscape(s.core, "\\") && s.core.inString != NUL && s.out != ""
    decreases |rest|
  {
    if rest != "" {
      var s := Next(e, c, out, rest);
      StepBound(e, c, out, rest);
      if s.status == Continue && s.n <= |rest| { OverMeans(e, s.core, s.out, rest[s.n..]); }
    }
  }
}
