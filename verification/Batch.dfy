/** Batch mode of the mysql client (read_and_execute in client/mysql.cc): lines come
    from the buffered reader, are checked for a long-form command, and go to the
    splitter, which works in the reader's own buffer. */
module Batch {
  import opened Text
  import opened Splitter
  import opened LineReader

  const BOM := ['\U{EF}', '\U{BB}', '\U{BF}']

  /** A byte order mark on the first line is skipped. */
  function SkipBom(line: string, first: bool): string {
    if first && PrefixAt(line, 0, BOM) then line[3..] else line
  }

  /** The line is looked up as a command only outside strings and comments, and in
      the middle of a statement only with --named-commands. */
  predicate LooksUp(named: bool, k: Carry) {
    (named || k.client.buffer == "") && !k.mlComment && k.inString == NUL
  }

  function LineCommand(e: Env, named: bool, k: Carry, line: string): Option<Command> {
    if LooksUp(named, k) then FindName(e, CString(line), k.client.delimiter) else None
  }

  /** One line: a client command, or text for the splitter. */
  function OneLine(e: Env, named: bool, k: Carry, line: string, truncated: bool): (r: Line)
    requires ValidCarry(k)
    ensures ValidCarry(r.carry)
  {
    match LineCommand(e, named, k, line)
    case Some(command) =>
      var o := Perform(e, k.client, Run(command, CString(line), k.client.buffer));
      Line(k.(client := o.client), o.fatal)
    case None => AddLine(e, k, line, truncated)
  }

  datatype End = Eof | Fatal | NulByte

  datatype Result = Result(carry: Carry, end: End)

  /** One turn of the loop. */
  function Turn(e: Env, named: bool, k: Carry, p: Piece, first: bool): (r: Result)
    requires ValidCarry(k)
    ensures ValidCarry(r.carry)
  {
    if !e.binaryMode && NUL in p.text then Result(k, NulByte) else
    var l := OneLine(e, named, k, SkipBom(p.text, first), p.truncated);
    Result(l.carry, if l.quit then Fatal else Eof)
  }

  /** The lines of the input, up to a fatal error or, outside binary mode, a zero
      byte. */
  function RunPieces(e: Env, named: bool, k: Carry, pieces: seq<Piece>, first: bool): (r: Result)
    requires ValidCarry(k)
    ensures ValidCarry(r.carry)
    decreases |pieces|
  {
    if pieces == [] then Result(k, Eof) else
    var r := Turn(e, named, k, pieces[0], first);
    if r.end != Eof then r else RunPieces(e, named, r.carry, pieces[1..], false)
  }

  /** my_isgraph for latin1. */
  predicate IsGraph(c: char) {
    ' ' < c && c != '\U{7F}' && c != '\U{81}' && c != '\U{8D}' && c != '\U{8F}' &&
    c != '\U{90}' && c != '\U{9D}' && c != '\U{A0}'
  }

  /** remove_cntrl */
  function TrimEnd(s: string): string {
    if s != "" && !IsGraph(s[|s| - 1]) then TrimEnd(s[..|s| - 1]) else s
  }

  /** com_quit ended the run; it alone leaves exit status 0. */
  predicate Quitted(c: Client) {
    c.sent != [] && var last := c.sent[|c.sent| - 1]; last.Run? && last.command.func == ComQuit
  }

  /** At the end of the input, and after a QUIT command, an unfinished statement is sent. */
  function SendRest(e: Env, r: Result): Result
    requires ValidCarry(r.carry)
  {
    var buffer := TrimEnd(r.carry.client.buffer);
    var client := r.carry.client.(buffer := buffer);
    if r.end != Eof && !(r.end == Fatal && Quitted(client)) then r
    else if buffer == "" then r.(carry := r.carry.(client := client))
    else r.(carry := r.carry.(client := Perform(e, client, Query(buffer)).client))
  }

  function Whole(lines: seq<string>): seq<Piece> {
    seq(|lines|, i requires 0 <= i < |lines| => Piece(lines[i], false))
  }

  /** Batch mode as a function of the input. */
  function RunInput(e: Env, named: bool, k: Carry, input: string, exact: bool): Result
    requires ValidCarry(k)
  {
    SendRest(e, RunPieces(e, named, k, Whole(SplitLines(input, exact)), true))
  }

  /** A run over more pieces goes on where the run over the first ones stopped. */
  lemma {:induction false} RunAppend(e: Env, named: bool, k: Carry, xs: seq<Piece>, ys: seq<Piece>, first: bool)
    requires ValidCarry(k)
    ensures var r := RunPieces(e, named, k, xs, first);
      RunPieces(e, named, k, xs + ys, first) ==
      if r.end != Eof then r else RunPieces(e, named, r.carry, ys, first && xs == [])
    decreases |xs|
  {
    if xs == [] {
      assert xs + ys == ys;
    } else {
      var r := Turn(e, named, k, xs[0], first);
      assert (xs + ys)[0] == xs[0] && (xs + ys)[1..] == xs[1..] + ys;
      if r.end == Eof { RunAppend(e, named, r.carry, xs[1..], ys, false); }
    }
  }

  lemma WholeCons(line: string, lines: seq<string>)
    ensures Whole([line] + lines) == [Piece(line, false)] + Whole(lines)
  {
  }

  lemma {:induction false} FirstOne(r: Raw, rest: string, exact: bool)
    requires IsRaw(r.text, r.ending) && r.ending != Cut && (r.ending == LastLine ==> rest == "")
    ensures Whole(SplitLines(r.text + rest, exact)) ==
      [Piece(TextOf(r.text, r.ending, exact), false)] + Whole(SplitLines(rest, exact))
  {
    WholeCons(TextOf(r.text, r.ending, exact), SplitLines(rest, exact));
    if r.ending == AtNewline {
      SplitNewline(r.text, rest, exact);
    } else {
      SplitLast(r.text, exact);
      assert r.text + rest == r.text;
    }
  }

  // ------------------------------------------------------------ lines in the reader's buffer

  /** The splitter writes its newline behind the terminator of this line. */
  predicate TurnSpills(e: Env, named: bool, k: Carry, p: Piece, first: bool)
    requires ValidCarry(k)
  {
    var line := SkipBom(p.text, first);
    && (e.binaryMode || NUL !in p.text)
    && LineCommand(e, named, k, line) == None && Spills(e, k, line, p.truncated)
  }

  /** The first line of an input, with its newline. */
  function FirstRaw(s: string): (r: Raw)
    requires s != ""
    ensures IsRaw(r.text, r.ending) && r.ending != Cut && r.text <= s && (r.ending == LastLine ==> r.text == s)
  {
    var n := LineLength(s);
    if n == |s| then Raw(s, LastLine) else Raw(s[..n + 1], AtNewline)
  }

  function FirstPiece(s: string, exact: bool): Piece
    requires s != ""
  {
    Piece(TextOf(FirstRaw(s).text, FirstRaw(s).ending, exact), false)
  }

  function Rest(s: string): (t: string)
    requires s != ""
    ensures |t| < |s|
  {
    s[|FirstRaw(s).text|..]
  }

  /** The first byte after this line is overwritten: the line spills, and that byte has been
      read already. `unread` are the places, counted from the end of the input, at which
      the reader had not read on. */
  ghost predicate Overwrites(e: Env, named: bool, k: Carry, s: string, exact: bool, unread: set<nat>, first: bool)
    requires ValidCarry(k) && s != ""
  {
    TurnSpills(e, named, k, FirstPiece(s, exact), first) && Rest(s) != "" && |Rest(s)| !in unread
  }

  /** What the reader still has to return after the first line of `s` was executed. */
  ghost function Left(e: Env, named: bool, k: Carry, s: string, exact: bool, unread: set<nat>, first: bool): (t: string)
    requires ValidCarry(k) && s != ""
    ensures |t| == |Rest(s)|
  {
    if Overwrites(e, named, k, s, exact, unread, first) then "\n" + Rest(s)[1..] else Rest(s)
  }

  /** Batch mode before the last statement, on lines that stand in the reader's buffer. */
  ghost function RunBuffered(e: Env, named: bool, k: Carry, s: string, exact: bool, unread: set<nat>, first: bool): (r: Result)
    requires ValidCarry(k)
    ensures ValidCarry(r.carry)
    decreases |s|
  {
    if s == "" then Result(k, Eof) else
    var r := Turn(e, named, k, FirstPiece(s, exact), first);
    if r.end != Eof then r
    else RunBuffered(e, named, r.carry, Left(e, named, k, s, exact, unread, first), exact, unread, false)
  }

  lemma FirstOfAll(s: string, exact: bool)
    requires s != ""
    ensures Whole(SplitLines(s, exact)) == [FirstPiece(s, exact)] + Whole(SplitLines(Rest(s), exact))
  {
    assert s == FirstRaw(s).text + Rest(s);
    FirstOne(FirstRaw(s), Rest(s), exact);
  }
}
