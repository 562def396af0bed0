/** Whole scripts in batch mode (read_and_execute in client/mysql.cc): statements over any lines,
    mixed with command lines, which may change the delimiter. The reference says which lines
    are commands, and what the others mean, without the client's own tests. */
module Scripts {
  import ArgParser
  import opened Text
  import opened Splitter
  import opened LineReader
  import opened Batch
  import opened Statements
  import Lookup
  import Quit

  /** Where a script stands: the statement, what is open, and the delimiter. */
  datatype Point = Point(s: State, m: Mode, d: string)

  function LineAt(p: Point, row: Row): string {
    RowText(row, p.m, p.d)
  }

  /** A line is a command if it names one, outside strings and comments, and between
      statements; with --named-commands also in the middle of a statement. */
  function CommandAt(e: Env, named: bool, p: Point, row: Row): Option<Command> {
    if p.m == Outside && (p.s.text == "" || named) then FindName(e, LineAt(p, row), p.d) else None
  }

  /** A command gets its line and the statement so far, which CLEAR drops and the others leave;
      DELIMITER sets the delimiter. Any other line is text. */
  function After(e: Env, named: bool, p: Point, row: Row): Point
    requires ValidDelimiter(p.d)
  {
    match CommandAt(e, named, p, row)
    case Some(command) =>
      p.(s := Ordered(p.s, command, LineAt(p, row)),
         d := if command.func == ComDelimiter then NewDelimiter(p.d, LineAt(p, row)) else p.d)
    case None =>
      var m := ModeAfter(row, p.m);
      Point(Newline(RowEffect(e, row, p.m, p.s, p.d), m), m, p.d)
  }

  ghost predicate ValidLine(e: Env, named: bool, p: Point, row: Row) {
    match CommandAt(e, named, p, row)
    case Some(command) =>
      NUL !in LineAt(p, row) && command.func != ComQuit && (command.func in {ComDelimiter, ComClear} || Calm(e))
    case None => ClearDelimiter(p.d) && ValidRow(e, row, p.m, p.s, p.d)
  }

  ghost predicate ValidScript(e: Env, named: bool, p: Point, rows: seq<Row>)
    requires ValidDelimiter(p.d)
    decreases |rows|
  {
    rows != [] ==> ValidLine(e, named, p, rows[0]) && ValidScript(e, named, After(e, named, p, rows[0]), rows[1..])
  }

  function ScriptLines(e: Env, named: bool, p: Point, rows: seq<Row>): seq<string>
    requires ValidDelimiter(p.d)
    decreases |rows|
  {
    if rows == [] then [] else [LineAt(p, rows[0])] + ScriptLines(e, named, After(e, named, p, rows[0]), rows[1..])
  }

  function AfterScript(e: Env, named: bool, p: Point, rows: seq<Row>): (q: Point)
    requires ValidDelimiter(p.d)
    ensures ValidDelimiter(q.d)
    decreases |rows|
  {
    if rows == [] then p else AfterScript(e, named, After(e, named, p, rows[0]), rows[1..])
  }

  /** The server neither fails fatally nor touches the delimiter or the quoting rules. */
  ghost predicate Peaceful(e: Env) {
    forall h :: var r := e.world(h); !r.fatal && !ValidDelimiter(r.delimiter) && !r.ansiQuotes && !r.noBackslash
  }

  ghost predicate Stands(e: Env, k: Carry, p: Point) {
    Carries(k, p.s, p.m, p.d) && p.s.keep == e.preserveComments && ValidDelimiter(p.d)
  }

  /** One line of a run. */
  lemma TurnAfter(e: Env, named: bool, k: Carry, p: Point, row: Row)
    requires Peaceful(e) && Stands(e, k, p) && ValidLine(e, named, p, row)
    ensures NUL !in LineAt(p, row)
    ensures var r := Turn(e, named, k, Piece(LineAt(p, row), false), false);
      r.end == Eof && Stands(e, r.carry, After(e, named, p, row))
  {
    var line := LineAt(p, row);
    match CommandAt(e, named, p, row)
    case Some(command) =>
      CStringWhole(line);
      CommandTurn(e, k, p, line, command);
    case None =>
      assert Quiet(e, p.d);
      RowNulFree(e, row, p.m, p.s, p.d);
      CStringWhole(line);
      AddRow(e, p.d, k, row, p.m, p.s, false);
      KeepsKeep(e, row, p.m, p.s, p.d);
  }

  lemma CommandTurn(e: Env, k: Carry, p: Point, line: string, command: Command)
    requires Peaceful(e) && Stands(e, k, p) && p.m == Outside && command.func != ComQuit
    requires command.func in {ComDelimiter, ComClear} || Calm(e)
    ensures var o := Perform(e, k.client, Run(command, line, k.client.buffer));
      && !o.fatal
      && Stands(e, k.(client := o.client),
           p.(s := Ordered(p.s, command, line), d := if command.func == ComDelimiter then NewDelimiter(p.d, line) else p.d))
  {
    var sent := k.client.sent + [Run(command, line, k.client.buffer)];
    assert sent[|sent| - 1] == Run(command, line, k.client.buffer);
  }

  /** Over every script: exactly the statements and the commands are dispatched, in order, and
      the unfinished statement is what is left. */
  lemma {:induction false} ScriptRuns(e: Env, named: bool, k: Carry, p: Point, rows: seq<Row>)
    requires Peaceful(e) && Stands(e, k, p) && ValidScript(e, named, p, rows)
    ensures var r := RunPieces(e, named, k, Whole(ScriptLines(e, named, p, rows)), false);
      r.end == Eof && Stands(e, r.carry, AfterScript(e, named, p, rows))
    decreases |rows|
  {
    if rows != [] {
      TurnAfter(e, named, k, p, rows[0]);
      var lines := ScriptLines(e, named, p, rows);
      var pieces := Whole(lines);
      var r := Turn(e, named, k, pieces[0], false);
      var q := After(e, named, p, rows[0]);
      assert pieces[0] == Piece(LineAt(p, rows[0]), false);
      assert pieces[1..] == Whole(ScriptLines(e, named, q, rows[1..]));
      ScriptRuns(e, named, r.carry, q, rows[1..]);
    }
  }

  // ------------------------------------------------------------ one command line

  /** From any state, a line that names a command is one, with the statement so far, between
      statements and with --named-commands also in the middle of one; inside a string or a
      comment, and otherwise in the middle of a statement, it is text like any other. */
  lemma CommandLine(e: Env, named: bool, k: Carry, line: string, command: Command)
    requires ValidCarry(k) && NUL !in line && FindName(e, line, k.client.delimiter) == Some(command)
    ensures var r := RunPieces(e, named, k, [Piece(line, false)], false);
      if k.inString == NUL && !k.mlComment && (k.client.buffer == "" || named)
      then r.carry.client.sent == k.client.sent + [Run(command, line, k.client.buffer)]
      else var l := AddLine(e, k, line, false); r == Result(l.carry, if l.quit then Fatal else Eof)
  {
    CStringWhole(line);
    assert [Piece(line, false)][1..] == [];
  }

  /** One such line. */
  lemma UseShop(e: Env, named: bool, client: Client, i: nat, s: string)
    requires !e.binaryMode && Lookup.DistinctNames(e) && i < |e.table| && e.table[i].name == "use" && e.table[i].takesParams
    requires Fresh(client, ";") && s == "use shop"
    ensures RunPieces(e, named, Carry(client, NUL, false), [Piece(s, false)], false).carry.client.sent ==
      client.sent + [Run(e.table[i], s, "")]
  {
    UseFound(e, i, s);
    CommandLine(e, named, Carry(client, NUL, false), s, e.table[i]);
  }

  lemma UseFound(e: Env, i: nat, s: string)
    requires !e.binaryMode && Lookup.DistinctNames(e) && i < |e.table| && e.table[i].name == "use" && e.table[i].takesParams
    requires s == "use shop"
    ensures NUL !in s && FindName(e, s, ";") == Some(e.table[i])
  {
    var name, x, d := UseParts(s);
    assert "" + s == s;
    Lookup.Undivided(e, s, d);
    Lookup.NameWithArgument(e, d, "", name, " ", x, NUL, "", i);
  }

  lemma UseParts(s: string) returns (name: string, x: string, d: string)
    requires s == "use shop"
    ensures name == "use" && d == ";" && s == name + (" " + ("" + (ArgParser.Slashed(x) + "")))
    ensures ArgParser.Leads(name, " ") && Lookup.Heads(name, " ") && x != "" && NUL !in x && NUL !in s && '\\' !in s && ';' !in s
  {
    name, x, d := "use", s[4..], ";";
    UseName(name);
    UseArgument(s, x);
  }

  lemma UseName(name: string)
    requires name == "use"
    ensures ArgParser.Leads(name, " ") && Lookup.Heads(name, " ")
  {
  }

  lemma UseArgument(s: string, x: string)
    requires s == "use shop" && x == s[4..]
    ensures s == "use" + (" " + ("" + (ArgParser.Slashed(x) + "")))
  {
    ArgParser.SlashedPlain(x);
    assert x + "" == x && "" + x == x;
  }

  // ------------------------------------------------------------ from the text of the script

  /** A file of lines. */
  function Stored(lines: seq<string>, end: string): string {
    if lines == [] then "" else lines[0] + (end + Stored(lines[1..], end))
  }

  /** No newline in a line, nor a carriage return at its end, except in binary mode. */
  predicate IsLine(line: string, exact: bool) {
    '\n' !in line && (exact || line == "" || line[|line| - 1] != '\r')
  }

  ghost predicate Storable(lines: seq<string>, exact: bool) {
    forall i :: 0 <= i < |lines| ==> IsLine(lines[i], exact)
  }

  lemma {:induction false} LineLengthIs(line: string, rest: string)
    requires '\n' !in line && (rest == "" || rest[0] == '\n')
    ensures LineLength(line + rest) == |line|
  {
    if line == "" {
      assert line + rest == rest;
    } else {
      assert (line + rest)[1..] == line[1..] + rest;
      LineLengthIs(line[1..], rest);
    }
  }

  lemma SplitFirst(raw: string, rest: string, exact: bool)
    requires '\n' !in raw
    ensures SplitLines(raw + ("\n" + rest), exact) == [Chomp(raw, exact)] + SplitLines(rest, exact)
  {
    var s := raw + ("\n" + rest);
    LineLengthIs(raw, "\n" + rest);
    assert s[..|raw|] == raw && s[|raw| + 1..] == rest;
  }

  lemma RawLine(line: string, end: string, rest: string, exact: bool) returns (raw: string)
    requires IsLine(line, exact) && (end == "\n" || (end == "\r\n" && !exact))
    ensures '\n' !in raw && Chomp(raw, exact) == line && line + (end + rest) == raw + ("\n" + rest)
  {
    raw := line + end[..|end| - 1];
    assert end == end[..|end| - 1] + "\n";
    if end == "\n" { assert raw == line; } else { assert raw == line + "\r" && raw[..|raw| - 1] == line; }
  }

  /** Splitting a file gives its lines: with newlines always, and with carriage returns before
      them except in binary mode. */
  lemma {:induction false} SplitStored(lines: seq<string>, end: string, exact: bool)
    requires Storable(lines, exact) && (end == "\n" || (end == "\r\n" && !exact))
    ensures SplitLines(Stored(lines, end), exact) == lines
    decreases |lines|
  {
    if lines != [] {
      var rest := Stored(lines[1..], end);
      SplitStored(lines[1..], end, exact);
      var raw := RawLine(lines[0], end, rest, exact);
      SplitFirst(raw, rest, exact);
    }
  }

  /** Batch mode over the file: the statements and commands of the script, and at the end its
      unfinished statement, if it is more than white space and control characters. */
  lemma FileRuns(e: Env, named: bool, k: Carry, p: Point, rows: seq<Row>, end: string, exact: bool)
    requires Peaceful(e) && Stands(e, k, p) && ValidScript(e, named, p, rows)
    requires Storable(ScriptLines(e, named, p, rows), exact) && (end == "\n" || (end == "\r\n" && !exact))
    requires rows != [] ==> !PrefixAt(LineAt(p, rows[0]), 0, BOM)
    ensures var s := AfterScript(e, named, p, rows).s;
      var sent := RunInput(e, named, k, Stored(ScriptLines(e, named, p, rows), end), exact).carry.client.sent;
      sent == if TrimEnd(s.text) == "" then s.sent else s.sent + [Query(TrimEnd(s.text))]
  {
    var lines := ScriptLines(e, named, p, rows);
    SplitStored(lines, end, exact);
    ScriptRuns(e, named, k, p, rows);
    FirstOrNot(e, named, k, Whole(lines));
    Quit.RestSent(e, RunPieces(e, named, k, Whole(lines), true));
  }

  /** A byte order mark on the first line is as if it were not there. */
  lemma MarkSkipped(e: Env, named: bool, k: Carry, text: string, pieces: seq<Piece>)
    requires ValidCarry(k)
    ensures RunPieces(e, named, k, [Piece(BOM + text, false)] + pieces, true) ==
      RunPieces(e, named, k, [Piece(text, false)] + pieces, false)
  {
    var with, without := [Piece(BOM + text, false)] + pieces, [Piece(text, false)] + pieces;
    assert with[1..] == pieces && without[1..] == pieces;
    assert (BOM + text)[3..] == text && NUL !in BOM;
  }

  /** Without a byte order mark the first line is like any other. */
  lemma FirstOrNot(e: Env, named: bool, k: Carry, pieces: seq<Piece>)
    requires ValidCarry(k) && (pieces != [] ==> !PrefixAt(pieces[0].text, 0, BOM))
    ensures RunPieces(e, named, k, pieces, true) == RunPieces(e, named, k, pieces, false)
  {
  }

  /** A zero byte ends the run, outside binary mode, before its line does anything; what was
      collected is not sent, and the lines after it are not looked at. */
  lemma ZeroByteEnds(e: Env, named: bool, k: Carry, text: string, truncated: bool, pieces: seq<Piece>, first: bool)
    requires ValidCarry(k) && NUL in text && !e.binaryMode
    ensures var r := RunPieces(e, named, k, [Piece(text, truncated)] + pieces, first);
      r == Result(k, NulByte) && SendRest(e, r) == r
  {
    assert ([Piece(text, truncated)] + pieces)[0] == Piece(text, truncated);
  }
}
