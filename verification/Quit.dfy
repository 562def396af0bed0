/** Leaving the mysql client in the middle of a statement (read_and_execute and com_quit in
    client/mysql.cc): what was collected before the command still goes to the server. */
module Quit {
  import opened Text
  import opened Splitter
  import opened LineReader
  import opened Batch
  import opened Statements
  import Lookup

  /** What is left of a run goes out exactly at the end of the input and after a QUIT, and
      if it is more than white space and control characters; nothing else does. */
  lemma RestSent(e: Env, r: Result)
    requires ValidCarry(r.carry)
    ensures var rest, sent := TrimEnd(r.carry.client.buffer), r.carry.client.sent;
      SendRest(e, r).carry.client.sent ==
      if rest != "" && (r.end == Eof || (r.end == Fatal && Quitted(r.carry.client))) then sent + [Query(rest)] else sent
  {
  }

  // ------------------------------------------------------------ every run

  /** After a QUIT the buffer still holds the statement that the command found in it. */
  predicate LeftWith(c: Client) {
    Quitted(c) ==> c.buffer == c.sent[|c.sent| - 1].buffer
  }

  lemma PerformLeft(e: Env, c: Client, ev: Event)
    requires ValidDelimiter(c.delimiter) && (ev.Run? ==> ev.buffer == c.buffer)
    ensures LeftWith(Perform(e, c, ev).client) || !Perform(e, c, ev).fatal
  {
  }

  lemma EscapeLeft(e: Env, c: Core, out: string, rest: string)
    requires ValidCore(c) && rest != ""
    ensures var s := EscapeStep(e, c, out, rest); s.status == Quit ==> LeftWith(s.core.client)
  {
    var x, c1 := At(rest, 1), Flush(c, out);
    match FindLetter(e, x)
    case None => PerformLeft(e, c.client, Unknown(x));
    case Some(command) => PerformLeft(e, c1.client, Run(command, CString(rest), c1.client.buffer));
  }

  lemma DispatchedLeft(e: Env, c: Core, n: nat)
    requires ValidCore(c)
    ensures var s := Dispatched(e, c, n); s.status == Quit ==> LeftWith(s.core.client)
  {
    var text := CString(c.client.buffer);
    match FindName(e, text, c.client.delimiter)
    case None => PerformLeft(e, c.client, Query(c.client.buffer));
    case Some(command) => PerformLeft(e, c.client, Run(command, text, c.client.buffer));
  }

  lemma CommentLeft(e: Env, c: Core, out: string, rest: string)
    requires ValidCore(c) && rest != ""
    ensures var s := LineCommentStep(e, c, out, rest); s.status == Quit ==> LeftWith(s.core.client)
  {
    var c2 := Flush(Flush(c, out), CString(rest));
    PerformLeft(e, c2.client, Query(c2.client.buffer));
  }

  lemma NextLeft(e: Env, c: Core, out: string, rest: string)
    requires ValidCore(c) && rest != ""
    ensures var s := Next(e, c, out, rest); s.status == Quit ==> LeftWith(s.core.client)
  {
    match KindOf(e, c, out, rest)
    case Skipped =>
    case Backslash => EscapeLeft(e, c, out, rest);
    case Delimiter =>
      var d := |c.client.delimiter|;
      var t := TrailingText(e, rest[d..]);
      DispatchedLeft(e, Flush(c, out + t), d + |t|);
    case Comment => CommentLeft(e, c, out, rest);
    case Opening =>
    case Closing =>
    case Plain =>
  }

  lemma {:induction false} ScanLeft(e: Env, c: Core, out: string, rest: string)
    requires ValidCore(c) && Scan(e, c, out, rest).status == Quit
    ensures LeftWith(Scan(e, c, out, rest).core.client)
    decreases |rest|
  {
    var s := ScanUnfold(e, c, out, rest);
    if s.status == Quit {
      NextLeft(e, c, out, rest);
    } else {
      ScanLeft(e, s.core, s.out, rest[s.n..]);
    }
  }

  lemma TurnLeft(e: Env, named: bool, k: Carry, p: Piece, first: bool)
    requires ValidCarry(k) && Turn(e, named, k, p, first).end == Fatal
    ensures LeftWith(Turn(e, named, k, p, first).carry.client)
  {
    var line := SkipBom(p.text, first);
    if LineCommand(e, named, k, line) == None { ScanLeft(e, StartCore(k), "", line); }
  }

  lemma {:induction false} RunLeft(e: Env, named: bool, k: Carry, pieces: seq<Piece>, first: bool)
    requires ValidCarry(k) && RunPieces(e, named, k, pieces, first).end == Fatal
    ensures LeftWith(RunPieces(e, named, k, pieces, first).carry.client)
    decreases |pieces|
  {
    var r := Turn(e, named, k, pieces[0], first);
    if r.end == Fatal {
      TurnLeft(e, named, k, pieces[0], first);
    } else {
      RunLeft(e, named, r.carry, pieces[1..], false);
    }
  }

  /** Everything sent, with the statement that the QUIT at the end found in the buffer. */
  function AfterQuit(c: Client): seq<Event>
    requires Quitted(c)
  {
    var rest := TrimEnd(c.sent[|c.sent| - 1].buffer);
    if rest != "" then c.sent + [Query(rest)] else c.sent
  }

  lemma LeftSent(e: Env, r: Result)
    requires ValidCarry(r.carry) && r.end == Fatal && Quitted(r.carry.client) && LeftWith(r.carry.client)
    ensures SendRest(e, r).carry.client.sent == AfterQuit(r.carry.client)
  {
    RestSent(e, r);
  }

  /** On every input, a QUIT, however written, is the last event but for the statement that it
      found in the buffer; and that is sent exactly if it is more than white space and
      control characters. */
  lemma EveryQuit(e: Env, named: bool, k: Carry, input: string, exact: bool)
    requires ValidCarry(k)
    ensures var r := RunPieces(e, named, k, Whole(SplitLines(input, exact)), true);
      r.end == Fatal && Quitted(r.carry.client) ==>
      RunInput(e, named, k, input, exact).carry.client.sent == AfterQuit(r.carry.client)
  {
    var r := RunPieces(e, named, k, Whole(SplitLines(input, exact)), true);
    if r.end == Fatal && Quitted(r.carry.client) {
      RunLeft(e, named, k, Whole(SplitLines(input, exact)), true);
      LeftSent(e, r);
    }
  }

  // ------------------------------------------------------------ the ways to write it

  /** A QUIT that ends with the delimiter is in the statement buffer, and so is itself sent,
      unless it is all white space and control characters. */
  lemma QuitSendsItself(e: Env, k: Carry, command: Command)
    requires ValidCarry(k) && command.func == ComQuit
    requires FindName(e, CString(k.client.buffer), k.client.delimiter) == Some(command)
    ensures var o := Dispatch(e, k.client);
      var sent := k.client.sent + [Run(command, CString(k.client.buffer), k.client.buffer)];
      var rest := TrimEnd(k.client.buffer);
      o.fatal && SendRest(e, Result(k.(client := o.client), Fatal)).carry.client.sent ==
      if rest != "" then sent + [Query(rest)] else sent
  {
    RestSent(e, Result(k.(client := Dispatch(e, k.client).client), Fatal));
  }

  /** The state before a line, as the reference has it. */
  function Before(e: Env, k: Carry): State {
    State(k.client.buffer, false, k.client.sent, e.preserveComments)
  }

  /** `\q` is this command. */
  predicate QuitsWith(e: Env, command: Command) {
    !e.binaryMode && FindLetterIn(e.table, 'q') == Some(command) && command.func == ComQuit
  }

  /** Outside strings and comments `\q` ends the scan, with all text before it in the buffer. */
  lemma ScanQuit(e: Env, d: string, c: Core, out: string, tail: string, command: Command)
    requires QuitsWith(e, command) && ValidDelimiter(d) && InCode(c, d)
    ensures var s := Scan(e, c, out, "\\q" + tail);
      var text := c.client.buffer + out;
      && s.status == Quit
      && s.core.client == c.client.(buffer := text, sent := c.client.sent + [Run(command, CString("\\q" + tail), text)])
  {
    var rest := "\\q" + tail;
    assert rest[0] == '\\' && At(rest, 1) == 'q';
    assert KindOf(e, c, out, rest) == Backslash;
  }

  /** A line of items, with `\q` and anything behind them, ends the run. The statement that the
      items leave unfinished is sent, exactly if it is more than white space and control
      characters; the lines after it are not looked at. */
  lemma QuitSendsRest(e: Env, named: bool, d: string, k: Carry, items: seq<Item>, tail: string, pieces: seq<Piece>,
                      command: Command)
    requires QuitsWith(e, command) && Quiet(e, d) && ClearDelimiter(d)
    requires Carries(k, Before(e, k), Outside, d)
    requires ValidItems(items, false, d, e.preserveComments, "\\q" + tail) && NUL !in tail
    requires AllQueries(e, items, Before(e, k), d)
    requires LineCommand(e, named, k, PrintAll(items, d) + ("\\q" + tail)) == None
    ensures var s := EffectAll(items, Before(e, k));
      var r := RunPieces(e, named, k, [Piece(PrintAll(items, d) + ("\\q" + tail), false)] + pieces, false);
      var sent := s.sent + [Run(command, "\\q" + tail, s.text)];
      && r.end == Fatal && r.carry.client.sent == sent && Quitted(r.carry.client)
      && SendRest(e, r).carry.client.sent == (if TrimEnd(s.text) == "" then sent else sent + [Query(TrimEnd(s.text))])
  {
    var line, c := QuitLine(e, d, k, items, tail, command);
    var all := [Piece(line, false)] + pieces;
    assert all[0] == Piece(line, false);
    RestSent(e, RunPieces(e, named, k, all, false));
  }

  lemma QuitLine(e: Env, d: string, k: Carry, items: seq<Item>, tail: string, command: Command)
    returns (line: string, c: Client)
    requires QuitsWith(e, command) && Quiet(e, d) && ClearDelimiter(d)
    requires Carries(k, Before(e, k), Outside, d)
    requires ValidItems(items, false, d, e.preserveComments, "\\q" + tail) && NUL !in tail
    requires AllQueries(e, items, Before(e, k), d)
    ensures line == PrintAll(items, d) + ("\\q" + tail) && NUL !in line
    ensures var r := AddLine(e, k, line, false); r.quit && r.carry.client == c
    ensures var s := EffectAll(items, Before(e, k));
      c.buffer == s.text && c.sent == s.sent + [Run(command, "\\q" + tail, s.text)]
  {
    var rest := "\\q" + tail;
    line := PrintAll(items, d) + rest;
    PrintAllNulFree(items, false, d, e.preserveComments, rest);
    CStringWhole(rest);
    var start := StartCore(k);
    assert start.client.buffer + "" == start.client.buffer;
    var c1, out1 := ScanItems(e, d, start, "", items, rest);
    ScanQuit(e, d, c1, out1, tail, command);
    c := AddLine(e, k, line, false).carry.client;
  }

  /** One such script. */
  lemma SelectQuit(e: Env, named: bool, client: Client, command: Command, s: string)
    requires QuitsWith(e, command) && Quiet(e, ";") && Fresh(client, ";")
    requires forall i :: 0 <= i < |e.table| ==> !SameName(e, "select", e.table[i].name)
    requires s == "select 1 \\q"
    ensures var r := SendRest(e, RunPieces(e, named, Carry(client, NUL, false), [Piece(s, false)], false));
      r.carry.client.sent == client.sent + [Run(command, "\\q", "select 1 ")] + [Query("select 1")]
  {
    SelectNamed(e, s);
    var word, rest := SelectPrints(s);
    WordQuit(e, named, client.delimiter, client, word, command);
  }

  /** A line of one word and `\q`. */
  lemma WordQuit(e: Env, named: bool, d: string, client: Client, word: string, command: Command)
    requires QuitsWith(e, command) && Quiet(e, d) && ClearDelimiter(d) && Fresh(client, d)
    requires Printable(Word(word), d) && word != "" && !IsSpace(word[0]) && '-' !in word && TrimEnd(word) != ""
    requires LineCommand(e, named, Carry(client, NUL, false), word + "\\q") == None
    ensures var r := SendRest(e, RunPieces(e, named, Carry(client, NUL, false), [Piece(word + "\\q", false)], false));
      r.carry.client.sent == client.sent + [Run(command, "\\q", word)] + [Query(TrimEnd(word))]
  {
    var items, k := [Word(word)], Carry(client, NUL, false);
    assert items[1..] == [] && word + "" == word && "\\q" + "" == "\\q";
    EmitAllKeeps(Before(e, k), word);
    assert "" + word == word && [Piece(word + "\\q", false)] + [] == [Piece(word + "\\q", false)];
    NoDashes(Before(e, k), word);
    QuitSendsRest(e, named, d, k, items, "", [], command);
  }

  lemma SelectPrints(s: string) returns (text: string, rest: string)
    requires s == "select 1 \\q"
    ensures s == text + "\\q" && text == "select 1 " && rest == "select 1"
    ensures Printable(Word(text), ";") && '-' !in text && !IsSpace(text[0]) && TrimEnd(text) == rest
  {
    text, rest := "select 1 ", "select 1";
    assert text[..8] == rest;
    forall i | 0 <= i < |text| ensures Ordinary(text[i..], ";") {
      assert text[i..][0] == text[i] && (i + 1 < |text| ==> At(text[i..], 1) == text[i + 1]);
    }
  }

  lemma SelectNamed(e: Env, s: string)
    requires s == "select 1 \\q" && forall i :: 0 <= i < |e.table| ==> !SameName(e, "select", e.table[i].name)
    ensures FindName(e, CString(s), ";") == None
  {
    CStringWhole(s);
    NameEnds(s, 6);
    assert s[..6] == "select" && DropSpaces(s) == s;
    Lookup.NoneNamed(e, e.table, s);
  }
}
