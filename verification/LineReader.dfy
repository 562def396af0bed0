/** The buffered line reader of batch mode (client/readline.cc): one growing
    buffer, refilled by reads of any length, scanned for newlines. */
module LineReader {
  import opened Text

  const IO_SIZE: nat := 4096

  // ------------------------------------------------------------ plain line splitting

  /** One trailing carriage return goes with the newline, outside binary mode. */
  function Chomp(s: string, binary: bool): string {
    if !binary && s != "" && s[|s| - 1] == '\r' then s[..|s| - 1] else s
  }

  function LineLength(s: string): (n: nat)
    ensures n <= |s|
    ensures n < |s| ==> s[n] == '\n'
    ensures forall i :: 0 <= i < n ==> s[i] != '\n'
  {
    if s == "" || s[0] == '\n' then 0 else 1 + LineLength(s[1..])
  }

  /** The stream cut at its newlines; an unterminated last piece is a line. */
  function SplitLines(s: string, binary: bool): seq<string>
    decreases |s|
  {
    if s == "" then [] else
    var n := LineLength(s);
    if n == |s| then [s] else [Chomp(s[..n], binary)] + SplitLines(s[n + 1..], binary)
  }

  /** How a raw line ends: at a newline, at the buffer's size limit, or with the
      input. */
  datatype Ending = AtNewline | Cut | LastLine

  predicate IsRaw(raw: string, ending: Ending) {
    && raw != ""
    && (forall i :: 0 <= i < |raw| - 1 ==> raw[i] != '\n')
    && (ending == AtNewline <==> raw[|raw| - 1] == '\n')
  }

  /** The text that a raw line is returned as. */
  function TextOf(raw: string, ending: Ending, binary: bool): string
    requires IsRaw(raw, ending)
  {
    if ending == AtNewline then Chomp(raw[..|raw| - 1], binary) else raw
  }

  /** What batch_readline cuts off a raw line in the buffer. */
  function Trimmed(s: string, binary: bool): string {
    if s != "" && s[|s| - 1] == '\n' then Chomp(s[..|s| - 1], binary) else s
  }

  lemma TrimmedLength(s: string, binary: bool)
    ensures Trimmed(s, binary) ==
      s[..if s == "" || s[|s| - 1] != '\n' then |s|
          else if |s| > 1 && !binary && s[|s| - 2] == '\r' then |s| - 2
          else |s| - 1]
  {
    assert s[..|s|] == s;
    if |s| > 1 { assert s[..|s| - 1][..|s| - 2] == s[..|s| - 2]; }
  }

  lemma TrimmedIs(raw: string, ending: Ending, n: nat, binary: bool, inString: bool)
    requires IsRaw(raw, ending) && n == if ending == AtNewline && inString then |raw| - 1 else |raw|
    ensures Trimmed(raw[..n], binary) == TextOf(raw, ending, binary || inString)
  {
    if n == |raw| { assert raw[..n] == raw; }
  }

  /** What a caller sees: a text, and whether it is a truncated piece of a line. */
  datatype Piece = Piece(text: string, truncated: bool)

  /** Lines from pieces: a truncated piece belongs to the line that follows. */
  function Glue(pieces: seq<Piece>): seq<string> {
    if pieces == [] then [] else
    var lines := Glue(pieces[1..]);
    if !pieces[0].truncated || lines == [] then [pieces[0].text] + lines
    else [pieces[0].text + lines[0]] + lines[1..]
  }

  /** Every line is well under the buffer's size limit. */
  predicate Fits(s: string, maxSize: nat)
    decreases |s|
  {
    s != "" ==>
    var n := LineLength(s);
    2 * (n + IO_SIZE) <= maxSize && (n < |s| ==> Fits(s[n + 1..], maxSize))
  }

  lemma FirstLine(raw: string, ending: Ending, rest: string)
    requires IsRaw(raw, ending)
    ensures ending == AtNewline ==> LineLength(raw + rest) == |raw| - 1
    ensures ending != AtNewline ==> LineLength(raw + rest) == |raw| + LineLength(rest)
  {
    var s := raw + rest;
    var n := LineLength(s);
    assert forall i :: 0 <= i < |raw| ==> s[i] == raw[i];
    if ending == AtNewline {
      assert s[|raw| - 1] == '\n';
    } else {
      assert forall i :: 0 <= i < |rest| ==> s[|raw| + i] == rest[i];
      var m := LineLength(rest);
      assert m < |rest| ==> s[|raw| + m] == '\n';
      assert n >= |raw|;
      assert n < |s| ==> rest[n - |raw|] == '\n';
    }
  }

  lemma SplitNewline(raw: string, rest: string, binary: bool)
    requires IsRaw(raw, AtNewline)
    ensures SplitLines(raw + rest, binary) == [TextOf(raw, AtNewline, binary)] + SplitLines(rest, binary)
  {
    var s := raw + rest;
    FirstLine(raw, AtNewline, rest);
    assert s[..|raw| - 1] == raw[..|raw| - 1] && s[|raw|..] == rest;
  }

  lemma {:induction false} SplitCut(raw: string, rest: string)
    requires IsRaw(raw, Cut)
    ensures var lines := SplitLines(rest, true);
      SplitLines(raw + rest, true) == if lines == [] then [raw] else [raw + lines[0]] + lines[1..]
  {
    var n := LineLength(rest);
    if rest == "" {
      assert raw + rest == raw;
      SplitNoNewline(raw, true);
    } else if n == |rest| {
      SplitNoNewline(rest, true);
      SplitNoNewline(raw + rest, true);
      assert [rest][1..] == [] && [raw + rest] + [] == [raw + rest];
    } else {
      var line, tail := rest[..n], rest[n + 1..];
      assert rest == line + ['\n'] + tail;
      SplitCutLine(raw, line, tail, true);
      SplitLine(line, tail, true);
      assert ([line] + SplitLines(tail, true))[1..] == SplitLines(tail, true);
    }
  }

  datatype Raw = Raw(text: string, ending: Ending)

  /** A run of the reader: raw lines, only the last of them unterminated. */
  ghost predicate IsRun(raws: seq<Raw>) {
    && (forall i :: 0 <= i < |raws| ==> IsRaw(raws[i].text, raws[i].ending))
    && (forall i :: 0 <= i < |raws| - 1 ==> raws[i].ending != LastLine)
  }

  ghost function Concat(raws: seq<Raw>): string {
    if raws == [] then "" else raws[0].text + Concat(raws[1..])
  }

  ghost function Pieces(raws: seq<Raw>, binary: bool): seq<Piece>
    requires IsRun(raws)
  {
    seq(|raws|, i requires 0 <= i < |raws| =>
      Piece(TextOf(raws[i].text, raws[i].ending, binary), raws[i].ending == Cut))
  }

  /** In binary mode, gluing the pieces gives the lines of the stream. */
  lemma {:induction false} GlueSplits(raws: seq<Raw>)
    requires IsRun(raws)
    ensures Glue(Pieces(raws, true)) == SplitLines(Concat(raws), true)
  {
    if raws != [] {
      var r, rest := raws[0], raws[1..];
      GlueSplits(rest);
      assert Pieces(raws, true)[1..] == Pieces(rest, true);
      match r.ending
      case AtNewline => SplitNewline(r.text, Concat(rest), true);
      case Cut => SplitCut(r.text, Concat(rest));
      case LastLine =>
        assert rest == [];
        SplitLast(r.text, true);
        assert r.text + "" == r.text && [r.text] + [] == [r.text];
    }
  }

  /** A cut fell between a carriage return and its newline. */
  ghost predicate CutsReturn(raws: seq<Raw>)
    requires IsRun(raws)
  {
    exists i :: 0 <= i < |raws| - 1 && ReturnAt(raws, i)
  }

  ghost predicate ReturnAt(raws: seq<Raw>, i: nat)
    requires IsRun(raws) && i < |raws| - 1
  {
    raws[i].ending == Cut && raws[i].text[|raws[i].text| - 1] == '\r' && raws[i + 1].text == "\n"
  }

  lemma CutsReturnFirst(raws: seq<Raw>)
    requires IsRun(raws) && raws != []
    ensures IsRun(raws[1..])
    ensures CutsReturn(raws) <==> (|raws| > 1 && ReturnAt(raws, 0)) || CutsReturn(raws[1..])
  {
    var rest := raws[1..];
    if CutsReturn(rest) {
      var i :| 0 <= i < |rest| - 1 && ReturnAt(rest, i);
      assert ReturnAt(raws, i + 1);
    }
    if CutsReturn(raws) {
      var i :| 0 <= i < |raws| - 1 && ReturnAt(raws, i);
      assert i > 0 ==> ReturnAt(rest, i - 1);
    }
  }

  /** Outside binary mode, a cut joins the next line, but a return before the newline goes. */
  lemma {:induction false} SplitCutText(raw: string, rest: string)
    requires IsRaw(raw, Cut) && rest != ""
    ensures var lines := SplitLines(rest, false);
      && lines != []
      && SplitLines(raw + rest, false) ==
         [if At(rest, 0) == '\n' then Chomp(raw, false) else raw + lines[0]] + lines[1..]
  {
    var n := LineLength(rest);
    if n == |rest| {
      SplitNoNewline(rest, false);
      SplitNoNewline(raw + rest, false);
      assert [rest][1..] == [] && [raw + rest] + [] == [raw + rest];
    } else {
      var line := rest[..n];
      assert rest == line + ['\n'] + rest[n + 1..];
      SplitCutAt(raw, line, rest[n + 1..]);
      assert At(rest, 0) == '\n' <==> line == "";
    }
  }

  lemma SplitNoNewline(s: string, binary: bool)
    requires s != "" && '\n' !in s
    ensures SplitLines(s, binary) == [s]
  {
    assert LineLength(s) == |s|;
  }

  lemma SplitCutAt(raw: string, line: string, rest: string)
    requires IsRaw(raw, Cut) && '\n' !in line
    ensures var lines := SplitLines(line + ['\n'] + rest, false);
      && lines != []
      && SplitLines(raw + (line + ['\n'] + rest), false) ==
         [if line == "" then Chomp(raw, false) else raw + lines[0]] + lines[1..]
  {
    var tail := SplitLines(rest, false);
    SplitCutLine(raw, line, rest, false);
    SplitLine(line, rest, false);
    if line != "" { ChompEnd(raw, line); } else { assert raw + line == raw; }
    assert ([Chomp(line, false)] + tail)[1..] == tail;
  }

  lemma SplitLine(line: string, rest: string, binary: bool)
    requires '\n' !in line
    ensures SplitLines(line + ['\n'] + rest, binary) == [Chomp(line, binary)] + SplitLines(rest, binary)
  {
    var raw := line + ['\n'];
    assert raw[..|raw| - 1] == line;
    SplitNewline(raw, rest, binary);
  }

  lemma SplitCutLine(raw: string, line: string, rest: string, binary: bool)
    requires IsRaw(raw, Cut) && '\n' !in line
    ensures SplitLines(raw + (line + ['\n'] + rest), binary) == [Chomp(raw + line, binary)] + SplitLines(rest, binary)
  {
    assert raw + (line + ['\n'] + rest) == raw + line + ['\n'] + rest;
    SplitLine(raw + line, rest, binary);
  }

  lemma ChompEnd(a: string, b: string)
    requires b != ""
    ensures Chomp(a + b, false) == a + Chomp(b, false)
  {
  }

  lemma {:induction false} SomeLines(raws: seq<Raw>, binary: bool)
    requires IsRun(raws) && raws != []
    ensures Concat(raws) != "" && At(Concat(raws), 0) == At(raws[0].text, 0) && Glue(Pieces(raws, binary)) != []
  {
  }

  /** Joining a truncated piece keeps lines apart. */
  lemma JoinCancels(text: string, a: seq<string>, b: seq<string>)
    requires a != [] && b != []
    ensures [text + a[0]] + a[1..] == [text + b[0]] + b[1..] <==> a == b
  {
    if [text + a[0]] + a[1..] == [text + b[0]] + b[1..] {
      var x, y := [text + a[0]] + a[1..], [text + b[0]] + b[1..];
      assert x[0] == y[0] && x[1..] == y[1..];
      assert a[0] == (text + a[0])[|text|..] && b[0] == (text + b[0])[|text|..];
      assert a == [a[0]] + a[1..] && b == [b[0]] + b[1..];
    }
  }

  /** Outside binary mode, gluing the pieces gives the lines exactly if no cut fell between
      a carriage return and its newline. */
  lemma {:induction false} GlueExactly(raws: seq<Raw>)
    requires IsRun(raws)
    ensures Glue(Pieces(raws, false)) == SplitLines(Concat(raws), false) <==> !CutsReturn(raws)
  {
    if raws != [] {
      var r, rest := raws[0], raws[1..];
      CutsReturnFirst(raws);
      GlueExactly(rest);
      PiecesOne(raws);
      match r.ending
      case AtNewline => GlueNewline(r, rest);
      case Cut => GlueCut(r, rest);
      case LastLine =>
        assert rest == [];
        SplitLast(r.text, false);
        assert r.text + "" == r.text && [r.text] + [] == [r.text];
    }
  }

  /** Such a cut, for a text of any length: the return stays, although plain splitting
      drops it. */
  lemma {:induction false} ReturnKept(text: string)
    requires text != "" && text[|text| - 1] == '\r' && '\n' !in text
    ensures var raws := [Raw(text, Cut), Raw("\n", AtNewline)];
      IsRun(raws) && Glue(Pieces(raws, false)) != SplitLines(text + "\n", false)
  {
    var raws := [Raw(text, Cut), Raw("\n", AtNewline)];
    assert IsRaw(text, Cut) && IsRaw("\n", AtNewline);
    assert ReturnAt(raws, 0);
    GlueExactly(raws);
    assert raws[1..] == [Raw("\n", AtNewline)] && raws[1..][1..] == [];
    assert Concat(raws[1..]) == "\n";
  }

  ghost function PieceOf(r: Raw): Piece
    requires IsRaw(r.text, r.ending)
  {
    Piece(TextOf(r.text, r.ending, false), r.ending == Cut)
  }

  lemma {:induction false} PiecesOne(raws: seq<Raw>)
    requires IsRun(raws) && raws != [] && IsRun(raws[1..])
    ensures Pieces(raws, false) == [PieceOf(raws[0])] + Pieces(raws[1..], false)
    ensures Concat(raws) == raws[0].text + Concat(raws[1..])
  {
  }

  lemma {:induction false} GlueNewline(r: Raw, rest: seq<Raw>)
    requires IsRaw(r.text, r.ending) && r.ending == AtNewline && IsRun(rest)
    ensures Glue([PieceOf(r)] + Pieces(rest, false)) == SplitLines(r.text + Concat(rest), false) <==>
      Glue(Pieces(rest, false)) == SplitLines(Concat(rest), false)
  {
    var a, b := Glue(Pieces(rest, false)), SplitLines(Concat(rest), false);
    SplitNewline(r.text, Concat(rest), false);
    assert ([PieceOf(r)] + Pieces(rest, false))[1..] == Pieces(rest, false);
    var t := TextOf(r.text, r.ending, false);
    assert [t] + a == [t] + b ==> a == b by { assert ([t] + a)[1..] == a && ([t] + b)[1..] == b; }
  }

  lemma {:induction false} GlueCut(r: Raw, rest: seq<Raw>)
    requires IsRaw(r.text, r.ending) && r.ending == Cut && IsRun(rest)
    ensures Glue([PieceOf(r)] + Pieces(rest, false)) == SplitLines(r.text + Concat(rest), false) <==>
      !(rest != [] && r.text[|r.text| - 1] == '\r' && rest[0].text == "\n") &&
      Glue(Pieces(rest, false)) == SplitLines(Concat(rest), false)
  {
    assert ([PieceOf(r)] + Pieces(rest, false))[1..] == Pieces(rest, false);
    if rest == [] {
      SplitCutLast(r.text);
      assert r.text + "" == r.text && [r.text] + [] == [r.text];
    } else {
      SomeLines(rest, false);
      var a, b := Glue(Pieces(rest, false)), SplitLines(Concat(rest), false);
      SplitCutText(r.text, Concat(rest));
      JoinCancels(r.text, a, b);
      if At(Concat(rest), 0) == '\n' { ReturnFirst(r.text, rest, a, b); }
    }
  }

  lemma SplitCutLast(raw: string)
    requires IsRaw(raw, Cut)
    ensures SplitLines(raw, false) == [raw]
  {
    FirstLine(raw, Cut, "");
    assert raw + "" == raw;
  }

  lemma ReturnFirst(text: string, rest: seq<Raw>, a: seq<string>, b: seq<string>)
    requires text != "" && IsRun(rest) && rest != [] && a != [] && b == SplitLines(Concat(rest), false) != []
    requires At(Concat(rest), 0) == At(rest[0].text, 0) == '\n'
    ensures rest[0].text == "\n"
    ensures if text[|text| - 1] == '\r' then [text + a[0]] + a[1..] != [Chomp(text, false)] + b[1..]
      else [Chomp(text, false)] + b[1..] == [text + b[0]] + b[1..]
  {
    assert IsRaw(rest[0].text, rest[0].ending);
    assert b[0] == "" by { assert LineLength(Concat(rest)) == 0; }
    assert text + "" == text;
    if text[|text| - 1] == '\r' {
      assert ([text + a[0]] + a[1..])[0] == text + a[0] && ([Chomp(text, false)] + b[1..])[0] == Chomp(text, false);
    }
  }

  lemma SplitLast(raw: string, binary: bool)
    requires IsRaw(raw, LastLine)
    ensures SplitLines(raw, binary) == [raw]
  {
    FirstLine(raw, LastLine, "");
    assert raw + "" == raw;
  }

  lemma {:induction false} ConcatSnoc(raws: seq<Raw>, r: Raw)
    ensures Concat(raws + [r]) == Concat(raws) + r.text
  {
    if raws == [] {
      assert raws + [r] == [r] && r.text + "" == r.text;
    } else {
      ConcatSnoc(raws[1..], r);
      assert (raws + [r])[1..] == raws[1..] + [r];
      assert raws[0].text + (Concat(raws[1..]) + r.text) == raws[0].text + Concat(raws[1..]) + r.text;
    }
  }

  lemma FitsPiece(raw: string, ending: Ending, rest: string, maxSize: nat)
    requires IsRaw(raw, ending) && Fits(raw + rest, maxSize)
    ensures 2 * (|raw| - 1 + IO_SIZE) <= maxSize
    ensures ending != AtNewline ==> 2 * (|raw| + IO_SIZE) <= maxSize
    ensures ending == AtNewline ==> Fits(rest, maxSize)
  {
    FirstLine(raw, ending, rest);
    assert ending == AtNewline ==> (raw + rest)[|raw|..] == rest;
  }

  /** After some lines of `total`, with `rest` still to come; `inString` says that it is a
      command string. */
  ghost predicate Progress(raws: seq<Raw>, pieces: seq<Piece>, binary: bool, total: string, rest: string, maxSize: nat,
                           inString: bool)
  {
    && IsRun(raws) && pieces == Pieces(raws, binary)
    && total == Concat(raws) + rest
    && (raws != [] && raws[|raws| - 1].ending == LastLine ==> rest == "")
    && (forall i :: 0 <= i < |raws| && raws[i].ending == Cut ==> maxSize < 2 * (|raws[i].text| + IO_SIZE))
    && (Fits(total, maxSize) ==> Fits(rest, maxSize))
    && (Fits(total, maxSize) || inString ==> forall i :: 0 <= i < |raws| ==> raws[i].ending != Cut)
  }

  lemma {:induction false} PiecesSnoc(raws: seq<Raw>, r: Raw, binary: bool)
    requires IsRun(raws) && IsRaw(r.text, r.ending) && (raws != [] ==> raws[|raws| - 1].ending != LastLine)
    ensures IsRun(raws + [r])
    ensures Pieces(raws + [r], binary) ==
      Pieces(raws, binary) + [Piece(TextOf(r.text, r.ending, binary), r.ending == Cut)]
  {
  }

  lemma {:induction false} NextLine(raws: seq<Raw>, pieces: seq<Piece>, r: Raw, binary: bool, total: string, rest: string, maxSize: nat,
                                    inString: bool)
    requires IsRaw(r.text, r.ending) && Progress(raws, pieces, binary, total, r.text + rest, maxSize, inString)
    requires r.ending == LastLine ==> rest == ""
    requires r.ending == Cut ==> maxSize < 2 * (|r.text| + IO_SIZE) && !inString
    ensures Progress(raws + [r], pieces + [Piece(TextOf(r.text, r.ending, binary), r.ending == Cut)],
                     binary, total, rest, maxSize, inString)
  {
    ConcatSnoc(raws, r);
    assert Concat(raws) + r.text + rest == Concat(raws) + (r.text + rest);
    PiecesSnoc(raws, r, binary);
    if Fits(total, maxSize) { FitsPiece(r.text, r.ending, rest, maxSize); }
  }

  /** Truncated pieces are not empty and hold no newline. */
  lemma {:induction false} CutPieces(raws: seq<Raw>, binary: bool)
    requires IsRun(raws)
    ensures var pieces := Pieces(raws, binary);
      forall i :: 0 <= i < |pieces| && pieces[i].truncated ==> pieces[i].text != "" && '\n' !in pieces[i].text
  {
    var pieces := Pieces(raws, binary);
    forall i | 0 <= i < |pieces| && pieces[i].truncated ensures pieces[i].text != "" && '\n' !in pieces[i].text {
      assert IsRaw(raws[i].text, raws[i].ending);
    }
  }

  lemma {:induction false} GluedOrNot(raws: seq<Raw>, binary: bool)
    requires IsRun(raws)
    ensures Glue(Pieces(raws, binary)) == SplitLines(Concat(raws), binary) <==> binary || !CutsReturn(raws)
  {
    if binary { GlueSplits(raws); } else { GlueExactly(raws); }
  }

  /** What a finished run amounts to. */
  lemma {:induction false} AllLines(raws: seq<Raw>, pieces: seq<Piece>, binary: bool, total: string, maxSize: nat, inString: bool)
    requires Progress(raws, pieces, binary, total, "", maxSize, inString)
    ensures forall i :: 0 <= i < |pieces| && pieces[i].truncated ==> pieces[i].text != "" && '\n' !in pieces[i].text
    ensures forall i :: 0 <= i < |pieces| && pieces[i].truncated ==> maxSize < 2 * (|pieces[i].text| + IO_SIZE)
    ensures Concat(raws) == total
    ensures Glue(pieces) == SplitLines(total, binary) <==> binary || !CutsReturn(raws)
    ensures Fits(total, maxSize) || inString ==> forall i :: 0 <= i < |pieces| ==> !pieces[i].truncated
  {
    assert Concat(raws) + "" == Concat(raws);
    CutPieces(raws, binary);
    GluedOrNot(raws, binary);
  }

  // ------------------------------------------------------------ the buffer

  /** memcpy from a string. */
  method Store(dst: array<char>, at: nat, text: string)
    requires at + |text| <= dst.Length
    modifies dst
    ensures forall k :: 0 <= k < at || at + |text| <= k < dst.Length ==> dst[k] == old(dst[k])
    ensures dst[at..at + |text|] == text
  {
    for i := 0 to |text|
      invariant forall k :: 0 <= k < at || at + |text| <= k < dst.Length ==> dst[k] == old(dst[k])
      invariant forall k :: 0 <= k < i ==> dst[at + k] == text[k]
    {
      dst[at + i] := text[i];
    }
  }

  /** my_realloc: an array of another length with the first `keep` characters. */
  method Resize(src: array<char>, n: nat, keep: nat) returns (dst: array<char>)
    requires keep <= src.Length && keep <= n
    ensures fresh(dst) && dst.Length == n
    ensures forall k :: 0 <= k < keep ==> dst[k] == src[k]
  {
    dst := new char[n];
    for i := 0 to keep
      invariant forall k :: 0 <= k < i ==> dst[k] == src[k]
    {
      dst[i] := src[i];
    }
  }

  /** Commands joined by a space, with a newline after the last one. */
  function Joined(before: string, str: string): string {
    (if before == "" then "" else before[..|before| - 1] + " ") + str + "\n"
  }

  /** A command behind what an array holds already. */
  method WriteCommand(dst: array<char>, ghost before: string, n: nat, str: string)
    requires n == |before| && dst.Length == n + |str| + 2 && dst[..n] == before
    modifies dst
    ensures dst[..n + |str| + 1] == Joined(before, str)
  {
    if n != 0 { dst[n - 1] := ' '; }
    assert dst[..n] == if n == 0 then "" else before[..n - 1] + " ";
    Store(dst, n, str);
    dst[n + |str|], dst[n + |str| + 1] := '\n', NUL;
    assert dst[n..n + |str|] == str;
  }

  class LineBuffer {
    var file: string          // what the file still holds
    var buffer: array<char>
    var end: nat
    var startOfLine: nat
    var endOfLine: nat
    var bufread: nat
    var eof: bool
    var maxSize: nat
    var readLength: nat
    var truncated: bool

    ghost predicate Valid()
      reads this, buffer
    {
      && startOfLine <= endOfLine <= end < buffer.Length
      && (eof ==> file == "" && (endOfLine < end ==> buffer[end - 1] == '\n'))
      && (!eof ==> IO_SIZE <= bufread && buffer.Length == bufread + 1)
    }

    /** Input not yet returned. */
    ghost function Pending(): string
      requires Valid()
      reads this, buffer
    {
      buffer[endOfLine..end] + file
    }

    /** The line returned last. */
    ghost predicate Current(text: string)
      reads this, buffer
    {
      && |text| == readLength
      && startOfLine + readLength < buffer.Length
      && buffer[startOfLine..startOfLine + readLength] == text
      && buffer[startOfLine + readLength] == NUL
    }

    /** init_line_buffer */
    constructor (file: string, maxSize: nat)
      ensures Valid() && fresh(buffer) && !eof
      ensures Pending() == file && this.maxSize == maxSize
    {
      this.file, this.maxSize, bufread := file, maxSize, IO_SIZE;
      buffer := new char[IO_SIZE + 1];
      end, startOfLine, endOfLine, readLength := 0, 0, 0, 0;
      eof, truncated := false, false;
      new;
      buffer[0] := NUL;
    }

    /** init_line_buffer_from_string on a new buffer: a command as the whole input. */
    constructor FromString(str: string)
      ensures Valid() && fresh(buffer) && eof && endOfLine == 0
      ensures Pending() == str + "\n"
    {
      file, maxSize, bufread := "", 1, 0;
      buffer := new char[|str| + 2];
      end, startOfLine, endOfLine, readLength := |str| + 1, 0, 0, 0;
      eof, truncated := true, false;
      new;
      WriteCommand(buffer, "", 0, str);
      assert buffer[0..end] == str + "\n";
    }

    /** init_line_buffer_from_string on a buffer that already holds commands: reading starts
        over, and the new command is joined to the others by a space. */
    method AddString(str: string)
      requires Valid() && eof
      modifies this
      ensures Valid() && fresh(buffer) && eof && endOfLine == 0
      ensures Pending() == Joined(old(buffer[..end]), str)
      ensures old(endOfLine) == 0 ==> Pending() == Joined(old(Pending()), str)
    {
      var n := end;
      assert buffer[..n] == buffer[0..n] + file;
      buffer := Resize(buffer, n + |str| + 2, n);
      WriteCommand(buffer, old(buffer[..end]), n, str);
      startOfLine, endOfLine, end, maxSize := 0, 0, n + |str| + 1, 1;
      assert buffer[0..end] + file == buffer[..end];
    }

    /** The read loop of fill_buffer asks for whole blocks that fit. */
    function Room(bufbytes: nat): nat
      requires bufbytes <= bufread
      reads this
    {
      (bufread - bufbytes) / IO_SIZE * IO_SIZE
    }

    /** my_realloc to twice the size. The end is set as if the unfinished
        line already stood at the front, where fill_buffer moves it next. */
    method Grow(bufbytes: nat, ghost window: string)
      requires startOfLine + bufbytes < buffer.Length == bufread + 1
      requires buffer[startOfLine..startOfLine + bufbytes] == window
      modifies this`bufread, this`buffer, this`end
      ensures bufread == 2 * old(bufread) && buffer.Length == bufread + 1 && fresh(buffer) && end == bufbytes
      ensures buffer[startOfLine..startOfLine + bufbytes] == window
    {
      bufread := bufread * 2;
      buffer := Resize(buffer, bufread + 1, buffer.Length);
      end := bufbytes;
    }

    /** The `for` loop of fill_buffer: how much to read, after growing if needed. Zero
        means that the buffer may not grow; nothing has changed then. */
    method MakeRoom(bufbytes: nat, ghost window: string) returns (want: nat)
      requires Valid() && !eof && end == startOfLine + bufbytes
      requires buffer[startOfLine..end] == window
      modifies this`bufread, this`buffer, this`end
      ensures buffer == old(buffer) || fresh(buffer)
      ensures IO_SIZE <= bufread && buffer.Length == bufread + 1
      ensures startOfLine + bufbytes < buffer.Length && buffer[startOfLine..startOfLine + bufbytes] == window
      ensures bufbytes + want <= bufread && (end == bufbytes || end == startOfLine + bufbytes)
      ensures want == 0 ==> unchanged(this) && maxSize < 2 * bufread && bufread < bufbytes + IO_SIZE
    {
      want := Room(bufbytes);
      while want == 0
        invariant buffer == old(buffer) || fresh(buffer)
        invariant want == 0 ==> unchanged(this) && bufread < bufbytes + IO_SIZE
        invariant IO_SIZE <= bufread && buffer.Length == bufread + 1
        invariant startOfLine + bufbytes < buffer.Length && buffer[startOfLine..startOfLine + bufbytes] == window
        invariant bufbytes + want <= bufread && (end == bufbytes || end == startOfLine + bufbytes)
        decreases want == 0
      {
        if bufread * 2 > maxSize { return; }
        Grow(bufbytes, window);
        want := Room(bufbytes);
      }
    }

    /** bmove: the unfinished line moves to the front of the buffer. */
    method ShiftDown(bufbytes: nat, ghost window: string)
      requires startOfLine + bufbytes < buffer.Length
      requires buffer[startOfLine..startOfLine + bufbytes] == window
      modifies this`end, buffer
      ensures end == bufbytes && buffer[..bufbytes] == window
    {
      ghost var before := buffer[..];
      for i := 0 to bufbytes
        invariant forall k :: 0 <= k < i ==> buffer[k] == before[startOfLine + k]
        invariant forall k :: i <= k < buffer.Length ==> buffer[k] == before[k]
      {
        buffer[i] := buffer[startOfLine + i];
      }
      assert buffer[..bufbytes] == before[startOfLine..startOfLine + bufbytes];
      end := bufbytes;
    }

    /** my_read: any positive number of bytes that the file has and the caller
        asked for; none at the end of the file only. */
    method Read(count: nat, ghost window: string) returns (n: nat)
      requires count > 0 && end + count < buffer.Length
      requires buffer[..end] == window
      modifies this`file, buffer
      ensures n <= count && (n == 0 <==> old(file) == "")
      ensures n <= |old(file)| && file == old(file)[n..]
      ensures buffer[..end] == window && buffer[end..end + n] == old(file)[..n]
    {
      if file == "" {
        n := 0;
      } else {
        n :| 0 < n <= count && n <= |file|;
      }
      Store(buffer, end, file[..n]);
      file := file[n..];
    }

    /** fill_buffer: more input behind the unfinished line, which moves to the front.
        Zero means the end of the input, or a line too long for the buffer. */
    method FillBuffer(ghost window: string) returns (count: nat)
      requires Valid() && buffer[startOfLine..end] == window
      modifies this, buffer
      ensures Valid() && (buffer == old(buffer) || fresh(buffer))
      ensures maxSize == old(maxSize) && truncated == old(truncated)
      ensures old(eof) ==> eof && count == 0
      ensures count == 0 && eof == old(eof) ==> unchanged(this) && unchanged(buffer)
      ensures count == 0 && !eof ==> maxSize < 2 * bufread && bufread < |window| + IO_SIZE && window != ""
      ensures count == 0 && eof && !old(eof) ==> old(file) == "" && (window == "" || window[|window| - 1] == '\n')
      ensures count == 0 && eof && !old(eof) ==> endOfLine == end
      ensures count > 0 ==> startOfLine == 0 && endOfLine == |window| && end == |window| + count
      ensures count > 0 ==> buffer[..endOfLine] == window
      ensures count > 0 && !eof ==> buffer[endOfLine..end] + file == old(file)
      ensures count > 0 && eof ==> file == old(file) == "" && window != "" && count == 1 && buffer[endOfLine] == '\n'
    {
      var bufbytes := end - startOfLine;
      if eof { return 0; }
      var want := MakeRoom(bufbytes, window);
      if want == 0 { return 0; }
      if startOfLine != 0 { ShiftDown(bufbytes, window); }
      count := Load(want, bufbytes, window);
    }

    /** The rest of fill_buffer: read behind the unfinished line. At the end of the
        file, an unterminated last line gets a newline. */
    method Load(want: nat, bufbytes: nat, ghost window: string) returns (count: nat)
      requires want > 0 && bufbytes + want < buffer.Length && end == bufbytes && !eof
      requires IO_SIZE <= bufread && buffer.Length == bufread + 1
      requires buffer[..bufbytes] == window
      modifies this, buffer
      ensures Valid() && unchanged(this`buffer, this`maxSize, this`truncated, this`bufread)
      ensures startOfLine == 0 && endOfLine == bufbytes && buffer[..bufbytes] == window
      ensures end == bufbytes + count
      ensures count == 0 ==> eof && old(file) == ""
      ensures count == 0 ==> window == "" || window[|window| - 1] == '\n'
      ensures count > 0 && !eof ==> buffer[endOfLine..end] + file == old(file)
      ensures count > 0 && eof ==> file == old(file) == "" && window != "" && count == 1 && buffer[endOfLine] == '\n'
    {
      ghost var input := file;
      count := Read(want, window);
      assert input[..count] + input[count..] == input;
      if count == 0 {
        eof := true;
        if bufbytes != 0 && buffer[end - 1] != '\n' {
          count := 1;
          buffer[end] := '\n';
        }
      }
      startOfLine, endOfLine, end := 0, bufbytes, end + count;
      buffer[end] := NUL;
      assert !eof ==> buffer[endOfLine..end] == input[..count];
    }

    /** The inner scan of intern_read_line. */
    method FindNewline() returns (pos: nat)
      requires Valid()
      ensures endOfLine <= pos <= end && (pos < end ==> buffer[pos] == '\n')
      ensures forall i :: endOfLine <= i < pos ==> buffer[i] != '\n'
    {
      pos := endOfLine;
      while buffer[pos] != '\n' && pos != end
        decreases end - pos
        invariant endOfLine <= pos <= end
        invariant forall i :: endOfLine <= i < pos ==> buffer[i] != '\n'
      {
        pos := pos + 1;
      }
    }

    /** The state of intern_read_line between scans: no newline up to `endOfLine`, and
        `total` is still to come, or has got its final newline (`Sentinel`). */
    ghost predicate Looking(total: string, inString: bool)
      reads this, buffer
    {
      && Valid()
      && (forall i :: startOfLine <= i < endOfLine ==> buffer[i] != '\n')
      && (inString ==> eof && startOfLine == endOfLine)
      && if eof == inString then buffer[startOfLine..end] + file == total else Sentinel(total)
    }

    /** The input ended without a newline and one was added to the last line. */
    ghost predicate Sentinel(last: string)
      reads this, buffer
    {
      && Valid() && endOfLine + 1 == end && buffer[endOfLine] == '\n'
      && last != "" && buffer[startOfLine..endOfLine] == last
    }

    /** No newline in the buffer: get more. */
    method Refill(ghost total: string, ghost inString: bool) returns (length: nat)
      requires Looking(total, inString)
      requires forall i :: startOfLine <= i < end ==> buffer[i] != '\n'
      modifies this, buffer
      ensures Valid() && (buffer == old(buffer) || fresh(buffer)) && maxSize == old(maxSize)
      ensures length > 0 ==> Looking(total, inString) && (|file| < |old(file)| || (file == old(file) && eof && !old(eof)))
      ensures length == 0 && eof ==> total == "" && Pending() == ""
      ensures length == 0 && !eof ==>
        && !inString && buffer[startOfLine..end] + file == total
        && startOfLine < end && maxSize < 2 * bufread && bufread < end - startOfLine + IO_SIZE
        && forall i :: startOfLine <= i < end ==> buffer[i] != '\n'
    {
      ghost var window := buffer[startOfLine..end];
      assert forall i :: 0 <= i < |window| ==> window[i] != '\n';
      length := FillBuffer(window);
      if length > 0 {
        assert forall i :: 0 <= i < endOfLine ==> buffer[i] == window[i];
        assert buffer[startOfLine..endOfLine] == window;
        assert buffer[startOfLine..end] == window + buffer[endOfLine..end];
      }
    }

    /** The raw line, but for a newline left out, stands at `startOfLine`, and the byte
        after it can take a terminator. */
    ghost predicate Standing(raw: string, ending: Ending, n: nat, inString: bool)
      reads this, buffer
    {
      && Valid() && IsRaw(raw, ending) && (truncated <==> ending == Cut)
      && (ending == LastLine <==> eof && !inString) && (ending == Cut ==> !inString)
      && n == (if ending == AtNewline && inString then |raw| - 1 else |raw|)
      && startOfLine + n <= endOfLine
      && buffer[startOfLine..startOfLine + n] == raw[..n]
      && match ending
         case AtNewline => startOfLine + |raw| == endOfLine
         case Cut => startOfLine + n == endOfLine == end && maxSize < 2 * bufread && bufread < |raw| + IO_SIZE
         case LastLine => startOfLine + n + 1 == endOfLine == end
    }

    /** Where the line returned last stands: before what is pending, with its terminator
        over its newline, unless it was cut. */
    ghost predicate Placed(exact: bool)
      reads this
    {
      if truncated then startOfLine + readLength == endOfLine == end
      else startOfLine + readLength < endOfLine && (exact ==> startOfLine + readLength + 1 == endOfLine)
    }

    /** intern_read_line */
    method InternReadLine(ghost total: string)
      returns (found: bool, outLength: nat, ghost raw: string, ghost ending: Ending)
      requires Valid() && total == Pending()
      modifies this, buffer
      ensures Valid() && (buffer == old(buffer) || fresh(buffer)) && maxSize == old(maxSize)
      ensures found <==> total != ""
      ensures !found ==> Pending() == ""
      ensures old(eof) ==> eof
      ensures found ==> total == raw + Pending() && Standing(raw, ending, outLength, old(eof))
      ensures found && old(eof) ==> ending != Cut
    {
      startOfLine := endOfLine;
      raw, ending := "", Cut;
      while true
        invariant (buffer == old(buffer) || fresh(buffer)) && maxSize == old(maxSize)
        invariant Looking(total, old(eof))
        decreases |file|, !eof
      {
        var pos := FindNewline();
        if pos == end {
          var length := Refill(total, old(eof));
          if length == 0 {
            if eof { return false, 0, "", Cut; }
            outLength, raw := TakeCut(total);
            return true, outLength, raw, Cut;
          }
        } else {
          outLength, raw, ending := TakeLine(pos, total, old(eof));
          return true, outLength, raw, ending;
        }
      }
    }

    /** The buffer is full: break the line here. */
    method TakeCut(ghost total: string) returns (outLength: nat, ghost raw: string)
      requires Valid() && !eof && startOfLine < end && buffer[startOfLine..end] + file == total
      requires maxSize < 2 * bufread && bufread < end - startOfLine + IO_SIZE
      requires forall i :: startOfLine <= i < end ==> buffer[i] != '\n'
      modifies this`truncated, this`endOfLine
      ensures Valid() && total == raw + Pending() && Standing(raw, Cut, outLength, false) && total != ""
    {
      raw := buffer[startOfLine..end];
      truncated, endOfLine, outLength := true, end, end - startOfLine;
      assert buffer[endOfLine..end] + file == file;
    }

    /** The newline is at `pos`. */
    method TakeLine(pos: nat, ghost total: string, ghost inString: bool)
      returns (outLength: nat, ghost raw: string, ghost ending: Ending)
      requires Looking(total, inString) && endOfLine <= pos < end && buffer[pos] == '\n'
      requires forall i :: endOfLine <= i < pos ==> buffer[i] != '\n'
      modifies this`truncated, this`endOfLine
      ensures Valid() && total == raw + Pending() && Standing(raw, ending, outLength, inString) && total != ""
    {
      if eof == inString {
        raw, ending := buffer[startOfLine..pos + 1], AtNewline;
      } else {
        raw, ending := buffer[startOfLine..pos], LastLine;
      }
      truncated, endOfLine := false, pos + 1;
      outLength := pos + 1 - startOfLine - (if eof then 1 else 0);
      assert buffer[startOfLine..end] == buffer[startOfLine..endOfLine] + buffer[endOfLine..end];
    }

    /** batch_readline: the next line, without its newline, and terminated. */
    method BatchReadline(binary: bool, ghost total: string)
      returns (found: bool, ghost raw: string, ghost ending: Ending)
      requires Valid() && total == Pending()
      modifies this, buffer
      ensures Valid() && (buffer == old(buffer) || fresh(buffer)) && maxSize == old(maxSize)
      ensures found <==> total != ""
      ensures found ==> total == raw + Pending() && IsRaw(raw, ending)
      ensures found ==> Current(TextOf(raw, ending, binary || old(eof))) && (truncated <==> ending == Cut)
      ensures found ==> Placed(binary || old(eof))
      ensures !found ==> Pending() == ""
      ensures found && ending == LastLine ==> Pending() == "" && !old(eof)
      ensures found && eof && !old(eof) ==> ending == LastLine
      ensures found && ending == Cut ==> maxSize < 2 * (|raw| + IO_SIZE) && !old(eof)
      ensures old(eof) ==> eof
    {
      var n;
      found, n, raw, ending := InternReadLine(total);
      if !found { return; }
      Terminate(n, binary, raw, ending, old(eof));
    }

    /** Cut off the newline and the carriage return, and terminate the line. */
    method Terminate(outLength: nat, binary: bool, ghost raw: string, ghost ending: Ending, ghost inString: bool)
      requires Standing(raw, ending, outLength, inString)
      modifies this`readLength, buffer
      ensures Valid() && Pending() == old(Pending())
      ensures Current(TextOf(raw, ending, binary || inString)) && Placed(binary || inString)
    {
      var n := LineEnd(outLength, binary, raw, ending, inString);
      readLength := n;
      buffer[startOfLine + n] := NUL;
    }

    /** The length of the line without its newline and carriage return. */
    method LineEnd(outLength: nat, binary: bool, ghost raw: string, ghost ending: Ending, ghost inString: bool)
      returns (n: nat)
      requires Standing(raw, ending, outLength, inString)
      ensures n <= outLength && (ending == AtNewline ==> n < |raw|)
      ensures ending != AtNewline ==> n == outLength
      ensures buffer[startOfLine..startOfLine + n] == TextOf(raw, ending, binary || inString)
    {
      ghost var window := buffer[startOfLine..startOfLine + outLength];
      assert forall i :: 0 <= i < outLength ==> window[i] == buffer[startOfLine + i];
      n := outLength;
      if n != 0 && buffer[startOfLine + n - 1] == '\n' {
        n := n - 1;
        if n != 0 && !binary && buffer[startOfLine + n - 1] == '\r' {
          n := n - 1;
        }
      }
      TrimmedLength(window, binary);
      TrimmedIs(raw, ending, outLength, binary, inString);
    }
  }

  /** Every line of the input, in order. For any schedule of reads, the lines are
      those of plain splitting; pieces are cut in long lines only, are not empty, and
      in binary mode, or from a command string, glue back to the lines. Otherwise they do
      so exactly if no cut fell between a carriage return and its newline. */
  method ReadAll(input: LineBuffer, binary: bool) returns (pieces: seq<Piece>, ghost raws: seq<Raw>)
    requires input.Valid()
    modifies input, input.buffer
    ensures forall i :: 0 <= i < |pieces| && pieces[i].truncated ==> pieces[i].text != "" && '\n' !in pieces[i].text
    ensures forall i :: 0 <= i < |pieces| && pieces[i].truncated ==>
      old(input.maxSize) < 2 * (|pieces[i].text| + IO_SIZE)
    ensures IsRun(raws) && Concat(raws) == old(input.Pending()) && pieces == Pieces(raws, binary || old(input.eof))
    ensures var exact := binary || old(input.eof);
      Glue(pieces) == SplitLines(old(input.Pending()), exact) <==> exact || !CutsReturn(raws)
    ensures Fits(old(input.Pending()), old(input.maxSize)) || old(input.eof) ==>
      forall i :: 0 <= i < |pieces| ==> !pieces[i].truncated
  {
    pieces, raws := [], [];
    ghost var total, exact := input.Pending(), binary || input.eof;
    var found := true;
    while found
      invariant input.Valid() && (input.buffer == old(input.buffer) || fresh(input.buffer))
      invariant input.maxSize == old(input.maxSize) && (old(input.eof) ==> input.eof)
      invariant (input.eof && !old(input.eof)) || !found ==> input.Pending() == ""
      invariant Progress(raws, pieces, exact, total, input.Pending(), input.maxSize, old(input.eof))
      decreases found, |input.Pending()|
    {
      ghost var raw, ending;
      found, raw, ending := input.BatchReadline(binary, input.Pending());
      if found {
        NextLine(raws, pieces, Raw(raw, ending), exact, total, input.Pending(), input.maxSize, old(input.eof));
        var text := input.buffer[input.startOfLine..input.startOfLine + input.readLength];
        pieces := pieces + [Piece(text, input.truncated)];
        raws := raws + [Raw(raw, ending)];
      }
    }
    AllLines(raws, pieces, exact, total, input.maxSize, old(input.eof));
  }
}
