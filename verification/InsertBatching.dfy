/** Extended INSERTs of mysqldump (the row loop of dump_table in client/mysqldump.c): rows
    are packed into statements, a new one as soon as the next row would not fit. */
module InsertBatching {

  /** The INSERT prefix of a table, and --net_buffer_length. */
  datatype Limits = Limits(pattern: string, netBufferLength: nat)

  /** What the program counts for a row, and for the rows of a statement. */
  function RowCost(row: string): nat {
    2 + |row|
  }

  function RowsCost(rows: seq<string>): nat {
    if rows == [] then 0 else RowsCost(rows[..|rows| - 1]) + RowCost(rows[|rows| - 1])
  }

  function Cost(l: Limits, rows: seq<string>): nat {
    |l.pattern| + 4 + RowsCost(rows)
  }

  /** A statement of several rows stays below the limit; one row always goes out. */
  predicate Admissible(l: Limits, rows: seq<string>) {
    |rows| == 1 || (|rows| > 1 && Cost(l, rows) < l.netBufferLength)
  }

  predicate Packing(l: Limits, groups: seq<seq<string>>) {
    forall i :: 0 <= i < |groups| ==> Admissible(l, groups[i])
  }

  function Flatten(groups: seq<seq<string>>): seq<string> {
    if groups == [] then [] else groups[0] + Flatten(groups[1..])
  }

  /** The greedy packing, with the rows `open` in the current statement. */
  function Pack(l: Limits, open: seq<string>, rows: seq<string>): seq<seq<string>>
    decreases |rows|
  {
    if rows == [] then [open]
    else if Cost(l, open) + RowCost(rows[0]) < l.netBufferLength then Pack(l, open + [rows[0]], rows[1..])
    else [open] + Pack(l, [rows[0]], rows[1..])
  }

  function Greedy(l: Limits, rows: seq<string>): seq<seq<string>> {
    if rows == [] then [] else Pack(l, [rows[0]], rows[1..])
  }

  // ------------------------------------------------------------ the dump file

  function CommaSeparated(rows: seq<string>): string {
    if rows == [] then ""
    else if |rows| == 1 then rows[0]
    else CommaSeparated(rows[..|rows| - 1]) + "," + rows[|rows| - 1]
  }

  function Statement(l: Limits, rows: seq<string>): string {
    l.pattern + CommaSeparated(rows) + ";\n"
  }

  function Statements(l: Limits, groups: seq<seq<string>>): string {
    if groups == [] then "" else Statement(l, groups[0]) + Statements(l, groups[1..])
  }

  // ------------------------------------------------------------ facts about costs

  lemma {:induction false} CostSnoc(rows: seq<string>, row: string)
    ensures RowsCost(rows + [row]) == RowsCost(rows) + RowCost(row)
  {
    assert (rows + [row])[..|rows|] == rows;
  }

  lemma {:induction false} CostConcat(a: seq<string>, b: seq<string>)
    ensures RowsCost(a + b) == RowsCost(a) + RowsCost(b)
  {
    if b == [] {
      assert a + b == a;
    } else {
      var n := |b| - 1;
      CostConcat(a, b[..n]);
      assert a + b == a + b[..n] + [b[n]];
      CostSnoc(a + b[..n], b[n]);
    }
  }

  /** The bytes of a statement: fewer than were counted, by the number of rows and 3. */
  lemma {:induction false} StatementLength(l: Limits, rows: seq<string>)
    requires rows != []
    ensures |Statement(l, rows)| + |rows| + 3 == Cost(l, rows)
  {
    SeparatedLength(rows);
  }

  /** Rows are separated by commas, and the statement ends in a semicolon and a newline. */
  lemma {:induction false} StatementText(l: Limits, first: string, rows: seq<string>)
    ensures Statement(l, [first] + rows) == l.pattern + first + WithCommas(rows) + ";\n"
  {
    SeparatedText(first, rows);
    assert l.pattern + (first + WithCommas(rows)) + ";\n" == l.pattern + first + WithCommas(rows) + ";\n";
  }

  /** Each row with its comma before it. */
  function WithCommas(rows: seq<string>): string {
    if rows == [] then "" else WithCommas(rows[..|rows| - 1]) + ("," + rows[|rows| - 1])
  }

  lemma {:induction false} SeparatedText(first: string, rows: seq<string>)
    ensures CommaSeparated([first] + rows) == first + WithCommas(rows)
    decreases |rows|
  {
    if rows == [] {
      assert [first] + rows == [first] && first + "" == first;
    } else {
      var n := |rows| - 1;
      SeparatedText(first, rows[..n]);
      assert ([first] + rows)[..n + 1] == [first] + rows[..n];
      assert first + WithCommas(rows[..n]) + "," + rows[n] == first + (WithCommas(rows[..n]) + ("," + rows[n]));
    }
  }

  lemma {:induction false} SeparatedLength(rows: seq<string>)
    requires rows != []
    ensures |CommaSeparated(rows)| + |rows| + 1 == RowsCost(rows)
  {
    if |rows| == 1 {
      assert rows[..0] == [];
    } else {
      SeparatedLength(rows[..|rows| - 1]);
    }
  }

  // ------------------------------------------------------------ greedy packing is admissible

  lemma {:induction false} PackIsPacking(l: Limits, open: seq<string>, rows: seq<string>)
    requires Admissible(l, open)
    ensures Packing(l, Pack(l, open, rows)) && Flatten(Pack(l, open, rows)) == open + rows
    decreases |rows|
  {
    if rows == [] {
      assert open + rows == open;
      assert Pack(l, open, rows)[1..] == [];
      assert open + [] == open;
    } else if Cost(l, open) + RowCost(rows[0]) < l.netBufferLength {
      CostSnoc(open, rows[0]);
      PackIsPacking(l, open + [rows[0]], rows[1..]);
      assert open + [rows[0]] + rows[1..] == open + rows;
    } else {
      PackIsPacking(l, [rows[0]], rows[1..]);
      assert Pack(l, open, rows)[1..] == Pack(l, [rows[0]], rows[1..]);
      assert [rows[0]] + rows[1..] == rows;
    }
  }

  /** Every row is in exactly one statement, in order, and every statement of several
      rows is shorter than the limit, in bytes written. */
  lemma GreedyPacks(l: Limits, rows: seq<string>)
    ensures Flatten(Greedy(l, rows)) == rows && Packing(l, Greedy(l, rows))
    ensures forall g :: g in Greedy(l, rows) ==>
      g != [] && (|g| > 1 ==> |Statement(l, g)| < l.netBufferLength)
  {
    if rows != [] {
      PackIsPacking(l, [rows[0]], rows[1..]);
      assert [rows[0]] + rows[1..] == rows;
    }
    forall g | g in Greedy(l, rows) ensures g != [] && (|g| > 1 ==> |Statement(l, g)| < l.netBufferLength) {
      StatementLength(l, g);
    }
  }

  // ------------------------------------------------------------ and the best one

  /** A packing of `open` and `rows` whose first statement starts no later than `open`
      is not shorter: `earlier + open` are the rows of its first statement up to here. */
  lemma {:induction false} NoWorse(l: Limits, earlier: seq<string>, open: seq<string>, z: seq<string>,
                                   tail: seq<seq<string>>, rows: seq<string>)
    requires open != [] && Admissible(l, earlier + open + z) && Packing(l, tail)
    requires z + Flatten(tail) == rows
    ensures |Pack(l, open, rows)| <= 1 + |tail|
    decreases |rows|, 2
  {
    if rows != [] {
      if z == [] {
        assert Flatten(tail) == rows;
        OneMore(l, open, tail, rows);
      } else {
        var r := z[0];
        assert r == rows[0];
        var a := earlier + open + z;
        assert a == earlier + (open + [r]) + z[1..];
        CostConcat(earlier + (open + [r]), z[1..]);
        CostConcat(earlier, open + [r]);
        CostSnoc(open, r);
        assert |a| > 1;
        assert rows[1..] == z[1..] + Flatten(tail);
        NoWorse(l, earlier, open + [r], z[1..], tail, rows[1..]);
      }
    }
  }

  lemma FirstGroup(l: Limits, rows: seq<string>, groups: seq<seq<string>>) returns (g: seq<string>)
    requires Packing(l, groups) && Flatten(groups) == rows && rows != []
    ensures groups != [] && g == groups[0] && Admissible(l, g) && Packing(l, groups[1..])
    ensures g == [rows[0]] + g[1..] && rows[1..] == g[1..] + Flatten(groups[1..])
  {
    g := groups[0];
    assert Admissible(l, g);
    assert rows == g + Flatten(groups[1..]);
  }

  /** Starting in an open statement costs at most one statement more than any packing of
      the rows to come. */
  lemma {:induction false} OneMore(l: Limits, open: seq<string>, groups: seq<seq<string>>, rows: seq<string>)
    requires open != [] && Packing(l, groups) && Flatten(groups) == rows
    ensures |Pack(l, open, rows)| <= 1 + |groups|
    decreases |rows|, 1
  {
    if rows != [] {
      var g := FirstGroup(l, rows, groups);
      var tail := groups[1..];
      var r, z := rows[0], g[1..];
      if Cost(l, open) + RowCost(r) < l.netBufferLength {
        if z == [] {
          assert z + Flatten(tail) == Flatten(tail);
          OneMore(l, open + [r], tail, rows[1..]);
        } else {
          CostConcat([r], z);
          var groups' := [z] + tail;
          assert groups'[1..] == tail;
          OneMore(l, open + [r], groups', rows[1..]);
        }
      } else {
        assert [] + [r] + z == g;
        NoWorse(l, [], [r], z, tail, rows[1..]);
      }
    }
  }

  /** No way to cut the rows into admissible statements, in order, uses fewer. */
  lemma GreedyIsBest(l: Limits, rows: seq<string>, groups: seq<seq<string>>)
    requires Packing(l, groups) && Flatten(groups) == rows
    ensures |Greedy(l, rows)| <= |groups|
  {
    if rows != [] {
      var g := FirstGroup(l, rows, groups);
      assert [] + [rows[0]] + g[1..] == g;
      NoWorse(l, [], [rows[0]], g[1..], groups[1..], rows[1..]);
    }
  }

  // ------------------------------------------------------------ the loop

  /** The file after some rows: complete statements, and the rows of the last one. */
  ghost predicate Written(l: Limits, file: string, done: seq<seq<string>>, open: seq<string>) {
    if open == [] then done == [] && file == ""
    else file == Statements(l, done) + (l.pattern + CommaSeparated(open))
  }

  lemma {:induction false} StatementsSnoc(l: Limits, done: seq<seq<string>>, g: seq<string>)
    ensures Statements(l, done + [g]) == Statements(l, done) + Statement(l, g)
  {
    if done == [] {
      assert done + [g] == [g] && Statement(l, g) + "" == Statement(l, g);
      assert "" + Statement(l, g) == Statement(l, g);
    } else {
      assert (done + [g])[1..] == done[1..] + [g];
      StatementsSnoc(l, done[1..], g);
      assert Statement(l, done[0]) + (Statements(l, done[1..]) + Statement(l, g)) ==
        Statement(l, done[0]) + Statements(l, done[1..]) + Statement(l, g);
    }
  }

  lemma OpenRow(l: Limits, done: seq<seq<string>>, open: seq<string>, row: string)
    requires open != []
    ensures Statements(l, done) + (l.pattern + CommaSeparated(open)) + "," + row ==
      Statements(l, done) + (l.pattern + CommaSeparated(open + [row]))
  {
    assert (open + [row])[..|open|] == open;
    assert Statements(l, done) + (l.pattern + CommaSeparated(open)) + "," + row ==
      Statements(l, done) + (l.pattern + (CommaSeparated(open) + "," + row));
  }

  lemma CloseStatement(l: Limits, done: seq<seq<string>>, open: seq<string>)
    ensures Statements(l, done) + (l.pattern + CommaSeparated(open)) + ";\n" == Statements(l, done + [open])
  {
    StatementsSnoc(l, done, open);
    assert Statements(l, done) + (l.pattern + CommaSeparated(open)) + ";\n" ==
      Statements(l, done) + (l.pattern + CommaSeparated(open) + ";\n");
  }

  /** The state of the loop with `rows` still to come: the file so far, the count for the
      current statement, and which packing it will end in. */
  ghost predicate InLoop(l: Limits, goal: seq<seq<string>>, rows: seq<string>, file: string, total: nat,
                         done: seq<seq<string>>, open: seq<string>)
  {
    && Written(l, file, done, open)
    && total == (if open != [] then Cost(l, open) else l.netBufferLength)
    && goal == done + (if open != [] then Pack(l, open, rows) else Greedy(l, rows))
  }

  lemma AppendRow(l: Limits, goal: seq<seq<string>>, rows: seq<string>, file: string, total: nat,
                  done: seq<seq<string>>, open: seq<string>)
    requires InLoop(l, goal, rows, file, total, done, open) && rows != []
    requires total + RowCost(rows[0]) < l.netBufferLength
    ensures open != []
    ensures InLoop(l, goal, rows[1..], file + "," + rows[0], total + RowCost(rows[0]), done, open + [rows[0]])
  {
    OpenRow(l, done, open, rows[0]);
    CostSnoc(open, rows[0]);
  }

  lemma BreakRow(l: Limits, goal: seq<seq<string>>, rows: seq<string>, file: string, total: nat,
                 done: seq<seq<string>>, open: seq<string>)
    requires InLoop(l, goal, rows, file, total, done, open) && rows != []
    requires total + RowCost(rows[0]) >= l.netBufferLength
    ensures var file' := if open != [] then file + ";\n" else file;
      var done' := if open != [] then done + [open] else done;
      InLoop(l, goal, rows[1..], file' + l.pattern + rows[0], RowCost(rows[0]) + (|l.pattern| + 4), done', [rows[0]])
  {
    var file' := if open != [] then file + ";\n" else file;
    var done' := if open != [] then done + [open] else done;
    CloseStatement(l, done, open);
    StartRow(l, done, open, rows);
    CostSnoc([], rows[0]);
    assert [] + [rows[0]] == [rows[0]];
    assert file' == Statements(l, done');
    assert file' + l.pattern + rows[0] == file' + (l.pattern + rows[0]);
  }

  /** The row loop of dump_table with --extended-insert. */
  method DumpRows(l: Limits, rows: seq<string>) returns (file: string)
    ensures file == Statements(l, Greedy(l, rows))
  {
    var totalLength: nat := l.netBufferLength; // force row break
    var rowBreak := false;
    file := "";
    ghost var done: seq<seq<string>>, open: seq<string> := [], [];
    ghost var goal := Greedy(l, rows);
    assert rows[0..] == rows && [] + goal == goal;
    for n := 0 to |rows|
      invariant rowBreak == (open != [])
      invariant InLoop(l, goal, rows[n..], file, totalLength, done, open)
    {
      var rowLength := 2 + |rows[n]|;
      assert rows[n..][1..] == rows[n + 1..] && rows[n..][0] == rows[n];
      if totalLength + rowLength < l.netBufferLength {
        AppendRow(l, goal, rows[n..], file, totalLength, done, open);
        totalLength := totalLength + rowLength;
        file := file + "," + rows[n];
        open := open + [rows[n]];
      } else {
        BreakRow(l, goal, rows[n..], file, totalLength, done, open);
        if rowBreak {
          file := file + ";\n";
          done := done + [open];
        }
        rowBreak := true;
        file := file + l.pattern + rows[n];
        totalLength := rowLength + (|l.pattern| + 4);
        open := [rows[n]];
      }
    }
    assert rows[|rows|..] == [];
    CloseStatement(l, done, open);
    if rowBreak { file := file + ";\n"; }
  }

  lemma StartRow(l: Limits, done: seq<seq<string>>, open: seq<string>, rows: seq<string>)
    requires rows != [] && (open != [] ==> Cost(l, open) + RowCost(rows[0]) >= l.netBufferLength)
    ensures done + (if open != [] then Pack(l, open, rows) else Greedy(l, rows)) ==
      (if open != [] then done + [open] else done) + Pack(l, [rows[0]], rows[1..])
  {
    var p := Pack(l, [rows[0]], rows[1..]);
    assert done + ([open] + p) == done + [open] + p;
  }
}
