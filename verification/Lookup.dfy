/** Which texts are client commands (find_command in client/mysql.cc), stated for printed
    command lines: white space, a name and perhaps an argument. */
module Lookup {
  import opened Text
  import opened ArgParser
  import opened Splitter

  // ------------------------------------------------------------ letters

  ghost predicate DistinctLetters(e: Env) {
    forall i, j :: 0 <= i < j < |e.table| ==> e.table[i].letter != e.table[j].letter
  }

  lemma {:induction false} LetterIn(table: seq<Command>, i: nat)
    requires i < |table| && forall j :: 0 <= j < i ==> table[j].letter != table[i].letter
    ensures FindLetterIn(table, table[i].letter) == Some(table[i])
  {
    if i > 0 {
      assert table[1..][i - 1] == table[i];
      LetterIn(table[1..], i - 1);
    }
  }

  lemma {:induction false} LetterNotIn(table: seq<Command>, c: char)
    ensures FindLetterIn(table, c) == None <==> forall j :: 0 <= j < |table| ==> table[j].letter != c
  {
    if table != [] {
      LetterNotIn(table[1..], c);
      assert forall j :: 0 < j < |table| ==> table[j] == table[1..][j - 1];
    }
  }

  /** Each letter finds its command, and no other letter finds one; in binary mode only `\C`
      does. */
  lemma LetterFinds(e: Env, c: char)
    requires DistinctLetters(e)
    ensures forall i :: 0 <= i < |e.table| && e.table[i].letter == c && (e.binaryMode ==> c == 'C') ==>
      FindLetter(e, c) == Some(e.table[i])
    ensures (e.binaryMode && c != 'C') || (forall i :: 0 <= i < |e.table| ==> e.table[i].letter != c) ==> FindLetter(e, c) == None
  {
    LetterNotIn(e.table, c);
    forall i | 0 <= i < |e.table| && e.table[i].letter == c ensures FindLetterIn(e.table, c) == Some(e.table[i]) {
      LetterIn(e.table, i);
    }
  }

  // ------------------------------------------------------------ names

  ghost predicate DistinctNames(e: Env) {
    forall i, j :: 0 <= i < j < |e.table| ==> !SameName(e, e.table[i].name, e.table[j].name)
  }

  /** A word, and what follows it on the line. */
  predicate Heads(name: string, args: string) {
    && LongCommand(name) && (args == "" || args[0] == ' ' || args[0] == '\t')
  }

  lemma {:induction false} NameLengthIs(name: string, args: string)
    requires forall i :: 0 <= i < |name| ==> !IsSpace(name[i])
    requires args == "" || args[0] == ' ' || args[0] == '\t'
    ensures NameLength(name + args) == |name|
  {
    if name == "" {
      assert name + args == args;
    } else {
      assert (name + args)[1..] == name[1..] + args;
      NameLengthIs(name[1..], args);
    }
  }

  lemma SameFold(e: Env, s: string, t: string, u: string)
    requires SameName(e, s, t) && SameName(e, s, u)
    ensures SameName(e, t, u)
  {
  }

  lemma {:induction false} NamedIn(e: Env, table: seq<Command>, s: string, i: nat)
    requires i < |table| && SameName(e, s[..NameLength(s)], table[i].name)
    requires forall j :: 0 <= j < |table| && j != i ==> !SameName(e, s[..NameLength(s)], table[j].name)
    ensures FindNameIn(e, table, s) ==
      if DropSpaces(s[NameLength(s)..]) == "" || (table[i].takesParams && HasArgument(s)) then Some(table[i]) else None
  {
    if i > 0 {
      assert table[1..][i - 1] == table[i] && forall j :: 0 <= j < |table[1..]| ==> table[1..][j] == table[j + 1];
      NamedIn(e, table[1..], s, i - 1);
    } else {
      NoneNamed(e, table[1..], s);
    }
  }

  lemma {:induction false} NoneNamed(e: Env, table: seq<Command>, s: string)
    requires forall i :: 0 <= i < |table| ==> !SameName(e, s[..NameLength(s)], table[i].name)
    ensures FindNameIn(e, table, s) == None
  {
    if table != [] { NoneNamed(e, table[1..], s); }
  }

  /** The first nine characters are `delimiter`, without regard to case. */
  predicate StartsDelimiter(e: Env, s: string) {
    |s| >= 9 && forall i :: 0 <= i < 9 ==> e.fold(s[i]) == e.fold("delimiter"[i])
  }

  /** The text is left to the splitter: it has a `\g`, or the delimiter without being a
      DELIMITER command. */
  predicate LeftToSplitter(e: Env, s: string, d: string) {
    || (!e.binaryMode && exists i :: 0 <= i <= |s| && PrefixAt(s, i, "\\g"))
    || ((exists i :: 0 <= i <= |s| && PrefixAt(s, i, d)) && !StartsDelimiter(e, s))
  }

  lemma Undivided(e: Env, s: string, d: string)
    requires '\\' !in s && d != "" && d[0] !in s
    ensures !LeftToSplitter(e, s, d)
  {
    forall i: nat, t: string | t != "" && PrefixAt(s, i, t) ensures t[0] in s {
      assert s[i..i + |t|][0] == s[i];
    }
  }

  /** Outside binary mode a name is looked up without regard to case, and its command is found
      if nothing follows, or an argument that it takes. */
  lemma NameFinds(e: Env, d: string, lead: string, name: string, args: string, i: nat)
    requires !e.binaryMode && DistinctNames(e) && i < |e.table| && SameName(e, name, e.table[i].name)
    requires Heads(name, args) && Spaces(lead) && !LeftToSplitter(e, name + args, d)
    ensures FindName(e, lead + (name + args), d) ==
      if DropSpaces(args) == "" || (e.table[i].takesParams && HasArgument(name + args)) then Some(e.table[i]) else None
  {
    var s := name + args;
    DropGap(lead, s);
    NameLengthIs(name, args);
    assert s[..|name|] == name && s[|name|..] == args;
    forall j | 0 <= j < |e.table| && j != i ensures !SameName(e, name, e.table[j].name) {
      if SameName(e, name, e.table[j].name) {
        SameFold(e, name, e.table[i].name, e.table[j].name);
        SameFold(e, name, e.table[j].name, e.table[i].name);
      }
    }
    NamedIn(e, e.table, s, i);
  }

  lemma {:induction false} DropAll(s: string)
    requires Spaces(s)
    ensures DropSpaces(s) == ""
  {
    if s != "" { DropAll(s[1..]); }
  }

  /** A name alone finds its command. */
  lemma NameAlone(e: Env, d: string, lead: string, name: string, trail: string, i: nat)
    requires !e.binaryMode && DistinctNames(e) && i < |e.table| && SameName(e, name, e.table[i].name)
    requires Heads(name, trail) && Spaces(lead) && Spaces(trail) && !LeftToSplitter(e, name + trail, d)
    ensures FindName(e, lead + (name + trail), d) == Some(e.table[i])
  {
    DropAll(trail);
    NameFinds(e, d, lead, name, trail, i);
  }

  /** A name with an argument, bare or quoted, finds its command if and only if that takes
      parameters. */
  lemma NameWithArgument(e: Env, d: string, lead: string, name: string, gap: string, x: string, quote: char, tail: string, i: nat)
    requires !e.binaryMode && DistinctNames(e) && i < |e.table| && SameName(e, name, e.table[i].name)
    requires Leads(name, gap) && Heads(name, gap) && x != "" && NUL !in x && Closes(quote, false, tail) && Spaces(lead)
    requires !LeftToSplitter(e, name + (gap + ((if quote == NUL then "" else [quote]) + (Slashed(x) + tail))), d)
    ensures FindName(e, lead + (name + (gap + ((if quote == NUL then "" else [quote]) + (Slashed(x) + tail)))), d) ==
      if e.table[i].takesParams then Some(e.table[i]) else None
  {
    var v := (if quote == NUL then "" else [quote]) + (Slashed(x) + tail);
    SlashedArgument(name, gap, x, quote, tail);
    assert (gap + v)[0] == gap[0];
    assert v[0] == if quote == NUL then SlashedChar(x[0])[0] else quote;
    DropGap(gap, v);
    NameFinds(e, d, lead, name, gap + v, i);
  }

  /** DELIMITER is found although the delimiter, old or new, follows it. */
  lemma DelimiterFinds(e: Env, d: string, lead: string, name: string, args: string, i: nat)
    requires !e.binaryMode && DistinctNames(e) && i < |e.table| && SameName(e, name, e.table[i].name)
    requires SameName(e, name, DELIMITER_NAME) && e.table[i].takesParams
    requires Heads(name, args) && Spaces(lead) && !Contains(name + args, "\\g") && HasArgument(name + args)
    ensures FindName(e, lead + (name + args), d) == Some(e.table[i])
  {
    assert (name + args)[..9] == name;
    NameFinds(e, d, lead, name, args, i);
  }

  /** In binary mode DELIMITER alone is found, whatever follows it. */
  lemma BinaryFinds(e: Env, d: string, lead: string, name: string, args: string)
    requires e.binaryMode && Heads(name, args) && Spaces(lead)
    ensures FindName(e, lead + (name + args), d) == if StartsDelimiter(e, name) then FindLetterIn(e.table, 'd') else None
  {
    var s := name + args;
    DropGap(lead, s);
    NameLengthIs(name, args);
    assert s[..|name|] == name && (|name| >= 9 ==> s[..9] == name[..9]);
  }

  /** A word that names no command finds none, and neither does a text that is left to the
      splitter. */
  lemma NoCommand(e: Env, d: string, lead: string, name: string, args: string)
    requires Heads(name, args) && Spaces(lead)
    requires (!e.binaryMode && forall i :: 0 <= i < |e.table| ==> !SameName(e, name, e.table[i].name))
      || LeftToSplitter(e, name + args, d)
    ensures FindName(e, lead + (name + args), d) == None
  {
    var s := name + args;
    DropGap(lead, s);
    NameLengthIs(name, args);
    assert s[..|name|] == name;
    if !e.binaryMode && forall i :: 0 <= i < |e.table| ==> !SameName(e, name, e.table[i].name) { NoneNamed(e, e.table, s); }
  }
}
