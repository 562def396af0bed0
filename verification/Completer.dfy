/** new_command_generator of client/mysql.cc: one completion per call, the position kept
    in static variables between calls. */
module Completer {
  import opened Text
  import opened CompletionHash

  /** The entries of a bucket that are whole words: as long as the key. */
  function WholeWords(data: seq<string>, n: nat): seq<string> {
    if data == [] then []
    else (if |data[0]| == n then [data[0]] else []) + WholeWords(data[1..], n)
  }

  function ChainWords(chain: seq<Bucket>): seq<string> {
    if chain == [] then []
    else WholeWords(chain[0].data, chain[0].nKeyLength) + ChainWords(chain[1..])
  }

  /** The whole words of a table, slot by slot. */
  function TableWords(slots: seq<seq<Bucket>>): seq<string> {
    if slots == [] then [] else ChainWords(slots[0]) + TableWords(slots[1..])
  }

  /** No chain holds an empty bucket. */
  ghost predicate AllUsed(slots: seq<seq<Bucket>>) {
    forall s, k :: 0 <= s < |slots| && 0 <= k < |slots[s]| ==> slots[s][k].data != []
  }

  /** The whole words in the slots behind slot `i`. */
  function Later(slots: seq<seq<Bucket>>, i: nat): seq<string> {
    if i < |slots| then TableWords(slots[i + 1..]) else []
  }

  /** The words still to come in a walk over the whole table that stands in slot `i`, in
      the first bucket of `chain`, at the entries `e`. */
  function Remaining(slots: seq<seq<Bucket>>, i: nat, chain: seq<Bucket>, e: seq<string>): seq<string> {
    if e == [] || chain == [] then []
    else WholeWords(e, chain[0].nKeyLength) + (ChainWords(chain[1..]) + Later(slots, i))
  }

  /** Some slot from `from` on is in use. */
  ghost predicate HasUsed(slots: seq<seq<Bucket>>, from: nat) {
    exists s :: from <= s < |slots| && slots[s] != []
  }

  /** The walk is over, or stands on an entry of a bucket. */
  ghost predicate Walking(chain: seq<Bucket>, e: seq<string>) {
    e != [] ==> chain != [] && forall k :: 0 <= k < |chain| ==> chain[k].data != []
  }

  lemma SlotStart(slots: seq<seq<Bucket>>, i: nat)
    requires i < |slots| && AllUsed(slots)
    ensures slots[i] == [] ==> TableWords(slots[i..]) == TableWords(slots[i + 1..])
    ensures slots[i] != [] ==>
      && Walking(slots[i], slots[i][0].data)
      && Remaining(slots, i, slots[i], slots[i][0].data) == TableWords(slots[i..])
  {
    assert slots[i..][1..] == slots[i + 1..] && slots[i..][0] == slots[i];
    if slots[i] != [] {
      var b := slots[i][0];
      assert WholeWords(b.data, b.nKeyLength) + ChainWords(slots[i][1..]) + TableWords(slots[i + 1..]) ==
        WholeWords(b.data, b.nKeyLength) + (ChainWords(slots[i][1..]) + TableWords(slots[i + 1..]));
    } else {
      assert [] + TableWords(slots[i + 1..]) == TableWords(slots[i + 1..]);
    }
  }

  /** The entry at which the walk stands, if it is a whole word. */
  function Head(chain: seq<Bucket>, e: seq<string>): seq<string>
    requires e != [] && chain != []
  {
    if |e[0]| == chain[0].nKeyLength then [e[0]] else []
  }

  /** One entry further, in the same bucket, in the next one, or in a later slot. */
  lemma EntryStep(slots: seq<seq<Bucket>>, i: nat, chain: seq<Bucket>, e: seq<string>)
    requires Walking(chain, e) && e != []
    ensures Remaining(slots, i, chain, e) == Head(chain, e) +
      if e[1..] != [] then Remaining(slots, i, chain, e[1..])
      else if chain[1..] != [] then Remaining(slots, i, chain[1..], chain[1].data)
      else Later(slots, i)
  {
    var n, rest := chain[0].nKeyLength, ChainWords(chain[1..]) + Later(slots, i);
    var head := Head(chain, e);
    assert head + WholeWords(e[1..], n) + rest == head + (WholeWords(e[1..], n) + rest);
    if e[1..] == [] {
      assert [] + rest == rest;
      if chain[1..] != [] {
        NextBucket(chain[1..], Later(slots, i));
      } else {
        assert [] + Later(slots, i) == Later(slots, i);
      }
    }
  }

  lemma NextBucket(chain: seq<Bucket>, later: seq<string>)
    requires chain != []
    ensures ChainWords(chain) + later == WholeWords(chain[0].data, chain[0].nKeyLength) + (ChainWords(chain[1..]) + later)
  {
    var a, b := WholeWords(chain[0].data, chain[0].nKeyLength), ChainWords(chain[1..]);
    assert a + b + later == a + (b + later);
  }

  // ------------------------------------------------------------ what a full walk lists

  lemma {:induction false} WholeCount(data: seq<string>, n: nat, w: string)
    ensures multiset(WholeWords(data, n))[w] == if |w| == n then multiset(data)[w] else 0
  {
    if data != [] {
      WholeCount(data[1..], n, w);
      assert data == [data[0]] + data[1..];
    }
  }

  lemma {:induction false} MatchCount(words: seq<string>, p: string, w: string)
    ensures multiset(Matches(words, p))[w] == if p <= w then multiset(words)[w] else 0
  {
    if words != [] {
      var n := |words| - 1;
      MatchCount(words[..n], p, w);
      assert words == words[..n] + [words[n]];
    }
  }

  /** A bucket lists its own key, as often as it was added. */
  lemma BucketCount(b: Bucket, hash: string -> nat, words: seq<string>, w: string)
    requires ValidBucket(b, hash, LogOf(words))
    ensures multiset(WholeWords(b.data, b.nKeyLength))[w] == if w == Key(b) then multiset(words)[w] else 0
  {
    WholeCount(b.data, b.nKeyLength, w);
    UnderIsMatches(words, Key(b));
    MatchCount(words, Key(b), w);
    assert |w| == |Key(b)| ==> (Key(b) <= w <==> w == Key(b));
  }

  lemma {:induction false} ChainCount(chain: seq<Bucket>, slot: nat, size: nat, hash: string -> nat, words: seq<string>, w: string)
    requires size > 0 && ValidChain(chain, slot, size, hash, LogOf(words))
    ensures multiset(ChainWords(chain))[w] == if HasKey(chain, w) then multiset(words)[w] else 0
  {
    if chain != [] {
      var tail := chain[1..];
      assert forall i :: 0 <= i < |tail| ==> tail[i] == chain[i + 1];
      ChainCount(tail, slot, size, hash, words, w);
      BucketCount(chain[0], hash, words, w);
      HasKeyCons(chain, w);
    }
  }

  lemma HasKeyCons(chain: seq<Bucket>, w: string)
    requires chain != []
    ensures HasKey(chain, w) <==> Key(chain[0]) == w || HasKey(chain[1..], w)
  {
    var tail := chain[1..];
    if HasKey(tail, w) {
      var i :| 0 <= i < |tail| && Key(tail[i]) == w;
      assert Key(chain[i + 1]) == w;
    }
    if HasKey(chain, w) && Key(chain[0]) != w {
      var i :| 0 <= i < |chain| && Key(chain[i]) == w;
      assert Key(tail[i - 1]) == w;
    }
  }

  /** Slot by slot, only the slot of `w` can list `w`. */
  ghost predicate Indexed(slots: seq<seq<Bucket>>, hash: string -> nat, words: seq<string>) {
    && slots != []
    && (forall i :: 0 <= i < |slots| ==> ValidChain(slots[i], i, |slots|, hash, LogOf(words)))
    && (forall w :: Under(LogOf(words), w) != [] ==> HasKey(slots[hash(w) % |slots|], w))
  }

  lemma KeySlot(slots: seq<seq<Bucket>>, hash: string -> nat, words: seq<string>, w: string, i: nat)
    requires Indexed(slots, hash, words) && i < |slots| && HasKey(slots[i], w)
    ensures i == hash(w) % |slots| && w != ""
  {
    var j :| 0 <= j < |slots[i]| && Key(slots[i][j]) == w;
    assert ValidBucket(slots[i][j], hash, LogOf(words));
  }

  lemma {:induction false} TableCount(slots: seq<seq<Bucket>>, w: string, k: int, n: nat)
    requires forall j :: 0 <= j < |slots| ==> multiset(ChainWords(slots[j]))[w] == if j == k then n else 0
    ensures multiset(TableWords(slots))[w] == if 0 <= k < |slots| then n else 0
  {
    if slots != [] {
      var tail := slots[1..];
      assert forall j :: 0 <= j < |tail| ==> tail[j] == slots[j + 1];
      TableCount(tail, w, k - 1, n);
      assert TableWords(slots) == ChainWords(slots[0]) + TableWords(tail);
    }
  }

  ghost predicate NonEmptyCounts(out: seq<string>, words: seq<string>) {
    forall w :: multiset(out)[w] == if w == "" then 0 else multiset(words)[w]
  }

  /** Only the slot of `w` lists it, and only if `w` is not empty. */
  lemma WordInSlot(slots: seq<seq<Bucket>>, hash: string -> nat, words: seq<string>, w: string, j: nat)
    requires Indexed(slots, hash, words) && j < |slots|
    ensures multiset(ChainWords(slots[j]))[w] ==
      if j == hash(w) % |slots| && w != "" then multiset(words)[w] else 0
  {
    ChainCount(slots[j], j, |slots|, hash, words, w);
    if HasKey(slots[j], w) {
      KeySlot(slots, hash, words, w, j);
    } else if w != "" {
      UnderIsMatches(words, w);
      MatchCount(words, w, w);
    }
  }

  /** A full walk lists every non-empty word as often as it was added. */
  lemma WalkListsAll(slots: seq<seq<Bucket>>, hash: string -> nat, words: seq<string>)
    requires Indexed(slots, hash, words)
    ensures NonEmptyCounts(TableWords(slots), words)
  {
    forall w ensures multiset(TableWords(slots))[w] == if w == "" then 0 else multiset(words)[w] {
      var k, n := hash(w) % |slots|, if w == "" then 0 else multiset(words)[w];
      forall j | 0 <= j < |slots| ensures multiset(ChainWords(slots[j]))[w] == if j == k then n else 0 {
        WordInSlot(slots, hash, words, w, j);
      }
      TableCount(slots, w, k, n);
    }
  }

  /** Without a used slot a full walk lists nothing. */
  lemma {:induction false} NothingUsed(slots: seq<seq<Bucket>>)
    requires forall s :: 0 <= s < |slots| ==> slots[s] == []
    ensures TableWords(slots) == []
  {
    if slots != [] { NothingUsed(slots[1..]); }
  }

  /** Then only the empty list has the right counts. */
  lemma Listed(slots: seq<seq<Bucket>>, all: seq<string>, words: seq<string>)
    requires NonEmptyCounts(TableWords(slots), words)
    requires HasUsed(slots, 0) ==> all == TableWords(slots)
    ensures NonEmptyCounts(all, words) <==> HasUsed(slots, 0) || all == []
  {
    if !HasUsed(slots, 0) {
      NothingUsed(slots);
      assert all != [] ==> multiset(all)[all[0]] > 0;
      assert forall w :: multiset(TableWords(slots))[w] == 0;
    }
  }

  ghost predicate HasWord(words: seq<string>) {
    exists w :: w in words && w != ""
  }

  /** A slot is in use if and only if there is a word. */
  lemma UsedByWords(slots: seq<seq<Bucket>>, hash: string -> nat, words: seq<string>)
    requires Indexed(slots, hash, words)
    ensures HasUsed(slots, 0) <==> HasWord(words)
  {
    if s :| 0 <= s < |slots| && slots[s] != [] {
      var key := Key(slots[s][0]);
      assert HasKey(slots[s], key) && ValidBucket(slots[s][0], hash, LogOf(words));
      KeySlot(slots, hash, words, key, s);
      UnderIsMatches(words, key);
      MatchesFrom(words, key);
      var w := Matches(words, key)[0];
      MatchCount(words, key, w);
      assert w in words && key <= w;
    } else {
      NothingUsed(slots);
      WalkListsAll(slots, hash, words);
      forall w | w in words ensures w == "" {
        assert multiset(words)[w] > 0 && multiset(TableWords(slots))[w] == 0;
      }
    }
  }

  /** What comes after slot `i`, when the next used slot is looked for. */
  lemma LaterUsed(slots: seq<seq<Bucket>>, i: nat)
    ensures HasUsed(slots, i + 1) ==> Later(slots, i) == TableWords(slots[i + 1..])
    ensures !HasUsed(slots, i + 1) ==> Later(slots, i) == []
  {
    if i < |slots| && !HasUsed(slots, i + 1) {
      var rest := slots[i + 1..];
      forall s | 0 <= s < |rest| ensures rest[s] == [] {
        assert rest[s] == slots[i + 1 + s];
      }
      NothingUsed(rest);
    }
  }

  lemma LeftOver(slots: seq<seq<Bucket>>, i: nat, chain: seq<Bucket>, e: seq<string>)
    ensures i >= |slots| ==> Remaining(slots, i, chain, e) == Remaining(slots, |slots|, chain, e)
  {
  }

  lemma Regroup(all: seq<string>, x: string, rest: seq<string>)
    ensures all + ([x] + rest) == all + [x] + rest
  {
  }

  class Generator {
    const ht: HashTable
    // the static variables; `chain` is the bucket b with the buckets behind it
    var textlen: nat
    var chain: seq<Bucket>
    var e: seq<string>
    var i: nat

    constructor (ht: HashTable)
      ensures this.ht == ht && chain == [] && e == []
    {
      this.ht := ht;
      textlen, chain, e, i := 0, [], [], 0;
    }

    ghost predicate Table(slots: seq<seq<Bucket>>)
      reads ht.arBuckets
    {
      ht.arBuckets[..] == slots && ht.nTableSize == |slots| && AllUsed(slots)
    }

    /** Find the first used slot from `from` on. If there is none, the cursors stay where
        they were. */
    method FirstUsed(from: nat, ghost slots: seq<seq<Bucket>>)
      requires Table(slots)
      modifies this`chain, this`e, this`i
      ensures from <= i
      ensures HasUsed(slots, from) ==>
        i < |slots| && Walking(chain, e) && Remaining(slots, i, chain, e) == TableWords(slots[from..])
      ensures !HasUsed(slots, from) ==>
        chain == old(chain) && e == old(e) && |slots| <= i && (from <= |slots| ==> TableWords(slots[from..]) == [])
    {
      i := from;
      while i < ht.nTableSize
        invariant from <= i && chain == old(chain) && e == old(e)
        invariant from <= |slots| ==> i <= |slots| && TableWords(slots[from..]) == TableWords(slots[i..])
        invariant forall s :: from <= s < i && s < |slots| ==> slots[s] == []
      {
        SlotStart(slots, i);
        if ht.arBuckets[i] != [] {
          chain := ht.arBuckets[i];
          e := chain[0].data;
          assert slots[i] != [];
          return;
        }
        i := i + 1;
      }
    }

    /** Step to the next used entry. */
    method Advance(ghost slots: seq<seq<Bucket>>)
      requires Table(slots) && Walking(chain, e) && e != []
      modifies this`chain, this`e, this`i
      ensures Walking(chain, e)
      ensures old(Remaining(slots, i, chain, e)) == Head(old(chain), old(e)) + Remaining(slots, i, chain, e)
      ensures old(i) <= i
      ensures i == old(i) || i >= |slots| ==> |chain| < |old(chain)| || (|chain| == |old(chain)| && |e| < |old(e)|)
    {
      EntryStep(slots, i, chain, e);
      e := e[1..];
      if e == [] {
        chain := chain[1..];
        if chain == [] {
          ghost var at := i;
          FirstUsed(i + 1, slots);
          LaterUsed(slots, at);
        } else {
          e := chain[0].data;
        }
      }
    }

    /** The walk to the next whole word. */
    method NextWord(ghost slots: seq<seq<Bucket>>) returns (r: Option<string>)
      requires Table(slots) && Walking(chain, e)
      modifies this`chain, this`e, this`i
      ensures Walking(chain, e)
      ensures r.None? ==> old(Remaining(slots, i, chain, e)) == [] && e == []
      ensures r.Some? ==> old(Remaining(slots, i, chain, e)) == [r.value] + Remaining(slots, i, chain, e)
    {
      r := None;
      ghost var goal := Remaining(slots, i, chain, e);
      while e != [] && r.None?
        invariant Walking(chain, e)
        invariant r.None? ==> goal == Remaining(slots, i, chain, e)
        invariant r.Some? ==> goal == [r.value] + Remaining(slots, i, chain, e)
        decreases if i < |slots| then |slots| - i else 0, |chain|, |e|
      {
        if |e[0]| == chain[0].nKeyLength { r := Some(e[0]); }
        Advance(slots);
      }
    }

    /** What the calls for `text` return, from the first one on. For the empty text and a
        table without a word, that is what an abandoned walk has left over. */
    ghost function Coming(text: string, words: seq<string>, slots: seq<seq<Bucket>>): seq<string>
      reads this
    {
      if text != "" then Matches(words, text)
      else if HasUsed(slots, 0) then TableWords(slots)
      else Remaining(slots, |slots|, chain, e)
    }

    /** new_command_generator: `state` is 0 on the first call for a text. On a table without a
        word, the bucket cursor of an abandoned walk must not be NULL: it is followed. */
    method Next(text: string, state: nat, ghost words: seq<string>, ghost slots: seq<seq<Bucket>>) returns (r: Option<string>)
      requires Table(slots) && (state == 0 ==> ht.Indexes(words))
      requires state == 0 && text == "" ==> Walking(chain, e) || HasUsed(slots, 0)
      requires state != 0 ==> textlen == |text| && (text == "" ==> Walking(chain, e))
      modifies this
      ensures textlen == |text| && (text == "" ==> Walking(chain, e))
      ensures var before := if state == 0 then old(Coming(text, words, slots)) else old(Rest(text, slots));
        if r.None? then before == [] else before == [r.value] + Rest(text, slots)
      ensures r.None? ==> e == [] || (state == 0 && e == old(e))
    {
      if state == 0 { textlen := |text|; }
      if textlen > 0 {
        if state == 0 {
          assert text[..|text|] == text;
          chain := ht.FindFrom(text, |text|, words);
          if chain == [] { return None; }
          e := chain[0].data;
        }
        if e != [] {
          r := Some(e[0]);
          e := e[1..];
          return;
        }
        return None;
      }
      if state == 0 {
        FirstUsed(0, slots);
        assert slots[0..] == slots;
      }
      LeftOver(slots, i, chain, e);
      r := NextWord(slots);
    }

    /** The calls that readline makes for one text, until the generator returns NULL. Every
        non-empty word is listed as often as it was added, if and only if there is a word or
        no earlier walk has left something over. */
    method Completions(text: string, ghost words: seq<string>) returns (all: seq<string>)
      requires ht.Indexes(words)
      requires text == "" ==> Walking(chain, e) || HasWord(words)
      modifies this
      ensures all == old(Coming(text, words, ht.arBuckets[..]))
      ensures text != "" ==> all == Matches(words, text)
      ensures var slots := old(ht.arBuckets[..]);
        text == "" ==> (NonEmptyCounts(all, words) <==> HasWord(words) || old(Remaining(slots, |slots|, chain, e)) == [])
      ensures e == [] || e == old(e)
    {
      ghost var slots := ht.arBuckets[..];
      TableIs(slots, words);
      UsedByWords(slots, ht.pHashFunction, words);
      ghost var goal := Coming(text, words, slots);
      all := [];
      var r := Next(text, 0, words, slots);
      while r.Some?
        invariant textlen == |text| && (text == "" ==> Walking(chain, e))
        invariant Table(slots) && (r.None? ==> e == [] || e == old(e))
        invariant goal == all + (if r.Some? then [r.value] + Rest(text, slots) else [])
        decreases |goal| - |all|, r.Some?
      {
        Regroup(all, r.value, Rest(text, slots));
        all := all + [r.value];
        r := Next(text, 1, words, slots);
      }
      assert goal == all;
      WalkListsAll(slots, ht.pHashFunction, words);
      if text == "" { Listed(slots, all, words); }
    }

    /** What the next calls for `text` return. */
    ghost function Rest(text: string, slots: seq<seq<Bucket>>): seq<string>
      reads this
    {
      if text == "" then Remaining(slots, i, chain, e) else e
    }

    lemma TableIs(slots: seq<seq<Bucket>>, words: seq<string>)
      requires ht.Indexes(words) && slots == ht.arBuckets[..]
      ensures Table(slots) && Indexed(slots, ht.pHashFunction, words)
    {
      forall s, k | 0 <= s < |slots| && 0 <= k < |slots[s]| ensures slots[s][k].data != [] {
        assert ValidBucket(slots[s][k], ht.pHashFunction, ht.log);
      }
    }
  }

  /** Names that are added without a lookup. */
  function Always(words: seq<string>): seq<Name> {
    seq(|words|, i requires 0 <= i < |words| => Name(words[i], true))
  }

  lemma GathersBoth(commands: seq<string>, names: seq<Name>, w: string)
    ensures w in Gathered(Always(commands) + names) <==> w in commands || Named(names, w)
  {
    GathersAll(Always(commands) + names, w);
    NamedBoth(Always(commands), names, w);
    if i :| 0 <= i < |commands| && commands[i] == w { assert Always(commands)[i].text == w; }
  }

  /** Completion in the client: the index is rebuilt, and texts are completed, in any order. */
  class Session {
    const ht: HashTable
    const generator: Generator
    ghost var words: seq<string>

    /** The index before it is first built is empty, and so are the cursors; later there are
        the commands in it. */
    ghost predicate Valid()
      reads this, ht, ht.arBuckets, generator
    {
      generator.ht == ht && ht.Indexes(words) && (generator.e == [] || HasWord(words))
    }

    constructor (size: nat, hash: string -> nat)
      requires size > 0
      ensures Valid() && words == [] && fresh(ht) && fresh(ht.arBuckets) && fresh(generator)
    {
      var table := new HashTable(size, hash);
      ht, words := table, [];
      generator := new Generator(table);
    }

    /** build_completion_hash; the names of the commands come first. */
    method Rehash(commands: seq<string>, names: seq<Name>)
      requires Valid() && HasWord(commands)
      requires (forall w :: w in commands ==> NUL !in w) && forall i :: 0 <= i < |names| ==> NUL !in names[i].text
      modifies this, ht, ht.arBuckets
      ensures Valid() && HasWord(words)
      ensures forall w :: w in words <==> w in commands || Named(names, w)
    {
      var all := Always(commands) + names;
      ht.Rebuild(all);
      words := Gathered(all);
      forall w ensures w in words <==> w in commands || Named(names, w) {
        GathersBoth(commands, names, w);
      }
      ghost var w :| w in commands && w != "";
      assert w in words;
    }

    /** Whatever was done before, all words that match are listed, and nothing else. */
    method Complete(text: string) returns (all: seq<string>)
      requires Valid()
      modifies generator
      ensures Valid()
      ensures if text == "" then NonEmptyCounts(all, words) else all == Matches(words, text)
    {
      all := generator.Completions(text, words);
    }
  }
}
