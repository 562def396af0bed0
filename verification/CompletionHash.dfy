/** The tab-completion index of the mysql client (client/completion_hash.cc): a chained
    hash table with one bucket per prefix of the words added. */
module CompletionHash {
  import opened Text

  /** One bucket: `arKey` is the word that created it, whose first `nKeyLength`
      characters are the key; `data` lists the words added under the key. */
  datatype Bucket = Bucket(h: nat, arKey: string, nKeyLength: nat, count: nat, data: seq<string>)

  function Key(b: Bucket): string {
    if b.nKeyLength <= |b.arKey| then b.arKey[..b.nKeyLength] else b.arKey
  }

  /** One call of completion_hash_update that added `word` under `key`. */
  datatype Entry = Entry(key: string, word: string)

  /** The words added under a key, newest first. */
  function Under(log: seq<Entry>, key: string): seq<string> {
    if log == [] then []
    else
      var last := log[|log| - 1];
      (if last.key == key then [last.word] else []) + Under(log[..|log| - 1], key)
  }

  /** The words of a list with a given prefix, newest first. */
  function Matches(words: seq<string>, prefix: string): seq<string> {
    if words == [] then []
    else
      var last := words[|words| - 1];
      (if prefix <= last then [last] else []) + Matches(words[..|words| - 1], prefix)
  }

  /** add_word enters a word under each of its non-empty prefixes, up to length `n`. */
  function PrefixEntries(word: string, n: nat): seq<Entry>
    requires n <= |word|
  {
    if n == 0 then [] else PrefixEntries(word, n - 1) + [Entry(word[..n], word)]
  }

  function LogOf(words: seq<string>): seq<Entry> {
    if words == [] then []
    else
      var last := words[|words| - 1];
      LogOf(words[..|words| - 1]) + PrefixEntries(last, |last|)
  }

  lemma {:induction false} UnderConcat(a: seq<Entry>, b: seq<Entry>, key: string)
    ensures Under(a + b, key) == Under(b, key) + Under(a, key)
    decreases |b|
  {
    if b == [] {
      assert a + b == a;
    } else {
      var n := |b| - 1;
      assert (a + b)[..|a + b| - 1] == a + b[..n];
      UnderConcat(a, b[..n], key);
      var head := if b[n].key == key then [b[n].word] else [];
      assert head + Under(b[..n], key) + Under(a, key) == head + (Under(b[..n], key) + Under(a, key));
    }
  }

  lemma UnderSnoc(log: seq<Entry>, e: Entry, key: string)
    ensures Under(log + [e], key) == (if e.key == key then [e.word] else []) + Under(log, key)
  {
    assert (log + [e])[..|log|] == log;
  }

  lemma {:induction false} UnderPrefixes(word: string, n: nat, key: string)
    requires n <= |word|
    ensures Under(PrefixEntries(word, n), key) == if 0 < |key| <= n && key <= word then [word] else []
  {
    if n > 0 {
      UnderPrefixes(word, n - 1, key);
      UnderSnoc(PrefixEntries(word, n - 1), Entry(word[..n], word), key);
      PrefixIs(word, n, key);
    }
  }

  lemma PrefixIs(word: string, n: nat, key: string)
    requires n <= |word|
    ensures word[..n] == key <==> |key| == n && key <= word
  {
  }

  /** The index by prefixes agrees with the list of words. */
  lemma {:induction false} UnderIsMatches(words: seq<string>, key: string)
    requires key != ""
    ensures Under(LogOf(words), key) == Matches(words, key)
  {
    if words != [] {
      var n := |words| - 1;
      UnderIsMatches(words[..n], key);
      UnderConcat(LogOf(words[..n]), PrefixEntries(words[n], |words[n]|), key);
      UnderPrefixes(words[n], |words[n]|, key);
    }
  }

  // ------------------------------------------------------------ counting matches

  /** A longer prefix has fewer matches; if it has as many, it has the same. */
  lemma {:induction false} LongerPrefix(words: seq<string>, p: string, q: string)
    requires p <= q
    ensures |Matches(words, q)| <= |Matches(words, p)|
    ensures |Matches(words, q)| == |Matches(words, p)| ==> Matches(words, q) == Matches(words, p)
    ensures forall w :: w in Matches(words, q) <==> w in Matches(words, p) && q <= w
  {
    if words != [] { LongerPrefix(words[..|words| - 1], p, q); }
  }

  lemma {:induction false} MatchesAre(words: seq<string>, p: string)
    ensures forall w :: w in Matches(words, p) <==> w in words && p <= w
  {
    if words != [] {
      var n := |words| - 1;
      MatchesAre(words[..n], p);
      assert words == words[..n] + [words[n]];
    }
  }

  ghost predicate CommonPrefix(words: seq<string>, p: string) {
    forall w :: w in words ==> p <= w
  }

  /** `p` is the longest common prefix of `words`. */
  ghost predicate LongestCommonPrefix(words: seq<string>, p: string) {
    CommonPrefix(words, p) && forall q :: CommonPrefix(words, q) ==> |q| <= |p|
  }

  /** A prefix `p` of a match `s` that keeps all matches, but cannot be extended along
      `s` without losing one, is the longest common prefix. */
  lemma CountsDecide(words: seq<string>, key: string, s: string, n: nat)
    requires s in Matches(words, key) && |key| <= n <= |s| && key <= s
    requires Matches(words, s[..n]) == Matches(words, key)
    requires n < |s| ==> |Matches(words, s[..n + 1])| < |Matches(words, key)|
    ensures LongestCommonPrefix(Matches(words, key), s[..n])
  {
    var ms := Matches(words, key);
    MatchesAre(words, s[..n]);
    var w := s;
    if n < |s| {
      Losing(words, s[..n], s[..n + 1]);
      w :| w in ms && !(s[..n + 1] <= w);
    }
    forall q | CommonPrefix(ms, q) ensures |q| <= n {
      assert q <= s && q <= w;
    }
  }

  /** Looking for the oldest match misses words that were added: here `select`, because the
      older `selects` created its bucket. */
  lemma AddedNotOldest(words: seq<string>, w: string, longer: string)
    requires w < longer && words == [longer, w]
    ensures w in words && var ms := Matches(words, w); ms != [] && ms[|ms| - 1] == longer != w
  {
    assert words[..1] == [longer] && words[..1][..0] == [];
    assert Matches([longer], w) == [longer];
  }

  lemma SelectMissed()
    ensures var words := ["selects", "select"];
      "select" in words && var ms := Matches(words, "select"); ms != [] && ms[|ms| - 1] != "select"
  {
    AddedNotOldest(["selects", "select"], "select", "selects");
  }

  /** `i` is the place of the oldest word with prefix `p`. */
  predicate IsOldest(words: seq<string>, p: string, i: nat) {
    i < |words| && p <= words[i] && forall j :: 0 <= j < i ==> !(p <= words[j])
  }

  /** The exact condition: a word that was added is the oldest match if and only if no longer
      word with that prefix was added before it. */
  lemma {:induction false} OldestIs(words: seq<string>, w: string)
    requires w in words
    ensures var ms := Matches(words, w);
      ms != [] && (ms[|ms| - 1] == w <==> exists i: nat :: IsOldest(words, w, i) && words[i] == w)
  {
    var i := OldestFirst(words, w);
    assert forall j: nat :: IsOldest(words, w, j) ==> j == i;
  }

  /** The last match listed is the first one added. */
  lemma {:induction false} OldestFirst(words: seq<string>, p: string) returns (i: nat)
    requires exists k :: 0 <= k < |words| && p <= words[k]
    ensures var ms := Matches(words, p); ms != [] && IsOldest(words, p, i) && ms[|ms| - 1] == words[i]
  {
    var n := |words| - 1;
    var before := words[..n];
    assert forall j :: 0 <= j < n ==> before[j] == words[j];
    if k :| 0 <= k < n && p <= before[k] {
      i := OldestFirst(before, p);
      assert IsOldest(words, p, i);
    } else {
      NoMatches(before, p);
      i := n;
    }
  }

  lemma {:induction false} NoMatches(words: seq<string>, p: string)
    requires forall i :: 0 <= i < |words| ==> !(p <= words[i])
    ensures Matches(words, p) == []
  {
    if words != [] { NoMatches(words[..|words| - 1], p); }
  }

  /** Fewer matches means that some word is lost. */
  lemma {:induction false} Losing(words: seq<string>, p: string, q: string)
    requires p <= q && |Matches(words, q)| < |Matches(words, p)|
    ensures exists w :: w in Matches(words, p) && !(q <= w)
  {
    var n := |words| - 1;
    if p <= words[n] && !(q <= words[n]) {
      assert words[n] in Matches(words, p);
    } else {
      Losing(words[..n], p, q);
      var w :| w in Matches(words[..n], p) && !(q <= w);
      assert w in Matches(words, p);
    }
  }

  // ------------------------------------------------------------ the table

  /** A bucket holds exactly the words entered under its key, newest first, and was
      created by the oldest of them. */
  ghost predicate ValidBucket(b: Bucket, hash: string -> nat, log: seq<Entry>) {
    && 0 < b.nKeyLength <= |b.arKey|
    && b.h == hash(Key(b))
    && b.data == Under(log, Key(b)) && b.data != [] && b.count == |b.data|
    && b.arKey == b.data[|b.data| - 1]
  }

  ghost predicate ValidChain(chain: seq<Bucket>, slot: nat, size: nat, hash: string -> nat, log: seq<Entry>)
    requires size > 0
  {
    && (forall i :: 0 <= i < |chain| ==> ValidBucket(chain[i], hash, log) && chain[i].h % size == slot)
    && (forall i, j :: 0 <= i < j < |chain| ==> Key(chain[i]) != Key(chain[j]))
  }

  ghost predicate HasKey(chain: seq<Bucket>, key: string) {
    exists i :: 0 <= i < |chain| && Key(chain[i]) == key
  }

  function Grown(b: Bucket, word: string): Bucket {
    b.(data := [word] + b.data, count := b.count + 1)
  }

  lemma GrownBucket(b: Bucket, hash: string -> nat, log: seq<Entry>, e: Entry)
    requires ValidBucket(b, hash, log) && Key(b) == e.key
    ensures ValidBucket(Grown(b, e.word), hash, log + [e])
  {
    UnderSnoc(log, e, e.key);
  }

  lemma FirstBucket(hash: string -> nat, log: seq<Entry>, e: Entry)
    requires e.key <= e.word && e.key != "" && Under(log, e.key) == []
    ensures var b := Bucket(hash(e.key), e.word, |e.key|, 1, [e.word]);
      ValidBucket(b, hash, log + [e]) && Key(b) == e.key
  {
    UnderSnoc(log, e, e.key);
    assert [e.word] + [] == [e.word];
    assert e.word[..|e.key|] == e.key;
  }

  /** All keys of the old chain, and `key`, are in the new one. */
  ghost predicate KeysKept(before: seq<Bucket>, after: seq<Bucket>, key: string) {
    HasKey(after, key) && forall k :: HasKey(before, k) ==> HasKey(after, k)
  }

  /** The bucket of the entry's key takes one more word. */
  lemma UpdatedChain(chain: seq<Bucket>, slot: nat, size: nat, hash: string -> nat, log: seq<Entry>, e: Entry, j: nat)
    requires size > 0 && ValidChain(chain, slot, size, hash, log) && j < |chain| && Key(chain[j]) == e.key
    ensures ValidChain(chain[j := Grown(chain[j], e.word)], slot, size, hash, log + [e])
    ensures KeysKept(chain, chain[j := Grown(chain[j], e.word)], e.key)
  {
    var chain' := chain[j := Grown(chain[j], e.word)];
    assert SameKeys(chain, chain');
    forall i | 0 <= i < |chain'| ensures ValidBucket(chain'[i], hash, log + [e]) {
      if i == j {
        GrownBucket(chain[j], hash, log, e);
      } else {
        assert Key(chain[i]) != Key(chain[j]);
        SameBucket(chain[i], hash, log, e);
      }
    }
    SameKeysKept(chain, chain', j);
  }

  ghost predicate SameKeys(a: seq<Bucket>, b: seq<Bucket>) {
    |a| == |b| && forall i :: 0 <= i < |a| ==> Key(a[i]) == Key(b[i])
  }

  lemma SameKeysKept(a: seq<Bucket>, b: seq<Bucket>, j: nat)
    requires SameKeys(a, b) && j < |a|
    ensures KeysKept(a, b, Key(a[j]))
  {
    assert Key(b[j]) == Key(a[j]);
    forall k | HasKey(a, k) ensures HasKey(b, k) {
      var i :| 0 <= i < |a| && Key(a[i]) == k;
      assert Key(b[i]) == k;
    }
  }

  /** A new bucket for a new key, at the front of its chain. */
  lemma ExtendedChain(chain: seq<Bucket>, slot: nat, size: nat, hash: string -> nat, log: seq<Entry>, e: Entry, b: Bucket)
    requires size > 0 && ValidChain(chain, slot, size, hash, log) && !HasKey(chain, e.key)
    requires hash(e.key) % size == slot && ValidBucket(b, hash, log + [e]) && Key(b) == e.key
    ensures ValidChain([b] + chain, slot, size, hash, log + [e])
    ensures KeysKept(chain, [b] + chain, e.key)
  {
    OtherChain(chain, slot, size, hash, log, e);
    ChainCons(b, chain, slot, size, hash, log + [e]);
    KeysBehind(b, chain);
  }

  lemma ChainCons(b: Bucket, chain: seq<Bucket>, slot: nat, size: nat, hash: string -> nat, log: seq<Entry>)
    requires size > 0 && ValidChain(chain, slot, size, hash, log) && !HasKey(chain, Key(b))
    requires ValidBucket(b, hash, log) && hash(Key(b)) % size == slot
    ensures ValidChain([b] + chain, slot, size, hash, log)
  {
    var chain' := [b] + chain;
    assert forall i :: 0 < i < |chain'| ==> chain'[i] == chain[i - 1];
  }

  lemma KeysBehind(b: Bucket, chain: seq<Bucket>)
    ensures HasKey([b] + chain, Key(b))
    ensures forall k :: HasKey(chain, k) ==> HasKey([b] + chain, k)
  {
    assert ([b] + chain)[0] == b;
    forall k | HasKey(chain, k) ensures HasKey([b] + chain, k) {
      var i :| 0 <= i < |chain| && Key(chain[i]) == k;
      assert Key(([b] + chain)[i + 1]) == k;
    }
  }

  lemma SameBucket(b: Bucket, hash: string -> nat, log: seq<Entry>, e: Entry)
    requires ValidBucket(b, hash, log) && Key(b) != e.key
    ensures ValidBucket(b, hash, log + [e])
  {
    UnderSnoc(log, e, Key(b));
  }

  /** Chains without the key are not affected. */
  lemma OtherChain(chain: seq<Bucket>, slot: nat, size: nat, hash: string -> nat, log: seq<Entry>, e: Entry)
    requires size > 0 && ValidChain(chain, slot, size, hash, log) && !HasKey(chain, e.key)
    ensures ValidChain(chain, slot, size, hash, log + [e])
  {
    forall i | 0 <= i < |chain| ensures ValidBucket(chain[i], hash, log + [e]) {
      SameBucket(chain[i], hash, log, e);
    }
  }

  // ------------------------------------------------------------ the names that are indexed

  /** A name for build_completion_hash: commands, databases and fields with their table are
      always added, tables and plain fields only if completion_hash_exists does not find them. */
  datatype Name = Name(text: string, always: bool)

  /** What completion_hash_exists says of a word: the oldest word with this prefix is itself. */
  predicate Found(words: seq<string>, w: string) {
    var ms := Matches(words, w);
    w != "" && ms != [] && ms[|ms| - 1] == w
  }

  function Gathered(names: seq<Name>): seq<string> {
    if names == [] then []
    else
      var last, words := names[|names| - 1], Gathered(names[..|names| - 1]);
      if last.always || !Found(words, last.text) then words + [last.text] else words
  }

  lemma {:induction false} MatchesFrom(words: seq<string>, p: string)
    ensures forall w :: w in Matches(words, p) ==> w in words
  {
    if words != [] { MatchesFrom(words[..|words| - 1], p); }
  }

  ghost predicate Named(names: seq<Name>, w: string) {
    exists i :: 0 <= i < |names| && names[i].text == w
  }

  lemma NamedBoth(a: seq<Name>, b: seq<Name>, w: string)
    ensures Named(a + b, w) <==> Named(a, w) || Named(b, w)
  {
    if i :| 0 <= i < |a| && a[i].text == w { assert (a + b)[i].text == w; }
    if i :| 0 <= i < |b| && b[i].text == w { assert (a + b)[|a| + i].text == w; }
  }

  /** No name is missed by the lookups in between, and nothing else gets in. */
  lemma {:induction false} GathersAll(names: seq<Name>, w: string)
    ensures w in Gathered(names) <==> Named(names, w)
  {
    if names != [] {
      var n := |names| - 1;
      var words, last := Gathered(names[..n]), names[n];
      GathersAll(names[..n], w);
      assert names == names[..n] + [last] && (Named([last], w) <==> [last][0].text == w);
      NamedBoth(names[..n], [last], w);
      if Found(words, last.text) { MatchesFrom(words, last.text); }
    }
  }

  class HashTable {
    const nTableSize: nat
    const pHashFunction: string -> nat
    const arBuckets: array<seq<Bucket>>
    ghost var log: seq<Entry>

    ghost predicate Valid()
      reads this, arBuckets
    {
      && 0 < nTableSize == arBuckets.Length
      && (forall i :: 0 <= i < nTableSize ==> ValidChain(arBuckets[i], i, nTableSize, pHashFunction, log))
      && (forall key :: Under(log, key) != [] ==> HasKey(arBuckets[Slot(key)], key))
    }

    function Slot(key: string): (i: nat)
      requires nTableSize > 0
      ensures i < nTableSize
    {
      pHashFunction(key) % nTableSize
    }

    /** completion_hash_init */
    constructor (size: nat, hash: string -> nat)
      requires size > 0
      ensures Valid() && fresh(arBuckets) && log == [] && pHashFunction == hash && nTableSize == size
    {
      nTableSize, pHashFunction, log := size, hash, [];
      arBuckets := new seq<Bucket>[size](_ => []);
    }

    /** The search loop of completion_hash_update and completion_hash_find: the position
        in its chain of the bucket for the first `n` characters of `str`. */
    method Locate(str: string, n: nat) returns (chain: seq<Bucket>, slot: nat, j: nat)
      requires Valid() && n <= |str|
      ensures slot == Slot(str[..n]) && chain == arBuckets[slot]
      ensures j <= |chain| && (j < |chain| ==> Key(chain[j]) == str[..n])
      ensures j == |chain| ==> !HasKey(chain, str[..n])
    {
      var h := pHashFunction(str[..n]);
      slot := h % nTableSize;
      chain, j := arBuckets[slot], 0;
      while j < |chain|
        invariant j <= |chain|
        invariant forall i :: 0 <= i < j ==> Key(chain[i]) != str[..n]
      {
        var p := chain[j];
        assert ValidBucket(p, pHashFunction, log);
        if p.h == h && p.nKeyLength == n && p.arKey[..n] == str[..n] { return; }
        j := j + 1;
      }
    }

    /** completion_hash_update: enter `str` under its first `n` characters. */
    method Update(str: string, n: nat) returns (ok: bool)
      requires Valid() && n <= |str|
      modifies this, arBuckets
      ensures Valid() && ok == (n > 0)
      ensures log == if ok then old(log) + [Entry(str[..n], str)] else old(log)
    {
      if n == 0 { return false; }
      var chain, slot, j := Locate(str, n);
      ghost var e := Entry(str[..n], str);
      OtherSlots(e);
      if j < |chain| {
        UpdatedChain(chain, slot, nTableSize, pHashFunction, log, e, j);
        arBuckets[slot] := chain[j := Grown(chain[j], str)];
      } else {
        var b := Bucket(pHashFunction(str[..n]), str, n, 1, [str]);
        FirstBucket(pHashFunction, log, e);
        ExtendedChain(chain, slot, nTableSize, pHashFunction, log, e, b);
        arBuckets[slot] := [b] + chain;
      }
      log := log + [e];
      ok := true;
    }

    /** The table indexes exactly these words, oldest first. */
    ghost predicate Indexes(words: seq<string>)
      reads this, arBuckets
    {
      Valid() && log == LogOf(words) && forall w :: w in words ==> NUL !in w
    }

    /** add_word */
    method AddWord(str: string, ghost words: seq<string>)
      requires Indexes(words) && NUL !in str
      modifies this, arBuckets
      ensures Indexes(words + [str])
    {
      var i := 1;
      while At(str, i - 1) != NUL
        invariant Valid() && 1 <= i <= |str| + 1
        invariant log == LogOf(words) + PrefixEntries(str, i - 1)
        decreases |str| - i
      {
        var ok := Update(str, i);
        assert LogOf(words) + PrefixEntries(str, i) == LogOf(words) + PrefixEntries(str, i - 1) + [Entry(str[..i], str)];
        i := i + 1;
      }
      assert (words + [str])[..|words|] == words;
    }

    /** completion_hash_clean */
    method Clean()
      requires Valid()
      modifies this, arBuckets
      ensures Indexes([])
    {
      forall i | 0 <= i < arBuckets.Length { arBuckets[i] := []; }
      log := [];
    }

    /** The loops of build_completion_hash, on all names in order. */
    method Rebuild(names: seq<Name>)
      requires Valid() && forall i :: 0 <= i < |names| ==> NUL !in names[i].text
      modifies this, arBuckets
      ensures Indexes(Gathered(names))
    {
      Clean();
      for i := 0 to |names|
        invariant Indexes(Gathered(names[..i]))
      {
        ghost var words := Gathered(names[..i]);
        assert names[..i + 1][..i] == names[..i];
        var w := names[i].text;
        assert w[..|w|] == w;
        var found := false;
        if !names[i].always { found := Exists(w, |w|, words); }
        if !found { AddWord(w, words); }
      }
      assert names[..|names|] == names;
    }

    /** completion_hash_find: the bucket of a prefix. */
    method Find(str: string, n: nat, ghost words: seq<string>) returns (r: Option<Bucket>)
      requires Indexes(words) && n <= |str|
      ensures r.None? <==> n == 0 || Matches(words, str[..n]) == []
      ensures r.Some? ==> r.value.data == Matches(words, str[..n]) && r.value.count == |r.value.data|
      ensures r.Some? ==> Key(r.value) == str[..n] && r.value.arKey == r.value.data[|r.value.data| - 1]
    {
      var found := FindFrom(str, n, words);
      r := if found == [] then None else Some(found[0]);
    }

    /** The same bucket with those behind it in its chain. */
    method FindFrom(str: string, n: nat, ghost words: seq<string>) returns (found: seq<Bucket>)
      requires Indexes(words) && n <= |str|
      ensures found == [] <==> n == 0 || Matches(words, str[..n]) == []
      ensures found != [] ==> found[0].data == Matches(words, str[..n]) && found[0].count == |found[0].data|
      ensures found != [] ==> Key(found[0]) == str[..n] && found[0].arKey == found[0].data[|found[0].data| - 1]
      ensures forall i :: 0 <= i < |found| ==> found[i].data != []
    {
      var chain, slot, j := Locate(str, n);
      if n > 0 { UnderIsMatches(words, str[..n]); }
      found := chain[j..];
      forall i | 0 <= i < |found| ensures ValidBucket(found[i], pHashFunction, log) {
        assert found[i] == chain[j + i];
      }
    }

    /** completion_hash_exists: compares the whole word that created the bucket, so it
        tells whether the oldest word with this prefix is the word itself. */
    method Exists(arKey: string, n: nat, ghost words: seq<string>) returns (r: bool)
      requires Indexes(words) && n <= |arKey|
      ensures r <==> n > 0 && var ms := Matches(words, arKey[..n]); ms != [] && ms[|ms| - 1] == arKey
    {
      var h := pHashFunction(arKey[..n]);
      var chain, j := arBuckets[h % nTableSize], 0;
      if n > 0 { UnderIsMatches(words, arKey[..n]); }
      r := false;
      while j < |chain|
        invariant j <= |chain|
        invariant forall i :: 0 <= i < j ==> !(Key(chain[i]) == arKey[..n] && chain[i].arKey == arKey)
      {
        var p := chain[j];
        assert ValidBucket(p, pHashFunction, log);
        if p.h == h && p.nKeyLength == n && p.arKey == arKey { return true; }
        j := j + 1;
      }
    }

    /** find_longest_match: only bucket counts along one word are compared, yet the
        result is the longest common prefix of all matches. */
    method FindLongestMatch(str: string, length: nat, ghost words: seq<string>)
      returns (b: Option<Bucket>, resLength: nat)
      requires Indexes(words) && length <= |str|
      ensures b.None? <==> length == 0 || Matches(words, str[..length]) == []
      ensures b.None? ==> resLength == 0
      ensures b.Some? ==> |Key(b.value)| == resLength
      ensures b.Some? ==> LongestCommonPrefix(Matches(words, str[..length]), Key(b.value))
      ensures b.Some? ==> b.value.data == Matches(words, str[..length])
    {
      b := Find(str, length, words);
      if b.None? { return None, 0; }
      ghost var key, ms := str[..length], Matches(words, str[..length]);
      MatchesAre(words, key);
      var count, s := b.value.count, b.value.data[0];
      assert key <= s && s[..length] == key by { assert s in ms; }
      resLength := length;
      while At(s, resLength) != NUL
        invariant |key| <= resLength <= |s|
        invariant b.Some? && b.value.data == ms == Matches(words, s[..resLength]) && Key(b.value) == s[..resLength]
        decreases |s| - resLength
      {
        var next := FindLonger(s, resLength, ms, count, words);
        if next.None? { break; }
        b, resLength := next, resLength + 1;
      }
      CountsDecide(words, key, s, resLength);
    }

    /** One turn of find_longest_match: the bucket of one more character of `s`, if it still
        has `count` words. */
    method FindLonger(s: string, n: nat, ghost ms: seq<string>, count: nat, ghost words: seq<string>)
      returns (next: Option<Bucket>)
      requires Indexes(words) && n < |s| && ms == Matches(words, s[..n]) != [] && count == |ms|
      ensures next.None? ==> |Matches(words, s[..n + 1])| < |ms|
      ensures next.Some? ==> next.value.data == ms == Matches(words, s[..n + 1]) && Key(next.value) == s[..n + 1]
    {
      next := Find(s, n + 1, words);
      LongerPrefix(words, s[..n], s[..n + 1]);
      if next.None? || next.value.count < count { next := None; }
    }

    /** The other slots do not hold the key. */
    lemma OtherSlots(e: Entry)
      requires Valid()
      ensures forall i :: 0 <= i < nTableSize && i != Slot(e.key) ==>
        ValidChain(arBuckets[i], i, nTableSize, pHashFunction, log + [e])
      ensures forall key :: Under(log + [e], key) == (if e.key == key then [e.word] else []) + Under(log, key)
    {
      forall i | 0 <= i < nTableSize && i != Slot(e.key)
        ensures ValidChain(arBuckets[i], i, nTableSize, pHashFunction, log + [e])
      {
        OtherChain(arBuckets[i], i, nTableSize, pHashFunction, log, e);
      }
      forall key ensures Under(log + [e], key) == (if e.key == key then [e.word] else []) + Under(log, key) {
        UnderSnoc(log, e, key);
      }
    }
  }
}
