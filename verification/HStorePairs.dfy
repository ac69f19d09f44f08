/** From unordered pairs to an hstore: comparePairs, hstoreUniquePairs and hstorePairs. */
module HStorePairs {
  import opened Bytes
  import opened HStoreLayout
  import opened HStoreBuilder
  import opened Sorting

  const PAIRS_SIZE := 40                                // sizeof(Pairs) with eight-byte pointers
  const MAX_ALLOC_PAIRS := MAX_ALLOC_SIZE / PAIRS_SIZE  // most pairs one allocation holds

  /** The Pairs struct; `val` is meaningless when `isNull`. */
  datatype Pair = Pair(key: seq<byte>, val: seq<byte>, isNull: bool, needFree: bool)

  function ItemOf(p: Pair): Item
  {
    Item(p.key, if p.isNull then None else Some(p.val))
  }

  function ItemsOf(ps: seq<Pair>): (items: seq<Item>)
    ensures |items| == |ps|
    ensures forall i | 0 <= i < |ps| :: items[i] == ItemOf(ps[i])
  {
    seq(|ps|, i requires 0 <= i < |ps| => ItemOf(ps[i]))
  }

  function ComparePairs(a: Pair, b: Pair): int
  {
    if |a.key| == |b.key| then
      var res := Lex(a.key, b.key);
      if res != 0 then res
      else if b.needFree == a.needFree then 0
      else if a.needFree then 1
      else -1
    else if |a.key| > |b.key| then 1
    else -1
  }

  // ---------- sorting ----------

  predicate PairLe(a: Pair, b: Pair) { ComparePairs(a, b) <= 0 }

  lemma {:induction false} CompareMeaning(a: Pair, b: Pair)
    ensures ComparePairs(a, b) <= 0 <==>
      KeyLess(a.key, b.key) || (a.key == b.key && (a.needFree ==> b.needFree))
    ensures ComparePairs(a, b) <= 0 || ComparePairs(b, a) <= 0
  {
    LexAntisymmetric(a.key, b.key);
  }

  lemma {:induction false} CompareTransitive(a: Pair, b: Pair, c: Pair)
    requires ComparePairs(a, b) <= 0 && ComparePairs(b, c) <= 0
    ensures ComparePairs(a, c) <= 0
  {
    CompareMeaning(a, b);
    CompareMeaning(b, c);
    CompareMeaning(a, c);
    KeyCmpAntisymmetric(a.key, b.key);
    KeyCmpAntisymmetric(b.key, c.key);
    KeyLessTransitive(a.key, b.key, c.key);
  }

  lemma {:induction false} PairPreorder()
    ensures Preorder(PairLe)
  {
    hide ComparePairs;
    forall a, b
      ensures PairLe(a, b) || PairLe(b, a)
    {
      CompareMeaning(a, b);
    }
    forall a, b, c | PairLe(a, b) && PairLe(b, c)
      ensures PairLe(a, c)
    {
      CompareTransitive(a, b, c);
    }
  }

  /** qsort: some ordered permutation of the array. */
  method QSort(a: array<Pair>, l: nat)
    requires l <= a.Length
    modifies a
    ensures InOrder(PairLe, a[..l]) && multiset(a[..l]) == multiset(old(a[..l]))
    ensures a[l..] == old(a[l..])
  {
    hide InOrder, Preorder;
    PairPreorder();
    var s := Sort(PairLe, a[..l]);
    CopyBack(a, s);
  }

  method CopyBack(a: array<Pair>, s: seq<Pair>)
    requires |s| <= a.Length
    modifies a
    ensures a[..|s|] == s && a[|s|..] == old(a[|s|..])
  {
    for i := 0 to |s|
      invariant forall k | 0 <= k < i :: a[k] == s[k]
      invariant forall k | |s| <= k < a.Length :: a[k] == old(a[k])
    {
      a[i] := s[i];
    }
  }

  // ---------- removing duplicates ----------

  /** The first pair of every run of equal keys. */
  function Compact(s: seq<Pair>): (c: seq<Pair>)
    ensures |c| <= |s| && (s == [] <==> c == [])
  {
    if |s| <= 1 then s
    else
      var c := Compact(s[..|s| - 1]);
      if c[|c| - 1].key == s[|s| - 1].key then c else c + [s[|s| - 1]]
  }

  /** Bytes of the string area `ps` will need. */
  function BufLen(ps: seq<Pair>): nat
  {
    if ps == [] then 0
    else BufLen(ps[..|ps| - 1]) + PairLen(ps[|ps| - 1])
  }

  function PairLen(p: Pair): nat { |p.key| + (if p.isNull then 0 else |p.val|) }

  predicate StrictlyIncreasing(ps: seq<Pair>)
  {
    forall i, j | 0 <= i < j < |ps| :: KeyLess(ps[i].key, ps[j].key)
  }

  predicate Among(kept: seq<Pair>, input: seq<Pair>)
  {
    forall i | 0 <= i < |kept| :: kept[i] in input
  }

  predicate KeyKept(kept: seq<Pair>, key: seq<byte>)
  {
    exists j :: 0 <= j < |kept| && kept[j].key == key
  }

  predicate AllKept(input: seq<Pair>, kept: seq<Pair>)
  {
    forall i | 0 <= i < |input| :: KeyKept(kept, input[i].key)
  }

  /** A kept pair that needs freeing was chosen only because every pair with its key does. */
  predicate PrefersBorrowed(input: seq<Pair>, kept: seq<Pair>)
  {
    forall i, j | 0 <= i < |input| && 0 <= j < |kept| && kept[j].key == input[i].key && kept[j].needFree ::
      input[i].needFree
  }

  /** `kept` is a legitimate outcome of hstoreUniquePairs on `input`. */
  predicate UniqueOf(input: seq<Pair>, kept: seq<Pair>)
  {
    && StrictlyIncreasing(kept)
    && Among(kept, input)
    && AllKept(input, kept)
    && PrefersBorrowed(input, kept)
  }

  lemma {:induction false} CompactStep(s: seq<Pair>, n: nat)
    requires 0 < n < |s|
    ensures var c := Compact(s[..n]);
            Compact(s[..n + 1]) == if c[|c| - 1].key == s[n].key then c else c + [s[n]]
  {
    assert s[..n + 1][..n] == s[..n];
  }

  /** The last kept pair has the key of the last input pair and precedes it in the order. */
  lemma {:induction false} CompactLast(s: seq<Pair>)
    requires InOrder(PairLe, s) && s != []
    ensures var q := Compact(s)[|Compact(s)| - 1];
            q.key == s[|s| - 1].key && q in s && (q.needFree ==> s[|s| - 1].needFree)
  {
    hide ComparePairs;
    var n := |s| - 1;
    if n > 0 {
      CompactLast(s[..n]);
      assert s[n - 1] == s[..n][n - 1];
      assert PairLe(s[n - 1], s[n]);
      CompareMeaning(s[n - 1], s[n]);
      KeyLessIrreflexive(s[n].key);
      hide KeyLess;
    }
  }

  lemma {:induction false} CompactUnique(s: seq<Pair>)
    requires InOrder(PairLe, s)
    ensures UniqueOf(s, Compact(s))
  {
    hide ComparePairs, KeyLess, UniqueOf, InOrder;
    if |s| <= 1 {
      CompactShort(s);
    } else {
      var n := |s| - 1;
      var init, p := s[..n], s[n];
      assert s == init + [p];
      InitInOrder(PairLe, init, p);
      CompactUnique(init);
      CompactLast(init);
      assert PairLe(init[n - 1], p);
      CompareMeaning(init[n - 1], p);
      var c := Compact(init);
      if c[|c| - 1].key == p.key {
        KeyLessIrreflexive(p.key);
        SameRun(init, p, c);
      } else {
        NewRun(init, p, c);
      }
    }
  }

  lemma {:induction false} CompactShort(s: seq<Pair>)
    requires |s| <= 1
    ensures UniqueOf(s, Compact(s))
  {
    if |s| == 1 { assert KeyKept(s, s[0].key); }
  }

  lemma {:induction false} SameRun(init: seq<Pair>, p: Pair, c: seq<Pair>)
    requires UniqueOf(init, c) && c != [] && c[|c| - 1].key == p.key
    requires c[|c| - 1].needFree ==> p.needFree
    ensures UniqueOf(init + [p], c)
  {
  }

  lemma {:induction false} NewRun(init: seq<Pair>, p: Pair, c: seq<Pair>)
    requires UniqueOf(init, c) && c != [] && KeyLess(c[|c| - 1].key, p.key)
    ensures UniqueOf(init + [p], c + [p])
  {
    var d, all := c + [p], init + [p];
    forall i | 0 <= i < |c|
      ensures KeyLess(c[i].key, p.key) && c[i].key != p.key
    {
      if i < |c| - 1 { KeyLessTransitive(c[i].key, c[|c| - 1].key, p.key); }
      KeyLessIrreflexive(p.key);
    }
    hide KeyLess;
    assert d[|c|] == p;
    forall i | 0 <= i < |init|
      ensures KeyKept(d, init[i].key) && init[i].key != p.key
    {
      assert KeyKept(c, init[i].key);
      var j :| 0 <= j < |c| && c[j].key == init[i].key;
      assert d[j] == c[j];
    }
    assert AllKept(all, d);
    assert Among(d, all) by {
      forall i | 0 <= i < |d|
        ensures d[i] in all
      {
        if i < |c| { assert c[i] in init; }
      }
    }
  }

  lemma {:induction false} UniqueOfPermutation(input: seq<Pair>, s: seq<Pair>, kept: seq<Pair>)
    requires multiset(input) == multiset(s) && UniqueOf(s, kept)
    ensures UniqueOf(input, kept)
  {
    hide StrictlyIncreasing, KeyKept;
    forall p
      ensures p in input <==> p in s
    {
      assert p in input <==> p in multiset(input);
    }
    forall i | 0 <= i < |input|
      ensures exists k :: 0 <= k < |s| && s[k] == input[i]
    {
      assert input[i] in s;
    }
  }

  lemma {:induction false} BufLenStep(ps: seq<Pair>, p: Pair)
    ensures BufLen(ps + [p]) == BufLen(ps) + PairLen(p)
  {
  }

  /** hstoreUniquePairs: sort, then compact in place; `n` pairs remain. */
  method UniquePairsInPlace(a: array<Pair>, l: nat) returns (n: nat, buflen: nat)
    requires l <= a.Length
    modifies a
    ensures n <= l && UniqueOf(old(a[..l]), a[..n])
    ensures buflen == BufLen(a[..n])
  {
    hide ComparePairs, KeyLess, UniqueOf;
    if l < 2 {
      CompactUnique(a[..l]);
      buflen := 0;
      if l == 1 {
        buflen := |a[0].key| + (if a[0].isNull then 0 else |a[0].val|);
        BufLenStep(a[..0], a[0]);
        assert a[..1] == a[..0] + [a[0]];
      }
      return l, buflen;
    }
    ghost var input := a[..l];
    QSort(a, l);
    CompactUnique(a[..l]);
    UniqueOfPermutation(input, a[..l], Compact(a[..l]));
    n, buflen := CompactInPlace(a, l);
  }

  /** The loop of hstoreUniquePairs: `res` is the last kept pair, `ptr` the one under test. */
  method CompactInPlace(a: array<Pair>, l: nat) returns (n: nat, buflen: nat)
    requires 2 <= l <= a.Length
    modifies a
    ensures n <= l && a[..n] == Compact(old(a[..l]))
    ensures buflen == BufLen(a[..n])
  {
    hide BufLen, Compact, Lex;
    ghost var s := a[..l];
    var ptr, res := 1, 0;
    buflen := 0;
    CompactStart(s);
    assert a[..0] == [] && a[..1] == s[..1];
    while ptr < l
      invariant 0 <= res < ptr <= l
      invariant a[..res + 1] == Compact(s[..ptr])
      invariant forall k | ptr <= k < l :: a[k] == s[k]
      invariant buflen == BufLen(a[..res])
    {
      CompactStep(s, ptr);
      LexAntisymmetric(a[ptr].key, a[res].key);
      if |a[ptr].key| == |a[res].key| && Lex(a[ptr].key, a[res].key) == 0 {
      } else {
        buflen := buflen + |a[res].key| + (if a[res].isNull then 0 else |a[res].val|);
        BufLenStep(a[..res], a[res]);
        assert a[..res + 1] == a[..res] + [a[res]];
        res := res + 1;
        ghost var c := a[..res];
        a[res] := a[ptr];
        assert a[..res] == c;
        assert a[..res + 1] == c + [s[ptr]];
      }
      ptr := ptr + 1;
    }
    assert s[..ptr] == s;
    buflen := buflen + |a[res].key| + (if a[res].isNull then 0 else |a[res].val|);
    BufLenStep(a[..res], a[res]);
    assert a[..res + 1] == a[..res] + [a[res]];
    n := res + 1;
  }

  lemma {:induction false} CompactStart(s: seq<Pair>)
    requires s != []
    ensures Compact(s[..1]) == s[..1] && BufLen([]) == 0
  {
  }

  /** The pairs hstoreUniquePairs leaves, as a value. */
  method UniquePairs(pairs: seq<Pair>) returns (kept: seq<Pair>, buflen: nat)
    ensures UniqueOf(pairs, kept)
    ensures buflen == BufLen(kept)
  {
    var a := new Pair[|pairs|](i requires 0 <= i < |pairs| => pairs[i]);
    assert a[..|pairs|] == pairs;
    var n;
    n, buflen := UniquePairsInPlace(a, |pairs|);
    kept := a[..n];
  }

  // ---------- building the hstore ----------

  lemma {:induction false} BufLenChars(ps: seq<Pair>)
    ensures BufLen(ps) == |Chars(ItemsOf(ps))|
  {
    if ps != [] {
      var n := |ps| - 1;
      BufLenChars(ps[..n]);
      assert ItemsOf(ps)[..n] == ItemsOf(ps[..n]);
    }
  }

  lemma {:induction false} SortedItems(ps: seq<Pair>)
    requires StrictlyIncreasing(ps)
    ensures Sorted(ItemsOf(ps))
  {
  }

  /** hstorePairs: lay the pairs out; the allocation of `buflen` string bytes may fail. */
  method HStoreFromPairs(pairs: seq<Pair>, buflen: nat) returns (r: Result<HStore>)
    requires BufLen(pairs) <= buflen && (pairs == [] ==> buflen == 0)
    ensures r == if CalcDataSize(|pairs|, buflen) > MAX_ALLOC_SIZE then Error else Ok(Encode(ItemsOf(pairs)))
  {
    hide Chars, Holds, BufLen, Encode, ItemsOf;
    var len := CalcDataSize(|pairs|, buflen);
    if len > MAX_ALLOC_SIZE {
      return Error;
    }
    if |pairs| == 0 {
      assert ItemsOf(pairs) == [];
      EncodeEmpty();
      return Ok(HStore(len, true, 0, [], []));
    }
    var b := new Builder(len, |pairs|);
    ghost var items := ItemsOf(pairs);
    for i := 0 to |pairs|
      invariant b.Valid() && fresh(b) && fresh(b.mem)
      invariant b.count == |pairs| && b.mem.Length == 8 * |pairs| + buflen
      invariant b.items == items[..i]
    {
      PrefixRoom(pairs, i);
      b.AddItem(pairs[i].key, pairs[i].val, pairs[i].isNull);
      assert items[..i + 1] == items[..i] + [items[i]];
    }
    assert items[..|pairs|] == items;
    var hs := b.Finalize(|pairs|);
    r := Ok(hs);
  }

  lemma {:induction false} PrefixRoom(pairs: seq<Pair>, i: nat)
    requires i < |pairs|
    ensures |Chars(ItemsOf(pairs)[..i])| + PairLen(pairs[i]) <= BufLen(pairs)
  {
    BufLenChars(pairs);
    CharsStep(ItemsOf(pairs), i);
    CharsPrefix(ItemsOf(pairs), i + 1);
  }
}
