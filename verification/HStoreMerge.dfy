/** The operators that build a new hstore by walking one or two sorted ones:
    delete, delete by key array, delete by hstore, concatenation and slicing. Each
    result is canonical and stands for the expected dictionary, which together
    determine it down to the last byte. */
module HStoreMerge {
  import opened Bytes
  import opened HStoreLayout
  import opened HStoreBuilder
  import opened HStorePairs
  import opened HStoreSearch

  // ---------- filtered copies ----------

  function Filter(items: seq<Item>, keep: Item -> bool): (kept: seq<Item>)
    ensures |kept| <= |items|
  {
    if items == [] then []
    else
      var init, x := items[..|items| - 1], items[|items| - 1];
      if keep(x) then Filter(init, keep) + [x] else Filter(init, keep)
  }

  lemma {:induction false} FilterStep(items: seq<Item>, i: nat, keep: Item -> bool)
    requires i < |items|
    ensures Filter(items[..i + 1], keep) ==
      if keep(items[i]) then Filter(items[..i], keep) + [items[i]] else Filter(items[..i], keep)
  {
    assert items[..i + 1][..i] == items[..i];
  }

  lemma {:induction false} FilterChars(items: seq<Item>, keep: Item -> bool)
    ensures |Chars(Filter(items, keep))| <= |Chars(items)|
  {
    if items != [] {
      var init, x := items[..|items| - 1], items[|items| - 1];
      FilterChars(init, keep);
      AppendOne(Filter(init, keep), x);
    }
  }

  /** Room for pair i behind whatever was kept of the pairs before it. */
  lemma {:induction false} FilterRoom(items: seq<Item>, i: nat, keep: Item -> bool)
    requires i < |items|
    ensures |Chars(Filter(items[..i], keep))| + |ItemChars(items[i])| <= |Chars(items)|
  {
    FilterChars(items[..i], keep);
    CharsStep(items, i);
    CharsPrefix(items, i + 1);
  }

  lemma {:induction false} FilterFrom(items: seq<Item>, keep: Item -> bool, x: Item)
    ensures x in Filter(items, keep) <==> x in items && keep(x)
  {
    if items != [] {
      var n := |items| - 1;
      assert items == items[..n] + [items[n]];
      FilterFrom(items[..n], keep, x);
    }
  }

  lemma {:induction false} FilterSorted(items: seq<Item>, keep: Item -> bool)
    requires Sorted(items)
    ensures Sorted(Filter(items, keep))
  {
    hide KeyLess;
    if items != [] {
      var init, x := items[..|items| - 1], items[|items| - 1];
      SortedPrefix(items, |items| - 1);
      FilterSorted(init, keep);
      var f := Filter(init, keep);
      forall i | 0 <= i < |f|
        ensures KeyLess(f[i].key, x.key)
      {
        FilterFrom(init, keep, f[i]);
        var j :| 0 <= j < |init| && init[j] == f[i];
        assert items[j] == f[i];
      }
    }
  }

  /** The part of a dictionary that a filter keeps. */
  function Restrict(m: Dictionary, keep: Item -> bool): Dictionary
  {
    map k | k in m && keep(Item(k, m[k])) :: m[k]
  }

  lemma {:induction false} RestrictUpdate(m: Dictionary, keep: Item -> bool, x: Item)
    requires x.key !in m
    ensures Restrict(m[x.key := x.val], keep) ==
      if keep(x) then Restrict(m, keep)[x.key := x.val] else Restrict(m, keep)
  {
  }

  /** The dictionary of a filtered list is the restricted dictionary. */
  lemma {:induction false} FilterMap(items: seq<Item>, keep: Item -> bool)
    requires Sorted(items)
    ensures ToMap(Filter(items, keep)) == Restrict(ToMap(items), keep)
  {
    hide Sorted, Restrict;
    if items == [] {
      assert Restrict(map[], keep) == map[] by { RestrictNothing(keep); }
    } else {
      var n := |items| - 1;
      var init, x := items[..n], items[n];
      SortedPrefix(items, n);
      KeyNotBefore(items, n);
      FilterMap(init, keep);
      AppendMap(Filter(init, keep), x);
      RestrictUpdate(ToMap(init), keep, x);
    }
  }

  lemma {:induction false} RestrictNothing(keep: Item -> bool)
    ensures Restrict(map[], keep) == map[]
  {
  }

  lemma {:induction false} AppendMap(items: seq<Item>, x: Item)
    ensures ToMap(items + [x]) == ToMap(items)[x.key := x.val]
  {
  }

  // ---------- walking with a builder ----------

  /** HS_COPYITEM of pair i of `hs`. */
  method CopyFrom(b: Builder, hs: HStore, i: nat)
    requires Tight(hs) && i < hs.count && b.Valid() && |b.items| < b.count
    requires 8 * b.count + |Chars(b.items)| + |ItemChars(Decode(hs)[i])| <= b.mem.Length
    modifies b`dent, b`dptr, b`items, b.mem
    ensures b.Valid()
    ensures b.items == old(b.items) + [Decode(hs)[i]]
  {
    hide Holds, Chars;
    ItemCharsAt(hs, i);
    var off, mid, end := Off(hs.entries, 2 * i), hs.entries[2 * i].pos, hs.entries[2 * i + 1].pos;
    var strings := hs.chars[off..end];
    assert strings[..mid - off] == Key(hs, i);
    assert strings[mid - off..] == Val(hs, i);
    b.CopyItem(strings, mid - off, end - mid, ValIsNull(hs, i));
  }

  /** The early return shared by the operators: memcpy, HS_FIXSIZE, HS_SETCOUNT. */
  function CopyUnchanged(hs: HStore): HStore
    requires Readable(hs)
  {
    var bl := if hs.count == 0 then 0 else hs.entries[2 * hs.count - 1].pos;
    hs.(vlLen := CalcDataSize(hs.count, bl), newVersion := true)
  }

  /** What a walk that kept exactly the pairs satisfying `keep` delivers. */
  lemma {:induction false} FilteredResult(hs: HStore, keep: Item -> bool, out: HStore)
    requires Canonical(hs) && out == Encode(Filter(Decode(hs), keep))
    ensures Canonical(out)
    ensures Abs(out) == Restrict(Abs(hs), keep)
  {
    hide Canonical, Sorted, Encode, Filter, Decode, ToMap, Chars;
    CanonicalFacts(hs);
    FilterChars(Decode(hs), keep);
    FilterSorted(Decode(hs), keep);
    EncodeCanonical(Filter(Decode(hs), keep));
    FilterMap(Decode(hs), keep);
  }

  /** hstore_delete */
  method Delete(hs: HStore, key: seq<byte>) returns (out: HStore)
    requires Canonical(hs)
    ensures Canonical(out) && Abs(out) == Abs(hs) - {key}
  {
    hide Canonical, Abs, Filter, Decode, Encode, Chars, Fits, Sorted, Tight, Readable, Lex, Text, Restrict,
      Builder.Valid;
    CanonicalFacts(hs);
    ghost var items := Decode(hs);
    ghost var keep := (x: Item) => x.key != key;
    var b := new Builder(hs.vlLen, hs.count);
    var outcount := 0;
    FilterNothing(items, keep);
    for i := 0 to hs.count
      invariant b.Valid() && fresh(b) && fresh(b.mem)
      invariant b.count == hs.count && b.mem.Length == hs.vlLen - HDRSIZE
      invariant b.items == Filter(items[..i], keep) && outcount == |b.items|
    {
      FilterStep(items, i, keep);
      LexAntisymmetric(Key(hs, i), key);
      if !(|Key(hs, i)| == |key| && Lex(Key(hs, i), key) == 0) {
        FilterRoom(items, i, keep);
        CopyFrom(b, hs, i);
        outcount := outcount + 1;
      }
    }
    assert items[..hs.count] == items;
    out := b.Finalize(outcount);
    FilteredResult(hs, keep, out);
    RestrictKeys(Abs(hs), keep, {key});
  }

  lemma {:induction false} RestrictKeys(m: Dictionary, keep: Item -> bool, gone: set<seq<byte>>)
    requires forall x: Item :: keep(x) <==> x.key !in gone
    ensures Restrict(m, keep) == m - gone
  {
  }

  lemma {:induction false} FilterNothing(items: seq<Item>, keep: Item -> bool)
    ensures Filter(items[..0], keep) == []
  {
  }

  // ---------- merging two sorted lists of keys ----------

  ghost predicate Increasing(ks: seq<seq<byte>>)
  {
    forall i, j | 0 <= i < j < |ks| :: KeyLess(ks[i], ks[j])
  }

  ghost function KeysOf(items: seq<Item>): (ks: seq<seq<byte>>)
    ensures |ks| == |items|
    ensures forall i | 0 <= i < |items| :: ks[i] == items[i].key
  {
    seq(|items|, i requires 0 <= i < |items| => items[i].key)
  }

  ghost function PairKeys(pairs: seq<Pair>): (ks: seq<seq<byte>>)
    ensures |ks| == |pairs|
    ensures forall i | 0 <= i < |pairs| :: ks[i] == pairs[i].key
  {
    seq(|pairs|, i requires 0 <= i < |pairs| => pairs[i].key)
  }

  /** Cursor j has passed exactly keys smaller than the one under cursor i. */
  ghost predicate Behind(ks: seq<seq<byte>>, i: nat, other: seq<seq<byte>>, j: nat)
  {
    j <= |other| && (i < |ks| ==> forall l | 0 <= l < j :: KeyLess(other[l], ks[i]))
  }

  lemma {:induction false} StartBehind(ks: seq<seq<byte>>, other: seq<seq<byte>>)
    ensures Behind(ks, 0, other, 0)
  {
  }

  /** The next key of the other list is smaller: pass it. */
  lemma {:induction false} PassOther(ks: seq<seq<byte>>, i: nat, other: seq<seq<byte>>, j: nat)
    requires Behind(ks, i, other, j) && i < |ks| && j < |other| && KeyLess(other[j], ks[i])
    ensures Behind(ks, i, other, j + 1)
  {
  }

  /** Passing our own key keeps every passed key behind. */
  lemma {:induction false} PassOwn(ks: seq<seq<byte>>, i: nat, other: seq<seq<byte>>, j: nat)
    requires Increasing(ks) && Behind(ks, i, other, j) && i < |ks|
    ensures Behind(ks, i + 1, other, j)
    ensures j < |other| && other[j] == ks[i] ==> Behind(ks, i + 1, other, j + 1)
  {
    hide KeyLess;
    if i + 1 < |ks| {
      forall l | 0 <= l < j
        ensures KeyLess(other[l], ks[i + 1])
      {
        KeyLessTrans(other[l], ks[i], ks[i + 1]);
      }
    }
  }

  /** A key below the other cursor's key is not in the other list at all. */
  lemma {:induction false} NotInOther(ks: seq<seq<byte>>, i: nat, other: seq<seq<byte>>, j: nat)
    requires Increasing(other) && Behind(ks, i, other, j) && i < |ks|
    requires j < |other| ==> KeyLess(ks[i], other[j])
    ensures ks[i] !in other
  {
    hide KeyLess;
    KeyLessIrreflexive(ks[i]);
    forall l | 0 <= l < |other|
      ensures other[l] != ks[i]
    {
      if j < l { KeyLessTrans(ks[i], other[j], other[l]); }
    }
  }

  lemma {:induction false} KeysIncreasing(items: seq<Item>)
    requires Sorted(items)
    ensures Increasing(KeysOf(items))
  {
  }

  lemma {:induction false} PairKeysIncreasing(pairs: seq<Pair>)
    requires StrictlyIncreasing(pairs)
    ensures Increasing(PairKeys(pairs))
    ensures forall k :: KeyKept(pairs, k) <==> k in PairKeys(pairs)
  {
  }

  /** The sign the merge loops branch on, with an exhausted right list. */
  function Difference(hs: HStore, i: nat, more: bool, other: seq<byte>): int
    requires Readable(hs) && i < hs.count
  {
    if !more then -1 else KeyCmp(Key(hs, i), other)
  }

  lemma {:induction false} DifferenceMeaning(hs: HStore, i: nat, more: bool, other: seq<byte>)
    requires Readable(hs) && i < hs.count
    ensures var d := Difference(hs, i, more, other); var k := Decode(hs)[i].key;
            && (d > 0 ==> more && KeyLess(other, k))
            && (d == 0 ==> more && other == k)
            && (d < 0 && more ==> KeyLess(k, other))
  {
    KeyCmpAntisymmetric(Key(hs, i), other);
    hide Readable, Lex;
  }

  /** hstore_delete_array */
  method DeleteArray(hs: HStore, keys: seq<Option<seq<byte>>>) returns (r: Result<HStore>)
    requires Canonical(hs)
    ensures r.Error? <==> |keys| > MAX_ALLOC_PAIRS
    ensures r.Ok? ==>
      Canonical(r.value) && Abs(r.value) == Abs(hs) - (set k | k in Abs(hs) && Some(k) in keys)
  {
    hide Canonical, Abs, StrictlyIncreasing, KeyKept;
    var pairs := ArrayToPairs(keys);
    if pairs.Error? {
      return Error;
    }
    var out := DeletePairs(hs, keys, pairs.value);
    r := Ok(out);
  }

  /** The rest of hstore_delete_array, once the keys are in order. */
  method DeletePairs(hs: HStore, ghost keys: seq<Option<seq<byte>>>, pairs: seq<Pair>) returns (out: HStore)
    requires Canonical(hs)
    requires StrictlyIncreasing(pairs) && forall k :: KeyKept(pairs, k) <==> Some(k) in keys
    ensures Canonical(out) && Abs(out) == Abs(hs) - (set k | k in Abs(hs) && Some(k) in keys)
  {
    hide Canonical, Abs, Filter, Decode, Encode, Chars, Fits, Sorted, Tight, Readable, Text, Restrict, Builder.Valid,
      KeyKept, StrictlyIncreasing, Increasing, Behind, PairKeys, KeysOf, Difference, KeyLess;
    CanonicalFacts(hs);
    ghost var gone := set k | k in Abs(hs) && Some(k) in keys;
    if |pairs| == 0 {
      out := CopyUnchanged(hs);
      UnchangedIs(hs);
      NothingKept(pairs);
      assert gone == {};
      return;
    }
    ghost var items := Decode(hs);
    ghost var ks, other := KeysOf(items), PairKeys(pairs);
    ghost var keep := (x: Item) => x.key !in other;
    KeysIncreasing(items);
    PairKeysIncreasing(pairs);
    StartBehind(ks, other);
    FilterNothing(items, keep);
    var b := new Builder(hs.vlLen, hs.count);
    var outcount := 0;
    var i, j := 0, 0;
    while i < hs.count
      invariant i <= hs.count && j <= |pairs| && Behind(ks, i, other, j)
      invariant b.Valid() && fresh(b) && fresh(b.mem)
      invariant b.count == hs.count && b.mem.Length == hs.vlLen - HDRSIZE
      invariant b.items == Filter(items[..i], keep) && outcount == |b.items|
      decreases hs.count - i, |pairs| - j
    {
      var difference := Difference(hs, i, j < |pairs|, if j < |pairs| then pairs[j].key else []);
      DifferenceMeaning(hs, i, j < |pairs|, if j < |pairs| then pairs[j].key else []);
      FilterStep(items, i, keep);
      if difference > 0 {
        PassOther(ks, i, other, j);
        j := j + 1;
      } else if difference == 0 {
        PassOwn(ks, i, other, j);
        i, j := i + 1, j + 1;
      } else {
        NotInOther(ks, i, other, j);
        PassOwn(ks, i, other, j);
        FilterRoom(items, i, keep);
        CopyFrom(b, hs, i);
        outcount := outcount + 1;
        i := i + 1;
      }
    }
    assert items[..hs.count] == items;
    out := b.Finalize(outcount);
    FilteredResult(hs, keep, out);
    RestrictDelete(Abs(hs), keep, gone);
  }

  lemma {:induction false} RestrictDelete(m: Dictionary, keep: Item -> bool, gone: set<seq<byte>>)
    requires forall x: Item | x.key in m :: keep(x) <==> x.key !in gone
    ensures Restrict(m, keep) == m - gone
  {
  }

  lemma {:induction false} UnchangedIs(hs: HStore)
    requires Canonical(hs)
    ensures Readable(hs) && CopyUnchanged(hs) == hs
  {
  }

  lemma {:induction false} NothingKept(pairs: seq<Pair>)
    requires pairs == []
    ensures forall k :: !KeyKept(pairs, k)
  {
  }

  /** hstore_delete_hstore: remove the pairs that `hs2` has with the same value. */
  method DeleteHStore(hs: HStore, hs2: HStore) returns (out: HStore)
    requires Canonical(hs) && Canonical(hs2)
    ensures Canonical(out)
    ensures Abs(out) == Abs(hs) - (set k | k in Abs(hs) && k in Abs(hs2) && Abs(hs)[k] == Abs(hs2)[k])
  {
    hide Canonical, Abs, Filter, Decode, Encode, Chars, Fits, Sorted, Tight, Readable, Text, Restrict, Builder.Valid,
      Increasing, Behind, KeysOf, Difference, KeyLess, ValuesDiffer;
    CanonicalFacts(hs);
    CanonicalFacts(hs2);
    ghost var gone := set k | k in Abs(hs) && k in Abs(hs2) && Abs(hs)[k] == Abs(hs2)[k];
    if hs2.count == 0 {
      out := CopyUnchanged(hs);
      UnchangedIs(hs);
      EmptyAbs(hs2);
      assert gone == {};
      return;
    }
    ghost var items, items2, m2 := Decode(hs), Decode(hs2), Abs(hs2);
    ghost var ks, other := KeysOf(items), KeysOf(items2);
    ghost var keep := (x: Item) => !(x.key in m2 && m2[x.key] == x.val);
    KeysIncreasing(items);
    KeysIncreasing(items2);
    StartBehind(ks, other);
    FilterNothing(items, keep);
    var b := new Builder(hs.vlLen, hs.count);
    var outcount := 0;
    var i, j := 0, 0;
    while i < hs.count
      invariant i <= hs.count && j <= hs2.count && Behind(ks, i, other, j)
      invariant b.Valid() && fresh(b) && fresh(b.mem)
      invariant b.count == hs.count && b.mem.Length == hs.vlLen - HDRSIZE
      invariant b.items == Filter(items[..i], keep) && outcount == |b.items|
      decreases hs.count - i, hs2.count - j
    {
      var difference := Difference(hs, i, j < hs2.count, if j < hs2.count then Key(hs2, j) else []);
      DifferenceMeaning(hs, i, j < hs2.count, if j < hs2.count then Key(hs2, j) else []);
      FilterStep(items, i, keep);
      FilterRoom(items, i, keep);
      if difference > 0 {
        PassOther(ks, i, other, j);
        j := j + 1;
      } else if difference == 0 {
        PassOwn(ks, i, other, j);
        AbsAt(hs2, j);
        ValuesDifferMeaning(hs, i, hs2, j);
        if ValuesDiffer(hs, i, hs2, j) {
          CopyFrom(b, hs, i);
          outcount := outcount + 1;
        }
        i, j := i + 1, j + 1;
      } else {
        NotInOther(ks, i, other, j);
        PassOwn(ks, i, other, j);
        NotInAbs(hs2, ks[i]);
        CopyFrom(b, hs, i);
        outcount := outcount + 1;
        i := i + 1;
      }
    }
    assert items[..hs.count] == items;
    out := b.Finalize(outcount);
    FilteredResult(hs, keep, out);
    RestrictSame(Abs(hs), keep, m2, gone);
  }

  lemma {:induction false} RestrictSame(m: Dictionary, keep: Item -> bool, m2: Dictionary, gone: set<seq<byte>>)
    requires forall x: Item :: keep(x) <==> !(x.key in m2 && m2[x.key] == x.val)
    requires gone == set k | k in m && k in m2 && m[k] == m2[k]
    ensures Restrict(m, keep) == m - gone
  {
  }

  lemma {:induction false} EmptyAbs(hs: HStore)
    requires Readable(hs) && hs.count == 0
    ensures Abs(hs) == map[]
  {
  }

  lemma {:induction false} AbsAt(hs: HStore, j: nat)
    requires Canonical(hs) && j < hs.count
    ensures Readable(hs) && Decode(hs)[j].key in Abs(hs) && Abs(hs)[Decode(hs)[j].key] == Decode(hs)[j].val
  {
    hide Canonical, Decode, Sorted, ToMap;
    CanonicalFacts(hs);
    ToMapAt(Decode(hs), j);
  }

  lemma {:induction false} NotInAbs(hs: HStore, k: seq<byte>)
    requires Readable(hs) && k !in KeysOf(Decode(hs))
    ensures k !in Abs(hs)
  {
    hide Readable, Decode, ToMap;
    ToMapKeys(Decode(hs), k);
    assert forall i | 0 <= i < |Decode(hs)| :: Decode(hs)[i].key == KeysOf(Decode(hs))[i];
  }

  // ---------- concatenation ----------

  ghost predicate Below(out: seq<Item>, key: seq<byte>)
  {
    forall l | 0 <= l < |out| :: KeyLess(out[l].key, key)
  }

  /** The state of hstore_concat's merge after i pairs of `a` and j pairs of `c`. */
  ghost predicate Merged(a: seq<Item>, i: nat, c: seq<Item>, j: nat, out: seq<Item>)
  {
    && i <= |a| && j <= |c|
    && Sorted(out)
    && (i < |a| ==> Below(out, a[i].key))
    && (j < |c| ==> Below(out, c[j].key))
    && ToMap(out) == ToMap(a[..i]) + ToMap(c[..j])
    && |out| <= i + j
    && |Chars(out)| <= |Chars(a[..i])| + |Chars(c[..j])|
  }

  lemma {:induction false} SortedAppend(out: seq<Item>, x: Item)
    requires Sorted(out) && Below(out, x.key)
    ensures Sorted(out + [x])
  {
  }

  lemma {:induction false} BelowNext(out: seq<Item>, x: Item, next: seq<byte>)
    requires Below(out, x.key) && KeyLess(x.key, next)
    ensures Below(out + [x], next)
  {
    hide KeyLess;
    forall l | 0 <= l < |out|
      ensures KeyLess(out[l].key, next)
    {
      KeyLessTrans(out[l].key, x.key, next);
    }
  }

  lemma {:induction false} BelowAbsent(out: seq<Item>, key: seq<byte>)
    requires Below(out, key)
    ensures key !in ToMap(out)
  {
    hide KeyLess, ToMap;
    ToMapKeys(out, key);
    KeyLessIrreflexive(key);
  }

  /** Taking the smaller key of `a`. */
  lemma {:induction false} TakeLeft(a: seq<Item>, i: nat, c: seq<Item>, j: nat, out: seq<Item>)
    requires Merged(a, i, c, j, out) && i < |a| && Sorted(a)
    requires j < |c| ==> KeyLess(a[i].key, c[j].key)
    ensures Merged(a, i + 1, c, j, out + [a[i]])
  {
    hide KeyLess, ToMap, Chars, Below, ItemChars;
    var x := a[i];
    SortedAppend(out, x);
    if i + 1 < |a| { SortedAdjacent(a, i); BelowNext(out, x, a[i + 1].key); }
    if j < |c| { BelowNext(out, x, c[j].key); }
    hide Sorted;
    BelowAbsent(out, x.key);
    AppendMap(out, x);
    ToMapStep(a, i);
    AppendOne(out, x);
    CharsStep(a, i);
  }

  /** Taking a key of `c` that is smaller than, or equal to and overriding, the next of `a`. */
  lemma {:induction false} TakeRight(a: seq<Item>, i: nat, c: seq<Item>, j: nat, out: seq<Item>, i': nat)
    requires Merged(a, i, c, j, out) && j < |c| && Sorted(a) && Sorted(c)
    requires i' == i || (i' == i + 1 && i < |a| && a[i].key == c[j].key)
    requires i' == i && i < |a| ==> KeyLess(c[j].key, a[i].key)
    ensures Merged(a, i', c, j + 1, out + [c[j]])
  {
    hide KeyLess, ToMap, Chars, Below, ItemChars;
    var x := c[j];
    SortedAppend(out, x);
    if j + 1 < |c| { SortedAdjacent(c, j); BelowNext(out, x, c[j + 1].key); }
    if i' < |a| {
      if i < i' { SortedAdjacent(a, i); }
      BelowNext(out, x, a[i'].key);
    }
    hide Sorted;
    AppendMap(out, x);
    ToMapStep(c, j);
    AppendOne(out, x);
    CharsStep(c, j);
    if i < i' {
      ToMapStep(a, i);
      CharsStep(a, i);
    }
  }

  lemma {:induction false} SortedAdjacent(a: seq<Item>, i: nat)
    requires Sorted(a) && i + 1 < |a|
    ensures KeyLess(a[i].key, a[i + 1].key)
  {
  }

  lemma {:induction false} MergeStart(a: seq<Item>, c: seq<Item>)
    ensures Merged(a, 0, c, 0, [])
  {
  }

  /** Whatever the merge still has to take fits behind what it has taken. */
  lemma {:induction false} MergeRoom(a: seq<Item>, i: nat, c: seq<Item>, j: nat, out: seq<Item>)
    requires Merged(a, i, c, j, out)
    ensures |Chars(out)| <= |Chars(a)| + |Chars(c)|
    ensures i < |a| ==> |Chars(out)| + |ItemChars(a[i])| <= |Chars(a)| + |Chars(c)|
    ensures j < |c| ==> |Chars(out)| + |ItemChars(c[j])| <= |Chars(a)| + |Chars(c)|
  {
    hide Sorted, Below, Chars, ItemChars, ToMap;
    CharsPrefix(a, i);
    CharsPrefix(c, j);
    if i < |a| {
      CharsStep(a, i);
      CharsPrefix(a, i + 1);
    }
    if j < |c| {
      CharsStep(c, j);
      CharsPrefix(c, j + 1);
    }
  }

  /** hstore_concat: the right operand wins. Only the allocation of the sum of the
      two sizes can fail. */
  method Concat(s1: HStore, s2: HStore) returns (r: Result<HStore>)
    requires Canonical(s1) && Canonical(s2)
    ensures r.Error? <==> s1.vlLen + s2.vlLen > MAX_ALLOC_SIZE
    ensures r.Ok? ==> Canonical(r.value) && Abs(r.value) == Abs(s1) + Abs(s2)
  {
    hide Canonical, Abs, Decode, Encode, Chars, Fits, Sorted, Tight, Readable, Text, Builder.Valid, KeyLess, Difference,
      Merged, ItemChars;
    CanonicalFacts(s1);
    CanonicalFacts(s2);
    if s1.vlLen + s2.vlLen > MAX_ALLOC_SIZE {
      return Error;
    }
    if s1.count == 0 {
      UnchangedIs(s2);
      EmptyAbs(s1);
      return Ok(CopyUnchanged(s2));
    }
    if s2.count == 0 {
      UnchangedIs(s1);
      EmptyAbs(s2);
      return Ok(CopyUnchanged(s1));
    }
    var out := ConcatNonempty(s1, s2);
    return Ok(out);
  }

  method ConcatNonempty(s1: HStore, s2: HStore) returns (out: HStore)
    requires Canonical(s1) && Canonical(s2) && s1.vlLen + s2.vlLen <= MAX_ALLOC_SIZE
    ensures Canonical(out) && Abs(out) == Abs(s1) + Abs(s2)
  {
    hide Canonical, Abs, Decode, Encode, Chars, Fits, Sorted, Tight, Readable, Text, Builder.Valid, KeyLess, Difference,
      Merged, ItemChars;
    CanonicalFacts(s1);
    CanonicalFacts(s2);
    ghost var a, c := Decode(s1), Decode(s2);
    var b := new Builder(s1.vlLen + s2.vlLen, s1.count + s2.count);
    var outcount, s1idx, s2idx := 0, 0, 0;
    MergeStart(a, c);
    while s1idx < s1.count || s2idx < s2.count
      invariant s1idx <= s1.count && s2idx <= s2.count
      invariant b.Valid() && fresh(b) && fresh(b.mem)
      invariant b.count == s1.count + s2.count && b.mem.Length == s1.vlLen + s2.vlLen - HDRSIZE
      invariant outcount == |b.items| <= s1idx + s2idx
      invariant Merged(a, s1idx, c, s2idx, b.items)
      decreases s1.count + s2.count - s1idx - s2idx
    {
      MergeRoom(a, s1idx, c, s2idx, b.items);
      var difference := 1;
      if s1idx < s1.count {
        difference := Difference(s1, s1idx, s2idx < s2.count, if s2idx < s2.count then Key(s2, s2idx) else []);
        DifferenceMeaning(s1, s1idx, s2idx < s2.count, if s2idx < s2.count then Key(s2, s2idx) else []);
      }
      ghost var out0 := b.items;
      if difference >= 0 {
        TakeRight(a, s1idx, c, s2idx, out0, if difference == 0 then s1idx + 1 else s1idx);
        CopyFrom(b, s2, s2idx);
        s2idx := s2idx + 1;
        if difference == 0 {
          s1idx := s1idx + 1;
        }
      } else {
        TakeLeft(a, s1idx, c, s2idx, out0);
        CopyFrom(b, s1, s1idx);
        s1idx := s1idx + 1;
      }
      outcount := outcount + 1;
    }
    ghost var items := b.items;
    MergeRoom(a, s1idx, c, s2idx, items);
    out := b.Finalize(outcount);
    MergedResult(s1, s2, items);
  }

  lemma {:induction false} MergedResult(s1: HStore, s2: HStore, items: seq<Item>)
    requires Readable(s1) && Readable(s2) && Merged(Decode(s1), s1.count, Decode(s2), s2.count, items)
    requires CalcDataSize(s1.count + s2.count, |Chars(items)|) <= MAX_ALLOC_SIZE
    ensures Canonical(Encode(items)) && Abs(Encode(items)) == Abs(s1) + Abs(s2)
  {
    hide Readable, Canonical, Decode, Encode, Sorted, Below, ToMap, Chars;
    assert Decode(s1)[..s1.count] == Decode(s1) && Decode(s2)[..s2.count] == Decode(s2);
    EncodeCanonical(items);
    CanonicalFacts(Encode(items));
  }

  // ---------- slicing ----------

  /** The state of hstore_slice_to_hstore after `i` keys, when the last search left `low`. */
  ghost predicate Sliced(items: seq<Item>, low: nat, ks: seq<seq<byte>>, i: nat, out: seq<Pair>)
  {
    && low <= |items| && i <= |ks|
    && Sorted(ItemsOf(out))
    && (i < |ks| ==> Below(ItemsOf(out), ks[i]))
    && ToMap(ItemsOf(out)) == (map k | k in ToMap(items) && k in ks[..i] :: ToMap(items)[k])
    && |out| <= low
    && BufLen(out) <= |Chars(items[..low])|
  }

  lemma {:induction false} SliceStart(items: seq<Item>, ks: seq<seq<byte>>)
    ensures Sliced(items, 0, ks, 0, [])
  {
  }

  lemma {:induction false} ItemsOfAppend(ps: seq<Pair>, p: Pair)
    ensures ItemsOf(ps + [p]) == ItemsOf(ps) + [ItemOf(p)]
  {
  }

  lemma {:induction false} BelowWeaken(out: seq<Item>, k: seq<byte>, next: seq<byte>)
    requires Below(out, k) && KeyLess(k, next)
    ensures Below(out, next)
  {
    hide KeyLess;
    forall l | 0 <= l < |out|
      ensures KeyLess(out[l].key, next)
    {
      KeyLessTrans(out[l].key, k, next);
    }
  }

  lemma {:induction false} CharsMonotone(items: seq<Item>, i: nat, j: nat)
    requires i <= j <= |items|
    ensures |Chars(items[..i])| <= |Chars(items[..j])|
  {
    CharsPrefix(items[..j], i);
    assert items[..j][..i] == items[..i];
  }

  /** The key is absent: nothing is added. */
  lemma {:induction false} SliceMiss(items: seq<Item>, low: nat, ks: seq<seq<byte>>, i: nat, out: seq<Pair>, low': nat)
    requires Sliced(items, low, ks, i, out) && i < |ks| && Increasing(ks)
    requires low <= low' <= |items| && ks[i] !in ToMap(items)
    ensures Sliced(items, low', ks, i + 1, out)
  {
    hide KeyLess, Sorted, Below, ToMap, Chars, BufLen;
    if i + 1 < |ks| { BelowWeaken(ItemsOf(out), ks[i], ks[i + 1]); }
    assert ks[..i + 1] == ks[..i] + [ks[i]];
    CharsMonotone(items, low, low');
  }

  /** The key was found at `idx`: its pair is added. */
  lemma {:induction false} SliceHit(items: seq<Item>, low: nat, ks: seq<seq<byte>>, i: nat, out: seq<Pair>,
      idx: nat, p: Pair)
    requires Sliced(items, low, ks, i, out) && i < |ks| && Increasing(ks) && Sorted(items)
    requires low <= idx < |items| && items[idx].key == ks[i] && ItemOf(p) == items[idx]
    ensures Sliced(items, idx + 1, ks, i + 1, out + [p])
  {
    hide KeyLess, Sorted, Below, ToMap, Chars, BufLen, ItemsOf, ItemChars;
    var x := items[idx];
    ItemsOfAppend(out, p);
    SortedAppend(ItemsOf(out), x);
    if i + 1 < |ks| { BelowNext(ItemsOf(out), x, ks[i + 1]); }
    AppendMap(ItemsOf(out), x);
    ToMapAt(items, idx);
    assert ks[..i + 1] == ks[..i] + [ks[i]];
    BufLenStep(out, p);
    ItemLength(x);
    CharsMonotone(items, low, idx);
    CharsStep(items, idx);
  }

  lemma {:induction false} SliceEnd(items: seq<Item>, low: nat, ks: seq<seq<byte>>, out: seq<Pair>)
    requires Sliced(items, low, ks, |ks|, out) && Fits(items)
    ensures Sorted(ItemsOf(out)) && CalcDataSize(|out|, |Chars(items[..low])|) <= MAX_ALLOC_SIZE
    ensures ToMap(ItemsOf(out)) == (map k | k in ToMap(items) && k in ks :: ToMap(items)[k])
  {
    hide Sorted, Below, ToMap, Chars, BufLen, ItemsOf;
    CharsPrefix(items, low);
    assert ks[..|ks|] == ks;
  }

  /** hstore_slice_to_hstore: the entries whose keys are listed. It never runs out of room. */
  method SliceToHStore(hs: HStore, keys: seq<Option<seq<byte>>>) returns (r: Result<HStore>)
    requires Canonical(hs)
    ensures r.Error? <==> |keys| > MAX_ALLOC_PAIRS
    ensures r.Ok? ==>
      && Canonical(r.value)
      && Abs(r.value) == map k | k in Abs(hs) && Some(k) in keys :: Abs(hs)[k]
  {
    hide Canonical, Abs, StrictlyIncreasing, KeyKept;
    var pairs := ArrayToPairs(keys);
    if pairs.Error? {
      return Error;
    }
    var out := SlicePairs(hs, keys, pairs.value);
    r := Ok(out);
  }

  /** The rest of hstore_slice_to_hstore, once the keys are in order. */
  method SlicePairs(hs: HStore, ghost keys: seq<Option<seq<byte>>>, pairs: seq<Pair>) returns (out: HStore)
    requires Canonical(hs)
    requires StrictlyIncreasing(pairs) && forall k :: KeyKept(pairs, k) <==> Some(k) in keys
    ensures Canonical(out)
    ensures Abs(out) == map k | k in Abs(hs) && Some(k) in keys :: Abs(hs)[k]
  {
    hide Canonical, Decode, Encode, Chars, Fits, Sorted, Tight, Readable, Text, KeyLess, ToMap, BufLen, ItemsOf,
      KeyKept, StrictlyIncreasing, Increasing, PairKeys, Sliced, MayStartAt, Splits, IndexFrom;
    CanonicalFacts(hs);
    ghost var items, ks := Decode(hs), PairKeys(pairs);
    PairKeysIncreasing(pairs);
    var outPairs: seq<Pair> := [];
    var bufsiz, lastidx := 0, 0;
    SliceStart(items, ks);
    StartAtZero(items);
    BufLenNothing();
    for i := 0 to |pairs|
      invariant i < |pairs| ==> MayStartAt(items, lastidx, pairs[i].key)
      invariant Sliced(items, lastidx, ks, i, outPairs)
      invariant bufsiz == BufLen(outPairs) && (outPairs == [] ==> bufsiz == 0)
    {
      var idx;
      ghost var low := lastidx;
      idx, lastidx := FindKey(hs, lastidx, pairs[i].key);
      IndexMeaning(items, pairs[i].key);
      SplitsInside(items, lastidx, pairs[i].key);
      NextKey(items, lastidx, pairs, i);
      if idx >= 0 {
        var p := Pair(pairs[i].key, Val(hs, idx), ValIsNull(hs, idx), false);
        NullIsEmpty(hs, idx);
        bufsiz := bufsiz + |p.key| + |p.val|;
        BufLenStep(outPairs, p);
        SliceHit(items, low, ks, i, outPairs, idx, p);
        outPairs := outPairs + [p];
      } else {
        SliceMiss(items, low, ks, i, outPairs, lastidx);
      }
    }
    SliceEnd(items, lastidx, ks, outPairs);
    BufLenBound(items, lastidx, ks, outPairs);
    var r := HStoreFromPairs(outPairs, bufsiz);
    out := r.value;
    BufLenChars(outPairs);
    FitsFromBuf(ItemsOf(outPairs));
    EncodeCanonical(ItemsOf(outPairs));
    CanonicalFacts(out);
  }

  lemma {:induction false} BufLenNothing()
    ensures BufLen([]) == 0
  {
  }

  lemma {:induction false} SplitsInside(items: seq<Item>, low: nat, key: seq<byte>)
    requires Splits(items, low, key)
    ensures low <= |items|
  {
  }

  lemma {:induction false} NullIsEmpty(hs: HStore, i: nat)
    requires Tight(hs) && i < hs.count
    ensures ValIsNull(hs, i) ==> Val(hs, i) == []
  {
  }

  lemma {:induction false} BufLenBound(items: seq<Item>, low: nat, ks: seq<seq<byte>>, out: seq<Pair>)
    requires Sliced(items, low, ks, |ks|, out)
    ensures low <= |items| && BufLen(out) <= |Chars(items[..low])|
  {
  }

  lemma {:induction false} FitsFromBuf(items: seq<Item>)
    requires CalcDataSize(|items|, |Chars(items)|) <= MAX_ALLOC_SIZE
    ensures Fits(items)
  {
  }
}
