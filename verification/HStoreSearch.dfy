/** Searching an hstore: binary search with a carried lower bound, and the
    operators built on it. */
module HStoreSearch {
  import opened Bytes
  import opened HStoreLayout
  import opened HStorePairs

  /** Plain linear search from position i: what the binary search must agree with. */
  function IndexFrom(items: seq<Item>, i: nat, key: seq<byte>): int
    requires i <= |items|
    decreases |items| - i
  {
    if i == |items| then -1 else if items[i].key == key then i else IndexFrom(items, i + 1, key)
  }

  lemma {:induction false} IndexFromAt(items: seq<Item>, i: nat, k: nat, key: seq<byte>)
    requires Sorted(items) && i <= k < |items| && items[k].key == key
    ensures IndexFrom(items, i, key) == k
    decreases k - i
  {
    hide KeyLess;
    if i < k {
      assert KeyLess(items[i].key, items[k].key);
      KeyLessIrreflexive(key);
      IndexFromAt(items, i + 1, k, key);
    }
  }

  lemma {:induction false} IndexFromNone(items: seq<Item>, i: nat, key: seq<byte>)
    requires i <= |items| && forall k | i <= k < |items| :: items[k].key != key
    ensures IndexFrom(items, i, key) == -1
    decreases |items| - i
  {
    if i < |items| { IndexFromNone(items, i + 1, key); }
  }

  lemma {:induction false} IndexMeaning(items: seq<Item>, key: seq<byte>)
    requires Sorted(items)
    ensures var k := IndexFrom(items, 0, key);
            && -1 <= k < |items|
            && (k >= 0 <==> key in ToMap(items))
            && (k >= 0 ==> items[k].key == key && ToMap(items)[key] == items[k].val)
  {
    hide Sorted, ToMap;
    ToMapKeys(items, key);
    if HasKey(items, key) {
      var k :| 0 <= k < |items| && items[k].key == key;
      IndexFromAt(items, 0, k, key);
      ToMapAt(items, k);
    } else {
      IndexFromNone(items, 0, key);
    }
  }

  /** `low` separates the keys below or at `key` from those above it. */
  predicate Splits(items: seq<Item>, low: nat, key: seq<byte>)
  {
    && low <= |items|
    && (forall i | 0 <= i < low :: KeyCmp(items[i].key, key) <= 0)
    && (forall i | low <= i < |items| :: KeyLess(key, items[i].key))
  }

  /** Everything below the lower bound may be skipped when looking for `key`. */
  predicate MayStartAt(items: seq<Item>, low: nat, key: seq<byte>)
  {
    low <= |items| && forall i | 0 <= i < low :: KeyLess(items[i].key, key)
  }

  /** A lower bound left by a search for a smaller key is good for a larger one. */
  lemma {:induction false} CarryOver(items: seq<Item>, low: nat, key: seq<byte>, next: seq<byte>)
    requires Splits(items, low, key) && KeyLess(key, next)
    ensures MayStartAt(items, low, next)
  {
    forall i | 0 <= i < low
      ensures KeyLess(items[i].key, next)
    {
      KeyLessTransitive(items[i].key, key, next);
    }
  }

  lemma {:induction false} NarrowLow(items: seq<Item>, mid: nat, key: seq<byte>)
    requires Sorted(items) && mid < |items| && KeyLess(items[mid].key, key)
    ensures MayStartAt(items, mid + 1, key)
  {
    forall i | 0 <= i < mid
      ensures KeyLess(items[i].key, key)
    {
      KeyLessTransitive(items[i].key, items[mid].key, key);
    }
  }

  lemma {:induction false} NarrowHigh(items: seq<Item>, mid: nat, key: seq<byte>)
    requires Sorted(items) && mid < |items| && KeyLess(key, items[mid].key)
    ensures forall i | mid <= i < |items| :: KeyLess(key, items[i].key)
  {
    forall i | mid < i < |items|
      ensures KeyLess(key, items[i].key)
    {
      KeyLessTransitive(key, items[mid].key, items[i].key);
    }
  }

  lemma {:induction false} FoundSplits(items: seq<Item>, mid: nat, key: seq<byte>)
    requires Sorted(items) && mid < |items| && items[mid].key == key
    ensures Splits(items, mid + 1, key)
    ensures IndexFrom(items, 0, key) == mid
  {
    IndexFromAt(items, 0, mid, key);
    forall i | 0 <= i < mid
      ensures KeyCmp(items[i].key, key) <= 0
    {
      assert KeyLess(items[i].key, items[mid].key);
    }
    KeyCmpAntisymmetric(key, key);
    hide Lex;
  }

  lemma {:induction false} MissedSplits(items: seq<Item>, low: nat, key: seq<byte>)
    requires Sorted(items) && MayStartAt(items, low, key)
    requires forall i | low <= i < |items| :: KeyLess(key, items[i].key)
    ensures Splits(items, low, key)
    ensures IndexFrom(items, 0, key) == -1
  {
    KeyLessIrreflexive(key);
    hide KeyCmp;
    forall i | 0 <= i < |items|
      ensures items[i].key != key
    {
      if i < low { assert KeyLess(items[i].key, key); }
    }
    IndexFromNone(items, 0, key);
  }

  /** hstoreFindKey. Whatever admissible lower bound it starts from, the answer is
      that of a linear search of the whole hstore; `low` is the bound it leaves. */
  method FindKey(hs: HStore, lowbound: nat, key: seq<byte>) returns (idx: int, low: nat)
    requires Canonical(hs) && MayStartAt(Decode(hs), lowbound, key)
    ensures idx == IndexFrom(Decode(hs), 0, key)
    ensures Splits(Decode(hs), low, key)
    ensures idx >= 0 ==> lowbound <= idx && low == idx + 1
    ensures lowbound <= low
  {
    hide Decode, Sorted, Splits, IndexFrom, KeyCmp, Lex, MayStartAt;
    ghost var items := Decode(hs);
    var stopLow, stopHigh := lowbound, hs.count;
    BoundInside(items, lowbound, key);
    while stopLow < stopHigh
      invariant lowbound <= stopLow <= stopHigh <= hs.count
      invariant MayStartAt(items, stopLow, key)
      invariant forall i | stopHigh <= i < |items| :: KeyLess(key, items[i].key)
    {
      var stopMiddle := stopLow + (stopHigh - stopLow) / 2;
      assert items[stopMiddle] == ItemAt(hs, stopMiddle);
      var difference := KeyCmp(Key(hs, stopMiddle), key);
      KeyCmpAntisymmetric(Key(hs, stopMiddle), key);
      if difference == 0 {
        FoundSplits(items, stopMiddle, key);
        return stopMiddle, stopMiddle + 1;
      } else if difference < 0 {
        NarrowLow(items, stopMiddle, key);
        stopLow := stopMiddle + 1;
      } else {
        NarrowHigh(items, stopMiddle, key);
        stopHigh := stopMiddle;
      }
    }
    MissedSplits(items, stopLow, key);
    return -1, stopLow;
  }

  lemma {:induction false} BoundInside(items: seq<Item>, low: nat, key: seq<byte>)
    requires MayStartAt(items, low, key)
    ensures low <= |items|
  {
  }

  // ---------- key arrays ----------

  /** hstoreArrayToPairs: the non-null keys, sorted and without duplicates; an error
      if the array, nulls included, has more keys than pairs can be allocated. */
  method ArrayToPairs(keys: seq<Option<seq<byte>>>) returns (r: Result<seq<Pair>>)
    ensures r.Error? <==> |keys| > MAX_ALLOC_PAIRS
    ensures r.Ok? ==> StrictlyIncreasing(r.value) && forall k :: KeyKept(r.value, k) <==> Some(k) in keys
  {
    hide KeyLess;
    if |keys| > MAX_ALLOC_PAIRS {
      return Error;
    }
    var all: seq<Pair> := [];
    for i := 0 to |keys|
      invariant forall k :: KeyKept(all, k) <==> Some(k) in keys[..i]
    {
      assert keys[..i + 1] == keys[..i] + [keys[i]];
      if keys[i].Some? {
        KeptAppend(all, Pair(keys[i].value, [], true, false));
        all := all + [Pair(keys[i].value, [], true, false)];
      }
    }
    assert keys[..|keys|] == keys;
    var pairs, bufsiz := UniquePairs(all);
    SameKeys(all, pairs);
    r := Ok(pairs);
  }

  lemma {:induction false} KeptAppend(ps: seq<Pair>, p: Pair)
    ensures forall k :: KeyKept(ps + [p], k) <==> KeyKept(ps, k) || k == p.key
  {
    forall k
      ensures KeyKept(ps + [p], k) <==> KeyKept(ps, k) || k == p.key
    {
      assert (ps + [p])[|ps|] == p;
      if KeyKept(ps, k) {
        var j :| 0 <= j < |ps| && ps[j].key == k;
        assert (ps + [p])[j] == ps[j];
      }
    }
  }

  lemma {:induction false} SameKeys(all: seq<Pair>, kept: seq<Pair>)
    requires UniqueOf(all, kept)
    ensures forall k :: KeyKept(kept, k) <==> KeyKept(all, k)
  {
  }

  /** The step both existence loops share: search for key i, carry the bound to key i + 1. */
  lemma {:induction false} NextKey(items: seq<Item>, low: nat, pairs: seq<Pair>, i: nat)
    requires StrictlyIncreasing(pairs) && i < |pairs| && Splits(items, low, pairs[i].key)
    ensures i + 1 < |pairs| ==> MayStartAt(items, low, pairs[i + 1].key)
  {
    hide KeyLess;
    if i + 1 < |pairs| { CarryOver(items, low, pairs[i].key, pairs[i + 1].key); }
  }

  /** hstore_exists_any */
  method ExistsAny(hs: HStore, keys: seq<Option<seq<byte>>>) returns (r: Result<bool>)
    requires Canonical(hs)
    ensures r.Error? <==> |keys| > MAX_ALLOC_PAIRS
    ensures r.Ok? ==> (r.value <==> exists k :: Some(k) in keys && k in Abs(hs))
  {
    var listed := ArrayToPairs(keys);
    if listed.Error? {
      return Error;
    }
    var pairs := listed.value;
    hide Sorted, KeyLess, StrictlyIncreasing, Splits, MayStartAt, IndexFrom, Decode, ToMap;
    ghost var items := Decode(hs);
    var lowbound := 0;
    StartAtZero(items);
    for i := 0 to |pairs|
      invariant i < |pairs| ==> MayStartAt(items, lowbound, pairs[i].key)
      invariant forall j | 0 <= j < i :: pairs[j].key !in Abs(hs)
    {
      var idx;
      idx, lowbound := FindKey(hs, lowbound, pairs[i].key);
      IndexMeaning(items, pairs[i].key);
      if idx >= 0 {
        assert KeyKept(pairs, pairs[i].key);
        return Ok(true);
      }
      NextKey(items, lowbound, pairs, i);
    }
    forall k | Some(k) in keys
      ensures k !in Abs(hs)
    {
      assert KeyKept(pairs, k);
    }
    r := Ok(false);
  }

  /** hstore_exists_all */
  method ExistsAll(hs: HStore, keys: seq<Option<seq<byte>>>) returns (r: Result<bool>)
    requires Canonical(hs)
    ensures r.Error? <==> |keys| > MAX_ALLOC_PAIRS
    ensures r.Ok? ==> (r.value <==> forall k :: Some(k) in keys ==> k in Abs(hs))
  {
    var listed := ArrayToPairs(keys);
    if listed.Error? {
      return Error;
    }
    var pairs := listed.value;
    hide Sorted, KeyLess, StrictlyIncreasing, Splits, MayStartAt, IndexFrom, Decode, ToMap;
    ghost var items := Decode(hs);
    var lowbound := 0;
    StartAtZero(items);
    for i := 0 to |pairs|
      invariant i < |pairs| ==> MayStartAt(items, lowbound, pairs[i].key)
      invariant forall j | 0 <= j < i :: pairs[j].key in Abs(hs)
    {
      var idx;
      idx, lowbound := FindKey(hs, lowbound, pairs[i].key);
      IndexMeaning(items, pairs[i].key);
      if idx < 0 {
        assert KeyKept(pairs, pairs[i].key);
        return Ok(false);
      }
      NextKey(items, lowbound, pairs, i);
    }
    forall k | Some(k) in keys
      ensures k in Abs(hs)
    {
      assert KeyKept(pairs, k);
    }
    r := Ok(true);
  }

  lemma {:induction false} StartAtZero(items: seq<Item>)
    ensures forall k :: MayStartAt(items, 0, k)
  {
  }

  // ---------- values and containment ----------

  /** The test both contains and delete_hstore apply to two values. */
  predicate ValuesDiffer(h1: HStore, i: nat, h2: HStore, j: nat)
    requires Readable(h1) && Readable(h2) && i < h1.count && j < h2.count
  {
    var nullval := ValIsNull(h1, i);
    || nullval != ValIsNull(h2, j)
    || (!nullval && (|Val(h1, i)| != |Val(h2, j)| || Lex(Val(h1, i), Val(h2, j)) != 0))
  }

  lemma {:induction false} ValuesDifferMeaning(h1: HStore, i: nat, h2: HStore, j: nat)
    requires Readable(h1) && Readable(h2) && i < h1.count && j < h2.count
    ensures ValuesDiffer(h1, i, h2, j) <==> Decode(h1)[i].val != Decode(h2)[j].val
  {
    LexAntisymmetric(Val(h1, i), Val(h2, j));
    hide Readable, Text, Lex;
  }

  /** Every entry of `small` is an entry of `big`; a null value matches only a null. */
  predicate SubDictionary(small: Dictionary, big: Dictionary)
  {
    forall k | k in small :: k in big && big[k] == small[k]
  }

  lemma {:induction false} NotSub(ts: seq<Item>, i: nat, big: Dictionary)
    requires Sorted(ts) && i < |ts| && !(ts[i].key in big && big[ts[i].key] == ts[i].val)
    ensures !SubDictionary(ToMap(ts), big)
  {
    ToMapAt(ts, i);
    hide ToMap, Sorted;
  }

  lemma {:induction false} AllSub(ts: seq<Item>, big: Dictionary)
    requires Sorted(ts) && forall j | 0 <= j < |ts| :: ts[j].key in big && big[ts[j].key] == ts[j].val
    ensures SubDictionary(ToMap(ts), big)
  {
    hide ToMap, Sorted;
    forall k | k in ToMap(ts)
      ensures k in big && big[k] == ToMap(ts)[k]
    {
      ToMapKeys(ts, k);
      var j :| 0 <= j < |ts| && ts[j].key == k;
      ToMapAt(ts, j);
    }
  }

  /** hstore_contains */
  method Contains(val: HStore, tmpl: HStore) returns (res: bool)
    requires Canonical(val) && Canonical(tmpl)
    ensures res <==> SubDictionary(Abs(tmpl), Abs(val))
  {
    hide Sorted, KeyLess, Splits, MayStartAt, IndexFrom, Decode, ToMap, ValuesDiffer, Tight, Readable, SubDictionary,
      Canonical;
    CanonicalFacts(val);
    CanonicalFacts(tmpl);
    ghost var vs, ts := Decode(val), Decode(tmpl);
    var lastidx := 0;
    StartAtZero(vs);
    for i := 0 to tmpl.count
      invariant i < tmpl.count ==> MayStartAt(vs, lastidx, ts[i].key)
      invariant forall j | 0 <= j < i :: ts[j].key in Abs(val) && Abs(val)[ts[j].key] == ts[j].val
    {
      assert ts[i] == ItemAt(tmpl, i);
      var idx;
      idx, lastidx := FindKey(val, lastidx, Key(tmpl, i));
      IndexMeaning(vs, ts[i].key);
      if idx < 0 {
        NotSub(ts, i, Abs(val));
        return false;
      }
      ValuesDifferMeaning(tmpl, i, val, idx);
      if ValuesDiffer(tmpl, i, val, idx) {
        NotSub(ts, i, Abs(val));
        return false;
      }
      if i + 1 < tmpl.count { NextItem(vs, lastidx, ts, i); }
    }
    AllSub(ts, Abs(val));
    res := true;
  }

  lemma {:induction false} NextItem(items: seq<Item>, low: nat, ts: seq<Item>, i: nat)
    requires Sorted(ts) && i + 1 < |ts| && Splits(items, low, ts[i].key)
    ensures MayStartAt(items, low, ts[i + 1].key)
  {
    hide KeyLess;
    CarryOver(items, low, ts[i].key, ts[i + 1].key);
  }
}
