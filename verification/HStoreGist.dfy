/** The GiST signature index over hstores (hstore_gist.c): one bit per hashed key
    and value, united upwards. Whether a search can skip a matching hstore. */
module HStoreGist {
  import opened Bytes
  import opened HStoreLayout
  import opened HStoreSearch

  /** A byte as the set of its one-bits. */
  type BitByte = set<nat>

  const ALLBITS: BitByte := {0, 1, 2, 3, 4, 5, 6, 7}

  /** GISTTYPE: a signature, or the flag that every bit is set. */
  datatype GistKey = AllTrue | Sign(bits: seq<BitByte>)

  type Crc = seq<byte> -> nat

  /** HASHVAL */
  function HashVal(crc: Crc, siglen: nat, s: seq<byte>): (n: nat)
    requires siglen > 0
    ensures n < 8 * siglen
  {
    crc(s) % (8 * siglen)
  }

  predicate Shaped(k: GistKey, siglen: nat)
  {
    k.Sign? ==> |k.bits| == siglen && forall i | 0 <= i < siglen :: k.bits[i] <= ALLBITS
  }

  /** GETBIT, with ALLISTRUE standing for ones everywhere. */
  predicate HasBit(k: GistKey, n: nat)
  {
    k.AllTrue? || (n / 8 < |k.bits| && n % 8 in k.bits[n / 8])
  }

  function SetBit(bits: seq<BitByte>, n: nat): (r: seq<BitByte>)
    requires n / 8 < |bits|
    ensures |r| == |bits|
  {
    bits[n / 8 := bits[n / 8] + {n % 8}]
  }

  /** Every bit of `b` is a bit of `a`. */
  ghost predicate Includes(a: GistKey, b: GistKey, siglen: nat)
  {
    forall n: nat | n < 8 * siglen && HasBit(b, n) :: HasBit(a, n)
  }

  // ---------- leaf signatures ----------

  /** `k` carries the bits of every key and every non-null value of `items`. */
  predicate CoversItems(crc: Crc, siglen: nat, k: GistKey, items: seq<Item>)
    requires siglen > 0
  {
    forall i | 0 <= i < |items| ::
      && HasBit(k, HashVal(crc, siglen, items[i].key))
      && (items[i].val.Some? ==> HasBit(k, HashVal(crc, siglen, items[i].val.value)))
  }

  function AddItem(crc: Crc, siglen: nat, bits: seq<BitByte>, x: Item): (r: seq<BitByte>)
    requires siglen > 0 && |bits| == siglen
    ensures |r| == siglen
  {
    var withKey := SetBit(bits, HashVal(crc, siglen, x.key));
    if x.val.None? then withKey else SetBit(withKey, HashVal(crc, siglen, x.val.value))
  }

  function LeafBits(crc: Crc, siglen: nat, items: seq<Item>): (r: seq<BitByte>)
    requires siglen > 0
    ensures |r| == siglen
  {
    if items == [] then seq(siglen, _ => {})
    else AddItem(crc, siglen, LeafBits(crc, siglen, items[..|items| - 1]), items[|items| - 1])
  }

  /** Bit n is that of the key or of the value of `x`. */
  predicate Hashes(crc: Crc, siglen: nat, x: Item, n: nat)
    requires siglen > 0
  {
    HashVal(crc, siglen, x.key) == n || (x.val.Some? && HashVal(crc, siglen, x.val.value) == n)
  }

  lemma {:induction false} SetBitHas(bits: seq<BitByte>, n: nat, m: nat)
    requires n / 8 < |bits|
    ensures HasBit(Sign(SetBit(bits, n)), m) <==> HasBit(Sign(bits), m) || m == n
  {
    assert m == 8 * (m / 8) + m % 8 && n == 8 * (n / 8) + n % 8;
  }

  lemma {:induction false} AddItemHas(crc: Crc, siglen: nat, bits: seq<BitByte>, x: Item, n: nat)
    requires siglen > 0 && |bits| == siglen
    ensures HasBit(Sign(AddItem(crc, siglen, bits, x)), n) <==> HasBit(Sign(bits), n) || Hashes(crc, siglen, x, n)
  {
    hide HasBit, SetBit, HashVal;
    var h := HashVal(crc, siglen, x.key);
    SetBitHas(bits, h, n);
    if x.val.Some? { SetBitHas(SetBit(bits, h), HashVal(crc, siglen, x.val.value), n); }
  }

  /** A leaf signature has exactly the bits of the keys and non-null values. */
  lemma {:induction false} LeafExact(crc: Crc, siglen: nat, items: seq<Item>, n: nat)
    requires siglen > 0
    ensures HasBit(Sign(LeafBits(crc, siglen, items)), n) <==>
      exists i :: 0 <= i < |items| && Hashes(crc, siglen, items[i], n)
  {
    hide HasBit, AddItem, Hashes;
    if items == [] {
      BlankHas(siglen, n);
    } else {
      var m := |items| - 1;
      LeafExact(crc, siglen, items[..m], n);
      AddItemHas(crc, siglen, LeafBits(crc, siglen, items[..m]), items[m], n);
      assert forall i | 0 <= i < m :: items[..m][i] == items[i];
    }
  }

  lemma {:induction false} BlankHas(siglen: nat, n: nat)
    ensures !HasBit(Sign(seq(siglen, _ => {})), n)
  {
  }

  lemma {:induction false} LeafCovers(crc: Crc, siglen: nat, items: seq<Item>)
    requires siglen > 0
    ensures CoversItems(crc, siglen, Sign(LeafBits(crc, siglen, items)), items)
  {
    hide HasBit, LeafBits, HashVal;
    forall i | 0 <= i < |items|
      ensures HasBit(Sign(LeafBits(crc, siglen, items)), HashVal(crc, siglen, items[i].key))
      ensures items[i].val.Some? ==>
        HasBit(Sign(LeafBits(crc, siglen, items)), HashVal(crc, siglen, items[i].val.value))
    {
      LeafExact(crc, siglen, items, HashVal(crc, siglen, items[i].key));
      if items[i].val.Some? { LeafExact(crc, siglen, items, HashVal(crc, siglen, items[i].val.value)); }
    }
  }

  lemma {:induction false} LeafShaped(crc: Crc, siglen: nat, items: seq<Item>)
    requires siglen > 0
    ensures Shaped(Sign(LeafBits(crc, siglen, items)), siglen)
  {
    hide HashVal;
    if items != [] {
      LeafShaped(crc, siglen, items[..|items| - 1]);
      BitInByte(HashVal(crc, siglen, items[|items| - 1].key));
      if items[|items| - 1].val.Some? { BitInByte(HashVal(crc, siglen, items[|items| - 1].val.value)); }
    }
  }

  lemma {:induction false} BitInByte(n: nat)
    ensures n % 8 in ALLBITS
  {
  }

  /** ghstore_compress on a leaf: hash every key and non-null value into a zeroed signature. */
  method CompressLeaf(crc: Crc, siglen: nat, hs: HStore) returns (key: GistKey)
    requires siglen > 0 && Readable(hs)
    ensures key == Sign(LeafBits(crc, siglen, Decode(hs)))
  {
    hide Readable, Text, HashVal;
    ghost var items := Decode(hs);
    var sign := new BitByte[siglen](_ => {});
    assert items[..0] == [];
    assert sign[..] == LeafBits(crc, siglen, items[..0]);
    for i := 0 to hs.count
      invariant sign[..] == LeafBits(crc, siglen, items[..i])
    {
      assert items[..i + 1][..i] == items[..i];
      ghost var before := sign[..];
      var h := HashVal(crc, siglen, Key(hs, i));
      sign[h / 8] := sign[h / 8] + {h % 8};
      assert sign[..] == SetBit(before, h);
      if !ValIsNull(hs, i) {
        var g := HashVal(crc, siglen, Val(hs, i));
        sign[g / 8] := sign[g / 8] + {g % 8};
        assert sign[..] == SetBit(SetBit(before, h), g);
      }
    }
    assert items[..hs.count] == items;
    key := Sign(sign[..]);
  }

  /** ghstore_compress on an inner key: a signature of all ones becomes the flag. */
  method CompressInner(siglen: nat, k: GistKey) returns (r: GistKey)
    requires Shaped(k, siglen)
    ensures r == Compressed(k)
  {
    if k.Sign? {
      for i := 0 to siglen
        invariant forall j | 0 <= j < i :: k.bits[j] == ALLBITS
      {
        if k.bits[i] != ALLBITS {
          return k;
        }
      }
      return AllTrue;
    }
    return k;
  }

  function Compressed(k: GistKey): GistKey
  {
    if k.Sign? && forall i | 0 <= i < |k.bits| :: k.bits[i] == ALLBITS then AllTrue else k
  }

  /** Compressing an inner key changes none of its bits. */
  lemma {:induction false} CompressedSame(k: GistKey, siglen: nat, n: nat)
    requires Shaped(k, siglen) && n < 8 * siglen
    ensures HasBit(Compressed(k), n) <==> HasBit(k, n)
  {
  }

  // ---------- unions ----------

  function OrBits(a: seq<BitByte>, b: seq<BitByte>): (r: seq<BitByte>)
    requires |a| == |b|
    ensures |r| == |a| && forall i | 0 <= i < |a| :: r[i] == a[i] + b[i]
  {
    seq(|a|, i requires 0 <= i < |a| => a[i] + b[i])
  }

  predicate AllShaped(ks: seq<GistKey>, siglen: nat)
  {
    forall i | 0 <= i < |ks| :: Shaped(ks[i], siglen)
  }

  lemma {:induction false} AllShapedRest(ks: seq<GistKey>, siglen: nat)
    requires AllShaped(ks, siglen) && ks != []
    ensures Shaped(ks[0], siglen) && AllShaped(ks[1..], siglen)
  {
  }

  lemma {:induction false} OrShaped(a: GistKey, b: GistKey, siglen: nat)
    requires Shaped(a, siglen) && Shaped(b, siglen) && a.Sign? && b.Sign?
    ensures |a.bits| == |b.bits| && Shaped(Sign(OrBits(a.bits, b.bits)), siglen)
  {
  }

  /** unionkey: true when the added key is all ones, leaving the base alone. */
  method UnionKey(base: array<BitByte>, add: GistKey) returns (allTrue: bool)
    requires Shaped(add, base.Length)
    modifies base
    ensures allTrue == add.AllTrue?
    ensures base[..] == if allTrue then old(base[..]) else OrBits(old(base[..]), add.bits)
  {
    if add.AllTrue? {
      return true;
    }
    for i := 0 to base.Length
      invariant forall j | 0 <= j < i :: base[j] == old(base[j]) + add.bits[j]
      invariant forall j | i <= j < base.Length :: base[j] == old(base[j])
    {
      base[i] := base[i] + add.bits[i];
    }
    return false;
  }

  function UnionFrom(siglen: nat, acc: GistKey, ks: seq<GistKey>): (r: GistKey)
    requires Shaped(acc, siglen) && AllShaped(ks, siglen)
    ensures Shaped(r, siglen)
    decreases |ks|
  {
    if ks == [] || acc.AllTrue? then acc
    else if ks[0].AllTrue? then AllTrue
    else
      AllShapedRest(ks, siglen);
      OrShaped(acc, ks[0], siglen);
      UnionFrom(siglen, Sign(OrBits(acc.bits, ks[0].bits)), ks[1..])
  }

  function Zeros(siglen: nat): (k: GistKey)
    ensures Shaped(k, siglen)
  {
    Sign(seq(siglen, _ => {}))
  }

  /** ghstore_union */
  function UnionOf(siglen: nat, ks: seq<GistKey>): (r: GistKey)
    requires AllShaped(ks, siglen)
    ensures Shaped(r, siglen)
  {
    UnionFrom(siglen, Zeros(siglen), ks)
  }

  method Union(siglen: nat, ks: seq<GistKey>) returns (r: GistKey)
    requires AllShaped(ks, siglen)
    ensures r == UnionOf(siglen, ks)
  {
    hide Shaped, OrBits;
    var base := new BitByte[siglen](_ => {});
    assert Sign(base[..]) == Zeros(siglen);
    assert ks[0..] == ks;
    for i := 0 to |ks|
      invariant AllShaped(ks[i..], siglen) && Shaped(Sign(base[..]), siglen)
      invariant UnionFrom(siglen, Sign(base[..]), ks[i..]) == UnionOf(siglen, ks)
    {
      assert ks[i..][0] == ks[i] && ks[i..][1..] == ks[i + 1..];
      AllShapedRest(ks[i..], siglen);
      if ks[i].Sign? { OrShaped(Sign(base[..]), ks[i], siglen); }
      var all := UnionKey(base, ks[i]);
      if all {
        return AllTrue;
      }
    }
    r := Sign(base[..]);
  }

  lemma {:induction false} OrBitsHas(a: seq<BitByte>, b: seq<BitByte>, n: nat)
    requires |a| == |b|
    ensures HasBit(Sign(OrBits(a, b)), n) <==> HasBit(Sign(a), n) || HasBit(Sign(b), n)
  {
  }

  /** A bit is in the union exactly when it is in the accumulator or in some key. */
  lemma {:induction false} UnionFromHas(siglen: nat, acc: GistKey, ks: seq<GistKey>, n: nat)
    requires Shaped(acc, siglen) && AllShaped(ks, siglen)
    ensures HasBit(UnionFrom(siglen, acc, ks), n) <==> HasBit(acc, n) || exists i :: 0 <= i < |ks| && HasBit(ks[i], n)
    decreases |ks|
  {
    hide HasBit, OrBits, Shaped;
    if ks == [] {
    } else if acc.AllTrue? {
      AllTrueHas(n);
    } else if ks[0].AllTrue? {
      AllTrueHas(n);
      assert HasBit(ks[0], n);
    } else {
      AllShapedRest(ks, siglen);
      OrShaped(acc, ks[0], siglen);
      OrBitsHas(acc.bits, ks[0].bits, n);
      UnionFromHas(siglen, Sign(OrBits(acc.bits, ks[0].bits)), ks[1..], n);
      assert forall i | 0 < i < |ks| :: ks[i] == ks[1..][i - 1];
      assert forall i | 0 <= i < |ks[1..]| :: ks[1..][i] == ks[i + 1];
    }
  }

  lemma {:induction false} AllTrueHas(n: nat)
    ensures HasBit(AllTrue, n)
  {
  }

  lemma {:induction false} UnionIncludes(siglen: nat, ks: seq<GistKey>, i: nat)
    requires i < |ks| && AllShaped(ks, siglen)
    ensures Includes(UnionOf(siglen, ks), ks[i], siglen)
  {
    hide HasBit, UnionFrom, Shaped;
    forall n: nat | n < 8 * siglen && HasBit(ks[i], n)
      ensures HasBit(UnionOf(siglen, ks), n)
    {
      UnionFromHas(siglen, Zeros(siglen), ks, n);
    }
  }

  // ---------- search ----------

  /** The query of each strategy the index serves. */
  datatype Query =
    | Contains(items: seq<Item>)
    | Exists(key: seq<byte>)
    | ExistsAll(keys: seq<Option<seq<byte>>>)
    | ExistsAny(keys: seq<Option<seq<byte>>>)

  /** ghstore_consistent */
  predicate Consistent(crc: Crc, siglen: nat, k: GistKey, q: Query)
    requires siglen > 0
  {
    k.AllTrue? ||
    match q
    case Contains(items) => CoversItems(crc, siglen, k, items)
    case Exists(key) => HasBit(k, HashVal(crc, siglen, key))
    case ExistsAll(keys) =>
      forall i | 0 <= i < |keys| && keys[i].Some? :: HasBit(k, HashVal(crc, siglen, keys[i].value))
    case ExistsAny(keys) =>
      exists i :: 0 <= i < |keys| && keys[i].Some? && HasBit(k, HashVal(crc, siglen, keys[i].value))
  }

  /** What the operator itself says of an hstore with dictionary `m`. */
  ghost predicate Satisfies(m: Dictionary, q: Query)
  {
    match q
    case Contains(items) => SubDictionary(ToMap(items), m)
    case Exists(key) => key in m
    case ExistsAll(keys) => forall i | 0 <= i < |keys| && keys[i].Some? :: keys[i].value in m
    case ExistsAny(keys) => exists i :: 0 <= i < |keys| && keys[i].Some? && keys[i].value in m
  }

  lemma {:induction false} KeyBit(crc: Crc, siglen: nat, k: GistKey, items: seq<Item>, key: seq<byte>)
    requires siglen > 0 && CoversItems(crc, siglen, k, items) && key in ToMap(items)
    ensures HasBit(k, HashVal(crc, siglen, key))
  {
    hide HasBit, HashVal, ToMap;
    ToMapKeys(items, key);
  }

  lemma {:induction false} ValueBit(crc: Crc, siglen: nat, k: GistKey, items: seq<Item>, key: seq<byte>)
    requires siglen > 0 && CoversItems(crc, siglen, k, items) && key in ToMap(items) && ToMap(items)[key].Some?
    ensures HasBit(k, HashVal(crc, siglen, ToMap(items)[key].value))
  {
    hide HasBit, HashVal;
    var n := |items| - 1;
    if key != items[n].key {
      assert CoversItems(crc, siglen, k, items[..n]) by {
        forall i | 0 <= i < n
          ensures items[..n][i] == items[i]
        {
        }
      }
      ValueBit(crc, siglen, k, items[..n], key);
    }
  }

  /** A key that covers a matching hstore is consistent with the query. */
  lemma {:induction false} CoversConsistent(crc: Crc, siglen: nat, k: GistKey, items: seq<Item>, q: Query)
    requires siglen > 0 && CoversItems(crc, siglen, k, items) && Satisfies(ToMap(items), q)
    requires q.Contains? ==> Sorted(q.items)
    ensures Consistent(crc, siglen, k, q)
  {
    hide HasBit, HashVal, ToMap, Sorted;
    match q
    case Contains(qs) =>
      forall i | 0 <= i < |qs|
        ensures HasBit(k, HashVal(crc, siglen, qs[i].key))
        ensures qs[i].val.Some? ==> HasBit(k, HashVal(crc, siglen, qs[i].val.value))
      {
        ToMapAt(qs, i);
        KeyBit(crc, siglen, k, items, qs[i].key);
        if qs[i].val.Some? { ValueBit(crc, siglen, k, items, qs[i].key); }
      }
    case Exists(key) => KeyBit(crc, siglen, k, items, key);
    case ExistsAll(keys) =>
      forall i | 0 <= i < |keys| && keys[i].Some?
        ensures HasBit(k, HashVal(crc, siglen, keys[i].value))
      {
        KeyBit(crc, siglen, k, items, keys[i].value);
      }
    case ExistsAny(keys) =>
      var i :| 0 <= i < |keys| && keys[i].Some? && keys[i].value in ToMap(items);
      KeyBit(crc, siglen, k, items, keys[i].value);
  }

  /** The keys that are not null, each with a null value. */
  function NullItems(keys: seq<Option<seq<byte>>>): (items: seq<Item>)
  {
    if keys == [] then []
    else
      var init, k := NullItems(keys[..|keys| - 1]), keys[|keys| - 1];
      if k.Some? then init + [Item(k.value, None)] else init
  }

  lemma {:induction false} NullItemsAre(keys: seq<Option<seq<byte>>>)
    ensures forall i | 0 <= i < |NullItems(keys)| ::
              NullItems(keys)[i].val.None? && Some(NullItems(keys)[i].key) in keys
    ensures forall i | 0 <= i < |keys| && keys[i].Some? :: HasKey(NullItems(keys), keys[i].value)
  {
    if keys != [] {
      var n := |keys| - 1;
      var init, all := NullItems(keys[..n]), NullItems(keys);
      NullItemsAre(keys[..n]);
      forall i | 0 <= i < |keys| && keys[i].Some?
        ensures HasKey(all, keys[i].value)
      {
        if i < n {
          assert keys[..n][i] == keys[i];
          var j :| 0 <= j < |init| && init[j].key == keys[i].value;
          assert all[j] == init[j];
        } else {
          assert all[|init|].key == keys[n].value;
        }
      }
    }
  }

  /** A key lets a search through exactly when it is all true or covers some hstore
      that satisfies the query. */
  lemma {:induction false} ConsistentExact(crc: Crc, siglen: nat, k: GistKey, q: Query)
    requires siglen > 0 && (q.Contains? ==> Sorted(q.items))
    ensures Consistent(crc, siglen, k, q) <==>
      k.AllTrue? || exists items :: CoversItems(crc, siglen, k, items) && Satisfies(ToMap(items), q)
  {
    hide HasBit, HashVal, ToMap, Sorted, Consistent, Satisfies, CoversItems;
    if items :| CoversItems(crc, siglen, k, items) && Satisfies(ToMap(items), q) {
      CoversConsistent(crc, siglen, k, items, q);
    }
    if Consistent(crc, siglen, k, q) && !k.AllTrue? {
      var items := WitnessFor(crc, siglen, k, q);
    }
    if k.AllTrue? { AllTrueConsistent(crc, siglen, q); }
  }

  lemma {:induction false} AllTrueConsistent(crc: Crc, siglen: nat, q: Query)
    requires siglen > 0
    ensures Consistent(crc, siglen, AllTrue, q)
  {
  }

  lemma {:induction false} WitnessFor(crc: Crc, siglen: nat, k: GistKey, q: Query) returns (items: seq<Item>)
    requires siglen > 0 && Consistent(crc, siglen, k, q) && !k.AllTrue?
    ensures CoversItems(crc, siglen, k, items) && Satisfies(ToMap(items), q)
  {
    hide HasBit, HashVal, ToMap;
    match q
    case Contains(qs) => items := qs;
    case Exists(key) =>
      items := [Item(key, None)];
      assert items[0].key == key;
      ToMapKeys(items, key);
    case ExistsAll(keys) =>
      items := NullItems(keys);
      NullItemsAre(keys);
      forall i | 0 <= i < |keys| && keys[i].Some?
        ensures keys[i].value in ToMap(items)
      {
        ToMapKeys(items, keys[i].value);
      }
    case ExistsAny(keys) =>
      var i :| 0 <= i < |keys| && keys[i].Some? && HasBit(k, HashVal(crc, siglen, keys[i].value));
      items := [Item(keys[i].value, None)];
      assert items[0].key == keys[i].value;
      ToMapKeys(items, keys[i].value);
  }

  /** The bit a string hashes to is its checksum, up to a multiple of the signature length. */
  lemma {:induction false} HashCongruent(crc: Crc, siglen: nat, s: seq<byte>) returns (q: int)
    requires siglen > 0
    ensures crc(s) == q * (8 * siglen) + HashVal(crc, siglen, s)
  {
    q := crc(s) / (8 * siglen);
  }

  /** ghstore_consistent, loop by loop. */
  method GhstoreConsistent(crc: Crc, siglen: nat, k: GistKey, q: Query) returns (res: bool)
    requires siglen > 0
    ensures res <==> Consistent(crc, siglen, k, q)
  {
    hide HasBit, HashVal;
    if k.AllTrue? {
      return true;
    }
    match q {
      case Contains(items) =>
        for i := 0 to |items|
          invariant CoversItems(crc, siglen, k, items[..i])
        {
          if !HasBit(k, HashVal(crc, siglen, items[i].key)) {
            return false;
          }
          if items[i].val.Some? && !HasBit(k, HashVal(crc, siglen, items[i].val.value)) {
            return false;
          }
        }
        assert items[..|items|] == items;
        return true;
      case Exists(key) =>
        return HasBit(k, HashVal(crc, siglen, key));
      case ExistsAll(keys) =>
        for i := 0 to |keys|
          invariant forall j | 0 <= j < i && keys[j].Some? :: HasBit(k, HashVal(crc, siglen, keys[j].value))
        {
          if keys[i].Some? && !HasBit(k, HashVal(crc, siglen, keys[i].value)) {
            return false;
          }
        }
        return true;
      case ExistsAny(keys) =>
        for i := 0 to |keys|
          invariant forall j | 0 <= j < i && keys[j].Some? :: !HasBit(k, HashVal(crc, siglen, keys[j].value))
        {
          if keys[i].Some? && HasBit(k, HashVal(crc, siglen, keys[i].value)) {
            return true;
          }
        }
        return false;
    }
  }

  lemma {:induction false} IncludesCovers(crc: Crc, siglen: nat, a: GistKey, b: GistKey, items: seq<Item>)
    requires siglen > 0 && Includes(a, b, siglen) && CoversItems(crc, siglen, b, items)
    ensures CoversItems(crc, siglen, a, items)
  {
  }

  // ---------- whole trees ----------

  /** How a key in the index came about: a compressed leaf, the union of keys, or
      one side of a page split, whose key is only known to include its members. */
  datatype Tree = Leaf(items: seq<Item>) | ByUnion(parts: seq<Tree>) | BySplit(key: GistKey, parts: seq<Tree>)

  ghost predicate Built(crc: Crc, siglen: nat, t: Tree)
    requires siglen > 0
    decreases t, 0
  {
    match t
    case Leaf(_) => true
    case ByUnion(parts) => forall i | 0 <= i < |parts| :: Built(crc, siglen, parts[i])
    case BySplit(key, parts) =>
      && Shaped(key, siglen)
      && forall i | 0 <= i < |parts| ::
           Built(crc, siglen, parts[i]) && Includes(key, KeyOf(crc, siglen, parts[i]), siglen)
  }

  ghost function KeyOf(crc: Crc, siglen: nat, t: Tree): (k: GistKey)
    requires siglen > 0 && Built(crc, siglen, t)
    ensures Shaped(k, siglen)
    decreases t, 2
  {
    match t
    case Leaf(items) => LeafShaped(crc, siglen, items); Sign(LeafBits(crc, siglen, items))
    case ByUnion(parts) => Compressed(UnionOf(siglen, KeysOf(crc, siglen, parts)))
    case BySplit(key, parts) => Compressed(key)
  }

  ghost function KeysOf(crc: Crc, siglen: nat, ts: seq<Tree>): (ks: seq<GistKey>)
    requires siglen > 0 && forall i | 0 <= i < |ts| :: Built(crc, siglen, ts[i])
    ensures |ks| == |ts| && AllShaped(ks, siglen)
    ensures forall i | 0 <= i < |ts| :: ks[i] == KeyOf(crc, siglen, ts[i])
    decreases ts, 1
  {
    if ts == [] then [] else KeysOf(crc, siglen, ts[..|ts| - 1]) + [KeyOf(crc, siglen, ts[|ts| - 1])]
  }

  predicate HasLeaf(t: Tree, items: seq<Item>)
  {
    match t
    case Leaf(xs) => xs == items
    case ByUnion(parts) => exists i :: 0 <= i < |parts| && HasLeaf(parts[i], items)
    case BySplit(_, parts) => exists i :: 0 <= i < |parts| && HasLeaf(parts[i], items)
  }

  lemma {:induction false} CompressedIncludes(k: GistKey, b: GistKey, siglen: nat)
    requires Shaped(k, siglen) && Includes(k, b, siglen)
    ensures Includes(Compressed(k), b, siglen)
  {
  }

  lemma {:induction false} TreeCovers(crc: Crc, siglen: nat, t: Tree, items: seq<Item>)
    requires siglen > 0 && Built(crc, siglen, t) && HasLeaf(t, items)
    ensures CoversItems(crc, siglen, KeyOf(crc, siglen, t), items)
  {
    hide CoversItems, Includes, Compressed, UnionOf, Shaped, LeafBits;
    match t
    case Leaf(_) => LeafCovers(crc, siglen, items);
    case ByUnion(parts) =>
      var i :| 0 <= i < |parts| && HasLeaf(parts[i], items);
      var ks := KeysOf(crc, siglen, parts);
      TreeCovers(crc, siglen, parts[i], items);
      UnionIncludes(siglen, ks, i);
      CompressedIncludes(UnionOf(siglen, ks), ks[i], siglen);
      IncludesCovers(crc, siglen, KeyOf(crc, siglen, t), ks[i], items);
    case BySplit(key, parts) =>
      var i :| 0 <= i < |parts| && HasLeaf(parts[i], items);
      TreeCovers(crc, siglen, parts[i], items);
      CompressedIncludes(key, KeyOf(crc, siglen, parts[i]), siglen);
      IncludesCovers(crc, siglen, KeyOf(crc, siglen, t), KeyOf(crc, siglen, parts[i]), items);
  }

  /** Search never misses: every key above a matching hstore is consistent. */
  lemma {:induction false} SearchComplete(crc: Crc, siglen: nat, t: Tree, hs: HStore, q: Query)
    requires siglen > 0 && Canonical(hs) && Built(crc, siglen, t) && HasLeaf(t, Decode(hs))
    requires Satisfies(Abs(hs), q) && (q.Contains? ==> Sorted(q.items))
    ensures Consistent(crc, siglen, KeyOf(crc, siglen, t), q)
  {
    hide CoversItems, Built, KeyOf, Satisfies, Consistent, Canonical, Sorted;
    CanonicalFacts(hs);
    TreeCovers(crc, siglen, t, Decode(hs));
    CoversConsistent(crc, siglen, KeyOf(crc, siglen, t), Decode(hs), q);
  }
}
