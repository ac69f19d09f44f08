/** The hstore value of hstore.h: two entries per pair (an end position with flag
    bits) and one string area.

    `Decode` reads a value through the accessor macros, `Encode` lays pairs out,
    and the two are inverse on canonical values: a canonical value is exactly the
    encoding of a key-sorted list of pairs, and stands for one dictionary. */
module HStoreLayout {
  import opened Bytes

  const MAX_ALLOC_SIZE := 0x3fff_ffff
  const HDRSIZE := 8

  /** One 32-bit entry: ISFIRST, ISNULL and a 30-bit end position. */
  datatype HEntry = HEntry(first: bool, isNull: bool, pos: nat)

  /** `vlLen` is the varlena size; `newVersion` and `count` are the two parts of
      the size_ word; `entries` and `chars` are the two areas behind the header. */
  datatype HStore = HStore(vlLen: nat, newVersion: bool, count: nat, entries: seq<HEntry>, chars: seq<byte>)

  /** One pair; a null value is `None`. */
  datatype Item = Item(key: seq<byte>, val: Option<seq<byte>>)

  type Dictionary = map<seq<byte>, Option<seq<byte>>>

  /** CALCDATASIZE */
  function CalcDataSize(count: nat, lenstr: nat): nat { count * 8 + HDRSIZE + lenstr }

  // ---------- accessors ----------

  /** The structure the accessor macros rely on. */
  predicate Readable(hs: HStore)
  {
    && |hs.entries| == 2 * hs.count
    && (forall k | 0 <= k < |hs.entries| :: hs.entries[k].first <==> k == 0)
    && (forall j, k | 0 <= j <= k < |hs.entries| :: hs.entries[j].pos <= hs.entries[k].pos)
    && (forall k | 0 <= k < |hs.entries| :: hs.entries[k].pos <= |hs.chars|)
  }

  function Off(es: seq<HEntry>, k: nat): nat
    requires k < |es|
  {
    if es[k].first || k == 0 then 0 else es[k - 1].pos
  }

  /** String number k of the string area: key k / 2 when k is even, value k / 2 when odd. */
  function Text(hs: HStore, k: nat): (s: seq<byte>)
    requires Readable(hs) && k < |hs.entries|
  {
    hs.chars[Off(hs.entries, k)..hs.entries[k].pos]
  }

  function Key(hs: HStore, i: nat): seq<byte>
    requires Readable(hs) && i < hs.count
  {
    Text(hs, 2 * i)
  }

  predicate ValIsNull(hs: HStore, i: nat)
    requires Readable(hs) && i < hs.count
  {
    hs.entries[2 * i + 1].isNull
  }

  function Val(hs: HStore, i: nat): seq<byte>
    requires Readable(hs) && i < hs.count
  {
    Text(hs, 2 * i + 1)
  }

  function ItemAt(hs: HStore, i: nat): Item
    requires Readable(hs) && i < hs.count
  {
    Item(Key(hs, i), if ValIsNull(hs, i) then None else Some(Val(hs, i)))
  }

  function Decode(hs: HStore): (items: seq<Item>)
    requires Readable(hs)
    ensures |items| == hs.count
    ensures forall i | 0 <= i < hs.count :: items[i] == ItemAt(hs, i)
  {
    seq(hs.count, i requires 0 <= i < hs.count => ItemAt(hs, i))
  }

  // ---------- canonical values ----------

  predicate Sorted(items: seq<Item>)
  {
    forall i, j | 0 <= i < j < |items| :: KeyLess(items[i].key, items[j].key)
  }

  /** What every routine that builds an hstore must establish: strictly
      increasing keys, contiguous strings, ISFIRST on entry 0 only, no stray
      flags, no bytes behind a null value, and an exact varlena size. */
  predicate Canonical(hs: HStore)
  {
    && Tight(hs)
    && hs.newVersion
    && hs.vlLen == CalcDataSize(hs.count, |hs.chars|) <= MAX_ALLOC_SIZE
    && Sorted(Decode(hs))
  }

  /** No byte of the string area is unaccounted for and no flag is stray. */
  predicate Tight(hs: HStore)
  {
    && Readable(hs)
    && |hs.chars| == (if hs.count == 0 then 0 else hs.entries[2 * hs.count - 1].pos)
    && (forall i | 0 <= i < hs.count :: !hs.entries[2 * i].isNull)
    && (forall i | 0 <= i < hs.count :: ValIsNull(hs, i) ==> Val(hs, i) == [])
  }

  // ---------- encoding ----------

  function ItemChars(x: Item): seq<byte>
  {
    x.key + (if x.val.None? then [] else x.val.value)
  }

  function Chars(items: seq<Item>): seq<byte>
  {
    if items == [] then [] else Chars(items[..|items| - 1]) + ItemChars(items[|items| - 1])
  }

  /** The entries of `items` before HS_FINALIZE sets ISFIRST on the first. */
  function PlainEntries(items: seq<Item>): (es: seq<HEntry>)
    ensures |es| == 2 * |items|
  {
    if items == [] then []
    else
      var init, x := items[..|items| - 1], items[|items| - 1];
      PlainEntries(init) + [HEntry(false, false, |Chars(init)| + |x.key|), HEntry(false, x.val.None?, |Chars(items)|)]
  }

  function WithFirst(es: seq<HEntry>): seq<HEntry>
  {
    if es == [] then [] else es[0 := es[0].(first := true)]
  }

  function Encode(items: seq<Item>): HStore
  {
    HStore(CalcDataSize(|items|, |Chars(items)|), true, |items|, WithFirst(PlainEntries(items)), Chars(items))
  }

  predicate Fits(items: seq<Item>)
  {
    CalcDataSize(|items|, |Chars(items)|) <= MAX_ALLOC_SIZE
  }

  lemma {:induction false} EncodeEmpty()
    ensures Encode([]) == HStore(HDRSIZE, true, 0, [], [])
  {
  }

  lemma {:induction false} CharsNone(items: seq<Item>)
    ensures Chars(items[..0]) == []
  {
  }

  lemma {:induction false} CharsStep(items: seq<Item>, i: nat)
    requires i < |items|
    ensures Chars(items[..i + 1]) == Chars(items[..i]) + ItemChars(items[i])
  {
    assert items[..i + 1][..i] == items[..i];
  }

  lemma {:induction false} CharsPrefix(items: seq<Item>, i: nat)
    requires i <= |items|
    ensures Chars(items[..i]) <= Chars(items)
    decreases |items| - i
  {
    if i == |items| {
      assert items[..i] == items;
    } else {
      CharsStep(items, i);
      CharsPrefix(items, i + 1);
    }
  }

  /** Cutting one pair out of a string area in which it follows `before`. */
  lemma {:induction false} CutItem(area: seq<byte>, before: seq<byte>, x: Item)
    requires before + ItemChars(x) <= area
    ensures area[|before|..|before| + |x.key|] == x.key
    ensures area[|before| + |x.key|..|before| + |ItemChars(x)|] == (if x.val.None? then [] else x.val.value)
  {
  }

  lemma {:induction false} Join(s: seq<byte>, a: nat, b: nat, c: nat)
    requires a <= b <= c <= |s|
    ensures s[a..b] + s[b..c] == s[a..c]
  {
  }

  lemma {:induction false} PlainEntryAt(items: seq<Item>, i: nat)
    requires i < |items|
    ensures PlainEntries(items)[2 * i] == HEntry(false, false, |Chars(items[..i])| + |items[i].key|)
    ensures PlainEntries(items)[2 * i + 1] == HEntry(false, items[i].val.None?, |Chars(items[..i + 1])|)
  {
    hide Chars;
    var n := |items| - 1;
    if i < n {
      PlainEntryAt(items[..n], i);
      assert items[..n][..i] == items[..i];
      assert items[..n][..i + 1] == items[..i + 1];
    } else {
      assert items[..i + 1] == items;
    }
  }

  lemma {:induction false} PlainMonotone(items: seq<Item>)
    ensures forall k | 0 <= k < 2 * |items| :: !PlainEntries(items)[k].first
    ensures forall k | 0 <= k < 2 * |items| :: PlainEntries(items)[k].pos <= |Chars(items)|
    ensures forall j, k | 0 <= j <= k < 2 * |items| :: PlainEntries(items)[j].pos <= PlainEntries(items)[k].pos
  {
    if items != [] {
      PlainMonotone(items[..|items| - 1]);
    }
  }

  lemma {:induction false} EncodeReadable(items: seq<Item>)
    ensures Readable(Encode(items))
  {
    PlainMonotone(items);
  }

  /** The accessors find pair `x` where its entries and strings say it is. */
  lemma {:induction false} ReadItem(hs: HStore, i: nat, before: seq<byte>, x: Item)
    requires Readable(hs) && i < hs.count
    requires Off(hs.entries, 2 * i) == |before| && hs.entries[2 * i].pos == |before| + |x.key|
    requires hs.entries[2 * i + 1] == HEntry(false, x.val.None?, |before| + |ItemChars(x)|)
    requires before + ItemChars(x) <= hs.chars
    ensures ItemAt(hs, i) == x
    ensures x.val.None? ==> Val(hs, i) == []
  {
    CutItem(hs.chars, before, x);
    hide Readable;
  }

  lemma {:induction false} EncodedEntry(items: seq<Item>, i: nat)
    requires i < |items|
    ensures var es := WithFirst(PlainEntries(items));
            && Off(es, 2 * i) == |Chars(items[..i])|
            && es[2 * i].pos == |Chars(items[..i])| + |items[i].key| && !es[2 * i].isNull
            && es[2 * i + 1] == HEntry(false, items[i].val.None?, |Chars(items[..i])| + |ItemChars(items[i])|)
  {
    hide Chars, PlainEntries, ItemChars;
    CharsNone(items);
    CharsStep(items, i);
    PlainEntryAt(items, i);
    if i > 0 { PlainEntryAt(items, i - 1); }
  }

  lemma {:induction false} EncodedItem(items: seq<Item>, i: nat)
    requires i < |items| && Readable(Encode(items))
    ensures ItemAt(Encode(items), i) == items[i]
    ensures items[i].val.None? ==> Val(Encode(items), i) == []
    ensures !Encode(items).entries[2 * i].isNull
  {
    hide Chars, PlainEntries, ItemChars, WithFirst;
    EncodedEntry(items, i);
    CharsStep(items, i);
    CharsPrefix(items, i + 1);
    ReadItem(Encode(items), i, Chars(items[..i]), items[i]);
  }

  /** The layout of any list of pairs reads back as that list. */
  lemma {:induction false} EncodeDecodes(items: seq<Item>)
    ensures Tight(Encode(items))
    ensures Decode(Encode(items)) == items
  {
    var hs := Encode(items);
    EncodeReadable(items);
    forall i | 0 <= i < |items|
      ensures ItemAt(hs, i) == items[i] && !hs.entries[2 * i].isNull
      ensures ValIsNull(hs, i) ==> Val(hs, i) == []
    {
      EncodedItem(items, i);
    }
    assert Decode(hs) == items;
  }

  /** Laying out a key-sorted list gives a canonical value that reads back as that list. */
  lemma {:induction false} EncodeCanonical(items: seq<Item>)
    requires Fits(items) && Sorted(items)
    ensures Canonical(Encode(items))
    ensures Decode(Encode(items)) == items
  {
    hide Sorted, Tight, Decode;
    EncodeDecodes(items);
  }

  /** Pair i occupies the string area between two end positions. */
  lemma {:induction false} ItemCharsAt(hs: HStore, i: nat)
    requires Tight(hs) && i < hs.count
    ensures ItemChars(ItemAt(hs, i)) == hs.chars[Off(hs.entries, 2 * i)..hs.entries[2 * i + 1].pos]
    ensures |Key(hs, i)| == hs.entries[2 * i].pos - Off(hs.entries, 2 * i)
  {
  }

  /** Where pair i starts in the string area. */
  ghost function Start(hs: HStore, i: nat): (n: nat)
    requires Readable(hs) && i <= hs.count
    ensures n <= |hs.chars|
  {
    if i == 0 then 0 else hs.entries[2 * i - 1].pos
  }

  /** The first i pairs fill the string area up to pair i. */
  lemma {:induction false} DecodedChars(hs: HStore, items: seq<Item>, i: nat)
    requires Tight(hs) && i <= hs.count && items == Decode(hs)
    ensures Chars(items[..i]) == hs.chars[..Start(hs, i)]
  {
    hide Tight, Readable, Decode, Chars, ItemChars, Start;
    TightReadable(hs);
    if i == 0 {
      CharsEmpty();
      assert items[..0] == [];
      assert hs.chars[..Start(hs, 0)] == [] by { StartZero(hs); }
    } else {
      DecodedChars(hs, items, i - 1);
      CharsStep(items, i - 1);
      PairSpan(hs, i - 1);
      Join(hs.chars, 0, Start(hs, i - 1), Start(hs, i));
    }
  }

  lemma {:induction false} StartZero(hs: HStore)
    requires Readable(hs)
    ensures Start(hs, 0) == 0
  {
  }

  lemma {:induction false} CharsEmpty()
    ensures Chars([]) == []
  {
  }

  lemma {:induction false} TightReadable(hs: HStore)
    requires Tight(hs)
    ensures Readable(hs)
  {
  }

  lemma {:induction false} PairSpan(hs: HStore, i: nat)
    requires Tight(hs) && i < hs.count
    ensures Start(hs, i) == Off(hs.entries, 2 * i) <= Start(hs, i + 1)
    ensures ItemChars(Decode(hs)[i]) == hs.chars[Start(hs, i)..Start(hs, i + 1)]
  {
    ItemCharsAt(hs, i);
  }

  lemma {:induction false} DecodedEntry(hs: HStore, items: seq<Item>, i: nat)
    requires Tight(hs) && i < hs.count && items == Decode(hs)
    ensures PlainEntries(items)[2 * i] == hs.entries[2 * i].(first := false)
    ensures PlainEntries(items)[2 * i + 1] == hs.entries[2 * i + 1].(first := false)
  {
    hide Chars, PlainEntries;
    PairSpan(hs, i);
    assert |Chars(items[..i])| == Off(hs.entries, 2 * i) by { DecodedChars(hs, items, i); }
    assert |Chars(items[..i + 1])| == hs.entries[2 * i + 1].pos by { DecodedChars(hs, items, i + 1); }
    assert |items[i].key| == hs.entries[2 * i].pos - Off(hs.entries, 2 * i) by { ItemCharsAt(hs, i); }
    PlainEntryAt(items, i);
  }

  lemma {:induction false} DecodedEntries(hs: HStore)
    requires Tight(hs)
    ensures WithFirst(PlainEntries(Decode(hs))) == hs.entries
  {
    hide Chars, PlainEntries, Decode;
    var items := Decode(hs);
    var es := PlainEntries(items);
    forall k | 0 <= k < 2 * hs.count
      ensures es[k] == hs.entries[k].(first := false)
    {
      DecodedEntry(hs, items, k / 2);
      assert k == 2 * (k / 2) || k == 2 * (k / 2) + 1;
    }
  }

  /** Every canonical value is the encoding of the list it reads as. */
  lemma {:induction false} DecodeEncode(hs: HStore)
    requires Canonical(hs)
    ensures Fits(Decode(hs)) && Sorted(Decode(hs))
    ensures Encode(Decode(hs)) == hs
  {
    DecodedChars(hs, Decode(hs), hs.count);
    DecodedEntries(hs);
    assert Decode(hs)[..hs.count] == Decode(hs);
  }

  /** The facts about a canonical value that proofs elsewhere rely on. */
  lemma {:induction false} CanonicalFacts(hs: HStore)
    requires Canonical(hs)
    ensures Tight(hs) && Readable(hs) && Sorted(Decode(hs)) && Fits(Decode(hs))
    ensures hs.vlLen == CalcDataSize(hs.count, |Chars(Decode(hs))|) <= MAX_ALLOC_SIZE
    ensures Encode(Decode(hs)) == hs
  {
    DecodeEncode(hs);
    hide Sorted;
  }

  // ---------- the dictionary a value stands for ----------

  function ToMap(items: seq<Item>): Dictionary
  {
    if items == [] then map[]
    else ToMap(items[..|items| - 1])[items[|items| - 1].key := items[|items| - 1].val]
  }

  function Abs(hs: HStore): Dictionary
    requires Readable(hs)
  {
    ToMap(Decode(hs))
  }

  predicate HasKey(items: seq<Item>, k: seq<byte>)
  {
    exists i :: 0 <= i < |items| && items[i].key == k
  }

  lemma {:induction false} ToMapStep(items: seq<Item>, i: nat)
    requires i < |items|
    ensures ToMap(items[..i + 1]) == ToMap(items[..i])[items[i].key := items[i].val]
  {
    assert items[..i + 1][..i] == items[..i];
  }

  lemma {:induction false} ToMapKeys(items: seq<Item>, k: seq<byte>)
    ensures k in ToMap(items) <==> HasKey(items, k)
  {
    if items != [] {
      var n := |items| - 1;
      ToMapKeys(items[..n], k);
      if HasKey(items[..n], k) {
        var i :| 0 <= i < n && items[..n][i].key == k;
        assert items[i].key == k;
      } else {
        assert forall i | 0 <= i < n :: items[i] == items[..n][i];
      }
    }
  }

  lemma {:induction false} ToMapAt(items: seq<Item>, i: nat)
    requires Sorted(items) && i < |items|
    ensures items[i].key in ToMap(items) && ToMap(items)[items[i].key] == items[i].val
  {
    var n := |items| - 1;
    if i < n {
      ToMapAt(items[..n], i);
      KeyCmpAntisymmetric(items[i].key, items[n].key);
    }
  }

  lemma {:induction false} LastKeyIn(a: seq<Item>, b: seq<Item>) returns (i: nat)
    requires ToMap(a) == ToMap(b) && a != []
    ensures i < |b| && b[i].key == a[|a| - 1].key
  {
    ToMapKeys(b, a[|a| - 1].key);
    i :| i < |b| && b[i].key == a[|a| - 1].key;
  }

  lemma {:induction false} SortedPrefix(a: seq<Item>, m: nat)
    requires Sorted(a) && m <= |a|
    ensures Sorted(a[..m])
  {
  }

  lemma {:induction false} KeyNotBefore(a: seq<Item>, m: nat)
    requires Sorted(a) && m < |a|
    ensures a[m].key !in ToMap(a[..m])
  {
    hide KeyLess;
    var k := a[m].key;
    ToMapKeys(a[..m], k);
    KeyLessIrreflexive(k);
    forall i | 0 <= i < m
      ensures a[..m][i].key != k
    {
      assert KeyLess(a[i].key, k);
    }
  }

  lemma {:induction false} DropLast(a: seq<Item>)
    requires Sorted(a) && a != []
    ensures Sorted(a[..|a| - 1])
    ensures ToMap(a[..|a| - 1]) == ToMap(a) - {a[|a| - 1].key}
  {
    SortedPrefix(a, |a| - 1);
    KeyNotBefore(a, |a| - 1);
    hide Sorted;
  }

  /** A sorted list is determined by the dictionary it stands for. */
  lemma {:induction false} ToMapInjective(a: seq<Item>, b: seq<Item>)
    requires Sorted(a) && Sorted(b) && ToMap(a) == ToMap(b)
    ensures a == b
  {
    if a == [] && b != [] {
      var j := LastKeyIn(b, a);
    } else if a != [] {
      var i := LastKeyIn(a, b);
      var j := LastKeyIn(b, a);
      var m, n := |a| - 1, |b| - 1;
      assert KeyLess(a[m].key, b[n].key) || KeyLess(b[n].key, a[m].key) ==> a[m].key != b[n].key by {
        KeyLessIrreflexive(a[m].key);
      }
      KeyLessAsymmetric(a[m].key, b[n].key);
      hide KeyLess, ToMap;
      ToMapAt(a, m);
      ToMapAt(b, n);
      assert a[m] == b[n];
      DropLast(a);
      DropLast(b);
      ToMapInjective(a[..m], b[..n]);
      assert a == a[..m] + [a[m]] && b == b[..n] + [b[n]];
    }
  }

  /** Canonical values are equal exactly when they stand for the same dictionary. */
  lemma {:induction false} AbsDetermines(h1: HStore, h2: HStore)
    requires Canonical(h1) && Canonical(h2)
    ensures Abs(h1) == Abs(h2) <==> h1 == h2
  {
    if Abs(h1) == Abs(h2) {
      ToMapInjective(Decode(h1), Decode(h2));
      DecodeEncode(h1);
      DecodeEncode(h2);
    }
  }
}
