/** What hstoreUpgrade accepts and what it makes of it: values of the current format,
    flagged or not, and images of old-format values. */
module HStoreUpgrade {
  import opened Bytes
  import opened HStoreLayout
  import opened HStoreRaw
  import opened HStoreCompat

  // ---------- values of the current format ----------

  /** `m` holds the entries and strings of `hs`, and nothing else. */
  predicate Holds(m: seq<byte>, hs: HStore)
  {
    HDRSIZE + 8 * hs.count <= hs.vlLen == HDRSIZE + |m| && Load(m, hs.vlLen, hs.count) == hs
  }

  lemma {:induction false} CanonicalCount(hs: HStore)
    requires Canonical(hs)
    ensures hs.count < 0x1000_0000 && CountOf(hs.count) == hs.count
    ensures CountOf(FLAG_NEWVERSION + hs.count) == hs.count
  {
    hide Tight, Sorted;
    FlagAside(hs.count);
  }

  lemma {:induction false} FlagAside(count: nat)
    requires count < 0x1000_0000
    ensures CountOf(count) == count && CountOf(FLAG_NEWVERSION + count) == count
  {
  }

  /** A flagged value, which is what all current code writes, is returned unchanged. */
  lemma {:induction false} UpgradeFlagged(m: seq<byte>, hs: HStore)
    requires Canonical(hs) && Holds(m, hs)
    ensures CountOf(FLAG_NEWVERSION + hs.count) == hs.count
    ensures UpgradeResult(m, hs.vlLen, FLAG_NEWVERSION + hs.count) == Ok(hs)
    ensures !Rewritten(m, hs.vlLen, FLAG_NEWVERSION + hs.count)
  {
    hide Canonical, LoadEntries, CountOf;
    CanonicalCount(hs);
    assert m[8 * hs.count..|m|] == m[8 * hs.count..];
  }

  /** A size word of zero is an empty hstore, whatever else the value holds. */
  lemma {:induction false} UpgradeEmpty(m: seq<byte>)
    ensures UpgradeResult(m, HDRSIZE + |m|, 0) == Ok(Encode([]))
    ensures Canonical(Encode([])) && Abs(Encode([])) == map[]
    ensures !Rewritten(m, HDRSIZE + |m|, 0)
  {
    EncodeEmpty();
    assert m[0..0] == [] && LoadEntries(m, 0) == [];
    EncodeCanonical([]);
  }

  /** The upgrade fails exactly on a value without the flag that the shortcut does
      not catch and that passes neither of the two tests. */
  lemma {:induction false} UpgradeFails(m: seq<byte>, vlLen: nat, size: nat)
    requires vlLen == HDRSIZE + |m| && 8 * CountOf(size) <= |m| && (0 < size < FLAG_NEWVERSION ==> |m| >= 4)
    ensures UpgradeResult(m, vlLen, size).Error? <==>
      && 0 < size < FLAG_NEWVERSION && CountOf(size) != 0
      && !TakenAsNew(m, vlLen) && !OldFormat(m, vlLen, size) && !NewFormat(m, CountOf(size))
  {
    hide OldFormat, NewFormat, TakenAsNew, AsNew, Encode;
  }

  // ---------- the new-format test ----------

  /** The value in memory, slop included. */
  function WholeValue(m: seq<byte>, count: nat): HStore
    requires 8 * count <= |m|
  {
    HStore(HDRSIZE + |m|, true, count, LoadEntries(m, 2 * count), m[8 * count..])
  }

  /** The new-format test accepts exactly the values that can be read and whose keys,
      as read, do not get shorter and are not null from the second on. */
  lemma {:induction false} NewFormatMeaning(m: seq<byte>, count: nat)
    requires 0 < count && 8 * count <= |m|
    ensures var hs := WholeValue(m, count);
            NewFormat(m, count) <==>
              && Readable(hs)
              && (forall i | 1 <= i < count :: |Decode(hs)[i - 1].key| <= |Decode(hs)[i].key|)
              && (forall i | 1 <= i < count :: !hs.entries[2 * i].isNull)
  {
    hide LoadEntry, KeyLen, Decode;
    var hs := WholeValue(m, count);
    ReadableMeaning(m, count);
    if Readable(hs) {
      forall i | 0 <= i < count
        ensures |Decode(hs)[i].key| == KeyLen(hs.entries, i)
      {
        KeyLength(hs, i);
      }
    }
  }

  lemma {:induction false} KeyLength(hs: HStore, i: nat)
    requires Readable(hs) && i < hs.count
    ensures |Decode(hs)[i].key| == KeyLen(hs.entries, i)
  {
  }

  lemma {:induction false} ReadableMeaning(m: seq<byte>, count: nat)
    requires 0 < count && 8 * count <= |m|
    ensures var es := LoadEntries(m, 2 * count);
            Readable(WholeValue(m, count)) <==>
              && es[0].first && CalcDataSize(count, EndPos(m, count)) <= HDRSIZE + |m|
              && (forall k | 1 <= k < 2 * count :: !es[k].first && es[k - 1].pos <= es[k].pos)
  {
    hide LoadEntry;
    var es := LoadEntries(m, 2 * count);
    if forall k | 1 <= k < 2 * count :: !es[k].first && es[k - 1].pos <= es[k].pos {
      forall j, k | 0 <= j <= k < |es|
        ensures es[j].pos <= es[k].pos
      {
        PositionsGrow(es, j, k);
      }
    }
  }

  /** Every canonical value but the empty one passes the test, and is what the
      upgrade cuts the memory to. */
  lemma {:induction false} CanonicalIsNew(m: seq<byte>, hs: HStore)
    requires Canonical(hs) && Holds(m, hs) && hs.count > 0
    ensures NewFormat(m, hs.count) && AsNew(m, hs.count) == hs
  {
    hide LoadEntry, KeyLess, Decode, NewFormat;
    assert m[8 * hs.count..|m|] == m[8 * hs.count..];
    assert WholeValue(m, hs.count) == hs;
    NewFormatMeaning(m, hs.count);
    forall i | 1 <= i < hs.count
      ensures |Decode(hs)[i - 1].key| <= |Decode(hs)[i].key|
    {
      assert KeyLess(Decode(hs)[i - 1].key, Decode(hs)[i].key);
      KeyLessMeaning(Decode(hs)[i - 1].key, Decode(hs)[i].key);
    }
  }

  /** Without its flag a canonical value is restored exactly when the shortcut catches
      it or the old-format test does not accept it. */
  lemma {:induction false} UpgradeUnflagged(m: seq<byte>, hs: HStore)
    requires Canonical(hs) && Holds(m, hs) && hs.count > 0
    ensures |m| >= 8 && CountOf(hs.count) == hs.count
    ensures UpgradeResult(m, hs.vlLen, hs.count) == Ok(hs) <==>
      TakenAsNew(m, hs.vlLen) || !OldFormat(m, hs.vlLen, hs.count)
  {
    hide OldFormat, NewFormat, TakenAsNew, AsNew, Encode, CountOf, Tight, Sorted, Load;
    CanonicalIsNew(m, hs);
    CanonicalCount(hs);
    UpgradeNewExact(m, hs.vlLen, hs.count);
  }

  // ---------- images of old-format values ----------

  function OldEntryBytes(x: Item, pos: nat): (s: seq<byte>)
    ensures |s| == 8
  {
    var vlen := if x.val.None? then 0 else |x.val.value|;
    [|x.key| % 256, |x.key| / 256 % 256, vlen % 256, vlen / 256 % 256]
      + WordBytes(2 * pos + if x.val.None? then 1 else 0)
  }

  /** The entries of the first n pairs, as the old code laid them out. */
  function OldTable(items: seq<Item>, n: nat): (s: seq<byte>)
    requires n <= |items|
    ensures |s| == 8 * n
  {
    if n == 0 then [] else OldTable(items, n - 1) + OldEntryBytes(items[n - 1], |Chars(items[..n - 1])|)
  }

  function OldImage(items: seq<Item>): seq<byte> { OldTable(items, |items|) + Chars(items) }

  /** What the old format could hold. */
  predicate OldStorable(items: seq<Item>)
  {
    && 0 < |items| < 0x1000_0000 && |Chars(items)| < 0x8000_0000
    && (forall i | 0 <= i < |items| :: |items[i].key| < 0x1_0000)
    && (forall i | 0 <= i < |items| :: items[i].val.Some? ==> |items[i].val.value| < 0x1_0000)
    && (forall i | 0 < i < |items| :: |items[i - 1].key| <= |items[i].key|)
  }

  lemma {:induction false} TableAt(items: seq<Item>, n: nat, i: nat)
    requires i < n <= |items|
    ensures OldTable(items, n)[8 * i..8 * i + 8] == OldEntryBytes(items[i], |Chars(items[..i])|)
  {
    hide OldEntryBytes, Chars;
    if i < n - 1 {
      TableAt(items, n - 1, i);
      assert OldTable(items, n)[8 * i..8 * i + 8] == OldTable(items, n - 1)[8 * i..8 * i + 8];
    }
  }

  lemma {:induction false} HalfWord(n: nat)
    requires n < 0x1_0000
    ensures n % 256 + 0x100 * (n / 256 % 256) == n
  {
  }

  lemma {:induction false} SliceAt(m: seq<byte>, at: nat, s: seq<byte>, j: nat)
    requires at + |s| <= |m| && m[at..at + |s|] == s && j < |s|
    ensures m[at + j] == s[j]
  {
    assert m[at..at + |s|][j] == m[at + j];
  }

  lemma {:induction false} LowHalf(m: seq<byte>, i: nat, x: Item, pos: nat)
    requires 8 * i + 8 <= |m| && m[8 * i..8 * i + 8] == OldEntryBytes(x, pos)
    requires |x.key| < 0x1_0000 && (x.val.Some? ==> |x.val.value| < 0x1_0000)
    ensures OldKeyLen(m, i) == |x.key| && (x.val.Some? ==> OldValLen(m, i) == |x.val.value|)
  {
    var s := OldEntryBytes(x, pos);
    SliceAt(m, 8 * i, s, 0);
    SliceAt(m, 8 * i, s, 1);
    SliceAt(m, 8 * i, s, 2);
    SliceAt(m, 8 * i, s, 3);
    HalfWord(|x.key|);
    if x.val.Some? { HalfWord(|x.val.value|); }
  }

  lemma {:induction false} HighHalf(m: seq<byte>, i: nat, x: Item, pos: nat)
    requires 8 * i + 8 <= |m| && m[8 * i..8 * i + 8] == OldEntryBytes(x, pos) && pos < 0x8000_0000
    ensures LoadWord(m, 8 * i + 4) == 2 * pos + if x.val.None? then 1 else 0
  {
    hide WordOf;
    var s, w := OldEntryBytes(x, pos), 2 * pos + if x.val.None? then 1 else 0;
    var t := WordBytes(w);
    assert s[4] == t[0] && s[5] == t[1] && s[6] == t[2] && s[7] == t[3];
    hide OldEntryBytes;
    SliceAt(m, 8 * i, s, 4);
    SliceAt(m, 8 * i, s, 5);
    SliceAt(m, 8 * i, s, 6);
    SliceAt(m, 8 * i, s, 7);
    WordRoundTrip(w);
  }

  lemma {:induction false} EntryBytesRead(m: seq<byte>, i: nat, x: Item, pos: nat)
    requires 8 * i + 8 <= |m| && m[8 * i..8 * i + 8] == OldEntryBytes(x, pos)
    requires |x.key| < 0x1_0000 && (x.val.Some? ==> |x.val.value| < 0x1_0000) && pos < 0x8000_0000
    ensures OldKeyLen(m, i) == |x.key| && OldIsNull(m, i) == x.val.None? && OldPos(m, i) == pos
    ensures x.val.Some? ==> OldValLen(m, i) == |x.val.value|
  {
    hide LoadWord, OldEntryBytes, OldKeyLen, OldValLen;
    LowHalf(m, i, x, pos);
    HighHalf(m, i, x, pos);
  }

  lemma {:induction false} ImageEntry(items: seq<Item>, i: nat)
    requires OldStorable(items) && i < |items|
    ensures var m := OldImage(items);
            && 8 * i + 8 <= |m| && OldKeyLen(m, i) == |items[i].key| && OldIsNull(m, i) == items[i].val.None?
            && OldPos(m, i) == |Chars(items[..i])|
            && (items[i].val.Some? ==> OldValLen(m, i) == |items[i].val.value|)
  {
    hide OldEntryBytes, Chars, OldTable, OldKeyLen, OldValLen, OldIsNull, OldPos;
    var m, n := OldImage(items), |items|;
    TableAt(items, n, i);
    CharsPrefix(items, i);
    assert m[8 * i..8 * i + 8] == OldTable(items, n)[8 * i..8 * i + 8];
    EntryBytesRead(m, i, items[i], |Chars(items[..i])|);
  }

  lemma {:induction false} ImageEnd(items: seq<Item>, n: nat)
    requires OldStorable(items) && n <= |items|
    ensures 8 * n <= |OldImage(items)| && OldEnd(OldImage(items), n) == |Chars(items[..n])|
  {
    hide OldKeyLen, OldValLen, OldIsNull, OldPos, OldImage, OldEnd, Chars;
    ImageSize(items);
    if n == 0 {
      OldEndStart(OldImage(items));
      CharsNone(items);
    } else {
      ImageEnd(items, n - 1);
      ImageEntry(items, n - 1);
      OldEndStep(OldImage(items), n - 1);
      CharsStep(items, n - 1);
    }
  }

  lemma {:induction false} ImageSize(items: seq<Item>)
    ensures |OldImage(items)| == 8 * |items| + |Chars(items)| && OldImage(items)[8 * |items|..] == Chars(items)
  {
    hide OldTable, Chars;
  }

  lemma {:induction false} ImageIsOld(items: seq<Item>)
    requires OldStorable(items)
    ensures OldFormat(OldImage(items), HDRSIZE + |OldImage(items)|, |items|)
  {
    hide OldKeyLen, OldValLen, OldIsNull, OldPos, OldImage, OldEnd, Chars;
    var m := OldImage(items);
    ImageSize(items);
    ImageEnd(items, |items|);
    assert items[..|items|] == items;
    forall i | 0 <= i < |items|
      ensures OldKeyLen(m, i) == |items[i].key| && OldPos(m, i) == OldEnd(m, i)
    {
      ImageEntry(items, i);
      ImageEnd(items, i);
    }
  }

  /** Whatever pairs the old format could hold, with keys that do not get shorter, the
      test accepts their image and reads them back from it. */
  lemma {:induction false} OldImageRead(items: seq<Item>)
    requires OldStorable(items)
    ensures OldFormat(OldImage(items), HDRSIZE + |OldImage(items)|, |items|)
    ensures OldItems(OldImage(items), HDRSIZE + |OldImage(items)|, |items|) == items
  {
    hide OldFormat, OldKeyLen, OldValLen, OldIsNull, OldPos, OldImage, OldEnd, Chars;
    ImageIsOld(items);
    var m, n := OldImage(items), |items|;
    forall i | 0 <= i < n
      ensures OldItem(m, HDRSIZE + |m|, n, i) == items[i]
    {
      ImageItem(items, i);
    }
  }

  lemma {:induction false} ImageItem(items: seq<Item>, i: nat)
    requires OldStorable(items) && i < |items|
    requires OldFormat(OldImage(items), HDRSIZE + |OldImage(items)|, |items|)
    ensures OldItem(OldImage(items), HDRSIZE + |OldImage(items)|, |items|, i) == items[i]
  {
    hide OldFormat, OldKeyLen, OldValLen, OldIsNull, OldPos, OldImage, OldEnd, Chars;
    var m, x, n := OldImage(items), items[i], |items|;
    ImageSize(items);
    ImageEntry(items, i);
    CharsStep(items, i);
    CharsPrefix(items, i + 1);
    OldInside(m, HDRSIZE + |m|, n, i);
    var at, cs := |Chars(items[..i])|, Chars(items);
    assert cs[at..at + |ItemChars(x)|] == ItemChars(x) by {
      assert Chars(items[..i + 1]) == cs[..at + |ItemChars(x)|];
    }
    ItemSlices(cs, at, x);
    SliceBehind(m, 8 * n, at, at + |x.key|);
    if x.val.Some? { SliceBehind(m, 8 * n, at + |x.key|, at + |ItemChars(x)|); }
  }

  lemma {:induction false} SliceBehind(m: seq<byte>, start: nat, a: nat, b: nat)
    requires a <= b && start + b <= |m|
    ensures m[start + a..start + b] == m[start..][a..b]
  {
  }

  /** Where the strings of a pair lie in a string area. */
  lemma {:induction false} ItemSlices(cs: seq<byte>, at: nat, x: Item)
    requires at + |ItemChars(x)| <= |cs| && cs[at..at + |ItemChars(x)|] == ItemChars(x)
    ensures cs[at..at + |x.key|] == x.key
    ensures x.val.Some? ==> cs[at + |x.key|..at + |ItemChars(x)|] == x.val.value
  {
    var t := cs[at..at + |ItemChars(x)|];
    assert cs[at..at + |x.key|] == t[..|x.key|] && cs[at + |x.key|..at + |ItemChars(x)|] == t[|x.key|..];
  }

  /** Keys of an accepted old value do not get shorter. */
  lemma {:induction false} OldKeysGrow(m: seq<byte>, vlLen: nat, count: nat, i: nat)
    requires vlLen == HDRSIZE + |m| && OldFormat(m, vlLen, count) && 0 < i < count
    ensures |OldItems(m, vlLen, count)[i - 1].key| <= |OldItems(m, vlLen, count)[i].key|
  {
    hide OldValLen, OldIsNull, OldPos, OldKeyLen, OldEnd;
    OldInside(m, vlLen, count, i - 1);
    OldInside(m, vlLen, count, i);
  }

  // ---------- a value byte by byte ----------

  /** What follows the header of `a=>1` on a little-endian machine: two entries of four
      bytes, the first flagged, each with the position its string ends at. */
  const A_IS_1: seq<byte> := [1, 0, 0, 0x80, 2, 0, 0, 0, 97, 49]

  lemma {:induction false} AIs1Entries()
    ensures |A_IS_1| == 10
    ensures LoadEntry(A_IS_1, 0) == HEntry(true, false, 1) && LoadEntry(A_IS_1, 1) == HEntry(false, false, 2)
  {
  }

  lemma {:induction false} AIs1()
    ensures |A_IS_1| == 10 && Readable(Load(A_IS_1, 18, 1)) && Decode(Load(A_IS_1, 18, 1)) == [Item([97], Some([49]))]
    ensures Canonical(Load(A_IS_1, 18, 1)) && Load(A_IS_1, 18, 1) == Encode([Item([97], Some([49]))])
  {
    hide LoadEntry, Canonical, Encode;
    AIs1Entries();
    var hs := Load(A_IS_1, 18, 1);
    assert hs.entries == [HEntry(true, false, 1), HEntry(false, false, 2)];
    assert hs.chars == [97, 49];
    TwoStrings(hs);
  }

  lemma {:induction false} TwoStrings(hs: HStore)
    requires hs.newVersion && hs.count == 1 && hs.chars == [97, 49] && hs.vlLen == 18
    requires hs.entries == [HEntry(true, false, 1), HEntry(false, false, 2)]
    ensures Readable(hs) && Decode(hs) == [Item([97], Some([49]))] && Canonical(hs) && hs == Encode(Decode(hs))
  {
    hide Encode;
    assert hs.chars[0..1] == [97] && hs.chars[1..2] == [49];
    assert ItemAt(hs, 0) == Item([97], Some([49]));
    DecodeEncode(hs);
  }
}
