/** Reading old-format hstores: the validity test of hstore_compat.c and the loop
    that rewrites the entry array in place. */
module HStoreCompat {
  import opened Bytes
  import opened HStoreLayout
  import opened HStoreRaw
  import opened HStoreBuilder

  // ---------- HOldEntry, as laid out on a little-endian machine ----------

  function OldKeyLen(m: seq<byte>, i: nat): nat
    requires 8 * i + 8 <= |m|
  {
    m[8 * i] as int + 0x100 * m[8 * i + 1] as int
  }

  function OldValLen(m: seq<byte>, i: nat): nat
    requires 8 * i + 8 <= |m|
  {
    m[8 * i + 2] as int + 0x100 * m[8 * i + 3] as int
  }

  predicate OldIsNull(m: seq<byte>, i: nat)
    requires 8 * i + 8 <= |m|
  {
    LoadWord(m, 8 * i + 4) % 2 == 1
  }

  function OldPos(m: seq<byte>, i: nat): nat
    requires 8 * i + 8 <= |m|
  {
    LoadWord(m, 8 * i + 4) / 2
  }

  /** Bytes pair i takes in the string area; a null value takes none, whatever its length field. */
  function OldLen(m: seq<byte>, i: nat): nat
    requires 8 * i + 8 <= |m|
  {
    OldKeyLen(m, i) + (if OldIsNull(m, i) then 0 else OldValLen(m, i))
  }

  function OldEnd(m: seq<byte>, i: nat): nat
    requires 8 * i <= |m|
  {
    if i == 0 then 0 else OldEnd(m, i - 1) + OldLen(m, i - 1)
  }

  /** An old-format value with at least one pair: contiguous strings that fit, key lengths not decreasing. */
  predicate OldFormat(m: seq<byte>, vlLen: nat, count: nat)
  {
    && 0 < count < 0x1000_0000
    && CalcDataSize(count, 0) <= vlLen
    && 8 * count <= |m|
    && (forall i | 0 < i < count :: OldKeyLen(m, i - 1) <= OldKeyLen(m, i))
    && (forall i | 0 <= i < count :: OldPos(m, i) == OldEnd(m, i))
    && CalcDataSize(count, OldEnd(m, count)) <= vlLen
  }

  // ---------- validation ----------

  /** hstoreValidOldFormat: 0 = not valid, 1 = valid with slop in the length, 2 = exactly valid. */
  method ValidOldFormat(m: seq<byte>, vlLen: nat, newVersion: bool, count: nat) returns (valid: int)
    requires vlLen == HDRSIZE + |m|
    ensures 0 <= valid <= 2
    ensures valid != 0 <==> !newVersion && (count == 0 || OldFormat(m, vlLen, count))
    ensures !newVersion && count != 0 ==>
      (valid == 2 <==> OldFormat(m, vlLen, count) && vlLen == CalcDataSize(count, OldEnd(m, count)))
  {
    hide OldPos, OldKeyLen, OldLen, OldEnd;
    if newVersion {
      return 0;
    }
    if count == 0 {
      return 2;
    }
    if count > 0xfff_ffff {
      return 0;
    }
    if CalcDataSize(count, 0) > vlLen {
      return 0;
    }
    var lastpos := 0;
    assert OldEnd(m, 0) == 0 by { OldEndStart(m); }
    if OldPos(m, 0) != 0 {
      return 0;
    }
    for i := 1 to count
      invariant forall l | 0 < l < i :: OldKeyLen(m, l - 1) <= OldKeyLen(m, l)
    {
      if OldKeyLen(m, i) < OldKeyLen(m, i - 1) {
        return 0;
      }
    }
    for i := 0 to count
      invariant lastpos == OldEnd(m, i)
      invariant forall l | 0 <= l < i :: OldPos(m, l) == OldEnd(m, l)
    {
      if OldPos(m, i) != lastpos {
        return 0;
      }
      OldEndStep(m, i);
      lastpos := lastpos + OldLen(m, i);
    }
    var vsize := CalcDataSize(count, lastpos);
    if vsize > vlLen {
      return 0;
    }
    if vsize != vlLen {
      return 1;
    }
    return 2;
  }

  lemma {:induction false} OldEndStart(m: seq<byte>)
    ensures OldEnd(m, 0) == 0
  {
  }

  lemma {:induction false} OldEndStep(m: seq<byte>, i: nat)
    requires 8 * i + 8 <= |m|
    ensures OldEnd(m, i + 1) == OldEnd(m, i) + OldLen(m, i)
  {
  }

  // ---------- meaning ----------

  lemma {:induction false} OldEndMonotone(m: seq<byte>, i: nat, j: nat)
    requires i <= j && 8 * j <= |m|
    ensures OldEnd(m, i) <= OldEnd(m, j)
    decreases j - i
  {
    if i < j { OldEndMonotone(m, i, j - 1); }
  }

  lemma {:induction false} OldInside(m: seq<byte>, vlLen: nat, count: nat, i: nat)
    requires OldFormat(m, vlLen, count) && vlLen == HDRSIZE + |m| && i < count
    ensures OldPos(m, i) == OldEnd(m, i)
    ensures OldEnd(m, i) + OldLen(m, i) == OldEnd(m, i + 1)
    ensures 8 * count + OldEnd(m, i + 1) <= |m|
  {
    hide OldPos, OldKeyLen, OldLen;
    OldEndMonotone(m, i + 1, count);
  }

  /** Pair i of an old-format value. */
  function OldItem(m: seq<byte>, vlLen: nat, count: nat, i: nat): Item
    requires OldFormat(m, vlLen, count) && vlLen == HDRSIZE + |m| && i < count
  {
    OldInside(m, vlLen, count, i);
    var at, klen, vlen := 8 * count + OldPos(m, i), OldKeyLen(m, i), OldValLen(m, i);
    Item(m[at..at + klen], if OldIsNull(m, i) then None else Some(m[at + klen..at + klen + vlen]))
  }

  function OldItems(m: seq<byte>, vlLen: nat, count: nat): (items: seq<Item>)
    requires OldFormat(m, vlLen, count) && vlLen == HDRSIZE + |m|
    ensures |items| == count
    ensures forall i | 0 <= i < count :: items[i] == OldItem(m, vlLen, count, i)
  {
    seq(count, i requires 0 <= i < count => OldItem(m, vlLen, count, i))
  }

  lemma {:induction false} OldItemShape(m: seq<byte>, vlLen: nat, count: nat, i: nat)
    requires OldFormat(m, vlLen, count) && vlLen == HDRSIZE + |m| && i < count
    ensures var x, at := OldItem(m, vlLen, count, i), 8 * count + OldEnd(m, i);
            && |x.key| == OldKeyLen(m, i) && x.val.None? == OldIsNull(m, i)
            && at + OldLen(m, i) <= |m|
            && ItemChars(x) == m[at..at + OldLen(m, i)]
  {
    hide OldPos, OldKeyLen, OldValLen, OldEnd, OldIsNull;
    OldInside(m, vlLen, count, i);
    var at, klen, vlen := 8 * count + OldPos(m, i), OldKeyLen(m, i), OldValLen(m, i);
    if !OldIsNull(m, i) { Join(m, at, at + klen, at + klen + vlen); }
  }

  /** The strings of the first i pairs fill the string area up to OldEnd(i). */
  lemma {:induction false} OldChars(m: seq<byte>, vlLen: nat, count: nat, i: nat)
    requires OldFormat(m, vlLen, count) && vlLen == HDRSIZE + |m| && i <= count
    ensures 8 * count + OldEnd(m, i) <= |m|
    ensures Chars(OldItems(m, vlLen, count)[..i]) == m[8 * count..8 * count + OldEnd(m, i)]
  {
    hide OldFormat, OldItem, OldLen, OldEnd;
    OldEndStart(m);
    OldCount(m, vlLen, count);
    var items := OldItems(m, vlLen, count);
    if i == 0 {
      CharsNone(items);
    } else {
      OldChars(m, vlLen, count, i - 1);
      CharsStep(items, i - 1);
      OldEndStep(m, i - 1);
      OldItemShape(m, vlLen, count, i - 1);
      Join(m, 8 * count, 8 * count + OldEnd(m, i - 1), 8 * count + OldEnd(m, i));
    }
  }

  lemma {:induction false} OldCount(m: seq<byte>, vlLen: nat, count: nat)
    requires OldFormat(m, vlLen, count)
    ensures 0 < count < 0x1000_0000 && 8 * count <= |m|
    ensures CalcDataSize(count, OldEnd(m, count)) <= vlLen
  {
  }

  // ---------- the in-place rewrite ----------

  lemma {:induction false} OldFrame(m: seq<byte>, m': seq<byte>, i: nat)
    requires 8 * i + 8 <= |m| && |m| == |m'| && m[8 * i..] == m'[8 * i..]
    ensures OldKeyLen(m', i) == OldKeyLen(m, i) && OldValLen(m', i) == OldValLen(m, i)
    ensures OldPos(m', i) == OldPos(m, i) && OldIsNull(m', i) == OldIsNull(m, i)
  {
  }

  /** The two new entries for pair i are those of the layout of the same pairs. */
  lemma {:induction false} NewEntries(m: seq<byte>, vlLen: nat, count: nat, i: nat)
    requires OldFormat(m, vlLen, count) && vlLen == HDRSIZE + |m| && i < count
    ensures var items := OldItems(m, vlLen, count);
            && PlainEntries(items[..i + 1]) == PlainEntries(items[..i])
                 + [HEntry(false, false, OldPos(m, i) + OldKeyLen(m, i)),
                    HEntry(false, OldIsNull(m, i), OldPos(m, i) + OldLen(m, i))]
            && 8 * count + OldPos(m, i) + OldLen(m, i) <= |m|
  {
    hide OldFormat, OldItem, OldPos, OldKeyLen, OldLen, OldEnd, OldIsNull, Chars, PlainEntries, ItemChars;
    var items := OldItems(m, vlLen, count);
    OldInside(m, vlLen, count, i);
    OldCount(m, vlLen, count);
    OldItemShape(m, vlLen, count, i);
    OldChars(m, vlLen, count, i);
    AppendOne(items[..i], items[i]);
    assert items[..i + 1] == items[..i] + [items[i]];
  }

  lemma {:induction false} PlainNothing(items: seq<Item>)
    ensures PlainEntries(items[..0]) == []
  {
  }

  /** The rewrite loop of hstoreUpgrade: afterwards the memory is the new-format
      layout of exactly the pairs the old-format value held. */
  method Rewrite(mem: array<byte>, vlLen: nat, count: nat) returns (hs: HStore)
    requires vlLen == HDRSIZE + mem.Length <= MAX_ALLOC_SIZE
    requires OldFormat(mem[..], vlLen, count)
    modifies mem
    ensures hs == Encode(old(OldItems(mem[..], vlLen, count)))
    ensures HDRSIZE + 8 * count <= hs.vlLen <= vlLen && hs == Load(mem[..], hs.vlLen, count)
  {
    hide OldFormat, OldItems, OldPos, OldKeyLen, OldLen, OldEnd, OldIsNull, OldValLen, Chars, PlainEntries, LoadEntries,
      LoadEntry, Written, WordBytes, Pack, Encode;
    ghost var m := mem[..];
    ghost var items := OldItems(m, vlLen, count);
    OldCount(m, vlLen, count);
    PlainNothing(items);
    LoadNothing(m);
    for i := 0 to count
      invariant mem[8 * i..] == m[8 * i..]
      invariant LoadEntries(mem[..], 2 * i) == PlainEntries(items[..i])
    {
      ghost var m1 := mem[..];
      OldFrame(m, m1, i);
      NewEntries(m, vlLen, count, i);
      var pos, keylen, vallen := OldPos(mem[..], i), OldKeyLen(mem[..], i), OldValLen(mem[..], i);
      var isNull := OldIsNull(mem[..], i);
      if isNull {
        vallen := 0;
      }
      OldLenIs(m, i);
      var e1, e2 := HEntry(false, false, pos + keylen), HEntry(false, isNull, pos + keylen + vallen);
      StoreEntry(mem, 2 * i, e1);
      StoreEntry(mem, 2 * i + 1, e2);
      StoredPair(m1, i, e1, e2, mem[..]);
      assert m1[8 * i..][8..] == m1[8 * i + 8..] && m[8 * i..][8..] == m[8 * i + 8..];
    }
    assert items[..count] == items;
    OldChars(m, vlLen, count, count);
    OldHolds(m, mem[..], vlLen, count);
    ghost var m2 := mem[..];
    var first := LoadEntry(mem[..], 0);
    StoreEntry(mem, 0, first.(first := true));
    FinalizedEntries(m2, count, items, mem[..]);
    var bl := LoadEntry(mem[..], 2 * count - 1).pos;
    LastPosition(mem[..], count, items);
    hs := Load(mem[..], CalcDataSize(count, bl), count);
    EncodeIs(items);
  }

  lemma {:induction false} LoadNothing(m: seq<byte>)
    ensures LoadEntries(m, 0) == []
  {
  }

  lemma {:induction false} OldLenIs(m: seq<byte>, i: nat)
    requires 8 * i + 8 <= |m|
    ensures OldLen(m, i) == OldKeyLen(m, i) + (if OldIsNull(m, i) then 0 else OldValLen(m, i))
  {
  }

  lemma {:induction false} OldHolds(m: seq<byte>, m': seq<byte>, vlLen: nat, count: nat)
    requires OldFormat(m, vlLen, count) && vlLen == HDRSIZE + |m| <= MAX_ALLOC_SIZE && |m'| == |m|
    requires 8 * count <= |m| && m'[8 * count..] == m[8 * count..]
    requires LoadEntries(m', 2 * count) == PlainEntries(OldItems(m, vlLen, count))
    ensures Holds(m', count, OldItems(m, vlLen, count))
  {
    hide OldFormat, OldItem, OldEnd, Chars, PlainEntries, LoadEntries;
    var items, n := OldItems(m, vlLen, count), OldEnd(m, count);
    OldChars(m, vlLen, count, count);
    assert items[..count] == items;
    assert m'[8 * count..8 * count + n] == m'[8 * count..][..n] == m[8 * count..][..n];
  }

  lemma {:induction false} LastPosition(m: seq<byte>, count: nat, items: seq<Item>)
    requires 0 < count == |items| && 8 * count <= |m|
    requires LoadEntries(m, 2 * count) == WithFirst(PlainEntries(items))
    ensures LoadEntry(m, 2 * count - 1).pos == |Chars(items)|
  {
  }

  lemma {:induction false} EncodeIs(items: seq<Item>)
    ensures Encode(items) ==
      HStore(CalcDataSize(|items|, |Chars(items)|), true, |items|, WithFirst(PlainEntries(items)), Chars(items))
  {
  }

  /** The upgraded value reads as the same pairs, is free of stray flags and slop,
      and is canonical as soon as the old keys were in order. */
  lemma {:induction false} UpgradeKeepsPairs(m: seq<byte>, vlLen: nat, count: nat)
    requires OldFormat(m, vlLen, count) && vlLen == HDRSIZE + |m| <= MAX_ALLOC_SIZE
    ensures var items := OldItems(m, vlLen, count); var hs := Encode(items);
            && Tight(hs) && Decode(hs) == items
            && hs.vlLen == CalcDataSize(count, OldEnd(m, count)) <= vlLen
            && (Sorted(items) ==> Canonical(hs))
  {
    hide OldFormat, OldItem, OldEnd, Chars, PlainEntries, Tight, Decode, Sorted, Canonical;
    var items := OldItems(m, vlLen, count);
    OldCount(m, vlLen, count);
    OldChars(m, vlLen, count, count);
    assert items[..count] == items;
    EncodeDecodes(items);
    if Sorted(items) { EncodeCanonical(items); }
  }

  // ---------- the new format without its flag ----------

  const FLAG_NEWVERSION := 0x8000_0000

  /** HS_COUNT */
  function CountOf(size: nat): nat { size % 0x1000_0000 }

  function EndPos(m: seq<byte>, count: nat): nat
    requires 8 * count <= |m|
  {
    if count == 0 then 0 else LoadEntry(m, 2 * count - 1).pos
  }

  /** HSTORE_KEYLEN; entry positions must not decrease. */
  function KeyLen(es: seq<HEntry>, i: nat): int
    requires 2 * i < |es|
  {
    es[2 * i].pos - Off(es, 2 * i)
  }

  /** What hstoreValidNewFormat looks for in a value with at least one pair. */
  predicate NewFormat(m: seq<byte>, count: nat)
    requires 8 * count <= |m|
  {
    var es := LoadEntries(m, 2 * count);
    && count > 0 && es[0].first && CalcDataSize(count, EndPos(m, count)) <= HDRSIZE + |m|
    && (forall k | 1 <= k < 2 * count :: !es[k].first && es[k - 1].pos <= es[k].pos)
    && (forall i | 1 <= i < count :: KeyLen(es, i - 1) <= KeyLen(es, i) && !es[2 * i].isNull)
  }

  /** hstoreValidNewFormat: 0 = not valid, 1 = valid with slop in the length, 2 = exactly valid. */
  method ValidNewFormat(m: seq<byte>, vlLen: nat, size: nat) returns (valid: int)
    requires vlLen == HDRSIZE + |m| && 8 * CountOf(size) <= |m|
    ensures 0 <= valid <= 2
    ensures valid != 0 <==> size >= FLAG_NEWVERSION || CountOf(size) == 0 || NewFormat(m, CountOf(size))
    ensures size < FLAG_NEWVERSION && CountOf(size) != 0 ==>
      (valid == 2 <==> NewFormat(m, CountOf(size)) && vlLen == CalcDataSize(CountOf(size), EndPos(m, CountOf(size))))
  {
    hide LoadEntry, CountOf, KeyLen, CalcDataSize, EndPos;
    var count := CountOf(size);
    var es := LoadEntries(m, 2 * count);
    var vsize := CalcDataSize(count, EndPos(m, count));
    if size >= FLAG_NEWVERSION || count == 0 {
      return 2;
    }
    if !es[0].first || vsize > vlLen {
      return 0;
    }
    for k := 1 to 2 * count
      invariant forall l | 1 <= l < k :: !es[l].first && es[l - 1].pos <= es[l].pos
    {
      if es[k].first || es[k].pos < es[k - 1].pos {
        return 0;
      }
    }
    for i := 1 to count
      invariant forall l | 1 <= l < i :: KeyLen(es, l - 1) <= KeyLen(es, l) && !es[2 * l].isNull
    {
      if KeyLen(es, i) < KeyLen(es, i - 1) {
        return 0;
      }
      if es[2 * i].isNull {
        return 0;
      }
    }
    return if vsize != vlLen then 1 else 2;
  }

  // ---------- hstoreUpgrade ----------

  /** The shortcut of hstoreUpgrade: a short value whose first word has the ISFIRST
      bit is taken for the new format without further tests. */
  predicate TakenAsNew(m: seq<byte>, vlLen: nat)
    requires |m| >= 4
  {
    vlLen < 32768 && LoadEntry(m, 0).first
  }

  /** HS_SETCOUNT and HS_FIXSIZE: flagged as new, cut to the size its last entry gives. */
  function AsNew(m: seq<byte>, count: nat): HStore
    requires 8 * count <= |m|
  {
    var bl := EndPos(m, count);
    var end := if 8 * count + bl <= |m| then 8 * count + bl else |m|;
    HStore(CalcDataSize(count, bl), true, count, LoadEntries(m, 2 * count), m[8 * count..end])
  }

  /** What hstoreUpgrade makes of a value with size word `size`. */
  function UpgradeResult(m: seq<byte>, vlLen: nat, size: nat): Result<HStore>
    requires vlLen == HDRSIZE + |m| && 8 * CountOf(size) <= |m| && (0 < size < FLAG_NEWVERSION ==> |m| >= 4)
  {
    var count := CountOf(size);
    if size >= FLAG_NEWVERSION then Ok(HStore(vlLen, true, count, LoadEntries(m, 2 * count), m[8 * count..]))
    else if size == 0 || TakenAsNew(m, vlLen) then Ok(AsNew(m, count))
    else if OldFormat(m, vlLen, size) then Ok(Encode(OldItems(m, vlLen, size)))
    else if count == 0 || NewFormat(m, count) then Ok(AsNew(m, count))
    else Error
  }

  /** The entries are overwritten: not flagged, not taken by the shortcut, and old. */
  predicate Rewritten(m: seq<byte>, vlLen: nat, size: nat)
    requires vlLen == HDRSIZE + |m| && (0 < size < FLAG_NEWVERSION ==> |m| >= 4)
  {
    0 < size < FLAG_NEWVERSION && !TakenAsNew(m, vlLen) && OldFormat(m, vlLen, size)
  }

  /** hstoreUpgrade; the entries its tests read must lie inside the value. */
  method Upgrade(mem: array<byte>, vlLen: nat, size: nat) returns (r: Result<HStore>)
    requires vlLen == HDRSIZE + mem.Length <= MAX_ALLOC_SIZE
    requires 8 * CountOf(size) <= mem.Length && (0 < size < FLAG_NEWVERSION ==> mem.Length >= 4)
    modifies mem
    ensures r == UpgradeResult(old(mem[..]), vlLen, size)
    ensures !Rewritten(old(mem[..]), vlLen, size) ==> mem[..] == old(mem[..])
  {
    hide OldFormat, NewFormat, OldItems, LoadEntry, LoadEntries, Encode;
    var count := CountOf(size);
    if size >= FLAG_NEWVERSION {
      return Ok(HStore(vlLen, true, count, LoadEntries(mem[..], 2 * count), mem[8 * count..]));
    }
    if size == 0 || TakenAsNew(mem[..], vlLen) {
      return Ok(AsNew(mem[..], count));
    }
    var validNew := ValidNewFormat(mem[..], vlLen, size);
    var validOld := ValidOldFormat(mem[..], vlLen, false, size);
    if validOld == 0 {
      if validNew != 0 {
        return Ok(AsNew(mem[..], count));
      }
      return Error;
    }
    var hs := Rewrite(mem, vlLen, size);
    r := Ok(hs);
  }

  lemma {:induction false} FirstWord(m: seq<byte>)
    requires |m| >= 8
    ensures LoadEntry(m, 0).first <==> OldValLen(m, 0) >= 32768
  {
  }

  lemma {:induction false} SecondWord(m: seq<byte>)
    requires |m| >= 8 && OldPos(m, 0) == 0
    ensures LoadEntry(m, 1) == HEntry(false, false, if OldIsNull(m, 0) then 1 else 0)
  {
    var w := LoadWord(m, 4);
    assert w == 0 || w == 1;
  }

  /** The shortcut catches an old-format value only when its first value is null
      and has a length of 32768 or more left in its entry. */
  lemma {:induction false} TakenOnlyIfNull(m: seq<byte>, vlLen: nat, count: nat)
    requires vlLen == HDRSIZE + |m| && OldFormat(m, vlLen, count)
    ensures |m| >= 8
    ensures TakenAsNew(m, vlLen) <==> vlLen < 32768 && OldIsNull(m, 0) && OldValLen(m, 0) >= 32768
  {
    hide OldFormat, LoadEntry, OldValLen, OldIsNull, OldKeyLen, OldEnd, OldPos;
    OldCount(m, vlLen, count);
    FirstWord(m);
    OldInside(m, vlLen, count, 0);
    OldLenIs(m, 0);
    OldEndStart(m);
  }

  lemma {:induction false} OldSize(m: seq<byte>, vlLen: nat, count: nat)
    requires vlLen == HDRSIZE + |m| && OldFormat(m, vlLen, count)
    ensures CountOf(count) == count && |m| >= 8 * count >= 8 && count < FLAG_NEWVERSION
  {
    hide OldPos, OldKeyLen, OldEnd;
  }

  /** Read with the new format's macros, the first value of an old-format value is
      no null, and short. */
  lemma {:induction false} FirstValueDiffers(m: seq<byte>, vlLen: nat, count: nat)
    requires vlLen == HDRSIZE + |m| && OldFormat(m, vlLen, count) && 0 < count && 8 * count <= |m|
    requires LoadEntry(m, 0).first && Readable(AsNew(m, count))
    ensures Decode(AsNew(m, count)) != OldItems(m, vlLen, count)
  {
    hide OldFormat, LoadEntry, OldValLen, OldIsNull, OldKeyLen, OldEnd, OldPos, Readable;
    var hs, old0 := AsNew(m, count), OldItem(m, vlLen, count, 0);
    OldInside(m, vlLen, count, 0);
    OldEndStart(m);
    FirstWord(m);
    SecondWord(m);
    OldItemShape(m, vlLen, count, 0);
    OldLenIs(m, 0);
    assert hs.entries[1] == LoadEntry(m, 1);
    ShortFirst(hs);
    LongFirst(m, vlLen, count);
  }

  lemma {:induction false} ShortFirst(hs: HStore)
    requires Readable(hs) && hs.count > 0 && !hs.entries[1].isNull && hs.entries[1].pos <= 1
    ensures Decode(hs)[0].val.Some? && |Decode(hs)[0].val.value| <= 1
  {
  }

  lemma {:induction false} LongFirst(m: seq<byte>, vlLen: nat, count: nat)
    requires vlLen == HDRSIZE + |m| && OldFormat(m, vlLen, count) && count > 0 && OldValLen(m, 0) >= 32768
    ensures var x := OldItems(m, vlLen, count)[0];
            x.val.None? || |x.val.value| >= 32768
  {
    hide OldFormat, OldIsNull, OldKeyLen, OldEnd, OldPos;
    OldInside(m, vlLen, count, 0);
    OldLenIs(m, 0);
  }

  /** An upgrade keeps the pairs of an old-format value just when the shortcut does
      not catch it; caught, the null of the first pair becomes a string. */
  lemma {:induction false} UpgradeExact(m: seq<byte>, vlLen: nat, count: nat)
    requires vlLen == HDRSIZE + |m| <= MAX_ALLOC_SIZE && OldFormat(m, vlLen, count)
    ensures |m| >= 8 * count >= 8 && CountOf(count) == count
    ensures UpgradeResult(m, vlLen, count).Ok?
    ensures var hs := UpgradeResult(m, vlLen, count).value;
            (Readable(hs) && Decode(hs) == OldItems(m, vlLen, count)) <==>
              !(vlLen < 32768 && OldIsNull(m, 0) && OldValLen(m, 0) >= 32768)
  {
    hide OldFormat, LoadEntry, OldValLen, OldIsNull, OldKeyLen, OldEnd, OldPos, Readable, Encode, Tight, AsNew, CountOf,
      NewFormat;
    OldSize(m, vlLen, count);
    TakenOnlyIfNull(m, vlLen, count);
    if TakenAsNew(m, vlLen) {
      if Readable(AsNew(m, count)) { FirstValueDiffers(m, vlLen, count); }
    } else {
      UpgradeKeepsPairs(m, vlLen, count);
      TightReadable(Encode(OldItems(m, vlLen, count)));
    }
  }

  // ---------- values already in the new format ----------

  lemma {:induction false} PositionsGrow(es: seq<HEntry>, j: nat, k: nat)
    requires j <= k < |es| && forall l | 1 <= l < |es| :: es[l - 1].pos <= es[l].pos
    ensures es[j].pos <= es[k].pos
    decreases k - j
  {
    if j < k { PositionsGrow(es, j, k - 1); }
  }

  /** A value that passes the new-format test can be read, and comes out with an
      exact size and no byte behind its last string. */
  lemma {:induction false} NewFormatReadable(m: seq<byte>, count: nat)
    requires 8 * count <= |m| && NewFormat(m, count)
    ensures var hs := AsNew(m, count);
            && Readable(hs) && hs.vlLen == CalcDataSize(count, |hs.chars|) <= HDRSIZE + |m|
            && |hs.chars| == hs.entries[2 * count - 1].pos
  {
    hide LoadEntry, KeyLen;
    var hs := AsNew(m, count);
    var es := hs.entries;
    forall j, k | 0 <= j <= k < |es|
      ensures es[j].pos <= es[k].pos
    {
      PositionsGrow(es, j, k);
    }
  }

  /** An upgrade of an unflagged new-format value reads the same as that value just
      when the shortcut catches it or the old-format test does not accept it. */
  lemma {:induction false} UpgradeNewExact(m: seq<byte>, vlLen: nat, count: nat)
    requires vlLen == HDRSIZE + |m| <= MAX_ALLOC_SIZE && count < 0x1000_0000 && 8 * count <= |m| && NewFormat(m, count)
    ensures |m| >= 8 && CountOf(count) == count && Readable(AsNew(m, count)) && UpgradeResult(m, vlLen, count).Ok?
    ensures var hs := UpgradeResult(m, vlLen, count).value;
            (Readable(hs) && Decode(hs) == Decode(AsNew(m, count))) <==>
              TakenAsNew(m, vlLen) || !OldFormat(m, vlLen, count)
  {
    hide OldFormat, LoadEntry, Readable, Encode, Tight, AsNew, NewFormat;
    NewFormatReadable(m, count);
    NewFirst(m, count);
    if !TakenAsNew(m, vlLen) && OldFormat(m, vlLen, count) {
      FirstValueDiffers(m, vlLen, count);
      UpgradeKeepsPairs(m, vlLen, count);
      TightReadable(Encode(OldItems(m, vlLen, count)));
    }
  }

  lemma {:induction false} NewFirst(m: seq<byte>, count: nat)
    requires 8 * count <= |m| && NewFormat(m, count)
    ensures count > 0 && |m| >= 8 && LoadEntry(m, 0).first
  {
    hide LoadEntry, KeyLen;
  }

  // ---------- an old-format value that loses a null ----------

  /** One pair, key "a" and a null value with 32768 left in its length field. */
  const LONG_NULL: seq<byte> := [1, 0, 0, 0x80, 1, 0, 0, 0, 97]

  lemma {:induction false} LongNullFields()
    ensures |LONG_NULL| == 9 && OldKeyLen(LONG_NULL, 0) == 1 && OldValLen(LONG_NULL, 0) == 32768
    ensures LoadWord(LONG_NULL, 4) == 1
  {
  }

  lemma {:induction false} LowBit(m: seq<byte>)
    requires |m| >= 8 && LoadWord(m, 4) == 1
    ensures OldIsNull(m, 0) && OldPos(m, 0) == 0
  {
  }

  lemma {:induction false} LongNullEntries()
    ensures |LONG_NULL| == 9 && LoadEntry(LONG_NULL, 0) == HEntry(true, false, 1)
    ensures LoadEntry(LONG_NULL, 1) == HEntry(false, false, 1)
  {
  }

  lemma {:induction false} OneShortPair(hs: HStore, b: byte)
    requires hs.count == 1 && hs.chars == [b]
    requires hs.entries == [HEntry(true, false, 1), HEntry(false, false, 1)]
    ensures Readable(hs) && Decode(hs) == [Item([b], Some([]))]
  {
    assert hs.chars[0..1] == [b] && hs.chars[1..1] == [];
    assert ItemAt(hs, 0) == Item([b], Some([]));
  }

  /** That value is accepted by the old-format test; its upgrade can be read, and the
      null of its only pair has become an empty string. */
  lemma {:induction false} UpgradeLosesNull()
    ensures OldFormat(LONG_NULL, 17, 1) && OldItems(LONG_NULL, 17, 1) == [Item([97], None)]
    ensures |LONG_NULL| == 9 && CountOf(1) == 1 && UpgradeResult(LONG_NULL, 17, 1).Ok?
    ensures var hs := UpgradeResult(LONG_NULL, 17, 1).value;
            Readable(hs) && Decode(hs) == [Item([97], Some([]))]
  {
    hide OldKeyLen, OldValLen, OldIsNull, OldPos, LoadWord, LoadEntry, Readable, NewFormat, Encode;
    LongNullFields();
    LongNullEntries();
    LowBit(LONG_NULL);
    OldEndStart(LONG_NULL);
    OldEndStep(LONG_NULL, 0);
    assert UpgradeResult(LONG_NULL, 17, 1) == Ok(AsNew(LONG_NULL, 1));
    var hs := AsNew(LONG_NULL, 1);
    assert hs.entries == [HEntry(true, false, 1), HEntry(false, false, 1)] && hs.chars == [97];
    OneShortPair(hs, 97);
  }

  // ---------- a new-format value that is taken for an old one ----------

  /** One pair of two empty strings, without the flag, followed by `slop`. */
  function WithSlop(slop: seq<byte>): seq<byte> { [0, 0, 0, 0x80, 0, 0, 0, 0] + slop }

  lemma {:induction false} SlopBytes(slop: seq<byte>)
    ensures var m := WithSlop(slop);
            && |m| == 8 + |slop| && m[8..] == slop
            && m[0] == 0 && m[1] == 0 && m[2] == 0 && m[3] == 0x80
            && m[4] == 0 && m[5] == 0 && m[6] == 0 && m[7] == 0
  {
  }

  lemma {:induction false} SlopWords(m: seq<byte>)
    requires |m| >= 8 && m[0] == 0 && m[1] == 0 && m[2] == 0 && m[3] == 0x80
    requires m[4] == 0 && m[5] == 0 && m[6] == 0 && m[7] == 0
    ensures LoadWord(m, 0) == 0x8000_0000 && LoadWord(m, 4) == 0
  {
    hide WordOf;
    assert WordOf(0, 0, 0, 0x80) == 0x8000_0000 && WordOf(0, 0, 0, 0) == 0 by { WordsOf(); }
  }

  lemma {:induction false} WordsOf()
    ensures WordOf(0, 0, 0, 0x80) == 0x8000_0000 && WordOf(0, 0, 0, 0) == 0
  {
  }

  lemma {:induction false} SlopLengths(m: seq<byte>)
    requires |m| >= 8 && m[0] == 0 && m[1] == 0 && m[2] == 0 && m[3] == 0x80
    ensures OldKeyLen(m, 0) == 0 && OldValLen(m, 0) == 32768
  {
  }

  lemma {:induction false} SlopEntries(m: seq<byte>)
    requires |m| >= 8 && LoadWord(m, 0) == 0x8000_0000 && LoadWord(m, 4) == 0
    ensures !OldIsNull(m, 0) && OldPos(m, 0) == 0
    ensures LoadEntry(m, 0) == HEntry(true, false, 0) && LoadEntry(m, 1) == HEntry(false, false, 0)
  {
    hide LoadWord;
  }

  lemma {:induction false} SlopFields(slop: seq<byte>)
    ensures var m := WithSlop(slop);
            && |m| == 8 + |slop| && m[8..] == slop
            && OldKeyLen(m, 0) == 0 && OldValLen(m, 0) == 32768 && !OldIsNull(m, 0) && OldPos(m, 0) == 0
            && LoadEntry(m, 0) == HEntry(true, false, 0) && LoadEntry(m, 1) == HEntry(false, false, 0)
  {
    hide WithSlop, LoadWord, LoadEntry, OldKeyLen, OldValLen, OldIsNull, OldPos;
    SlopBytes(slop);
    SlopWords(WithSlop(slop));
    SlopLengths(WithSlop(slop));
    SlopEntries(WithSlop(slop));
  }

  lemma {:induction false} EmptyPair(hs: HStore)
    requires hs.count == 1 && hs.chars == []
    requires hs.entries == [HEntry(true, false, 0), HEntry(false, false, 0)]
    ensures Readable(hs) && Decode(hs) == [Item([], Some([]))]
  {
    assert ItemAt(hs, 0) == Item([], Some([]));
  }

  lemma {:induction false} SlopAsNew(slop: seq<byte>)
    ensures |WithSlop(slop)| == 8 + |slop| && NewFormat(WithSlop(slop), 1)
    ensures var hs := AsNew(WithSlop(slop), 1);
            Readable(hs) && Decode(hs) == [Item([], Some([]))]
  {
    hide LoadEntry, WithSlop, Readable;
    var m := WithSlop(slop);
    SlopFields(slop);
    assert LoadEntries(m, 2) == [HEntry(true, false, 0), HEntry(false, false, 0)];
    assert m[8..8] == [];
    EmptyPair(AsNew(m, 1));
  }

  lemma {:induction false} SlopAsOld(slop: seq<byte>)
    requires |slop| == 32768
    ensures |WithSlop(slop)| == 32776 && OldFormat(WithSlop(slop), 32784, 1)
    ensures OldItems(WithSlop(slop), 32784, 1) == [Item([], Some(slop))]
  {
    hide OldKeyLen, OldValLen, OldIsNull, OldPos, LoadEntry, WithSlop;
    var m := WithSlop(slop);
    SlopFields(slop);
    OldEndStart(m);
    OldEndStep(m, 0);
    assert m[8..8 + 32768] == m[8..] && m[8..8] == [];
    assert OldItem(m, 32784, 1, 0) == Item([], Some(slop));
  }

  /** With 32768 bytes of slop that value of two empty strings passes both tests, and
      its upgrade reads the slop as the value of its pair. */
  lemma {:induction false} UpgradeReadsSlop(slop: seq<byte>)
    requires |slop| == 32768
    ensures var m := WithSlop(slop);
            && |m| == 32776 && NewFormat(m, 1) && OldFormat(m, 32784, 1) && !TakenAsNew(m, 32784)
            && Readable(AsNew(m, 1)) && Decode(AsNew(m, 1)) == [Item([], Some([]))]
    ensures CountOf(1) == 1 && UpgradeResult(WithSlop(slop), 32784, 1).Ok?
    ensures var hs := UpgradeResult(WithSlop(slop), 32784, 1).value;
            Readable(hs) && Decode(hs) == [Item([], Some(slop))]
  {
    hide OldFormat, NewFormat, LoadEntry, WithSlop, AsNew, Encode, Readable, Tight;
    SlopAsNew(slop);
    SlopAsOld(slop);
    var items := OldItems(WithSlop(slop), 32784, 1);
    UpgradeKeepsPairs(WithSlop(slop), 32784, 1);
    TightReadable(Encode(items));
  }
}
