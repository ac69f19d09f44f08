/** An hstore under construction: the HS_COPYITEM, HS_ADDITEM and HS_FINALIZE
    macros as methods on one block of byte memory. */
module HStoreBuilder {
  import opened Bytes
  import opened HStoreLayout
  import opened HStoreRaw

  /** Memory `m`, laid out for `cap` pairs, holds the pairs `items`, without ISFIRST. */
  ghost predicate Holds(m: seq<byte>, cap: nat, items: seq<Item>)
  {
    && |items| <= cap
    && 8 * cap + |Chars(items)| <= |m| < MAX_ALLOC_SIZE
    && LoadEntries(m, 2 * |items|) == PlainEntries(items)
    && m[8 * cap..8 * cap + |Chars(items)|] == Chars(items)
  }

  lemma {:induction false} AppendOne(items: seq<Item>, x: Item)
    ensures Chars(items + [x]) == Chars(items) + ItemChars(x)
    ensures PlainEntries(items + [x]) == PlainEntries(items)
      + [HEntry(false, false, |Chars(items)| + |x.key|), HEntry(false, x.val.None?, |Chars(items)| + |ItemChars(x)|)]
  {
  }

  lemma {:induction false} WrittenFrame(m: seq<byte>, at: nat, s: seq<byte>, lo: nat, hi: nat)
    requires at + |s| <= |m| && lo <= hi <= |m|
    ensures hi <= at || at + |s| <= lo ==> Written(m, at, s)[lo..hi] == m[lo..hi]
    ensures Written(m, at, s)[at..at + |s|] == s
  {
  }

  lemma {:induction false} WrittenTwice(m: seq<byte>, at: nat, s: seq<byte>, t: seq<byte>)
    requires at + |s| + |t| <= |m|
    ensures Written(Written(m, at, s), at + |s|, t) == Written(m, at, s + t)
  {
  }

  lemma {:induction false} StoredEntry(m: seq<byte>, k: nat, e: HEntry)
    requires 4 * k + 4 <= |m| && e.pos < ISNULL
    ensures LoadEntry(Written(m, 4 * k, WordBytes(Pack(e))), k) == e
  {
    LoadAfterStore(Written(m, 4 * k, WordBytes(Pack(e))), k, e, m[..4 * k], m[4 * k + 4..]);
  }

  lemma {:induction false} OtherEntry(m: seq<byte>, k: nat, s: seq<byte>, at: nat)
    requires 4 * k + 4 <= |m| && at + |s| <= |m|
    requires 4 * k + 4 <= at || at + |s| <= 4 * k
    ensures LoadEntry(Written(m, at, s), k) == LoadEntry(m, k)
  {
    hide Unpack, WordOf, Written;
    OtherByte(m, s, at, 4 * k);
    OtherByte(m, s, at, 4 * k + 1);
    OtherByte(m, s, at, 4 * k + 2);
    OtherByte(m, s, at, 4 * k + 3);
  }

  lemma {:induction false} OtherByte(m: seq<byte>, s: seq<byte>, at: nat, j: nat)
    requires j < |m| && at + |s| <= |m| && (j < at || at + |s| <= j)
    ensures Written(m, at, s)[j] == m[j]
  {
  }

  lemma {:induction false} StoredPair(m: seq<byte>, n: nat, e1: HEntry, e2: HEntry, m': seq<byte>)
    requires 8 * n + 8 <= |m| && e1.pos < ISNULL && e2.pos < ISNULL
    requires m' == Written(Written(m, 8 * n, WordBytes(Pack(e1))), 8 * n + 4, WordBytes(Pack(e2)))
    ensures LoadEntries(m', 2 * n + 2) == LoadEntries(m, 2 * n) + [e1, e2]
    ensures m'[8 * n + 8..] == m[8 * n + 8..]
  {
    var w1, w2 := WordBytes(Pack(e1)), WordBytes(Pack(e2));
    hide WordBytes, Pack, LoadEntry;
    var m1 := Written(m, 8 * n, w1);
    StoredEntry(m, 2 * n, e1);
    OtherEntry(m1, 2 * n, w2, 8 * n + 4);
    StoredEntry(m1, 2 * n + 1, e2);
    assert m'[..8 * n] == m[..8 * n];
    LoadFrame(m, m', 2 * n);
    forall k | 0 <= k < 2 * n
      ensures LoadEntry(m', k) == LoadEntry(m, k)
    {
      assert LoadEntries(m, 2 * n)[k] == LoadEntries(m', 2 * n)[k];
    }
  }

  /** Copying the strings of `x` and storing its two entries appends `x`. */
  lemma {:induction false} AppendHolds(m: seq<byte>, cap: nat, items: seq<Item>, x: Item, m1: seq<byte>, m': seq<byte>)
    requires Holds(m, cap, items) && |items| < cap
    requires 8 * cap + |Chars(items)| + |ItemChars(x)| <= |m|
    requires m1 == Written(m, 8 * cap + |Chars(items)|, ItemChars(x))
    requires |m'| == |m| && m'[8 * |items| + 8..] == m1[8 * |items| + 8..]
    requires LoadEntries(m', 2 * |items| + 2) == LoadEntries(m1, 2 * |items|)
      + [HEntry(false, false, |Chars(items)| + |x.key|), HEntry(false, x.val.None?, |Chars(items)| + |ItemChars(x)|)]
    ensures Holds(m', cap, items + [x])
  {
    AppendOne(items, x);
    hide Chars, PlainEntries, ItemChars, LoadEntries;
    var n, p, c := |items|, 8 * cap + |Chars(items)|, ItemChars(x);
    WrittenFrame(m, p, c, 0, 8 * n);
    LoadFrame(m, m1, 2 * n);
    WrittenFrame(m, p, c, 8 * cap, p);
    assert m'[8 * cap..p + |c|] == m1[8 * cap..p + |c|] by {
      assert m'[8 * cap..p + |c|] == m'[8 * n + 8..][8 * cap - 8 * n - 8..p + |c| - 8 * n - 8];
      assert m1[8 * cap..p + |c|] == m1[8 * n + 8..][8 * cap - 8 * n - 8..p + |c| - 8 * n - 8];
    }
    Join(m1, 8 * cap, p, p + |c|);
  }

  lemma {:induction false} FinalizedEntries(m: seq<byte>, cap: nat, items: seq<Item>, m1: seq<byte>)
    requires Holds(m, cap, items) && items != []
    requires m1 == Written(m, 0, WordBytes(Pack(LoadEntry(m, 0).(first := true))))
    ensures Marked(m1, cap, items)
  {
    var e := LoadEntry(m, 0).(first := true);
    assert LoadEntries(m, 2 * |items|)[0] == LoadEntry(m, 0);
    StoredEntry(m, 0, e);
    var w := WordBytes(Pack(e));
    WrittenFrame(m, 0, w, 8 * cap, 8 * cap + |Chars(items)|);
    hide WordBytes, Pack, Chars, PlainEntries, LoadEntry, Written;
    forall k | 0 < k < 2 * |items|
      ensures LoadEntry(m1, k) == LoadEntry(m, k)
    {
      OtherEntry(m, k, w, 0);
    }
  }

  class Builder {
    var mem: array<byte>      // everything behind the header
    var vlLen: nat
    var count: nat            // provisional until Finalize
    var dent: nat             // index of the next entry
    var dptr: nat             // length of the string area so far
    ghost var items: seq<Item>

    ghost predicate Valid()
      reads this, mem
    {
      && Holds(mem[..], count, items)
      && dent == 2 * |items|
      && dptr == |Chars(items)|
    }

    /** palloc(total) followed by the provisional HS_SETCOUNT. */
    constructor (total: nat, cap: nat)
      requires HDRSIZE + 8 * cap <= total <= MAX_ALLOC_SIZE
      ensures Valid() && fresh(mem)
      ensures items == [] && count == cap && mem.Length == total - HDRSIZE
    {
      mem := new byte[total - HDRSIZE](_ => 0);
      vlLen, count, dent, dptr, items := total, cap, 0, 0, [];
    }

    /** Storing the two entries of a pair whose strings are already in place. */
    method StoreEntries(x: Item, ghost m: seq<byte>)
      requires |items| < count && dent == 2 * |items|
      requires Holds(m, count, items) && |m| < MAX_ALLOC_SIZE
      requires 8 * count + |Chars(items)| + |ItemChars(x)| <= |m|
      requires mem[..] == Written(m, 8 * count + |Chars(items)|, ItemChars(x))
      requires dptr == |Chars(items)| + |ItemChars(x)|
      modifies this`dent, this`items, mem
      ensures Valid()
      ensures items == old(items) + [x]
    {
      hide Chars, ItemChars, WordBytes, Pack, LoadEntries, Holds, Written;
      ghost var m1 := mem[..];
      ghost var n := |items|;
      var vlen := if x.val.None? then 0 else |x.val.value|;
      assert |ItemChars(x)| == |x.key| + vlen by { ItemLength(x); }
      var e1, e2 := HEntry(false, false, dptr - vlen), HEntry(false, x.val.None?, dptr);
      StoreEntry(mem, dent, e1);
      StoreEntry(mem, dent + 1, e2);
      dent := dent + 2;
      StoredPair(m1, n, e1, e2, mem[..]);
      AppendHolds(m, count, items, x, m1, mem[..]);
      items := items + [x];
      AppendOne(old(items), x);
    }

    /** HS_COPYITEM: `strings` is the contiguous key-and-value text of a source pair. */
    method CopyItem(strings: seq<byte>, klen: nat, vlen: nat, vnull: bool)
      requires Valid() && |items| < count
      requires |strings| == klen + vlen && (vnull ==> vlen == 0)
      requires 8 * count + dptr + |strings| <= mem.Length
      modifies this`dent, this`dptr, this`items, mem
      ensures Valid()
      ensures items == old(items) + [Item(strings[..klen], if vnull then None else Some(strings[klen..]))]
    {
      ghost var m := mem[..];
      var x := Item(strings[..klen], if vnull then None else Some(strings[klen..]));
      assert ItemChars(x) == strings;
      MemCopy(mem, 8 * count + dptr, strings);
      dptr := dptr + klen + vlen;
      StoreEntries(x, m);
    }

    /** HS_ADDITEM: key and value come from separate strings. */
    method AddItem(key: seq<byte>, val: seq<byte>, isNull: bool)
      requires Valid() && |items| < count
      requires 8 * count + dptr + |key| + (if isNull then 0 else |val|) <= mem.Length
      modifies this`dent, this`dptr, this`items, mem
      ensures Valid()
      ensures items == old(items) + [Item(key, if isNull then None else Some(val))]
    {
      hide Written, Chars;
      ghost var m := mem[..];
      var x := Item(key, if isNull then None else Some(val));
      MemCopy(mem, 8 * count + dptr, key);
      dptr := dptr + |key|;
      if !isNull {
        MemCopy(mem, 8 * count + dptr, val);
        dptr := dptr + |val|;
      }
      if isNull {
        assert ItemChars(x) == key;
      } else {
        WrittenTwice(m, 8 * count + old(dptr), key, val);
      }
      StoreEntries(x, m);
    }

    /** HS_FINALIZE: mark the first entry, close the gap left by unused entries, fix the size. */
    method Finalize(outcount: nat) returns (hs: HStore)
      requires Valid() && outcount == |items|
      modifies this, mem
      ensures hs == Encode(old(items))
    {
      hide Chars, PlainEntries, Written, LoadEntries, LoadEntry, WordBytes, Pack, Load, Encode, Marked;
      var buflen, n := dptr, outcount;
      ghost var m := mem[..];
      NothingToMark(m, count, items);
      if n != 0 {
        var first := LoadEntry(mem[..], 0);
        StoreEntry(mem, 0, first.(first := true));
        FinalizedEntries(m, count, items, mem[..]);
      }
      ghost var m1 := mem[..];
      if n != count {
        var strptr := 8 * count;
        GapClosed(m1, count, items);
        count := n;
        MemCopy(mem, 8 * n, mem[strptr..strptr + buflen]);
      }
      vlLen := CalcDataSize(n, buflen);
      MarkedIsValue(mem[..], items);
      hs := Load(mem[..], vlLen, count);
    }
  }

  /** Memory laid out for `cap` pairs holds `items`, the first entry marked. */
  ghost predicate Marked(m: seq<byte>, cap: nat, items: seq<Item>)
  {
    && |items| <= cap && 8 * cap + |Chars(items)| <= |m|
    && LoadEntries(m, 2 * |items|) == WithFirst(PlainEntries(items))
    && m[8 * cap..8 * cap + |Chars(items)|] == Chars(items)
  }

  lemma {:induction false} NothingToMark(m: seq<byte>, cap: nat, items: seq<Item>)
    requires Holds(m, cap, items)
    ensures items == [] ==> Marked(m, cap, items)
    ensures items != [] ==> 8 <= 8 * cap <= |m| && LoadEntry(m, 0).pos < ISNULL
    ensures |items| <= cap && 8 * cap + |Chars(items)| <= |m|
  {
    hide Chars;
    EmptyLayout();
    if items != [] { assert LoadEntries(m, 2 * |items|)[0] == LoadEntry(m, 0); }
  }

  lemma {:induction false} GapClosed(m: seq<byte>, cap: nat, items: seq<Item>)
    requires Marked(m, cap, items)
    ensures 8 * |items| + |Chars(items)| <= |m|
    ensures Marked(Written(m, 8 * |items|, m[8 * cap..8 * cap + |Chars(items)|]), |items|, items)
  {
    hide Chars, PlainEntries, Written, LoadEntries;
    MovedDown(m, 8 * |items|, m[8 * cap..8 * cap + |Chars(items)|]);
  }

  lemma {:induction false} MarkedIsValue(m: seq<byte>, items: seq<Item>)
    requires Marked(m, |items|, items)
    ensures HDRSIZE + 8 * |items| <= CalcDataSize(|items|, |Chars(items)|) <= HDRSIZE + |m|
    ensures Load(m, CalcDataSize(|items|, |Chars(items)|), |items|) == Encode(items)
  {
    hide Chars, PlainEntries, LoadEntries;
  }

  lemma {:induction false} MovedDown(m: seq<byte>, at: nat, s: seq<byte>)
    requires at % 4 == 0 && at + |s| <= |m|
    ensures Written(m, at, s)[at..at + |s|] == s
    ensures LoadEntries(Written(m, at, s), at / 4) == LoadEntries(m, at / 4)
  {
  }

  lemma {:induction false} EmptyLayout()
    ensures Chars([]) == [] && PlainEntries([]) == []
  {
  }

  lemma {:induction false} ItemLength(x: Item)
    ensures |ItemChars(x)| == |x.key| + (if x.val.None? then 0 else |x.val.value|)
  {
  }
}
