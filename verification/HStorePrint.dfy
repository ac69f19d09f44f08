/** hstore_out: the text form of an hstore, written through a moving pointer into
    a buffer whose size was estimated beforehand. */
module HStorePrint {
  import opened Bytes
  import opened HStoreLayout

  const QUOTE: byte := 34
  const BACKSLASH: byte := 92
  const ARROW: seq<byte> := [61, 62]            // =>
  const SEPARATOR: seq<byte> := [44, 32]        // comma, space
  const NULLWORD: seq<byte> := [78, 85, 76, 76]

  function EscapedByte(b: byte): seq<byte>
  {
    if b == QUOTE || b == BACKSLASH then [BACKSLASH, b] else [b]
  }

  function Escaped(s: seq<byte>): seq<byte>
  {
    if s == [] then [] else EscapedByte(s[0]) + Escaped(s[1..])
  }

  function Quoted(s: seq<byte>): seq<byte>
  {
    [QUOTE] + Escaped(s) + [QUOTE]
  }

  function PrintVal(x: Item): seq<byte>
  {
    if x.val.None? then NULLWORD else Quoted(x.val.value)
  }

  function PrintItem(x: Item): seq<byte>
  {
    Quoted(x.key) + ARROW + PrintVal(x)
  }

  /** The text of the pairs from number i on. */
  function PrintFrom(items: seq<Item>, i: nat): seq<byte>
    requires i <= |items|
    decreases |items| - i
  {
    if i == |items| then []
    else PrintItem(items[i]) + (if i + 1 == |items| then [] else SEPARATOR) + PrintFrom(items, i + 1)
  }

  function Print(items: seq<Item>): seq<byte>
  {
    PrintFrom(items, 0)
  }

  /** The space hstore_out reserves for one pair. */
  function ItemEstimate(x: Item): nat
  {
    6 + 2 * |x.key| + 2 + (if x.val.None? then 2 else 2 * |x.val.value|)
  }

  function EstimateTo(items: seq<Item>, i: nat): nat
    requires i <= |items|
  {
    if i == 0 then 0 else EstimateTo(items, i - 1) + ItemEstimate(items[i - 1])
  }

  function Estimate(items: seq<Item>): nat { EstimateTo(items, |items|) }

  lemma {:induction false} EscapedLength(s: seq<byte>)
    ensures |s| <= |Escaped(s)| <= 2 * |s|
  {
    if s != [] { EscapedLength(s[1..]); }
  }

  lemma {:induction false} EscapedAppend(s: seq<byte>, b: byte)
    ensures Escaped(s + [b]) == Escaped(s) + EscapedByte(b)
  {
    if s == [] {
      assert s + [b] == [b] && [b][1..] == [];
    } else {
      EscapedAppend(s[1..], b);
      assert (s + [b])[1..] == s[1..] + [b];
    }
  }

  lemma {:induction false} ItemLengthBound(x: Item)
    ensures |PrintItem(x)| + 2 <= ItemEstimate(x)
  {
    EscapedLength(x.key);
    if x.val.Some? { EscapedLength(x.val.value); }
  }

  /** The estimate leaves room for the text and its terminator. */
  lemma {:induction false} PrintFits(items: seq<Item>, i: nat)
    requires i < |items|
    ensures EstimateTo(items, i) + |PrintFrom(items, i)| + 1 <= Estimate(items)
    decreases |items| - i
  {
    ItemLengthBound(items[i]);
    if i + 1 < |items| { PrintFits(items, i + 1); }
  }

  /** The estimate is at most twice the varlena size, so hstore_out's int cannot overflow. */
  lemma {:induction false} EstimateBound(items: seq<Item>, i: nat)
    requires i <= |items|
    ensures EstimateTo(items, i) <= 2 * CalcDataSize(i, |Chars(items[..i])|)
  {
    if i > 0 {
      EstimateBound(items, i - 1);
      CharsStep(items, i - 1);
    }
  }

  function Nulls(items: seq<Item>): nat
  {
    if items == [] then 0 else Nulls(items[..|items| - 1]) + if items[|items| - 1].val.None? then 1 else 0
  }

  /** The estimate counts eight bytes for each pair, two for each byte of a key or
      value, and two more for each null. */
  lemma {:induction false} EstimateIs(items: seq<Item>, i: nat)
    requires i <= |items|
    ensures EstimateTo(items, i) == 8 * i + 2 * |Chars(items[..i])| + 2 * Nulls(items[..i])
  {
    hide Chars;
    if i == 0 {
      CharsNone(items);
    } else {
      EstimateIs(items, i - 1);
      CharsStep(items, i - 1);
      assert items[..i][..i - 1] == items[..i - 1];
    }
  }

  const SAMPLE := [Item([97], Some([49])), Item([98, 34], None)]

  lemma {:induction false} SampleItems()
    ensures PrintItem(SAMPLE[0]) == [34, 97, 34, 61, 62, 34, 49, 34]
    ensures PrintItem(SAMPLE[1]) == [34, 98, 92, 34, 34, 61, 62, 78, 85, 76, 76]
  {
    hide Escaped;
    EscapedWords();
  }

  /** The text of two pairs, with quotes, an arrow, a comma with a blank, a backslash
      before a quote, and a bare NULL. */
  lemma {:induction false} PrintExample()
    ensures Print(SAMPLE) ==
      [34, 97, 34, 61, 62, 34, 49, 34, 44, 32, 34, 98, 92, 34, 34, 61, 62, 78, 85, 76, 76]
  {
    hide PrintItem;
    SampleItems();
    assert PrintFrom(SAMPLE, 1) == PrintItem(SAMPLE[1]);
    assert PrintFrom(SAMPLE, 0) == PrintItem(SAMPLE[0]) + (SEPARATOR + PrintFrom(SAMPLE, 1));
  }

  lemma {:induction false} EscapedWords()
    ensures Escaped([97]) == [97] && Escaped([49]) == [49] && Escaped([98, 34]) == [98, 92, 34]
  {
    assert [97][1..] == [] && [49][1..] == [] && [98, 34][1..] == [34] && [34][1..] == [];
    assert Escaped([34]) == [92, 34];
  }

  // ---------- writing ----------

  /** A run of *ptr++ assignments. */
  method Put(out: array<byte>, ptr: nat, s: seq<byte>) returns (p: nat)
    requires ptr + |s| <= out.Length
    modifies out
    ensures p == ptr + |s| && out[..p] == old(out[..ptr]) + s
  {
    for j := 0 to |s|
      invariant out[..ptr + j] == old(out[..ptr]) + s[..j]
    {
      out[ptr + j] := s[j];
      assert out[..ptr + j + 1] == out[..ptr + j] + [s[j]];
    }
    p := ptr + |s|;
    assert s[..|s|] == s;
  }

  /** cpw: copy a word, putting a backslash before quotes and backslashes. */
  method CopyWord(out: array<byte>, ptr: nat, src: seq<byte>) returns (p: nat)
    requires ptr + |Escaped(src)| <= out.Length
    modifies out
    ensures p == ptr + |Escaped(src)| && out[..p] == old(out[..ptr]) + Escaped(src)
  {
    hide Escaped;
    p := ptr;
    assert Escaped(src[..0]) == [] by { EscapedEmpty(); }
    for j := 0 to |src|
      invariant p == ptr + |Escaped(src[..j])|
      invariant p <= out.Length
      invariant out[..p] == old(out[..ptr]) + Escaped(src[..j])
    {
      EscapedPrefix(src, j + 1);
      EscapedAppend(src[..j], src[j]);
      assert src[..j + 1] == src[..j] + [src[j]];
      if src[j] == QUOTE || src[j] == BACKSLASH {
        p := Put(out, p, [BACKSLASH]);
      }
      p := Put(out, p, [src[j]]);
    }
    assert src[..|src|] == src;
  }

  lemma {:induction false} EscapedEmpty()
    ensures Escaped([]) == []
  {
  }

  lemma {:induction false} EscapedPrefix(s: seq<byte>, j: nat)
    requires j <= |s|
    ensures |Escaped(s[..j])| <= |Escaped(s)|
    decreases |s| - j
  {
    if j < |s| {
      EscapedPrefix(s, j + 1);
      EscapedAppend(s[..j], s[j]);
      assert s[..j + 1] == s[..j] + [s[j]];
    } else {
      assert s[..j] == s;
    }
  }

  method WriteQuoted(out: array<byte>, ptr: nat, w: seq<byte>) returns (p: nat)
    requires ptr + |Quoted(w)| <= out.Length
    modifies out
    ensures p == ptr + |Quoted(w)| && out[..p] == old(out[..ptr]) + Quoted(w)
  {
    hide Escaped;
    p := Put(out, ptr, [QUOTE]);
    p := CopyWord(out, p, w);
    p := Put(out, p, [QUOTE]);
  }

  /** One turn of hstore_out's writing loop, without the separator. */
  method WriteItem(out: array<byte>, ptr: nat, x: Item) returns (p: nat)
    requires ptr + |PrintItem(x)| <= out.Length
    modifies out
    ensures p == ptr + |PrintItem(x)| && out[..p] == old(out[..ptr]) + PrintItem(x)
  {
    hide Quoted;
    p := WriteQuoted(out, ptr, x.key);
    p := Put(out, p, ARROW);
    if x.val.None? {
      p := Put(out, p, NULLWORD);
    } else {
      p := WriteQuoted(out, p, x.val.value);
    }
    assert out[..p] == old(out[..ptr]) + PrintItem(x);
  }

  /** The first loop of hstore_out. */
  method SizeEstimate(hs: HStore) returns (buflen: nat)
    requires Readable(hs)
    ensures buflen == Estimate(Decode(hs))
  {
    hide Readable, Text;
    buflen := 0;
    for i := 0 to hs.count
      invariant buflen == EstimateTo(Decode(hs), i)
    {
      buflen := buflen + 6 + 2 * |Key(hs, i)|;
      buflen := buflen + 2 + (if ValIsNull(hs, i) then 2 else 2 * |Val(hs, i)|);
    }
  }

  lemma {:induction false} PrintStep(items: seq<Item>, i: nat, written: seq<byte>, last: bool)
    requires i < |items| && written + PrintFrom(items, i) == Print(items) && last == (i + 1 == |items|)
    ensures last ==> written + PrintItem(items[i]) + PrintFrom(items, i + 1) == Print(items)
    ensures !last ==> written + PrintItem(items[i]) + SEPARATOR + PrintFrom(items, i + 1) == Print(items)
    ensures |written| + |PrintItem(items[i])| + (if last then 0 else |SEPARATOR|) <= |Print(items)|
  {
    hide PrintItem;
    var p, rest := PrintItem(items[i]), PrintFrom(items, i + 1);
    if last {
      assert written + p + rest == written + (p + [] + rest);
    } else {
      assert written + p + SEPARATOR + rest == written + (p + SEPARATOR + rest);
    }
  }

  /** The second loop of hstore_out. */
  method WriteItems(hs: HStore, out: array<byte>) returns (ptr: nat)
    requires Readable(hs) && |Print(Decode(hs))| < out.Length
    modifies out
    ensures ptr < out.Length && out[..ptr] == Print(Decode(hs))
  {
    hide Print, PrintFrom, PrintItem, Readable, ItemAt, Decode;
    ghost var items := Decode(hs);
    ptr := 0;
    PrintEnds(items);
    for i := 0 to hs.count
      invariant ptr <= |Print(items)|
      invariant out[..ptr] + PrintFrom(items, i) == Print(items)
    {
      var last := i + 1 == hs.count;
      ghost var written := out[..ptr];
      PrintStep(items, i, written, last);
      ptr := WriteItem(out, ptr, ItemAt(hs, i));
      if !last {
        ptr := Put(out, ptr, SEPARATOR);
      }
    }
  }

  lemma {:induction false} PrintEnds(items: seq<Item>)
    ensures PrintFrom(items, 0) == Print(items)
    ensures PrintFrom(items, |items|) == []
    ensures items != [] ==> |Print(items)| < Estimate(items)
  {
    if items != [] { PrintFits(items, 0); }
  }

  /** hstore_out. The array is exactly the estimated buffer, so every write, the
      terminator included, is shown to stay inside it. */
  method HStoreOut(hs: HStore) returns (r: Result<seq<byte>>)
    requires Readable(hs)
    ensures r == if Estimate(Decode(hs)) > MAX_ALLOC_SIZE then Error else Ok(Print(Decode(hs)))
  {
    hide Readable, Decode;
    if hs.count == 0 {
      return Ok([]);
    }
    hide Print, Estimate;
    PrintEnds(Decode(hs));
    var buflen := SizeEstimate(hs);
    if buflen > MAX_ALLOC_SIZE {
      return Error;
    }
    var out := new byte[buflen](_ => 0);
    var ptr := WriteItems(hs, out);
    out[ptr] := 0;
    r := Ok(out[..ptr]);
  }
}
