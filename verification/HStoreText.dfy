/** hstore_in, and the round trip through text: what hstore_out prints, hstore_in
    reads back as the very same value, unless a string holds a NUL byte or there are
    more pairs than the parser can allocate. */
module HStoreText {
  import opened Bytes
  import opened HStoreLayout
  import opened HStorePairs
  import opened HStorePrint
  import opened HStoreParse

  predicate ItemHasNul(x: Item)
  {
    0 in x.key || (x.val.Some? && 0 in x.val.value)
  }

  predicate NoNulFrom(items: seq<Item>, i: nat)
  {
    forall j | i <= j < |items| :: !ItemHasNul(items[j])
  }

  /** The parser cannot read the printed word back: it ends at a NUL, or is too long. */
  predicate Unreadable(w: seq<byte>) { 0 in w || |w| >= MAX_WORD_BUFFER }

  predicate ItemUnreadable(x: Item)
  {
    Unreadable(x.key) || (x.val.Some? && Unreadable(x.val.value))
  }

  predicate ReadableFrom(items: seq<Item>, i: nat)
  {
    forall j | i <= j < |items| :: !ItemUnreadable(items[j])
  }

  /** The pair the parser makes of a printed item. */
  function PairOf(x: Item): Pair
  {
    Pair(x.key, if x.val.None? then NULLWORD else x.val.value, x.val.None?, true)
  }

  function PairsFrom(items: seq<Item>, i: nat): (ps: seq<Pair>)
    requires i <= |items|
    ensures |ps| == |items| - i
    ensures forall j | 0 <= j < |ps| :: ps[j] == PairOf(items[i + j])
    decreases |items| - i
  {
    if i == |items| then [] else [PairOf(items[i])] + PairsFrom(items, i + 1)
  }

  // ---------- words ----------

  lemma {:induction false} DropPrefix(s: seq<byte>, p: nat, a: seq<byte>, b: seq<byte>)
    requires p <= |s| && a + b <= s[p..]
    ensures p + |a| + |b| <= |s| && a <= s[p..] && b <= s[p + |a|..]
  {
  }

  lemma {:induction false} ScanByte(s: seq<byte>, ie: bool, q: nat, b: byte, acc: seq<byte>)
    requires 0 < q <= |s| && EscapedByte(b) <= s[q..]
    ensures Scan(s, ie, InEscVal, q, acc, true) ==
      if b == 0 || WordFull(acc) then Bad else Scan(s, ie, InEscVal, q + |EscapedByte(b)|, acc + [b], true)
  {
  }

  lemma {:induction false} ScanClosing(s: seq<byte>, ie: bool, q: nat, acc: seq<byte>)
    requires 0 < q <= |s| && Escaped([]) + [QUOTE] <= s[q..]
    ensures Scan(s, ie, InEscVal, q, acc, true) == Found(q + |Escaped([])|, acc + [], true)
  {
  }

  lemma {:induction false} EscapedHead(w: seq<byte>)
    requires w != []
    ensures Escaped(w) + [QUOTE] == EscapedByte(w[0]) + (Escaped(w[1..]) + [QUOTE])
    ensures |Escaped(w)| == |EscapedByte(w[0])| + |Escaped(w[1..])|
  {
  }

  /** Inside quotes the scanner undoes the escaping of cpw; a NUL is an unexpected
      end, and a word that grows too long an error. */
  lemma {:induction false} ScanEscaped(s: seq<byte>, ie: bool, q: nat, w: seq<byte>, acc: seq<byte>)
    requires 0 < q <= |s| && Escaped(w) + [QUOTE] <= s[q..] && |acc| < MAX_WORD_BUFFER
    ensures Scan(s, ie, InEscVal, q, acc, true) ==
      if 0 in w || |acc + w| >= MAX_WORD_BUFFER then Bad else Found(q + |Escaped(w)|, acc + w, true)
    decreases |w|
  {
    hide Scan, EscapedByte, Escaped;
    if w == [] {
      ScanClosing(s, ie, q, acc);
    } else {
      var b, rest := w[0], w[1..];
      assert w == [b] + rest;
      EscapedHead(w);
      DropPrefix(s, q, EscapedByte(b), Escaped(rest) + [QUOTE]);
      ScanByte(s, ie, q, b, acc);
      if b != 0 && !WordFull(acc) { ScanEscaped(s, ie, q + |EscapedByte(b)|, rest, acc + [b]); }
      assert acc + [b] + rest == acc + w;
    }
  }

  lemma {:induction false} ScanQuoted(s: seq<byte>, ie: bool, p: nat, w: seq<byte>)
    requires p <= |s| && Quoted(w) <= s[p..]
    ensures Scan(s, ie, WaitVal, p, [], false) ==
      if Unreadable(w) then Bad else Found(p + |Quoted(w)| - 1, w, true)
  {
    assert Quoted(w) == [QUOTE] + (Escaped(w) + [QUOTE]);
    DropPrefix(s, p, [QUOTE], Escaped(w) + [QUOTE]);
    assert s[p] == s[p..][0] == QUOTE;
    ScanEscaped(s, ie, p + 1, w, []);
    assert [] + w == w;
  }

  /** An unquoted NULL before a comma or the end is the word NULL. */
  lemma {:induction false} ScanNull(s: seq<byte>, p: nat)
    requires p <= |s| && NULLWORD <= s[p..]
    requires p + 4 == |s| || s[p + 4] == COMMA
    ensures Scan(s, true, WaitVal, p, [], false) == Found(p + 3, NULLWORD, false)
  {
    var t := s[p..];
    assert s[p] == t[0] && s[p + 1] == t[1] && s[p + 2] == t[2] && s[p + 3] == t[3];
    calc {
      Scan(s, true, WaitVal, p, [], false);
      Scan(s, true, InVal, p + 1, [] + [s[p]], false);
      Scan(s, true, InVal, p + 2, [] + [s[p]] + [s[p + 1]], false);
      Scan(s, true, InVal, p + 3, [] + [s[p]] + [s[p + 1]] + [s[p + 2]], false);
      Scan(s, true, InVal, p + 4, [] + [s[p]] + [s[p + 1]] + [s[p + 2]] + [s[p + 3]], false);
      { assert [] + [s[p]] + [s[p + 1]] + [s[p + 2]] + [s[p + 3]] == NULLWORD; }
      Scan(s, true, InVal, p + 4, NULLWORD, false);
    }
  }

  // ---------- pairs ----------

  /** Reading the key and the arrow of a printed pair. */
  lemma {:induction false} ParseKey(s: seq<byte>, p: nat, k: seq<byte>, pairs: seq<Pair>, key: seq<byte>)
    requires p <= |s| && Quoted(k) + ARROW <= s[p..]
    ensures Parse(s, WKey, p, pairs, key) ==
      if Unreadable(k) || |pairs| >= MAX_PAIR_BUFFER then Error
      else Parse(s, WVal, p + |Quoted(k)| + 2, pairs, k)
  {
    DropPrefix(s, p, Quoted(k), ARROW);
    ScanQuoted(s, false, p, k);
    hide Scan;
    var q := p + |Quoted(k)|;
    assert s[q] == s[q..][0] == EQUALS && s[q + 1] == s[q..][1] == GREATER;
    if !Unreadable(k) && |pairs| < MAX_PAIR_BUFFER {
      assert Parse(s, WKey, p, pairs, key) == Parse(s, WEq, q, pairs, k);
      assert Parse(s, WEq, q, pairs, k) == Parse(s, WGt, q + 1, pairs, k);
      assert Parse(s, WGt, q + 1, pairs, k) == Parse(s, WVal, q + 2, pairs, k);
    }
  }

  lemma {:induction false} ScanVal(s: seq<byte>, p: nat, x: Item)
    requires p <= |s| && PrintVal(x) <= s[p..]
    requires p + |PrintVal(x)| == |s| || s[p + |PrintVal(x)|] == COMMA
    ensures Scan(s, true, WaitVal, p, [], false) ==
      if x.val.Some? && Unreadable(x.val.value) then Bad
      else Found(p + |PrintVal(x)| - 1, PairOf(x).val, x.val.Some?)
    ensures |PrintVal(x)| > 0
  {
    if x.val.None? {
      ScanNull(s, p);
    } else {
      ScanQuoted(s, true, p, x.val.value);
    }
    hide Scan;
  }

  lemma {:induction false} ParseVal(s: seq<byte>, p: nat, x: Item, pairs: seq<Pair>)
    requires p <= |s| && PrintVal(x) <= s[p..]
    requires p + |PrintVal(x)| == |s| || s[p + |PrintVal(x)|] == COMMA
    ensures Parse(s, WVal, p, pairs, x.key) ==
      if x.val.Some? && Unreadable(x.val.value) then Error
      else Parse(s, WDel, p + |PrintVal(x)|, pairs + [PairOf(x)], x.key)
  {
    hide Scan, PrintVal;
    ScanVal(s, p, x);
  }

  lemma {:induction false} ParseItem(s: seq<byte>, p: nat, x: Item, pairs: seq<Pair>, key: seq<byte>)
    requires p <= |s| && PrintItem(x) <= s[p..]
    requires p + |PrintItem(x)| == |s| || s[p + |PrintItem(x)|] == COMMA
    ensures Parse(s, WKey, p, pairs, key) ==
      if ItemUnreadable(x) || |pairs| >= MAX_PAIR_BUFFER then Error
      else Parse(s, WDel, p + |PrintItem(x)|, pairs + [PairOf(x)], x.key)
  {
    hide Quoted, Parse, PrintVal, Unreadable;
    var head := Quoted(x.key) + ARROW;
    assert PrintItem(x) == head + PrintVal(x);
    hide PrintItem;
    DropPrefix(s, p, head, PrintVal(x));
    ParseKey(s, p, x.key, pairs, key);
    if !Unreadable(x.key) {
      ParseVal(s, p + |head|, x, pairs);
    }
  }

  lemma {:induction false} ParseSeparator(s: seq<byte>, p: nat, pairs: seq<Pair>, key: seq<byte>)
    requires p <= |s| && SEPARATOR <= s[p..]
    ensures p + 2 <= |s|
    ensures Parse(s, WDel, p, pairs, key) == Parse(s, WKey, p + 2, pairs, key)
  {
  }

  /** The last printed pair ends the parse. */
  lemma {:induction false} ParseLast(s: seq<byte>, p: nat, x: Item, pairs: seq<Pair>, key: seq<byte>)
    requires p <= |s| && s[p..] == PrintItem(x)
    ensures Parse(s, WKey, p, pairs, key) ==
      if ItemUnreadable(x) || |pairs| >= MAX_PAIR_BUFFER then Error else Ok(pairs + [PairOf(x)])
  {
    hide PrintItem, ItemUnreadable, Scan;
    ParseItem(s, p, x, pairs, key);
  }

  /** Any other printed pair leads on to the next one. */
  lemma {:induction false} ParseNext(s: seq<byte>, p: nat, x: Item, tail: seq<byte>, pairs: seq<Pair>, key: seq<byte>)
    requires p <= |s| && s[p..] == PrintItem(x) + (SEPARATOR + tail)
    ensures var q := p + |PrintItem(x)| + 2;
            && q <= |s| && s[q..] == tail
            && Parse(s, WKey, p, pairs, key) ==
               if ItemUnreadable(x) || |pairs| >= MAX_PAIR_BUFFER then Error
               else Parse(s, WKey, q, pairs + [PairOf(x)], x.key)
  {
    hide PrintItem, ItemUnreadable, Parse;
    var t, q := PrintItem(x), p + |PrintItem(x)|;
    assert s[q..] == SEPARATOR + tail by {
      assert s[p..][|t|..] == s[q..];
      assert (t + (SEPARATOR + tail))[|t|..] == SEPARATOR + tail;
    }
    assert s[q..][2..] == s[q + 2..];
    assert (SEPARATOR + tail)[2..] == tail;
    assert s[q] == s[q..][0] == COMMA;
    ParseItem(s, p, x, pairs, key);
    ParseSeparator(s, q, pairs + [PairOf(x)], x.key);
  }

  /** Parsing printed text gives the printed pairs in order, and fails exactly when
      a string cannot be read back or there are too many pairs. */
  lemma {:induction false} ParsePrinted(items: seq<Item>, i: nat, s: seq<byte>, p: nat, pairs: seq<Pair>,
      key: seq<byte>)
    requires i < |items| && p <= |s| && s[p..] == PrintFrom(items, i) && |pairs| <= MAX_PAIR_BUFFER
    ensures Parse(s, WKey, p, pairs, key) ==
      if ReadableFrom(items, i) && |pairs + PairsFrom(items, i)| <= MAX_PAIR_BUFFER
      then Ok(pairs + PairsFrom(items, i)) else Error
    decreases |items| - i
  {
    hide PrintItem, ItemUnreadable, Parse, PairOf;
    var x := items[i];
    if i + 1 == |items| {
      assert s[p..] == PrintItem(x);
      ParseLast(s, p, x, pairs, key);
      assert PairsFrom(items, i) == [PairOf(x)];
    } else {
      var tail := PrintFrom(items, i + 1);
      assert s[p..] == PrintItem(x) + (SEPARATOR + tail);
      hide PrintFrom;
      ParseNext(s, p, x, tail, pairs, key);
      if !ItemUnreadable(x) && |pairs| < MAX_PAIR_BUFFER {
        ParsePrinted(items, i + 1, s, p + |PrintItem(x)| + 2, pairs + [PairOf(x)], x.key);
        assert pairs + [PairOf(x)] + PairsFrom(items, i + 1) == pairs + PairsFrom(items, i);
      }
      assert ReadableFrom(items, i) <==> !ItemUnreadable(x) && ReadableFrom(items, i + 1);
    }
  }

  lemma {:induction false} ParseOfPrint(items: seq<Item>)
    ensures Parse(Print(items), WKey, 0, [], []) ==
      if ReadableFrom(items, 0) && |items| <= MAX_PAIR_BUFFER then Ok(PairsFrom(items, 0)) else Error
  {
    var s := Print(items);
    if items == [] {
      assert Scan(s, false, WaitVal, 0, [], false) == NotFound;
    } else {
      assert s[0..] == PrintFrom(items, 0);
      ParsePrinted(items, 0, s, 0, [], []);
      assert [] + PairsFrom(items, 0) == PairsFrom(items, 0);
    }
  }

  // ---------- hstore_in ----------

  /** `m` maps exactly the keys of `ps`, each to the value of one of its pairs. */
  ghost predicate DictionaryOf(ps: seq<Pair>, m: Dictionary)
  {
    && (forall k | k in m :: HasItem(ps, Item(k, m[k])))
    && (forall j | 0 <= j < |ps| :: ps[j].key in m)
  }

  ghost predicate HasItem(ps: seq<Pair>, x: Item)
  {
    exists j :: 0 <= j < |ps| && ItemOf(ps[j]) == x
  }

  lemma {:induction false} UniqueDictionary(ps: seq<Pair>, kept: seq<Pair>)
    requires UniqueOf(ps, kept)
    ensures Sorted(ItemsOf(kept))
    ensures DictionaryOf(ps, ToMap(ItemsOf(kept)))
  {
    SortedItems(kept);
    hide KeyLess, ToMap, Sorted, StrictlyIncreasing;
    var items := ItemsOf(kept);
    var m := ToMap(items);
    forall k | k in m
      ensures exists j :: 0 <= j < |ps| && ItemOf(ps[j]) == Item(k, m[k])
    {
      ToMapKeys(items, k);
      var i :| 0 <= i < |items| && items[i].key == k;
      ToMapAt(items, i);
      assert kept[i] in ps;
      var j :| 0 <= j < |ps| && ps[j] == kept[i];
      assert ItemOf(ps[j]) == Item(k, m[k]);
    }
    forall j | 0 <= j < |ps|
      ensures ps[j].key in m
    {
      assert KeyKept(kept, ps[j].key);
      var i :| 0 <= i < |kept| && kept[i].key == ps[j].key;
      assert items[i].key == ps[j].key;
      ToMapKeys(items, ps[j].key);
    }
  }

  /** hstore_in: fails exactly when the text does not parse or the result is too
      large; otherwise the value is canonical and stands for the parsed pairs. */
  method HStoreIn(text: seq<byte>) returns (r: Result<HStore>)
    ensures Parse(text, WKey, 0, [], []).Error? ==> r.Error?
    ensures r.Ok? ==>
      && Canonical(r.value)
      && DictionaryOf(Parse(text, WKey, 0, [], []).value, Abs(r.value))
    ensures Parse(text, WKey, 0, [], []).Ok? && r.Error? ==>
      exists kept :: UniqueOf(Parse(text, WKey, 0, [], []).value, kept) && !Fits(ItemsOf(kept))
  {
    hide Parse, Canonical, Encode, Abs, DictionaryOf, UniqueOf, ItemsOf;
    var state := new HSParser(text);
    var parsed := state.ParseHStore();
    if parsed.Error? {
      return Error;
    }
    var kept, buflen := UniquePairs(parsed.value);
    BufLenChars(kept);
    UniqueDictionary(parsed.value, kept);
    r := HStoreFromPairs(kept, buflen);
    if r.Ok? {
      EncodeCanonical(ItemsOf(kept));
      assert Abs(r.value) == ToMap(ItemsOf(kept)) by { AbsOfEncode(ItemsOf(kept)); }
    }
  }

  lemma {:induction false} AbsOfEncode(items: seq<Item>)
    requires Fits(items) && Sorted(items)
    ensures Readable(Encode(items)) && Abs(Encode(items)) == ToMap(items)
  {
    EncodeCanonical(items);
    hide Sorted, Encode;
  }

  // ---------- the round trip ----------

  lemma {:induction false} DictionaryOfPrinted(items: seq<Item>, m: Dictionary)
    requires Sorted(items) && DictionaryOf(PairsFrom(items, 0), m)
    ensures m == ToMap(items)
  {
    hide Sorted, ToMap, DictionaryOf, PairsFrom;
    forall k
      ensures k in m <==> k in ToMap(items)
      ensures k in m && k in ToMap(items) ==> m[k] == ToMap(items)[k]
    {
      ToMapKeys(items, k);
      if k in m {
        var j := PrintedSource(items, m, k);
        ToMapAt(items, j);
      }
      PrintedKeys(items, m);
    }
  }

  lemma {:induction false} PrintedSource(items: seq<Item>, m: Dictionary, k: seq<byte>) returns (j: nat)
    requires DictionaryOf(PairsFrom(items, 0), m) && k in m
    ensures j < |items| && items[j] == Item(k, m[k])
  {
    hide HasItem, PairsFrom;
    j := ItemIndex(PairsFrom(items, 0), Item(k, m[k]));
    assert PairsFrom(items, 0)[j] == PairOf(items[0 + j]);
  }

  lemma {:induction false} ItemIndex(ps: seq<Pair>, x: Item) returns (j: nat)
    requires HasItem(ps, x)
    ensures j < |ps| && ItemOf(ps[j]) == x
  {
    j :| 0 <= j < |ps| && ItemOf(ps[j]) == x;
  }

  lemma {:induction false} PrintedKeys(items: seq<Item>, m: Dictionary)
    requires DictionaryOf(PairsFrom(items, 0), m)
    ensures forall i | 0 <= i < |items| :: items[i].key in m
  {
    hide HasItem, PairsFrom;
    var ps := PairsFrom(items, 0);
    forall i | 0 <= i < |items|
      ensures items[i].key in m
    {
      assert ps[i] == PairOf(items[0 + i]);
    }
  }

  lemma {:induction false} PrintedPairsFit(items: seq<Item>, kept: seq<Pair>)
    requires Sorted(items) && UniqueOf(PairsFrom(items, 0), kept)
    ensures ItemsOf(kept) == items
  {
    UniqueDictionary(PairsFrom(items, 0), kept);
    DictionaryOfPrinted(items, ToMap(ItemsOf(kept)));
    ToMapInjective(items, ItemsOf(kept));
  }

  lemma {:induction false} EstimateIncludes(items: seq<Item>, i: nat, n: nat)
    requires i < n <= |items|
    ensures ItemEstimate(items[i]) <= EstimateTo(items, n)
  {
    if i + 1 < n { EstimateIncludes(items, i, n - 1); }
  }

  /** In a text that can be printed no word is too long to be read back. */
  lemma {:induction false} PrintableIsShort(items: seq<Item>)
    requires Estimate(items) <= MAX_ALLOC_SIZE
    ensures ReadableFrom(items, 0) <==> NoNulFrom(items, 0)
  {
    hide EstimateTo;
    forall j | 0 <= j < |items|
      ensures ItemUnreadable(items[j]) <==> ItemHasNul(items[j])
    {
      EstimateIncludes(items, j, |items|);
    }
  }

  /** For every canonical hstore the text is read back as the identical value; the
      round trip fails exactly when the text is too long to print, a string holds
      a NUL byte, or there are more pairs than the parser's array can grow to. */
  method OutThenIn(hs: HStore) returns (r: Result<HStore>)
    requires Canonical(hs)
    ensures r ==
      if Estimate(Decode(hs)) <= MAX_ALLOC_SIZE && NoNulFrom(Decode(hs), 0) && hs.count <= MAX_PAIR_BUFFER
      then Ok(hs) else Error
  {
    ghost var items := Decode(hs);
    DecodeEncode(hs);
    hide Canonical, Sorted, Fits, Print, Estimate, NoNulFrom, ReadableFrom, Encode, UniqueOf;
    var text := HStoreOut(hs);
    if text.Error? {
      return Error;
    }
    PrintableIsShort(items);
    ParseOfPrint(items);
    r := HStoreIn(text.value);
    if NoNulFrom(items, 0) && hs.count <= MAX_PAIR_BUFFER {
      forall kept | UniqueOf(PairsFrom(items, 0), kept)
        ensures Fits(ItemsOf(kept))
      {
        PrintedPairsFit(items, kept);
      }
      assert r.Ok?;
      DictionaryOfPrinted(items, Abs(r.value));
      AbsDetermines(r.value, hs);
    }
  }

  // ---------- values with too many pairs ----------

  /** Four digits to base 128, none of them a NUL. */
  function NumberKey(i: nat): seq<byte>
    requires i < 0x1000_0000
  {
    var q1 := i / 128;
    var q2 := q1 / 128;
    [q2 / 128 + 1, q2 % 128 + 1, q1 % 128 + 1, i % 128 + 1]
  }

  function Numbered(n: nat): (items: seq<Item>)
    requires n <= 0x1000_0000
    ensures |items| == n && forall i | 0 <= i < n :: items[i] == Item(NumberKey(i), None)
  {
    seq(n, i requires 0 <= i < n => Item(NumberKey(i), None))
  }

  lemma {:induction false} LexTail(a: seq<byte>, b: seq<byte>)
    requires a != [] && b != []
    ensures a[0] < b[0] ==> Lex(a, b) < 0
    ensures a[0] == b[0] ==> Lex(a, b) == Lex(a[1..], b[1..])
  {
  }

  lemma {:induction false} LexFour(a: seq<byte>, b: seq<byte>)
    requires |a| == |b| == 4
    requires a[0] < b[0] || (a[0] == b[0] && (a[1] < b[1] || (a[1] == b[1] &&
             (a[2] < b[2] || (a[2] == b[2] && a[3] < b[3])))))
    ensures Lex(a, b) < 0
  {
    hide Lex;
    LexTail(a, b);
    LexTail(a[1..], b[1..]);
    LexTail(a[2..], b[2..]);
    LexTail(a[3..], b[3..]);
  }

  lemma {:induction false} Digit(i: nat, j: nat)
    requires i <= j
    ensures i / 128 < j / 128 || (i / 128 == j / 128 && i % 128 <= j % 128)
    ensures i < j && i / 128 == j / 128 ==> i % 128 < j % 128
  {
  }

  lemma {:induction false} NumberKeysInOrder(i: nat, j: nat)
    requires i < j < 0x1000_0000
    ensures KeyLess(NumberKey(i), NumberKey(j))
  {
    hide Lex;
    Digit(i, j);
    Digit(i / 128, j / 128);
    Digit(i / 128 / 128, j / 128 / 128);
    LexFour(NumberKey(i), NumberKey(j));
  }

  lemma {:induction false} NumberedSorted(n: nat)
    requires n <= 0x1000_0000
    ensures Sorted(Numbered(n)) && NoNulFrom(Numbered(n), 0)
  {
    hide NumberKey, Numbered, KeyLess;
    var items := Numbered(n);
    forall i, j | 0 <= i < j < n
      ensures KeyLess(items[i].key, items[j].key)
    {
      NumberKeysInOrder(i, j);
    }
    forall i | 0 <= i < n
      ensures !ItemHasNul(items[i])
    {
      NumberWord(i);
    }
  }

  lemma {:induction false} NumberWord(i: nat)
    requires i < 0x1000_0000
    ensures 0 !in NumberKey(i) && |NumberKey(i)| == 4
  {
  }

  lemma {:induction false} NumberedSize(n: nat, i: nat)
    requires i <= n <= 0x1000_0000
    ensures EstimateTo(Numbered(n), i) == 18 * i && |Chars(Numbered(n)[..i])| == 4 * i
  {
    hide NumberKey, Numbered, Chars;
    var items := Numbered(n);
    if i == 0 {
      assert items[..0] == [] && Chars([]) == [] by { CharsNothing(); }
    } else {
      NumberedSize(n, i - 1);
      CharsStep(items, i - 1);
      NumberWord(i - 1);
      assert items[i - 1] == Item(NumberKey(i - 1), None);
    }
  }

  lemma {:induction false} CharsNothing()
    ensures Chars([]) == []
  {
  }

  /** There are canonical values of every number of pairs up to 59 million whose text
      can be printed and holds no NUL; those of more than 2^24 pairs are not read back. */
  lemma {:induction false} PrintableOfAnyCount(n: nat)
    requires 18 * n <= MAX_ALLOC_SIZE
    ensures var hs := Encode(Numbered(n));
            && Canonical(hs) && hs.count == n && Decode(hs) == Numbered(n)
            && Estimate(Decode(hs)) <= MAX_ALLOC_SIZE && NoNulFrom(Decode(hs), 0)
  {
    hide NumberKey, Numbered, Encode, Sorted, Chars, Canonical, Decode, NoNulFrom, EstimateTo;
    var items := Numbered(n);
    NumberedSize(n, n);
    assert items[..n] == items;
    NumberedSorted(n);
    EncodeCanonical(items);
  }
}
