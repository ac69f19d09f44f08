/** The text format of hstore, stated apart from the parser: words, quoted or bare,
    blanks, arrows and commas. Whatever follows the grammar is read as what it
    stands for, and nothing else is accepted. */
module HStoreGrammar {
  import opened Bytes
  import opened HStorePairs
  import opened HStoreParse

  // ---------- words ----------

  /** One byte of a word, as it is or behind a backslash. */
  datatype Unit = Plain(b: byte) | Backslash(b: byte)

  function RawUnit(u: Unit): (r: seq<byte>)
    ensures 1 <= |r| <= 2
  {
    if u.Plain? then [u.b] else [ESCAPE, u.b]
  }

  function Raw(us: seq<Unit>): seq<byte>
  {
    if us == [] then [] else RawUnit(us[0]) + Raw(us[1..])
  }

  /** The word that is meant. */
  function Meant(us: seq<Unit>): (w: seq<byte>)
    ensures |w| == |us| && forall i | 0 <= i < |us| :: w[i] == us[i].b
  {
    seq(|us|, i requires 0 <= i < |us| => us[i].b)
  }

  predicate Blank(b: byte) { b in {32, 9, 10, 13, 12} }

  predicate Blanks(s: seq<byte>) { forall i | 0 <= i < |s| :: Blank(s[i]) }

  /** What ends a bare key, and a bare value. */
  function Ender(value: bool): byte { if value then 44 else 61 }

  predicate QuotedUnit(u: Unit) { u.b != 0 && (u.Plain? ==> u.b != 34 && u.b != 92) }

  predicate BareUnit(u: Unit, value: bool)
  {
    u.b != 0 && (u.Plain? ==> u.b != 92 && !Blank(u.b) && u.b != Ender(value))
  }

  /** A bare word begins with no quote; a value may begin with a comma. */
  predicate FirstUnit(u: Unit, value: bool)
  {
    u.b != 0 && (u.Plain? ==> u.b != 92 && !Blank(u.b) && u.b != 34 && (!value ==> u.b != 61))
  }

  datatype Token = Quoted(us: seq<Unit>) | Bare(us: seq<Unit>)

  predicate TokenOk(t: Token, value: bool)
  {
    match t
    case Quoted(us) => forall i | 0 <= i < |us| :: QuotedUnit(us[i])
    case Bare(us) => us != [] && FirstUnit(us[0], value) && forall i | 1 <= i < |us| :: BareUnit(us[i], value)
  }

  function TokenText(t: Token): seq<byte>
  {
    if t.Quoted? then [34] + Raw(t.us) + [34] else Raw(t.us)
  }

  /** What may follow a bare word at position `e`. */
  predicate Ends(s: seq<byte>, e: nat, value: bool)
  {
    e >= |s| || s[e] == 0 || Blank(s[e]) || s[e] == Ender(value)
  }

  /** Where reading goes on behind a token that ends before `e`: one blank behind a
      bare word is taken with it. */
  function Behind(s: seq<byte>, t: Token, e: nat): nat
  {
    if t.Bare? && e < |s| && Blank(s[e]) then e + 1 else e
  }

  lemma {:induction false} BlankIsSpace(b: byte)
    ensures IsSpace(b) <==> Blank(b)
  {
  }

  lemma {:induction false} RawHead(us: seq<Unit>)
    requires us != []
    ensures Raw(us) == RawUnit(us[0]) + Raw(us[1..]) && |Raw(us)| == |RawUnit(us[0])| + |Raw(us[1..])|
    ensures Meant(us) == [us[0].b] + Meant(us[1..])
  {
  }

  lemma {:induction false} PrefixParts(s: seq<byte>, p: nat, a: seq<byte>, b: seq<byte>)
    requires p <= |s| && a + b <= s[p..]
    ensures p + |a| + |b| <= |s| && a <= s[p..] && b <= s[p + |a|..]
    ensures forall i | 0 <= i < |a| :: s[p + i] == a[i]
  {
    assert forall i | 0 <= i < |a| :: s[p + i] == s[p..][i] == (a + b)[i];
  }

  // ---------- words are read ----------

  lemma {:induction false} QuotedStep(s: seq<byte>, ie: bool, q: nat, u: Unit, acc: seq<byte>)
    requires 0 < q && q + |RawUnit(u)| <= |s| && QuotedUnit(u) && s[q] == RawUnit(u)[0]
    requires u.Backslash? ==> s[q + 1] == u.b
    ensures Scan(s, ie, InEscVal, q, acc, true) ==
      if WordFull(acc) then Bad else Scan(s, ie, InEscVal, q + |RawUnit(u)|, acc + [u.b], true)
  {
  }

  lemma {:induction false} BareStep(s: seq<byte>, ie: bool, q: nat, u: Unit, acc: seq<byte>)
    requires 0 < q && q + |RawUnit(u)| <= |s| && BareUnit(u, ie) && s[q] == RawUnit(u)[0]
    requires u.Backslash? ==> s[q + 1] == u.b
    ensures Scan(s, ie, InVal, q, acc, false) ==
      if WordFull(acc) then Bad else Scan(s, ie, InVal, q + |RawUnit(u)|, acc + [u.b], false)
  {
  }

  lemma {:induction false} FirstStep(s: seq<byte>, ie: bool, q: nat, u: Unit)
    requires q + |RawUnit(u)| <= |s| && FirstUnit(u, ie) && s[q] == RawUnit(u)[0]
    requires u.Backslash? ==> s[q + 1] == u.b
    ensures Scan(s, ie, WaitVal, q, [], false) == Scan(s, ie, InVal, q + |RawUnit(u)|, [] + [u.b], false)
  {
  }

  /** Reading the units of a quoted word. */
  lemma {:induction false} QuotedRead(s: seq<byte>, ie: bool, q: nat, us: seq<Unit>, acc: seq<byte>)
    requires 0 < q <= |s| && Raw(us) + [34] <= s[q..] && |acc| < MAX_WORD_BUFFER
    requires forall i | 0 <= i < |us| :: QuotedUnit(us[i])
    ensures Scan(s, ie, InEscVal, q, acc, true) ==
      if |acc + Meant(us)| >= MAX_WORD_BUFFER then Bad else Found(q + |Raw(us)|, acc + Meant(us), true)
    decreases |us|
  {
    hide Scan, Raw, RawUnit, QuotedUnit, Meant;
    if us == [] {
      ClosingQuote(s, ie, q, acc);
    } else {
      var u, rest := us[0], us[1..];
      RawHead(us);
      assert Raw(us) + [34] == RawUnit(u) + (Raw(rest) + [34]);
      PrefixParts(s, q, RawUnit(u), Raw(rest) + [34]);
      UnitBytes(s, q, u);
      QuotedStep(s, ie, q, u, acc);
      if !WordFull(acc) { QuotedRead(s, ie, q + |RawUnit(u)|, rest, acc + [u.b]); }
      assert acc + [u.b] + Meant(rest) == acc + Meant(us);
    }
  }

  lemma {:induction false} ClosingQuote(s: seq<byte>, ie: bool, q: nat, acc: seq<byte>)
    requires 0 < q <= |s| && Raw([]) + [34] <= s[q..]
    ensures Scan(s, ie, InEscVal, q, acc, true) == Found(q + |Raw([])|, acc + Meant([]), true)
  {
    assert s[q] == s[q..][0];
  }

  lemma {:induction false} UnitBytes(s: seq<byte>, q: nat, u: Unit)
    requires q + |RawUnit(u)| <= |s| && forall i | 0 <= i < |RawUnit(u)| :: s[q + i] == RawUnit(u)[i]
    ensures s[q] == RawUnit(u)[0] && (u.Backslash? ==> |RawUnit(u)| == 2 && s[q + 1] == u.b)
  {
    assert s[q + 0] == RawUnit(u)[0];
    if u.Backslash? { assert s[q + 1] == RawUnit(u)[1]; }
  }

  /** Reading the further units of a bare word, up to what ends it. */
  lemma {:induction false} BareRead(s: seq<byte>, ie: bool, q: nat, us: seq<Unit>, acc: seq<byte>)
    requires 0 < q <= |s| && Raw(us) <= s[q..] && Ends(s, q + |Raw(us)|, ie) && |acc| < MAX_WORD_BUFFER
    requires forall i | 0 <= i < |us| :: BareUnit(us[i], ie)
    ensures var e := q + |Raw(us)|;
            Scan(s, ie, InVal, q, acc, false) ==
              if |acc + Meant(us)| >= MAX_WORD_BUFFER then Bad
              else Found(if e < |s| && Blank(s[e]) then e else e - 1, acc + Meant(us), false)
    decreases |us|
  {
    hide Scan, Raw, RawUnit, BareUnit, Meant, Ends;
    if us == [] {
      BareEnd(s, ie, q, acc);
    } else {
      var u, rest := us[0], us[1..];
      RawHead(us);
      PrefixParts(s, q, RawUnit(u), Raw(rest));
      UnitBytes(s, q, u);
      BareStep(s, ie, q, u, acc);
      if !WordFull(acc) { BareRead(s, ie, q + |RawUnit(u)|, rest, acc + [u.b]); }
      assert acc + [u.b] + Meant(rest) == acc + Meant(us);
    }
  }

  lemma {:induction false} BareEnd(s: seq<byte>, ie: bool, q: nat, acc: seq<byte>)
    requires 0 < q <= |s| && Ends(s, q + |Raw([])|, ie)
    ensures Scan(s, ie, InVal, q, acc, false) ==
      Found(if q + |Raw([])| < |s| && Blank(s[q + |Raw([])|]) then q + |Raw([])| else q + |Raw([])| - 1,
            acc + Meant([]), false)
  {
    assert acc + Meant([]) == acc;
  }

  lemma {:induction false} SkipBlanks(s: seq<byte>, ie: bool, p: nat, bs: seq<byte>)
    requires p <= |s| && bs <= s[p..] && Blanks(bs)
    ensures Scan(s, ie, WaitVal, p, [], false) == Scan(s, ie, WaitVal, p + |bs|, [], false)
    decreases |bs|
  {
    if bs != [] {
      assert s[p] == s[p..][0] == bs[0] && Blank(bs[0]);
      assert bs[1..] <= s[p + 1..];
      SkipBlanks(s, ie, p + 1, bs[1..]);
    }
  }

  /** A token is read as the word it means, and told to be quoted or not. */
  lemma {:induction false} TokenRead(s: seq<byte>, value: bool, p: nat, t: Token)
    requires p <= |s| && TokenOk(t, value) && TokenText(t) <= s[p..]
    requires t.Bare? ==> Ends(s, p + |TokenText(t)|, value)
    ensures |TokenText(t)| > 0
    ensures Scan(s, value, WaitVal, p, [], false) ==
      if |t.us| >= MAX_WORD_BUFFER then Bad
      else Found(Behind(s, t, p + |TokenText(t)|) - 1, Meant(t.us), t.Quoted?)
  {
    hide Scan, Raw, RawUnit, QuotedUnit, BareUnit, FirstUnit, Meant, Ends, Blank;
    if t.Quoted? {
      assert TokenText(t) == [34] + (Raw(t.us) + [34]);
      PrefixParts(s, p, [34], Raw(t.us) + [34]);
      OpeningQuote(s, value, p);
      QuotedRead(s, value, p + 1, t.us, []);
      assert [] + Meant(t.us) == Meant(t.us);
    } else {
      var u, rest := t.us[0], t.us[1..];
      RawHead(t.us);
      PrefixParts(s, p, RawUnit(u), Raw(rest));
      UnitBytes(s, p, u);
      FirstStep(s, value, p, u);
      BareRead(s, value, p + |RawUnit(u)|, rest, [] + [u.b]);
      assert [] + [u.b] + Meant(rest) == Meant(t.us);
    }
  }

  lemma {:induction false} OpeningQuote(s: seq<byte>, ie: bool, p: nat)
    requires p < |s| && s[p] == 34
    ensures Scan(s, ie, WaitVal, p, [], false) == Scan(s, ie, InEscVal, p + 1, [], true)
  {
  }

  // ---------- pairs ----------

  /** A pair as written: blanks, key, blanks, arrow, blanks, value, blanks. */
  datatype Written = Written(a: seq<byte>, key: Token, b: seq<byte>, c: seq<byte>, val: Token, d: seq<byte>)

  predicate WrittenOk(w: Written)
  {
    && Blanks(w.a) && Blanks(w.b) && Blanks(w.c) && Blanks(w.d)
    && TokenOk(w.key, false) && TokenOk(w.val, true)
  }

  const ARROW_TEXT: seq<byte> := [61, 62]

  function KeyPart(w: Written): seq<byte> { w.a + TokenText(w.key) + w.b + ARROW_TEXT }

  function ValPart(w: Written): seq<byte> { w.c + TokenText(w.val) + w.d }

  function WrittenText(w: Written): seq<byte> { KeyPart(w) + ValPart(w) }

  /** The letters of "null", in either case. */
  predicate SaysNull(w: seq<byte>)
  {
    |w| == 4 && w[0] in {110, 78} && w[1] in {117, 85} && w[2] in {108, 76} && w[3] in {108, 76}
  }

  /** What a written pair stands for: null for a bare word that says so. */
  function PairMeant(w: Written): Pair
  {
    Pair(Meant(w.key.us), Meant(w.val.us), w.val.Bare? && SaysNull(Meant(w.val.us)), true)
  }

  predicate WordsFit(w: Written) { |w.key.us| < MAX_WORD_BUFFER && |w.val.us| < MAX_WORD_BUFFER }

  lemma {:induction false} NullWord(w: seq<byte>)
    ensures IsNullWord(w) <==> SaysNull(w)
  {
  }

  lemma {:induction false} SkipToArrow(s: seq<byte>, p: nat, bs: seq<byte>, pairs: seq<Pair>, key: seq<byte>)
    requires p <= |s| && bs + ARROW_TEXT <= s[p..] && Blanks(bs)
    ensures Parse(s, WEq, p, pairs, key) == Parse(s, WVal, p + |bs| + 2, pairs, key)
    decreases |bs|
  {
    hide Scan;
    var t := bs + ARROW_TEXT;
    if bs == [] {
      assert s[p] == s[p..][0] == t[0] == EQUALS && s[p + 1] == s[p..][1] == t[1] == GREATER;
      assert Parse(s, WEq, p, pairs, key) == Parse(s, WGt, p + 1, pairs, key);
    } else {
      assert s[p] == s[p..][0] == t[0] == bs[0] && Blank(bs[0]);
      assert t[1..] == bs[1..] + ARROW_TEXT && t[1..] <= s[p + 1..];
      SkipToArrow(s, p + 1, bs[1..], pairs, key);
    }
  }

  lemma {:induction false} SkipBehind(s: seq<byte>, p: nat, bs: seq<byte>, pairs: seq<Pair>, key: seq<byte>)
    requires p <= |s| && bs <= s[p..] && Blanks(bs)
    ensures Parse(s, WDel, p, pairs, key) == Parse(s, WDel, p + |bs|, pairs, key)
    decreases |bs|
  {
    hide Scan;
    if bs != [] {
      assert s[p] == s[p..][0] == bs[0] && Blank(bs[0]);
      assert bs[1..] <= s[p + 1..];
      SkipBehind(s, p + 1, bs[1..], pairs, key);
    }
  }

  lemma {:induction false} KeyStep(s: seq<byte>, p: nat, pairs: seq<Pair>, key: seq<byte>)
    requires p <= |s|
    ensures var r := Scan(s, false, WaitVal, p, [], false);
            Parse(s, WKey, p, pairs, key) ==
              match r
              case NotFound => Ok(pairs)
              case Bad => Error
              case Found(q, word, _) =>
                if |pairs| >= MAX_PAIR_BUFFER || |word| > MAX_WORD_LEN then Error else Parse(s, WEq, q + 1, pairs, word)
  {
    hide Scan;
  }

  lemma {:induction false} ValStep(s: seq<byte>, p: nat, pairs: seq<Pair>, key: seq<byte>)
    requires p <= |s|
    ensures var r := Scan(s, true, WaitVal, p, [], false);
            Parse(s, WVal, p, pairs, key) ==
              match r
              case NotFound => Error
              case Bad => Error
              case Found(q, word, escaped) =>
                if |word| > MAX_WORD_LEN then Error
                else Parse(s, WDel, q + 1, pairs + [MakePair(key, word, escaped)], key)
  {
    hide Scan;
  }

  /** Blanks, then a token: the scanner finds the token. */
  lemma {:induction false} TokenBehindBlanks(s: seq<byte>, value: bool, p: nat, bs: seq<byte>, t: Token,
      tail: seq<byte>)
    requires p <= |s| && Blanks(bs) && TokenOk(t, value) && bs + (TokenText(t) + tail) <= s[p..]
    requires t.Bare? ==> Ends(s, p + |bs| + |TokenText(t)|, value)
    ensures var e := p + |bs| + |TokenText(t)|;
            && |TokenText(t)| > 0 && e <= |s| && tail <= s[e..]
            && Scan(s, value, WaitVal, p, [], false) ==
               if |t.us| >= MAX_WORD_BUFFER then Bad else Found(Behind(s, t, e) - 1, Meant(t.us), t.Quoted?)
  {
    hide Scan, TokenText, TokenOk, Meant, Blanks, Ends, Behind;
    PrefixParts(s, p, bs, TokenText(t) + tail);
    SkipBlanks(s, value, p, bs);
    PrefixParts(s, p + |bs|, TokenText(t), tail);
    TokenRead(s, value, p + |bs|, t);
  }

  lemma {:induction false} ArrowBehind(s: seq<byte>, t: Token, e: nat, bs: seq<byte>, pairs: seq<Pair>, key: seq<byte>)
    requires e <= |s| && Blanks(bs) && bs + ARROW_TEXT <= s[e..]
    ensures e <= Behind(s, t, e) <= |s|
    ensures Parse(s, WEq, Behind(s, t, e), pairs, key) == Parse(s, WVal, e + |bs| + 2, pairs, key)
  {
    hide Parse, Blank;
    ArrowFollows(s, e, bs);
    if Behind(s, t, e) == e {
      SkipToArrow(s, e, bs, pairs, key);
    } else {
      BlankTaken(s, e, bs, ARROW_TEXT);
      SkipToArrow(s, e + 1, bs[1..], pairs, key);
    }
  }

  lemma {:induction false} BlanksBehind(s: seq<byte>, t: Token, e: nat, bs: seq<byte>, pairs: seq<Pair>, key: seq<byte>)
    requires e <= |s| && Blanks(bs) && bs <= s[e..] && (e + |bs| == |s| || s[e + |bs|] == COMMA)
    ensures e <= Behind(s, t, e) <= |s|
    ensures Parse(s, WDel, Behind(s, t, e), pairs, key) == Parse(s, WDel, e + |bs|, pairs, key)
  {
    hide Parse, Blank;
    ValueEnds(s, e, bs);
    if Behind(s, t, e) == e {
      SkipBehind(s, e, bs, pairs, key);
    } else {
      assert bs + [] == bs;
      BlankTaken(s, e, bs, []);
      SkipBehind(s, e + 1, bs[1..], pairs, key);
    }
  }

  /** Reading a key and its arrow, with blanks wherever they may be. */
  lemma {:induction false} KeyRead(s: seq<byte>, p: nat, w: Written, pairs: seq<Pair>, key: seq<byte>)
    requires p <= |s| && WrittenOk(w) && KeyPart(w) <= s[p..]
    ensures Parse(s, WKey, p, pairs, key) ==
      if |w.key.us| >= MAX_WORD_BUFFER || |pairs| >= MAX_PAIR_BUFFER then Error
      else Parse(s, WVal, p + |KeyPart(w)|, pairs, Meant(w.key.us))
  {
    hide Scan, TokenText, TokenOk, Meant, Blanks, Parse, Ends, Behind;
    var k, tail := TokenText(w.key), w.b + ARROW_TEXT;
    var e := p + |w.a| + |k|;
    assert KeyPart(w) == w.a + (k + tail);
    PrefixParts(s, p, w.a, k + tail);
    PrefixParts(s, p + |w.a|, k, tail);
    ArrowFollows(s, e, w.b);
    TokenBehindBlanks(s, false, p, w.a, w.key, tail);
    KeyStep(s, p, pairs, key);
    ArrowBehind(s, w.key, e, w.b, pairs, Meant(w.key.us));
  }

  /** Behind a key come a blank or the arrow, which both end it. */
  lemma {:induction false} ArrowFollows(s: seq<byte>, e: nat, bs: seq<byte>)
    requires e <= |s| && Blanks(bs) && bs + ARROW_TEXT <= s[e..]
    ensures Ends(s, e, false) && e < |s| && (Blank(s[e]) <==> bs != [])
  {
    assert s[e] == s[e..][0] == (bs + ARROW_TEXT)[0];
  }

  lemma {:induction false} BlankTaken(s: seq<byte>, e: nat, bs: seq<byte>, tail: seq<byte>)
    requires e < |s| && Blanks(bs) && bs != [] && bs + tail <= s[e..]
    ensures Blanks(bs[1..]) && bs[1..] + tail <= s[e + 1..]
  {
    assert (bs + tail)[1..] == bs[1..] + tail;
    assert s[e..][1..] == s[e + 1..];
  }

  /** Reading a value, up to the comma or the end behind it. */
  lemma {:induction false} ValRead(s: seq<byte>, p: nat, w: Written, pairs: seq<Pair>)
    requires p <= |s| && WrittenOk(w) && ValPart(w) <= s[p..]
    requires var e := p + |ValPart(w)|; e == |s| || s[e] == COMMA
    ensures Parse(s, WVal, p, pairs, Meant(w.key.us)) ==
      if |w.val.us| >= MAX_WORD_BUFFER then Error
      else Parse(s, WDel, p + |ValPart(w)|, pairs + [PairMeant(w)], Meant(w.key.us))
  {
    hide Scan, TokenText, TokenOk, Meant, Blanks, SaysNull, IsNullWord, Parse, Ends, Behind;
    var v := TokenText(w.val);
    var e := p + |w.c| + |v|;
    assert ValPart(w) == w.c + (v + w.d);
    PrefixParts(s, p, w.c, v + w.d);
    PrefixParts(s, p + |w.c|, v, w.d);
    ValueEnds(s, e, w.d);
    TokenBehindBlanks(s, true, p, w.c, w.val, w.d);
    ValStep(s, p, pairs, Meant(w.key.us));
    NullWord(Meant(w.val.us));
    BlanksBehind(s, w.val, e, w.d, pairs + [PairMeant(w)], Meant(w.key.us));
  }

  lemma {:induction false} ValueEnds(s: seq<byte>, e: nat, bs: seq<byte>)
    requires e <= |s| && Blanks(bs) && bs <= s[e..] && (e + |bs| == |s| || s[e + |bs|] == COMMA)
    ensures Ends(s, e, true) && (e < |s| && Blank(s[e]) <==> bs != [])
  {
    if bs != [] { assert s[e] == s[e..][0] == bs[0]; }
  }

  // ---------- whole texts ----------

  /** Pairs with commas between them; a last comma may be followed by blanks only. */
  datatype Document = Empty(blanks: seq<byte>) | Last(w: Written) | More(w: Written, rest: Document)

  predicate DocumentOk(d: Document)
  {
    match d
    case Empty(bs) => Blanks(bs)
    case Last(w) => WrittenOk(w)
    case More(w, rest) => WrittenOk(w) && DocumentOk(rest)
  }

  function DocumentText(d: Document): seq<byte>
  {
    match d
    case Empty(bs) => bs
    case Last(w) => WrittenText(w)
    case More(w, rest) => WrittenText(w) + ([44] + DocumentText(rest))
  }

  function DocumentPairs(d: Document): seq<Pair>
  {
    match d
    case Empty(_) => []
    case Last(w) => [PairMeant(w)]
    case More(w, rest) => [PairMeant(w)] + DocumentPairs(rest)
  }

  predicate AllFit(d: Document)
  {
    match d
    case Empty(_) => true
    case Last(w) => WordsFit(w)
    case More(w, rest) => WordsFit(w) && AllFit(rest)
  }

  lemma {:induction false} BlankRest(s: seq<byte>, p: nat, pairs: seq<Pair>, key: seq<byte>)
    requires p <= |s| && Blanks(s[p..])
    ensures Parse(s, WKey, p, pairs, key) == Ok(pairs)
  {
    hide Blank;
    SkipBlanks(s, false, p, s[p..]);
    assert p + |s[p..]| == |s|;
  }

  lemma {:induction false} WrittenRead(s: seq<byte>, p: nat, w: Written, pairs: seq<Pair>, key: seq<byte>)
    requires p <= |s| && WrittenOk(w) && WrittenText(w) <= s[p..]
    requires var e := p + |WrittenText(w)|; e == |s| || s[e] == COMMA
    ensures Parse(s, WKey, p, pairs, key) ==
      if !WordsFit(w) || |pairs| >= MAX_PAIR_BUFFER then Error
      else Parse(s, WDel, p + |WrittenText(w)|, pairs + [PairMeant(w)], Meant(w.key.us))
  {
    hide Parse, KeyPart, ValPart, WrittenOk, Meant, PairMeant;
    PrefixParts(s, p, KeyPart(w), ValPart(w));
    KeyRead(s, p, w, pairs, key);
    if |w.key.us| < MAX_WORD_BUFFER && |pairs| < MAX_PAIR_BUFFER {
      ValRead(s, p + |KeyPart(w)|, w, pairs);
    }
  }

  lemma {:induction false} EndRead(s: seq<byte>, pairs: seq<Pair>, key: seq<byte>)
    ensures Parse(s, WDel, |s|, pairs, key) == Ok(pairs)
  {
  }

  lemma {:induction false} CommaRead(s: seq<byte>, p: nat, pairs: seq<Pair>, key: seq<byte>)
    requires p < |s| && s[p] == COMMA
    ensures Parse(s, WDel, p, pairs, key) == Parse(s, WKey, p + 1, pairs, key)
  {
  }

  lemma {:induction false} CommaFollows(s: seq<byte>, p: nat, t: seq<byte>, rest: seq<byte>)
    requires p <= |s| && s[p..] == t + ([44] + rest)
    ensures var q := p + |t|; q < |s| && t <= s[p..] && s[q] == COMMA && s[q + 1..] == rest
  {
    var q, u := p + |t|, t + ([44] + rest);
    assert s[q] == s[p..][|t|] == u[|t|] == 44;
    assert s[q + 1..] == s[p..][|t| + 1..] == u[|t| + 1..] == rest;
  }

  /** Every text of the format is read as the pairs it stands for, unless a word or
      the array of pairs outgrows what can be allocated. */
  lemma {:induction false} DocumentRead(s: seq<byte>, p: nat, d: Document, pairs: seq<Pair>, key: seq<byte>)
    requires p <= |s| && DocumentOk(d) && s[p..] == DocumentText(d) && |pairs| <= MAX_PAIR_BUFFER
    ensures Parse(s, WKey, p, pairs, key) ==
      if AllFit(d) && |pairs + DocumentPairs(d)| <= MAX_PAIR_BUFFER then Ok(pairs + DocumentPairs(d)) else Error
    decreases d
  {
    hide Parse, WrittenText, WrittenOk, PairMeant, WordsFit, Blanks, Meant;
    match d
    case Empty(bs) =>
      BlankRest(s, p, pairs, key);
      assert pairs + [] == pairs;
    case Last(w) =>
      WrittenRead(s, p, w, pairs, key);
      EndRead(s, pairs + [PairMeant(w)], Meant(w.key.us));
    case More(w, rest) =>
      var q := p + |WrittenText(w)|;
      CommaFollows(s, p, WrittenText(w), DocumentText(rest));
      WrittenRead(s, p, w, pairs, key);
      if WordsFit(w) && |pairs| < MAX_PAIR_BUFFER {
        CommaRead(s, q, pairs + [PairMeant(w)], Meant(w.key.us));
        DocumentRead(s, q + 1, rest, pairs + [PairMeant(w)], Meant(w.key.us));
        assert pairs + [PairMeant(w)] + DocumentPairs(rest) == pairs + DocumentPairs(d);
      }
  }

  // ---------- nothing else is accepted ----------

  /** A C string holds no NUL. */
  predicate NoNul(s: seq<byte>) { forall i | 0 <= i < |s| :: s[i] != 0 }

  lemma {:induction false} Join(s: seq<byte>, a: nat, b: nat, c: nat)
    requires a <= b <= c <= |s|
    ensures s[a..b] + s[b..c] == s[a..c]
  {
  }

  lemma {:induction false} RawCons(u: Unit, us: seq<Unit>)
    ensures Raw([u] + us) == RawUnit(u) + Raw(us) && Meant([u] + us) == [u.b] + Meant(us)
  {
    hide Raw, RawUnit, Meant;
    var all := [u] + us;
    assert all[0] == u && all[1..] == us;
    RawHead(all);
  }

  /** The units of a bare word from position `q` on, up to what ends it at `e`. */
  predicate BareFrom(s: seq<byte>, ie: bool, q: nat, us: seq<Unit>, e: nat)
  {
    && q <= e <= |s| && s[q..e] == Raw(us) && Ends(s, e, ie)
    && forall i | 0 <= i < |us| :: BareUnit(us[i], ie)
  }

  lemma {:induction false} BareFromCons(s: seq<byte>, ie: bool, q: nat, u: Unit, us: seq<Unit>, e: nat)
    requires q + |RawUnit(u)| <= |s| && s[q..q + |RawUnit(u)|] == RawUnit(u) && BareUnit(u, ie)
    requires BareFrom(s, ie, q + |RawUnit(u)|, us, e)
    ensures BareFrom(s, ie, q, [u] + us, e)
  {
    hide RawUnit, Raw, BareUnit, Ends;
    RawCons(u, us);
    Join(s, q, q + |RawUnit(u)|, e);
  }

  /** One turn of the scanner inside a bare word. */
  lemma {:induction false} BareTurn(s: seq<byte>, ie: bool, q: nat, acc: seq<byte>)
    requires 0 < q <= |s| && NoNul(s) && Scan(s, ie, InVal, q, acc, false).Found?
    ensures Ends(s, q, ie) ==>
      Scan(s, ie, InVal, q, acc, false) == Found(if q < |s| && Blank(s[q]) then q else q - 1, acc, false)
    ensures !Ends(s, q, ie) && s[q] == 92 ==>
      && q + 1 < |s| && !WordFull(acc)
      && Scan(s, ie, InVal, q, acc, false) == Scan(s, ie, InVal, q + 2, acc + [s[q + 1]], false)
    ensures !Ends(s, q, ie) && s[q] != 92 ==>
      && !WordFull(acc) && BareUnit(Plain(s[q]), ie)
      && Scan(s, ie, InVal, q, acc, false) == Scan(s, ie, InVal, q + 1, acc + [s[q]], false)
  {
  }

  lemma {:induction false} BareFound(s: seq<byte>, ie: bool, q: nat, acc: seq<byte>) returns (us: seq<Unit>, e: nat)
    requires 0 < q <= |s| && NoNul(s) && Scan(s, ie, InVal, q, acc, false).Found?
    ensures q <= e && BareFrom(s, ie, q, us, e)
    ensures Scan(s, ie, InVal, q, acc, false) ==
      Found(if e < |s| && Blank(s[e]) then e else e - 1, acc + Meant(us), false)
    decreases |s| - q
  {
    hide Scan, BareUnit, Ends, Blank, Meant, BareFrom, Raw;
    BareTurn(s, ie, q, acc);
    if Ends(s, q, ie) {
      us, e := [], q;
      NoUnits(acc);
      BareFromNone(s, ie, q);
    } else if s[q] == 92 {
      var u, rest := Backslash(s[q + 1]), [];
      rest, e := BareFound(s, ie, q + 2, acc + [u.b]);
      BackslashUnit(s, ie, q);
      BareFromCons(s, ie, q, u, rest, e);
      us := [u] + rest;
      RawCons(u, rest);
      assert acc + [u.b] + Meant(rest) == acc + Meant(us);
    } else {
      var u, rest := Plain(s[q]), [];
      rest, e := BareFound(s, ie, q + 1, acc + [u.b]);
      assert s[q..q + 1] == RawUnit(u);
      BareFromCons(s, ie, q, u, rest, e);
      us := [u] + rest;
      RawCons(u, rest);
      assert acc + [u.b] + Meant(rest) == acc + Meant(us);
    }
  }

  lemma {:induction false} BareFromNone(s: seq<byte>, ie: bool, q: nat)
    requires q <= |s| && Ends(s, q, ie)
    ensures BareFrom(s, ie, q, [], q)
  {
    assert s[q..q] == [];
  }

  lemma {:induction false} NoUnits(acc: seq<byte>)
    ensures Raw([]) == [] && acc + Meant([]) == acc
  {
  }

  lemma {:induction false} BackslashUnit(s: seq<byte>, ie: bool, q: nat)
    requires q + 1 < |s| && NoNul(s) && s[q] == 92
    ensures var u := Backslash(s[q + 1]);
            s[q..q + 2] == RawUnit(u) && BareUnit(u, ie) && FirstUnit(u, ie) && QuotedUnit(u)
  {
  }

  predicate QuotedFrom(s: seq<byte>, q: nat, us: seq<Unit>, e: nat)
  {
    && q <= e < |s| && s[q..e] == Raw(us) && s[e] == 34
    && forall i | 0 <= i < |us| :: QuotedUnit(us[i])
  }

  lemma {:induction false} QuotedFromCons(s: seq<byte>, q: nat, u: Unit, us: seq<Unit>, e: nat)
    requires q + |RawUnit(u)| <= |s| && s[q..q + |RawUnit(u)|] == RawUnit(u) && QuotedUnit(u)
    requires QuotedFrom(s, q + |RawUnit(u)|, us, e)
    ensures QuotedFrom(s, q, [u] + us, e)
  {
    hide RawUnit, Raw, QuotedUnit;
    RawCons(u, us);
    Join(s, q, q + |RawUnit(u)|, e);
  }

  lemma {:induction false} QuotedTurn(s: seq<byte>, ie: bool, q: nat, acc: seq<byte>)
    requires 0 < q <= |s| && NoNul(s) && Scan(s, ie, InEscVal, q, acc, true).Found?
    ensures q < |s|
    ensures s[q] == 34 ==> Scan(s, ie, InEscVal, q, acc, true) == Found(q, acc, true)
    ensures s[q] == 92 ==>
      && q + 1 < |s| && !WordFull(acc)
      && Scan(s, ie, InEscVal, q, acc, true) == Scan(s, ie, InEscVal, q + 2, acc + [s[q + 1]], true)
    ensures s[q] != 34 && s[q] != 92 ==>
      && !WordFull(acc) && QuotedUnit(Plain(s[q]))
      && Scan(s, ie, InEscVal, q, acc, true) == Scan(s, ie, InEscVal, q + 1, acc + [s[q]], true)
  {
  }

  lemma {:induction false} QuotedFound(s: seq<byte>, ie: bool, q: nat, acc: seq<byte>) returns (us: seq<Unit>, e: nat)
    requires 0 < q <= |s| && NoNul(s) && Scan(s, ie, InEscVal, q, acc, true).Found?
    ensures QuotedFrom(s, q, us, e)
    ensures Scan(s, ie, InEscVal, q, acc, true) == Found(e, acc + Meant(us), true)
    decreases |s| - q
  {
    hide Scan, QuotedUnit, Meant, Raw;
    QuotedTurn(s, ie, q, acc);
    if s[q] == 34 {
      us, e := [], q;
      NoUnits(acc);
      assert s[q..q] == [];
    } else if s[q] == 92 {
      var u, rest := Backslash(s[q + 1]), [];
      rest, e := QuotedFound(s, ie, q + 2, acc + [u.b]);
      BackslashUnit(s, ie, q);
      QuotedFromCons(s, q, u, rest, e);
      us := [u] + rest;
      RawCons(u, rest);
      assert acc + [u.b] + Meant(rest) == acc + Meant(us);
    } else {
      var u, rest := Plain(s[q]), [];
      rest, e := QuotedFound(s, ie, q + 1, acc + [u.b]);
      assert s[q..q + 1] == RawUnit(u);
      QuotedFromCons(s, q, u, rest, e);
      us := [u] + rest;
      RawCons(u, rest);
      assert acc + [u.b] + Meant(rest) == acc + Meant(us);
    }
  }

  /** Blanks from `p` to `q`, then a token up to `e`. */
  predicate TokenFrom(s: seq<byte>, value: bool, p: nat, q: nat, t: Token, e: nat)
  {
    && p <= q <= e <= |s| && Blanks(s[p..q]) && TokenOk(t, value) && s[q..e] == TokenText(t)
    && (t.Bare? ==> Ends(s, e, value))
  }

  /** One turn of the scanner in front of a word. */
  lemma {:induction false} WaitTurn(s: seq<byte>, ie: bool, p: nat)
    requires p <= |s| && NoNul(s) && Scan(s, ie, WaitVal, p, [], false).Found?
    ensures p < |s|
    ensures Blank(s[p]) ==> Scan(s, ie, WaitVal, p, [], false) == Scan(s, ie, WaitVal, p + 1, [], false)
    ensures s[p] == 34 ==> Scan(s, ie, WaitVal, p, [], false) == Scan(s, ie, InEscVal, p + 1, [], true)
    ensures s[p] == 92 ==>
      p + 1 < |s| && Scan(s, ie, WaitVal, p, [], false) == Scan(s, ie, InVal, p + 2, [] + [s[p + 1]], false)
    ensures !Blank(s[p]) && s[p] != 34 && s[p] != 92 ==>
      && FirstUnit(Plain(s[p]), ie)
      && Scan(s, ie, WaitVal, p, [], false) == Scan(s, ie, InVal, p + 1, [] + [s[p]], false)
  {
  }

  lemma {:induction false} BareToken(s: seq<byte>, value: bool, p: nat, u: Unit, us: seq<Unit>, e: nat)
    requires p + |RawUnit(u)| <= |s| && s[p..p + |RawUnit(u)|] == RawUnit(u) && FirstUnit(u, value)
    requires BareFrom(s, value, p + |RawUnit(u)|, us, e)
    ensures TokenFrom(s, value, p, p, Bare([u] + us), e)
  {
    hide RawUnit, Raw, BareUnit, FirstUnit, Ends;
    RawCons(u, us);
    Join(s, p, p + |RawUnit(u)|, e);
    assert forall i | 1 <= i < |[u] + us| :: ([u] + us)[i] == us[i - 1];
  }

  lemma {:induction false} QuotedToken(s: seq<byte>, value: bool, p: nat, us: seq<Unit>, e: nat)
    requires p < |s| && s[p] == 34 && QuotedFrom(s, p + 1, us, e)
    ensures TokenFrom(s, value, p, p, Quoted(us), e + 1)
  {
    hide Raw, QuotedUnit;
    assert s[p..e + 1] == [s[p]] + s[p + 1..e] + [s[e]];
  }

  lemma {:induction false} BlankBefore(s: seq<byte>, value: bool, p: nat, q: nat, t: Token, e: nat)
    requires p < |s| && Blank(s[p]) && TokenFrom(s, value, p + 1, q, t, e)
    ensures TokenFrom(s, value, p, q, t, e)
  {
    hide TokenOk, TokenText, Ends, Blank;
    assert s[p..q] == [s[p]] + s[p + 1..q];
  }

  /** Whatever the scanner finds is a token behind blanks. */
  lemma {:induction false} TokenFound(s: seq<byte>, value: bool, p: nat) returns (q: nat, t: Token, e: nat)
    requires p <= |s| && NoNul(s) && Scan(s, value, WaitVal, p, [], false).Found?
    ensures TokenFrom(s, value, p, q, t, e)
    ensures Scan(s, value, WaitVal, p, [], false) == Found(Behind(s, t, e) - 1, Meant(t.us), t.Quoted?)
    decreases |s| - p
  {
    hide Scan, BareUnit, FirstUnit, QuotedUnit, Ends, Meant, Raw, RawUnit, TokenFrom, BareFrom, QuotedFrom, Blank;
    WaitTurn(s, value, p);
    if Blank(s[p]) {
      q, t, e := TokenFound(s, value, p + 1);
      BlankBefore(s, value, p, q, t, e);
    } else if s[p] == 34 {
      var us;
      us, e := QuotedFound(s, value, p + 1, []);
      QuotedToken(s, value, p, us, e);
      e := e + 1;
      q, t := p, Quoted(us);
      assert [] + Meant(us) == Meant(us);
    } else {
      var u := if s[p] == 92 then Backslash(s[p + 1]) else Plain(s[p]);
      FirstBytes(s, value, p);
      var us;
      us, e := BareFound(s, value, p + |RawUnit(u)|, [] + [u.b]);
      BareToken(s, value, p, u, us, e);
      q, t := p, Bare([u] + us);
      RawCons(u, us);
      assert [] + [u.b] + Meant(us) == Meant(t.us);
    }
  }

  lemma {:induction false} FirstBytes(s: seq<byte>, ie: bool, p: nat)
    requires p < |s| && NoNul(s) && (s[p] == 92 ==> p + 1 < |s|) && (s[p] != 92 ==> FirstUnit(Plain(s[p]), ie))
    ensures var u := if s[p] == 92 then Backslash(s[p + 1]) else Plain(s[p]);
            && p + |RawUnit(u)| <= |s| && s[p..p + |RawUnit(u)|] == RawUnit(u) && FirstUnit(u, ie)
            && |RawUnit(u)| == (if s[p] == 92 then 2 else 1)
  {
    hide FirstUnit;
    if s[p] == 92 { BackslashUnit(s, ie, p); }
  }

  /** If there is nothing to find, only blanks are left. */
  lemma {:induction false} NothingFound(s: seq<byte>, p: nat)
    requires p <= |s| && NoNul(s) && Scan(s, false, WaitVal, p, [], false).NotFound?
    ensures Blanks(s[p..])
    decreases |s| - p
  {
    if p < |s| {
      WaitBlank(s, p);
      NothingFound(s, p + 1);
      assert s[p..] == [s[p]] + s[p + 1..];
    }
  }

  lemma {:induction false} WaitBlank(s: seq<byte>, p: nat)
    requires p < |s| && NoNul(s) && Scan(s, false, WaitVal, p, [], false).NotFound?
    ensures Blank(s[p]) && Scan(s, false, WaitVal, p + 1, [], false).NotFound?
  {
    InsideIsFound(s, false, InEscVal, p + 1, [], true);
    InsideIsFound(s, false, WaitEscIn, p + 1, [], false);
    InsideIsFound(s, false, InVal, p + 1, [] + [s[p]], false);
  }

  lemma {:induction false} InsideIsFound(s: seq<byte>, ie: bool, st: ValState, p: nat, acc: seq<byte>, escaped: bool)
    requires 0 < p <= |s| && st != WaitVal
    ensures !Scan(s, ie, st, p, acc, escaped).NotFound?
    decreases |s| - p
  {
    if p < |s| {
      var c := s[p];
      InsideIsFound(s, ie, InVal, p + 1, acc + [c], escaped);
      InsideIsFound(s, ie, InEscVal, p + 1, acc + [c], escaped);
      InsideIsFound(s, ie, WaitEscIn, p + 1, acc, escaped);
      InsideIsFound(s, ie, WaitEscEscIn, p + 1, acc, escaped);
    }
  }

  lemma {:induction false} EqTurn(s: seq<byte>, p: nat, pairs: seq<Pair>, key: seq<byte>)
    requires p <= |s| && Parse(s, WEq, p, pairs, key).Ok?
    ensures p < |s|
    ensures Blank(s[p]) ==> Parse(s, WEq, p, pairs, key) == Parse(s, WEq, p + 1, pairs, key)
    ensures !Blank(s[p]) ==>
      && p + 1 < |s| && s[p] == 61 && s[p + 1] == 62
      && Parse(s, WEq, p, pairs, key) == Parse(s, WVal, p + 2, pairs, key)
  {
    hide Scan;
  }

  lemma {:induction false} EqFound(s: seq<byte>, p: nat, pairs: seq<Pair>, key: seq<byte>) returns (q: nat)
    requires p <= |s| && Parse(s, WEq, p, pairs, key).Ok?
    ensures p <= q && q + 2 <= |s| && Blanks(s[p..q]) && s[q..q + 2] == ARROW_TEXT
    ensures Parse(s, WEq, p, pairs, key) == Parse(s, WVal, q + 2, pairs, key)
    decreases |s| - p
  {
    hide Parse, Blank;
    EqTurn(s, p, pairs, key);
    if Blank(s[p]) {
      q := EqFound(s, p + 1, pairs, key);
      assert s[p..q] == [s[p]] + s[p + 1..q];
    } else {
      q := p;
    }
  }

  lemma {:induction false} DelTurn(s: seq<byte>, p: nat, pairs: seq<Pair>, key: seq<byte>)
    requires p <= |s| && NoNul(s) && Parse(s, WDel, p, pairs, key).Ok?
    ensures p == |s| ==> Parse(s, WDel, p, pairs, key) == Ok(pairs)
    ensures p < |s| && Blank(s[p]) ==> Parse(s, WDel, p, pairs, key) == Parse(s, WDel, p + 1, pairs, key)
    ensures p < |s| && !Blank(s[p]) ==>
      s[p] == 44 && Parse(s, WDel, p, pairs, key) == Parse(s, WKey, p + 1, pairs, key)
  {
    hide Scan;
  }

  lemma {:induction false} DelFound(s: seq<byte>, p: nat, pairs: seq<Pair>, key: seq<byte>) returns (q: nat)
    requires p <= |s| && NoNul(s) && Parse(s, WDel, p, pairs, key).Ok?
    ensures p <= q <= |s| && Blanks(s[p..q])
    ensures q == |s| ==> Parse(s, WDel, p, pairs, key) == Ok(pairs)
    ensures q < |s| ==> s[q] == 44 && Parse(s, WDel, p, pairs, key) == Parse(s, WKey, q + 1, pairs, key)
    decreases |s| - p
  {
    hide Parse, Blank, NoNul;
    DelTurn(s, p, pairs, key);
    if p < |s| && Blank(s[p]) {
      q := DelFound(s, p + 1, pairs, key);
      assert s[p..q] == [s[p]] + s[p + 1..q];
    } else {
      q := p;
    }
  }

  /** The blank taken with a bare word belongs to the blanks behind it. */
  lemma {:induction false} BlanksFrom(s: seq<byte>, t: Token, e: nat, r: nat)
    requires e <= |s| && Behind(s, t, e) <= r <= |s| && Blanks(s[Behind(s, t, e)..r])
    ensures e <= r && Blanks(s[e..r])
  {
    if Behind(s, t, e) == e + 1 { assert s[e..r] == [s[e]] + s[e + 1..r]; }
  }

  lemma {:induction false} FourParts(s: seq<byte>, a: nat, b: nat, c: nat, d: nat, e: nat)
    requires a <= b <= c <= d <= e <= |s|
    ensures s[a..b] + s[b..c] + s[c..d] + s[d..e] == s[a..e]
  {
    Join(s, a, b, c);
    Join(s, a, c, d);
    Join(s, a, d, e);
  }

  /** What the parser has accepted as key and arrow follows the grammar. */
  lemma {:induction false} KeyFound(s: seq<byte>, p: nat, pairs: seq<Pair>, key: seq<byte>)
    returns (a: seq<byte>, t: Token, b: seq<byte>, r: nat)
    requires p <= |s| && NoNul(s) && Parse(s, WKey, p, pairs, key).Ok?
    requires Scan(s, false, WaitVal, p, [], false).Found?
    ensures p < r <= |s| && Blanks(a) && Blanks(b) && TokenOk(t, false)
    ensures s[p..r] == a + TokenText(t) + b + ARROW_TEXT
    ensures Parse(s, WKey, p, pairs, key) == Parse(s, WVal, r, pairs, Meant(t.us))
  {
    hide Parse, Scan, TokenText, TokenOk, Meant, Blanks, Behind, Ends, NoNul;
    var q, e;
    q, t, e := TokenFound(s, false, p);
    KeyStep(s, p, pairs, key);
    BehindInside(s, t, e);
    var x := EqFound(s, Behind(s, t, e), pairs, Meant(t.us));
    BlanksFrom(s, t, e, x);
    FourParts(s, p, q, e, x, x + 2);
    a, b, r := s[p..q], s[e..x], x + 2;
  }

  lemma {:induction false} BehindInside(s: seq<byte>, t: Token, e: nat)
    requires e <= |s|
    ensures e <= Behind(s, t, e) <= |s|
  {
  }

  lemma {:induction false} ValFound(s: seq<byte>, p: nat, pairs: seq<Pair>, key: seq<byte>)
    returns (c: seq<byte>, t: Token, d: seq<byte>, r: nat)
    requires p <= |s| && NoNul(s) && Parse(s, WVal, p, pairs, key).Ok?
    ensures p <= r <= |s| && Blanks(c) && Blanks(d) && TokenOk(t, true) && s[p..r] == c + TokenText(t) + d
    ensures var more := pairs + [MakePair(key, Meant(t.us), t.Quoted?)];
            && (r == |s| ==> Parse(s, WVal, p, pairs, key) == Ok(more))
            && (r < |s| ==> s[r] == 44 && Parse(s, WVal, p, pairs, key) == Parse(s, WKey, r + 1, more, key))
  {
    hide Parse, Scan, TokenText, TokenOk, Meant, Blanks, Behind, Ends, NoNul, MakePair;
    ValStep(s, p, pairs, key);
    var q, e;
    q, t, e := TokenFound(s, true, p);
    BehindInside(s, t, e);
    r := DelFound(s, Behind(s, t, e), pairs + [MakePair(key, Meant(t.us), t.Quoted?)], key);
    BlanksFrom(s, t, e, r);
    FourParts(s, p, q, e, r, r);
    assert s[r..r] == [];
    c, d := s[p..q], s[e..r];
  }

  /** A text without NUL is accepted only if it follows the grammar, and then its
      pairs are the ones it stands for. */
  lemma {:induction false} DocumentFound(s: seq<byte>, p: nat, pairs: seq<Pair>, key: seq<byte>) returns (d: Document)
    requires p <= |s| && NoNul(s) && Parse(s, WKey, p, pairs, key).Ok?
    ensures DocumentOk(d) && s[p..] == DocumentText(d)
    ensures Parse(s, WKey, p, pairs, key) == Ok(pairs + DocumentPairs(d))
    decreases |s| - p
  {
    hide Parse, Scan, TokenText, TokenOk, Meant, Blanks, NoNul, IsNullWord, SaysNull;
    KeyStep(s, p, pairs, key);
    if Scan(s, false, WaitVal, p, [], false).NotFound? {
      NothingFound(s, p);
      d := Empty(s[p..]);
      assert pairs + [] == pairs;
    } else {
      var a, kt, b, r := KeyFound(s, p, pairs, key);
      var c, vt, e, f := ValFound(s, r, pairs, Meant(kt.us));
      var w := Written(a, kt, b, c, vt, e);
      NullWord(Meant(vt.us));
      Join(s, p, r, f);
      assert WrittenText(w) == s[p..f];
      if f == |s| {
        d := Last(w);
        assert s[p..f] == s[p..];
      } else {
        var rest := DocumentFound(s, f + 1, pairs + [PairMeant(w)], Meant(kt.us));
        d := More(w, rest);
        CommaSplit(s, p, f);
        assert pairs + [PairMeant(w)] + DocumentPairs(rest) == pairs + DocumentPairs(d);
      }
    }
  }

  lemma {:induction false} CommaSplit(s: seq<byte>, p: nat, f: nat)
    requires p <= f < |s| && s[f] == 44
    ensures s[p..] == s[p..f] + ([44] + s[f + 1..])
  {
    assert s[f..] == [44] + s[f + 1..];
  }

  /** The accepted texts are those of the grammar, and each is read as what it stands
      for, as far as its words and pairs can be allocated. */
  lemma {:induction false} AcceptsExactly(s: seq<byte>, ps: seq<Pair>)
    requires NoNul(s)
    ensures Parse(s, WKey, 0, [], []) == Ok(ps) <==>
      exists d :: IsTextOf(s, d) && AllFit(d) && DocumentPairs(d) == ps && |ps| <= MAX_PAIR_BUFFER
  {
    hide Parse, NoNul, DocumentOk, DocumentText, DocumentPairs, AllFit;
    assert s[0..] == s;
    if d :| IsTextOf(s, d) && AllFit(d) && DocumentPairs(d) == ps && |ps| <= MAX_PAIR_BUFFER {
      DocumentRead(s, 0, d, [], []);
      assert [] + DocumentPairs(d) == DocumentPairs(d);
    }
    if Parse(s, WKey, 0, [], []) == Ok(ps) {
      var d := DocumentFound(s, 0, [], []);
      assert [] + DocumentPairs(d) == DocumentPairs(d);
      DocumentRead(s, 0, d, [], []);
      assert IsTextOf(s, d);
    }
  }

  predicate IsTextOf(s: seq<byte>, d: Document) { DocumentOk(d) && s == DocumentText(d) }
}
