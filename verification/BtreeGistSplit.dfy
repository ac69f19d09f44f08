/** gbt_var_picksplit. It truncates both halves at one length, the longer of the
    two common prefixes. On leaf pages that is harmless; on inner pages a half can
    stop covering leaves below it. This module states exactly when. */
module BtreeGistSplit {
  import opened Bytes
  import opened BtreeGistVar
  import opened Sorting

  // ---------- the algorithm ----------

  /** gbt_vsrt_cmp: lower bounds first, then upper bounds. */
  function KeyOrder(a: VarKey, b: VarKey): int
  {
    if Lex(Lower(a), Lower(b)) == 0 then Lex(Upper(a), Upper(b)) else Lex(Lower(a), Lower(b))
  }

  /** Entries are ordered by their lower bounds, those of equal ones by the upper. */
  lemma {:induction false} KeyOrderMeaning(a: VarKey, b: VarKey)
    ensures KeyOrder(a, b) < 0 <==>
      Before(Lower(a), Lower(b)) || (Lower(a) == Lower(b) && Before(Upper(a), Upper(b)))
    ensures KeyOrder(a, b) == 0 <==> Lower(a) == Lower(b) && Upper(a) == Upper(b)
  {
    hide Lex, Before;
    LexMeaning(Lower(a), Lower(b));
    LexMeaning(Upper(a), Upper(b));
  }

  lemma {:induction false} KeyOrderTotal(a: VarKey, b: VarKey)
    ensures KeyOrder(a, b) <= 0 || KeyOrder(b, a) <= 0
  {
    LexAntisymmetric(Lower(a), Lower(b));
    LexAntisymmetric(Upper(a), Upper(b));
  }

  lemma {:induction false} KeyOrderTransitive(a: VarKey, b: VarKey, c: VarKey)
    requires KeyOrder(a, b) <= 0 && KeyOrder(b, c) <= 0
    ensures KeyOrder(a, c) <= 0
  {
    hide Lex;
    LexAntisymmetric(Lower(a), Lower(b));
    LexAntisymmetric(Lower(b), Lower(c));
    LexTransitive(Lower(a), Lower(b), Lower(c));
    if Lex(Lower(a), Lower(c)) == 0 { LexTransitive(Upper(a), Upper(b), Upper(c)); }
  }

  type Offsets = seq<nat>

  predicate InRange(es: seq<VarKey>, s: Offsets)
  {
    forall i | 0 <= i < |s| :: s[i] < |es|
  }

  predicate Ordered(es: seq<VarKey>, s: Offsets)
  {
    InRange(es, s) && forall i, j | 0 <= i < j < |s| :: KeyOrder(es[s[i]], es[s[j]]) <= 0
  }

  /** An element of the array that is sorted. */
  datatype Vsrt = Vsrt(i: nat, t: VarKey)

  function OffsetOf(v: Vsrt): nat { v.i }

  predicate VsrtLe(a: Vsrt, b: Vsrt) { KeyOrder(a.t, b.t) <= 0 }

  lemma {:induction false} VsrtPreorder()
    ensures Preorder(VsrtLe)
  {
    hide KeyOrder;
    forall a, b
      ensures VsrtLe(a, b) || VsrtLe(b, a)
    {
      KeyOrderTotal(a.t, b.t);
    }
    forall a, b, c | VsrtLe(a, b) && VsrtLe(b, c)
      ensures VsrtLe(a, c)
    {
      KeyOrderTransitive(a.t, b.t, c.t);
    }
  }

  function Listed(es: seq<VarKey>): (vs: seq<Vsrt>)
    ensures |vs| == |es| && forall i | 0 <= i < |es| :: vs[i] == Vsrt(i, es[i])
  {
    seq(|es|, i requires 0 <= i < |es| => Vsrt(i, es[i]))
  }

  /** qsort_arg with gbt_vsrt_cmp: some ordering of the offsets. */
  method SortOffsets(es: seq<VarKey>) returns (s: Offsets)
    ensures Ordered(es, s) && |s| == |es|
    ensures multiset(s) == multiset(seq(|es|, i => i))
  {
    hide KeyOrder, Mapped, Listed, Preorder;
    VsrtPreorder();
    var arr := Sort(VsrtLe, Listed(es));
    MappedPermutation(OffsetOf, arr, Listed(es));
    s := Mapped(OffsetOf, arr);
    assert Mapped(OffsetOf, Listed(es)) == seq(|es|, i => i);
    forall i | 0 <= i < |arr|
      ensures arr[i].i < |es| && arr[i].t == es[arr[i].i]
    {
      assert arr[i] in multiset(arr);
      assert arr[i] in Listed(es);
    }
    forall i, j | 0 <= i < j < |s|
      ensures KeyOrder(es[s[i]], es[s[j]]) <= 0
    {
      assert VsrtLe(arr[i], arr[j]);
    }
  }

  function Pick(es: seq<VarKey>, s: Offsets): (r: seq<VarKey>)
    requires InRange(es, s)
    ensures |r| == |s|
  {
    seq(|s|, i requires 0 <= i < |s| => es[s[i]])
  }

  function PrefixOf(k: VarKey): nat { CommonPrefix(Lower(k), Upper(k)) }

  /** The shared cut: one more than the longer of the two common prefixes. */
  function SharedCut(l: VarKey, r: VarKey): nat
  {
    (if PrefixOf(l) < PrefixOf(r) then PrefixOf(r) else PrefixOf(l)) + 1
  }

  /** gbt_var_picksplit on two or more entries. */
  method PickSplit(es: seq<VarKey>) returns (left: Offsets, right: Offsets, ldatum: VarKey, rdatum: VarKey)
    requires |es| >= 2
    ensures |left| == |es| / 2 && |right| == |es| - |left| && Ordered(es, left + right)
    ensures multiset(left + right) == multiset(seq(|es|, i => i))
    ensures InRange(es, left) && InRange(es, right)
    ensures var l, r := RawUnion(Pick(es, left)), RawUnion(Pick(es, right));
            ldatum == Truncate(l, SharedCut(l, r)) && rdatum == Truncate(r, SharedCut(l, r))
  {
    hide KeyOrder, CommonPrefix, RawUnion, Lex;
    var arr := SortOffsets(es);
    var n := |es| / 2;
    left, right := arr[..n], arr[n..];
    assert left + right == arr;
    var l := FoldUnion(Pick(es, left));
    var r := FoldUnion(Pick(es, right));
    var ll := CommonPrefixLen(Lower(l), Upper(l));
    var lr := CommonPrefixLen(Lower(r), Upper(r));
    ll := (if ll < lr then lr else ll) + 1;
    ldatum, rdatum := Truncate(l, ll), Truncate(r, ll);
  }

  /** Repeated gbt_var_bin_union starting from nothing. */
  method FoldUnion(es: seq<VarKey>) returns (out: VarKey)
    requires es != []
    ensures out == RawUnion(es)
  {
    hide Lex;
    var u: Option<VarKey> := None;
    for i := 0 to |es|
      invariant i > 0 ==> u == Some(RawUnion(es[..i]))
      invariant i == 0 ==> u == None
    {
      if i > 0 { assert es[..i + 1][..i] == es[..i]; }
      u := Some(BinUnion(u, es[i]));
    }
    assert es[..|es|] == es;
    out := u.value;
  }

  // ---------- when the halves cover ----------

  /** The upper bound may stand for longer strings. */
  predicate Loose(e: VarKey) { |Upper(e)| >= PrefixOf(e) + 2 }

  /** An entry without a truncated upper bound, in particular a leaf, is always covered. */
  lemma {:induction false} TightEntryCovered(es: seq<VarKey>, i: nat, n: nat, v: Str)
    requires i < |es| && Covers(es[i], v) && !Loose(es[i])
    requires n > PrefixOf(RawUnion(es))
    ensures Covers(Truncate(RawUnion(es), n), v)
  {
    hide Lex, CommonPrefix, RawUnion, Truncate;
    var k, e := RawUnion(es), es[i];
    RawUnionEncloses(es, i);
    LexChain(Lower(k), Lower(e), v);
    LexChain(v, Upper(e), Upper(k));
    TruncateInside(k, n, v);
  }

  lemma {:induction false} LeafIsTight(v: Str)
    ensures !Loose(LeafKey(v))
  {
    SelfPrefix(v);
  }

  /** Splitting a leaf page is harmless: both halves cover their leaves. */
  lemma {:induction false} LeafPageSplitCovers(es: seq<VarKey>, i: nat, n: nat)
    requires i < |es| && es[i].LeafKey? && n > PrefixOf(RawUnion(es))
    ensures Covers(Truncate(RawUnion(es), n), es[i].v)
  {
    hide Covers, Loose, RawUnion, Truncate;
    LeafCovers(es[i].v);
    LeafIsTight(es[i].v);
    TightEntryCovered(es, i, n, es[i].v);
  }

  /** Entry `e` leaves a gap below `k`: its truncated upper bound continues inside
      the longer upper bound of `k`, which is not all 255s from there on, and the
      lower bound of `k` is no prefix of it. */
  predicate Gap(e: VarKey, k: VarKey)
  {
    && Loose(e)
    && Upper(e) < Upper(k)
    && !(Lower(k) <= Upper(e))
    && exists j :: |Upper(e)| <= j < |Upper(k)| && Upper(k)[j] < 255
  }

  predicate BoundsInOrder(e: VarKey) { Lex(Lower(e), Upper(e)) <= 0 }

  lemma {:induction false} MaxTail(p: nat, h: Str, v: Str)
    requires p <= |h| && h[..p] <= v && Lex(v, h) > 0
    requires forall j | p <= j < |h| :: h[j] == 255
    ensures h <= v
  {
    if p < |h| || h != [] {
      if p > 0 {
        assert h[..p][0] == v[0];
        assert h[1..][..p - 1] == h[..p][1..];
        assert h[1..][..p - 1] <= v[1..];
        MaxTail(p - 1, h[1..], v[1..]);
      } else {
        assert h[1..][..0] <= v[1..];
        MaxTail(0, h[1..], v[1..]);
      }
      assert h == [h[0]] + h[1..] && v == [v[0]] + v[1..];
    }
  }

  /** Without gaps the truncated key is consistent with every search, of any
      strategy, that a leaf covered by one of the entries satisfies. */
  lemma {:induction false} NoGapFinds(es: seq<VarKey>, i: nat, n: nat, v: Str, query: Str, strategy: Strategy)
    requires i < |es| && Covers(es[i], v) && n > PrefixOf(RawUnion(es)) && BoundsInOrder(es[i])
    requires Satisfies(v, query, strategy)
    requires !Gap(es[i], Truncate(RawUnion(es), n))
    ensures Consistent(Truncate(RawUnion(es), n), query, strategy, false)
  {
    hide Lex, CommonPrefix, RawUnion, Consistent, Satisfies;
    var k, e := RawUnion(es), es[i];
    RawUnionEncloses(es, i);
    LexChain(Lower(k), Lower(e), v);
    if Lex(v, Upper(k)) <= 0 {
      TruncateInside(k, n, v);
      CoversConsistent(Truncate(k, n), v, query, strategy);
    } else {
      BeyondConsistent(k, e, n, v, query, strategy);
    }
  }

  lemma {:induction false} CutOrdered(a: Str, b: Str, n: nat)
    requires Lex(a, b) <= 0
    ensures Lex(Cut(a, n), Cut(b, n)) <= 0
  {
    if n > 0 && a != [] && b != [] && a[0] == b[0] {
      assert Cut(a, n)[1..] == Cut(a[1..], n - 1) && Cut(b, n)[1..] == Cut(b[1..], n - 1);
      CutOrdered(a[1..], b[1..], n - 1);
    }
  }

  /** A leaf beyond the upper bound of `k`, which its entry covers by truncation only. */
  ghost predicate Beyond(k: VarKey, e: VarKey, v: Str)
  {
    && BoundsInOrder(e) && Lex(Lower(k), Lower(e)) <= 0 && Lex(Upper(e), Upper(k)) <= 0
    && Covers(e, v) && Lex(v, Upper(k)) > 0
  }

  lemma {:induction false} BeyondConsistent(k: VarKey, e: VarKey, n: nat, v: Str, query: Str, strategy: Strategy)
    requires Beyond(k, e, v) && n > PrefixOf(k) && !Gap(e, Truncate(k, n))
    requires Satisfies(v, query, strategy)
    ensures Consistent(Truncate(k, n), query, strategy, false)
  {
    hide Lex, CommonPrefix, Beyond, Gap, Before;
    var t := Truncate(k, n);
    BeyondLower(k, e, n, v);
    LexMeaning(query, v);
    match strategy
    case LessEqual => BelowQuery(t, v, query);
    case Less => BelowQuery(t, v, query);
    case Equal => BeyondFinds(k, e, n, v, v);
    case Greater => BeyondFinds(k, e, n, v, query);
    case GreaterEqual => BeyondFinds(k, e, n, v, query);
    case NotEqual => BeyondDiffers(k, e, n, v);
  }

  lemma {:induction false} BelowQuery(t: VarKey, v: Str, query: Str)
    requires Lex(Lower(t), v) <= 0 && Lex(query, v) >= 0
    ensures Lex(query, Lower(t)) >= 0
  {
    hide Lex;
    LexAntisymmetric(query, v);
    LexChain(Lower(t), v, query);
    LexAntisymmetric(query, Lower(t));
  }

  lemma {:induction false} BeyondLower(k: VarKey, e: VarKey, n: nat, v: Str)
    requires Beyond(k, e, v)
    ensures Lex(Lower(Truncate(k, n)), v) <= 0 && Lex(v, v) == 0
    ensures Lex(Lower(k), Upper(k)) <= 0 && Lex(Lower(Truncate(k, n)), Upper(Truncate(k, n))) <= 0
  {
    hide Lex, CommonPrefix;
    PrefixSmaller(Lower(Truncate(k, n)), Lower(k));
    LexChain(Lower(k), Lower(e), v);
    LexChain(Lower(Truncate(k, n)), Lower(k), v);
    LexChain(Lower(k), Lower(e), Upper(e));
    LexChain(Lower(k), Upper(e), Upper(k));
    CutOrdered(Lower(k), Upper(k), n + 1);
    LexAntisymmetric(v, v);
  }

  /** Equal truncated bounds come from equal bounds, which reach no leaf beyond. */
  lemma {:induction false} BeyondDiffers(k: VarKey, e: VarKey, n: nat, v: Str)
    requires Beyond(k, e, v) && n > PrefixOf(k)
    ensures Lower(Truncate(k, n)) != Upper(Truncate(k, n))
  {
    hide Lex, CommonPrefix;
    var lo, hi, el, eu := Lower(k), Upper(k), Lower(e), Upper(e);
    CutKeepsPrefix(lo, hi, n + 1);
    SelfPrefix(Cut(lo, n + 1));
    SelfPrefix(el);
    if Lex(v, eu) <= 0 { LexChain(v, eu, hi); }
    CommonPrefixAt(lo, hi);
    if Cut(lo, n + 1) == Cut(hi, n + 1) {
      assert lo == hi;
      LexChain(eu, hi, el);
      LexAntisymmetric(el, eu);
    }
  }

  lemma {:induction false} BeyondFinds(k: VarKey, e: VarKey, n: nat, v: Str, query: Str)
    requires Beyond(k, e, v) && !Gap(e, Truncate(k, n)) && Lex(query, v) <= 0
    ensures Lex(query, Upper(Truncate(k, n))) <= 0 || NodePrefixMatch(Truncate(k, n), query)
    ensures query == v ==> NodePrefixMatch(Truncate(k, n), query)
  {
    hide Lex, CommonPrefix, Beyond, Gap;
    var t := Truncate(k, n);
    BeyondLower(k, e, n, v);
    BeyondPrefix(k, e, n, v);
    if Lex(query, Upper(t)) > 0 {
      LexAntisymmetric(query, Upper(t));
      if Upper(t) <= v {
        Between(Upper(t), query, v);
        assert query[..|Upper(t)|] == Upper(t);
      } else {
        LexChain(Lower(t), Upper(t), query);
        Between(Lower(t), query, v);
        assert query[..|Lower(t)|] == Lower(t);
      }
    }
    if query == v {
      if Upper(t) <= v { assert v[..|Upper(t)|] == Upper(t); } else { assert v[..|Lower(t)|] == Lower(t); }
    }
  }

  /** Without a gap one of the truncated bounds is a prefix of the leaf. */
  lemma {:induction false} BeyondPrefix(k: VarKey, e: VarKey, n: nat, v: Str)
    requires Beyond(k, e, v) && !Gap(e, Truncate(k, n))
    ensures Upper(Truncate(k, n)) <= v || Lower(Truncate(k, n)) <= v
  {
    hide Lex, CommonPrefix;
    var t := Truncate(k, n);
    var hi, eu, hi' := Upper(k), Upper(e), Upper(t);
    assert eu <= v && Loose(e) by {
      if Lex(v, eu) <= 0 { LexChain(v, eu, hi); }
    }
    LexAntisymmetric(v, hi);
    Between(eu, hi, v);
    if |hi'| > |eu| && !(Lower(t) <= eu) {
      assert hi'[..|eu|] == eu;
      PrefixSmaller(hi', hi);
      LexAntisymmetric(v, hi');
      LexAntisymmetric(hi, hi');
      if Lex(v, hi') <= 0 { LexChain(v, hi', hi); }
      MaxTail(|eu|, hi', v);
    }
  }

  /** The string that falls into a gap. */
  function GapString(k: VarKey, j: nat): Str
    requires j < |Upper(k)| && Upper(k)[j] < 255
  {
    Upper(k)[..j] + [Upper(k)[j] + 1]
  }

  lemma {:induction false} GapStringAbove(h: Str, j: nat, v: Str)
    requires j < |h| && h[j] < 255 && v == h[..j] + [h[j] + 1]
    ensures Lex(v, h) > 0
  {
    if j > 0 {
      assert v[1..] == h[1..][..j - 1] + [h[1..][j - 1] + 1];
      GapStringAbove(h[1..], j - 1, v[1..]);
    }
  }

  /** In a gap lies a leaf value the entry covers and an equality search misses. */
  lemma {:induction false} GapMisses(e: VarKey, k: VarKey, t: VarKey, j: nat)
    requires BoundsInOrder(e) && Lex(Lower(k), Lower(e)) <= 0 && Lower(t) <= Lower(k)
    requires Loose(e) && Upper(e) < Upper(t) && !(Lower(t) <= Upper(e))
    requires |Upper(e)| <= j < |Upper(t)| && Upper(t)[j] < 255
    ensures Covers(e, GapString(t, j)) && !Consistent(t, GapString(t, j), Equal, false)
  {
    hide Lex, CommonPrefix;
    var v, eu, hi', lo' := GapString(t, j), Upper(e), Upper(t), Lower(t);
    assert hi'[..j] <= v && eu <= hi'[..j];
    assert eu <= v;
    PrefixSmaller(eu, v);
    LexChain(Lower(e), eu, v);
    GapStringAbove(hi', j, v);
    assert v[j] != hi'[j];
    assert !PrefixMatch(hi', v);
    PrefixSmaller(lo', Lower(k));
    LexChain(lo', Lower(k), Lower(e));
    LexChain(lo', Lower(e), eu);
    NotLowerPrefix(lo', eu, v);
  }

  lemma {:induction false} NotLowerPrefix(lo: Str, eu: Str, v: Str)
    requires eu <= v && Lex(lo, eu) <= 0 && !(lo <= eu)
    ensures !PrefixMatch(lo, v)
  {
    hide Lex;
    assert PrefixMatch(lo, v) && |eu| < |lo| ==> eu <= lo;
    LexAntisymmetric(lo, eu);
    if eu <= lo { PrefixSmaller(eu, lo); }
  }

  /** The key is consistent with every search that a leaf covered by an entry satisfies. */
  ghost predicate FindsAll(es: seq<VarKey>, t: VarKey)
  {
    forall i, v, query, strategy | 0 <= i < |es| && Covers(es[i], v) && Satisfies(v, query, strategy) ::
      Consistent(t, query, strategy, false)
  }

  /** For any page whose keys have their bounds in order, the half's datum leads
      every search of every strategy to all leaves its entries cover if and only if
      no entry leaves a gap. */
  lemma {:induction false} SplitExact(es: seq<VarKey>, n: nat)
    requires es != [] && n > PrefixOf(RawUnion(es))
    requires forall i | 0 <= i < |es| :: BoundsInOrder(es[i])
    ensures FindsAll(es, Truncate(RawUnion(es), n)) <==>
      forall i | 0 <= i < |es| :: !Gap(es[i], Truncate(RawUnion(es), n))
  {
    hide Lex, Covers, RawUnion, Consistent, Loose;
    var k := RawUnion(es);
    var t := Truncate(k, n);
    if forall i | 0 <= i < |es| :: !Gap(es[i], t) {
      forall i, v, query, strategy | 0 <= i < |es| && Covers(es[i], v) && Satisfies(v, query, strategy)
        ensures Consistent(t, query, strategy, false)
      {
        NoGapFinds(es, i, n, v, query, strategy);
      }
    } else {
      var i :| 0 <= i < |es| && Gap(es[i], t);
      var j :| |Upper(es[i])| <= j < |Upper(t)| && Upper(t)[j] < 255;
      RawUnionEncloses(es, i);
      GapMisses(es[i], k, t, j);
    }
  }

  lemma {:induction false} RawOne(x: VarKey)
    ensures RawUnion([x]) == NodeKey(Lower(x), Upper(x))
  {
  }

  lemma {:induction false} RawTwo(x: VarKey, y: VarKey)
    ensures RawUnion([x, y]) == NodeKey(MinStr(Lower(x), Lower(y)), MaxStr(Upper(x), Upper(y)))
  {
  }

  /** The union of one leaf is that leaf twice. */
  lemma {:induction false} UnionOfOne(v: Str)
    ensures UnionKey([LeafKey(v)]) == NodeKey(v, v)
  {
    hide RawUnion, CommonPrefix;
    RawOne(LeafKey(v));
    SelfPrefix(v);
  }

  const A: Str := [97]
  const BCD: Str := [98, 99, 100]
  const BCZ: Str := [98, 99, 122]
  const ZZZZ: Str := [122, 122, 122, 122]

  lemma {:induction false} UnionOfTwo()
    ensures UnionKey([LeafKey(A), LeafKey(BCZ)]) == NodeKey(A, [98, 99])
  {
    hide RawUnion;
    RawTwo(LeafKey(A), LeafKey(BCZ));
    assert BCZ[..2] == [98, 99];
  }

  lemma {:induction false} LexSteps()
    ensures Lex([98, 99], BCD) == -1 && Lex(BCZ, BCD) == 1
  {
  }

  /** An inner page that holds the unions of {"a", "bcz"}, {"bcd"} and twice {"zzzz"}. */
  function InnerPage(): (es: seq<VarKey>)
    ensures |es| == 4
  {
    var zzzz := UnionKey([LeafKey(ZZZZ)]);
    [UnionKey([LeafKey(A), LeafKey(BCZ)]), UnionKey([LeafKey(BCD)]), zzzz, zzzz]
  }

  lemma {:induction false} LeftHalfLosesLeaf()
    ensures
      var es := InnerPage();
      var l, r := RawUnion([es[0], es[1]]), RawUnion([es[2], es[3]]);
      && KeyOrder(es[1], es[0]) > 0 && KeyOrder(es[2], es[0]) > 0 && KeyOrder(es[2], es[1]) > 0 && es[3] == es[2]
      && Covers(es[0], BCZ)
      && !Consistent(Truncate(l, SharedCut(l, r)), BCZ, Equal, false)
  {
    hide UnionKey, RawUnion;
    UnionOfTwo();
    UnionOfOne(BCD);
    UnionOfOne(ZZZZ);
    LexSteps();
    RawTwo(NodeKey(A, [98, 99]), NodeKey(BCD, BCD));
    RawTwo(NodeKey(ZZZZ, ZZZZ), NodeKey(ZZZZ, ZZZZ));
    SelfPrefix(ZZZZ);
    assert [98, 99] <= BCZ;
    assert BCZ[..3] != BCD;
  }

  lemma {:induction false} OffsetListed(s: Offsets, n: nat, j: nat)
    requires multiset(s) == multiset(seq(n, i => i)) && j < n
    ensures exists p :: 0 <= p < |s| && s[p] == j
  {
    assert seq(n, i => i)[j] == j;
    assert j in multiset(s);
  }

  lemma {:induction false} OffsetAt(s: Offsets, n: nat, p: nat)
    requires multiset(s) == multiset(seq(n, i => i)) && p < |s|
    ensures |s| == n && s[p] < n
  {
    assert |s| == |multiset(s)| == |seq(n, i => i)|;
    assert s[p] in multiset(s);
    assert s[p] in seq(n, i => i);
  }

  lemma {:induction false} CountedTwice(s: Offsets, p: nat, q: nat)
    requires p < q < |s|
    ensures s[p] == s[q] ==> multiset(s)[s[p]] >= 2
  {
    assert s == s[..p] + [s[p]] + s[p + 1..];
    assert s[p + 1..][q - p - 1] == s[q];
    assert s[q] in multiset(s[p + 1..]);
  }

  lemma {:induction false} OffsetOnce(s: Offsets, n: nat, p: nat, q: nat)
    requires multiset(s) == multiset(seq(n, i => i)) && p < q < |s|
    ensures s[p] != s[q]
  {
    OffsetAt(s, n, p);
    CountOne(n, s[p]);
    CountedTwice(s, p, q);
  }

  lemma {:induction false} CountOne(n: nat, j: nat)
    requires j < n
    ensures multiset(seq(n, i => i))[j] == 1
  {
    var s := seq(n, i => i);
    assert s == s[..j] + [j] + s[j + 1..];
    assert j !in s[..j] && j !in s[j + 1..];
  }

  /** Where the one page entry below all others ends up when a page is ordered. */
  lemma {:induction false} OrderedStart(es: seq<VarKey>, s: Offsets)
    requires |es| == 4 && Ordered(es, s) && multiset(s) == multiset(seq(4, i => i))
    requires KeyOrder(es[1], es[0]) > 0 && KeyOrder(es[2], es[0]) > 0 && KeyOrder(es[2], es[1]) > 0 && es[3] == es[2]
    ensures |s| == 4 && s[0] == 0 && s[1] == 1 && s[2] in [2, 3] && s[3] in [2, 3]
  {
    hide KeyOrder;
    OffsetListed(s, 4, 0);
    OffsetListed(s, 4, 1);
    OffsetAt(s, 4, 0);
    OffsetAt(s, 4, 1);
    OffsetAt(s, 4, 2);
    OffsetAt(s, 4, 3);
    OffsetOnce(s, 4, 0, 1);
    OffsetOnce(s, 4, 0, 2);
    OffsetOnce(s, 4, 0, 3);
    OffsetOnce(s, 4, 1, 2);
    OffsetOnce(s, 4, 1, 3);
  }

  lemma {:induction false} HalvesOf(es: seq<VarKey>, left: Offsets, right: Offsets)
    requires |es| == 4 && |left| == 2 && |right| == 2
    requires Ordered(es, left + right) && multiset(left + right) == multiset(seq(4, i => i))
    requires KeyOrder(es[1], es[0]) > 0 && KeyOrder(es[2], es[0]) > 0 && KeyOrder(es[2], es[1]) > 0 && es[3] == es[2]
    ensures left == [0, 1] && InRange(es, left) && InRange(es, right)
    ensures Pick(es, left) == [es[0], es[1]] && Pick(es, right) == [es[2], es[3]]
  {
    hide KeyOrder, Ordered;
    var s := left + right;
    OrderedStart(es, s);
    assert left[0] == s[0] && left[1] == s[1] && right[0] == s[2] && right[1] == s[3];
  }

  /** Splitting that page: the left half holds the entry that leads to the leaf "bcz",
      and its truncated key does not. */
  method InnerSplitLosesLeaf() returns (left: Offsets, right: Offsets, ldatum: VarKey, rdatum: VarKey)
    ensures left == [0, 1] && Covers(InnerPage()[0], BCZ)
    ensures !Consistent(ldatum, BCZ, Equal, false)
  {
    hide InnerPage, KeyOrder, RawUnion, Truncate, SharedCut, Consistent, Covers, Ordered, Pick;
    var es := InnerPage();
    left, right, ldatum, rdatum := PickSplit(es);
    LeftHalfLosesLeaf();
    HalvesOf(es, left, right);
  }
}
