/** Page splits of the hstore signature index: hemdist and ghstore_picksplit. */
module HStoreGistSplit {
  import opened HStoreGist
  import opened HStoreLayout
  import opened Sorting

  // ---------- the distance between two keys ----------

  /** The number of differing bits among the first n. */
  function Differing(a: GistKey, b: GistKey, n: nat): (d: nat)
    ensures d <= n
  {
    if n == 0 then 0
    else Differing(a, b, n - 1) + if HasBit(a, n - 1) != HasBit(b, n - 1) then 1 else 0
  }

  function OneBits(k: GistKey, n: nat): (d: nat)
    ensures d <= n
  {
    if n == 0 then 0 else OneBits(k, n - 1) + if HasBit(k, n - 1) then 1 else 0
  }

  /** GETBITBYTE */
  function BitOf(b: BitByte, i: nat): (r: nat)
    ensures r <= 1
  {
    if i in b then 1 else 0
  }

  /** SUMBIT */
  function SumBit(b: BitByte): nat
  {
    BitOf(b, 0) + BitOf(b, 1) + BitOf(b, 2) + BitOf(b, 3) + BitOf(b, 4) + BitOf(b, 5) + BitOf(b, 6) + BitOf(b, 7)
  }

  lemma {:induction false} OneBitStep(k: GistKey, i: nat, j: nat)
    requires k.Sign? && i < |k.bits| && j < 8
    ensures OneBits(k, 8 * i + j + 1) == OneBits(k, 8 * i + j) + BitOf(k.bits[i], j)
  {
  }

  /** Counting a signature byte by byte counts its bits. */
  lemma {:induction false} OneBitsByte(k: GistKey, i: nat)
    requires k.Sign? && i < |k.bits|
    ensures OneBits(k, 8 * i + 8) == OneBits(k, 8 * i) + SumBit(k.bits[i])
  {
    hide OneBits, BitOf, HasBit;
    OneBitStep(k, i, 0);
    OneBitStep(k, i, 1);
    OneBitStep(k, i, 2);
    OneBitStep(k, i, 3);
    OneBitStep(k, i, 4);
    OneBitStep(k, i, 5);
    OneBitStep(k, i, 6);
    OneBitStep(k, i, 7);
  }

  /** sizebitvec */
  method SizeBitVec(siglen: nat, k: GistKey) returns (size: nat)
    requires k.Sign? && |k.bits| == siglen
    ensures size == OneBits(k, 8 * siglen)
  {
    hide SumBit, HasBit;
    size := 0;
    for i := 0 to siglen
      invariant size == OneBits(k, 8 * i)
    {
      OneBitsByte(k, i);
      size := size + SumBit(k.bits[i]);
    }
  }

  lemma {:induction false} DifferingFromOnes(k: GistKey, n: nat)
    ensures Differing(AllTrue, k, n) == n - OneBits(k, n)
    ensures Differing(k, AllTrue, n) == n - OneBits(k, n)
  {
    if n > 0 { DifferingFromOnes(k, n - 1); }
  }

  lemma {:induction false} DifferingNone(n: nat)
    ensures Differing(AllTrue, AllTrue, n) == 0
  {
    if n > 0 { DifferingNone(n - 1); }
  }

  /** hemdist: the Hamming distance, an all-true key counting as all ones. */
  method HemDist(siglen: nat, a: GistKey, b: GistKey) returns (dist: nat)
    requires Shaped(a, siglen) && Shaped(b, siglen)
    ensures dist == Differing(a, b, 8 * siglen)
  {
    hide OneBits, HasBit;
    if a.AllTrue? {
      if b.AllTrue? {
        DifferingNone(8 * siglen);
        return 0;
      }
      DifferingFromOnes(b, 8 * siglen);
      var size := SizeBitVec(siglen, b);
      return 8 * siglen - size;
    } else if b.AllTrue? {
      DifferingFromOnes(a, 8 * siglen);
      var size := SizeBitVec(siglen, a);
      return 8 * siglen - size;
    }
    dist := 0;
    for i := 0 to 8 * siglen
      invariant dist == Differing(a, b, i)
    {
      if HasBit(a, i) != HasBit(b, i) {
        dist := dist + 1;
      }
    }
  }

  /** The distance is a metric on signatures, so a zero penalty means equal bits. */
  lemma {:induction false} DistanceZero(a: GistKey, b: GistKey, n: nat)
    ensures Differing(a, b, n) == 0 <==> forall i: nat | i < n :: HasBit(a, i) == HasBit(b, i)
  {
    hide HasBit;
    if n > 0 { DistanceZero(a, b, n - 1); }
  }

  lemma {:induction false} DistanceTriangle(a: GistKey, b: GistKey, c: GistKey, n: nat)
    ensures Differing(a, b, n) == Differing(b, a, n)
    ensures Differing(a, c, n) <= Differing(a, b, n) + Differing(b, c, n)
  {
    hide HasBit;
    if n > 0 { DistanceTriangle(a, b, c, n - 1); }
  }

  // ---------- seeds ----------

  /** The two most distant keys; the last offset is not considered a candidate. */
  method PickSeeds(siglen: nat, keys: seq<GistKey>) returns (seed1: nat, seed2: nat)
    requires |keys| >= 3 && AllShaped(keys, siglen)
    ensures 1 <= seed1 < seed2 < |keys|
    ensures forall k, j | 1 <= k < j <= |keys| - 2 ::
      Differing(keys[k], keys[j], 8 * siglen) <= Differing(keys[seed1], keys[seed2], 8 * siglen)
  {
    hide Differing, Shaped, Beaten;
    var maxoff := |keys| - 2;
    var waste: int := -1;
    seed1, seed2 := 0, 0;
    var k := 1;
    BeatenStart(siglen, keys, waste);
    while k < maxoff
      invariant 1 <= k <= maxoff
      invariant Leading(siglen, keys, waste, seed1, seed2)
      invariant waste < 0 ==> k == 1
      invariant Beaten(siglen, keys, waste, k, k + 1)
    {
      var j := k + 1;
      while j <= maxoff
        invariant k < j <= maxoff + 1
        invariant Leading(siglen, keys, waste, seed1, seed2)
        invariant waste < 0 ==> k == 1 && j == k + 1
        invariant Beaten(siglen, keys, waste, k, j)
      {
        var sizeWaste := HemDist(siglen, keys[k], keys[j]);
        BeatenStep(siglen, keys, waste, sizeWaste, k, j);
        if sizeWaste > waste {
          waste, seed1, seed2 := sizeWaste, k, j;
        }
        j := j + 1;
      }
      BeatenRow(siglen, keys, waste, k);
      k := k + 1;
    }
    BeatenAll(siglen, keys, waste, k);
    if seed1 == 0 || seed2 == 0 {
      seed1, seed2 := 1, 2;
    }
  }

  ghost predicate Leading(siglen: nat, keys: seq<GistKey>, waste: int, seed1: nat, seed2: nat)
  {
    if waste < 0 then seed1 == 0 && seed2 == 0
    else 1 <= seed1 < seed2 < |keys| && waste == Differing(keys[seed1], keys[seed2], 8 * siglen)
  }

  /** No pair examined before (k, j) is further apart than `waste`. */
  ghost predicate Beaten(siglen: nat, keys: seq<GistKey>, waste: int, k: nat, j: nat)
  {
    forall x, y | 1 <= x < y <= |keys| - 2 && (x < k || (x == k && y < j)) ::
      Differing(keys[x], keys[y], 8 * siglen) <= waste
  }

  lemma {:induction false} BeatenStart(siglen: nat, keys: seq<GistKey>, waste: int)
    ensures Beaten(siglen, keys, waste, 1, 2)
  {
  }

  lemma {:induction false} BeatenStep(siglen: nat, keys: seq<GistKey>, waste: int, d: nat, k: nat, j: nat)
    requires Beaten(siglen, keys, waste, k, j) && 1 <= k < j <= |keys| - 2
    requires d == Differing(keys[k], keys[j], 8 * siglen)
    ensures Beaten(siglen, keys, if d > waste then d else waste, k, j + 1)
  {
    hide Differing;
  }

  lemma {:induction false} BeatenRow(siglen: nat, keys: seq<GistKey>, waste: int, k: nat)
    requires |keys| >= 2 && Beaten(siglen, keys, waste, k, |keys| - 1)
    ensures Beaten(siglen, keys, waste, k + 1, k + 2)
  {
  }

  lemma {:induction false} BeatenAll(siglen: nat, keys: seq<GistKey>, waste: int, k: nat)
    requires Beaten(siglen, keys, waste, k, k + 1) && k >= |keys| - 2
    ensures forall x, y | 1 <= x < y <= |keys| - 2 :: Differing(keys[x], keys[y], 8 * siglen) <= waste
  {
  }

  // ---------- the order of distribution ----------

  /** SPLITCOST */
  datatype SplitCost = SplitCost(pos: nat, cost: nat)

  function PosOf(c: SplitCost): nat { c.pos }

  /** comparecost */
  predicate CostLe(a: SplitCost, b: SplitCost) { a.cost <= b.cost }

  function Positions(cs: seq<SplitCost>): (ps: seq<nat>)
    ensures |ps| == |cs| && forall i | 0 <= i < |cs| :: ps[i] == cs[i].pos
  {
    Mapped(PosOf, cs)
  }

  /** FirstOffsetNumber up to n - 1. */
  function Offsets(n: nat): (os: seq<nat>)
    requires n > 0
    ensures |os| == n - 1 && forall i | 0 <= i < n - 1 :: os[i] == i + 1
  {
    seq(n - 1, i => i + 1)
  }

  /** qsort with comparecost: some permutation in order of increasing cost. */
  method SortCosts(cs: seq<SplitCost>) returns (order: seq<SplitCost>)
    ensures forall i, j | 0 <= i < j < |order| :: order[i].cost <= order[j].cost
    ensures |order| == |cs| && multiset(order) == multiset(cs)
    ensures multiset(Positions(order)) == multiset(Positions(cs))
  {
    hide Mapped;
    order := Sort(CostLe, cs);
    MappedPermutation(PosOf, order, cs);
  }

  // ---------- the split ----------

  /** WISH_F, over the reals. */
  function WishF(a: int, b: int): real
  {
    -(((a - b) * (a - b) * (a - b)) as real) * 0.0001
  }

  /** The bias is against the longer side, and none for sides of equal length. */
  lemma {:induction false} WishSign(a: int, b: int)
    ensures a > b ==> WishF(a, b) < 0.0
    ensures a < b ==> WishF(a, b) > 0.0
    ensures a == b ==> WishF(a, b) == 0.0
    ensures WishF(b, a) == -WishF(a, b)
  {
    var d, e := a - b, b - a;
    CubeSign(d);
    CubeSign(e);
    assert e * e * e == -(d * d * d);
  }

  lemma {:induction false} CubeSign(d: int)
    ensures d > 0 ==> d * d * d > 0
    ensures d < 0 ==> d * d * d < 0
  {
    var q := d * d;
    if d != 0 {
      assert q > 0;
      if d > 0 { assert q * d > 0; } else { assert q * d < 0; }
    }
  }

  /** Adding a key to a side: a side that is not flagged all-true is filled with
      ones rather than flagged. */
  function Grow(siglen: nat, d: GistKey, k: GistKey): (r: GistKey)
    requires Shaped(d, siglen) && Shaped(k, siglen)
    ensures Shaped(r, siglen)
  {
    if d.AllTrue? || k.AllTrue? then
      if d.AllTrue? then d else Sign(seq(siglen, _ => ALLBITS))
    else
      Sign(OrBits(d.bits, k.bits))
  }

  lemma {:induction false} GrowHas(siglen: nat, d: GistKey, k: GistKey, n: nat)
    requires Shaped(d, siglen) && Shaped(k, siglen) && n < 8 * siglen
    ensures HasBit(Grow(siglen, d, k), n) <==> HasBit(d, n) || HasBit(k, n)
  {
  }

  /** `d` has exactly the bits of the keys at the offsets `ms`. */
  ghost predicate Collected(siglen: nat, keys: seq<GistKey>, d: GistKey, ms: set<nat>)
    requires forall m | m in ms :: m < |keys|
  {
    forall n: nat | n < 8 * siglen :: HasBit(d, n) <==> exists m :: m in ms && HasBit(keys[m], n)
  }

  lemma {:induction false} CollectedGrow(siglen: nat, keys: seq<GistKey>, d: GistKey, ms: set<nat>, j: nat)
    requires (forall m | m in ms :: m < |keys|) && j < |keys|
    requires AllShaped(keys, siglen) && Shaped(d, siglen) && Collected(siglen, keys, d, ms)
    ensures Collected(siglen, keys, Grow(siglen, d, keys[j]), ms + {j})
  {
    hide HasBit, Grow, Shaped;
    var r := Grow(siglen, d, keys[j]);
    forall n: nat | n < 8 * siglen
      ensures HasBit(r, n) <==> exists m :: m in ms + {j} && HasBit(keys[m], n)
    {
      GrowHas(siglen, d, keys[j], n);
      assert j in ms + {j};
      if m :| m in ms && HasBit(keys[m], n) { assert m in ms + {j}; }
    }
  }

  /** A side of the split under construction: its offsets, its key, and the seed
      that already counts towards the key. */
  ghost predicate Side(siglen: nat, keys: seq<GistKey>, offsets: seq<nat>, datum: GistKey, seed: nat)
  {
    && seed < |keys|
    && (forall x | x in offsets :: x < |keys|)
    && Shaped(datum, siglen)
    && Collected(siglen, keys, datum, Elements(offsets) + {seed})
  }

  lemma {:induction false} SideStart(siglen: nat, keys: seq<GistKey>, seed: nat)
    requires AllShaped(keys, siglen) && seed < |keys|
    ensures Side(siglen, keys, [], keys[seed], seed)
  {
  }

  lemma {:induction false} SideSeed(siglen: nat, keys: seq<GistKey>, offsets: seq<nat>, datum: GistKey, seed: nat)
    requires Side(siglen, keys, offsets, datum, seed)
    ensures Side(siglen, keys, offsets + [seed], datum, seed)
  {
  }

  lemma {:induction false} SideGrow(siglen: nat, keys: seq<GistKey>, offsets: seq<nat>, datum: GistKey,
      seed: nat, j: nat)
    requires Side(siglen, keys, offsets, datum, seed) && j < |keys| && AllShaped(keys, siglen)
    ensures Side(siglen, keys, offsets + [j], Grow(siglen, datum, keys[j]), seed)
  {
    hide Collected, Shaped, Grow, Elements;
    CollectedGrow(siglen, keys, datum, Elements(offsets) + {seed}, j);
    assert Elements(offsets + [j]) + {seed} == Elements(offsets) + {seed} + {j};
  }

  lemma {:induction false} SideDone(siglen: nat, keys: seq<GistKey>, offsets: seq<nat>, datum: GistKey, seed: nat)
    requires Side(siglen, keys, offsets, datum, seed) && seed in offsets
    ensures Collected(siglen, keys, datum, Elements(offsets))
  {
  }

  function Cost(siglen: nat, l: GistKey, r: GistKey, k: GistKey): nat
  {
    Abs(Differing(l, k, 8 * siglen) as int - Differing(r, k, 8 * siglen) as int)
  }

  /** The costs in offset order, before sorting. */
  method Costs(siglen: nat, keys: seq<GistKey>, l: GistKey, r: GistKey) returns (cs: seq<SplitCost>)
    requires |keys| > 0 && AllShaped(keys, siglen) && Shaped(l, siglen) && Shaped(r, siglen)
    ensures Positions(cs) == Offsets(|keys|)
    ensures forall i | 0 <= i < |cs| :: cs[i].cost == Cost(siglen, l, r, keys[i + 1])
  {
    hide Differing, Shaped;
    cs := [];
    for j := 1 to |keys|
      invariant |cs| == j - 1
      invariant forall i | 0 <= i < |cs| :: cs[i].pos == i + 1
      invariant forall i | 0 <= i < |cs| :: cs[i].cost == Cost(siglen, l, r, keys[i + 1])
    {
      var sizeAlpha := HemDist(siglen, l, keys[j]);
      var sizeBeta := HemDist(siglen, r, keys[j]);
      cs := cs + [SplitCost(j, Abs(sizeAlpha as int - sizeBeta as int))];
    }
  }

  function Abs(x: int): nat { if x < 0 then -x else x }

  // ---------- which side a key goes to ----------

  /** A seed goes to its own side, any other key where it differs less, with the bias. */
  ghost predicate ToLeft(siglen: nat, keys: seq<GistKey>, seed1: nat, seed2: nat, j: nat, a: nat, b: nat,
      dl: GistKey, dr: GistKey)
    requires j < |keys|
  {
    || j == seed1
    || (j != seed2 &&
        Differing(dl, keys[j], 8 * siglen) as real < Differing(dr, keys[j], 8 * siglen) as real + WishF(a, b))
  }

  /** Key `j` is the next one on the left side after the first `a`, or the next one on
      the right side after the first `b`, by what those have collected. */
  ghost predicate GoesBy(siglen: nat, keys: seq<GistKey>, left: seq<nat>, right: seq<nat>, seed1: nat, seed2: nat,
      j: nat, a: nat, b: nat, dl: GistKey, dr: GistKey)
  {
    && a <= |left| && b <= |right| && j < |keys|
    && Side(siglen, keys, left[..a], dl, seed1) && Side(siglen, keys, right[..b], dr, seed2)
    && if ToLeft(siglen, keys, seed1, seed2, j, a, b, dl, dr)
       then a < |left| && left[a] == j
       else b < |right| && right[b] == j
  }

  ghost predicate PlacedAt(siglen: nat, keys: seq<GistKey>, left: seq<nat>, right: seq<nat>, seed1: nat, seed2: nat,
      order: seq<nat>, k: nat)
    requires k < |order|
  {
    exists a: nat, b: nat, dl, dr ::
      a + b == k && GoesBy(siglen, keys, left, right, seed1, seed2, order[k], a, b, dl, dr)
  }

  lemma {:induction false} PlacedStays(siglen: nat, keys: seq<GistKey>, left: seq<nat>, right: seq<nat>,
      seed1: nat, seed2: nat, order: seq<nat>, k: nat, left': seq<nat>, right': seq<nat>)
    requires k < |order| && PlacedAt(siglen, keys, left, right, seed1, seed2, order, k)
    requires left <= left' && right <= right'
    ensures PlacedAt(siglen, keys, left', right', seed1, seed2, order, k)
  {
    hide Side, ToLeft;
    var a: nat, b: nat, dl, dr :| a + b == k && GoesBy(siglen, keys, left, right, seed1, seed2, order[k], a, b, dl, dr);
    assert left'[..a] == left[..a] && right'[..b] == right[..b];
    assert GoesBy(siglen, keys, left', right', seed1, seed2, order[k], a, b, dl, dr);
  }

  ghost predicate AllPlaced(siglen: nat, keys: seq<GistKey>, left: seq<nat>, right: seq<nat>, seed1: nat, seed2: nat,
      order: seq<nat>, n: nat)
    requires n <= |order|
  {
    forall k | 0 <= k < n :: PlacedAt(siglen, keys, left, right, seed1, seed2, order, k)
  }

  lemma {:induction false} AllPlacedStep(siglen: nat, keys: seq<GistKey>, left: seq<nat>, right: seq<nat>,
      seed1: nat, seed2: nat, order: seq<nat>, k: nat, dl: GistKey, dr: GistKey, left': seq<nat>, right': seq<nat>)
    requires k < |order| && AllPlaced(siglen, keys, left, right, seed1, seed2, order, k) && |left| + |right| == k
    requires order[k] < |keys| && Side(siglen, keys, left, dl, seed1) && Side(siglen, keys, right, dr, seed2)
    requires if ToLeft(siglen, keys, seed1, seed2, order[k], |left|, |right|, dl, dr)
             then left' == left + [order[k]] && right' == right
             else left' == left && right' == right + [order[k]]
    ensures AllPlaced(siglen, keys, left', right', seed1, seed2, order, k + 1)
  {
    hide PlacedAt, ToLeft, Side;
    assert left'[..|left|] == left && right'[..|right|] == right;
    assert GoesBy(siglen, keys, left', right', seed1, seed2, order[k], |left|, |right|, dl, dr);
    hide GoesBy;
    forall l | 0 <= l < k + 1
      ensures PlacedAt(siglen, keys, left', right', seed1, seed2, order, l)
    {
      if l < k {
        PlacedStays(siglen, keys, left, right, seed1, seed2, order, l, left', right');
      } else {
        PlacedNow(siglen, keys, left', right', seed1, seed2, order, k, |left|, |right|, dl, dr);
      }
    }
  }

  lemma {:induction false} PlacedNow(siglen: nat, keys: seq<GistKey>, left: seq<nat>, right: seq<nat>,
      seed1: nat, seed2: nat, order: seq<nat>, k: nat, a: nat, b: nat, dl: GistKey, dr: GistKey)
    requires k < |order| && a + b == k && GoesBy(siglen, keys, left, right, seed1, seed2, order[k], a, b, dl, dr)
    ensures PlacedAt(siglen, keys, left, right, seed1, seed2, order, k)
  {
  }

  lemma {:induction false} AllPlacedStart(siglen: nat, keys: seq<GistKey>, seed1: nat, seed2: nat, order: seq<nat>)
    ensures AllPlaced(siglen, keys, [], [], seed1, seed2, order, 0)
  {
  }

  /** The offsets come in order of their cost. */
  ghost predicate ByCost(siglen: nat, keys: seq<GistKey>, seed1: nat, seed2: nat, order: seq<nat>)
    requires seed1 < |keys| && seed2 < |keys|
  {
    && (forall i | 0 <= i < |order| :: order[i] < |keys|)
    && forall i, j | 0 <= i < j < |order| ::
         Cost(siglen, keys[seed1], keys[seed2], keys[order[i]]) <=
         Cost(siglen, keys[seed1], keys[seed2], keys[order[j]])
  }

  lemma {:induction false} SortedByCost(siglen: nat, keys: seq<GistKey>, seed1: nat, seed2: nat,
      cs: seq<SplitCost>, order: seq<SplitCost>)
    requires seed1 < |keys| && seed2 < |keys| && Positions(cs) == Offsets(|keys|)
    requires forall i | 0 <= i < |cs| :: cs[i].cost == Cost(siglen, keys[seed1], keys[seed2], keys[i + 1])
    requires multiset(order) == multiset(cs) && forall i, j | 0 <= i < j < |order| :: order[i].cost <= order[j].cost
    ensures ByCost(siglen, keys, seed1, seed2, Positions(order))
  {
    hide Cost, Positions, Offsets;
    forall i | 0 <= i < |order|
      ensures order[i].pos < |keys| && order[i].cost == Cost(siglen, keys[seed1], keys[seed2], keys[order[i].pos])
    {
      assert order[i] in multiset(order);
      assert order[i] in cs;
      var l :| 0 <= l < |cs| && cs[l] == order[i];
      assert Positions(cs)[l] == l + 1;
    }
  }

  /** ghstore_picksplit: entry 0 of the vector is unused. The two sides share out
      the offsets 1 .. n - 1, neither is empty, and each key has exactly the bits
      of the keys put on its side. The keys are taken in order of their cost and each
      is put where it differs less, with the bias towards the shorter side. */
  method PickSplit(siglen: nat, keys: seq<GistKey>)
    returns (left: seq<nat>, right: seq<nat>, ldatum: GistKey, rdatum: GistKey,
      ghost s1: nat, ghost s2: nat, ghost ps: seq<nat>)
    requires |keys| >= 3 && AllShaped(keys, siglen)
    ensures left != [] && right != []
    ensures multiset(left) + multiset(right) == multiset(Offsets(|keys|))
    ensures forall x | x in left || x in right :: x < |keys|
    ensures Shaped(ldatum, siglen) && Collected(siglen, keys, ldatum, Elements(left))
    ensures Shaped(rdatum, siglen) && Collected(siglen, keys, rdatum, Elements(right))
    ensures s1 < |keys| && s2 < |keys| && multiset(ps) == multiset(Offsets(|keys|))
    ensures ByCost(siglen, keys, s1, s2, ps) && AllPlaced(siglen, keys, left, right, s1, s2, ps, |ps|)
  {
    hide Differing, Shaped, AllShaped, Collected, WishF, Grow, Elements, Positions, Offsets, Side,
      AllPlaced, ByCost, Cost, PlacedAt, GoesBy;
    var seed1, seed2 := PickSeeds(siglen, keys);
    s1, s2 := seed1, seed2;
    ShapedAt(keys, siglen, seed1);
    ShapedAt(keys, siglen, seed2);
    left, right, ldatum, rdatum := [], [], keys[seed1], keys[seed2];
    SideStart(siglen, keys, seed1);
    SideStart(siglen, keys, seed2);
    var costs := Costs(siglen, keys, ldatum, rdatum);
    var order := SortCosts(costs);
    ps := Positions(order);
    SortedByCost(siglen, keys, seed1, seed2, costs, order);
    AllPlacedStart(siglen, keys, seed1, seed2, ps);
    for k := 0 to |order|
      invariant Side(siglen, keys, left, ldatum, seed1) && Side(siglen, keys, right, rdatum, seed2)
      invariant multiset(left) + multiset(right) == multiset(ps[..k]) && |left| + |right| == k
      invariant (seed1 in ps[..k] ==> seed1 in left) && (seed2 in ps[..k] ==> seed2 in right)
      invariant AllPlaced(siglen, keys, left, right, seed1, seed2, ps, k)
    {
      var j := order[k].pos;
      assert ps[..k + 1] == ps[..k] + [j];
      OffsetInRange(ps, k, |keys|);
      ghost var l0, r0, dl, dr := left, right, ldatum, rdatum;
      if j == seed1 {
        SideSeed(siglen, keys, left, ldatum, seed1);
        left := left + [j];
      } else if j == seed2 {
        SideSeed(siglen, keys, right, rdatum, seed2);
        right := right + [j];
      } else {
        left, right, ldatum, rdatum := Place(siglen, keys, j, left, right, ldatum, rdatum, seed1, seed2);
      }
      AllPlacedStep(siglen, keys, l0, r0, seed1, seed2, ps, k, dl, dr, left, right);
    }
    assert ps[..|order|] == ps;
    OffsetListed(ps, |keys|, seed1);
    OffsetListed(ps, |keys|, seed2);
    SideDone(siglen, keys, left, ldatum, seed1);
    SideDone(siglen, keys, right, rdatum, seed2);
    SideFacts(siglen, keys, left, ldatum, seed1);
    SideFacts(siglen, keys, right, rdatum, seed2);
  }

  /** Put a key on the side it is closer to, leaning towards the shorter side. */
  method Place(siglen: nat, keys: seq<GistKey>, j: nat,
      left0: seq<nat>, right0: seq<nat>, ldatum0: GistKey, rdatum0: GistKey, ghost seed1: nat, ghost seed2: nat)
    returns (left: seq<nat>, right: seq<nat>, ldatum: GistKey, rdatum: GistKey)
    requires AllShaped(keys, siglen) && j < |keys|
    requires Side(siglen, keys, left0, ldatum0, seed1) && Side(siglen, keys, right0, rdatum0, seed2)
    ensures Side(siglen, keys, left, ldatum, seed1) && Side(siglen, keys, right, rdatum, seed2)
    ensures
      if Differing(ldatum0, keys[j], 8 * siglen) as real
        < Differing(rdatum0, keys[j], 8 * siglen) as real + WishF(|left0|, |right0|)
      then left == left0 + [j] && right == right0 && rdatum == rdatum0
      else right == right0 + [j] && left == left0 && ldatum == ldatum0
  {
    hide Differing, Shaped, AllShaped, Collected, WishF, Grow, Elements, Side;
    ShapedAt(keys, siglen, j);
    SideFacts(siglen, keys, left0, ldatum0, seed1);
    SideFacts(siglen, keys, right0, rdatum0, seed2);
    left, right, ldatum, rdatum := left0, right0, ldatum0, rdatum0;
    var sizeAlpha := HemDist(siglen, ldatum, keys[j]);
    var sizeBeta := HemDist(siglen, rdatum, keys[j]);
    if sizeAlpha as real < sizeBeta as real + WishF(|left|, |right|) {
      SideGrow(siglen, keys, left, ldatum, seed1, j);
      ldatum := Grow(siglen, ldatum, keys[j]);
      left := left + [j];
    } else {
      SideGrow(siglen, keys, right, rdatum, seed2, j);
      rdatum := Grow(siglen, rdatum, keys[j]);
      right := right + [j];
    }
  }

  lemma {:induction false} ShapedAt(keys: seq<GistKey>, siglen: nat, j: nat)
    requires AllShaped(keys, siglen) && j < |keys|
    ensures Shaped(keys[j], siglen)
  {
  }

  lemma {:induction false} SideFacts(siglen: nat, keys: seq<GistKey>, offsets: seq<nat>, datum: GistKey, seed: nat)
    requires Side(siglen, keys, offsets, datum, seed)
    ensures Shaped(datum, siglen) && forall x | x in offsets :: x < |keys|
  {
  }

  lemma {:induction false} OffsetInRange(ps: seq<nat>, k: nat, n: nat)
    requires n > 0 && multiset(ps) == multiset(Offsets(n)) && k < |ps|
    ensures 1 <= ps[k] < n
  {
    hide Offsets;
    assert ps[k] in multiset(ps);
    assert ps[k] in Offsets(n);
  }

  lemma {:induction false} OffsetListed(ps: seq<nat>, n: nat, j: nat)
    requires n > 0 && multiset(ps) == multiset(Offsets(n)) && 1 <= j < n
    ensures j in ps
  {
    hide Offsets;
    assert Offsets(n)[j - 1] == j;
    assert j in multiset(Offsets(n));
    assert j in multiset(ps);
  }

  /** A key of a split is fit to stand above its side. */
  lemma {:induction false} SideIncludes(siglen: nat, keys: seq<GistKey>, offsets: seq<nat>, datum: GistKey, i: nat)
    requires (forall x | x in offsets :: x < |keys|) && i < |offsets| && offsets[i] < |keys|
    requires Collected(siglen, keys, datum, Elements(offsets))
    ensures Includes(datum, keys[offsets[i]], siglen)
  {
  }

  // ---------- the halves as index nodes ----------

  function Pick(ts: seq<Tree>, offsets: seq<nat>): (r: seq<Tree>)
    requires forall x | x in offsets :: x < |ts|
    ensures |r| == |offsets| && forall i | 0 <= i < |offsets| :: offsets[i] in offsets && r[i] == ts[offsets[i]]
  {
    seq(|offsets|, i requires 0 <= i < |offsets| => assert offsets[i] in offsets; ts[offsets[i]])
  }

  /** The entries of a page, from offset 1 on, with the keys PickSplit is given. */
  ghost predicate OnPage(crc: Crc, siglen: nat, ts: seq<Tree>, keys: seq<GistKey>)
    requires siglen > 0
  {
    && |ts| == |keys| >= 3
    && forall j | 1 <= j < |ts| :: Built(crc, siglen, ts[j]) && keys[j] == KeyOf(crc, siglen, ts[j])
  }

  lemma {:induction false} SideBuilds(crc: Crc, siglen: nat, ts: seq<Tree>, keys: seq<GistKey>, offsets: seq<nat>,
                                      datum: GistKey)
    requires siglen > 0 && OnPage(crc, siglen, ts, keys) && forall x | x in offsets :: 1 <= x < |ts|
    requires Shaped(datum, siglen) && Collected(siglen, keys, datum, Elements(offsets))
    ensures Built(crc, siglen, BySplit(datum, Pick(ts, offsets)))
  {
    hide Collected, Shaped, Includes, Elements;
    var parts := Pick(ts, offsets);
    forall i | 0 <= i < |parts|
      ensures Built(crc, siglen, parts[i]) && Includes(datum, KeyOf(crc, siglen, parts[i]), siglen)
    {
      assert offsets[i] in offsets;
      SideIncludes(siglen, keys, offsets, datum, i);
    }
  }

  lemma {:induction false} PickedLeaf(ts: seq<Tree>, offsets: seq<nat>, datum: GistKey, j: nat, items: seq<Item>)
    requires (forall x | x in offsets :: x < |ts|) && j in offsets && HasLeaf(ts[j], items)
    ensures HasLeaf(BySplit(datum, Pick(ts, offsets)), items)
  {
    var i :| 0 <= i < |offsets| && offsets[i] == j;
    assert HasLeaf(Pick(ts, offsets)[i], items);
  }

  /** What PickSplit returns for a page makes two nodes of the index, and every
      hstore stored under the page is stored under one of them. */
  lemma {:induction false} SplitBuilds(crc: Crc, siglen: nat, ts: seq<Tree>, keys: seq<GistKey>,
                                       left: seq<nat>, right: seq<nat>, ldatum: GistKey, rdatum: GistKey)
    requires siglen > 0 && OnPage(crc, siglen, ts, keys)
    requires multiset(left) + multiset(right) == multiset(Offsets(|keys|))
    requires forall x | x in left || x in right :: x < |keys|
    requires Shaped(ldatum, siglen) && Collected(siglen, keys, ldatum, Elements(left))
    requires Shaped(rdatum, siglen) && Collected(siglen, keys, rdatum, Elements(right))
    ensures Built(crc, siglen, BySplit(ldatum, Pick(ts, left))) && Built(crc, siglen, BySplit(rdatum, Pick(ts, right)))
    ensures forall j, items | 1 <= j < |ts| && HasLeaf(ts[j], items) ::
      HasLeaf(BySplit(ldatum, Pick(ts, left)), items) || HasLeaf(BySplit(rdatum, Pick(ts, right)), items)
  {
    hide Collected, Shaped, Elements, Built, HasLeaf, Pick;
    var ps := left + right;
    assert multiset(ps) == multiset(Offsets(|keys|));
    forall x | x in left || x in right
      ensures 1 <= x < |ts|
    {
      assert x in multiset(ps);
      assert x in ps;
      var k :| 0 <= k < |ps| && ps[k] == x;
      OffsetInRange(ps, k, |keys|);
    }
    SideBuilds(crc, siglen, ts, keys, left, ldatum);
    SideBuilds(crc, siglen, ts, keys, right, rdatum);
    forall j, items | 1 <= j < |ts| && HasLeaf(ts[j], items)
      ensures HasLeaf(BySplit(ldatum, Pick(ts, left)), items) || HasLeaf(BySplit(rdatum, Pick(ts, right)), items)
    {
      OffsetListed(ps, |keys|, j);
      if j in left {
        PickedLeaf(ts, left, ldatum, j, items);
      } else {
        PickedLeaf(ts, right, rdatum, j, items);
      }
    }
  }
}
