/** When cube_cmp_v0, the comparison behind the btree operators, is an order: the
    sequence in which bounds are compared depends on the two dimensions, so the
    comparison is transitive for some combinations of dimensions only. */
module CubeOrder {
  import opened CubeBox

  lemma {:induction false} CmpLowsTransitive(a: Box, b: Box, c: Box, i: nat, n: nat)
    requires Valid(a) && Valid(b) && Valid(c)
    requires CmpLows(a, b, i, n) <= 0 && CmpLows(b, c, i, n) <= 0
    ensures CmpLows(a, c, i, n) <= 0
    ensures CmpLows(a, c, i, n) == 0 ==> CmpLows(a, b, i, n) == 0 && CmpLows(b, c, i, n) == 0
    decreases n - i
  {
    hide Lo;
    if i < n && Lo(a, i) == Lo(b, i) == Lo(c, i) { CmpLowsTransitive(a, b, c, i + 1, n); }
  }

  lemma {:induction false} CmpHighsTransitive(a: Box, b: Box, c: Box, i: nat, n: nat)
    requires Valid(a) && Valid(b) && Valid(c)
    requires CmpHighs(a, b, i, n) <= 0 && CmpHighs(b, c, i, n) <= 0
    ensures CmpHighs(a, c, i, n) <= 0
    ensures CmpHighs(a, c, i, n) == 0 ==> CmpHighs(a, b, i, n) == 0 && CmpHighs(b, c, i, n) == 0
    decreases n - i
  {
    hide Hi;
    if i < n && Hi(a, i) == Hi(b, i) == Hi(c, i) { CmpHighsTransitive(a, b, c, i + 1, n); }
  }

  /** Comparison with fixed cuts: bounds in the first m dimensions, then those up
      to n, then the number of dimensions. */
  function CmpAt(a: Box, b: Box, m: nat, n: nat): (r: int)
    requires Valid(a) && Valid(b)
  {
    if CmpLows(a, b, 0, m) != 0 then CmpLows(a, b, 0, m)
    else if CmpHighs(a, b, 0, m) != 0 then CmpHighs(a, b, 0, m)
    else if CmpLows(a, b, m, n) != 0 then CmpLows(a, b, m, n)
    else if CmpHighs(a, b, m, n) != 0 then CmpHighs(a, b, m, n)
    else a.dim - b.dim
  }

  lemma {:induction false} CmpAtTransitive(a: Box, b: Box, c: Box, m: nat, n: nat)
    requires Valid(a) && Valid(b) && Valid(c) && CmpAt(a, b, m, n) <= 0 && CmpAt(b, c, m, n) <= 0
    ensures CmpAt(a, c, m, n) <= 0
  {
    hide CmpLows, CmpHighs, Lo, Hi;
    CmpLowsTransitive(a, b, c, 0, m);
    if CmpLows(a, c, 0, m) == 0 {
      CmpHighsTransitive(a, b, c, 0, m);
      if CmpHighs(a, c, 0, m) == 0 {
        CmpLowsTransitive(a, b, c, m, n);
        if CmpLows(a, c, m, n) == 0 { CmpHighsTransitive(a, b, c, m, n); }
      }
    }
  }

  lemma {:induction false} NoneMissing(a: Box, b: Box, m: nat, n: nat)
    requires Valid(a) && Valid(b) && a.dim <= m && b.dim <= m
    ensures CmpLows(a, b, m, n) == CmpHighs(a, b, m, n) == 0
  {
    CmpLowsAntisymmetric(a, b, m, n);
    CmpHighsAntisymmetric(a, b, m, n);
  }

  /** Dimensions d and e, with two boxes of dimension e only where d is 0 or e. */
  predicate OneCut(a: Box, b: Box, d: nat, e: nat)
  {
    && d <= e && (a.dim == d || a.dim == e) && (b.dim == d || b.dim == e)
    && (a.dim == b.dim == e ==> d == e || d == 0)
  }

  lemma {:induction false} CmpIsAt(a: Box, b: Box, d: nat, e: nat)
    requires Valid(a) && Valid(b) && OneCut(a, b, d, e)
    ensures Cmp(a, b) <= 0 <==> CmpAt(a, b, d, e) <= 0
  {
    hide CmpLows, CmpHighs, Lo, Hi;
    CmpNone(a, b, a.dim);
    CmpNone(a, b, d);
    if a.dim == b.dim == d { NoneMissing(a, b, d, e); }
  }

  ghost predicate TransitiveOn(d1: nat, d2: nat, d3: nat)
  {
    forall a, b, c | Valid(a) && Valid(b) && Valid(c) && multiset{a.dim, b.dim, c.dim} == multiset{d1, d2, d3} ::
      Cmp(a, b) <= 0 && Cmp(b, c) <= 0 ==> Cmp(a, c) <= 0
  }

  /** The dimensions for which one sequence of bounds serves all three pairs. */
  predicate Agreeing(d1: nat, d2: nat, d3: nat) { d1 == d2 || (d1 == 0 && d2 == d3) }

  lemma {:induction false} AgreeingTransitive(d1: nat, d2: nat, d3: nat, a: Box, b: Box, c: Box)
    requires d1 <= d2 <= d3 && Agreeing(d1, d2, d3) && Valid(a) && Valid(b) && Valid(c)
    requires multiset{a.dim, b.dim, c.dim} == multiset{d1, d2, d3}
    requires Cmp(a, b) <= 0 && Cmp(b, c) <= 0
    ensures Cmp(a, c) <= 0
  {
    hide Cmp, CmpAt;
    DimsAre(a.dim, b.dim, c.dim, d1, d2, d3);
    CmpIsAt(a, b, d1, d3);
    CmpIsAt(b, c, d1, d3);
    CmpIsAt(a, c, d1, d3);
    CmpAtTransitive(a, b, c, d1, d3);
  }

  lemma {:induction false} DimsAre(x: nat, y: nat, z: nat, d1: nat, d2: nat, d3: nat)
    requires multiset{x, y, z} == multiset{d1, d2, d3} && d1 <= d2 <= d3
    ensures (x == d1 && y == d2 && z == d3) || (x == d1 && y == d3 && z == d2) || (x == d2 && y == d1 && z == d3)
         || (x == d2 && y == d3 && z == d1) || (x == d3 && y == d1 && z == d2) || (x == d3 && y == d2 && z == d1)
  {
    assert x in multiset{d1, d2, d3} && y in multiset{d1, d2, d3} && z in multiset{d1, d2, d3};
    assert multiset{x, y, z}[x] == multiset{d1, d2, d3}[x] && multiset{x, y, z}[y] == multiset{d1, d2, d3}[y];
    assert multiset{x, y, z}[d1] == multiset{d1, d2, d3}[d1] && multiset{x, y, z}[d2] == multiset{d1, d2, d3}[d2];
  }

  // ---------- cycles ----------

  function Zeros(n: nat): (z: seq<real>)
    ensures |z| == n && forall i | 0 <= i < n :: z[i] == 0.0
  {
    seq(n, _ => 0.0)
  }

  function Corners(lo: seq<real>, hi: seq<real>): (b: Box)
    requires |lo| == |hi|
    ensures Valid(b)
  {
    Box(false, |lo|, lo + hi)
  }

  lemma {:induction false} CornerBounds(lo: seq<real>, hi: seq<real>, i: nat)
    requires |lo| == |hi| && forall k | 0 <= k < |lo| :: lo[k] <= hi[k]
    ensures Lo(Corners(lo, hi), i) == (if i < |lo| then lo[i] else 0.0)
    ensures Hi(Corners(lo, hi), i) == (if i < |lo| then hi[i] else 0.0)
  {
  }

  lemma {:induction false} LowerFirst(a: Box, b: Box, i: nat, n: nat, k: nat)
    requires Valid(a) && Valid(b) && i <= k < n && Lo(a, k) < Lo(b, k)
    requires forall j: nat | i <= j < k :: Lo(a, j) == Lo(b, j)
    ensures CmpLows(a, b, i, n) == -1
    decreases k - i
  {
    if i < k { LowerFirst(a, b, i + 1, n, k); }
  }

  lemma {:induction false} EqualLows(a: Box, b: Box, n: nat)
    requires Valid(a) && Valid(b) && forall j: nat | j < n :: Lo(a, j) == Lo(b, j)
    ensures CmpLows(a, b, 0, n) == 0
  {
    CmpLowsAntisymmetric(a, b, 0, n);
  }

  /** A point-like box of dimension d1 whose first side is x long. */
  function Bar(dim: nat, x: real): Box
    requires dim > 0
  {
    Corners(Zeros(dim), Zeros(dim)[0 := x])
  }

  lemma {:induction false} BarBounds(dim: nat, x: real, i: nat)
    requires dim > 0 && x >= 0.0
    ensures Valid(Bar(dim, x)) && Lo(Bar(dim, x), i) == 0.0 && Hi(Bar(dim, x), i) == (if i == 0 then x else 0.0)
  {
    CornerBounds(Zeros(dim), Zeros(dim)[0 := x], i);
  }

  /** Like Bar, but at the coordinate y in dimension k. */
  function Shifted(dim: nat, x: real, k: nat, y: real): Box
    requires 0 < k < dim
  {
    Corners(Zeros(dim)[k := y], Zeros(dim)[0 := x][k := if y < 0.0 then 0.0 else y])
  }

  lemma {:induction false} ShiftedBounds(dim: nat, x: real, k: nat, y: real, i: nat)
    requires 0 < k < dim && x >= 0.0
    ensures Valid(Shifted(dim, x, k, y))
    ensures Lo(Shifted(dim, x, k, y), i) == (if i == k then y else 0.0)
    ensures Hi(Shifted(dim, x, k, y), i) == (if i == 0 then x else if i == k && y >= 0.0 then y else 0.0)
  {
    CornerBounds(Zeros(dim)[k := y], Zeros(dim)[0 := x][k := if y < 0.0 then 0.0 else y], i);
  }

  /** Each of the three is below the next one, and the last below the first. */
  predicate Cycle(a: Box, b: Box, c: Box)
    requires Valid(a) && Valid(b) && Valid(c)
  {
    Cmp(a, b) < 0 && Cmp(b, c) < 0 && Cmp(c, a) < 0
  }

  /** Bars of growing length, the longest one displaced where the shortest has no
      dimension: its length decides against that one, its place against the other. */
  lemma {:induction false} CycleThroughHighs(d1: nat, d2: nat, d3: nat)
    requires 0 < d1 < d2 <= d3
    ensures var a, b, c := Bar(d1, 5.0), Bar(d2, 6.0), Shifted(d3, 4.0, d1, 1.0);
            Valid(a) && Valid(b) && Valid(c) && a.dim == d1 && b.dim == d2 && c.dim == d3 && Cycle(a, b, c)
  {
    hide CmpLows, CmpHighs, Lo, Hi, Bar, Shifted;
    var a, b, c := Bar(d1, 5.0), Bar(d2, 6.0), Shifted(d3, 4.0, d1, 1.0);
    CycleDims(d1, d2, d3);
    forall i: nat
      ensures Lo(a, i) == Lo(b, i) == 0.0 && Lo(c, i) == (if i == d1 then 1.0 else 0.0)
      ensures Hi(a, 0) == 5.0 && Hi(b, 0) == 6.0 && Hi(c, 0) == 4.0
    {
      BarBounds(d1, 5.0, i);
      BarBounds(d2, 6.0, i);
      ShiftedBounds(d3, 4.0, d1, 1.0, i);
      BarBounds(d1, 5.0, 0);
      BarBounds(d2, 6.0, 0);
      ShiftedBounds(d3, 4.0, d1, 1.0, 0);
    }
    EqualLows(a, b, d1);
    FirstHigh(a, b, d1);
    LowerFirst(b, c, 0, d2, d1);
    EqualLows(c, a, d1);
    FirstHigh(c, a, d1);
  }

  lemma {:induction false} CycleDims(d1: nat, d2: nat, d3: nat)
    requires 0 < d1 < d2 <= d3
    ensures Bar(d1, 5.0).dim == d1 && Bar(d2, 6.0).dim == d2 && Shifted(d3, 4.0, d1, 1.0).dim == d3
    ensures Valid(Bar(d1, 5.0)) && Valid(Bar(d2, 6.0)) && Valid(Shifted(d3, 4.0, d1, 1.0))
  {
  }

  lemma {:induction false} FirstHigh(a: Box, b: Box, n: nat)
    requires Valid(a) && Valid(b) && n > 0 && Hi(a, 0) < Hi(b, 0)
    ensures CmpHighs(a, b, 0, n) == -1
  {
  }

  /** The empty box, a bar, and a longer bar displaced below zero where the first
      bar has no dimension. */
  lemma {:induction false} CycleThroughZero(d2: nat, d3: nat)
    requires 0 < d2 < d3
    ensures var a, b, c := Corners([], []), Bar(d2, 1.0), Shifted(d3, 2.0, d2, -1.0);
            Valid(a) && Valid(b) && Valid(c) && a.dim == 0 && b.dim == d2 && c.dim == d3 && Cycle(a, b, c)
  {
    hide CmpLows, CmpHighs, Lo, Hi, Bar, Shifted;
    var a, b, c := Corners([], []), Bar(d2, 1.0), Shifted(d3, 2.0, d2, -1.0);
    ZeroDims(d2, d3);
    forall i: nat
      ensures Lo(a, i) == Lo(b, i) == Hi(a, i) == 0.0 && Lo(c, i) == (if i == d2 then -1.0 else 0.0)
      ensures Hi(b, 0) == 1.0 && Hi(c, 0) == 2.0
    {
      CornerBounds([], [], i);
      BarBounds(d2, 1.0, i);
      ShiftedBounds(d3, 2.0, d2, -1.0, i);
      BarBounds(d2, 1.0, 0);
      ShiftedBounds(d3, 2.0, d2, -1.0, 0);
    }
    CmpNone(a, b, 0);
    EqualLows(a, b, d2);
    FirstHigh(a, b, d2);
    EqualLows(b, c, d2);
    FirstHigh(b, c, d2);
    CmpNone(c, a, 0);
    LowerFirst(c, a, 0, d3, d2);
  }

  lemma {:induction false} ZeroDims(d2: nat, d3: nat)
    requires 0 < d2 < d3
    ensures Bar(d2, 1.0).dim == d2 && Shifted(d3, 2.0, d2, -1.0).dim == d3
    ensures Valid(Bar(d2, 1.0)) && Valid(Shifted(d3, 2.0, d2, -1.0))
  {
  }

  lemma {:induction false} CycleBreaks(a: Box, b: Box, c: Box)
    requires Valid(a) && Valid(b) && Valid(c) && Cycle(a, b, c)
    ensures !TransitiveOn(a.dim, b.dim, c.dim)
  {
    hide Cmp;
    CmpAntisymmetric(a, c);
  }

  /** cube_cmp is transitive on boxes of three given dimensions, in whatever order
      they come, exactly when the two smaller dimensions agree or the smallest is
      zero and the two greater agree. */
  lemma {:induction false} CmpTransitiveExactly(d1: nat, d2: nat, d3: nat)
    requires d1 <= d2 <= d3
    ensures TransitiveOn(d1, d2, d3) <==> Agreeing(d1, d2, d3)
  {
    hide Cmp;
    if Agreeing(d1, d2, d3) {
      forall a, b, c | Valid(a) && Valid(b) && Valid(c) && multiset{a.dim, b.dim, c.dim} == multiset{d1, d2, d3}
          && Cmp(a, b) <= 0 && Cmp(b, c) <= 0
        ensures Cmp(a, c) <= 0
      {
        AgreeingTransitive(d1, d2, d3, a, b, c);
      }
    } else if d1 > 0 {
      CycleThroughHighs(d1, d2, d3);
      CycleBreaks(Bar(d1, 5.0), Bar(d2, 6.0), Shifted(d3, 4.0, d1, 1.0));
    } else {
      CycleThroughZero(d2, d3);
      CycleBreaks(Corners([], []), Bar(d2, 1.0), Shifted(d3, 2.0, d2, -1.0));
    }
  }
}
