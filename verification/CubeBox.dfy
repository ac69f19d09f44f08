/** Boxes of mixed dimension (cube.c), over the reals. A dimension a box does not
    have reads as zero. */
module CubeBox {

  /** NDBOX: corners in either order; a point stores one corner only. */
  datatype Box = Box(point: bool, dim: nat, x: seq<real>)

  predicate Valid(b: Box)
  {
    |b.x| == if b.point then b.dim else 2 * b.dim
  }

  /** LL_COORD and UR_COORD */
  function LL(b: Box, i: nat): real
    requires Valid(b) && i < b.dim
  {
    b.x[i]
  }

  function UR(b: Box, i: nat): real
    requires Valid(b) && i < b.dim
  {
    if b.point then b.x[i] else b.x[i + b.dim]
  }

  function Min(a: real, b: real): real { if a < b then a else b }

  function Max(a: real, b: real): real { if a > b then a else b }

  /** The lower and upper bound in dimension i, whichever way round the corners are. */
  function Lo(b: Box, i: nat): real
    requires Valid(b)
  {
    if i < b.dim then Min(LL(b, i), UR(b, i)) else 0.0
  }

  function Hi(b: Box, i: nat): (h: real)
    requires Valid(b)
    ensures Lo(b, i) <= h
  {
    if i < b.dim then Max(LL(b, i), UR(b, i)) else 0.0
  }

  // ---------- union ----------

  /** `u` is the smallest box around both: its bounds are the outer bounds. */
  ghost predicate IsUnion(u: Box, a: Box, b: Box)
    requires Valid(u) && Valid(a) && Valid(b)
  {
    && u.dim == (if a.dim < b.dim then b.dim else a.dim)
    && forall i: nat :: Lo(u, i) == Min(Lo(a, i), Lo(b, i)) && Hi(u, i) == Max(Hi(a, i), Hi(b, i))
  }

  /** cube_is_point_internal */
  method IsPoint(b: Box) returns (r: bool)
    requires Valid(b)
    ensures r <==> forall i | 0 <= i < b.dim :: LL(b, i) == UR(b, i)
  {
    if b.point {
      return true;
    }
    for i := 0 to b.dim
      invariant forall k | 0 <= k < i :: LL(b, k) == UR(b, k)
    {
      if LL(b, i) != UR(b, i) {
        return false;
      }
    }
    return true;
  }

  /** cube_union_v0; `aliased` says that both arguments are the same object. */
  method UnionV0(a: Box, b: Box, aliased: bool) returns (u: Box)
    requires Valid(a) && Valid(b) && (aliased ==> a == b)
    ensures Valid(u) && IsUnion(u, a, b)
    ensures aliased ==> u == a
  {
    if aliased {
      return a;
    }
    hide Lo, Hi;
    var p, q := a, b;
    if a.dim < b.dim {
      p, q := b, a;
    }
    var x := OuterBounds(p, q);
    u := Box(false, p.dim, x);
    UnionBounds(u, p, q);
    var flat := IsPoint(u);
    if flat {
      var pt := Box(true, p.dim, x[..p.dim]);
      PointBounds(u, pt);
      u := pt;
    }
    assert IsUnion(u, p, q);
  }

  /** The two loops of cube_union_v0, `p` having no fewer dimensions than `q`. */
  method OuterBounds(p: Box, q: Box) returns (bounds: seq<real>)
    requires Valid(p) && Valid(q) && q.dim <= p.dim
    ensures |bounds| == 2 * p.dim
    ensures forall k: nat | k < p.dim ::
      bounds[k] == Min(Lo(p, k), Lo(q, k)) && bounds[k + p.dim] == Max(Hi(p, k), Hi(q, k))
  {
    hide Min, Max, Lo, Hi, LL, UR;
    var dim := p.dim;
    var x := new real[2 * dim];
    var i := 0;
    while i < q.dim
      invariant i <= q.dim
      invariant forall k: nat | k < i :: x[k] == Min(Lo(p, k), Lo(q, k))
      invariant forall k: nat | k < i :: x[k + dim] == Max(Hi(p, k), Hi(q, k))
    {
      BoundsAt(p, q, i);
      x[i] := Min(Min(LL(p, i), UR(p, i)), Min(LL(q, i), UR(q, i)));
      x[i + dim] := Max(Max(LL(p, i), UR(p, i)), Max(LL(q, i), UR(q, i)));
      i := i + 1;
    }
    while i < dim
      invariant q.dim <= i <= dim
      invariant forall k: nat | k < i :: x[k] == Min(Lo(p, k), Lo(q, k))
      invariant forall k: nat | k < i :: x[k + dim] == Max(Hi(p, k), Hi(q, k))
    {
      BoundsAt(p, q, i);
      x[i] := Min(0.0, Min(LL(p, i), UR(p, i)));
      x[i + dim] := Max(0.0, Max(LL(p, i), UR(p, i)));
      i := i + 1;
    }
    bounds := x[..];
  }

  lemma {:induction false} BoundsAt(p: Box, q: Box, i: nat)
    requires Valid(p) && Valid(q) && i < p.dim
    ensures i < q.dim ==> Min(Lo(p, i), Lo(q, i)) == Min(Min(LL(p, i), UR(p, i)), Min(LL(q, i), UR(q, i)))
    ensures i < q.dim ==> Max(Hi(p, i), Hi(q, i)) == Max(Max(LL(p, i), UR(p, i)), Max(LL(q, i), UR(q, i)))
    ensures i >= q.dim ==> Min(Lo(p, i), Lo(q, i)) == Min(0.0, Min(LL(p, i), UR(p, i)))
    ensures i >= q.dim ==> Max(Hi(p, i), Hi(q, i)) == Max(0.0, Max(LL(p, i), UR(p, i)))
  {
  }

  lemma {:induction false} UnionBounds(u: Box, p: Box, q: Box)
    requires Valid(u) && Valid(p) && Valid(q) && !u.point && u.dim == p.dim >= q.dim
    requires forall k: nat | k < u.dim :: u.x[k] == Min(Lo(p, k), Lo(q, k)) && u.x[k + u.dim] == Max(Hi(p, k), Hi(q, k))
    ensures IsUnion(u, p, q)
  {
    forall i: nat
      ensures Lo(u, i) == Min(Lo(p, i), Lo(q, i)) && Hi(u, i) == Max(Hi(p, i), Hi(q, i))
    {
      if i < u.dim {
        assert u.x[i] == Min(Lo(p, i), Lo(q, i)) && u.x[i + u.dim] == Max(Hi(p, i), Hi(q, i));
      }
    }
  }

  lemma {:induction false} PointBounds(u: Box, pt: Box)
    requires Valid(u) && Valid(pt) && !u.point && pt.point && pt.dim == u.dim && pt.x == u.x[..u.dim]
    requires forall k: nat | k < u.dim :: LL(u, k) == UR(u, k)
    ensures forall i: nat :: Lo(pt, i) == Lo(u, i) && Hi(pt, i) == Hi(u, i)
  {
  }

  // ---------- intersection and size ----------

  /** cube_inter: the inner bounds, which cross over where the boxes do not meet. */
  method InterV0(a: Box, b: Box) returns (r: Box)
    requires Valid(a) && Valid(b)
    ensures Valid(r) && r.dim == Dims(a, b)
    ensures forall i: nat | i < r.dim :: LL(r, i) == Max(Lo(a, i), Lo(b, i)) && UR(r, i) == Min(Hi(a, i), Hi(b, i))
  {
    hide Min, Max, Lo, Hi;
    var p, q := a, b;
    if a.dim < b.dim {
      p, q := b, a;
    }
    var x := InnerBounds(p, q);
    r := Box(false, p.dim, x);
    assert forall i: nat | i < r.dim :: LL(r, i) == x[i] && UR(r, i) == x[i + r.dim];
    var flat := IsPoint(r);
    if flat {
      r := Box(true, p.dim, x[..p.dim]);
    }
    InnerSymmetric(a, b);
  }

  /** The two loops of cube_inter, `p` having no fewer dimensions than `q`. */
  method InnerBounds(p: Box, q: Box) returns (bounds: seq<real>)
    requires Valid(p) && Valid(q) && q.dim <= p.dim
    ensures |bounds| == 2 * p.dim
    ensures forall k: nat | k < p.dim ::
      bounds[k] == Max(Lo(p, k), Lo(q, k)) && bounds[k + p.dim] == Min(Hi(p, k), Hi(q, k))
  {
    hide Min, Max, Lo, Hi, LL, UR;
    var dim := p.dim;
    var x := new real[2 * dim];
    var i := 0;
    while i < q.dim
      invariant i <= q.dim
      invariant forall k: nat | k < i :: x[k] == Max(Lo(p, k), Lo(q, k))
      invariant forall k: nat | k < i :: x[k + dim] == Min(Hi(p, k), Hi(q, k))
    {
      InnerAt(p, q, i);
      x[i] := Max(Min(LL(p, i), UR(p, i)), Min(LL(q, i), UR(q, i)));
      x[i + dim] := Min(Max(LL(p, i), UR(p, i)), Max(LL(q, i), UR(q, i)));
      i := i + 1;
    }
    while i < dim
      invariant q.dim <= i <= dim
      invariant forall k: nat | k < i :: x[k] == Max(Lo(p, k), Lo(q, k))
      invariant forall k: nat | k < i :: x[k + dim] == Min(Hi(p, k), Hi(q, k))
    {
      InnerAt(p, q, i);
      x[i] := Max(0.0, Min(LL(p, i), UR(p, i)));
      x[i + dim] := Min(0.0, Max(LL(p, i), UR(p, i)));
      i := i + 1;
    }
    bounds := x[..];
  }

  lemma {:induction false} InnerAt(p: Box, q: Box, i: nat)
    requires Valid(p) && Valid(q) && i < p.dim
    ensures i < q.dim ==> Max(Lo(p, i), Lo(q, i)) == Max(Min(LL(p, i), UR(p, i)), Min(LL(q, i), UR(q, i)))
    ensures i < q.dim ==> Min(Hi(p, i), Hi(q, i)) == Min(Max(LL(p, i), UR(p, i)), Max(LL(q, i), UR(q, i)))
    ensures i >= q.dim ==> Max(Lo(p, i), Lo(q, i)) == Max(0.0, Min(LL(p, i), UR(p, i)))
    ensures i >= q.dim ==> Min(Hi(p, i), Hi(q, i)) == Min(0.0, Max(LL(p, i), UR(p, i)))
  {
  }

  lemma {:induction false} InnerSymmetric(a: Box, b: Box)
    requires Valid(a) && Valid(b)
    ensures forall i: nat :: Max(Lo(a, i), Lo(b, i)) == Max(Lo(b, i), Lo(a, i))
    ensures forall i: nat :: Min(Hi(a, i), Hi(b, i)) == Min(Hi(b, i), Hi(a, i))
  {
  }

  function Volume(b: Box, n: nat): (v: real)
    requires Valid(b) && n <= b.dim
  {
    if n == 0 then 1.0 else Times(Volume(b, n - 1), Abs(UR(b, n - 1) - LL(b, n - 1)))
  }

  /** rt_cube_size */
  method CubeSize(b: Box) returns (size: real)
    requires Valid(b)
    ensures size == if b.point || b.dim == 0 then 0.0 else Volume(b, b.dim)
  {
    hide Abs;
    if b.point || b.dim == 0 {
      return 0.0;
    }
    size := 1.0;
    for i := 0 to b.dim
      invariant size == Volume(b, i)
    {
      size := size * Abs(UR(b, i) - LL(b, i));
    }
  }

  // ---------- containment, overlap and equality ----------

  /** Within the dimensions of `b`; further dimensions of `a` do not matter. */
  ghost predicate Contains(a: Box, b: Box)
    requires Valid(a) && Valid(b)
  {
    forall i: nat | i < b.dim :: Lo(a, i) <= Lo(b, i) && Hi(b, i) <= Hi(a, i)
  }

  /** In every dimension the two have a common coordinate. */
  ghost predicate Overlaps(a: Box, b: Box)
    requires Valid(a) && Valid(b)
  {
    forall i: nat :: Lo(a, i) <= Hi(b, i) && Lo(b, i) <= Hi(a, i)
  }

  ghost predicate SameBox(a: Box, b: Box)
    requires Valid(a) && Valid(b)
  {
    a.dim == b.dim && forall i: nat | i < a.dim :: Lo(a, i) == Lo(b, i) && Hi(a, i) == Hi(b, i)
  }

  /** cube_contains_v0 */
  method ContainsV0(a: Box, b: Box) returns (r: bool)
    requires Valid(a) && Valid(b)
    ensures r <==> Contains(a, b)
  {
    if a.dim < b.dim {
      for i := a.dim to b.dim
        invariant forall k: nat | a.dim <= k < i :: Lo(b, k) == 0.0 && Hi(b, k) == 0.0
      {
        if LL(b, i) != 0.0 {
          assert Lo(a, i) == 0.0 == Hi(a, i);
          return false;
        }
        if UR(b, i) != 0.0 {
          assert Lo(a, i) == 0.0 == Hi(a, i);
          return false;
        }
      }
    }
    for i := 0 to MinNat(a.dim, b.dim)
      invariant forall k: nat | k < i :: Lo(a, k) <= Lo(b, k) && Hi(b, k) <= Hi(a, k)
    {
      if Min(LL(a, i), UR(a, i)) > Min(LL(b, i), UR(b, i)) {
        assert Lo(a, i) > Lo(b, i);
        return false;
      }
      if Max(LL(a, i), UR(a, i)) < Max(LL(b, i), UR(b, i)) {
        assert Hi(a, i) < Hi(b, i);
        return false;
      }
    }
    return true;
  }

  function MinNat(a: nat, b: nat): nat { if a < b then a else b }

  function Dims(a: Box, b: Box): nat { if a.dim < b.dim then b.dim else a.dim }

  /** cube_overlap_v0 */
  method OverlapV0(a: Box, b: Box) returns (r: bool)
    requires Valid(a) && Valid(b)
    ensures r <==> Overlaps(a, b)
  {
    var p, q := a, b;
    if a.dim < b.dim {
      p, q := b, a;
    }
    for i := 0 to q.dim
      invariant forall k: nat | k < i :: Lo(p, k) <= Hi(q, k) && Lo(q, k) <= Hi(p, k)
    {
      if Min(LL(p, i), UR(p, i)) > Max(LL(q, i), UR(q, i)) {
        assert Lo(p, i) > Hi(q, i);
        return false;
      }
      if Max(LL(p, i), UR(p, i)) < Min(LL(q, i), UR(q, i)) {
        assert Hi(p, i) < Lo(q, i);
        return false;
      }
    }
    for i := q.dim to p.dim
      invariant forall k: nat | k < i :: Lo(p, k) <= Hi(q, k) && Lo(q, k) <= Hi(p, k)
    {
      if Min(LL(p, i), UR(p, i)) > 0.0 {
        assert Lo(p, i) > Hi(q, i);
        return false;
      }
      if Max(LL(p, i), UR(p, i)) < 0.0 {
        assert Hi(p, i) < Lo(q, i);
        return false;
      }
    }
    return true;
  }

  function Sign(x: real, y: real): (r: int)
    ensures -1 <= r <= 1
  {
    if x > y then 1 else if x < y then -1 else 0
  }

  /** The first difference of the lower bounds, or of the upper bounds, in dimensions i .. n - 1. */
  function CmpLows(a: Box, b: Box, i: nat, n: nat): (r: int)
    requires Valid(a) && Valid(b)
    ensures -1 <= r <= 1
    decreases n - i
  {
    if i >= n then 0
    else if Lo(a, i) == Lo(b, i) then CmpLows(a, b, i + 1, n)
    else Sign(Lo(a, i), Lo(b, i))
  }

  function CmpHighs(a: Box, b: Box, i: nat, n: nat): (r: int)
    requires Valid(a) && Valid(b)
    ensures -1 <= r <= 1
    decreases n - i
  {
    if i >= n then 0
    else if Hi(a, i) == Hi(b, i) then CmpHighs(a, b, i + 1, n)
    else Sign(Hi(a, i), Hi(b, i))
  }

  /** The order of cube_cmp_v0: common dimensions first, then the excess against
      zero, then the number of dimensions. */
  function Cmp(a: Box, b: Box): (r: int)
    requires Valid(a) && Valid(b)
    ensures -1 <= r <= 1
  {
    var m, n := MinNat(a.dim, b.dim), Dims(a, b);
    if CmpLows(a, b, 0, m) != 0 then CmpLows(a, b, 0, m)
    else if CmpHighs(a, b, 0, m) != 0 then CmpHighs(a, b, 0, m)
    else if CmpLows(a, b, m, n) != 0 then CmpLows(a, b, m, n)
    else if CmpHighs(a, b, m, n) != 0 then CmpHighs(a, b, m, n)
    else if a.dim == b.dim then 0
    else if a.dim > b.dim then 1
    else -1
  }

  /** cube_cmp_v0 */
  method CmpV0(a: Box, b: Box) returns (r: int)
    requires Valid(a) && Valid(b)
    ensures r == Cmp(a, b)
  {
    hide CmpLows, CmpHighs, Lo, Hi;
    var dim := MinNat(a.dim, b.dim);
    r := LowsV0(a, b, dim);
    if r != 0 { return; }
    r := HighsV0(a, b, dim);
    if r != 0 { return; }
    if a.dim > b.dim {
      r := ExcessV0(a, b);
      return;
    }
    CmpNone(a, b, dim);
    if a.dim < b.dim {
      var s := ExcessV0(b, a);
      CmpLowsAntisymmetric(a, b, dim, b.dim);
      CmpHighsAntisymmetric(a, b, dim, b.dim);
      return -s;
    }
    return 0;
  }

  lemma {:induction false} CmpNone(a: Box, b: Box, n: nat)
    requires Valid(a) && Valid(b)
    ensures CmpLows(a, b, n, n) == CmpHighs(a, b, n, n) == 0
  {
  }

  method LowsV0(a: Box, b: Box, dim: nat) returns (r: int)
    requires Valid(a) && Valid(b) && dim <= a.dim && dim <= b.dim
    ensures r == CmpLows(a, b, 0, dim)
  {
    for i := 0 to dim
      invariant CmpLows(a, b, i, dim) == CmpLows(a, b, 0, dim)
    {
      if Min(LL(a, i), UR(a, i)) > Min(LL(b, i), UR(b, i)) { return 1; }
      if Min(LL(a, i), UR(a, i)) < Min(LL(b, i), UR(b, i)) { return -1; }
    }
    return 0;
  }

  method HighsV0(a: Box, b: Box, dim: nat) returns (r: int)
    requires Valid(a) && Valid(b) && dim <= a.dim && dim <= b.dim
    ensures r == CmpHighs(a, b, 0, dim)
  {
    for i := 0 to dim
      invariant CmpHighs(a, b, i, dim) == CmpHighs(a, b, 0, dim)
    {
      if Max(LL(a, i), UR(a, i)) > Max(LL(b, i), UR(b, i)) { return 1; }
      if Max(LL(a, i), UR(a, i)) < Max(LL(b, i), UR(b, i)) { return -1; }
    }
    return 0;
  }

  /** The excess dimensions of `a` against zero. */
  method ExcessV0(a: Box, b: Box) returns (r: int)
    requires Valid(a) && Valid(b) && b.dim < a.dim
    ensures r == if CmpLows(a, b, b.dim, a.dim) != 0 then CmpLows(a, b, b.dim, a.dim)
                 else if CmpHighs(a, b, b.dim, a.dim) != 0 then CmpHighs(a, b, b.dim, a.dim)
                 else 1
  {
    for i := b.dim to a.dim
      invariant CmpLows(a, b, i, a.dim) == CmpLows(a, b, b.dim, a.dim)
    {
      if Min(LL(a, i), UR(a, i)) > 0.0 { return 1; }
      if Min(LL(a, i), UR(a, i)) < 0.0 { return -1; }
    }
    for i := b.dim to a.dim
      invariant CmpHighs(a, b, i, a.dim) == CmpHighs(a, b, b.dim, a.dim)
    {
      if Max(LL(a, i), UR(a, i)) > 0.0 { return 1; }
      if Max(LL(a, i), UR(a, i)) < 0.0 { return -1; }
    }
    return 1;
  }

  lemma {:induction false} CmpLowsAntisymmetric(a: Box, b: Box, i: nat, n: nat)
    requires Valid(a) && Valid(b)
    ensures CmpLows(b, a, i, n) == -CmpLows(a, b, i, n)
    ensures CmpLows(a, b, i, n) == 0 <==> forall k: nat | i <= k < n :: Lo(a, k) == Lo(b, k)
    decreases n - i
  {
    hide Lo;
    if i < n && Lo(a, i) == Lo(b, i) { CmpLowsAntisymmetric(a, b, i + 1, n); }
  }

  lemma {:induction false} CmpHighsAntisymmetric(a: Box, b: Box, i: nat, n: nat)
    requires Valid(a) && Valid(b)
    ensures CmpHighs(b, a, i, n) == -CmpHighs(a, b, i, n)
    ensures CmpHighs(a, b, i, n) == 0 <==> forall k: nat | i <= k < n :: Hi(a, k) == Hi(b, k)
    decreases n - i
  {
    hide Hi;
    if i < n && Hi(a, i) == Hi(b, i) { CmpHighsAntisymmetric(a, b, i + 1, n); }
  }

  /** The comparison is antisymmetric, and zero exactly for boxes with the same
      dimension and the same bounds. */
  lemma {:induction false} CmpAntisymmetric(a: Box, b: Box)
    requires Valid(a) && Valid(b)
    ensures Cmp(b, a) == -Cmp(a, b)
    ensures Cmp(a, b) == 0 <==> SameBox(a, b)
  {
    hide CmpLows, CmpHighs, Lo, Hi;
    var m, n := MinNat(a.dim, b.dim), Dims(a, b);
    CmpLowsAntisymmetric(a, b, 0, m);
    CmpHighsAntisymmetric(a, b, 0, m);
    CmpLowsAntisymmetric(a, b, m, n);
    CmpHighsAntisymmetric(a, b, m, n);
  }

  // ---------- distances ----------

  /** distance_1D */
  function Distance1D(a1: real, a2: real, b1: real, b2: real): real
  {
    if a1 <= b1 && a2 <= b1 && a1 <= b2 && a2 <= b2 then Min(b1, b2) - Max(a1, a2)
    else if a1 > b1 && a2 > b1 && a1 > b2 && a2 > b2 then Min(a1, a2) - Max(b1, b2)
    else 0.0
  }

  function Abs(x: real): real { if x < 0.0 then -x else x }

  /** The gap between the two projections on axis i, zero when they meet. */
  function Gap(a: Box, b: Box, i: nat): (g: real)
    requires Valid(a) && Valid(b)
    ensures 0.0 <= g
  {
    Max(0.0, Max(Lo(b, i) - Hi(a, i), Lo(a, i) - Hi(b, i)))
  }

  lemma {:induction false} GapIsDistance(a: Box, b: Box, i: nat)
    requires Valid(a) && Valid(b) && i < a.dim
    ensures Gap(a, b, i) ==
      if i < b.dim then Distance1D(LL(a, i), UR(a, i), LL(b, i), UR(b, i))
      else Distance1D(LL(a, i), UR(a, i), 0.0, 0.0)
  {
  }

  lemma {:induction false} GapSymmetric(a: Box, b: Box, i: nat)
    requires Valid(a) && Valid(b)
    ensures Gap(a, b, i) == Gap(b, a, i)
  {
  }

  datatype Metric = Taxicab | SquaredEuclid | Chebyshev

  function Times(a: real, b: real): real { a * b }

  function Accumulate(m: Metric, acc: real, d: real): real
  {
    match m
    case Taxicab => acc + Abs(d)
    case SquaredEuclid => acc + Times(d, d)
    case Chebyshev => if Abs(d) > acc then Abs(d) else acc
  }

  /** The metric over the first n axes. */
  function Metered(m: Metric, a: Box, b: Box, n: nat): real
    requires Valid(a) && Valid(b)
  {
    if n == 0 then 0.0 else Accumulate(m, Metered(m, a, b, n - 1), Gap(a, b, n - 1))
  }

  function Distance(m: Metric, a: Box, b: Box): real
    requires Valid(a) && Valid(b)
  {
    Metered(m, a, b, Dims(a, b))
  }

  lemma {:induction false} MeteredSymmetric(m: Metric, a: Box, b: Box, n: nat)
    requires Valid(a) && Valid(b)
    ensures Metered(m, a, b, n) == Metered(m, b, a, n)
  {
    hide Gap, Accumulate;
    if n > 0 {
      MeteredSymmetric(m, a, b, n - 1);
      GapSymmetric(a, b, n - 1);
    }
  }

  /** cube_distance before its square root, distance_taxicab and distance_chebyshev. */
  method DistanceV0(m: Metric, a: Box, b: Box) returns (distance: real)
    requires Valid(a) && Valid(b)
    ensures distance == Distance(m, a, b)
  {
    hide Accumulate, Distance1D, Gap, LL, UR;
    var p, q := a, b;
    if a.dim < b.dim {
      p, q := b, a;
      MeteredSymmetric(m, a, b, b.dim);
    }
    distance := 0.0;
    for i := 0 to q.dim
      invariant distance == Metered(m, p, q, i)
    {
      GapIsDistance(p, q, i);
      distance := Accumulate(m, distance, Distance1D(LL(p, i), UR(p, i), LL(q, i), UR(q, i)));
    }
    for i := q.dim to p.dim
      invariant distance == Metered(m, p, q, i)
    {
      GapIsDistance(p, q, i);
      distance := Accumulate(m, distance, Distance1D(LL(p, i), UR(p, i), 0.0, 0.0));
    }
  }
}
