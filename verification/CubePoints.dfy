/** What the cube operators mean for the points of the boxes, which of two boxes is
    the smaller, and what the three distances are. */
module CubePoints {
  import opened CubeBox
  import opened CubeGist

  // ---------- points ----------

  /** The point `x` lies in the box, as far as the point has coordinates. */
  ghost predicate In(x: seq<real>, b: Box)
    requires Valid(b)
  {
    forall i | 0 <= i < |x| :: Lo(b, i) <= x[i] <= Hi(b, i)
  }

  function LowCorner(b: Box, n: nat): (x: seq<real>)
    requires Valid(b)
    ensures |x| == n && forall i | 0 <= i < n :: x[i] == Lo(b, i)
  {
    seq(n, i requires 0 <= i < n => Lo(b, i))
  }

  function HighCorner(b: Box, n: nat): (x: seq<real>)
    requires Valid(b)
    ensures |x| == n && forall i | 0 <= i < n :: x[i] == Hi(b, i)
  {
    seq(n, i requires 0 <= i < n => Hi(b, i))
  }

  /** The lowest point that is not below either box. */
  function MeetingPoint(a: Box, b: Box, n: nat): (x: seq<real>)
    requires Valid(a) && Valid(b)
    ensures |x| == n && forall i | 0 <= i < n :: x[i] == Max(Lo(a, i), Lo(b, i))
  {
    seq(n, i requires 0 <= i < n => Max(Lo(a, i), Lo(b, i)))
  }

  lemma {:induction false} BeyondDims(b: Box, i: nat)
    requires Valid(b) && b.dim <= i
    ensures Lo(b, i) == 0.0 == Hi(b, i)
  {
  }

  lemma {:induction false} LowHigh(b: Box, i: nat)
    requires Valid(b)
    ensures Lo(b, i) <= Hi(b, i)
  {
  }

  /** One box contains another exactly when every point of the second, in the
      dimensions the second has, lies in the first. */
  lemma {:induction false} ContainsPoints(a: Box, b: Box)
    requires Valid(a) && Valid(b)
    ensures Contains(a, b) <==> forall x | |x| == b.dim && In(x, b) :: In(x, a)
  {
    hide Lo, Hi, Valid;
    var low, high := LowCorner(b, b.dim), HighCorner(b, b.dim);
    forall i: nat
      ensures Lo(b, i) <= Hi(b, i)
    {
      LowHigh(b, i);
    }
    if forall x | |x| == b.dim && In(x, b) :: In(x, a) {
      assert In(low, a) && In(high, a);
      forall i: nat | i < b.dim
        ensures Lo(a, i) <= Lo(b, i) && Hi(b, i) <= Hi(a, i)
      {
        assert low[i] == Lo(b, i) && high[i] == Hi(b, i);
      }
    }
  }

  /** Two boxes overlap exactly when they have a point in common. */
  lemma {:induction false} OverlapPoints(a: Box, b: Box)
    requires Valid(a) && Valid(b)
    ensures Overlaps(a, b) <==> exists x :: |x| == Dims(a, b) && In(x, a) && In(x, b)
  {
    hide Lo, Hi, Valid;
    forall i: nat
      ensures Lo(a, i) <= Hi(a, i) && Lo(b, i) <= Hi(b, i)
      ensures i >= Dims(a, b) ==> Lo(a, i) == Hi(a, i) == Lo(b, i) == Hi(b, i) == 0.0
    {
      LowHigh(a, i);
      LowHigh(b, i);
      if i >= Dims(a, b) {
        BeyondDims(a, i);
        BeyondDims(b, i);
      }
    }
    if Overlaps(a, b) {
      var x := MeetingPoint(a, b, Dims(a, b));
      assert In(x, a) && In(x, b);
    }
    if x :| |x| == Dims(a, b) && In(x, a) && In(x, b) {
      forall i: nat
        ensures Lo(a, i) <= Hi(b, i) && Lo(b, i) <= Hi(a, i)
      {
        assert i < |x| ==> Lo(a, i) <= x[i] <= Hi(a, i) && Lo(b, i) <= x[i] <= Hi(b, i);
      }
    }
  }

  // ---------- what an inner box admits ----------

  function PointBox(x: seq<real>): (b: Box)
    ensures Valid(b) && b.dim == |x|
  {
    Box(true, |x|, x)
  }

  lemma {:induction false} PointBoxBounds(x: seq<real>, i: nat)
    ensures Lo(PointBox(x), i) == Hi(PointBox(x), i) == if i < |x| then x[i] else 0.0
  {
  }

  /** An inner box lets a search through exactly when a box it covers could satisfy
      the operator. For the same-box operator the test is the one for containment. */
  lemma {:induction false} AdmitsExact(key: Box, query: Box, s: Strategy)
    requires Valid(key) && Valid(query) && s != Same
    ensures Admits(key, query, s) <==> exists b :: CouldMatch(key, b, query, s)
  {
    hide Contains, Overlaps, Covers, Valid, ExcessHasZero;
    if b :| CouldMatch(key, b, query, s) { CoversAdmits(key, b, query, s); }
    CoversSelf(key);
    if s == ContainedBy && Overlaps(key, query) {
      var b := ContainedPoint(key, query);
      assert CouldMatch(key, b, query, s);
    } else if Admits(key, query, s) {
      assert CouldMatch(key, key, query, s);
    }
  }

  ghost predicate CouldMatch(key: Box, b: Box, query: Box, s: Strategy)
    requires Valid(key) && Valid(query)
  {
    && Valid(b) && Covers(key, b) && Matches(b, query, s)
    && (s == ContainedBy ==> ExcessHasZero(b, query))
  }

  /** Where an inner box and the query overlap lies a point of the inner box that
      the query contains. */
  lemma {:induction false} ContainedPoint(key: Box, query: Box) returns (b: Box)
    requires Valid(key) && Valid(query) && Overlaps(key, query)
    ensures Valid(b) && Covers(key, b) && Contains(query, b) && ExcessHasZero(b, query)
  {
    hide Lo, Hi, Valid;
    var x := MeetingPoint(key, query, key.dim);
    b := PointBox(x);
    forall i: nat
      ensures Lo(key, i) <= Lo(b, i) && Hi(b, i) <= Hi(key, i)
      ensures Lo(query, i) <= Lo(b, i) && Hi(b, i) <= Hi(query, i)
      ensures i >= key.dim ==> Lo(b, i) == 0.0 == Hi(b, i)
    {
      PointBoxBounds(x, i);
      LowHigh(key, i);
      LowHigh(query, i);
      if i >= key.dim { BeyondDims(key, i); }
    }
  }

  // ---------- which of two boxes is the smaller ----------

  ghost predicate LowsAgree(a: Box, b: Box, i: nat, n: nat)
    requires Valid(a) && Valid(b)
  {
    forall k: nat | i <= k < n :: Lo(a, k) == Lo(b, k)
  }

  ghost predicate HighsAgree(a: Box, b: Box, i: nat, n: nat)
    requires Valid(a) && Valid(b)
  {
    forall k: nat | i <= k < n :: Hi(a, k) == Hi(b, k)
  }

  /** In dimensions i .. n - 1 the first differing lower bound is smaller in `a`. */
  ghost predicate LowerLow(a: Box, b: Box, i: nat, n: nat)
    requires Valid(a) && Valid(b)
  {
    exists k: nat :: i <= k < n && LowsAgree(a, b, i, k) && Lo(a, k) < Lo(b, k)
  }

  ghost predicate LowerHigh(a: Box, b: Box, i: nat, n: nat)
    requires Valid(a) && Valid(b)
  {
    exists k: nat :: i <= k < n && HighsAgree(a, b, i, k) && Hi(a, k) < Hi(b, k)
  }

  lemma {:induction false} CmpLowsMeaning(a: Box, b: Box, i: nat, n: nat)
    requires Valid(a) && Valid(b)
    ensures CmpLows(a, b, i, n) < 0 <==> LowerLow(a, b, i, n)
    ensures CmpLows(a, b, i, n) == 0 <==> LowsAgree(a, b, i, n)
    decreases n - i
  {
    hide Lo, Valid;
    CmpLowsAntisymmetric(a, b, i, n);
    if i < n {
      CmpLowsMeaning(a, b, i + 1, n);
      if LowerLow(a, b, i + 1, n) && Lo(a, i) == Lo(b, i) {
        var k: nat :| i + 1 <= k < n && LowsAgree(a, b, i + 1, k) && Lo(a, k) < Lo(b, k);
        assert LowsAgree(a, b, i, k);
      }
      if LowerLow(a, b, i, n) && Lo(a, i) == Lo(b, i) {
        var k: nat :| i <= k < n && LowsAgree(a, b, i, k) && Lo(a, k) < Lo(b, k);
        assert LowsAgree(a, b, i + 1, k);
      }
      if Lo(a, i) < Lo(b, i) { assert LowsAgree(a, b, i, i); }
    }
  }

  lemma {:induction false} CmpHighsMeaning(a: Box, b: Box, i: nat, n: nat)
    requires Valid(a) && Valid(b)
    ensures CmpHighs(a, b, i, n) < 0 <==> LowerHigh(a, b, i, n)
    ensures CmpHighs(a, b, i, n) == 0 <==> HighsAgree(a, b, i, n)
    decreases n - i
  {
    hide Hi, Valid;
    CmpHighsAntisymmetric(a, b, i, n);
    if i < n {
      CmpHighsMeaning(a, b, i + 1, n);
      if LowerHigh(a, b, i + 1, n) && Hi(a, i) == Hi(b, i) {
        var k: nat :| i + 1 <= k < n && HighsAgree(a, b, i + 1, k) && Hi(a, k) < Hi(b, k);
        assert HighsAgree(a, b, i, k);
      }
      if LowerHigh(a, b, i, n) && Hi(a, i) == Hi(b, i) {
        var k: nat :| i <= k < n && HighsAgree(a, b, i, k) && Hi(a, k) < Hi(b, k);
        assert HighsAgree(a, b, i + 1, k);
      }
      if Hi(a, i) < Hi(b, i) { assert HighsAgree(a, b, i, i); }
    }
  }

  /** A box is the smaller by its lower bounds in the common dimensions, then its
      upper bounds there, then its lower and its upper bounds in the excess
      dimensions, in which the other reads as zero, then by having fewer dimensions. */
  lemma {:induction false} CmpMeaning(a: Box, b: Box)
    requires Valid(a) && Valid(b)
    ensures
      var m, n := MinNat(a.dim, b.dim), Dims(a, b);
      Cmp(a, b) < 0 <==>
        || LowerLow(a, b, 0, m)
        || (LowsAgree(a, b, 0, m) && LowerHigh(a, b, 0, m))
        || (LowsAgree(a, b, 0, m) && HighsAgree(a, b, 0, m) && LowerLow(a, b, m, n))
        || (LowsAgree(a, b, 0, n) && HighsAgree(a, b, 0, m) && LowerHigh(a, b, m, n))
        || (LowsAgree(a, b, 0, n) && HighsAgree(a, b, 0, n) && a.dim < b.dim)
  {
    hide CmpLows, CmpHighs, LowerLow, LowerHigh, Lo, Hi, Valid;
    var m, n := MinNat(a.dim, b.dim), Dims(a, b);
    CmpLowsMeaning(a, b, 0, m);
    CmpHighsMeaning(a, b, 0, m);
    CmpLowsMeaning(a, b, m, n);
    CmpHighsMeaning(a, b, m, n);
    NotBoth(a, b, 0, m);
    NotBoth(a, b, m, n);
    assert LowsAgree(a, b, 0, n) <==> LowsAgree(a, b, 0, m) && LowsAgree(a, b, m, n);
    assert HighsAgree(a, b, 0, n) <==> HighsAgree(a, b, 0, m) && HighsAgree(a, b, m, n);
  }

  lemma {:induction false} NotBoth(a: Box, b: Box, i: nat, n: nat)
    requires Valid(a) && Valid(b)
    ensures !(LowerLow(a, b, i, n) && LowsAgree(a, b, i, n)) && !(LowerHigh(a, b, i, n) && HighsAgree(a, b, i, n))
  {
    hide Lo, Hi, Valid;
  }

  // ---------- distances ----------

  /** The gap on an axis is the least distance there between points of the boxes. */
  lemma {:induction false} GapIsLeast(a: Box, b: Box, i: nat, x: real, y: real)
    requires Valid(a) && Valid(b) && Lo(a, i) <= x <= Hi(a, i) && Lo(b, i) <= y <= Hi(b, i)
    ensures Gap(a, b, i) <= Abs(x - y)
  {
    hide Lo, Hi, Valid;
  }

  lemma {:induction false} GapReached(a: Box, b: Box, i: nat) returns (x: real, y: real)
    requires Valid(a) && Valid(b)
    ensures Lo(a, i) <= x <= Hi(a, i) && Lo(b, i) <= y <= Hi(b, i) && Gap(a, b, i) == Abs(x - y)
  {
    hide Lo, Hi, Valid;
    LowHigh(a, i);
    LowHigh(b, i);
    if Hi(a, i) < Lo(b, i) {
      x, y := Hi(a, i), Lo(b, i);
    } else if Hi(b, i) < Lo(a, i) {
      x, y := Lo(a, i), Hi(b, i);
    } else {
      x := Max(Lo(a, i), Lo(b, i));
      y := x;
    }
  }

  function Gaps(a: Box, b: Box, n: nat): (gs: seq<real>)
    requires Valid(a) && Valid(b)
    ensures |gs| == n && forall i | 0 <= i < n :: gs[i] == Gap(a, b, i)
  {
    seq(n, i requires 0 <= i < n => Gap(a, b, i))
  }

  function Square(x: real): real { x * x }

  function Squares(xs: seq<real>): (ys: seq<real>)
    ensures |ys| == |xs| && forall i | 0 <= i < |xs| :: ys[i] == Square(xs[i])
  {
    seq(|xs|, i requires 0 <= i < |xs| => Square(xs[i]))
  }

  function Sum(xs: seq<real>): real
  {
    if xs == [] then 0.0 else xs[0] + Sum(xs[1..])
  }

  lemma {:induction false} SumNothing()
    ensures Sum([]) == 0.0 && Squares([]) == []
  {
  }

  lemma {:induction false} SumLast(xs: seq<real>, x: real)
    ensures Sum(xs + [x]) == Sum(xs) + x
  {
    if xs == [] {
      assert xs + [x] == [x] && [x][1..] == [];
    } else {
      SumLast(xs[1..], x);
      assert (xs + [x])[1..] == xs[1..] + [x];
    }
  }

  lemma {:induction false} TimesSame(x: real)
    ensures Times(x, x) == Square(x)
  {
  }

  lemma {:induction false} SquaresLast(xs: seq<real>, x: real)
    ensures Sum(Squares(xs + [x])) == Sum(Squares(xs)) + Times(x, x)
  {
    hide Sum, Square, Squares, Times;
    SumLast(Squares(xs), Square(x));
    assert Squares(xs + [x]) == Squares(xs) + [Square(x)];
    TimesSame(x);
  }

  /** The taxicab distance is the sum of the gaps. */
  lemma {:induction false} TaxicabIsSum(a: Box, b: Box, n: nat)
    requires Valid(a) && Valid(b)
    ensures Metered(Taxicab, a, b, n) == Sum(Gaps(a, b, n))
  {
    hide Gap, Valid;
    if n > 0 {
      TaxicabIsSum(a, b, n - 1);
      SumLast(Gaps(a, b, n - 1), Gap(a, b, n - 1));
      assert Gaps(a, b, n) == Gaps(a, b, n - 1) + [Gap(a, b, n - 1)];
    }
  }

  /** The Euclidean distance, squared, is the sum of the squares of the gaps. */
  lemma {:induction false} EuclidIsSum(a: Box, b: Box, n: nat)
    requires Valid(a) && Valid(b)
    ensures Metered(SquaredEuclid, a, b, n) == Sum(Squares(Gaps(a, b, n)))
  {
    hide Gap, Valid, Squares, Square, Times, Sum;
    SumNothing();
    if n > 0 {
      EuclidIsSum(a, b, n - 1);
      var g := Gap(a, b, n - 1);
      var gs, gs0 := Gaps(a, b, n), Gaps(a, b, n - 1);
      assert gs == gs0 + [g];
      SquaresLast(gs0, g);
    }
  }

  /** The Chebyshev distance is the largest gap. */
  lemma {:induction false} ChebyshevIsMax(a: Box, b: Box, n: nat)
    requires Valid(a) && Valid(b)
    ensures forall i: nat | i < n :: Gap(a, b, i) <= Metered(Chebyshev, a, b, n)
    ensures n > 0 ==> exists i: nat :: i < n && Gap(a, b, i) == Metered(Chebyshev, a, b, n)
    ensures n == 0 ==> Metered(Chebyshev, a, b, n) == 0.0
  {
    hide Gap, Valid;
    if n > 0 {
      ChebyshevIsMax(a, b, n - 1);
      assert Gap(a, b, n - 1) >= 0.0;
      var d := Metered(Chebyshev, a, b, n - 1);
      if Gap(a, b, n - 1) <= d && n > 1 {
        var i: nat :| i < n - 1 && Gap(a, b, i) == d;
      } else {
        assert Gap(a, b, n - 1) == Metered(Chebyshev, a, b, n);
      }
    }
  }

  /** The three distances over all dimensions either box has. */
  lemma {:induction false} DistanceMeaning(a: Box, b: Box)
    requires Valid(a) && Valid(b)
    ensures var gs := Gaps(a, b, Dims(a, b));
            && Distance(Taxicab, a, b) == Sum(gs)
            && Distance(SquaredEuclid, a, b) == Sum(Squares(gs))
            && (forall i | 0 <= i < |gs| :: gs[i] <= Distance(Chebyshev, a, b))
            && (gs != [] ==> Distance(Chebyshev, a, b) in gs)
            && (gs == [] ==> Distance(Chebyshev, a, b) == 0.0)
  {
    hide Gap, Valid, Metered, Sum, Squares;
    TaxicabIsSum(a, b, Dims(a, b));
    EuclidIsSum(a, b, Dims(a, b));
    ChebyshevIsMax(a, b, Dims(a, b));
    var gs := Gaps(a, b, Dims(a, b));
    if gs != [] {
      var i: nat :| i < |gs| && Gap(a, b, i) == Distance(Chebyshev, a, b);
      assert gs[i] in gs;
    }
  }
}
