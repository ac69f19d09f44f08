/** Nearest-neighbour search over cubes: the value an inner box yields never
    exceeds the value of a box below it (g_cube_distance, cube_coord_llur). */
module CubeKnn {
  import opened Bytes
  import opened CubeBox
  import opened CubeGist

  // ---------- the three metrics ----------

  lemma {:induction false} GapBound(key: Box, b: Box, query: Box, i: nat)
    requires Valid(key) && Valid(b) && Valid(query) && Covers(key, b)
    ensures Gap(key, query, i) <= Gap(b, query, i)
  {
  }

  lemma {:induction false} AccumulateMonotone(m: Metric, acc1: real, acc2: real, d1: real, d2: real)
    requires acc1 <= acc2 && 0.0 <= d1 <= d2
    ensures Accumulate(m, acc1, d1) <= Accumulate(m, acc2, d2)
  {
  }

  lemma {:induction false} MeteredBound(m: Metric, key: Box, b: Box, query: Box, n: nat)
    requires Valid(key) && Valid(b) && Valid(query) && Covers(key, b)
    ensures Metered(m, key, query, n) <= Metered(m, b, query, n)
  {
    hide Gap, Accumulate, Covers;
    if n > 0 {
      MeteredBound(m, key, b, query, n - 1);
      GapBound(key, b, query, n - 1);
      AccumulateMonotone(m, Metered(m, key, query, n - 1), Metered(m, b, query, n - 1),
        Gap(key, query, n - 1), Gap(b, query, n - 1));
    }
  }

  lemma {:induction false} AccumulateNothing(m: Metric, acc: real)
    requires 0.0 <= acc
    ensures Accumulate(m, acc, 0.0) == acc
  {
  }

  lemma {:induction false} AccumulateNonnegative(m: Metric, acc: real, d: real)
    requires 0.0 <= acc && 0.0 <= d
    ensures 0.0 <= Accumulate(m, acc, d)
  {
  }

  lemma {:induction false} MeteredNonnegative(m: Metric, a: Box, b: Box, n: nat)
    requires Valid(a) && Valid(b)
    ensures 0.0 <= Metered(m, a, b, n)
  {
    hide Gap, Accumulate;
    if n > 0 {
      MeteredNonnegative(m, a, b, n - 1);
      AccumulateNonnegative(m, Metered(m, a, b, n - 1), Gap(a, b, n - 1));
    }
  }

  /** Axes that neither box has add nothing. */
  lemma {:induction false} MeteredTail(m: Metric, a: Box, b: Box, n: nat)
    requires Valid(a) && Valid(b) && Dims(a, b) <= n
    ensures Metered(m, a, b, n) == Distance(m, a, b)
  {
    hide Accumulate, Gap;
    if n > Dims(a, b) {
      MeteredTail(m, a, b, n - 1);
      MeteredNonnegative(m, a, b, n - 1);
      GapMissing(a, b, n - 1);
      AccumulateNothing(m, Metered(m, a, b, n - 1));
    }
  }

  lemma {:induction false} GapMissing(a: Box, b: Box, i: nat)
    requires Valid(a) && Valid(b) && a.dim <= i && b.dim <= i
    ensures Gap(a, b, i) == 0.0
  {
  }

  /** The distance from a query to an inner box is at most that to a box it covers. */
  lemma {:induction false} DistanceBound(m: Metric, key: Box, b: Box, query: Box)
    requires Valid(key) && Valid(b) && Valid(query) && Covers(key, b)
    ensures Distance(m, key, query) <= Distance(m, b, query)
  {
    hide Metered;
    MeteredBound(m, key, b, query, Dims(key, query));
    MeteredTail(m, b, query, Dims(key, query));
  }

  /** A box that overlaps the query is at distance zero, and no other is. */
  lemma {:induction false} DistanceZero(m: Metric, a: Box, b: Box, n: nat)
    requires Valid(a) && Valid(b)
    ensures Metered(m, a, b, n) == 0.0 <==> forall i: nat | i < n :: Gap(a, b, i) == 0.0
  {
    hide Gap, Accumulate;
    if n > 0 {
      DistanceZero(m, a, b, n - 1);
      MeteredNonnegative(m, a, b, n - 1);
      AccumulateZero(m, Metered(m, a, b, n - 1), Gap(a, b, n - 1));
    }
  }

  lemma {:induction false} TimesZero()
    ensures Times(0.0, 0.0) == 0.0
  {
  }

  lemma {:induction false} TimesPositive(a: real, b: real)
    requires 0.0 < a && 0.0 < b
    ensures 0.0 < Times(a, b)
  {
  }

  lemma {:induction false} AccumulateZero(m: Metric, acc: real, d: real)
    requires 0.0 <= acc && 0.0 <= d
    ensures Accumulate(m, acc, d) == 0.0 <==> acc == 0.0 && d == 0.0
  {
    hide Times;
    TimesZero();
    if d > 0.0 { TimesPositive(d, d); }
  }

  lemma {:induction false} OverlapIsZero(m: Metric, a: Box, b: Box)
    requires Valid(a) && Valid(b)
    ensures Distance(m, a, b) == 0.0 <==> Overlaps(a, b)
  {
    hide Metered, Lo, Hi;
    DistanceZero(m, a, b, Dims(a, b));
    forall i: nat
      ensures Gap(a, b, i) == 0.0 <==> Lo(a, i) <= Hi(b, i) && Lo(b, i) <= Hi(a, i)
      ensures i >= Dims(a, b) ==> Gap(a, b, i) == 0.0
    {
      if i >= Dims(a, b) { GapMissing(a, b, i); }
    }
  }

  // ---------- ordering by one coordinate ----------

  /** cube_coord_llur; an Error is the ereport for coordinate zero. */
  function CoordLlur(cube: Box, coord: int): Result<real>
    requires Valid(cube)
  {
    if coord == 0 then Error
    else
      var inverse := coord < 0;
      var c := if inverse then -coord else coord;
      var result :=
        if c <= 2 * cube.dim then
          var index := (c - 1) / 2;
          var upper := (c - 1) % 2 == 1;
          if cube.point then cube.x[index]
          else if upper then Max(cube.x[index], cube.x[index + cube.dim])
          else Min(cube.x[index], cube.x[index + cube.dim])
        else 0.0;
      Ok(if inverse then -result else result)
  }

  /** g_cube_distance for ~> */
  function CoordDistance(cube: Box, coord: int, isLeaf: bool): Result<real>
    requires Valid(cube)
  {
    if coord == 0 then Error
    else
      var inverse := coord < 0;
      var c := if inverse then -coord else coord;
      var retval :=
        if c <= 2 * cube.dim then
          var index := (c - 1) / 2;
          var upper := (c - 1) % 2 == 1;
          if cube.point then cube.x[index]
          else if isLeaf then
            if upper then Max(cube.x[index], cube.x[index + cube.dim])
            else Min(cube.x[index], cube.x[index + cube.dim])
          else if !inverse then Min(cube.x[index], cube.x[index + cube.dim])
          else Max(cube.x[index], cube.x[index + cube.dim])
        else 0.0;
      Ok(if inverse then -retval else retval)
  }

  /** Coordinate 2n - 1 is the lower and 2n the upper bound of the nth dimension,
      negated for a negative coordinate, whichever way round the corners are stored. */
  lemma {:induction false} CoordMeaning(cube: Box, n: nat)
    requires Valid(cube) && n >= 1
    ensures CoordLlur(cube, 2 * n - 1) == Ok(Lo(cube, n - 1))
    ensures CoordLlur(cube, 2 * n) == Ok(Hi(cube, n - 1))
    ensures CoordLlur(cube, -(2 * n - 1)) == Ok(-Lo(cube, n - 1))
    ensures CoordLlur(cube, -(2 * n)) == Ok(-Hi(cube, n - 1))
  {
    assert (2 * n - 1 - 1) / 2 == n - 1 && (2 * n - 1 - 1) % 2 == 0;
    assert (2 * n - 1) / 2 == n - 1 && (2 * n - 1) % 2 == 1;
  }

  /** On a leaf the index yields the operator's own value. */
  lemma {:induction false} CoordLeaf(cube: Box, coord: int)
    requires Valid(cube)
    ensures CoordDistance(cube, coord, true) == CoordLlur(cube, coord)
  {
  }

  lemma {:induction false} CoordInner(cube: Box, n: nat)
    requires Valid(cube) && n >= 1
    ensures CoordDistance(cube, 2 * n - 1, false) == CoordDistance(cube, 2 * n, false) == Ok(Lo(cube, n - 1))
    ensures CoordDistance(cube, -(2 * n - 1), false) == CoordDistance(cube, -(2 * n), false) == Ok(-Hi(cube, n - 1))
  {
  }

  /** For every coordinate, positive or negative, an inner value is at most the
      value of every box it covers. */
  lemma {:induction false} CoordBound(key: Box, b: Box, coord: int)
    requires Valid(key) && Valid(b) && Covers(key, b) && coord != 0
    ensures CoordDistance(key, coord, false).Ok? && CoordLlur(b, coord).Ok?
    ensures CoordDistance(key, coord, false).value <= CoordLlur(b, coord).value
  {
    hide CoordDistance, CoordLlur, Lo, Hi;
    var c := if coord < 0 then -coord else coord;
    var n := (c + 1) / 2;
    assert c == 2 * n - 1 || c == 2 * n;
    CoordInner(key, n);
    CoordMeaning(b, n);
    assert Lo(key, n - 1) <= Lo(b, n - 1) && Hi(b, n - 1) <= Hi(key, n - 1);
  }

  // ---------- whole trees ----------

  /** Every inner value on the way to a stored box is a lower bound of its value. */
  lemma {:induction false} TreeBound(t: Tree, b: Box, query: Box, m: Metric, coord: int)
    requires Built(t) && HasLeaf(t, b) && Valid(query)
    ensures Valid(b) && Distance(m, KeyOf(t), query) <= Distance(m, b, query)
    ensures coord != 0 ==>
      && CoordDistance(KeyOf(t), coord, false).Ok? && CoordLlur(b, coord).Ok?
      && CoordDistance(KeyOf(t), coord, false).value <= CoordLlur(b, coord).value
  {
    hide Distance, CoordDistance, CoordLlur, Covers;
    TreeCovers(t, b);
    DistanceBound(m, KeyOf(t), b, query);
    if coord != 0 { CoordBound(KeyOf(t), b, coord); }
  }
}
