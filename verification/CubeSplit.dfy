/** Page splits of the cube index (g_cube_picksplit). */
module CubeSplit {
  import opened CubeBox
  import opened CubeGist
  import opened Sorting

  // ---------- seeds ----------

  /** The product of the sides of the smallest box around both, over n dimensions. */
  function UnionSize(a: Box, b: Box, n: nat): real
    requires Valid(a) && Valid(b)
  {
    if n == 0 then 1.0
    else Times(UnionSize(a, b, n - 1), Max(Hi(a, n - 1), Hi(b, n - 1)) - Min(Lo(a, n - 1), Lo(b, n - 1)))
  }

  /** The same for what they have in common, a gap counting like an overlap. */
  function InterSize(a: Box, b: Box, n: nat): real
    requires Valid(a) && Valid(b)
  {
    if n == 0 then 1.0
    else Times(InterSize(a, b, n - 1), Abs(Min(Hi(a, n - 1), Hi(b, n - 1)) - Max(Lo(a, n - 1), Lo(b, n - 1))))
  }

  /** The space wasted by putting two boxes together. */
  function WasteOf(a: Box, b: Box): real
    requires Valid(a) && Valid(b)
  {
    if Dims(a, b) == 0 then 0.0 else UnionSize(a, b, Dims(a, b)) - InterSize(a, b, Dims(a, b))
  }

  lemma {:induction false} UnionVolume(u: Box, a: Box, b: Box, n: nat)
    requires Valid(u) && Valid(a) && Valid(b) && IsUnion(u, a, b) && n <= u.dim
    ensures Volume(u, n) == UnionSize(a, b, n)
  {
    hide Times;
    if n > 0 {
      UnionVolume(u, a, b, n - 1);
      SideIs(u, n - 1);
      assert Lo(u, n - 1) == Min(Lo(a, n - 1), Lo(b, n - 1)) && Hi(u, n - 1) == Max(Hi(a, n - 1), Hi(b, n - 1));
    }
  }

  lemma {:induction false} SideIs(u: Box, i: nat)
    requires Valid(u) && i < u.dim
    ensures Abs(UR(u, i) - LL(u, i)) == Hi(u, i) - Lo(u, i) && (u.point ==> UR(u, i) == LL(u, i))
  {
  }

  lemma {:induction false} InterVolume(r: Box, a: Box, b: Box, n: nat)
    requires Valid(r) && Valid(a) && Valid(b) && n <= r.dim
    requires forall i: nat | i < r.dim :: LL(r, i) == Max(Lo(a, i), Lo(b, i)) && UR(r, i) == Min(Hi(a, i), Hi(b, i))
    ensures Volume(r, n) == InterSize(a, b, n)
  {
    hide Times, Lo, Hi, Min, Max;
    if n > 0 {
      InterVolume(r, a, b, n - 1);
      assert LL(r, n - 1) == Max(Lo(a, n - 1), Lo(b, n - 1));
    }
  }

  lemma {:induction false} PointVolume(b: Box)
    requires Valid(b) && b.point && b.dim > 0
    ensures Volume(b, b.dim) == 0.0
  {
    hide Times;
    SideIs(b, b.dim - 1);
    TimesNothing(Volume(b, b.dim - 1));
  }

  lemma {:induction false} TimesNothing(x: real)
    ensures Times(x, 0.0) == 0.0
  {
  }

  method Waste(a: Box, b: Box) returns (w: real)
    requires Valid(a) && Valid(b)
    ensures w == WasteOf(a, b)
  {
    hide IsUnion, UnionSize, InterSize, Lo, Hi, LL, UR, Volume, Min, Max;
    var u := UnionV0(a, b, false);
    var sizeUnion := CubeSize(u);
    var d := InterV0(a, b);
    var sizeInter := CubeSize(d);
    UnionDims(u, a, b);
    if u.dim > 0 {
      UnionVolume(u, a, b, u.dim);
      InterVolume(d, a, b, d.dim);
      if u.point { PointVolume(u); }
      if d.point { PointVolume(d); }
    }
    w := sizeUnion - sizeInter;
  }

  lemma {:induction false} UnionDims(u: Box, a: Box, b: Box)
    requires Valid(u) && Valid(a) && Valid(b) && IsUnion(u, a, b)
    ensures u.dim == Dims(a, b)
  {
  }

  /** No pair examined before (k, j) wastes more than `waste`. */
  ghost predicate Beaten(boxes: seq<Box>, waste: real, k: nat, j: nat)
    requires AllValid(boxes)
  {
    forall x, y | 1 <= x < y <= |boxes| - 2 && (x < k || (x == k && y < j)) :: WasteOf(boxes[x], boxes[y]) <= waste
  }

  lemma {:induction false} BeatenStep(boxes: seq<Box>, waste: real, w: real, k: nat, j: nat)
    requires AllValid(boxes) && 1 <= k < j <= |boxes| - 2 && w == WasteOf(boxes[k], boxes[j])
    requires Beaten(boxes, waste, k, j)
    ensures Beaten(boxes, if w > waste then w else waste, k, j + 1)
  {
    hide WasteOf, Valid;
  }

  lemma {:induction false} BeatenRow(boxes: seq<Box>, waste: real, k: nat)
    requires AllValid(boxes) && |boxes| >= 2 && Beaten(boxes, waste, k, |boxes| - 1)
    ensures Beaten(boxes, waste, k + 1, k + 2)
  {
    hide WasteOf, Valid;
  }

  lemma {:induction false} BeatenFirst(boxes: seq<Box>, waste: real)
    requires AllValid(boxes)
    ensures Beaten(boxes, waste, 1, 2)
  {
    hide WasteOf, Valid;
  }

  lemma {:induction false} BeatenAll(boxes: seq<Box>, waste: real, k: nat)
    requires AllValid(boxes) && Beaten(boxes, waste, k, k + 1) && k >= |boxes| - 2
    ensures forall x, y | 1 <= x < y <= |boxes| - 2 :: WasteOf(boxes[x], boxes[y]) <= waste
  {
    hide WasteOf, Valid;
  }

  /** The most wasteful pair; the last offset is not considered a candidate. */
  method PickSeeds(boxes: seq<Box>) returns (seed1: nat, seed2: nat)
    requires |boxes| >= 3 && AllValid(boxes)
    ensures 1 <= seed1 < seed2 < |boxes|
    ensures forall k, j | 1 <= k < j <= |boxes| - 2 ::
      WasteOf(boxes[k], boxes[j]) <= WasteOf(boxes[seed1], boxes[seed2])
  {
    hide WasteOf, Valid, Beaten;
    var maxoff := |boxes| - 2;
    var firsttime, waste := true, 0.0;
    seed1, seed2 := 1, 2;
    var i := 1;
    BeatenFirst(boxes, waste);
    while i < maxoff
      invariant 1 <= i <= maxoff && 1 <= seed1 < seed2 < |boxes|
      invariant firsttime ==> i == 1
      invariant !firsttime ==> waste == WasteOf(boxes[seed1], boxes[seed2])
      invariant Beaten(boxes, waste, i, i + 1)
    {
      var j := i + 1;
      while j <= maxoff
        invariant i < j <= maxoff + 1 && 1 <= seed1 < seed2 < |boxes|
        invariant firsttime ==> i == 1 && j == i + 1
        invariant !firsttime ==> waste == WasteOf(boxes[seed1], boxes[seed2])
        invariant Beaten(boxes, waste, i, j)
      {
        var sizeWaste := Waste(boxes[i], boxes[j]);
        if firsttime { BeatenFirst(boxes, sizeWaste); }
        BeatenStep(boxes, if firsttime then sizeWaste else waste, sizeWaste, i, j);
        if sizeWaste > waste || firsttime {
          waste, seed1, seed2, firsttime := sizeWaste, i, j, false;
        }
        j := j + 1;
      }
      BeatenRow(boxes, waste, i);
      i := i + 1;
    }
    BeatenAll(boxes, waste, i);
  }

  predicate Increasing(s: seq<nat>)
  {
    forall i, j | 0 <= i < j < |s| :: s[i] < s[j]
  }

  /** Offsets 1 .. n - 1, each on one side only, in page order. */
  ghost predicate Partition(left: seq<nat>, right: seq<nat>, n: nat)
  {
    && Increasing(left) && Increasing(right)
    && (forall x :: x in left || x in right <==> 1 <= x < n)
    && (forall x | x in left :: x !in right)
  }

  lemma {:induction false} PartitionLeft(left: seq<nat>, right: seq<nat>, n: nat)
    requires Partition(left, right, n) && n >= 1
    ensures Partition(left + [n], right, n + 1)
  {
    assert forall i | 0 <= i < |left| :: left[i] in left;
    assert n in left + [n];
  }

  lemma {:induction false} PartitionRight(left: seq<nat>, right: seq<nat>, n: nat)
    requires Partition(left, right, n) && n >= 1
    ensures Partition(left, right + [n], n + 1)
  {
    assert forall i | 0 <= i < |right| :: right[i] in right;
    assert n in right + [n];
  }

  /** A side under construction: `datum` bounds the offsets placed and the seed. */
  ghost predicate Side(boxes: seq<Box>, offsets: seq<nat>, datum: Box, seed: nat)
    requires AllValid(boxes)
  {
    Valid(datum) && Bounding(boxes, datum, Elements(offsets) + {seed})
  }

  lemma {:induction false} SideStart(boxes: seq<Box>, seed: nat)
    requires AllValid(boxes) && seed < |boxes|
    ensures Side(boxes, [], boxes[seed], seed)
  {
  }

  lemma {:induction false} SideSeed(boxes: seq<Box>, offsets: seq<nat>, datum: Box, seed: nat)
    requires AllValid(boxes) && Side(boxes, offsets, datum, seed)
    ensures Side(boxes, offsets + [seed], datum, seed)
  {
    hide Bounding, Elements;
    assert Elements(offsets + [seed]) + {seed} == Elements(offsets) + {seed};
  }

  lemma {:induction false} SideGrows(boxes: seq<Box>, offsets: seq<nat>, datum: Box, seed: nat, j: nat, u: Box)
    requires AllValid(boxes) && Side(boxes, offsets, datum, seed) && j < |boxes|
    requires Valid(u) && IsUnion(u, datum, boxes[j])
    ensures Side(boxes, offsets + [j], u, seed)
  {
    hide Bounding, Elements, IsUnion;
    BoundingGrows(boxes, datum, Elements(offsets) + {seed}, j, u);
    assert Elements(offsets + [j]) + {seed} == Elements(offsets) + {seed} + {j};
  }

  lemma {:induction false} SideDone(boxes: seq<Box>, offsets: seq<nat>, datum: Box, seed: nat)
    requires AllValid(boxes) && Side(boxes, offsets, datum, seed) && seed in offsets
    ensures Valid(datum) && Bounding(boxes, datum, Elements(offsets))
  {
    hide Bounding, Elements;
    assert Elements(offsets) + {seed} == Elements(offsets);
  }

  // ---------- which side an entry goes to ----------

  /** The size of the smallest box around both. */
  function Extent(a: Box, b: Box): real
    requires Valid(a) && Valid(b)
  {
    if Dims(a, b) == 0 then 0.0 else UnionSize(a, b, Dims(a, b))
  }

  /** How much larger the box has to get to take in another one. */
  function Enlargement(datum: Box, b: Box): real
    requires Valid(datum) && Valid(b)
  {
    Extent(datum, b) - Extent(datum, datum)
  }

  /** What rt_cube_size computes. */
  function SizeOf(u: Box): real
    requires Valid(u)
  {
    if u.point || u.dim == 0 then 0.0 else Volume(u, u.dim)
  }

  lemma {:induction false} SizeIsExtent(u: Box, a: Box, b: Box)
    requires Valid(u) && Valid(a) && Valid(b) && IsUnion(u, a, b)
    ensures SizeOf(u) == Extent(a, b)
  {
    hide IsUnion, UnionSize, Volume;
    UnionDims(u, a, b);
    if u.dim > 0 {
      UnionVolume(u, a, b, u.dim);
      if u.point { PointVolume(u); }
    }
  }

  lemma {:induction false} OwnUnion(d: Box)
    requires Valid(d)
    ensures IsUnion(d, d, d)
  {
  }

  /** An entry goes to the side that needs less enlargement for it, to the right one
      if both need the same. */
  method Place(boxes: seq<Box>, left0: seq<nat>, right0: seq<nat>, datumL0: Box, datumR0: Box,
      sizeL0: real, sizeR0: real, ghost seed1: nat, ghost seed2: nat, i: nat)
    returns (left: seq<nat>, right: seq<nat>, datumL: Box, datumR: Box, sizeL: real, sizeR: real)
    requires AllValid(boxes) && i < |boxes|
    requires Side(boxes, left0, datumL0, seed1) && Side(boxes, right0, datumR0, seed2)
    requires sizeL0 == SizeOf(datumL0) && sizeR0 == SizeOf(datumR0)
    ensures Side(boxes, left, datumL, seed1) && Side(boxes, right, datumR, seed2)
    ensures sizeL == SizeOf(datumL) && sizeR == SizeOf(datumR)
    ensures
      if Enlargement(datumL0, boxes[i]) < Enlargement(datumR0, boxes[i])
      then left == left0 + [i] && right == right0 && datumR == datumR0
      else right == right0 + [i] && left == left0 && datumL == datumL0
  {
    hide Bounding, Elements, IsUnion, Side, Volume, Extent;
    SideValid(boxes, left0, datumL0, seed1);
    SideValid(boxes, right0, datumR0, seed2);
    left, right, datumL, datumR, sizeL, sizeR := left0, right0, datumL0, datumR0, sizeL0, sizeR0;
    OwnUnion(datumL);
    OwnUnion(datumR);
    SizeIsExtent(datumL, datumL, datumL);
    SizeIsExtent(datumR, datumR, datumR);
    var unionL := UnionV0(datumL, boxes[i], false);
    var unionR := UnionV0(datumR, boxes[i], false);
    var sizeAlpha := CubeSize(unionL);
    var sizeBeta := CubeSize(unionR);
    SizeIsExtent(unionL, datumL, boxes[i]);
    SizeIsExtent(unionR, datumR, boxes[i]);
    SideGrows(boxes, left, datumL, seed1, i, unionL);
    SideGrows(boxes, right, datumR, seed2, i, unionR);
    if sizeAlpha - sizeL < sizeBeta - sizeR {
      datumL, sizeL, left := unionL, sizeAlpha, left + [i];
    } else {
      datumR, sizeR, right := unionR, sizeBeta, right + [i];
    }
  }

  function Below(offsets: seq<nat>, x: nat): (r: set<nat>)
    ensures forall y :: y in r <==> y in offsets && y < x
  {
    set y | y in offsets && y < x
  }

  /** Entry `x` is on the side whose box, smallest around the seed and the entries put
      there before, needed less enlargement. */
  ghost predicate PlacedWell(boxes: seq<Box>, left: seq<nat>, right: seq<nat>, seed1: nat, seed2: nat, x: nat)
    requires AllValid(boxes) && x < |boxes|
  {
    exists dl, dr ::
      && Valid(dl) && Valid(dr)
      && Bounding(boxes, dl, Below(left, x) + {seed1}) && Bounding(boxes, dr, Below(right, x) + {seed2})
      && (x in left <==> Enlargement(dl, boxes[x]) < Enlargement(dr, boxes[x]))
  }

  lemma {:induction false} PlacedNow(boxes: seq<Box>, left0: seq<nat>, right0: seq<nat>, dl: Box, dr: Box,
      seed1: nat, seed2: nat, left: seq<nat>, right: seq<nat>, x: nat)
    requires AllValid(boxes) && 1 <= x < |boxes| && Partition(left0, right0, x)
    requires Side(boxes, left0, dl, seed1) && Side(boxes, right0, dr, seed2)
    requires
      if Enlargement(dl, boxes[x]) < Enlargement(dr, boxes[x]) then left == left0 + [x] && right == right0
      else right == right0 + [x] && left == left0
    ensures PlacedWell(boxes, left, right, seed1, seed2, x)
  {
    hide Bounding, Valid, Enlargement, Increasing;
    assert Below(left, x) == Elements(left0) && Below(right, x) == Elements(right0);
  }

  lemma {:induction false} PlacedStays(boxes: seq<Box>, left: seq<nat>, right: seq<nat>, seed1: nat, seed2: nat,
      x: nat, more: seq<nat>, more': seq<nat>)
    requires AllValid(boxes) && x < |boxes| && PlacedWell(boxes, left, right, seed1, seed2, x)
    requires left <= more && right <= more'
    requires (forall y | y in more :: y in left || y > x) && (forall y | y in more' :: y in right || y > x)
    ensures PlacedWell(boxes, more, more', seed1, seed2, x)
  {
    hide Bounding, Valid, Enlargement;
    assert Below(more, x) == Below(left, x) && Below(more', x) == Below(right, x);
  }

  ghost predicate AllPlaced(boxes: seq<Box>, left: seq<nat>, right: seq<nat>, seed1: nat, seed2: nat, n: nat)
    requires AllValid(boxes) && n <= |boxes|
  {
    forall x | 1 <= x < n && x != seed1 && x != seed2 :: PlacedWell(boxes, left, right, seed1, seed2, x)
  }

  lemma {:induction false} AllPlacedStep(boxes: seq<Box>, left0: seq<nat>, right0: seq<nat>, seed1: nat, seed2: nat,
      left: seq<nat>, right: seq<nat>, i: nat)
    requires AllValid(boxes) && i < |boxes| && AllPlaced(boxes, left0, right0, seed1, seed2, i)
    requires (left == left0 + [i] && right == right0) || (left == left0 && right == right0 + [i])
    requires i == seed1 || i == seed2 || PlacedWell(boxes, left, right, seed1, seed2, i)
    ensures AllPlaced(boxes, left, right, seed1, seed2, i + 1)
  {
    hide PlacedWell, Valid;
    forall x | 1 <= x < i + 1 && x != seed1 && x != seed2
      ensures PlacedWell(boxes, left, right, seed1, seed2, x)
    {
      if x < i { PlacedStays(boxes, left0, right0, seed1, seed2, x, left, right); }
    }
  }

  lemma {:induction false} AllPlacedStart(boxes: seq<Box>, seed1: nat, seed2: nat)
    requires AllValid(boxes) && |boxes| >= 1
    ensures AllPlaced(boxes, [], [], seed1, seed2, 1)
  {
  }

  /** g_cube_picksplit: entry 0 of the vector is unused. The sides share out the
      offsets 1 .. n - 1 in order, neither is empty, each datum is the smallest box
      around its side, and each entry but the seeds is where it needed less enlargement. */
  method PickSplit(boxes: seq<Box>)
    returns (left: seq<nat>, right: seq<nat>, datumL: Box, datumR: Box, ghost s1: nat, ghost s2: nat)
    requires |boxes| >= 3 && AllValid(boxes)
    ensures left != [] && right != [] && Partition(left, right, |boxes|)
    ensures Valid(datumL) && Bounding(boxes, datumL, Elements(left))
    ensures Valid(datumR) && Bounding(boxes, datumR, Elements(right))
    ensures s1 in left && s2 in right && AllPlaced(boxes, left, right, s1, s2, |boxes|)
  {
    hide Bounding, Elements, IsUnion, Side, Volume, Increasing, Enlargement, AllPlaced, PlacedWell;
    var seed1, seed2 := PickSeeds(boxes);
    s1, s2 := seed1, seed2;
    left, right := [], [];
    datumL := UnionV0(boxes[seed1], boxes[seed1], true);
    var sizeL := CubeSize(datumL);
    datumR := UnionV0(boxes[seed2], boxes[seed2], true);
    var sizeR := CubeSize(datumR);
    SideStart(boxes, seed1);
    SideStart(boxes, seed2);
    PartitionStart();
    AllPlacedStart(boxes, seed1, seed2);
    for i := 1 to |boxes|
      invariant Partition(left, right, i)
      invariant Side(boxes, left, datumL, seed1) && Side(boxes, right, datumR, seed2)
      invariant Valid(datumL) && Valid(datumR) && sizeL == SizeOf(datumL) && sizeR == SizeOf(datumR)
      invariant (seed1 < i ==> seed1 in left) && (seed2 < i ==> seed2 in right)
      invariant AllPlaced(boxes, left, right, seed1, seed2, i)
    {
      PartitionLeft(left, right, i);
      PartitionRight(left, right, i);
      ghost var l0, r0, dl, dr := left, right, datumL, datumR;
      if i == seed1 {
        SideSeed(boxes, left, datumL, seed1);
        left := left + [i];
      } else if i == seed2 {
        SideSeed(boxes, right, datumR, seed2);
        right := right + [i];
      } else {
        left, right, datumL, datumR, sizeL, sizeR :=
          Place(boxes, left, right, datumL, datumR, sizeL, sizeR, seed1, seed2, i);
        PlacedNow(boxes, l0, r0, dl, dr, seed1, seed2, left, right, i);
        SideValid(boxes, left, datumL, seed1);
        SideValid(boxes, right, datumR, seed2);
      }
      AllPlacedStep(boxes, l0, r0, seed1, seed2, left, right, i);
    }
    SideDone(boxes, left, datumL, seed1);
    SideDone(boxes, right, datumR, seed2);
  }

  lemma {:induction false} PartitionStart()
    ensures Partition([], [], 1)
  {
  }

  lemma {:induction false} SideValid(boxes: seq<Box>, offsets: seq<nat>, datum: Box, seed: nat)
    requires AllValid(boxes) && Side(boxes, offsets, datum, seed)
    ensures Valid(datum)
  {
  }

  // ---------- the halves as index nodes ----------

  function Pick(ts: seq<Tree>, offsets: seq<nat>): (r: seq<Tree>)
    requires forall x | x in offsets :: x < |ts|
    ensures |r| == |offsets| && forall i | 0 <= i < |offsets| :: offsets[i] in offsets && r[i] == ts[offsets[i]]
  {
    seq(|offsets|, i requires 0 <= i < |offsets| => assert offsets[i] in offsets; ts[offsets[i]])
  }

  /** The entries of a page, from offset 1 on, with the boxes PickSplit is given. */
  ghost predicate OnPage(ts: seq<Tree>, boxes: seq<Box>)
  {
    && |ts| == |boxes| >= 3 && AllValid(boxes)
    && forall j | 1 <= j < |ts| :: Built(ts[j]) && boxes[j] == KeyOf(ts[j])
  }

  lemma {:induction false} SideBuilds(ts: seq<Tree>, boxes: seq<Box>, offsets: seq<nat>, datum: Box)
    requires OnPage(ts, boxes) && forall x | x in offsets :: 1 <= x < |ts|
    requires Valid(datum) && Bounding(boxes, datum, Elements(offsets))
    ensures Built(Inner(datum, Pick(ts, offsets)))
  {
    hide Covers, Valid, Attained, KeyOf;
    var parts := Pick(ts, offsets);
    forall i | 0 <= i < |parts|
      ensures Built(parts[i]) && Covers(datum, KeyOf(parts[i]))
    {
      assert offsets[i] in Elements(offsets);
    }
  }

  lemma {:induction false} PickedLeaf(ts: seq<Tree>, offsets: seq<nat>, datum: Box, j: nat, b: Box)
    requires (forall x | x in offsets :: x < |ts|) && j in offsets && HasLeaf(ts[j], b)
    ensures HasLeaf(Inner(datum, Pick(ts, offsets)), b)
  {
    var i :| 0 <= i < |offsets| && offsets[i] == j;
    assert HasLeaf(Pick(ts, offsets)[i], b);
  }

  /** What PickSplit returns for a page makes two nodes of the index, and every box
      stored under the page is stored under one of them. */
  lemma {:induction false} SplitBuilds(ts: seq<Tree>, boxes: seq<Box>, left: seq<nat>, right: seq<nat>,
                                       datumL: Box, datumR: Box)
    requires OnPage(ts, boxes) && Partition(left, right, |boxes|)
    requires Valid(datumL) && Bounding(boxes, datumL, Elements(left))
    requires Valid(datumR) && Bounding(boxes, datumR, Elements(right))
    ensures Built(Inner(datumL, Pick(ts, left))) && Built(Inner(datumR, Pick(ts, right)))
    ensures forall j, b | 1 <= j < |ts| && HasLeaf(ts[j], b) ::
      HasLeaf(Inner(datumL, Pick(ts, left)), b) || HasLeaf(Inner(datumR, Pick(ts, right)), b)
  {
    hide Bounding, Elements, Valid, Increasing, Built, HasLeaf, Pick;
    SideBuilds(ts, boxes, left, datumL);
    SideBuilds(ts, boxes, right, datumR);
    forall j, b | 1 <= j < |ts| && HasLeaf(ts[j], b)
      ensures HasLeaf(Inner(datumL, Pick(ts, left)), b) || HasLeaf(Inner(datumR, Pick(ts, right)), b)
    {
      if j in left {
        PickedLeaf(ts, left, datumL, j, b);
      } else {
        PickedLeaf(ts, right, datumR, j, b);
      }
    }
  }
}
