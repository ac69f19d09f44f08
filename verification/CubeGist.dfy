/** The GiST index over cubes: the box of an inner node, and whether search through
    inner boxes can miss a matching box. */
module CubeGist {
  import opened CubeBox

  // ---------- covering ----------

  /** `outer` reaches at least as far as `inner` in every dimension, missing
      dimensions reading as zero. */
  ghost predicate Covers(outer: Box, inner: Box)
    requires Valid(outer) && Valid(inner)
  {
    && inner.dim <= outer.dim
    && forall i: nat :: Lo(outer, i) <= Lo(inner, i) && Hi(inner, i) <= Hi(outer, i)
  }

  lemma {:induction false} CoversTransitive(a: Box, b: Box, c: Box)
    requires Valid(a) && Valid(b) && Valid(c) && Covers(a, b) && Covers(b, c)
    ensures Covers(a, c)
  {
  }

  lemma {:induction false} UnionCovers(u: Box, a: Box, b: Box)
    requires Valid(u) && Valid(a) && Valid(b) && IsUnion(u, a, b)
    ensures Covers(u, a) && Covers(u, b)
  {
  }

  /** `r` is the smallest box around the boxes at `ms`: it covers each, and every
      one of its bounds and its dimension is that of one of them. */
  ghost predicate Bounding(boxes: seq<Box>, r: Box, ms: set<nat>)
    requires AllValid(boxes) && Valid(r)
  {
    && (forall m | m in ms :: m < |boxes|)
    && (forall m | m in ms :: Covers(r, boxes[m]))
    && (exists m :: m in ms && boxes[m].dim == r.dim)
    && (forall i: nat :: Attained(boxes, r, ms, i))
  }

  ghost predicate Attained(boxes: seq<Box>, r: Box, ms: set<nat>, i: nat)
    requires AllValid(boxes) && Valid(r) && forall m | m in ms :: m < |boxes|
  {
    && (exists m :: m in ms && Lo(boxes[m], i) == Lo(r, i))
    && (exists m :: m in ms && Hi(boxes[m], i) == Hi(r, i))
  }

  predicate AllValid(boxes: seq<Box>)
  {
    forall i | 0 <= i < |boxes| :: Valid(boxes[i])
  }

  lemma {:induction false} BoundingOne(boxes: seq<Box>, m: nat)
    requires AllValid(boxes) && m < |boxes|
    ensures Bounding(boxes, boxes[m], {m})
  {
  }

  lemma {:induction false} BoundingGrows(boxes: seq<Box>, r: Box, ms: set<nat>, j: nat, u: Box)
    requires AllValid(boxes) && Valid(r) && Valid(u) && j < |boxes|
    requires Bounding(boxes, r, ms) && IsUnion(u, r, boxes[j])
    ensures Bounding(boxes, u, ms + {j})
  {
    hide Lo, Hi, Covers, Attained, Valid, IsUnion;
    UnionCovers(u, r, boxes[j]);
    forall m | m in ms + {j}
      ensures Covers(u, boxes[m])
    {
      if m in ms { CoversTransitive(u, r, boxes[m]); }
    }
    assert exists m :: m in ms + {j} && boxes[m].dim == u.dim by {
      UnionDim(u, r, boxes[j]);
      var m :| m in ms && boxes[m].dim == r.dim;
      assert m in ms + {j} && j in ms + {j};
    }
    forall i: nat
      ensures Attained(boxes, u, ms + {j}, i)
    {
      AttainedGrows(boxes, r, ms, j, u, i);
    }
  }

  lemma {:induction false} UnionDim(u: Box, a: Box, b: Box)
    requires Valid(u) && Valid(a) && Valid(b) && IsUnion(u, a, b)
    ensures u.dim == a.dim || u.dim == b.dim
  {
  }

  lemma {:induction false} AttainedGrows(boxes: seq<Box>, r: Box, ms: set<nat>, j: nat, u: Box, i: nat)
    requires AllValid(boxes) && Valid(r) && Valid(u) && j < |boxes| && forall m | m in ms :: m < |boxes|
    requires Attained(boxes, r, ms, i) && IsUnion(u, r, boxes[j])
    ensures Attained(boxes, u, ms + {j}, i)
  {
  }

  function Upto(n: nat): (r: set<nat>)
    ensures forall m: nat :: m in r <==> m < n
  {
    if n == 0 then {} else Upto(n - 1) + {n - 1}
  }

  /** g_cube_union: the smallest box around all entries of a vector of two or more. */
  method Union(boxes: seq<Box>) returns (out: Box)
    requires |boxes| >= 2 && AllValid(boxes)
    ensures Valid(out) && Bounding(boxes, out, Upto(|boxes|))
  {
    hide Bounding, IsUnion, Valid;
    out := boxes[0];
    BoundingOne(boxes, 0);
    assert Upto(1) == {0};
    for i := 1 to |boxes|
      invariant Valid(out) && Bounding(boxes, out, Upto(i))
    {
      var u := UnionV0(out, boxes[i], false);
      BoundingGrows(boxes, out, Upto(i), i, u);
      assert Upto(i + 1) == Upto(i) + {i};
      out := u;
    }
  }

  // ---------- search ----------

  datatype Strategy = Overlap | Same | Contain | ContainedBy | Other

  /** What the operator says of a stored box. */
  ghost predicate Matches(key: Box, query: Box, s: Strategy)
    requires Valid(key) && Valid(query)
  {
    match s
    case Overlap => Overlaps(key, query)
    case Same => SameBox(key, query)
    case Contain => Contains(key, query)
    case ContainedBy => Contains(query, key)
    case Other => false
  }

  /** What an inner box is tested for. */
  ghost predicate Admits(key: Box, query: Box, s: Strategy)
    requires Valid(key) && Valid(query)
  {
    match s
    case Overlap => Overlaps(key, query)
    case Same => Contains(key, query)
    case Contain => Contains(key, query)
    case ContainedBy => Overlaps(key, query)
    case Other => false
  }

  /** g_cube_consistent with g_cube_leaf_consistent and g_cube_internal_consistent */
  method Consistent(key: Box, query: Box, s: Strategy, leaf: bool) returns (r: bool)
    requires Valid(key) && Valid(query)
    ensures r <==> if leaf then Matches(key, query, s) else Admits(key, query, s)
  {
    hide Overlaps, Contains, SameBox, Cmp;
    match s {
      case Overlap => r := OverlapV0(key, query);
      case Same =>
        if leaf {
          var c := CmpV0(key, query);
          CmpAntisymmetric(key, query);
          r := c == 0;
        } else {
          r := ContainsV0(key, query);
        }
      case Contain => r := ContainsV0(key, query);
      case ContainedBy =>
        if leaf {
          r := ContainsV0(query, key);
        } else {
          r := OverlapV0(key, query);
        }
      case Other => r := false;
    }
  }

  /** In the dimensions that the query has and the stored box has not, the query
      reaches across zero. */
  ghost predicate ExcessHasZero(b: Box, query: Box)
    requires Valid(b) && Valid(query)
  {
    forall i: nat | b.dim <= i < query.dim :: Lo(query, i) <= 0.0 <= Hi(query, i)
  }

  lemma {:induction false} CoversAdmits(key: Box, b: Box, query: Box, s: Strategy)
    requires Valid(key) && Valid(b) && Valid(query) && Covers(key, b) && Matches(b, query, s)
    requires s == ContainedBy ==> ExcessHasZero(b, query)
    ensures Admits(key, query, s)
  {
  }

  // ---------- whole trees ----------

  /** An inner node carries a box that covers the boxes of its children. */
  datatype Tree = Leaf(box: Box) | Inner(key: Box, parts: seq<Tree>)

  function KeyOf(t: Tree): Box
  {
    if t.Leaf? then t.box else t.key
  }

  ghost predicate Built(t: Tree)
    ensures Built(t) ==> Valid(KeyOf(t))
  {
    match t
    case Leaf(b) => Valid(b)
    case Inner(key, parts) =>
      && Valid(key)
      && forall i | 0 <= i < |parts| :: Built(parts[i]) && Covers(key, KeyOf(parts[i]))
  }

  /** What Union returns for the boxes of index nodes makes a node above them. */
  lemma {:induction false} UnionBuilds(ts: seq<Tree>, boxes: seq<Box>, out: Box)
    requires |ts| == |boxes| && AllValid(boxes) && Valid(out) && Bounding(boxes, out, Upto(|boxes|))
    requires forall i | 0 <= i < |ts| :: Built(ts[i]) && boxes[i] == KeyOf(ts[i])
    ensures Built(Inner(out, ts))
  {
    hide Covers, Valid, Attained, KeyOf, Upto;
    forall i | 0 <= i < |ts|
      ensures Covers(out, KeyOf(ts[i]))
    {
      assert i in Upto(|boxes|);
    }
  }

  predicate HasLeaf(t: Tree, b: Box)
  {
    match t
    case Leaf(x) => x == b
    case Inner(_, parts) => exists i :: 0 <= i < |parts| && HasLeaf(parts[i], b)
  }

  /** A search descends to the stored box `b` and returns it. */
  ghost predicate Found(t: Tree, b: Box, query: Box, s: Strategy)
    requires Built(t) && Valid(query)
  {
    match t
    case Leaf(x) => x == b && Matches(x, query, s)
    case Inner(key, parts) =>
      Admits(key, query, s) && exists i :: 0 <= i < |parts| && Found(parts[i], b, query, s)
  }

  lemma {:induction false} TreeCovers(t: Tree, b: Box)
    requires Built(t) && HasLeaf(t, b)
    ensures Valid(b) && Covers(KeyOf(t), b)
  {
    hide Covers, Valid;
    match t
    case Leaf(_) => CoversSelf(b);
    case Inner(key, parts) =>
      var i :| 0 <= i < |parts| && HasLeaf(parts[i], b);
      TreeCovers(parts[i], b);
      CoversTransitive(key, KeyOf(parts[i]), b);
  }

  lemma {:induction false} CoversSelf(b: Box)
    requires Valid(b)
    ensures Covers(b, b)
  {
  }

  /** Search finds every matching box: always for overlap, same and contains, and
      for contained-by whenever the query reaches zero in its excess dimensions. */
  lemma {:induction false} SearchComplete(t: Tree, b: Box, query: Box, s: Strategy)
    requires Built(t) && Valid(b) && Valid(query) && HasLeaf(t, b) && Matches(b, query, s)
    requires s == ContainedBy ==> ExcessHasZero(b, query)
    ensures Found(t, b, query, s)
  {
    hide Covers, Valid, Matches, Admits, ExcessHasZero;
    if t.Inner? {
      TreeCovers(t, b);
      CoversAdmits(t.key, b, query, s);
      var i :| 0 <= i < |t.parts| && HasLeaf(t.parts[i], b);
      SearchComplete(t.parts[i], b, query, s);
    }
  }

  /** For contained-by the condition is exact: it holds of a matching box just
      when every tree that holds the box yields it. */
  lemma {:induction false} ContainedByExact(b: Box, query: Box)
    requires Valid(b) && Valid(query) && Contains(query, b)
    ensures ExcessHasZero(b, query) <==>
      forall t | Built(t) && HasLeaf(t, b) :: Found(t, b, query, ContainedBy)
  {
    hide ExcessHasZero, Contains, Covers, Valid;
    if ExcessHasZero(b, query) {
      forall t | Built(t) && HasLeaf(t, b)
        ensures Found(t, b, query, ContainedBy)
      {
        SearchComplete(t, b, query, ContainedBy);
      }
    } else {
      var t := Inner(b, [Leaf(b)]);
      CoversSelf(b);
      assert Built(t.parts[0]) && HasLeaf(t.parts[0], b);
      assert HasLeaf(t, b);
      Missed(b, query);
    }
  }

  lemma {:induction false} Missed(b: Box, query: Box)
    requires Valid(b) && Valid(query) && !ExcessHasZero(b, query)
    ensures !Overlaps(b, query)
  {
  }

  /** A stored point 1, and the query (0, 5) - (2, 6) that contains it: an inner
      box equal to the point turns the search away. */
  lemma {:induction false} ContainedByMisses()
    ensures var b, query := Box(true, 1, [1.0]), Box(false, 2, [0.0, 5.0, 2.0, 6.0]);
            && Valid(b) && Valid(query) && Matches(b, query, ContainedBy)
            && !Admits(b, query, ContainedBy)
  {
    var b, query := Box(true, 1, [1.0]), Box(false, 2, [0.0, 5.0, 2.0, 6.0]);
    assert Lo(query, 1) == 5.0 && Hi(b, 1) == 0.0;
  }
}
