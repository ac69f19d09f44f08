/** Trees of variable-length keys: unions at any number of levels over leaves and
    over halves of split pages. */
module BtreeGistTree {
  import opened Bytes
  import opened BtreeGistVar
  import opened BtreeGistSplit

  /** How a key can have come about: a leaf; a union, which may also take in an
      older key of the same page; or one half of a split page, cut at `n`. */
  datatype Tree = Leaf(value: Str) | Union(parts: seq<Tree>) | Half(parts: seq<Tree>, n: nat)

  /** A half is that of a page, such as a leaf page, none of whose upper bounds
      stands for longer strings. */
  predicate WellFormed(t: Tree)
    decreases t, 2
  {
    match t
    case Leaf(_) => true
    case Union(parts) => parts != [] && forall i | 0 <= i < |parts| :: WellFormed(parts[i])
    case Half(parts, n) =>
      && parts != [] && (forall i | 0 <= i < |parts| :: WellFormed(parts[i]))
      && (forall i | 0 <= i < |parts| :: !Loose(KeysOf(parts)[i]))
      && n > PrefixOf(RawUnion(KeysOf(parts)))
  }

  function KeyOf(t: Tree): VarKey
    requires WellFormed(t)
    decreases t, 3
  {
    match t
    case Leaf(v) => LeafKey(v)
    case Union(parts) => UnionKey(KeysOf(parts))
    case Half(parts, n) => Truncate(RawUnion(KeysOf(parts)), n)
  }

  function KeysOf(ts: seq<Tree>): (ks: seq<VarKey>)
    requires forall i | 0 <= i < |ts| :: WellFormed(ts[i])
    ensures |ks| == |ts|
    ensures forall i | 0 <= i < |ts| :: ks[i] == KeyOf(ts[i])
    decreases ts, 0
  {
    if ts == [] then [] else KeysOf(ts[..|ts| - 1]) + [KeyOf(ts[|ts| - 1])]
  }

  predicate HasLeaf(t: Tree, v: Str)
  {
    match t
    case Leaf(w) => v == w
    case Union(parts) => exists i :: 0 <= i < |parts| && HasLeaf(parts[i], v)
    case Half(parts, _) => exists i :: 0 <= i < |parts| && HasLeaf(parts[i], v)
  }

  /** Keys of a tree cover every leaf below. */
  lemma {:induction false} TreeCovers(t: Tree, v: Str)
    requires WellFormed(t) && HasLeaf(t, v)
    ensures Covers(KeyOf(t), v)
  {
    hide Covers, UnionKey, Loose, PrefixOf, Truncate, RawUnion;
    match t
    case Leaf(_) => LeafCovers(v);
    case Union(parts) =>
      var i :| 0 <= i < |parts| && HasLeaf(parts[i], v);
      TreeCovers(parts[i], v);
      UnionCovers(KeysOf(parts), i, v);
    case Half(parts, n) =>
      var i :| 0 <= i < |parts| && HasLeaf(parts[i], v);
      TreeCovers(parts[i], v);
      TightEntryCovered(KeysOf(parts), i, n, v);
  }

  /** Search never misses: if some leaf below satisfies the operator, the inner key is consistent. */
  lemma {:induction false} SearchComplete(t: Tree, v: Str, query: Str, strategy: Strategy)
    requires WellFormed(t) && !t.Leaf? && HasLeaf(t, v) && Satisfies(v, query, strategy)
    ensures Consistent(KeyOf(t), query, strategy, false)
  {
    hide Covers, KeyOf, WellFormed, Consistent, Satisfies;
    TreeCovers(t, v);
    CoversConsistent(KeyOf(t), v, query, strategy);
  }

  /** The halves gbt_var_picksplit makes of a page of leaves are such nodes. */
  lemma {:induction false} LeafHalves(left: seq<Str>, right: seq<Str>)
    requires left != [] && right != []
    ensures var l, r := RawUnion(LeafKeys(left)), RawUnion(LeafKeys(right));
            && WellFormed(Half(Leaves(left), SharedCut(l, r))) && WellFormed(Half(Leaves(right), SharedCut(l, r)))
            && KeyOf(Half(Leaves(left), SharedCut(l, r))) == Truncate(l, SharedCut(l, r))
            && KeyOf(Half(Leaves(right), SharedCut(l, r))) == Truncate(r, SharedCut(l, r))
  {
    hide RawUnion, PrefixOf, Loose;
    LeavesKeys(left);
    LeavesKeys(right);
    forall v
      ensures !Loose(LeafKey(v))
    {
      LeafIsTight(v);
    }
  }

  function Leaves(vs: seq<Str>): (ts: seq<Tree>)
    ensures |ts| == |vs| && forall i | 0 <= i < |vs| :: ts[i] == Leaf(vs[i])
  {
    seq(|vs|, i requires 0 <= i < |vs| => Leaf(vs[i]))
  }

  function LeafKeys(vs: seq<Str>): (ks: seq<VarKey>)
    ensures |ks| == |vs| && forall i | 0 <= i < |vs| :: ks[i] == LeafKey(vs[i])
  {
    seq(|vs|, i requires 0 <= i < |vs| => LeafKey(vs[i]))
  }

  lemma {:induction false} LeavesKeys(vs: seq<Str>)
    ensures KeysOf(Leaves(vs)) == LeafKeys(vs)
  {
    hide Leaves, LeafKeys;
  }

  // ---------- bounds in order ----------

  /** The bounds of every key of a tree are in order, as the split theorem asks. */
  lemma {:induction false} TreeOrdered(t: Tree)
    requires WellFormed(t)
    ensures BoundsInOrder(KeyOf(t))
  {
    hide Lex, RawUnion, Loose, PrefixOf, CommonPrefix;
    match t
    case Leaf(v) => LexAntisymmetric(v, v);
    case Union(parts) =>
      TreeOrdered(parts[0]);
      RawOrdered(KeysOf(parts));
      CutOrdered(Lower(RawUnion(KeysOf(parts))), Upper(RawUnion(KeysOf(parts))), CutLength(KeysOf(parts)));
    case Half(parts, n) =>
      TreeOrdered(parts[0]);
      RawOrdered(KeysOf(parts));
      CutOrdered(Lower(RawUnion(KeysOf(parts))), Upper(RawUnion(KeysOf(parts))), n + 1);
  }

  function CutLength(ks: seq<VarKey>): nat
    requires ks != []
  {
    CommonPrefix(Lower(RawUnion(ks)), Upper(RawUnion(ks))) + 2
  }

  lemma {:induction false} RawOrdered(ks: seq<VarKey>)
    requires ks != [] && BoundsInOrder(ks[0])
    ensures BoundsInOrder(RawUnion(ks))
  {
    hide Lex, RawUnion;
    RawUnionEncloses(ks, 0);
    LexChain(Lower(RawUnion(ks)), Lower(ks[0]), Upper(ks[0]));
    LexChain(Lower(RawUnion(ks)), Upper(ks[0]), Upper(RawUnion(ks)));
  }
}
