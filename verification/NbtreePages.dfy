/** Pages of a B-tree index as amcheck reads them from a frozen index, and the two
    walks of verify_nbtree.c that look at one page's surroundings: left over
    half-dead siblings, and down an interrupted deletion. */
module NbtreePages {
  import opened Bytes
  import opened Sorting

  const P_NONE: nat := 0
  const INVALID_BLOCK: nat := 0xffff_ffff
  const P_HIKEY: nat := 1
  const MAX_ITEMS := 408      // MaxIndexTuplesPerPage for 8 kB pages

  /** An index tuple: the block and offset of its item pointer, then the rest. */
  datatype Tuple = Tuple(block: nat, posid: nat, data: seq<byte>)

  datatype Page = Page(
    prev: nat, next: nat, level: nat,
    leaf: bool, root: bool, deleted: bool, halfDead: bool, incompleteSplit: bool, fullXid: bool,
    garbage: bool,
    items: seq<Tuple>)

  type Index = map<nat, Page>

  predicate Ignorable(p: Page) { p.deleted || p.halfDead }

  predicate Rightmost(p: Page) { p.next == P_NONE }

  function FirstDataKey(p: Page): nat { if Rightmost(p) then 1 else 2 }

  /** PageGetItemIdCareful followed by PageGetItem; `None` is its error. */
  function ItemAt(p: Page, offset: nat): Option<Tuple>
  {
    if 1 <= offset <= |p.items| then Some(p.items[offset - 1]) else None
  }

  predicate NegativeInfinity(p: Page, offset: nat) { !p.leaf && offset == FirstDataKey(p) }

  /** bt_pivot_tuple_identical: equal but for the block number. */
  predicate Identical(heapKeySpace: bool, a: Tuple, b: Tuple)
  {
    a.data == b.data && (heapKeySpace ==> a.posid == b.posid)
  }

  /** The sanity checks of palloc_btree_page. */
  predicate Sane(p: Page)
  {
    && (!p.deleted || p.fullXid ==> (p.leaf <==> p.level == 0))
    && |p.items| <= MAX_ITEMS
    && (!p.leaf && !p.deleted ==> FirstDataKey(p) <= |p.items|)
    && (p.leaf && !p.deleted && !Rightmost(p) ==> P_HIKEY <= |p.items|)
    && (!p.leaf ==> !p.halfDead && !p.garbage)
    && (p.fullXid ==> p.deleted) && !(p.deleted && p.halfDead)
  }

  /** A page that passes them has the high key its links call for. */
  lemma {:induction false} HighKeyThere(p: Page)
    requires Sane(p) && !p.deleted && !Rightmost(p)
    ensures ItemAt(p, P_HIKEY).Some?
  {
  }

  /** palloc_btree_page returns rather than raising an error. */
  predicate Readable(idx: Index, blkno: nat)
  {
    blkno in idx && blkno != INVALID_BLOCK && Sane(idx[blkno])
  }

  // ---------- left over half-dead siblings ----------

  /** `chain` starts at `start` and follows left links over half-dead pages that
      link back, up to a page without a left link. */
  ghost predicate HalfDeadChain(idx: Index, start: nat, chain: seq<nat>)
  {
    && HalfDeadPath(idx, start, chain)
    && idx[chain[|chain| - 1]].prev == P_NONE
  }

  ghost predicate HalfDeadPath(idx: Index, start: nat, path: seq<nat>)
  {
    && path != [] && path[0] == start
    && (forall i | 0 <= i < |path| :: path[i] in idx)
    && (forall i | 0 < i < |path| :: HalfDeadStep(idx, start, path[i - 1], path[i]))
  }

  predicate HalfDeadStep(idx: Index, start: nat, from: nat, to: nat)
    requires from in idx && to in idx
  {
    && to == idx[from].prev && to != P_NONE && Readable(idx, to)
    && idx[to].halfDead && to != start && to != from && idx[to].next == from
  }

  /** Leftmost, not counting half-dead pages to the left. */
  ghost predicate Leftmost(idx: Index, start: nat)
  {
    exists chain :: HalfDeadChain(idx, start, chain)
  }

  predicate Distinct(s: seq<nat>)
  {
    forall i, j | 0 <= i < j < |s| :: s[i] != s[j]
  }

  /** A path over pages that link back to where they were reached from never
      meets itself, so following left links comes to an end. */
  lemma {:induction false} PathStaysDistinct(idx: Index, start: nat, path: seq<nat>, to: nat)
    requires HalfDeadPath(idx, start, path) && Distinct(path)
    requires to in idx && HalfDeadStep(idx, start, path[|path| - 1], to)
    ensures HalfDeadPath(idx, start, path + [to]) && Distinct(path + [to])
  {
    hide Sane;
    forall i | 0 <= i < |path|
      ensures path[i] != to
    {
      if i > 0 { assert HalfDeadStep(idx, start, path[i - 1], path[i]); }
    }
  }

  lemma {:induction false} ChainFollowsPath(idx: Index, start: nat, path: seq<nat>, chain: seq<nat>, i: nat)
    requires HalfDeadPath(idx, start, path) && HalfDeadChain(idx, start, chain) && i < |path|
    ensures i < |chain| && chain[i] == path[i]
  {
    hide Sane, Readable;
    if i > 0 {
      ChainFollowsPath(idx, start, path, chain, i - 1);
      assert HalfDeadStep(idx, start, path[i - 1], path[i]);
      if i < |chain| { assert HalfDeadStep(idx, start, chain[i - 1], chain[i]); }
    }
  }

  lemma {:induction false} NotLeftmost(idx: Index, start: nat, path: seq<nat>, to: nat)
    requires HalfDeadPath(idx, start, path) && to == idx[path[|path| - 1]].prev && to != P_NONE
    requires to in idx ==> !HalfDeadStep(idx, start, path[|path| - 1], to)
    ensures !Leftmost(idx, start)
  {
    hide Sane, Readable;
    forall chain | HalfDeadChain(idx, start, chain)
      ensures false
    {
      ChainFollowsPath(idx, start, path, chain, |path| - 1);
      ChainGoesOn(idx, start, chain, |path|);
    }
  }

  lemma {:induction false} ChainGoesOn(idx: Index, start: nat, chain: seq<nat>, n: nat)
    requires HalfDeadChain(idx, start, chain) && 0 < n <= |chain| && idx[chain[n - 1]].prev != P_NONE
    ensures n < |chain| && HalfDeadStep(idx, start, chain[n - 1], chain[n])
  {
  }

  /** `path` ends at a page whose left link cannot be followed. */
  ghost predicate BrokenPath(idx: Index, start: nat, path: seq<nat>)
  {
    && HalfDeadPath(idx, start, path)
    && idx[path[|path| - 1]].prev != P_NONE && !Readable(idx, idx[path[|path| - 1]].prev)
  }

  lemma {:induction false} PathsAgree(idx: Index, start: nat, a: seq<nat>, b: seq<nat>, i: nat)
    requires HalfDeadPath(idx, start, a) && HalfDeadPath(idx, start, b) && i < |a| && i < |b|
    ensures a[i] == b[i]
  {
    hide Sane, Readable;
    if i > 0 {
      PathsAgree(idx, start, a, b, i - 1);
      assert HalfDeadStep(idx, start, a[i - 1], a[i]) && HalfDeadStep(idx, start, b[i - 1], b[i]);
    }
  }

  /** Where the walk stops for another reason, no path is broken. */
  lemma {:induction false} NotBroken(idx: Index, start: nat, path: seq<nat>)
    requires HalfDeadPath(idx, start, path)
    requires var to := idx[path[|path| - 1]].prev;
             to == P_NONE || (Readable(idx, to) && !HalfDeadStep(idx, start, path[|path| - 1], to))
    ensures forall p :: !BrokenPath(idx, start, p)
  {
    hide Sane, Readable;
    forall p
      ensures !BrokenPath(idx, start, p)
    {
      if HalfDeadPath(idx, start, p) {
        var n := if |path| < |p| then |path| else |p|;
        PathsAgree(idx, start, path, p, n - 1);
        NextStep(idx, start, path, n);
        NextStep(idx, start, p, n);
      }
    }
  }

  lemma {:induction false} NextStep(idx: Index, start: nat, path: seq<nat>, n: nat)
    requires HalfDeadPath(idx, start, path) && 0 < n <= |path|
    ensures n < |path| ==> HalfDeadStep(idx, start, path[n - 1], path[n]) && Readable(idx, path[n])
    ensures n < |path| ==> path[n] == idx[path[n - 1]].prev && path[n] != P_NONE
  {
  }

  /** bt_leftmost_ignoring_half_dead. It always terminates; an Error is a page
      that cannot be read. */
  method LeftmostIgnoringHalfDead(idx: Index, start: nat) returns (r: Result<bool>)
    requires Readable(idx, start)
    ensures r == Ok(true) <==> Leftmost(idx, start)
    ensures r.Error? <==> exists path :: BrokenPath(idx, start, path)
  {
    hide Sane, HalfDeadStep, Leftmost, Distinct;
    var reached, reachedFrom := idx[start].prev, start;
    ghost var path := [start];
    DistinctOne(start);
    while reached != P_NONE
      invariant HalfDeadPath(idx, start, path) && Distinct(path)
      invariant reachedFrom == path[|path| - 1] && reached == idx[reachedFrom].prev
      decreases idx.Keys - Elements(path)
    {
      if !Readable(idx, reached) {
        if reached in idx { StepReadable(idx, start, reachedFrom, reached); }
        NotLeftmost(idx, start, path, reached);
        assert BrokenPath(idx, start, path);
        return Error;
      }
      var page := idx[reached];
      var allHalfDead := page.halfDead && reached != start && reached != reachedFrom && page.next == reachedFrom;
      StepMeaning(idx, start, reachedFrom, reached);
      if !allHalfDead {
        NotLeftmost(idx, start, path, reached);
        NotBroken(idx, start, path);
        return Ok(false);
      }
      PathStaysDistinct(idx, start, path, reached);
      NewElement(path, reached);
      path := path + [reached];
      reachedFrom, reached := reached, page.prev;
    }
    LeftmostBy(idx, start, path);
    NotBroken(idx, start, path);
    return Ok(true);
  }

  lemma {:induction false} DistinctOne(start: nat)
    ensures Distinct([start])
  {
  }

  lemma {:induction false} StepReadable(idx: Index, start: nat, from: nat, to: nat)
    requires from in idx && to in idx
    ensures HalfDeadStep(idx, start, from, to) ==> Readable(idx, to)
  {
  }

  lemma {:induction false} StepMeaning(idx: Index, start: nat, from: nat, to: nat)
    requires from in idx && Readable(idx, to) && to == idx[from].prev && to != P_NONE
    ensures HalfDeadStep(idx, start, from, to) <==>
      idx[to].halfDead && to != start && to != from && idx[to].next == from
  {
  }

  lemma {:induction false} NewElement(path: seq<nat>, to: nat)
    requires Distinct(path + [to])
    ensures to !in Elements(path) && Elements(path + [to]) == Elements(path) + {to}
  {
    hide Elements;
    var longer := path + [to];
    forall i | 0 <= i < |path|
      ensures path[i] != to
    {
      assert longer[i] != longer[|path|];
    }
  }

  lemma {:induction false} LeftmostBy(idx: Index, start: nat, path: seq<nat>)
    requires HalfDeadChain(idx, start, path)
    ensures Leftmost(idx, start)
  {
  }

  // ---------- down an interrupted deletion ----------

  /** The first downlink of an internal page. */
  function FirstDownlink(p: Page): nat
  {
    if FirstDataKey(p) <= |p.items| then p.items[FirstDataKey(p) - 1].block else INVALID_BLOCK
  }

  /** uint32 arithmetic on levels */
  function OneDown(level: nat): nat { (level + 0xffff_ffff) % 0x1_0000_0000 }

  /** `path` goes down first downlinks from `top`, one level at a time. */
  ghost predicate DownPath(idx: Index, top: nat, path: seq<nat>)
  {
    && path != [] && path[0] == top
    && (forall i | 0 <= i < |path| :: Readable(idx, path[i]))
    && (forall i | 0 <= i < |path| - 1 :: !idx[path[i]].leaf && path[i + 1] == FirstDownlink(idx[path[i]]))
    && (forall i | 0 < i < |path| - 1 :: idx[path[i]].level == OneDown(idx[path[i - 1]].level))
  }

  /** `top` heads a chain of pages that an interrupted deletion left behind: its
      leftmost leaf is half-dead and names `top` as the top parent. */
  ghost predicate InterruptedDeletion(idx: Index, top: nat)
  {
    exists path :: DeletionPath(idx, top, path)
  }

  ghost predicate DeletionPath(idx: Index, top: nat, path: seq<nat>)
  {
    |path| > 1 && DownPath(idx, top, path) && path[|path| - 1] in idx && DeletionLeaf(idx[path[|path| - 1]], top)
  }

  predicate DeletionLeaf(p: Page, top: nat)
  {
    p.leaf && !p.deleted && p.halfDead && !Rightmost(p) && p.items != [] && p.items[0].block == top
  }

  datatype Outcome = Returned | Corrupt | Unfinished

  /** bt_downlink_missing_check's tolerance for a page without a downlink. */
  ghost predicate MayLackDownlink(idx: Index, rightSplit: bool, blkno: nat)
    requires blkno in idx
  {
    idx[blkno].root || rightSplit || InterruptedDeletion(idx, blkno)
  }

  lemma {:induction false} DownOne(idx: Index, top: nat)
    requires Readable(idx, top)
    ensures DownPath(idx, top, [top])
  {
  }

  lemma {:induction false} DownFurther(idx: Index, top: nat, path: seq<nat>, next: nat)
    requires DownPath(idx, top, path) && Readable(idx, next)
    requires !idx[path[|path| - 1]].leaf && next == FirstDownlink(idx[path[|path| - 1]])
    requires |path| > 1 ==> idx[path[|path| - 1]].level == OneDown(idx[path[|path| - 2]].level)
    ensures DownPath(idx, top, path + [next])
  {
    hide Sane, OneDown, FirstDownlink;
    var longer := path + [next];
    forall i | 0 <= i < |longer| - 1
      ensures !idx[longer[i]].leaf && longer[i + 1] == FirstDownlink(idx[longer[i]])
    {
      if i < |path| - 1 { assert longer[i + 1] == path[i + 1]; }
    }
  }

  /** The same with a descent of at most `fuel` steps. */
  ghost predicate MayLackWithin(idx: Index, rightSplit: bool, blkno: nat, fuel: nat)
    requires blkno in idx
  {
    idx[blkno].root || rightSplit || exists path :: DeletionPath(idx, blkno, path) && |path| <= fuel + 1
  }

  /** A descent over internal pages is a proper start of every deletion path. */
  lemma {:induction false} PathGoesOn(idx: Index, top: nat, path: seq<nat>, full: seq<nat>, i: nat)
    requires DownPath(idx, top, path) && !idx[path[|path| - 1]].leaf && DeletionPath(idx, top, full) && i < |path|
    ensures i + 1 < |full| && full[i] == path[i] && full[i + 1] == FirstDownlink(idx[path[i]])
  {
    hide Sane, OneDown, FirstDownlink, Readable;
    if i > 0 { PathGoesOn(idx, top, path, full, i - 1); }
  }

  /** What every deletion path that starts with `path` goes on with. */
  lemma {:induction false} NextOnPath(idx: Index, top: nat, path: seq<nat>, full: seq<nat>)
    requires DownPath(idx, top, path) && !idx[path[|path| - 1]].leaf && DeletionPath(idx, top, full)
    ensures var last := path[|path| - 1]; var child := FirstDownlink(idx[last]);
            && |path| < |full| && Readable(idx, child)
            && (!idx[child].leaf ==> idx[child].level == OneDown(idx[last].level))
            && (idx[child].leaf ==> DeletionLeaf(idx[child], top) && |full| == |path| + 1)
  {
    hide Sane, OneDown, FirstDownlink;
    PathGoesOn(idx, top, path, full, |path| - 1);
    assert full[|path|] == FirstDownlink(idx[path[|path| - 1]]);
  }

  /** bt_downlink_missing_check; `fuel` bounds the descent. An error is reported only
      where no bound would let it pass. */
  method DownlinkMissingCheck(idx: Index, rightSplit: bool, blkno: nat, fuel: nat) returns (out: Outcome)
    requires Readable(idx, blkno) && !Ignorable(idx[blkno])
    ensures out == Returned <==> MayLackWithin(idx, rightSplit, blkno, fuel)
    ensures out == Corrupt ==> !MayLackDownlink(idx, rightSplit, blkno)
  {
    hide Sane, OneDown, FirstDownlink, DownPath, DeletionLeaf, DeletionPath, Readable;
    ReadableIn(idx, blkno);
    var page := idx[blkno];
    if page.root || rightSplit {
      return Returned;
    }
    if page.leaf {
      LeafHasNone(idx, blkno);
      return Corrupt;
    }
    var level := page.level;
    var childblk := FirstDownlink(page);
    ghost var path := [blkno];
    DownOne(idx, blkno);
    var left := fuel;
    while true
      invariant path != [] && DownPath(idx, blkno, path) && |path| + left == fuel + 1
      invariant path[|path| - 1] in idx && !idx[path[|path| - 1]].leaf
      invariant level == idx[path[|path| - 1]].level && childblk == FirstDownlink(idx[path[|path| - 1]])
      invariant |path| > 1 ==> path[|path| - 2] in idx && level == OneDown(idx[path[|path| - 2]].level)
      decreases left
    {
      forall full | DeletionPath(idx, blkno, full)
        ensures |path| < |full| && Readable(idx, childblk) && childblk in idx
        ensures !idx[childblk].leaf ==> idx[childblk].level == OneDown(level)
        ensures idx[childblk].leaf ==> DeletionLeaf(idx[childblk], blkno) && |full| == |path| + 1
      {
        NextOnPath(idx, blkno, path, full);
        ReadableIn(idx, childblk);
      }
      if left == 0 {
        return Unfinished;
      }
      left := left - 1;
      if !Readable(idx, childblk) {
        return Corrupt;
      }
      ReadableIn(idx, childblk);
      var child := idx[childblk];
      DownFurther(idx, blkno, path, childblk);
      if child.leaf {
        out := LeafOfDeletion(child, blkno);
        if out == Returned { EndsDeletion(idx, blkno, path, childblk); }
        return;
      }
      if child.level != OneDown(level) {
        return Corrupt;
      }
      path := path + [childblk];
      level, childblk := child.level, FirstDownlink(child);
    }
  }

  /** The tests on the leaf that a descent ends at. */
  method LeafOfDeletion(child: Page, top: nat) returns (out: Outcome)
    requires child.leaf
    ensures out == (if DeletionLeaf(child, top) then Returned else Corrupt)
  {
    if child.deleted {
      return Corrupt;
    }
    if child.halfDead && !Rightmost(child) {
      var itup := ItemAt(child, P_HIKEY);
      if itup.None? {
        return Corrupt;
      }
      if itup.value.block == top {
        return Returned;
      }
    }
    return Corrupt;
  }

  lemma {:induction false} LeafHasNone(idx: Index, blkno: nat)
    requires blkno in idx && idx[blkno].leaf
    ensures forall path :: !DeletionPath(idx, blkno, path)
  {
  }

  lemma {:induction false} EndsDeletion(idx: Index, top: nat, path: seq<nat>, leaf: nat)
    requires path != [] && DownPath(idx, top, path + [leaf]) && leaf in idx && DeletionLeaf(idx[leaf], top)
    ensures DeletionPath(idx, top, path + [leaf])
  {
    hide DownPath, DeletionLeaf;
  }

  lemma {:induction false} ReadableIn(idx: Index, blkno: nat)
    requires Readable(idx, blkno)
    ensures blkno in idx
  {
  }
}
