/** Two consecutive passes of bt_check_level_from_leftmost: the second pass walks
    exactly the blocks the first one visited from above, so nothing on a level
    escapes the check. And what a single pass does not notice. */
module NbtreeLevels {
  import opened Bytes
  import opened NbtreePages
  import opened NbtreeCheck
  import opened NbtreeLockstep

  // ---------- the walk from above follows the walk below ----------

  /** A walk that ends, over proper blocks. */
  predicate FullWalk(idx: Index, v: seq<nat>)
  {
    OneWalk(idx, v) && P_NONE !in v && INVALID_BLOCK !in v
  }

  lemma {:induction false} RightOf(idx: Index, v: seq<nat>, m: nat)
    requires FullWalk(idx, v) && 0 < m <= |v|
    ensures v[m - 1] in idx && idx[v[m - 1]].next == (if m < |v| then v[m] else P_NONE)
    ensures idx[v[m - 1]].next != INVALID_BLOCK
  {
    if m < |v| { assert v[m] in v; }
  }

  /** Linked blocks that start on a walk stay on it. */
  lemma {:induction false} StaysOn(idx: Index, v: seq<nat>, m: nat, seg: seq<nat>)
    requires FullWalk(idx, v) && Linked(idx, seg) && forall i | 0 <= i < |seg| :: seg[i] != P_NONE
    requires seg != [] ==> m < |v| && seg[0] == v[m]
    requires m <= |v|
    ensures m + |seg| <= |v| && v[m..m + |seg|] == seg
  {
    if |seg| > 1 {
      var n := |seg| - 1;
      var init := seg[..n];
      assert Linked(idx, init);
      StaysOn(idx, v, m, init);
      assert init[n - 1] == seg[n - 1] == v[m..m + n][n - 1] == v[m + n - 1];
      assert idx[seg[n - 1]].next == seg[n];
      RightOf(idx, v, m + n);
      assert seg == init + [seg[n]];
    }
  }

  /** After j downlinks the blocks visited from above are a start of the walk below,
      up to downlink j - 1. */
  ghost predicate Follows(es: seq<Entry>, segs: seq<seq<nat>>, below: seq<nat>, j: nat)
    requires j <= |es| && j <= |segs|
  {
    Flat(segs[..j]) <= below && (j > 0 ==> Flat(segs[..j]) != [] && below[|Flat(segs[..j])| - 1] == es[j - 1].down)
  }

  lemma {:induction false} FollowsStep(idx: Index, hks: bool, level: nat, es: seq<Entry>, segs: seq<seq<nat>>,
      below: seq<nat>, j: nat)
    requires LevelOk(idx, hks, level, es, segs) && NoZero(es) && es != []
    requires FullWalk(idx, below) && below[0] == es[0].down && j <= |es| && j < |segs| && Follows(es, segs, below, j)
    ensures Flat(segs[..j]) + segs[j] <= below
    ensures j < |es| ==> Follows(es, segs, below, j + 1)
    ensures j == |es| ==> Flat(segs[..j]) + segs[j] == below
  {
    hide LevelOk, CallOk, FullWalk, Linked, PrevSplit, Flat;
    LevelCall(idx, hks, level, es, segs, j);
    var c, m, seg := TheCall(idx, es, j), |Flat(segs[..j])|, segs[j];
    CallFacts(idx, hks, level, c, seg);
    assert j < |es| ==> c.down == es[j].down != P_NONE;
    StartOn(idx, es, segs, below, j);
    StaysOn(idx, below, m, seg);
    assert Flat(segs[..j]) + seg == below[..m + |seg|];
    if j < |es| {
      FlatNext(segs, j);
      assert below[m + |seg| - 1] == below[m..m + |seg|][|seg| - 1];
    } else {
      EndsThere(idx, below, m, seg, c);
    }
  }

  /** The call starts where the walk below goes on. */
  lemma {:induction false} StartOn(idx: Index, es: seq<Entry>, segs: seq<seq<nat>>, below: seq<nat>, j: nat)
    requires NoZero(es) && es != [] && FullWalk(idx, below) && below[0] == es[0].down
    requires j <= |es| && j < |segs| && Follows(es, segs, below, j)
    ensures var m := |Flat(segs[..j])|;
            m <= |below| && (j > 0 ==> m > 0 && TheCall(idx, es, j).prevLink != INVALID_BLOCK)
            && Start(TheCall(idx, es, j)) == (if m < |below| then below[m] else P_NONE)
  {
    hide FullWalk, NoZero;
    NotEmpty(idx, below);
    if j == 0 {
      assert es[..0] == [] && segs[..0] == [];
    } else {
      var m := |Flat(segs[..j])|;
      RightOf(idx, below, m);
      assert es[..j][|es[..j]| - 1] == es[j - 1];
      assert j == |es| ==> es[..j] == es;
      assert es[j - 1].down != P_NONE by { ZeroAt(es, j - 1); }
    }
  }

  lemma {:induction false} ZeroAt(es: seq<Entry>, j: nat)
    requires NoZero(es) && j < |es|
    ensures es[j].down != P_NONE
  {
  }

  lemma {:induction false} NotEmpty(idx: Index, v: seq<nat>)
    requires FullWalk(idx, v)
    ensures v != []
  {
  }

  lemma {:induction false} FlatNext(segs: seq<seq<nat>>, j: nat)
    requires j < |segs|
    ensures Flat(segs[..j + 1]) == Flat(segs[..j]) + segs[j]
  {
    assert segs[..j + 1][..j] == segs[..j];
  }

  /** The last call leads to the end of the walk below. */
  lemma {:induction false} EndsThere(idx: Index, below: seq<nat>, m: nat, seg: seq<nat>, c: Call)
    requires FullWalk(idx, below) && m + |seg| <= |below| && below[m..m + |seg|] == seg && Linked(idx, seg)
    requires c.down == P_NONE == Position(idx, c, seg)
    requires Start(c) == (if m < |below| then below[m] else P_NONE)
    ensures m + |seg| == |below|
  {
    var n := m + |seg|;
    assert forall i | 0 <= i < |below| :: below[i] != P_NONE;
    if seg != [] {
      assert seg[|seg| - 1] == below[n - 1];
      RightOf(idx, below, n);
    }
  }

  lemma {:induction false} FollowsAll(idx: Index, hks: bool, level: nat, es: seq<Entry>, segs: seq<seq<nat>>,
      below: seq<nat>, j: nat)
    requires LevelOk(idx, hks, level, es, segs) && NoZero(es) && es != [] && |segs| == |es| + 1
    requires FullWalk(idx, below) && below[0] == es[0].down && j <= |es|
    ensures Follows(es, segs, below, j)
  {
    hide LevelOk, FullWalk, NoZero;
    if j == 0 {
      assert segs[..0] == [];
    } else {
      FollowsAll(idx, hks, level, es, segs, below, j - 1);
      FollowsStep(idx, hks, level, es, segs, below, j - 1);
    }
  }

  /** A walk along the child level from the first downlink to the end is what the
      calls visit, so all right links visited are proper. */
  lemma {:induction false} VisitedIsWalk(idx: Index, hks: bool, level: nat, es: seq<Entry>, segs: seq<seq<nat>>,
      below: seq<nat>)
    requires LevelOk(idx, hks, level, es, segs) && NoZero(es) && es != []
    requires FullWalk(idx, below) && below[0] == es[0].down
    ensures Flat(segs) == below && SoundLinks(idx, es, segs)
  {
    hide LevelOk, NoZero, Follows;
    LevelRun(idx, hks, level, es, segs);
    var n := |es|;
    FollowsAll(idx, hks, level, es, segs, below, n);
    FollowsStep(idx, hks, level, es, segs, below, n);
    assert segs[..n + 1] == segs;
    FlatNext(segs, n);
    forall i | 0 <= i < |below|
      ensures idx[below[i]].next != INVALID_BLOCK
    {
      RightOf(idx, below, i + 1);
    }
  }

  // ---------- from one pass to the next ----------

  /** The first downlink of a level is that of its first page that is not skipped. */
  lemma {:induction false} FirstEntry(idx: Index, targets: seq<nat>, i: nat)
    requires (forall k | 0 <= k < |targets| :: targets[k] in idx) && AllSane(PagesOf(idx, targets))
    requires i < |targets| && AllIgnorable(idx, targets[..i])
    requires !Ignorable(idx[targets[i]]) && !idx[targets[i]].leaf
    ensures Entries(PagesOf(idx, targets)) != []
    ensures Entries(PagesOf(idx, targets))[0].down == FirstDownlink(idx[targets[i]])
  {
    hide Sane, PageEntries, FirstDownlink, LowKey, PagesOf;
    var ts, n := PagesOf(idx, targets), |targets| - 1;
    var init := targets[..n];
    assert PagesOf(idx, init) == ts[..n] && ts[n] == idx[targets[n]];
    if i < n {
      assert init[..i] == targets[..i];
      FirstEntry(idx, init, i);
    } else {
      SkippedEntries(idx, init);
      FirstOfPage(ts[n], LowKey(ts[..n]));
    }
  }

  /** Results of a pass over `level` that returned, and of the pass over the level below. */
  ghost predicate TwoPasses(idx: Index, hks: bool, trueRootLevel: bool, level: nat,
      targets: seq<nat>, segs: seq<seq<nat>>, next: nat, below: seq<nat>)
  {
    && level > 0 && TargetWalk(idx, level, targets) && HeadOf(idx, trueRootLevel, targets, next)
    && AllSane(PagesOf(idx, targets)) && LevelOk(idx, hks, level - 1, Entries(PagesOf(idx, targets)), segs)
    && TargetWalk(idx, level - 1, below) && below != [] && below[0] == next && Rightmost(idx[below[|below| - 1]])
  }

  lemma {:induction false} WalkIsFull(idx: Index, level: nat, targets: seq<nat>)
    requires TargetWalk(idx, level, targets) && targets != [] && Rightmost(idx[targets[|targets| - 1]])
    ensures FullWalk(idx, targets)
  {
    hide Sane;
  }

  lemma {:induction false} HeadPage(idx: Index, trueRootLevel: bool, level: nat, targets: seq<nat>, next: nat)
    requires level > 0 && TargetWalk(idx, level, targets) && HeadOf(idx, trueRootLevel, targets, next)
    requires AllSane(PagesOf(idx, targets))
    ensures Entries(PagesOf(idx, targets)) != [] && Entries(PagesOf(idx, targets))[0].down == next
  {
    hide Entries, FirstDownlink, AllIgnorable, Leftmost, Sane;
    var i :| 0 <= i < |targets| && AllIgnorable(idx, targets[..i]) && Head(idx, trueRootLevel, targets[i], next);
    SaneAt(idx, level, targets, i);
    FirstEntry(idx, targets, i);
  }

  lemma {:induction false} SaneAt(idx: Index, level: nat, targets: seq<nat>, i: nat)
    requires level > 0 && TargetWalk(idx, level, targets) && i < |targets| && !Ignorable(idx[targets[i]])
    ensures !idx[targets[i]].leaf
  {
  }

  /** The blocks visited below a target level are the target blocks of the pass over
      the next level, unless a downlink is zero; all links followed were proper. */
  lemma {:induction false} NextLevelIsVisited(idx: Index, hks: bool, trueRootLevel: bool, level: nat,
      targets: seq<nat>, segs: seq<seq<nat>>, next: nat, below: seq<nat>)
    requires TwoPasses(idx, hks, trueRootLevel, level, targets, segs, next, below)
    requires NoZero(Entries(PagesOf(idx, targets)))
    ensures Flat(segs) == below && SoundLinks(idx, Entries(PagesOf(idx, targets)), segs)
  {
    hide LevelOk, Flat, NoZero, Entries, PagesOf, TargetWalk, HeadOf, SoundLinks;
    HeadPage(idx, trueRootLevel, level, targets, next);
    WalkIsFull(idx, level - 1, below);
    VisitedIsWalk(idx, hks, level - 1, Entries(PagesOf(idx, targets)), segs, below);
  }

  /** What two consecutive passes establish about the lower level: it is one walk
      through the downlinks in order, and every block on it is ignorable, has a
      downlink, or is excused. */
  lemma {:induction false} LowerLevel(idx: Index, hks: bool, trueRootLevel: bool, level: nat,
      targets: seq<nat>, segs: seq<seq<nat>>, next: nat, below: seq<nat>, n: nat)
    requires TwoPasses(idx, hks, trueRootLevel, level, targets, segs, next, below)
    requires NoZero(Entries(PagesOf(idx, targets))) && n < |below|
    ensures var es := Entries(PagesOf(idx, targets));
            && OneWalk(idx, below) && DownlinksReached(es, segs) && Flat(segs) == below
            && below[n] in idx
            && (|| Ignorable(idx[below[n]])
                || (exists j :: 0 <= j < |es| && es[j].down == below[n])
                || Excused(idx, below, n))
  {
    hide LevelOk, Flat, NoZero, Entries, PagesOf, TargetWalk, HeadOf, SoundLinks, OneWalk, DownlinksReached, Excused;
    NextLevelIsVisited(idx, hks, trueRootLevel, level, targets, segs, next, below);
    HeadPage(idx, trueRootLevel, level, targets, next);
    var es := Entries(PagesOf(idx, targets));
    LevelIsOneWalk(idx, hks, level - 1, es, segs);
    EveryBlockAccountedFor(idx, hks, level - 1, es, segs, n);
  }

  /** An inner level that is not the top one has no page to skip, so that high keys
      match in lockstep on every level below the one under the root. */
  lemma {:induction false} LowerLevelUnbroken(idx: Index, hks: bool, trueRootLevel: bool, level: nat,
      targets: seq<nat>, segs: seq<seq<nat>>, next: nat, below: seq<nat>)
    requires TwoPasses(idx, hks, trueRootLevel, level, targets, segs, next, below) && level > 1
    requires NoZero(Entries(PagesOf(idx, targets)))
    ensures Unbroken(PagesOf(idx, below))
  {
    hide LevelOk, Flat, NoZero, Entries, HeadOf, SoundLinks;
    NextLevelIsVisited(idx, hks, trueRootLevel, level, targets, segs, next, below);
    var es, ts := Entries(PagesOf(idx, targets)), PagesOf(idx, below);
    forall i | 0 <= i < |below|
      ensures Sane(ts[i]) && !ts[i].leaf && !Ignorable(ts[i]) && (i < |ts| - 1 ==> !Rightmost(ts[i]))
    {
      assert ts[i] == idx[below[i]];
      VisitedLevel(idx, hks, level - 1, es, segs, i);
      if i < |ts| - 1 { assert idx[below[i]].next == below[i + 1]; }
    }
  }

  lemma {:induction false} VisitedLevel(idx: Index, hks: bool, level: nat, es: seq<Entry>, segs: seq<seq<nat>>, n: nat)
    requires LevelOk(idx, hks, level, es, segs) && n < |Flat(segs)|
    ensures Flat(segs)[n] in idx && (!idx[Flat(segs)[n]].deleted ==> idx[Flat(segs)[n]].level == level)
  {
    hide LevelOk, Flat, MayLackDownlink, HighKeyMatches, Sane, SplitBefore, Leftmost, Linked;
    var j, i := FlatElement(segs, n);
    LevelCall(idx, hks, level, es, segs, j);
    var c := TheCall(idx, es, j);
    assert StepOk(idx, hks, level, c, i == 0, SplitBefore(idx, c, segs[j], i), segs[j][i]);
  }

  /** No block visited is its own left sibling. */
  lemma {:induction false} NoSelfLink(idx: Index, hks: bool, level: nat, es: seq<Entry>, segs: seq<seq<nat>>, n: nat)
    requires LevelOk(idx, hks, level, es, segs) && n < |Flat(segs)|
    ensures Flat(segs)[n] in idx && idx[Flat(segs)[n]].prev != Flat(segs)[n]
  {
    hide LevelOk, Flat, MayLackDownlink, HighKeyMatches, Sane, SplitBefore, Leftmost, Linked;
    var j, i := FlatElement(segs, n);
    LevelCall(idx, hks, level, es, segs, j);
    var c := TheCall(idx, es, j);
    assert StepOk(idx, hks, level, c, i == 0, SplitBefore(idx, c, segs[j], i), segs[j][i]);
  }

  // ---------- what a single pass does not notice ----------

  lemma {:induction false} OnePageCall(idx: Index, hks: bool, level: nat, c: Call, b: nat)
    requires b == c.down == Start(c) != P_NONE && StepOk(idx, hks, level, c, true, StartSplit(c), b)
    ensures CallPasses(idx, hks, level, c, [b], 1)
  {
    hide StepOk;
    StepIn(idx, hks, level, c, true, StartSplit(c), b);
    assert SplitBefore(idx, c, [b], 0) == StartSplit(c);
  }

  lemma {:induction false} NoPageCall(idx: Index, hks: bool, level: nat, c: Call)
    requires c.down == P_NONE == Start(c)
    ensures CallPasses(idx, hks, level, c, [], 1)
  {
  }

  lemma {:induction false} NoLeftSibling(idx: Index, b: nat)
    requires b in idx && idx[b].prev == P_NONE
    ensures Leftmost(idx, b)
  {
    assert HalfDeadChain(idx, b, [b]);
  }

  /** The root over two leaves, with downlinks `first` and 3 and the key `k` between them. */
  function Root(first: nat, k: Tuple): Page
  {
    Page(P_NONE, P_NONE, 1, false, true, false, false, false, false, false, [Tuple(first, 0, []), k.(block := 3)])
  }

  /** A leaf without left sibling. */
  function FirstLeaf(next: nat, items: seq<Tuple>): Page
  {
    Page(P_NONE, next, 0, true, false, false, false, false, false, false, items)
  }

  function RootEntries(first: nat, k: Tuple): seq<Entry>
  {
    [Entry(None, first, Some(k.(block := 3))), Entry(Some(k.(block := 3)), 3, None)]
  }

  lemma {:induction false} RootHas(first: nat, k: Tuple)
    ensures var t := Root(first, k);
            && Sane(t) && !t.leaf && !Ignorable(t) && Rightmost(t) && |t.items| == 2 && FirstDataKey(t) == 1
            && PageEntries(t, None) == RootEntries(first, k)
  {
    var t := Root(first, k);
    assert EntriesBelow(t, None, 1) == [];
    assert EntriesBelow(t, None, 2) == [EntryAt(t, None, 1)];
    assert EntriesBelow(t, None, 3) == [EntryAt(t, None, 1)] + [EntryAt(t, None, 2)];
  }

  /** A page passes if its two calls and the last one do. */
  lemma {:induction false} RootPasses(idx: Index, first: nat, k: Tuple, segs: seq<seq<nat>>)
    requires |segs| == 3 && LiveChild(idx, 3)
    requires var es := RootEntries(first, k);
      && CallPasses(idx, true, 0, CallFor(idx, [], es[0]), segs[0], 1)
      && CallPasses(idx, true, 0, CallFor(idx, [es[0]], es[1]), segs[1], 1)
      && CallPasses(idx, true, 0, LastCall(idx, es), segs[2], 1)
    ensures Sane(Root(first, k)) && PagePasses(idx, true, Root(first, k), None, [], [], segs, 1)
  {
    hide CallPasses, CallFor, LastCall, LiveChild, Root, PageEntries;
    RootHas(first, k);
    RootLevel(first, k);
    var t, es := Root(first, k), RootEntries(first, k);
    assert [] + PageEntries(t, None) == es;
    assert es[..0] == [] && es[..1] == [es[0]];
    assert ChildrenLive(idx, t) by { RootChild(idx, first, k); }
  }

  lemma {:induction false} RootChild(idx: Index, first: nat, k: Tuple)
    requires LiveChild(idx, 3)
    ensures ChildrenLive(idx, Root(first, k))
  {
    hide LiveChild;
  }

  /** Two leaves that both claim to be leftmost, the first with the invalid block
      number for its right link. */
  function BrokenIndex(k: Tuple): Index
  {
    map[1 := Root(2, k), 2 := FirstLeaf(INVALID_BLOCK, [k]), 3 := FirstLeaf(P_NONE, [])]
  }

  lemma {:induction false} BrokenPasses(k: Tuple)
    ensures Sane(Root(2, k)) && PagePasses(BrokenIndex(k), true, Root(2, k), None, [], [], [[2], [3], []], 1)
  {
    hide Leftmost, MayLackDownlink, CallPasses, PagePasses, Root;
    var idx, es := BrokenIndex(k), RootEntries(2, k);
    NoLeftSibling(idx, 2);
    NoLeftSibling(idx, 3);
    OnePageCall(idx, true, 0, CallFor(idx, [], es[0]), 2);
    OnePageCall(idx, true, 0, CallFor(idx, [es[0]], es[1]), 3);
    NoPageCall(idx, true, 0, LastCall(idx, es));
    RootPasses(idx, 2, k, [[2], [3], []]);
  }

  lemma {:induction false} NotLinked(k: Tuple)
    ensures Flat([[2], [3], []]) == [2, 3] && !OneWalk(BrokenIndex(k), [2, 3])
  {
    hide Root;
    FlatThree([2], [3], []);
    var v := [2, 3];
    assert BrokenIndex(k)[v[0]].next != v[1];
  }

  lemma {:induction false} FlatThree(a: seq<nat>, b: seq<nat>, c: seq<nat>)
    ensures Flat([a, b, c]) == a + b + c
  {
    var segs := [a, b, c];
    assert segs[..2] == [a, b] && [a, b][..1] == [a];
    assert Flat([a]) == a by { assert [a][..0] == []; }
  }

  lemma {:induction false} TopPasses(idx: Index, first: nat, k: Tuple, segs: seq<seq<nat>>, fuel: nat)
    requires 1 in idx && idx[1] == Root(first, k) && fuel > 0
    requires Sane(Root(first, k)) && PagePasses(idx, true, Root(first, k), None, [], [], segs, 1)
    ensures LevelPasses(idx, true, true, 1, 1, [1], fuel)
  {
    hide PagePasses, Sane, Leftmost, Root, PageEntries;
    RootHas(first, k);
    RootLinks(first, k);
    NoLeftSibling(idx, 1);
    assert Unseen(0) == [] && PagesOf(idx, []) == [] && [1][..0] == [];
    assert PagePasses(idx, true, idx[1], LowKey([]), Entries([]), Unseen(|Entries([])|), segs, 1);
    assert TargetPasses(idx, true, true, 1, [], 1, 1);
    LevelLonger(idx, true, true, 1, 1, [1], 1, fuel);
  }

  lemma {:induction false} RootLinks(first: nat, k: Tuple)
    ensures var t := Root(first, k);
            t.level == 1 && t.prev == P_NONE && t.next == P_NONE && t.root && FirstDownlink(t) == first
  {
  }

  lemma {:induction false} HeadIsRoot(idx: Index, first: nat, k: Tuple, targets: seq<nat>, next: nat)
    requires 1 in idx && idx[1] == Root(first, k) && targets != [] && targets[0] == 1
    requires HeadOf(idx, true, targets, next)
    ensures next == first
  {
    hide Leftmost, Root, FirstDownlink;
    RootHas(first, k);
    RootLinks(first, k);
    var i :| 0 <= i < |targets| && AllIgnorable(idx, targets[..i]) && Head(idx, true, targets[i], next);
  }

  /** The pass over the top level returns although the leaves are not linked; the
      pass over the leaves, from the first downlink on, does not. */
  method BrokenLinkPasses(k: Tuple, fuel: nat) returns (top: Outcome, next: nat, leaves: Outcome)
    requires fuel > 0
    ensures top == Returned && next == 2 && leaves != Returned
    ensures LevelOk(BrokenIndex(k), true, 0, RootEntries(2, k), [[2], [3], []])
    ensures !OneWalk(BrokenIndex(k), Flat([[2], [3], []]))
  {
    hide LevelOk, PagePasses, Flat, OneWalk, Root, PageEntries, LevelPasses, TargetWalk, HeadOf, Entries;
    BrokenPasses(k);
    NotLinked(k);
    PassesLevel(BrokenIndex(k), 2, k, [[2], [3], []], 1);
    TopPasses(BrokenIndex(k), 2, k, [[2], [3], []], fuel);
    var state := new BtreeCheckState(BrokenIndex(k), true, Root(2, k));
    ghost var targets, segs;
    top, next, targets, segs := state.CheckLevelFromLeftmost(1, 1, true, fuel);
    HeadIsRoot(BrokenIndex(k), 2, k, targets, next);
    LeavesFail(k, fuel);
    var below;
    leaves, below, targets, segs := state.CheckLevelFromLeftmost(next, 0, false, fuel);
  }

  lemma {:induction false} BrokenLink(k: Tuple)
    ensures 2 in BrokenIndex(k) && BrokenIndex(k)[2].next == INVALID_BLOCK != P_NONE
    ensures INVALID_BLOCK !in BrokenIndex(k)
  {
  }

  lemma {:induction false} SecondLinked(idx: Index, ts: seq<nat>)
    requires |ts| > 1 && Linked(idx, ts)
    ensures ts[0] in idx && ts[1] in idx && idx[ts[0]].next == ts[1]
  {
  }

  lemma {:induction false} LeavesFail(k: Tuple, fuel: nat)
    ensures !exists ts :: LevelPasses(BrokenIndex(k), true, false, 0, 2, ts, fuel)
  {
    hide AllPass, BrokenIndex;
    BrokenLink(k);
    forall ts
      ensures !LevelPasses(BrokenIndex(k), true, false, 0, 2, ts, fuel)
    {
      if |ts| > 1 && Linked(BrokenIndex(k), ts) { SecondLinked(BrokenIndex(k), ts); }
    }
  }

  lemma {:induction false} RootLevel(first: nat, k: Tuple)
    ensures Root(first, k).level == 1
  {
  }

  lemma {:induction false} PassesLevel(idx: Index, first: nat, k: Tuple, segs: seq<seq<nat>>, fuel: nat)
    requires Sane(Root(first, k)) && PagePasses(idx, true, Root(first, k), None, [], [], segs, fuel)
    ensures LevelOk(idx, true, 0, RootEntries(first, k), segs)
  {
    hide CallOk, Within, CallFor, LastCall, Root, ChildrenLive, PageEntries;
    RootHas(first, k);
    RootLevel(first, k);
    var es := RootEntries(first, k);
    assert [] + PageEntries(Root(first, k), None) == es;
    forall j | 0 <= j < 2
      ensures CallOk(idx, true, 0, CallFor(idx, es[..j], es[j]), segs[..2][j])
    {
      assert CallPasses(idx, true, 0, CallFor(idx, es[..j], es[j]), segs[j], fuel);
    }
  }

  /** A root whose first downlink is zero, over one leaf. */
  function ZeroIndex(k: Tuple): Index
  {
    map[1 := Root(P_NONE, k), 3 := FirstLeaf(P_NONE, [])]
  }

  lemma {:induction false} ZeroPasses(k: Tuple)
    ensures Sane(Root(P_NONE, k)) && PagePasses(ZeroIndex(k), true, Root(P_NONE, k), None, [], [], [[], [3], []], 1)
  {
    hide Leftmost, MayLackDownlink, CallPasses, PagePasses, Root;
    var idx, es := ZeroIndex(k), RootEntries(P_NONE, k);
    NoLeftSibling(idx, 3);
    NoPageCall(idx, true, 0, CallFor(idx, [], es[0]));
    OnePageCall(idx, true, 0, CallFor(idx, [es[0]], es[1]), 3);
    NoPageCall(idx, true, 0, LastCall(idx, es));
    RootPasses(idx, P_NONE, k, [[], [3], []]);
  }

  /** The pass over that top level returns although no call reaches the first
      downlink; and since the level below is said to start at block zero, it is not
      looked at. */
  method ZeroDownlinkPasses(k: Tuple, fuel: nat) returns (top: Outcome, next: nat)
    requires fuel > 0
    ensures top == Returned && next == P_NONE
    ensures LevelOk(ZeroIndex(k), true, 0, RootEntries(P_NONE, k), [[], [3], []])
    ensures !DownlinksReached(RootEntries(P_NONE, k), [[], [3], []])
  {
    hide LevelOk, PagePasses, Root, PageEntries, LevelPasses, TargetWalk, HeadOf, Entries;
    ZeroPasses(k);
    PassesLevel(ZeroIndex(k), P_NONE, k, [[], [3], []], 1);
    TopPasses(ZeroIndex(k), P_NONE, k, [[], [3], []], fuel);
    var state := new BtreeCheckState(ZeroIndex(k), true, Root(P_NONE, k));
    ghost var targets, segs;
    top, next, targets, segs := state.CheckLevelFromLeftmost(1, 1, true, fuel);
    HeadIsRoot(ZeroIndex(k), P_NONE, k, targets, next);
    assert [[], [3], []][0] == [];
  }
}
