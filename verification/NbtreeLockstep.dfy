/** What follows once every bt_child_highkey_check call for a target level has
    returned: the child blocks visited are one walk along the child level, in
    lockstep with the downlinks and the keys between them. */
module NbtreeLockstep {
  import opened Bytes
  import opened NbtreePages
  import opened NbtreeCheck

  /** The blocks visited by all calls, in order. */
  function Flat(segs: seq<seq<nat>>): seq<nat>
  {
    if segs == [] then [] else Flat(segs[..|segs| - 1]) + segs[|segs| - 1]
  }

  /** Right siblings in turn up to the end of the level. */
  predicate OneWalk(idx: Index, v: seq<nat>)
  {
    v != [] && Linked(idx, v) && idx[v[|v| - 1]].next == P_NONE
  }

  /** Call j ends at the block of downlink j. */
  predicate DownlinksReached(es: seq<Entry>, segs: seq<seq<nat>>)
  {
    |es| <= |segs| && forall j | 0 <= j < |es| :: segs[j] != [] && segs[j][|segs[j]| - 1] == es[j].down
  }

  /** No downlink is zero and no visited page's right link is the invalid block
      number; either would make the check start over at the next downlink. */
  predicate SoundLinks(idx: Index, es: seq<Entry>, segs: seq<seq<nat>>)
  {
    NoZero(es) && NoInvalid(idx, Flat(segs))
  }

  predicate NoZero(es: seq<Entry>)
  {
    forall j | 0 <= j < |es| :: es[j].down != P_NONE
  }

  predicate NoInvalid(idx: Index, v: seq<nat>)
  {
    forall i | 0 <= i < |v| :: v[i] in idx ==> idx[v[i]].next != INVALID_BLOCK
  }

  // ---------- one contiguous walk ----------

  lemma {:induction false} LinkedAppend(idx: Index, a: seq<nat>, b: seq<nat>)
    requires Linked(idx, a) && Linked(idx, b)
    requires a != [] && b != [] ==> idx[a[|a| - 1]].next == b[0]
    ensures Linked(idx, a + b)
  {
  }

  lemma {:induction false} CallFacts(idx: Index, hks: bool, level: nat, c: Call, seg: seq<nat>)
    requires CallOk(idx, hks, level, c, seg)
    ensures Linked(idx, seg) && (seg != [] ==> seg[0] == Start(c))
    ensures forall i | 0 <= i < |seg| :: seg[i] != P_NONE && seg[i] in idx && seg[i] != INVALID_BLOCK
    ensures c.down != P_NONE ==> seg != [] && seg[|seg| - 1] == c.down
    ensures c.down == P_NONE ==> Position(idx, c, seg) == P_NONE
  {
  }

  lemma {:induction false} NoInvalidPart(idx: Index, segs: seq<seq<nat>>, j: nat)
    requires NoInvalid(idx, Flat(segs)) && j < |segs|
    ensures NoInvalid(idx, segs[j])
  {
    var init, last := segs[..|segs| - 1], segs[|segs| - 1];
    var v := Flat(segs);
    assert forall i | 0 <= i < |Flat(init)| :: Flat(init)[i] == v[i];
    assert forall i | 0 <= i < |last| :: last[i] == v[|Flat(init)| + i];
    if j < |init| { NoInvalidPart(idx, init, j); }
  }

  /** After j downlinks the walk is contiguous and stands at downlink j - 1. */
  lemma {:induction false} WalkSoFar(idx: Index, hks: bool, level: nat, es: seq<Entry>, segs: seq<seq<nat>>, j: nat)
    requires |segs| >= |es| && RunOk(idx, hks, level, es, segs[..|es|]) && SoundLinks(idx, es, segs) && j <= |es|
    ensures Linked(idx, Flat(segs[..j]))
    ensures j > 0 ==> Flat(segs[..j]) != [] && Flat(segs[..j])[|Flat(segs[..j])| - 1] == es[j - 1].down
  {
    hide CallOk, Linked, NoInvalid;
    if j == 0 {
      LinkedNothing(idx);
      assert segs[..0] == [];
    } else {
      WalkSoFar(idx, hks, level, es, segs, j - 1);
      var c := CallFor(idx, es[..j - 1], es[j - 1]);
      assert segs[..|es|][j - 1] == segs[j - 1];
      CallFacts(idx, hks, level, c, segs[j - 1]);
      assert segs[..j][..j - 1] == segs[..j - 1];
      if j > 1 { StartsAtNext(idx, hks, level, es, segs, j - 1); }
      LinkedAppend(idx, Flat(segs[..j - 1]), segs[j - 1]);
    }
  }

  lemma {:induction false} LinkedNothing(idx: Index)
    ensures Linked(idx, [])
  {
  }

  /** A call after the first starts at the right sibling of the downlink before. */
  lemma {:induction false} StartsAtNext(idx: Index, hks: bool, level: nat, es: seq<Entry>, segs: seq<seq<nat>>, j: nat)
    requires |segs| >= |es| && RunOk(idx, hks, level, es, segs[..|es|]) && SoundLinks(idx, es, segs) && 0 < j <= |es|
    ensures es[j - 1].down in idx && idx[es[j - 1].down].next != INVALID_BLOCK
    ensures PrevLink(idx, es[..j]) == idx[es[j - 1].down].next
  {
    hide CallOk, Linked;
    var seg := segs[j - 1];
    assert segs[..|es|][j - 1] == seg;
    CallFacts(idx, hks, level, CallFor(idx, es[..j - 1], es[j - 1]), seg);
    NoInvalidPart(idx, segs, j - 1);
    assert seg[|seg| - 1] == es[j - 1].down;
    assert es[..j][|es[..j]| - 1] == es[j - 1];
  }

  lemma {:induction false} SoundIsOneWalk(idx: Index, hks: bool, level: nat, es: seq<Entry>, segs: seq<seq<nat>>)
    requires LevelOk(idx, hks, level, es, segs) && es != [] && SoundLinks(idx, es, segs)
    ensures OneWalk(idx, Flat(segs)) && DownlinksReached(es, segs)
  {
    hide CallOk, Linked, NoInvalid, LevelOk, RunOk, PrevLink, PrevSplit, CallFor;
    var n := |es|;
    LevelRun(idx, hks, level, es, segs);
    WalkSoFar(idx, hks, level, es, segs, n);
    StartsAtNext(idx, hks, level, es, segs, n);
    assert es[..n] == es;
    var c, seg := LastCall(idx, es), segs[n];
    CallFacts(idx, hks, level, c, seg);
    LinkedAppend(idx, Flat(segs[..n]), seg);
    assert Flat(segs) == Flat(segs[..n]) + seg;
    forall j | 0 <= j < n
      ensures segs[j] != [] && segs[j][|segs[j]| - 1] == es[j].down
    {
      ReachedDown(idx, hks, level, es, segs, j);
    }
  }

  lemma {:induction false} LevelRun(idx: Index, hks: bool, level: nat, es: seq<Entry>, segs: seq<seq<nat>>)
    requires LevelOk(idx, hks, level, es, segs)
    ensures |segs| == |es| + 1 && RunOk(idx, hks, level, es, segs[..|es|])
    ensures CallOk(idx, hks, level, LastCall(idx, es), segs[|es|])
  {
  }

  lemma {:induction false} VisitedReadable(idx: Index, hks: bool, level: nat, es: seq<Entry>,
      segs: seq<seq<nat>>, j: nat, i: nat)
    requires LevelOk(idx, hks, level, es, segs) && j < |segs| && i < |segs[j]|
    ensures segs[j][i] != P_NONE && segs[j][i] in idx && segs[j][i] != INVALID_BLOCK
  {
    hide CallOk;
    if j < |es| {
      assert segs[..|es|][j] == segs[j];
      CallFacts(idx, hks, level, CallFor(idx, es[..j], es[j]), segs[j]);
    } else {
      CallFacts(idx, hks, level, LastCall(idx, es), segs[j]);
    }
  }

  lemma {:induction false} FlatElement(segs: seq<seq<nat>>, n: nat) returns (j: nat, i: nat)
    requires n < |Flat(segs)|
    ensures j < |segs| && i < |segs[j]| && segs[j][i] == Flat(segs)[n] && n == |Flat(segs[..j])| + i
  {
    var m := |segs| - 1;
    if n < |Flat(segs[..m])| {
      j, i := FlatElement(segs[..m], n);
      assert segs[..m][..j] == segs[..j];
    } else {
      j, i := m, n - |Flat(segs[..m])|;
    }
  }

  lemma {:induction false} OneWalkIsSound(idx: Index, hks: bool, level: nat, es: seq<Entry>, segs: seq<seq<nat>>)
    requires LevelOk(idx, hks, level, es, segs) && OneWalk(idx, Flat(segs)) && DownlinksReached(es, segs)
    ensures SoundLinks(idx, es, segs)
  {
    hide LevelOk, RunOk, CallOk, Flat, OneWalk, LastCall;
    LevelRun(idx, hks, level, es, segs);
    forall j | 0 <= j < |es|
      ensures es[j].down != P_NONE
    {
      VisitedReadable(idx, hks, level, es, segs, j, |segs[j]| - 1);
    }
    var v := Flat(segs);
    forall n | 0 <= n < |v|
      ensures v[n] in idx ==> idx[v[n]].next != INVALID_BLOCK
    {
      NextOnWalk(idx, v, n);
      if n + 1 < |v| {
        var j, i := FlatElement(segs, n + 1);
        VisitedReadable(idx, hks, level, es, segs, j, i);
      }
    }
  }

  lemma {:induction false} NextOnWalk(idx: Index, v: seq<nat>, n: nat)
    requires OneWalk(idx, v) && n < |v|
    ensures v[n] in idx && idx[v[n]].next == (if n + 1 < |v| then v[n + 1] else P_NONE)
  {
  }

  /** When all calls for a level have returned, the blocks visited are one walk to
      the end of the child level that passes through the downlinks in order just
      when no downlink is zero and no visited page has the invalid block number
      for its right link. */
  lemma {:induction false} LevelIsOneWalk(idx: Index, hks: bool, level: nat, es: seq<Entry>, segs: seq<seq<nat>>)
    requires LevelOk(idx, hks, level, es, segs) && es != []
    ensures SoundLinks(idx, es, segs) <==> OneWalk(idx, Flat(segs)) && DownlinksReached(es, segs)
  {
    hide LevelOk, SoundLinks, OneWalk, DownlinksReached, Flat;
    if SoundLinks(idx, es, segs) {
      SoundIsOneWalk(idx, hks, level, es, segs);
    }
    if OneWalk(idx, Flat(segs)) && DownlinksReached(es, segs) {
      OneWalkIsSound(idx, hks, level, es, segs);
    }
  }

  /** The walk starts at the leftmost block of the child level. */
  lemma {:induction false} WalkStartsLeftmost(idx: Index, hks: bool, level: nat, es: seq<Entry>, segs: seq<seq<nat>>)
    requires LevelOk(idx, hks, level, es, segs) && es != [] && SoundLinks(idx, es, segs)
    ensures Flat(segs) != [] && Flat(segs)[0] == es[0].down && Leftmost(idx, es[0].down)
  {
    hide Leftmost, PageOk, Linked, SplitBefore;
    var c := CallFor(idx, es[..0], es[0]);
    assert es[..0] == [];
    assert segs[..|es|][0] == segs[0];
    CallFacts(idx, hks, level, c, segs[0]);
    assert StepOk(idx, hks, level, c, true, SplitBefore(idx, c, segs[0], 0), segs[0][0]);
    FlatFirst(segs);
  }

  lemma {:induction false} FlatFirst(segs: seq<seq<nat>>)
    requires segs != [] && segs[0] != []
    ensures Flat(segs) != [] && Flat(segs)[0] == segs[0][0]
  {
    if |segs| > 1 {
      FlatFirst(segs[..|segs| - 1]);
    } else {
      assert Flat(segs[..0]) == [];
    }
  }

  /** Two walks from one block to the end of the level are the same walk, so the
      blocks visited here are the target blocks of the next level's pass. */
  lemma {:induction false} WalkUnique(idx: Index, a: seq<nat>, b: seq<nat>)
    requires OneWalk(idx, a) && OneWalk(idx, b) && P_NONE !in a && P_NONE !in b && a[0] == b[0]
    ensures a == b
  {
    SecondBlock(idx, a);
    SecondBlock(idx, b);
    if |a| == 1 || |b| == 1 {
    } else {
      Shorter(idx, a);
      Shorter(idx, b);
      WalkUnique(idx, a[1..], b[1..]);
      assert a == [a[0]] + a[1..] && b == [b[0]] + b[1..];
    }
  }

  lemma {:induction false} SecondBlock(idx: Index, a: seq<nat>)
    requires OneWalk(idx, a) && P_NONE !in a
    ensures idx[a[0]].next == if |a| == 1 then P_NONE else a[1]
    ensures |a| > 1 ==> a[1] != P_NONE
  {
  }

  lemma {:induction false} Shorter(idx: Index, a: seq<nat>)
    requires OneWalk(idx, a) && |a| > 1
    ensures OneWalk(idx, a[1..])
  {
  }

  // ---------- blocks without a downlink ----------

  /** Block i of call j is not the one its downlink points to. */
  predicate Stray(es: seq<Entry>, segs: seq<seq<nat>>, j: nat, i: nat)
    requires j < |segs| && i < |segs[j]|
  {
    j >= |es| || i < |segs[j]| - 1
  }

  ghost function TheCall(idx: Index, es: seq<Entry>, j: nat): Call
    requires j <= |es|
  {
    if j < |es| then CallFor(idx, es[..j], es[j]) else LastCall(idx, es)
  }

  lemma {:induction false} LevelCall(idx: Index, hks: bool, level: nat, es: seq<Entry>, segs: seq<seq<nat>>, j: nat)
    requires LevelOk(idx, hks, level, es, segs) && j < |segs|
    ensures j <= |es| && CallOk(idx, hks, level, TheCall(idx, es, j), segs[j])
  {
  }

  lemma {:induction false} StrayIsNotDown(idx: Index, hks: bool, level: nat, es: seq<Entry>, segs: seq<seq<nat>>,
      j: nat, i: nat)
    requires LevelOk(idx, hks, level, es, segs) && j < |segs| && i < |segs[j]| && Stray(es, segs, j, i)
    ensures j <= |es| && segs[j][i] != TheCall(idx, es, j).down
    ensures PageOk(idx, hks, level, TheCall(idx, es, j), SplitBefore(idx, TheCall(idx, es, j), segs[j], i), segs[j][i])
  {
  }

  /** Block n of a walk may go without a downlink: it is a root, comes straight
      after a block with an incomplete split, or heads an interrupted deletion. */
  ghost predicate Excused(idx: Index, v: seq<nat>, n: nat)
  {
    && 0 < n < |v| && v[n] in idx && v[n - 1] in idx
    && (idx[v[n]].root || idx[v[n - 1]].incompleteSplit || InterruptedDeletion(idx, v[n]))
  }

  lemma {:induction false} StrayIsExcused(idx: Index, hks: bool, level: nat, es: seq<Entry>, segs: seq<seq<nat>>,
      j: nat, i: nat)
    requires LevelOk(idx, hks, level, es, segs) && SoundLinks(idx, es, segs) && es != []
    requires j < |segs| && i < |segs[j]| && Stray(es, segs, j, i)
    requires segs[j][i] in idx && !Ignorable(idx[segs[j][i]])
    ensures Excused(idx, Flat(segs), |Flat(segs[..j])| + i)
  {
    hide LevelOk, CallOk, Linked, InterruptedDeletion, HighKeyMatches, Sane, SoundLinks, Flat, Stray, TheCall;
    StrayIsNotDown(idx, hks, level, es, segs, j, i);
    var before := Preceding(idx, hks, level, es, segs, j, i);
    FlatNeighbours(idx, hks, level, es, segs, j, i);
  }

  /** Every block of the walk that is not ignorable is the block of some downlink
      or is excused from having one. */
  lemma {:induction false} EveryBlockAccountedFor(idx: Index, hks: bool, level: nat, es: seq<Entry>,
      segs: seq<seq<nat>>, n: nat)
    requires LevelOk(idx, hks, level, es, segs) && SoundLinks(idx, es, segs) && es != []
    requires n < |Flat(segs)|
    ensures var b := Flat(segs)[n];
            && b in idx
            && (|| Ignorable(idx[b])
                || (exists j :: 0 <= j < |es| && es[j].down == b)
                || Excused(idx, Flat(segs), n))
  {
    hide LevelOk, CallOk, SoundLinks, Flat, Excused, TheCall;
    var j, i := FlatElement(segs, n);
    VisitedReadable(idx, hks, level, es, segs, j, i);
    LevelCall(idx, hks, level, es, segs, j);
    if Stray(es, segs, j, i) {
      if !Ignorable(idx[segs[j][i]]) { StrayIsExcused(idx, hks, level, es, segs, j, i); }
    } else {
      ReachedDown(idx, hks, level, es, segs, j);
      assert es[j].down == segs[j][i];
    }
  }

  lemma {:induction false} ReachedDown(idx: Index, hks: bool, level: nat, es: seq<Entry>, segs: seq<seq<nat>>, j: nat)
    requires LevelOk(idx, hks, level, es, segs) && SoundLinks(idx, es, segs) && j < |es| && j < |segs|
    ensures segs[j] != [] && segs[j][|segs[j]| - 1] == es[j].down
  {
  }

  /** The block visited just before: in the same call, or the downlink of the call before. */
  ghost function Before(es: seq<Entry>, segs: seq<seq<nat>>, j: nat, i: nat): nat
    requires j < |segs| && i < |segs[j]| && j <= |es| && (i == 0 ==> j > 0)
  {
    if i > 0 then segs[j][i - 1] else es[j - 1].down
  }

  lemma {:induction false} Preceding(idx: Index, hks: bool, level: nat, es: seq<Entry>, segs: seq<seq<nat>>,
      j: nat, i: nat)
    returns (b: nat)
    requires LevelOk(idx, hks, level, es, segs) && SoundLinks(idx, es, segs) && es != []
    requires j < |segs| && i < |segs[j]| && Stray(es, segs, j, i)
    ensures j <= |es| && (i == 0 ==> j > 0) && b == Before(es, segs, j, i) && b in idx
    ensures SplitBefore(idx, TheCall(idx, es, j), segs[j], i) == idx[b].incompleteSplit
  {
    hide CallOk, Linked, NoInvalid, PageOk;
    LevelCall(idx, hks, level, es, segs, j);
    CallFacts(idx, hks, level, TheCall(idx, es, j), segs[j]);
    StrayIsNotDown(idx, hks, level, es, segs, j, i);
    FirstCall(idx, es);
    if i > 0 {
      b := segs[j][i - 1];
    } else {
      b := es[j - 1].down;
      StartsAtNext(idx, hks, level, es, segs, j);
      assert j == |es| ==> es[..j] == es;
      assert es[..j][|es[..j]| - 1] == es[j - 1];
    }
  }

  /** The first call starts at its downlink. */
  lemma {:induction false} FirstCall(idx: Index, es: seq<Entry>)
    requires es != []
    ensures Start(TheCall(idx, es, 0)) == TheCall(idx, es, 0).down
  {
    assert es[..0] == [];
  }

  lemma {:induction false} FlatAt(segs: seq<seq<nat>>, j: nat, i: nat)
    requires j < |segs| && i < |segs[j]|
    ensures |Flat(segs[..j])| + i < |Flat(segs)| && Flat(segs)[|Flat(segs[..j])| + i] == segs[j][i]
  {
    var m := |segs| - 1;
    if j < m {
      assert segs[..m][..j] == segs[..j];
      FlatAt(segs[..m], j, i);
    }
  }

  lemma {:induction false} FlatNeighbours(idx: Index, hks: bool, level: nat, es: seq<Entry>, segs: seq<seq<nat>>,
      j: nat, i: nat)
    requires LevelOk(idx, hks, level, es, segs) && SoundLinks(idx, es, segs) && es != []
    requires j < |segs| && i < |segs[j]| && j <= |es| && (i == 0 ==> j > 0)
    ensures var n := |Flat(segs[..j])| + i;
            0 < n < |Flat(segs)| && Flat(segs)[n] == segs[j][i] && Flat(segs)[n - 1] == Before(es, segs, j, i)
  {
    hide CallOk, Linked, NoInvalid, Flat;
    var n := |Flat(segs[..j])| + i;
    FlatAt(segs, j, i);
    if i > 0 {
      FlatAt(segs, j, i - 1);
      assert Flat(segs)[n - 1] == Before(es, segs, j, i);
    } else {
      WalkSoFar(idx, hks, level, es, segs, j);
      FlatPrefix(segs, j);
      assert Flat(segs)[n - 1] == Flat(segs[..j])[n - 1];
    }
  }

  lemma {:induction false} FlatPrefix(segs: seq<seq<nat>>, j: nat)
    requires j <= |segs|
    ensures Flat(segs[..j]) <= Flat(segs)
  {
    var m := |segs| - 1;
    if j == |segs| {
      assert segs[..j] == segs;
    } else {
      assert segs[..m][..j] == segs[..j];
      FlatPrefix(segs[..m], j);
    }
  }

  // ---------- high keys ----------

  /** No page of the target level is skipped, and all but the last have a high key. */
  predicate Unbroken(ts: seq<Page>)
  {
    && AllSane(ts)
    && (forall i | 0 <= i < |ts| :: !ts[i].leaf && !Ignorable(ts[i]))
    && (forall i | 0 <= i < |ts| - 1 :: !Rightmost(ts[i]))
  }

  /** The key before each downlink is the key after the one before it. */
  predicate Adjacent(es: seq<Entry>, low: Option<Tuple>)
  {
    && (es != [] ==> es[0].before == low)
    && forall k | 0 < k < |es| :: es[k].before == es[k - 1].after
  }

  lemma {:induction false} EntriesBelowAdjacent(t: Page, low: Option<Tuple>, limit: nat)
    requires !t.leaf && FirstDataKey(t) <= limit <= |t.items| + 1
    ensures var es := EntriesBelow(t, low, limit);
            && Adjacent(es, low) && |es| == limit - FirstDataKey(t)
            && (es != [] ==> es[|es| - 1].after == KeyAfter(t, limit - 1))
  {
    if limit > FirstDataKey(t) {
      EntriesBelowAdjacent(t, low, limit - 1);
    }
  }

  lemma {:induction false} AdjacentAppend(a: seq<Entry>, b: seq<Entry>, low: Option<Tuple>, mid: Option<Tuple>)
    requires Adjacent(a, low) && Adjacent(b, mid)
    requires if a == [] then mid == low else mid == a[|a| - 1].after
    ensures Adjacent(a + b, low)
  {
  }

  /** On an unbroken target level the remembered low key is the key that follows
      the last downlink, so the two ways of looking up a separator agree. */
  lemma {:induction false} EntriesAdjacent(ts: seq<Page>)
    requires Unbroken(ts)
    ensures Adjacent(Entries(ts), None)
    ensures ts != [] ==> Entries(ts) != [] && (Entries(ts)[|Entries(ts)| - 1].after == LowKey(ts))
  {
    hide Sane, Adjacent;
    if ts == [] {
      AdjacentNothing();
    } else {
      var init, last := ts[..|ts| - 1], ts[|ts| - 1];
      EntriesAdjacent(init);
      var low := LowKey(init);
      assert ts[|ts| - 1] == last;
      ItemsEnough(last);
      EntriesBelowAdjacent(last, low, |last.items| + 1);
      AdjacentAppend(Entries(init), PageEntries(last, low), None, low);
    }
  }

  lemma {:induction false} AdjacentNothing()
    ensures Adjacent([], None)
  {
  }

  lemma {:induction false} ItemsEnough(t: Page)
    requires Sane(t) && !t.leaf && !Ignorable(t)
    ensures FirstDataKey(t) <= |t.items|
  {
  }

  /** The downlink whose key range block i of call j lies in. */
  function Owner(es: seq<Entry>, segs: seq<seq<nat>>, j: nat, i: nat): int
    requires j < |segs| && i < |segs[j]|
  {
    if Stray(es, segs, j, i) then j - 1 else j
  }

  /** Lockstep: every visited page that has a high key and no incomplete split
      ends exactly at the target-level key that follows the downlink whose range it
      lies in. */
  lemma {:induction false} HighKeysInLockstep(idx: Index, hks: bool, level: nat, ts: seq<Page>,
      segs: seq<seq<nat>>, j: nat, i: nat)
    requires Unbroken(ts) && ts != [] && LevelOk(idx, hks, level, Entries(ts), segs)
    requires j < |segs| && i < |segs[j]| && segs[j][i] in idx
    requires !idx[segs[j][i]].incompleteSplit && !Rightmost(idx[segs[j][i]])
    ensures var es, k := Entries(ts), Owner(Entries(ts), segs, j, i);
            && 0 <= k < |es| && es[k].after.Some? && idx[segs[j][i]].items != []
            && idx[segs[j][i]].items[0].data == es[k].after.value.data
            && (hks ==> idx[segs[j][i]].items[0].posid == es[k].after.value.posid)
  {
    hide Entries, LevelOk, CallOk, TheCall, Stray, HighKeyMatches;
    var es := Entries(ts);
    EntriesAdjacent(ts);
    if Stray(es, segs, j, i) {
      StraySeparator(idx, hks, level, es, segs, j, i);
    } else {
      DownSeparator(idx, hks, level, es, segs, j, i);
    }
  }

  /** On any target level the separator of a page that no downlink points to is the
      key before the next downlink, which is the low key in front of a page's first. */
  lemma {:induction false} StraySeparator(idx: Index, hks: bool, level: nat, es: seq<Entry>, segs: seq<seq<nat>>,
      j: nat, i: nat)
    requires LevelOk(idx, hks, level, es, segs)
    requires j < |segs| && i < |segs[j]| && segs[j][i] in idx && Stray(es, segs, j, i)
    requires !idx[segs[j][i]].incompleteSplit && !Rightmost(idx[segs[j][i]])
    ensures j < |es| && es[j].before.Some? && idx[segs[j][i]].items != []
    ensures idx[segs[j][i]].items[0].data == es[j].before.value.data
    ensures hks ==> idx[segs[j][i]].items[0].posid == es[j].before.value.posid
  {
    hide LevelOk, MayLackDownlink, Sane, Stray, SplitBefore, PrevLink, PrevSplit;
    StrayIsNotDown(idx, hks, level, es, segs, j, i);
  }

  /** On any target level the separator of a page a downlink points to is the key
      after that downlink. */
  lemma {:induction false} DownSeparator(idx: Index, hks: bool, level: nat, es: seq<Entry>, segs: seq<seq<nat>>,
      j: nat, i: nat)
    requires LevelOk(idx, hks, level, es, segs)
    requires j < |segs| && i < |segs[j]| && segs[j][i] in idx && !Stray(es, segs, j, i)
    requires !idx[segs[j][i]].incompleteSplit && !Rightmost(idx[segs[j][i]])
    ensures j < |es| && es[j].after.Some? && idx[segs[j][i]].items != []
    ensures idx[segs[j][i]].items[0].data == es[j].after.value.data
    ensures hks ==> idx[segs[j][i]].items[0].posid == es[j].after.value.posid
  {
    hide MayLackDownlink, Sane, Leftmost, Linked, PrevLink, PrevSplit;
    LevelCall(idx, hks, level, es, segs, j);
    CallFacts(idx, hks, level, TheCall(idx, es, j), segs[j]);
  }
}
