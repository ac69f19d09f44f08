/** The parent/child walk of verify_nbtree.c on a frozen index: for every downlink
    of a target level in turn, bt_child_highkey_check moves right on the child
    level until it reaches the downlink's block. */
module NbtreeCheck {
  import opened Bytes
  import opened NbtreePages

  // ---------- one call ----------

  /** What one call of bt_child_highkey_check is given: the remembered right link
      and incomplete-split flag, the downlink to reach (P_NONE for the last call of
      a level), and the target-level keys before and after that downlink. */
  datatype Call = Call(prevLink: nat, prevSplit: bool, down: nat, before: Option<Tuple>, after: Option<Tuple>)

  function Start(c: Call): nat { if c.prevLink == INVALID_BLOCK then c.down else c.prevLink }

  predicate StartSplit(c: Call) { c.prevLink != INVALID_BLOCK && c.prevSplit }

  /** A page with a high key and no unfinished split ends at the separator. */
  predicate HighKeyMatches(heapKeySpace: bool, p: Page, separator: Option<Tuple>)
  {
    !p.incompleteSplit && !Rightmost(p) ==>
      separator.Some? && p.items != [] && Identical(heapKeySpace, p.items[0], separator.value)
  }

  /** What is established of a child block visited during the call; `rightSplit`
      says whether the block before it has an incomplete split. */
  ghost predicate PageOk(idx: Index, heapKeySpace: bool, level: nat, c: Call, rightSplit: bool, blkno: nat)
  {
    && blkno != P_NONE && Readable(idx, blkno) && idx[blkno].prev != blkno
    && (!idx[blkno].deleted || idx[blkno].fullXid ==> idx[blkno].level == level)
    && (blkno != c.down && !Ignorable(idx[blkno]) ==> MayLackDownlink(idx, rightSplit, blkno))
    && HighKeyMatches(heapKeySpace, idx[blkno], if blkno == c.down then c.after else c.before)
  }

  predicate SplitBefore(idx: Index, c: Call, seg: seq<nat>, i: nat)
    requires i <= |seg|
  {
    if i == 0 then StartSplit(c) else seg[i - 1] in idx && idx[seg[i - 1]].incompleteSplit
  }

  /** Each block is the right sibling of the one before. */
  predicate Linked(idx: Index, s: seq<nat>)
  {
    && (forall i | 0 <= i < |s| :: s[i] in idx)
    && (forall i | 0 <= i < |s| - 1 :: idx[s[i]].next == s[i + 1])
  }

  /** What every test of one turn of the loop establishes: on the first turn of a
      level the block must be leftmost, on later turns not the one started from. */
  ghost predicate StepOk(idx: Index, heapKeySpace: bool, level: nat, c: Call, first: bool, rightSplit: bool, blkno: nat)
  {
    && PageOk(idx, heapKeySpace, level, c, rightSplit, blkno)
    && (if first then c.prevLink == INVALID_BLOCK ==> Leftmost(idx, blkno) else blkno != c.prevLink)
  }

  /** The blocks `seg` visited so far. */
  ghost predicate Underway(idx: Index, heapKeySpace: bool, level: nat, c: Call, seg: seq<nat>)
  {
    && Linked(idx, seg)
    && (seg != [] ==> seg[0] == Start(c))
    && (forall i | 0 <= i < |seg| :: StepOk(idx, heapKeySpace, level, c, i == 0, SplitBefore(idx, c, seg, i), seg[i]))
  }

  /** Where the walk stands after `seg`. */
  function Position(idx: Index, c: Call, seg: seq<nat>): nat
    requires Linked(idx, seg)
  {
    if seg == [] then Start(c) else idx[seg[|seg| - 1]].next
  }

  /** The call returns after visiting `seg`: up to the downlink's block, or up to
      the end of the level when there is no downlink to reach. */
  ghost predicate CallOk(idx: Index, heapKeySpace: bool, level: nat, c: Call, seg: seq<nat>)
  {
    && Underway(idx, heapKeySpace, level, c, seg)
    && (forall i | 0 <= i < |seg| - 1 :: seg[i] != c.down)
    && if c.down == P_NONE then Position(idx, c, seg) == P_NONE
       else seg != [] && seg[|seg| - 1] == c.down
  }

  /** A page without a downlink is recognised as such within `fuel` steps down. */
  ghost predicate StepWithin(idx: Index, c: Call, rightSplit: bool, blkno: nat, fuel: nat)
  {
    blkno in idx && blkno != c.down && !Ignorable(idx[blkno]) ==> MayLackWithin(idx, rightSplit, blkno, fuel)
  }

  ghost predicate StepsWithin(idx: Index, c: Call, seg: seq<nat>, fuel: nat)
  {
    forall i | 0 <= i < |seg| :: StepWithin(idx, c, SplitBefore(idx, c, seg, i), seg[i], fuel)
  }

  /** `fuel` is enough for the call that visits `seg`. */
  ghost predicate Within(idx: Index, c: Call, seg: seq<nat>, fuel: nat)
  {
    |seg| + (if c.down == P_NONE then 1 else 0) <= fuel && StepsWithin(idx, c, seg, fuel)
  }

  /** No walk lets the call return, whatever the bound. */
  ghost predicate NeverReturns(idx: Index, heapKeySpace: bool, level: nat, c: Call)
  {
    forall s :: !CallOk(idx, heapKeySpace, level, c, s)
  }

  /** No walk lets the call return within `fuel`. */
  ghost predicate NotWithin(idx: Index, heapKeySpace: bool, level: nat, c: Call, fuel: nat)
  {
    forall s :: CallOk(idx, heapKeySpace, level, c, s) ==> !Within(idx, c, s, fuel)
  }

  lemma {:induction false} UnderwayStart(idx: Index, heapKeySpace: bool, level: nat, c: Call, fuel: nat)
    ensures Underway(idx, heapKeySpace, level, c, []) && Linked(idx, []) && Position(idx, c, []) == Start(c)
    ensures StepsWithin(idx, c, [], fuel) && SplitBefore(idx, c, [], 0) == StartSplit(c)
  {
  }

  lemma {:induction false} UnderwayStep(idx: Index, heapKeySpace: bool, level: nat, c: Call, seg: seq<nat>, blkno: nat,
      fuel: nat)
    requires Underway(idx, heapKeySpace, level, c, seg) && Linked(idx, seg) && blkno == Position(idx, c, seg)
    requires StepOk(idx, heapKeySpace, level, c, seg == [], SplitBefore(idx, c, seg, |seg|), blkno)
    requires StepsWithin(idx, c, seg, fuel) && StepWithin(idx, c, SplitBefore(idx, c, seg, |seg|), blkno, fuel)
    ensures Underway(idx, heapKeySpace, level, c, seg + [blkno]) && Linked(idx, seg + [blkno])
    ensures blkno in idx && Position(idx, c, seg + [blkno]) == idx[blkno].next
    ensures SplitBefore(idx, c, seg + [blkno], |seg| + 1) == idx[blkno].incompleteSplit
    ensures StepsWithin(idx, c, seg + [blkno], fuel)
  {
    hide StepOk, StepWithin, StartSplit;
    StepIn(idx, heapKeySpace, level, c, seg == [], SplitBefore(idx, c, seg, |seg|), blkno);
    var longer := seg + [blkno];
    assert longer[|seg|] == blkno;
    assert forall i | 0 <= i < |seg| ::
        longer[i] == seg[i] && SplitBefore(idx, c, longer, i) == SplitBefore(idx, c, seg, i);
    assert SplitBefore(idx, c, longer, |seg|) == SplitBefore(idx, c, seg, |seg|);
  }

  lemma {:induction false} StepIn(idx: Index, heapKeySpace: bool, level: nat, c: Call, first: bool,
      rightSplit: bool, blkno: nat)
    requires StepOk(idx, heapKeySpace, level, c, first, rightSplit, blkno)
    ensures blkno in idx && blkno != P_NONE && blkno != INVALID_BLOCK
  {
  }

  // ---------- a call cannot go any other way ----------

  /** Blocks visited on the way to no avail start every walk that returns. */
  lemma {:induction false} SameStart(idx: Index, heapKeySpace: bool, level: nat, c: Call, seg: seq<nat>,
      s: seq<nat>, n: nat)
    requires Underway(idx, heapKeySpace, level, c, seg) && (forall i | 0 <= i < |seg| :: seg[i] != c.down)
    requires CallOk(idx, heapKeySpace, level, c, s) && n <= |seg|
    ensures n <= |s| && s[..n] == seg[..n]
  {
    hide StepOk, SplitBefore;
    if n > 0 {
      SameStart(idx, heapKeySpace, level, c, seg, s, n - 1);
      StepIn(idx, heapKeySpace, level, c, n - 1 == 0, SplitBefore(idx, c, seg, n - 1), seg[n - 1]);
      if n > 1 {
        assert s[n - 2] == s[..n - 1][n - 2] == seg[n - 2];
      }
    }
  }

  /** After `seg` a walk that returns is over, at the end of the level with no
      downlink to reach, or its next block passes all tests. */
  lemma {:induction false} MustGoOn(idx: Index, heapKeySpace: bool, level: nat, c: Call, seg: seq<nat>, s: seq<nat>)
    requires Underway(idx, heapKeySpace, level, c, seg) && (forall i | 0 <= i < |seg| :: seg[i] != c.down)
    requires Linked(idx, seg) && CallOk(idx, heapKeySpace, level, c, s)
    ensures seg <= s
    ensures var blkno := Position(idx, c, seg);
            && (blkno == P_NONE ==> c.down == P_NONE && s == seg)
            && (blkno != P_NONE ==>
                  && |seg| < |s| && s[|seg|] == blkno
                  && SplitBefore(idx, c, s, |seg|) == SplitBefore(idx, c, seg, |seg|)
                  && StepOk(idx, heapKeySpace, level, c, seg == [], SplitBefore(idx, c, seg, |seg|), blkno))
  {
    hide StepOk, StartSplit;
    SameStart(idx, heapKeySpace, level, c, seg, s, |seg|);
    assert seg[..|seg|] == seg;
    var n := |seg|;
    assert n > 0 ==> s[n - 1] == seg[n - 1];
    if n < |s| {
      StepIn(idx, heapKeySpace, level, c, n == 0, SplitBefore(idx, c, s, n), s[n]);
    } else {
      assert s == seg;
    }
  }

  /** There is only one way for a call to return. */
  lemma {:induction false} OneWay(idx: Index, heapKeySpace: bool, level: nat, c: Call, a: seq<nat>, b: seq<nat>)
    requires CallOk(idx, heapKeySpace, level, c, a) && CallOk(idx, heapKeySpace, level, c, b)
    ensures a == b
  {
    hide StepOk, SplitBefore;
    var init := if c.down == P_NONE then a else a[..|a| - 1];
    InitUnderway(idx, heapKeySpace, level, c, a, |init|);
    if c.down == P_NONE && a != [] && a[|a| - 1] == P_NONE {
      StepIn(idx, heapKeySpace, level, c, |a| - 1 == 0, SplitBefore(idx, c, a, |a| - 1), a[|a| - 1]);
    }
    assert a[..|init|] == init;
    MustGoOn(idx, heapKeySpace, level, c, init, b);
    if c.down != P_NONE {
      LastIsDown(idx, heapKeySpace, level, c, a);
      assert a == init + [c.down];
      assert b[..|a|] == a;
      LastIsDown(idx, heapKeySpace, level, c, b);
    }
  }

  lemma {:induction false} InitUnderway(idx: Index, heapKeySpace: bool, level: nat, c: Call, seg: seq<nat>, n: nat)
    requires Underway(idx, heapKeySpace, level, c, seg) && n <= |seg|
    ensures Underway(idx, heapKeySpace, level, c, seg[..n]) && Linked(idx, seg[..n])
  {
    hide StepOk, StartSplit;
    forall i | 0 <= i < n
      ensures StepOk(idx, heapKeySpace, level, c, i == 0, SplitBefore(idx, c, seg[..n], i), seg[..n][i])
    {
      assert SplitBefore(idx, c, seg[..n], i) == SplitBefore(idx, c, seg, i);
    }
  }

  lemma {:induction false} LastIsDown(idx: Index, heapKeySpace: bool, level: nat, c: Call, seg: seq<nat>)
    requires CallOk(idx, heapKeySpace, level, c, seg) && c.down != P_NONE
    ensures seg != [] && seg[|seg| - 1] == c.down && forall i | 0 <= i < |seg| - 1 :: seg[i] != c.down
    ensures Position(idx, c, seg[..|seg| - 1]) == c.down
  {
    hide StepOk, SplitBefore;
    var n := |seg| - 1;
    assert n > 0 ==> seg[..n][n - 1] == seg[n - 1];
  }

  /** Every call that can return does so with some bound and with every greater one. */
  lemma {:induction false} EnoughFuel(idx: Index, heapKeySpace: bool, level: nat, c: Call, seg: seq<nat>)
    returns (n: nat)
    requires CallOk(idx, heapKeySpace, level, c, seg)
    ensures forall fuel | fuel >= n :: Within(idx, c, seg, fuel)
  {
    hide Linked, StepWithin;
    n := EnoughSteps(idx, heapKeySpace, level, c, seg, |seg|);
    n := n + |seg| + 1;
  }

  lemma {:induction false} EnoughSteps(idx: Index, heapKeySpace: bool, level: nat, c: Call, seg: seq<nat>, k: nat)
    returns (n: nat)
    requires Underway(idx, heapKeySpace, level, c, seg) && k <= |seg|
    ensures forall fuel, i | fuel >= n && 0 <= i < k :: StepWithin(idx, c, SplitBefore(idx, c, seg, i), seg[i], fuel)
  {
    hide Linked, StepWithin, SplitBefore, StepOk;
    n := 0;
    if k > 0 {
      n := EnoughSteps(idx, heapKeySpace, level, c, seg, k - 1);
      var m := EnoughStep(idx, heapKeySpace, level, c, k - 1 == 0, SplitBefore(idx, c, seg, k - 1), seg[k - 1]);
      n := n + m;
    }
  }

  lemma {:induction false} EnoughStep(idx: Index, heapKeySpace: bool, level: nat, c: Call, first: bool,
      rightSplit: bool, blkno: nat) returns (n: nat)
    requires StepOk(idx, heapKeySpace, level, c, first, rightSplit, blkno)
    ensures forall fuel | fuel >= n :: StepWithin(idx, c, rightSplit, blkno, fuel)
  {
    hide DeletionPath, Leftmost, HighKeyMatches, Sane;
    n := 0;
    if path :| DeletionPath(idx, blkno, path) { n := |path|; }
  }

  // ---------- the downlinks of a target level ----------

  /** A downlink with the target-level keys on either side of it. */
  datatype Entry = Entry(before: Option<Tuple>, down: nat, after: Option<Tuple>)

  /** The target key that follows the downlink at `offset`: the next pivot, or the
      high key; none at the right end of the level. */
  function KeyAfter(t: Page, offset: nat): Option<Tuple>
  {
    if offset + 1 <= |t.items| then ItemAt(t, offset + 1)
    else if Rightmost(t) then None
    else ItemAt(t, P_HIKEY)
  }

  /** The target key that precedes the downlink at `offset`; in front of the first
      downlink of a page that is the high key of the page to the left. */
  function KeyBefore(t: Page, lowKey: Option<Tuple>, offset: nat): Option<Tuple>
  {
    if NegativeInfinity(t, offset) then lowKey else ItemAt(t, offset)
  }

  function EntryAt(t: Page, lowKey: Option<Tuple>, offset: nat): Entry
    requires 1 <= offset <= |t.items|
  {
    Entry(KeyBefore(t, lowKey, offset), t.items[offset - 1].block, KeyAfter(t, offset))
  }

  /** The downlinks of an internal page at the offsets below `limit`. */
  function EntriesBelow(t: Page, lowKey: Option<Tuple>, limit: nat): (es: seq<Entry>)
    requires FirstDataKey(t) <= limit <= |t.items| + 1
    decreases limit
  {
    if limit == FirstDataKey(t) then []
    else EntriesBelow(t, lowKey, limit - 1) + [EntryAt(t, lowKey, limit - 1)]
  }

  function PageEntries(t: Page, lowKey: Option<Tuple>): seq<Entry>
    requires Sane(t)
  {
    if t.leaf || Ignorable(t) then [] else EntriesBelow(t, lowKey, |t.items| + 1)
  }

  /** The low key remembered after a walk over `ts`. */
  function LowKey(ts: seq<Page>): Option<Tuple>
  {
    if ts == [] || Rightmost(ts[|ts| - 1]) then None else ItemAt(ts[|ts| - 1], P_HIKEY)
  }

  predicate AllSane(ts: seq<Page>)
  {
    forall i | 0 <= i < |ts| :: Sane(ts[i])
  }

  function Entries(ts: seq<Page>): seq<Entry>
    requires AllSane(ts)
  {
    if ts == [] then []
    else
      var init, last := ts[..|ts| - 1], ts[|ts| - 1];
      Entries(init) + PageEntries(last, LowKey(init))
  }

  // ---------- a run of calls ----------

  /** The right link and the split flag remembered after the downlinks `es`. */
  function PrevLink(idx: Index, es: seq<Entry>): nat
  {
    if es == [] || es[|es| - 1].down !in idx || es[|es| - 1].down == P_NONE then INVALID_BLOCK
    else idx[es[|es| - 1].down].next
  }

  predicate PrevSplit(idx: Index, es: seq<Entry>)
  {
    es != [] && es[|es| - 1].down in idx && es[|es| - 1].down != P_NONE && idx[es[|es| - 1].down].incompleteSplit
  }

  function CallFor(idx: Index, es: seq<Entry>, e: Entry): Call
  {
    Call(PrevLink(idx, es), PrevSplit(idx, es), e.down, e.before, e.after)
  }

  /** The call made once all downlinks of the level are done. */
  function LastCall(idx: Index, es: seq<Entry>): Call
  {
    Call(PrevLink(idx, es), PrevSplit(idx, es), P_NONE, None, None)
  }

  /** One successful call for each downlink, in order. */
  ghost predicate RunOk(idx: Index, heapKeySpace: bool, level: nat, es: seq<Entry>, segs: seq<seq<nat>>)
  {
    && |segs| == |es|
    && forall j | 0 <= j < |es| :: CallOk(idx, heapKeySpace, level, CallFor(idx, es[..j], es[j]), segs[j])
  }

  /** All calls for a target level, the last one included, returned. */
  ghost predicate LevelOk(idx: Index, heapKeySpace: bool, level: nat, es: seq<Entry>, segs: seq<seq<nat>>)
  {
    && |segs| == |es| + 1
    && RunOk(idx, heapKeySpace, level, es, segs[..|es|])
    && CallOk(idx, heapKeySpace, level, LastCall(idx, es), segs[|es|])
  }

  lemma {:induction false} RunStep(idx: Index, heapKeySpace: bool, level: nat, es: seq<Entry>,
      segs: seq<seq<nat>>, e: Entry, seg: seq<nat>)
    requires RunOk(idx, heapKeySpace, level, es, segs)
    requires CallOk(idx, heapKeySpace, level, CallFor(idx, es, e), seg)
    ensures RunOk(idx, heapKeySpace, level, es + [e], segs + [seg])
  {
    hide CallOk, CallFor;
    var es1 := es + [e];
    forall j | 0 <= j < |es1|
      ensures CallOk(idx, heapKeySpace, level, CallFor(idx, es1[..j], es1[j]), (segs + [seg])[j])
    {
      assert es1[..j] == es[..j];
      if j == |es| { assert es[..j] == es; }
    }
  }

  lemma {:induction false} RunNothing(idx: Index, heapKeySpace: bool, level: nat)
    ensures RunOk(idx, heapKeySpace, level, [], []) && PrevLink(idx, []) == INVALID_BLOCK && !PrevSplit(idx, [])
  {
  }

  lemma {:induction false} LevelDone(idx: Index, heapKeySpace: bool, level: nat, es: seq<Entry>,
      segs: seq<seq<nat>>, seg: seq<nat>)
    requires RunOk(idx, heapKeySpace, level, es, segs)
    requires CallOk(idx, heapKeySpace, level, LastCall(idx, es), seg)
    ensures LevelOk(idx, heapKeySpace, level, es, segs + [seg])
  {
  }

  /** bt_child_check raises no error over deleted children: it is not called for
      the first downlink. */
  predicate ChildrenLive(idx: Index, t: Page) { LiveBelow(idx, t, |t.items|) }

  /** The same for the downlinks at offsets up to n. */
  predicate LiveBelow(idx: Index, t: Page, n: nat)
  {
    forall k | FirstDataKey(t) <= k < n && k < |t.items| :: LiveChild(idx, t.items[k].block)
  }

  predicate LiveChild(idx: Index, blkno: nat) { Readable(idx, blkno) && !idx[blkno].deleted }

  /** All calls for the downlinks of page `t` return within `fuel`, visiting `segs`;
      `es0` and `segs0` belong to the pages before it. */
  ghost predicate PagePasses(idx: Index, heapKeySpace: bool, t: Page, lowKey: Option<Tuple>,
      es0: seq<Entry>, segs0: seq<seq<nat>>, segs: seq<seq<nat>>, fuel: nat)
    requires Sane(t) && !t.leaf && !Ignorable(t) && |segs0| == |es0|
  {
    var es := es0 + PageEntries(t, lowKey);
    && ChildrenLive(idx, t)
    && segs0 <= segs && |segs| == |es| + (if Rightmost(t) then 1 else 0)
    && (forall j | |es0| <= j < |es| ::
          CallPasses(idx, heapKeySpace, t.level - 1, CallFor(idx, es[..j], es[j]), segs[j], fuel))
    && (Rightmost(t) ==> CallPasses(idx, heapKeySpace, t.level - 1, LastCall(idx, es), segs[|es|], fuel))
  }

  ghost predicate CallPasses(idx: Index, heapKeySpace: bool, level: nat, c: Call, seg: seq<nat>, fuel: nat)
  {
    CallOk(idx, heapKeySpace, level, c, seg) && Within(idx, c, seg, fuel)
  }

  lemma {:induction false} EntriesCut(t: Page, low: Option<Tuple>, offset: nat, limit: nat)
    requires FirstDataKey(t) <= offset <= limit <= |t.items| + 1
    ensures |EntriesBelow(t, low, limit)| == limit - FirstDataKey(t)
    ensures EntriesBelow(t, low, limit)[..offset - FirstDataKey(t)] == EntriesBelow(t, low, offset)
    ensures offset < limit ==> EntriesBelow(t, low, limit)[offset - FirstDataKey(t)] == EntryAt(t, low, offset)
  {
    hide EntryAt;
    if limit > FirstDataKey(t) {
      if offset < limit {
        EntriesCut(t, low, offset, limit - 1);
      } else {
        EntriesCut(t, low, limit - 1, limit - 1);
      }
    }
  }

  /** The call a page that passes makes for the downlink at `offset`. */
  lemma {:induction false} PassingCall(idx: Index, heapKeySpace: bool, t: Page, low: Option<Tuple>,
      es0: seq<Entry>, segs0: seq<seq<nat>>, goal: seq<seq<nat>>, fuel: nat, offset: nat)
    requires Sane(t) && !t.leaf && !Ignorable(t) && |segs0| == |es0| && FirstDataKey(t) <= offset <= |t.items|
    requires PagePasses(idx, heapKeySpace, t, low, es0, segs0, goal, fuel)
    ensures var es := es0 + EntriesBelow(t, low, offset);
            && |es| < |goal|
            && CallPasses(idx, heapKeySpace, t.level - 1, CallFor(idx, es, EntryAt(t, low, offset)), goal[|es|], fuel)
  {
    hide CallPasses, EntriesBelow, EntryAt, CallFor, ChildrenLive, Sane;
    var n := |t.items| + 1;
    EntriesCut(t, low, offset, n);
    var es := es0 + EntriesBelow(t, low, n);
    var j := |es0| + offset - FirstDataKey(t);
    assert es[..j] == es0 + EntriesBelow(t, low, offset);
    assert es[j] == EntryAt(t, low, offset);
    SaneItems(t);
  }

  lemma {:induction false} SaneItems(t: Page)
    requires Sane(t) && !t.leaf && !Ignorable(t)
    ensures FirstDataKey(t) <= |t.items| && t.level > 0
  {
  }

  // ---------- the target level ----------

  function PagesOf(idx: Index, blocks: seq<nat>): (ps: seq<Page>)
    requires forall i | 0 <= i < |blocks| :: blocks[i] in idx
    ensures |ps| == |blocks| && forall i | 0 <= i < |blocks| :: ps[i] == idx[blocks[i]]
  {
    seq(|blocks|, i requires 0 <= i < |blocks| => idx[blocks[i]])
  }

  /** Right siblings in turn, none deleted; every page that is not half-dead is on
      the level and links back to the page before it. */
  ghost predicate TargetWalk(idx: Index, level: nat, targets: seq<nat>)
    ensures TargetWalk(idx, level, targets) ==> forall i | 0 <= i < |targets| :: targets[i] in idx
  {
    && Linked(idx, targets)
    && (forall i | 0 <= i < |targets| :: targets[i] != P_NONE && Readable(idx, targets[i]) && !idx[targets[i]].deleted)
    && (forall i | 0 <= i < |targets| :: !idx[targets[i]].halfDead ==> idx[targets[i]].level == level)
    && (forall i | 0 < i < |targets| :: !idx[targets[i]].halfDead ==> idx[targets[i]].prev == targets[i - 1])
  }

  /** `next` is where the level below starts: the first downlink of the first page
      that is not half-dead, or P_NONE below the leaves. */
  ghost predicate HeadOf(idx: Index, trueRootLevel: bool, targets: seq<nat>, next: nat)
  {
    exists i :: 0 <= i < |targets| && AllIgnorable(idx, targets[..i]) && Head(idx, trueRootLevel, targets[i], next)
  }

  ghost predicate AllIgnorable(idx: Index, blocks: seq<nat>)
  {
    forall i | 0 <= i < |blocks| :: blocks[i] in idx && Ignorable(idx[blocks[i]])
  }

  /** Until a page is found to descend from, all are to be skipped. */
  ghost predicate HeadSoFar(idx: Index, trueRootLevel: bool, targets: seq<nat>, next: nat)
  {
    if next == INVALID_BLOCK then AllIgnorable(idx, targets) else HeadOf(idx, trueRootLevel, targets, next)
  }

  ghost predicate Head(idx: Index, trueRootLevel: bool, blkno: nat, next: nat)
  {
    && blkno in idx && Leftmost(idx, blkno) && !Ignorable(idx[blkno]) && (trueRootLevel ==> idx[blkno].root)
    && next == if idx[blkno].leaf then P_NONE else FirstDownlink(idx[blkno])
  }

  lemma {:induction false} WalkNothing(idx: Index, level: nat)
    ensures TargetWalk(idx, level, []) && PagesOf(idx, []) == [] && Entries([]) == [] && LowKey([]) == None
  {
  }

  lemma {:induction false} WalkFurther(idx: Index, level: nat, targets: seq<nat>, blkno: nat)
    requires TargetWalk(idx, level, targets) && blkno != P_NONE && Readable(idx, blkno) && !idx[blkno].deleted
    requires targets != [] ==> idx[targets[|targets| - 1]].next == blkno
    requires !idx[blkno].halfDead ==> idx[blkno].level == level
    requires !idx[blkno].halfDead && targets != [] ==> idx[blkno].prev == targets[|targets| - 1]
    ensures TargetWalk(idx, level, targets + [blkno]) && blkno in idx
  {
    hide Sane;
  }

  lemma {:induction false} EntriesFurther(idx: Index, targets: seq<nat>, blkno: nat)
    requires (forall i | 0 <= i < |targets| :: targets[i] in idx) && AllSane(PagesOf(idx, targets))
    requires Readable(idx, blkno)
    ensures var ts, ts1 := PagesOf(idx, targets), PagesOf(idx, targets + [blkno]);
            && AllSane(ts1)
            && Entries(ts1) == Entries(ts) + PageEntries(idx[blkno], LowKey(ts))
            && LowKey(ts1) == (if Rightmost(idx[blkno]) then None else ItemAt(idx[blkno], P_HIKEY))
            && (idx[blkno].leaf || Ignorable(idx[blkno]) ==> Entries(ts1) == Entries(ts))
  {
    hide Sane;
    var ts, ts1 := PagesOf(idx, targets), PagesOf(idx, targets + [blkno]);
    assert ts1 == ts + [idx[blkno]];
    assert ts1[..|ts1| - 1] == ts;
  }

  lemma {:induction false} HeadFound(idx: Index, trueRootLevel: bool, targets: seq<nat>, blkno: nat)
    requires blkno in idx && Leftmost(idx, blkno) && !Ignorable(idx[blkno]) && (trueRootLevel ==> idx[blkno].root)
    requires AllIgnorable(idx, targets)
    ensures HeadOf(idx, trueRootLevel, targets + [blkno], if idx[blkno].leaf then P_NONE else FirstDownlink(idx[blkno]))
  {
    hide FirstDownlink, Leftmost;
    var next := if idx[blkno].leaf then P_NONE else FirstDownlink(idx[blkno]);
    assert (targets + [blkno])[..|targets|] == targets && (targets + [blkno])[|targets|] == blkno;
    assert Head(idx, trueRootLevel, blkno, next);
  }

  lemma {:induction false} HeadKept(idx: Index, trueRootLevel: bool, targets: seq<nat>, next: nat, blkno: nat)
    requires HeadOf(idx, trueRootLevel, targets, next)
    ensures HeadOf(idx, trueRootLevel, targets + [blkno], next)
  {
    hide Head, AllIgnorable;
    var i :| 0 <= i < |targets| && AllIgnorable(idx, targets[..i]) && Head(idx, trueRootLevel, targets[i], next);
    assert (targets + [blkno])[..i] == targets[..i] && (targets + [blkno])[i] == targets[i];
  }

  /** A skipped page leaves the head as it is. */
  lemma {:induction false} HeadSkips(idx: Index, trueRootLevel: bool, targets: seq<nat>, next: nat, blkno: nat)
    requires HeadSoFar(idx, trueRootLevel, targets, next) && blkno in idx
    requires Ignorable(idx[blkno]) || next != INVALID_BLOCK
    ensures HeadSoFar(idx, trueRootLevel, targets + [blkno], next)
  {
    hide HeadOf;
    if next != INVALID_BLOCK { HeadKept(idx, trueRootLevel, targets, next, blkno); }
  }

  lemma {:induction false} SkippedEntries(idx: Index, targets: seq<nat>)
    requires AllIgnorable(idx, targets) && AllSane(PagesOf(idx, targets))
    ensures Entries(PagesOf(idx, targets)) == []
  {
    var ts := PagesOf(idx, targets);
    if ts != [] {
      var init := targets[..|targets| - 1];
      assert PagesOf(idx, init) == ts[..|ts| - 1];
      SkippedEntries(idx, init);
      assert ts[|ts| - 1] == idx[targets[|targets| - 1]];
    }
  }

  lemma {:induction false} FirstBelow(t: Page, low: Option<Tuple>, limit: nat)
    requires FirstDataKey(t) < limit <= |t.items| + 1
    ensures EntriesBelow(t, low, limit) != [] && EntriesBelow(t, low, limit)[0].down == FirstDownlink(t)
  {
    if limit > FirstDataKey(t) + 1 {
      FirstBelow(t, low, limit - 1);
    } else {
      assert EntriesBelow(t, low, limit - 1) == [];
    }
  }

  lemma {:induction false} FirstOfPage(t: Page, low: Option<Tuple>)
    requires Sane(t) && !t.leaf && !Ignorable(t)
    ensures PageEntries(t, low) != [] && PageEntries(t, low)[0].down == FirstDownlink(t)
  {
    hide EntriesBelow, FirstDownlink;
    FirstBelow(t, low, |t.items| + 1);
  }

  /** No level is entered through the invalid block number. */
  lemma {:induction false} FirstDownValid(idx: Index, heapKeySpace: bool, level: nat, es: seq<Entry>,
      segs: seq<seq<nat>>)
    requires es != [] && (RunOk(idx, heapKeySpace, level, es, segs) || LevelOk(idx, heapKeySpace, level, es, segs))
    ensures es[0].down != INVALID_BLOCK
  {
    hide StepOk, SplitBefore, Linked;
    assert es[..0] == [];
    var seg := segs[0];
    assert LevelOk(idx, heapKeySpace, level, es, segs) ==> segs[..|es|][0] == segs[0];
    var c := CallFor(idx, [], es[0]);
    assert CallOk(idx, heapKeySpace, level, c, seg);
    if c.down == INVALID_BLOCK { StepIn(idx, heapKeySpace, level, c, true, SplitBefore(idx, c, seg, 0), seg[0]); }
  }

  /** What has been found out about a level after the targets visited. */
  ghost predicate LevelSoFar(idx: Index, heapKeySpace: bool, trueRootLevel: bool, level: nat, targets: seq<nat>,
      segs: seq<seq<nat>>, next: nat)
  {
    && TargetWalk(idx, level, targets) && AllSane(PagesOf(idx, targets))
    && HeadSoFar(idx, trueRootLevel, targets, next)
    && (level > 0 ==>
          var es := Entries(PagesOf(idx, targets));
          if targets != [] && Rightmost(idx[targets[|targets| - 1]])
          then LevelOk(idx, heapKeySpace, level - 1, es, segs)
          else RunOk(idx, heapKeySpace, level - 1, es, segs))
  }

  lemma {:induction false} SaneInternal(p: Page)
    requires Sane(p) && !Ignorable(p)
    ensures p.leaf <==> p.level == 0
  {
  }

  // ---------- when a level passes ----------

  function Unseen(n: nat): (segs: seq<seq<nat>>)
    ensures |segs| == n
  {
    seq(n, _ => [])
  }

  /** All calls for the downlinks of page `t`, after the entries `es0`, return. */
  ghost predicate PageCan(idx: Index, heapKeySpace: bool, t: Page, lowKey: Option<Tuple>, es0: seq<Entry>, fuel: nat)
    requires Sane(t) && !t.leaf && !Ignorable(t)
  {
    exists p :: PagePasses(idx, heapKeySpace, t, lowKey, es0, Unseen(|es0|), p, fuel)
  }

  lemma {:induction false} OtherPast(idx: Index, heapKeySpace: bool, t: Page, lowKey: Option<Tuple>, es0: seq<Entry>,
      a: seq<seq<nat>>, b: seq<seq<nat>>, p: seq<seq<nat>>, fuel: nat) returns (q: seq<seq<nat>>)
    requires Sane(t) && !t.leaf && !Ignorable(t) && |a| == |b| == |es0|
    requires PagePasses(idx, heapKeySpace, t, lowKey, es0, a, p, fuel)
    ensures PagePasses(idx, heapKeySpace, t, lowKey, es0, b, q, fuel)
  {
    hide CallPasses, CallFor, LastCall, ChildrenLive, PageEntries, Sane;
    q := b + p[|a|..];
    assert forall j | |a| <= j < |p| :: q[j] == p[j];
    SaneItems(t);
  }

  /** What was visited before the page does not matter. */
  lemma {:induction false} PageCanIff(idx: Index, heapKeySpace: bool, t: Page, lowKey: Option<Tuple>, es0: seq<Entry>,
      segs0: seq<seq<nat>>, fuel: nat)
    requires Sane(t) && !t.leaf && !Ignorable(t) && |segs0| == |es0|
    ensures PageCan(idx, heapKeySpace, t, lowKey, es0, fuel) <==>
      exists p :: PagePasses(idx, heapKeySpace, t, lowKey, es0, segs0, p, fuel)
  {
    hide PagePasses, Sane, Unseen;
    if PageCan(idx, heapKeySpace, t, lowKey, es0, fuel) {
      var p :| PagePasses(idx, heapKeySpace, t, lowKey, es0, Unseen(|es0|), p, fuel);
      var q := OtherPast(idx, heapKeySpace, t, lowKey, es0, Unseen(|es0|), segs0, p, fuel);
    } else if p :| PagePasses(idx, heapKeySpace, t, lowKey, es0, segs0, p, fuel) {
      var q := OtherPast(idx, heapKeySpace, t, lowKey, es0, segs0, Unseen(|es0|), p, fuel);
    }
  }

  /** The tests on target page `blkno` after `targets`: a page that is not half-dead
      is on the level and links back, the first such one is leftmost and, on the
      true root level, the root; and all calls for its downlinks return. */
  ghost predicate VisitPasses(idx: Index, heapKeySpace: bool, trueRootLevel: bool, level: nat, targets: seq<nat>,
      blkno: nat, fuel: nat)
  {
    && (forall i | 0 <= i < |targets| :: targets[i] in idx) && AllSane(PagesOf(idx, targets))
    && Readable(idx, blkno) && !idx[blkno].deleted && (idx[blkno].halfDead ==> !Rightmost(idx[blkno]))
    && (!idx[blkno].halfDead ==>
          && idx[blkno].level == level
          && (targets != [] ==> idx[blkno].prev == targets[|targets| - 1])
          && (AllIgnorable(idx, targets) ==> Leftmost(idx, blkno) && (trueRootLevel ==> idx[blkno].root))
          && (!idx[blkno].leaf ==>
                PageCan(idx, heapKeySpace, idx[blkno], LowKey(PagesOf(idx, targets)),
                  Entries(PagesOf(idx, targets)), fuel)))
  }

  /** The tests before the walk goes on from `blkno`: no circular link, and a high
      key to remember. */
  predicate MayLeave(idx: Index, targets: seq<nat>, blkno: nat)
  {
    && blkno in idx && blkno != idx[blkno].prev && (targets != [] ==> blkno != targets[|targets| - 1])
    && (!Rightmost(idx[blkno]) ==> ItemAt(idx[blkno], P_HIKEY).Some?)
  }

  ghost predicate TargetPasses(idx: Index, heapKeySpace: bool, trueRootLevel: bool, level: nat, targets: seq<nat>,
      blkno: nat, fuel: nat)
  {
    && blkno != P_NONE && VisitPasses(idx, heapKeySpace, trueRootLevel, level, targets, blkno, fuel)
    && MayLeave(idx, targets, blkno)
  }

  /** Every page of the walk passes its tests. */
  ghost predicate AllPass(idx: Index, heapKeySpace: bool, trueRootLevel: bool, level: nat, targets: seq<nat>, fuel: nat)
  {
    forall i | 0 <= i < |targets| ::
      TargetPasses(idx, heapKeySpace, trueRootLevel, level, targets[..i], targets[i], fuel)
  }

  /** The walk along right links from `leftmost` over `targets` to the end of the
      level, at most `fuel` pages, passes every test. */
  ghost predicate LevelPasses(idx: Index, heapKeySpace: bool, trueRootLevel: bool, level: nat, leftmost: nat,
      targets: seq<nat>, fuel: nat)
  {
    && targets != [] && targets[0] == leftmost && |targets| <= fuel
    && Linked(idx, targets) && Rightmost(idx[targets[|targets| - 1]])
    && AllPass(idx, heapKeySpace, trueRootLevel, level, targets, fuel)
  }

  lemma {:induction false} PassNothing(idx: Index, heapKeySpace: bool, trueRootLevel: bool, level: nat, fuel: nat)
    ensures AllPass(idx, heapKeySpace, trueRootLevel, level, [], fuel)
  {
  }

  lemma {:induction false} PassFurther(idx: Index, heapKeySpace: bool, trueRootLevel: bool, level: nat,
      targets: seq<nat>, blkno: nat, fuel: nat)
    requires AllPass(idx, heapKeySpace, trueRootLevel, level, targets, fuel)
    requires TargetPasses(idx, heapKeySpace, trueRootLevel, level, targets, blkno, fuel)
    ensures AllPass(idx, heapKeySpace, trueRootLevel, level, targets + [blkno], fuel)
  {
    hide TargetPasses;
    var ts := targets + [blkno];
    forall i | 0 <= i < |ts|
      ensures TargetPasses(idx, heapKeySpace, trueRootLevel, level, ts[..i], ts[i], fuel)
    {
      assert ts[..i] == targets[..i];
      if i == |targets| { assert targets[..i] == targets; }
    }
  }

  /** A level that can pass, in the one possible way. */
  ghost method LevelGoal(idx: Index, heapKeySpace: bool, trueRootLevel: bool, level: nat, leftmost: nat, fuel: nat)
    returns (can: bool, goal: seq<nat>)
    ensures can <==> exists ts :: LevelPasses(idx, heapKeySpace, trueRootLevel, level, leftmost, ts, fuel)
    ensures can ==> LevelPasses(idx, heapKeySpace, trueRootLevel, level, leftmost, goal, fuel)
  {
    can, goal := exists ts :: LevelPasses(idx, heapKeySpace, trueRootLevel, level, leftmost, ts, fuel), [];
    if can {
      goal :| LevelPasses(idx, heapKeySpace, trueRootLevel, level, leftmost, goal, fuel);
    }
  }

  lemma {:induction false} LevelGoalStep(idx: Index, heapKeySpace: bool, trueRootLevel: bool, level: nat, leftmost: nat,
      goal: seq<nat>, fuel: nat, targets: seq<nat>, current: nat)
    requires LevelPasses(idx, heapKeySpace, trueRootLevel, level, leftmost, goal, fuel) && targets <= goal
    requires current != P_NONE && (targets == [] ==> current == leftmost)
    requires targets != [] ==> targets[|targets| - 1] in idx && idx[targets[|targets| - 1]].next == current
    ensures |targets| < fuel && targets + [current] <= goal
    ensures TargetPasses(idx, heapKeySpace, trueRootLevel, level, targets, current, fuel)
  {
    hide TargetPasses;
    var n := |targets|;
    assert n < |goal|;
    assert goal[n] == current;
    assert goal[..n] == targets;
  }

  lemma {:induction false} WithinLonger(idx: Index, c: Call, seg: seq<nat>, a: nat, b: nat)
    requires a <= b && Within(idx, c, seg, a)
    ensures Within(idx, c, seg, b)
  {
    hide SplitBefore;
    forall i | 0 <= i < |seg|
      ensures StepWithin(idx, c, SplitBefore(idx, c, seg, i), seg[i], b)
    {
      assert StepWithin(idx, c, SplitBefore(idx, c, seg, i), seg[i], a);
    }
  }

  lemma {:induction false} PageLonger(idx: Index, heapKeySpace: bool, t: Page, lowKey: Option<Tuple>, es0: seq<Entry>,
      segs0: seq<seq<nat>>, segs: seq<seq<nat>>, a: nat, b: nat)
    requires Sane(t) && !t.leaf && !Ignorable(t) && |segs0| == |es0| && a <= b
    requires PagePasses(idx, heapKeySpace, t, lowKey, es0, segs0, segs, a)
    ensures PagePasses(idx, heapKeySpace, t, lowKey, es0, segs0, segs, b)
  {
    hide CallOk, Within, CallFor, LastCall, ChildrenLive, PageEntries, Sane;
    SaneItems(t);
    var es := es0 + PageEntries(t, lowKey);
    forall j | |es0| <= j < |es|
      ensures CallPasses(idx, heapKeySpace, t.level - 1, CallFor(idx, es[..j], es[j]), segs[j], b)
    {
      assert CallPasses(idx, heapKeySpace, t.level - 1, CallFor(idx, es[..j], es[j]), segs[j], a);
      WithinLonger(idx, CallFor(idx, es[..j], es[j]), segs[j], a, b);
    }
    if Rightmost(t) { WithinLonger(idx, LastCall(idx, es), segs[|es|], a, b); }
  }

  lemma {:induction false} TargetLonger(idx: Index, heapKeySpace: bool, trueRootLevel: bool, level: nat,
      targets: seq<nat>, blkno: nat, a: nat, b: nat)
    requires a <= b && TargetPasses(idx, heapKeySpace, trueRootLevel, level, targets, blkno, a)
    ensures TargetPasses(idx, heapKeySpace, trueRootLevel, level, targets, blkno, b)
  {
    hide Sane, AllSane, Leftmost, Entries, LowKey, PagesOf, AllIgnorable, PagePasses, MayLeave;
    if !Ignorable(idx[blkno]) && !idx[blkno].leaf {
      var low, es := LowKey(PagesOf(idx, targets)), Entries(PagesOf(idx, targets));
      var p :| PagePasses(idx, heapKeySpace, idx[blkno], low, es, Unseen(|es|), p, a);
      PageLonger(idx, heapKeySpace, idx[blkno], low, es, Unseen(|es|), p, a, b);
    }
  }

  /** A pass that returns within one bound returns within every larger one. */
  lemma {:induction false} LevelLonger(idx: Index, heapKeySpace: bool, trueRootLevel: bool, level: nat, leftmost: nat,
      targets: seq<nat>, a: nat, b: nat)
    requires a <= b && LevelPasses(idx, heapKeySpace, trueRootLevel, level, leftmost, targets, a)
    ensures LevelPasses(idx, heapKeySpace, trueRootLevel, level, leftmost, targets, b)
  {
    hide TargetPasses;
    forall i | 0 <= i < |targets|
      ensures TargetPasses(idx, heapKeySpace, trueRootLevel, level, targets[..i], targets[i], b)
    {
      TargetLonger(idx, heapKeySpace, trueRootLevel, level, targets[..i], targets[i], a, b);
    }
  }

  /** Once a page has been found to descend from, not all are to be skipped. */
  lemma {:induction false} HeadNotSkipped(idx: Index, trueRootLevel: bool, targets: seq<nat>, next: nat)
    requires HeadSoFar(idx, trueRootLevel, targets, next)
    ensures next == INVALID_BLOCK <==> AllIgnorable(idx, targets)
  {
    hide Leftmost, FirstDownlink;
    if next != INVALID_BLOCK {
      var i :| 0 <= i < |targets| && AllIgnorable(idx, targets[..i]) && Head(idx, trueRootLevel, targets[i], next);
    }
  }

  // ---------- the check ----------

  class BtreeCheckState {
    const idx: Index
    const heapKeySpace: bool
    var target: Page
    var targetBlock: nat
    var lowKey: Option<Tuple>
    var prevRightLink: nat
    var prevIncompleteSplit: bool

    constructor (idx: Index, heapKeySpace: bool, target: Page)
      ensures this.idx == idx && this.heapKeySpace == heapKeySpace && this.target == target
      ensures lowKey == None && prevRightLink == INVALID_BLOCK && !prevIncompleteSplit
    {
      this.idx, this.heapKeySpace, this.target := idx, heapKeySpace, target;
      targetBlock, lowKey, prevRightLink, prevIncompleteSplit := P_NONE, None, INVALID_BLOCK, false;
    }

    /** The arguments of a call for the downlink at `offset`; offset 0 stands for none. */
    function CallAt(offset: nat): Call
      reads this
    {
      var item := ItemAt(target, offset);
      if item.None? then Call(prevRightLink, prevIncompleteSplit, P_NONE, None, None)
      else Call(prevRightLink, prevIncompleteSplit, item.value.block,
        KeyBefore(target, lowKey, offset), KeyAfter(target, offset))
    }

    /** The high-key part of one step of bt_child_highkey_check. */
    method HighKeyCheck(offset: nat, blkno: nat, page: Page) returns (ok: bool)
      requires !target.leaf && (offset == 0 || FirstDataKey(target) <= offset <= |target.items|)
      requires blkno != P_NONE
      ensures ok <==>
        var c := CallAt(offset);
        HighKeyMatches(heapKeySpace, page, if blkno == c.down then c.after else c.before)
      ensures !page.incompleteSplit && !Rightmost(page) ==>
        var c := CallAt(offset);
        var separator := if blkno == c.down then c.after else c.before;
        (ok <==>
           && separator.Some? && page.items != []
           && page.items[0].data == separator.value.data
           && (heapKeySpace ==> page.items[0].posid == separator.value.posid))
    {
      if page.incompleteSplit || Rightmost(page) {
        return true;
      }
      var highkey := ItemAt(page, P_HIKEY);
      if highkey.None? {
        return false;
      }
      var pivotOffset := if blkno == CallAt(offset).down then offset + 1 else offset;
      var itup: Option<Tuple>;
      if !NegativeInfinity(target, pivotOffset) {
        if pivotOffset > |target.items| {
          if Rightmost(target) {
            return false;
          }
          pivotOffset := P_HIKEY;
        }
        itup := ItemAt(target, pivotOffset);
      } else {
        itup := lowKey;
      }
      if itup.None? {
        return false;
      }
      ok := Identical(heapKeySpace, highkey.value, itup.value);
    }

    /** One turn of the loop of bt_child_highkey_check, up to the exit tests. */
    method StepCheck(offset: nat, targetLevel: nat, blkno: nat, rightSplit: bool, first: bool, fuel: nat)
      returns (out: Outcome)
      requires !target.leaf && (offset == 0 || FirstDataKey(target) <= offset <= |target.items|)
      requires targetLevel > 0 && blkno != P_NONE
      ensures var c := CallAt(offset);
              var ok := StepOk(idx, heapKeySpace, targetLevel - 1, c, first, rightSplit, blkno);
              (out == Returned <==> ok && StepWithin(idx, c, rightSplit, blkno, fuel)) && (out == Corrupt ==> !ok)
    {
      hide Sane, Leftmost, MayLackDownlink, MayLackWithin, HighKeyMatches, KeyAfter, KeyBefore;
      if !Readable(idx, blkno) {
        return Corrupt;
      }
      var page := idx[blkno];
      if first && prevRightLink == INVALID_BLOCK {
        var leftmost := LeftmostIgnoringHalfDead(idx, blkno);
        if leftmost != Ok(true) {
          return Corrupt;
        }
      }
      if (!page.deleted || page.fullXid) && page.level != targetLevel - 1 {
        return Corrupt;
      }
      if (!first && blkno == prevRightLink) || blkno == page.prev {
        return Corrupt;
      }
      if blkno != CallAt(offset).down && !Ignorable(page) {
        out := DownlinkMissingCheck(idx, rightSplit, blkno, fuel);
        WithinIsMay(idx, rightSplit, blkno, fuel);
        if out != Returned {
          return;
        }
      }
      var matches := HighKeyCheck(offset, blkno, page);
      out := if matches then Returned else Corrupt;
    }

    /** bt_child_highkey_check. `fuel` bounds the walk, which a ring of right links
        can keep from ending; with enough of it the call returns exactly on the walks
        of CallOk, and an error is raised only where no bound would help. The page of
        the downlink is read here rather than handed in, which on a frozen index is
        the same page. */
    method ChildHighKeyCheck(offset: nat, targetLevel: nat, fuel: nat) returns (out: Outcome, ghost seg: seq<nat>)
      requires !target.leaf && (offset == 0 || FirstDataKey(target) <= offset <= |target.items|)
      requires targetLevel > 0
      modifies this`prevRightLink, this`prevIncompleteSplit
      ensures out == Returned ==>
        && CallOk(idx, heapKeySpace, targetLevel - 1, old(CallAt(offset)), seg)
        && Within(idx, old(CallAt(offset)), seg, fuel)
      ensures out == Corrupt ==> NeverReturns(idx, heapKeySpace, targetLevel - 1, old(CallAt(offset)))
      ensures out != Returned ==> NotWithin(idx, heapKeySpace, targetLevel - 1, old(CallAt(offset)), fuel)
      ensures out == Returned ==>
        var down := old(CallAt(offset)).down;
        if down == P_NONE then prevRightLink == INVALID_BLOCK && !prevIncompleteSplit
        else down in idx && prevRightLink == idx[down].next && prevIncompleteSplit == idx[down].incompleteSplit
    {
      hide Underway, Linked, SplitBefore, StepOk, StepWithin, StepsWithin, CallAt, CallOk, Within, NeverReturns,
        NotWithin;
      ghost var c, level := CallAt(offset), targetLevel - 1;
      var downlink := CallAt(offset).down;
      CallAtState(offset);
      var blkno, rightSplit, first := prevRightLink, prevIncompleteSplit, true;
      if blkno == INVALID_BLOCK {
        blkno, rightSplit := downlink, false;
      }
      seg := [];
      UnderwayStart(idx, heapKeySpace, level, c, fuel);
      var left := fuel;
      while true
        invariant prevRightLink == c.prevLink && prevIncompleteSplit == c.prevSplit && CallAt(offset) == c
        invariant Underway(idx, heapKeySpace, level, c, seg) && Linked(idx, seg) && blkno == Position(idx, c, seg)
        invariant rightSplit == SplitBefore(idx, c, seg, |seg|) && first == (seg == [])
        invariant forall i | 0 <= i < |seg| :: seg[i] != downlink
        invariant StepsWithin(idx, c, seg, fuel) && |seg| + left == fuel
        decreases left
      {
        if left == 0 {
          OutOfFuel(idx, heapKeySpace, level, c, seg, fuel);
          return Unfinished, seg;
        }
        left := left - 1;
        if blkno == P_NONE && downlink == P_NONE {
          ReachedEnd(idx, heapKeySpace, level, c, seg, fuel);
          prevRightLink, prevIncompleteSplit := INVALID_BLOCK, false;
          return Returned, seg;
        }
        if blkno == P_NONE {
          NoWayOn(idx, heapKeySpace, level, c, seg);
          return Corrupt, seg;
        }
        out := StepCheck(offset, targetLevel, blkno, rightSplit, first, fuel);
        if out != Returned {
          StepTooFar(idx, heapKeySpace, level, c, seg, fuel);
          if out == Corrupt { NoWayOn(idx, heapKeySpace, level, c, seg); }
          return;
        }
        UnderwayStep(idx, heapKeySpace, level, c, seg, blkno, fuel);
        rightSplit := idx[blkno].incompleteSplit;
        seg := seg + [blkno];
        if blkno == downlink {
          ReachedDown(idx, heapKeySpace, level, c, seg, fuel);
          prevRightLink, prevIncompleteSplit := idx[blkno].next, rightSplit;
          return Returned, seg;
        }
        blkno, first := idx[blkno].next, false;
      }
    }

    lemma {:induction false} CallAtState(offset: nat)
      ensures CallAt(offset).prevLink == prevRightLink && CallAt(offset).prevSplit == prevIncompleteSplit
    {
    }

    /** What bt_target_page_check does about one downlink, with the deleted-child
        test of bt_child_check. */
    method DownlinkCheck(offset: nat, fuel: nat) returns (out: Outcome, ghost seg: seq<nat>)
      requires !target.leaf && !Ignorable(target) && Sane(target) && FirstDataKey(target) <= offset <= |target.items|
      modifies this`prevRightLink, this`prevIncompleteSplit
      ensures out == Returned ==>
        && CallPasses(idx, heapKeySpace, target.level - 1, old(CallAt(offset)), seg, fuel)
        && (offset > FirstDataKey(target) ==> LiveChild(idx, target.items[offset - 1].block))
      ensures out != Returned ==>
        || NotWithin(idx, heapKeySpace, target.level - 1, old(CallAt(offset)), fuel)
        || (offset > FirstDataKey(target) && !LiveChild(idx, target.items[offset - 1].block))
      ensures out == Returned ==>
        var down := target.items[offset - 1].block;
        if down == P_NONE then prevRightLink == INVALID_BLOCK && !prevIncompleteSplit
        else down in idx && prevRightLink == idx[down].next && prevIncompleteSplit == idx[down].incompleteSplit
    {
      hide CallOk, Within, NeverReturns, NotWithin, KeyAfter, KeyBefore;
      if NegativeInfinity(target, offset) {
        out, seg := ChildHighKeyCheck(offset, target.level, fuel);
        return;
      }
      var childblock := target.items[offset - 1].block;
      if !Readable(idx, childblock) {
        return Corrupt, [];
      }
      out, seg := ChildHighKeyCheck(offset, target.level, fuel);
      if out == Returned && idx[childblock].deleted {
        return Corrupt, seg;
      }
    }

    /** bt_target_page_check, as far as it concerns downlinks: it returns exactly when
        the page passes. `es0` are the downlinks of the level done before. */
    method TargetPageCheck(fuel: nat, ghost es0: seq<Entry>, ghost segs0: seq<seq<nat>>)
      returns (out: Outcome, ghost segs: seq<seq<nat>>)
      requires !target.leaf && !Ignorable(target) && Sane(target)
      requires prevRightLink == PrevLink(idx, es0) && prevIncompleteSplit == PrevSplit(idx, es0)
      requires RunOk(idx, heapKeySpace, target.level - 1, es0, segs0)
      modifies this`prevRightLink, this`prevIncompleteSplit
      ensures out == Returned <==> exists p :: PagePasses(idx, heapKeySpace, target, lowKey, es0, segs0, p, fuel)
      ensures out == Returned ==>
        var es := es0 + PageEntries(target, lowKey);
        if Rightmost(target) then LevelOk(idx, heapKeySpace, target.level - 1, es, segs)
        else
          && prevRightLink == PrevLink(idx, es) && prevIncompleteSplit == PrevSplit(idx, es)
          && RunOk(idx, heapKeySpace, target.level - 1, es, segs)
    {
      hide RunOk, CallOk, LevelOk, KeyAfter, KeyBefore, PrevLink, PrevSplit, PagePasses, Within, NotWithin, CallPasses,
        ChildrenLive, LiveBelow, LiveChild, EntriesBelow, Sane, RunWithin, CallFor, EntryAt;
      SaneItems(target);
      RunShape(idx, heapKeySpace, target.level - 1, es0, segs0, fuel);
      segs := segs0;
      ghost var es, level := es0, target.level - 1;
      ghost var can, goal := Goal(idx, heapKeySpace, target, lowKey, es0, segs0, fuel);
      var offset := FirstDataKey(target);
      EntriesStart(target, lowKey);
      LiveStart(idx, target);
      assert es0 + [] == es0;
      while offset <= |target.items|
        invariant FirstDataKey(target) <= offset <= |target.items| + 1
        invariant es == es0 + EntriesBelow(target, lowKey, offset) && |segs| == |es|
        invariant prevRightLink == PrevLink(idx, es) && prevIncompleteSplit == PrevSplit(idx, es)
        invariant RunOk(idx, heapKeySpace, level, es, segs) && RunWithin(idx, es, segs, |es0|, fuel)
        invariant segs0 <= segs && (can ==> segs <= goal)
        invariant LiveBelow(idx, target, offset - 1)
      {
        ghost var e := EntryAt(target, lowKey, offset);
        CallAtEntry(offset, es);
        ghost var seg;
        out, seg := DownlinkCheck(offset, fuel);
        if can { GoalStep(idx, heapKeySpace, target, lowKey, es0, segs0, goal, fuel, offset, out == Returned, seg); }
        if out != Returned {
          return;
        }
        Advance(idx, heapKeySpace, target, lowKey, es0, es, segs, offset, seg, fuel);
        es, segs := es + [e], segs + [seg];
        offset := offset + 1;
      }
      LiveAll(idx, target, offset - 1);
      if Rightmost(target) {
        ghost var seg;
        out, seg := ChildHighKeyCheck(0, target.level, fuel);
        if can { GoalEnd(idx, heapKeySpace, target, lowKey, es0, segs0, goal, fuel, out == Returned); }
        if out != Returned {
          return;
        }
        LevelDone(idx, heapKeySpace, level, es, segs, seg);
        PassesLast(idx, heapKeySpace, level, LastCall(idx, es), seg, fuel);
        PassesBy(idx, heapKeySpace, target, lowKey, es0, segs0, es, segs, [seg], fuel);
        segs := segs + [seg];
      } else {
        PassesBy(idx, heapKeySpace, target, lowKey, es0, segs0, es, segs, [], fuel);
      }
      return Returned, segs;
    }

    /** One target page of the level walk, up to the circular-link test. */
    method VisitTarget(leftcurrent: nat, level: nat, trueRootLevel: bool, next0: nat, fuel: nat,
        ghost targets: seq<nat>, ghost segs0: seq<seq<nat>>)
      returns (out: Outcome, next: nat, ghost segs: seq<seq<nat>>)
      requires Readable(idx, targetBlock) && target == idx[targetBlock] && targetBlock != P_NONE
      requires LevelSoFar(idx, heapKeySpace, trueRootLevel, level, targets, segs0, next0)
      requires targets != [] ==> leftcurrent == targets[|targets| - 1] && idx[leftcurrent].next == targetBlock
      requires leftcurrent == P_NONE <==> targets == []
      requires lowKey == LowKey(PagesOf(idx, targets))
      requires level > 0 ==>
        && prevRightLink == PrevLink(idx, Entries(PagesOf(idx, targets)))
        && prevIncompleteSplit == PrevSplit(idx, Entries(PagesOf(idx, targets)))
      modifies this`prevRightLink, this`prevIncompleteSplit
      ensures out == Returned <==>
        VisitPasses(idx, heapKeySpace, trueRootLevel, level, targets, targetBlock, fuel)
      ensures out == Returned ==>
        && LevelSoFar(idx, heapKeySpace, trueRootLevel, level, targets + [targetBlock], segs, next)
        && (Rightmost(target) ==> next != INVALID_BLOCK)
        && (level > 0 && !Rightmost(target) ==>
              && prevRightLink == PrevLink(idx, Entries(PagesOf(idx, targets + [targetBlock])))
              && prevIncompleteSplit == PrevSplit(idx, Entries(PagesOf(idx, targets + [targetBlock]))))
    {
      hide RunOk, LevelOk, Entries, PageEntries, PrevLink, PrevSplit, Sane, Leftmost, PagesOf, FirstDownlink, LowKey,
        TargetWalk, HeadOf, HeadSoFar, AllIgnorable, PagePasses, CallOk, PageCan;
      next, segs := next0, segs0;
      HeadNotSkipped(idx, trueRootLevel, targets, next0);
      ghost var ts := PagesOf(idx, targets);
      ghost var es := Entries(ts);
      TargetsThere(idx, level, targets);
      EntriesFurther(idx, targets, targetBlock);
      if Ignorable(target) {
        if target.deleted || Rightmost(target) {
          return Corrupt, next, segs;
        }
        HeadSkips(idx, trueRootLevel, targets, next, targetBlock);
        WalkFurther(idx, level, targets, targetBlock);
        return Returned, next, segs;
      }
      if next == INVALID_BLOCK {
        var r := LeftmostIgnoringHalfDead(idx, targetBlock);
        if r != Ok(true) || (trueRootLevel && !target.root) {
          return Corrupt, next, segs;
        }
        next := if target.leaf then P_NONE else FirstDownlink(target);
        NothingYet(idx, trueRootLevel, targets);
        HeadFound(idx, trueRootLevel, targets, targetBlock);
      } else {
        HeadSkips(idx, trueRootLevel, targets, next, targetBlock);
      }
      if (target.prev != leftcurrent && leftcurrent != P_NONE) || level != target.level {
        return Corrupt, next, segs;
      }
      SaneInternal(target);
      if !target.leaf {
        RunShape(idx, heapKeySpace, level - 1, es, segs, fuel);
        PageCanIff(idx, heapKeySpace, target, lowKey, es, segs, fuel);
        out, segs := TargetPageCheck(fuel, es, segs);
        assert out == Returned <==> PageCan(idx, heapKeySpace, target, lowKey, es, fuel);
        if out != Returned {
          return;
        }
        FirstOfPage(target, LowKey(ts));
        FirstDownValid(idx, heapKeySpace, level - 1, es + PageEntries(target, LowKey(ts)), segs);
      }
      WalkFurther(idx, level, targets, targetBlock);
      HeadIsSoFar(idx, trueRootLevel, targets + [targetBlock], next);
      out := Returned;
    }

    /** The circular-link test, and the high key remembered as the next page's low key. */
    method LeaveTarget(leftcurrent: nat) returns (ok: bool)
      modifies this`lowKey
      ensures ok <==>
        && targetBlock != leftcurrent && targetBlock != target.prev
        && (!Rightmost(target) ==> ItemAt(target, P_HIKEY).Some?)
      ensures ok ==> lowKey == if Rightmost(target) then None else ItemAt(target, P_HIKEY)
    {
      if targetBlock == leftcurrent || targetBlock == target.prev {
        return false;
      }
      lowKey := None;
      if !Rightmost(target) {
        lowKey := ItemAt(target, P_HIKEY);
        if lowKey.None? {
          return false;
        }
      }
      return true;
    }

    /** bt_check_level_from_leftmost under a ShareLock: walk one target level from
        its leftmost block. `fuel` bounds every walk. */
    method CheckLevelFromLeftmost(leftmost: nat, level: nat, trueRootLevel: bool, fuel: nat)
      returns (out: Outcome, nextLeftmost: nat, ghost targets: seq<nat>, ghost segs: seq<seq<nat>>)
      requires leftmost != P_NONE && lowKey == None
      modifies this
      ensures out == Returned <==>
        exists ts :: LevelPasses(idx, heapKeySpace, trueRootLevel, level, leftmost, ts, fuel)
      ensures out == Returned ==> lowKey == None && targets != [] && targets[0] == leftmost
      ensures out == Returned ==> TargetWalk(idx, level, targets) && Rightmost(idx[targets[|targets| - 1]])
      ensures out == Returned ==> HeadOf(idx, trueRootLevel, targets, nextLeftmost)
      ensures out == Returned && level > 0 ==>
        LevelOk(idx, heapKeySpace, level - 1, Entries(PagesOf(idx, targets)), segs)
    {
      hide RunOk, LevelOk, Entries, LowKey, PrevLink, PrevSplit, Sane, PagesOf, TargetWalk, HeadOf, AllIgnorable,
        VisitPasses, AllPass, LevelPasses, HeadSoFar, Readable, ItemAt;
      var current, leftcurrent, left := leftmost, P_NONE, fuel;
      PassNothing(idx, heapKeySpace, trueRootLevel, level, fuel);
      ghost var can, goal := LevelGoal(idx, heapKeySpace, trueRootLevel, level, leftmost, fuel);
      nextLeftmost := INVALID_BLOCK;
      prevRightLink, prevIncompleteSplit := INVALID_BLOCK, false;
      targets, segs := [], [];
      LevelStart(idx, heapKeySpace, trueRootLevel, level);
      while true
        invariant current != P_NONE && (targets == [] ==> current == leftmost)
        invariant LevelSoFar(idx, heapKeySpace, trueRootLevel, level, targets, segs, nextLeftmost)
        invariant targets != [] ==>
          && targets[0] == leftmost && leftcurrent == targets[|targets| - 1] && idx[leftcurrent].next == current
        invariant leftcurrent == P_NONE <==> targets == []
        invariant lowKey == LowKey(PagesOf(idx, targets))
        invariant level > 0 ==>
          && prevRightLink == PrevLink(idx, Entries(PagesOf(idx, targets)))
          && prevIncompleteSplit == PrevSplit(idx, Entries(PagesOf(idx, targets)))
        invariant left == fuel - |targets| && (can ==> targets <= goal)
        invariant AllPass(idx, heapKeySpace, trueRootLevel, level, targets, fuel)
        decreases left
      {
        SoFarKnown(idx, heapKeySpace, trueRootLevel, level, targets, segs, nextLeftmost);
        if can { LevelGoalStep(idx, heapKeySpace, trueRootLevel, level, leftmost, goal, fuel, targets, current); }
        if left == 0 {
          return Unfinished, nextLeftmost, targets, segs;
        }
        left := left - 1;
        VisitReadable(idx, heapKeySpace, trueRootLevel, level, targets, current, fuel);
        if !Readable(idx, current) {
          return Corrupt, nextLeftmost, targets, segs;
        }
        ReadableThere(idx, current);
        targetBlock, target := current, idx[current];
        EntriesFurther(idx, targets, current);
        out, nextLeftmost, segs := VisitTarget(leftcurrent, level, trueRootLevel, nextLeftmost, fuel, targets, segs);
        if out != Returned {
          return;
        }
        var ok := LeaveTarget(leftcurrent);
        if !ok {
          return Corrupt, nextLeftmost, targets, segs;
        }
        PassFurther(idx, heapKeySpace, trueRootLevel, level, targets, current, fuel);
        targets := targets + [current];
        leftcurrent, current := current, target.next;
        if current == P_NONE {
          break;
        }
      }
      SoFarDone(idx, heapKeySpace, trueRootLevel, level, leftmost, targets, segs, nextLeftmost, fuel);
      lowKey := None;
      return Returned, nextLeftmost, targets, segs;
    }

    lemma {:induction false} CallAtEntry(offset: nat, es: seq<Entry>)
      requires 1 <= offset <= |target.items|
      requires prevRightLink == PrevLink(idx, es) && prevIncompleteSplit == PrevSplit(idx, es)
      ensures CallAt(offset) == CallFor(idx, es, EntryAt(target, lowKey, offset))
    {
    }
  }

  lemma {:induction false} VisitReadable(idx: Index, heapKeySpace: bool, trueRootLevel: bool, level: nat,
      targets: seq<nat>, blkno: nat, fuel: nat)
    ensures VisitPasses(idx, heapKeySpace, trueRootLevel, level, targets, blkno, fuel) ==> Readable(idx, blkno)
  {
  }

  lemma {:induction false} ReadableThere(idx: Index, blkno: nat)
    requires Readable(idx, blkno)
    ensures blkno in idx
  {
  }

  lemma {:induction false} SoFarKnown(idx: Index, heapKeySpace: bool, trueRootLevel: bool, level: nat,
      targets: seq<nat>, segs: seq<seq<nat>>, next: nat)
    requires LevelSoFar(idx, heapKeySpace, trueRootLevel, level, targets, segs, next)
    ensures (forall i | 0 <= i < |targets| :: targets[i] in idx) && AllSane(PagesOf(idx, targets))
  {
  }

  lemma {:induction false} SoFarDone(idx: Index, heapKeySpace: bool, trueRootLevel: bool, level: nat, leftmost: nat,
      targets: seq<nat>, segs: seq<seq<nat>>, next: nat, fuel: nat)
    requires LevelSoFar(idx, heapKeySpace, trueRootLevel, level, targets, segs, next) && next != INVALID_BLOCK
    requires targets != [] && targets[0] == leftmost && |targets| <= fuel
    requires targets[|targets| - 1] in idx && Rightmost(idx[targets[|targets| - 1]])
    requires AllPass(idx, heapKeySpace, trueRootLevel, level, targets, fuel)
    ensures LevelPasses(idx, heapKeySpace, trueRootLevel, level, leftmost, targets, fuel)
    ensures TargetWalk(idx, level, targets) && HeadOf(idx, trueRootLevel, targets, next)
    ensures AllSane(PagesOf(idx, targets))
    ensures level > 0 ==> LevelOk(idx, heapKeySpace, level - 1, Entries(PagesOf(idx, targets)), segs)
  {
    hide LevelOk, Entries, HeadOf, AllPass, Sane;
  }

  lemma {:induction false} LevelStart(idx: Index, heapKeySpace: bool, trueRootLevel: bool, level: nat)
    ensures LevelSoFar(idx, heapKeySpace, trueRootLevel, level, [], [], INVALID_BLOCK)
    ensures LowKey(PagesOf(idx, [])) == None && AllSane(PagesOf(idx, []))
    ensures PrevLink(idx, Entries(PagesOf(idx, []))) == INVALID_BLOCK && !PrevSplit(idx, Entries(PagesOf(idx, [])))
  {
    hide RunOk, LevelOk;
    WalkNothing(idx, level);
    RunNothing(idx, heapKeySpace, if level > 0 then level - 1 else 0);
  }

  lemma {:induction false} TargetsThere(idx: Index, level: nat, targets: seq<nat>)
    requires TargetWalk(idx, level, targets)
    ensures forall i | 0 <= i < |targets| :: targets[i] in idx && targets[i] != P_NONE
  {
    hide Sane;
  }

  lemma {:induction false} NothingYet(idx: Index, trueRootLevel: bool, targets: seq<nat>)
    requires HeadSoFar(idx, trueRootLevel, targets, INVALID_BLOCK)
    ensures AllIgnorable(idx, targets)
    ensures AllSane(PagesOf(idx, targets)) ==> Entries(PagesOf(idx, targets)) == []
  {
    hide Entries;
    if AllSane(PagesOf(idx, targets)) { SkippedEntries(idx, targets); }
  }

  lemma {:induction false} HeadIsSoFar(idx: Index, trueRootLevel: bool, targets: seq<nat>, next: nat)
    requires next != INVALID_BLOCK
    ensures HeadOf(idx, trueRootLevel, targets, next) <==> HeadSoFar(idx, trueRootLevel, targets, next)
  {
    hide HeadOf, AllIgnorable;
  }

  lemma {:induction false} WithinIsMay(idx: Index, rightSplit: bool, blkno: nat, fuel: nat)
    requires blkno in idx
    ensures MayLackWithin(idx, rightSplit, blkno, fuel) ==> MayLackDownlink(idx, rightSplit, blkno)
  {
  }

  lemma {:induction false} OutOfFuel(idx: Index, heapKeySpace: bool, level: nat, c: Call, seg: seq<nat>, fuel: nat)
    requires Underway(idx, heapKeySpace, level, c, seg) && (forall i | 0 <= i < |seg| :: seg[i] != c.down)
    requires Linked(idx, seg) && |seg| == fuel
    ensures NotWithin(idx, heapKeySpace, level, c, fuel)
  {
    hide Underway, Linked, StepOk, CallOk, StepsWithin;
    forall s | CallOk(idx, heapKeySpace, level, c, s)
      ensures !Within(idx, c, s, fuel)
    {
      MustGoOn(idx, heapKeySpace, level, c, seg, s);
    }
  }

  lemma {:induction false} NoWayOn(idx: Index, heapKeySpace: bool, level: nat, c: Call, seg: seq<nat>)
    requires Underway(idx, heapKeySpace, level, c, seg) && (forall i | 0 <= i < |seg| :: seg[i] != c.down)
    requires Linked(idx, seg)
    requires var blkno := Position(idx, c, seg);
      if blkno == P_NONE then c.down != P_NONE
      else !StepOk(idx, heapKeySpace, level, c, seg == [], SplitBefore(idx, c, seg, |seg|), blkno)
    ensures NeverReturns(idx, heapKeySpace, level, c) && forall fuel :: NotWithin(idx, heapKeySpace, level, c, fuel)
  {
    hide Underway, Linked, StepOk, CallOk;
    forall s | CallOk(idx, heapKeySpace, level, c, s)
      ensures false
    {
      MustGoOn(idx, heapKeySpace, level, c, seg, s);
    }
  }

  lemma {:induction false} StepTooFar(idx: Index, heapKeySpace: bool, level: nat, c: Call, seg: seq<nat>, fuel: nat)
    requires Underway(idx, heapKeySpace, level, c, seg) && (forall i | 0 <= i < |seg| :: seg[i] != c.down)
    requires Linked(idx, seg) && Position(idx, c, seg) != P_NONE
    requires var blkno, rightSplit := Position(idx, c, seg), SplitBefore(idx, c, seg, |seg|);
      || !StepOk(idx, heapKeySpace, level, c, seg == [], rightSplit, blkno)
      || !StepWithin(idx, c, rightSplit, blkno, fuel)
    ensures NotWithin(idx, heapKeySpace, level, c, fuel)
  {
    hide Underway, Linked, StepOk, CallOk, StepWithin;
    forall s | CallOk(idx, heapKeySpace, level, c, s)
      ensures !Within(idx, c, s, fuel)
    {
      MustGoOn(idx, heapKeySpace, level, c, seg, s);
    }
  }

  lemma {:induction false} ReachedEnd(idx: Index, heapKeySpace: bool, level: nat, c: Call, seg: seq<nat>, fuel: nat)
    requires Underway(idx, heapKeySpace, level, c, seg) && (forall i | 0 <= i < |seg| :: seg[i] != c.down)
    requires Linked(idx, seg) && c.down == P_NONE == Position(idx, c, seg)
    requires StepsWithin(idx, c, seg, fuel) && |seg| < fuel
    ensures CallOk(idx, heapKeySpace, level, c, seg) && Within(idx, c, seg, fuel)
  {
    hide Underway, Linked, StepsWithin;
  }

  lemma {:induction false} ReachedDown(idx: Index, heapKeySpace: bool, level: nat, c: Call, seg: seq<nat>, fuel: nat)
    requires Underway(idx, heapKeySpace, level, c, seg) && (forall i | 0 <= i < |seg| - 1 :: seg[i] != c.down)
    requires c.down != P_NONE && seg != [] && seg[|seg| - 1] == c.down
    requires StepsWithin(idx, c, seg, fuel) && |seg| <= fuel
    ensures CallOk(idx, heapKeySpace, level, c, seg) && Within(idx, c, seg, fuel)
  {
    hide Underway, StepsWithin;
  }

  lemma {:induction false} RunShape(idx: Index, heapKeySpace: bool, level: nat, es: seq<Entry>, segs: seq<seq<nat>>,
      fuel: nat)
    requires RunOk(idx, heapKeySpace, level, es, segs)
    ensures |segs| == |es| && RunWithin(idx, es, segs, |es|, fuel)
  {
  }

  /** The calls from number `from` on stay within `fuel`. */
  ghost predicate RunWithin(idx: Index, es: seq<Entry>, segs: seq<seq<nat>>, from: nat, fuel: nat)
  {
    |segs| == |es| && forall j | from <= j < |es| :: Within(idx, CallFor(idx, es[..j], es[j]), segs[j], fuel)
  }

  lemma {:induction false} WithinStep(idx: Index, es: seq<Entry>, segs: seq<seq<nat>>, e: Entry, seg: seq<nat>,
      from: nat, fuel: nat)
    requires RunWithin(idx, es, segs, from, fuel) && Within(idx, CallFor(idx, es, e), seg, fuel)
    ensures RunWithin(idx, es + [e], segs + [seg], from, fuel)
  {
    hide Within, CallFor;
    var es1 := es + [e];
    forall j | from <= j < |es1|
      ensures Within(idx, CallFor(idx, es1[..j], es1[j]), (segs + [seg])[j], fuel)
    {
      assert es1[..j] == es[..j];
      if j == |es| { assert es[..j] == es; }
    }
  }

  /** One more downlink of page `t` has passed. */
  lemma {:induction false} Advance(idx: Index, heapKeySpace: bool, t: Page, low: Option<Tuple>, es0: seq<Entry>,
      es: seq<Entry>, segs: seq<seq<nat>>, offset: nat, seg: seq<nat>, fuel: nat)
    requires FirstDataKey(t) <= offset <= |t.items| && t.level > 0 && es == es0 + EntriesBelow(t, low, offset)
    requires RunOk(idx, heapKeySpace, t.level - 1, es, segs) && RunWithin(idx, es, segs, |es0|, fuel)
    requires CallPasses(idx, heapKeySpace, t.level - 1, CallFor(idx, es, EntryAt(t, low, offset)), seg, fuel)
    requires LiveBelow(idx, t, offset - 1)
    requires offset > FirstDataKey(t) ==> LiveChild(idx, t.items[offset - 1].block)
    ensures var e := EntryAt(t, low, offset); var down := t.items[offset - 1].block;
            && es + [e] == es0 + EntriesBelow(t, low, offset + 1)
            && RunOk(idx, heapKeySpace, t.level - 1, es + [e], segs + [seg])
            && RunWithin(idx, es + [e], segs + [seg], |es0|, fuel)
            && PrevLink(idx, es + [e]) == (if down !in idx || down == P_NONE then INVALID_BLOCK else idx[down].next)
            && PrevSplit(idx, es + [e]) == (down in idx && down != P_NONE && idx[down].incompleteSplit)
    ensures LiveBelow(idx, t, offset)
  {
    hide RunOk, RunWithin, CallOk, Within, CallFor, EntryAt, EntriesBelow, LiveBelow, LiveChild, PrevLink, PrevSplit;
    var e := EntryAt(t, low, offset);
    RunStep(idx, heapKeySpace, t.level - 1, es, segs, e, seg);
    WithinStep(idx, es, segs, e, seg, |es0|, fuel);
    AfterEntry(idx, es, e);
    EntriesStep(t, low, offset);
    assert es + [e] == es0 + EntriesBelow(t, low, offset + 1);
    LiveStep(idx, t, offset);
  }

  lemma {:induction false} PassesLast(idx: Index, heapKeySpace: bool, level: nat, c: Call, seg: seq<nat>, fuel: nat)
    requires CallOk(idx, heapKeySpace, level, c, seg) && Within(idx, c, seg, fuel)
    ensures CallPasses(idx, heapKeySpace, level, c, seg, fuel)
  {
  }

  /** Whether the page can pass, and how. */
  ghost method Goal(idx: Index, heapKeySpace: bool, t: Page, low: Option<Tuple>, es0: seq<Entry>, segs0: seq<seq<nat>>,
      fuel: nat) returns (can: bool, goal: seq<seq<nat>>)
    requires Sane(t) && !t.leaf && !Ignorable(t) && |segs0| == |es0|
    ensures can <==> exists p :: PagePasses(idx, heapKeySpace, t, low, es0, segs0, p, fuel)
    ensures can ==> PagePasses(idx, heapKeySpace, t, low, es0, segs0, goal, fuel) && segs0 <= goal
  {
    can, goal := exists p :: PagePasses(idx, heapKeySpace, t, low, es0, segs0, p, fuel), [];
    if can {
      goal :| PagePasses(idx, heapKeySpace, t, low, es0, segs0, goal, fuel);
    }
  }

  /** A page that can pass makes the call for the downlink at `offset` return, in
      the only possible way. */
  lemma {:induction false} GoalStep(idx: Index, heapKeySpace: bool, t: Page, low: Option<Tuple>,
      es0: seq<Entry>, segs0: seq<seq<nat>>, goal: seq<seq<nat>>, fuel: nat, offset: nat, returned: bool, seg: seq<nat>)
    requires Sane(t) && !t.leaf && !Ignorable(t) && |segs0| == |es0| && FirstDataKey(t) <= offset <= |t.items|
    requires PagePasses(idx, heapKeySpace, t, low, es0, segs0, goal, fuel)
    requires var c := CallFor(idx, es0 + EntriesBelow(t, low, offset), EntryAt(t, low, offset));
      && (returned ==> CallPasses(idx, heapKeySpace, t.level - 1, c, seg, fuel))
      && (!returned ==>
            || NotWithin(idx, heapKeySpace, t.level - 1, c, fuel)
            || (offset > FirstDataKey(t) && !LiveChild(idx, t.items[offset - 1].block)))
    ensures returned && |es0 + EntriesBelow(t, low, offset)| < |goal|
    ensures goal[|es0 + EntriesBelow(t, low, offset)|] == seg
  {
    hide CallOk, Within, EntriesBelow, EntryAt, CallFor, Sane;
    SaneItems(t);
    PassingCall(idx, heapKeySpace, t, low, es0, segs0, goal, fuel, offset);
    var es := es0 + EntriesBelow(t, low, offset);
    if returned {
      OneWay(idx, heapKeySpace, t.level - 1, CallFor(idx, es, EntryAt(t, low, offset)), seg, goal[|es|]);
    }
  }

  lemma {:induction false} GoalEnd(idx: Index, heapKeySpace: bool, t: Page, low: Option<Tuple>,
      es0: seq<Entry>, segs0: seq<seq<nat>>, goal: seq<seq<nat>>, fuel: nat, returned: bool)
    requires Sane(t) && !t.leaf && !Ignorable(t) && |segs0| == |es0| && Rightmost(t)
    requires PagePasses(idx, heapKeySpace, t, low, es0, segs0, goal, fuel) && FirstDataKey(t) <= |t.items| + 1
    requires !returned ==>
      NotWithin(idx, heapKeySpace, t.level - 1, LastCall(idx, es0 + EntriesBelow(t, low, |t.items| + 1)), fuel)
    ensures returned
  {
    hide CallOk, Within, EntriesBelow, CallFor, ChildrenLive, LastCall, Sane;
  }

  lemma {:induction false} LiveStart(idx: Index, t: Page)
    ensures LiveBelow(idx, t, FirstDataKey(t) - 1)
  {
  }

  lemma {:induction false} LiveStep(idx: Index, t: Page, offset: nat)
    requires FirstDataKey(t) <= offset <= |t.items| && LiveBelow(idx, t, offset - 1)
    requires offset > FirstDataKey(t) ==> LiveChild(idx, t.items[offset - 1].block)
    ensures LiveBelow(idx, t, offset)
  {
    hide LiveChild;
  }

  lemma {:induction false} LiveAll(idx: Index, t: Page, n: nat)
    requires LiveBelow(idx, t, n) && n >= |t.items|
    ensures ChildrenLive(idx, t)
  {
    hide LiveChild;
  }

  lemma {:induction false} PassesBy(idx: Index, heapKeySpace: bool, t: Page, low: Option<Tuple>,
      es0: seq<Entry>, segs0: seq<seq<nat>>, es: seq<Entry>, segs: seq<seq<nat>>, last: seq<seq<nat>>, fuel: nat)
    requires Sane(t) && !t.leaf && !Ignorable(t) && |segs0| == |es0| && FirstDataKey(t) <= |t.items| + 1
    requires es == es0 + EntriesBelow(t, low, |t.items| + 1) && segs0 <= segs
    requires RunOk(idx, heapKeySpace, t.level - 1, es, segs) && RunWithin(idx, es, segs, |es0|, fuel)
    requires ChildrenLive(idx, t) && |last| == (if Rightmost(t) then 1 else 0)
    requires Rightmost(t) ==> CallPasses(idx, heapKeySpace, t.level - 1, LastCall(idx, es), last[0], fuel)
    ensures PagePasses(idx, heapKeySpace, t, low, es0, segs0, segs + last, fuel)
  {
    hide CallOk, Within, EntriesBelow, CallFor, LastCall, ChildrenLive, Sane;
    SaneItems(t);
    var p := segs + last;
    assert PageEntries(t, low) == EntriesBelow(t, low, |t.items| + 1);
    assert p[|es|..] == last;
    forall j | |es0| <= j < |es|
      ensures CallPasses(idx, heapKeySpace, t.level - 1, CallFor(idx, es[..j], es[j]), p[j], fuel)
    {
      assert p[j] == segs[j];
    }
  }

  lemma {:induction false} EntriesStart(t: Page, low: Option<Tuple>)
    requires FirstDataKey(t) <= |t.items| + 1
    ensures EntriesBelow(t, low, FirstDataKey(t)) == []
  {
  }

  lemma {:induction false} EntriesStep(t: Page, low: Option<Tuple>, offset: nat)
    requires FirstDataKey(t) <= offset <= |t.items|
    ensures EntriesBelow(t, low, offset + 1) == EntriesBelow(t, low, offset) + [EntryAt(t, low, offset)]
    ensures EntryAt(t, low, offset).down == t.items[offset - 1].block
  {
  }

  lemma {:induction false} AfterEntry(idx: Index, es: seq<Entry>, e: Entry)
    ensures PrevLink(idx, es + [e]) == if e.down !in idx || e.down == P_NONE then INVALID_BLOCK else idx[e.down].next
    ensures PrevSplit(idx, es + [e]) == (e.down in idx && e.down != P_NONE && idx[e.down].incompleteSplit)
  {
  }
}
