/** Where a bloom index keeps track of free space: which blocks vacuum lists as not
    full, which blocks cleanup records as free, and how inserts use the list, over
    every run. */
module BloomSpace {
  import opened Bytes
  import opened BloomSign
  import opened BloomPage
  import opened BloomIndex
  import opened BloomTheorems

  // ---------- the list vacuum makes ----------

  /** Block `b` holds a tuple and has space for another one. */
  ghost predicate RoomLeft(o: Options, s: State, b: nat)
  {
    && IsData(s.pages, b) && s.pages[b - 1].LivePage? && |s.pages[b - 1].tuples| > 0
    && FreeSpace(o, |s.pages[b - 1].tuples|) >= TupleSize(o)
  }

  /** Step `l` of the run is the visit of vacuum `pid` to block `b`. */
  ghost predicate VisitAt(states: seq<State>, steps: seq<Step>, l: nat, pid: nat, b: nat)
  {
    && l < |steps| && l < |states| && steps[l] == VacuumPage(pid)
    && pid in states[l].procs && states[l].procs[pid].Vacuum? && states[l].procs[pid].blk == b
  }

  /** That visit found space on the block, once done with it, and in the list. */
  ghost predicate ListsAt(o: Options, states: seq<State>, steps: seq<Step>, l: nat, pid: nat, b: nat)
  {
    && VisitAt(states, steps, l, pid, b) && l + 1 < |states| && RoomLeft(o, states[l + 1], b)
    && |states[l].procs[pid].list| < META_BLOCK_N
  }

  predicate Increasing(s: seq<nat>) { forall i, j | 0 <= i < j < |s| :: s[i] < s[j] }

  ghost predicate Visited(states: seq<State>, steps: seq<Step>, k: nat, pid: nat, b: nat)
  {
    exists l :: 0 <= l < k && VisitAt(states, steps, l, pid, b)
  }

  ghost predicate Listed(o: Options, states: seq<State>, steps: seq<Step>, k: nat, pid: nat, b: nat)
  {
    exists l :: 0 <= l < k && ListsAt(o, states, steps, l, pid, b)
  }

  /** The list of vacuum `pid` in state `k`: in block order, exactly the blocks it has
      passed and found space on while the list was not full. */
  ghost predicate ListExact(o: Options, states: seq<State>, steps: seq<Step>, k: nat, pid: nat)
    requires k < |states|
  {
    && pid in states[k].procs && states[k].procs[pid].Vacuum?
    && var p := states[k].procs[pid];
    && Increasing(p.list) && (forall b | b in p.list :: b < p.blk)
    && (forall b: nat :: Visited(states, steps, k, pid, b) <==> 1 <= b < p.blk)
    && (forall b: nat :: b in p.list <==> Listed(o, states, steps, k, pid, b))
  }

  lemma {:induction false} VisitedStep(states: seq<State>, steps: seq<Step>, k: nat, pid: nat, b: nat)
    requires k > 0
    ensures Visited(states, steps, k, pid, b) <==>
      Visited(states, steps, k - 1, pid, b) || VisitAt(states, steps, k - 1, pid, b)
  {
    hide VisitAt;
    if l :| 0 <= l < k - 1 && VisitAt(states, steps, l, pid, b) {
      assert Visited(states, steps, k, pid, b);
    }
    if VisitAt(states, steps, k - 1, pid, b) { assert Visited(states, steps, k, pid, b); }
  }

  lemma {:induction false} ListedStep(o: Options, states: seq<State>, steps: seq<Step>, k: nat, pid: nat, b: nat)
    requires k > 0
    ensures Listed(o, states, steps, k, pid, b) <==>
      Listed(o, states, steps, k - 1, pid, b) || ListsAt(o, states, steps, k - 1, pid, b)
  {
    hide ListsAt;
    if l :| 0 <= l < k - 1 && ListsAt(o, states, steps, l, pid, b) {
      assert Listed(o, states, steps, k, pid, b);
    }
    if ListsAt(o, states, steps, k - 1, pid, b) { assert Listed(o, states, steps, k, pid, b); }
  }

  /** A page is listed exactly when it is left with a tuple and with space. */
  lemma {:induction false} ListedIsRoom(o: Options, p: Page, dead: Tid -> bool)
    ensures ListedNotFull(o, p, dead) <==>
      var q := Vacuumed(p, dead);
      q.LivePage? && |q.tuples| > 0 && FreeSpace(o, |q.tuples|) >= TupleSize(o)
  {
    hide Kept, FreeSpace;
    VacuumedTuples(p, dead);
  }

  lemma {:induction false} IncreasingAppend(s: seq<nat>, b: nat)
    requires Increasing(s) && forall x | x in s :: x < b
    ensures Increasing(s + [b])
  {
    assert forall i | 0 <= i < |s| :: s[i] in s;
  }

  /** What the vacuum's own step does to its list. */
  lemma {:induction false} OwnListStep(o: Options, s: State, s': State, pid: nat)
    requires Next(o, s, s', VacuumPage(pid))
    ensures pid in s.procs && s.procs[pid].Vacuum? && pid in s'.procs && s'.procs[pid].Vacuum?
    ensures var p, q := s.procs[pid], s'.procs[pid];
            && p.blk >= 1 && q.blk == p.blk + 1
            && q.list == (if RoomLeft(o, s', p.blk) && |p.list| < META_BLOCK_N then p.list + [p.blk] else p.list)
  {
    hide Kept, Vacuumed, ListedNotFull, FreeSpace;
    var p := s.procs[pid];
    ListedIsRoom(o, s.pages[p.blk - 1], IsDead(p.dead));
    assert s'.pages[p.blk - 1] == Vacuumed(s.pages[p.blk - 1], IsDead(p.dead));
  }

  lemma {:induction false} ListGoesOn(o: Options, states: seq<State>, steps: seq<Step>, k: nat, pid: nat)
    requires 0 < k < |states| && k - 1 < |steps| && steps[k - 1] == VacuumPage(pid)
    requires Next(o, states[k - 1], states[k], steps[k - 1]) && ListExact(o, states, steps, k - 1, pid)
    ensures ListExact(o, states, steps, k, pid)
  {
    hide Next, RoomLeft, Visited, Listed;
    OwnListStep(o, states[k - 1], states[k], pid);
    var p, q := states[k - 1].procs[pid], states[k].procs[pid];
    IncreasingAppend(p.list, p.blk);
    forall b: nat
      ensures Visited(states, steps, k, pid, b) <==> 1 <= b < q.blk
      ensures b in q.list <==> Listed(o, states, steps, k, pid, b)
    {
      VisitedStep(states, steps, k, pid, b);
      ListedStep(o, states, steps, k, pid, b);
    }
  }

  lemma {:induction false} ListStays(o: Options, states: seq<State>, steps: seq<Step>, k: nat, pid: nat)
    requires 0 < k < |states| && k - 1 < |steps| && steps[k - 1].pid != pid
    requires Next(o, states[k - 1], states[k], steps[k - 1]) && ListExact(o, states, steps, k - 1, pid)
    ensures ListExact(o, states, steps, k, pid)
  {
    hide Next, RoomLeft, Visited, Listed;
    OtherProcess(o, states[k - 1], states[k], steps[k - 1], pid);
    forall b: nat
      ensures Visited(states, steps, k, pid, b) <==> Visited(states, steps, k - 1, pid, b)
      ensures Listed(o, states, steps, k, pid, b) <==> Listed(o, states, steps, k - 1, pid, b)
    {
      VisitedStep(states, steps, k, pid, b);
      ListedStep(o, states, steps, k, pid, b);
    }
  }

  /** A process that is not there now never was. */
  lemma {:induction false} NotYet(o: Options, states: seq<State>, steps: seq<Step>, l: nat, k: nat, pid: nat)
    requires Run(o, states, steps) && l <= k <= |steps| && pid !in states[k].procs
    ensures pid !in states[l].procs
    decreases k - l
  {
    hide Next, Init;
    if l < k {
      StaysThere(o, states[k - 1], states[k], steps[k - 1], pid);
      NotYet(o, states, steps, l, k - 1, pid);
    }
  }

  lemma {:induction false} StaysThere(o: Options, s: State, s': State, step: Step, pid: nat)
    requires Next(o, s, s', step)
    ensures pid in s.procs ==> pid in s'.procs
  {
    hide TryAdd, Kept, Vacuumed, FreeSpace, ListedNotFull, Matches, Covers;
  }

  lemma {:induction false} ListBegins(o: Options, states: seq<State>, steps: seq<Step>, k: nat, pid: nat)
    requires Run(o, states, steps) && 0 < k <= |steps|
    requires steps[k - 1].Begin? && steps[k - 1].pid == pid && steps[k - 1].p.Vacuum?
    ensures ListExact(o, states, steps, k, pid)
  {
    hide Visited, Listed, Init;
    assert Next(o, states[k - 1], states[k], steps[k - 1]);
    var p := states[k].procs[pid];
    assert p.blk == 1 && p.list == [];
    forall b: nat
      ensures Visited(states, steps, k, pid, b) <==> 1 <= b < p.blk
      ensures b in p.list <==> Listed(o, states, steps, k, pid, b)
    {
      NothingVisited(o, states, steps, k - 1, pid, b);
    }
  }

  lemma {:induction false} NothingVisited(o: Options, states: seq<State>, steps: seq<Step>, k: nat, pid: nat, b: nat)
    requires Run(o, states, steps) && k < |steps| && steps[k].Begin? && steps[k].pid == pid
    ensures !Visited(states, steps, k + 1, pid, b) && !Listed(o, states, steps, k + 1, pid, b)
  {
    hide Init, RoomLeft;
    forall l: nat | l <= k
      ensures !VisitAt(states, steps, l, pid, b)
    {
      BeginIsNew(o, states, steps, k, pid);
      NotYet(o, states, steps, l, k, pid);
    }
  }

  lemma {:induction false} BeginIsNew(o: Options, states: seq<State>, steps: seq<Step>, k: nat, pid: nat)
    requires Run(o, states, steps) && k < |steps| && steps[k].Begin? && steps[k].pid == pid
    ensures pid !in states[k].procs
  {
    assert Next(o, states[k], states[k + 1], steps[k]);
  }

  /** Which steps of its own leave a process a vacuum under way. */
  lemma {:induction false} OwnVacuumSteps(o: Options, s: State, s': State, step: Step)
    requires Next(o, s, s', step) && step.pid in s'.procs && s'.procs[step.pid].Vacuum?
    ensures (step.Begin? && step.p.Vacuum?) || (step.VacuumPage? && step.pid in s.procs && s.procs[step.pid].Vacuum?)
  {
    hide TryAdd, Kept, Vacuumed, FreeSpace, ListedNotFull, Matches, Covers;
  }

  /** In every state of every run the list of a vacuum under way is in block order
      and has exactly the blocks that the vacuum has passed and left with a tuple and
      with space for another, while the list was not full. */
  lemma {:induction false} VacuumList(o: Options, states: seq<State>, steps: seq<Step>, k: nat, pid: nat)
    requires Run(o, states, steps) && k <= |steps| && pid in states[k].procs && states[k].procs[pid].Vacuum?
    ensures ListExact(o, states, steps, k, pid)
  {
    hide Next, ListExact;
    if k > 0 {
      var step := steps[k - 1];
      if step.pid != pid {
        OtherProcess(o, states[k - 1], states[k], step, pid);
        VacuumList(o, states, steps, k - 1, pid);
        ListStays(o, states, steps, k, pid);
      } else {
        OwnVacuumSteps(o, states[k - 1], states[k], step);
        if step.Begin? {
          ListBegins(o, states, steps, k, pid);
        } else {
          VacuumList(o, states, steps, k - 1, pid);
          ListGoesOn(o, states, steps, k, pid);
        }
      }
    }
  }

  /** A vacuum that finishes publishes exactly its list. */
  lemma {:induction false} VacuumPublishes(o: Options, s: State, s': State, pid: nat)
    requires Next(o, s, s', FinishVacuum(pid))
    ensures pid in s.procs && s.procs[pid].Vacuum?
    ensures s'.nStart <= s'.nEnd <= |s'.notFull| && s'.notFull[s'.nStart..s'.nEnd] == s.procs[pid].list
    ensures s.procs[pid].blk >= s.procs[pid].npages
  {
    var list := s.procs[pid].list;
    assert (list + s.notFull[|list|..])[0..|list|] == list;
  }

  // ---------- the blocks cleanup records ----------

  predicate TakesBuffer(step: Step) { step.Allocate? || step.Feed? || step.FinishBuild? }

  /** A block gets into the free space map only when a cleanup finds it new or deleted. */
  lemma {:induction false} FsmArrives(o: Options, s: State, s': State, step: Step, b: nat)
    requires Next(o, s, s', step) && b !in s.fsm && b in s'.fsm
    ensures step.CleanupPage? && step.pid in s.procs && s.procs[step.pid].Cleanup? && s.procs[step.pid].blk == b
    ensures IsData(s.pages, b) && !s.pages[b - 1].LivePage?
  {
    hide TryAdd, Kept, Vacuumed, FreeSpace, ListedNotFull, Matches, Covers;
  }

  /** It leaves the map only when a process asks for a free block. */
  lemma {:induction false} FsmLeaves(o: Options, s: State, s': State, step: Step, b: nat)
    requires Next(o, s, s', step) && b in s.fsm && b !in s'.fsm
    ensures TakesBuffer(step)
  {
    hide TryAdd, Kept, Vacuumed, FreeSpace, ListedNotFull, Matches, Covers;
  }

  /** A block handed out of the map is not in it any more, and was not in use. */
  lemma {:induction false} GrantedWasFree(s: State, nb: NewBuffer)
    requires Grants(s, nb) && nb.added == 0
    ensures nb.blk in s.fsm && nb.blk !in nb.fsm && IsData(s.pages, nb.blk) && !s.pages[nb.blk - 1].LivePage?
  {
  }

  /** Cleanup `pid` visits block `b` at step `l`. */
  ghost predicate CleansAt(states: seq<State>, steps: seq<Step>, l: nat, pid: nat, b: nat)
  {
    && l < |steps| && l < |states| && steps[l] == CleanupPage(pid)
    && pid in states[l].procs && states[l].procs[pid].Cleanup? && states[l].procs[pid].blk == b
  }

  /** Between states `i` and `k` a process asked for a free block and `b` left the map. */
  ghost predicate TakenBetween(states: seq<State>, steps: seq<Step>, i: nat, k: nat, b: nat)
  {
    exists l :: i <= l < k && l < |steps| && l + 1 < |states| && TakesBuffer(steps[l]) && b !in states[l + 1].fsm
  }

  lemma {:induction false} CleanupRecords(o: Options, s: State, s': State, pid: nat)
    requires Next(o, s, s', CleanupPage(pid))
    ensures pid in s.procs && s.procs[pid].Cleanup? && IsData(s.pages, s.procs[pid].blk)
    ensures !s.pages[s.procs[pid].blk - 1].LivePage? ==> s.procs[pid].blk in s'.fsm
    ensures pid in s'.procs && s'.procs[pid] == Cleanup(s.procs[pid].npages, s.procs[pid].blk + 1)
  {
  }

  /** How far a cleanup that began at `npages` blocks has come with block `b`. */
  ghost predicate CleanupProgress(states: seq<State>, steps: seq<Step>, k: nat, pid: nat, npages: nat, b: nat)
    requires k < |states|
  {
    && pid in states[k].procs
    && match states[k].procs[pid]
       case Cleanup(np, blk) => np == npages && (b < blk ==> Cleaned(states, steps, k, pid, b))
       case CleanupDone => Cleaned(states, steps, k, pid, b)
       case _ => false
  }

  /** The cleanup has visited block `b`; if the block was not in use then, it is in
      the map, unless taken out of it since. */
  ghost predicate Cleaned(states: seq<State>, steps: seq<Step>, k: nat, pid: nat, b: nat)
    requires k < |states|
  {
    exists l :: 0 <= l < k && CleansAt(states, steps, l, pid, b) && IsData(states[l].pages, b) &&
      (!states[l].pages[b - 1].LivePage? ==> b in states[k].fsm || TakenBetween(states, steps, l + 1, k, b))
  }

  lemma {:induction false} CleanedStays(o: Options, states: seq<State>, steps: seq<Step>, k: nat, pid: nat, b: nat)
    requires Run(o, states, steps) && 0 < k <= |steps| && Cleaned(states, steps, k - 1, pid, b)
    ensures Cleaned(states, steps, k, pid, b)
  {
    hide Next, Init, CleansAt, TakesBuffer;
    var l :| 0 <= l < k - 1 && CleansAt(states, steps, l, pid, b) && IsData(states[l].pages, b) &&
      (!states[l].pages[b - 1].LivePage? ==> b in states[k - 1].fsm || TakenBetween(states, steps, l + 1, k - 1, b));
    if b in states[k - 1].fsm && b !in states[k].fsm {
      FsmLeaves(o, states[k - 1], states[k], steps[k - 1], b);
      assert TakenBetween(states, steps, l + 1, k, b);
    }
    if TakenBetween(states, steps, l + 1, k - 1, b) {
      var j :| l + 1 <= j < k - 1 && j < |steps| && j + 1 < |states| &&
        TakesBuffer(steps[j]) && b !in states[j + 1].fsm;
      assert TakenBetween(states, steps, l + 1, k, b);
    }
  }

  lemma {:induction false} OwnCleanupStep(o: Options, s: State, s': State, step: Step)
    requires Next(o, s, s', step) && step.pid in s.procs
    requires s.procs[step.pid].Cleanup? || s.procs[step.pid].CleanupDone?
    ensures step.CleanupPage? || step.FinishCleanup?
    ensures step.FinishCleanup? ==>
      && s.procs[step.pid].Cleanup? && s.procs[step.pid].blk >= s.procs[step.pid].npages
      && step.pid in s'.procs && s'.procs[step.pid] == CleanupDone && s'.fsm == s.fsm
  {
    hide TryAdd, Kept, Vacuumed, FreeSpace, ListedNotFull, Matches, Covers;
  }

  lemma {:induction false} CleanupGoesOn(o: Options, states: seq<State>, steps: seq<Step>, k: nat, pid: nat,
      npages: nat, b: nat)
    requires Run(o, states, steps) && 0 < k <= |steps| && b < npages
    requires CleanupProgress(states, steps, k - 1, pid, npages, b)
    ensures CleanupProgress(states, steps, k, pid, npages, b)
  {
    hide Next, Init, Cleaned;
    var s, s', step := states[k - 1], states[k], steps[k - 1];
    if Cleaned(states, steps, k - 1, pid, b) { CleanedStays(o, states, steps, k, pid, b); }
    if step.pid != pid {
      OtherProcess(o, s, s', step, pid);
    } else {
      OwnCleanupStep(o, s, s', step);
      if step.CleanupPage? {
        CleanupRecords(o, s, s', pid);
        if s.procs[pid].blk == b { CleanedNow(o, states, steps, k, pid, b); }
      }
    }
  }

  lemma {:induction false} CleanedNow(o: Options, states: seq<State>, steps: seq<Step>, k: nat, pid: nat, b: nat)
    requires Run(o, states, steps) && 0 < k <= |steps| && steps[k - 1] == CleanupPage(pid)
    requires pid in states[k - 1].procs && states[k - 1].procs[pid].Cleanup? && states[k - 1].procs[pid].blk == b
    ensures Cleaned(states, steps, k, pid, b)
  {
    hide Next, Init;
    CleanupRecords(o, states[k - 1], states[k], pid);
    assert CleansAt(states, steps, k - 1, pid, b);
  }

  /** Once a cleanup is past a block that existed when it began, the block was visited
      and, if it was new or deleted then, is in the map unless taken out since. */
  lemma {:induction false} CleanupComplete(o: Options, states: seq<State>, steps: seq<Step>, i: nat, k: nat, pid: nat,
      b: nat)
    requires Run(o, states, steps) && i < k <= |steps|
    requires steps[i].Begin? && steps[i].pid == pid && steps[i].p.Cleanup?
    requires 0 < b < NumBlocks(states[i])
    ensures CleanupProgress(states, steps, k, pid, NumBlocks(states[i]), b)
    decreases k
  {
    hide Next, CleanupProgress, Init;
    if k == i + 1 {
      CleanupBegins(o, states, steps, i, pid, b);
    } else {
      CleanupComplete(o, states, steps, i, k - 1, pid, b);
      CleanupGoesOn(o, states, steps, k, pid, NumBlocks(states[i]), b);
    }
  }

  lemma {:induction false} CleanupBegins(o: Options, states: seq<State>, steps: seq<Step>, i: nat, pid: nat, b: nat)
    requires Run(o, states, steps) && i < |steps| && b > 0
    requires steps[i].Begin? && steps[i].pid == pid && steps[i].p.Cleanup?
    ensures CleanupProgress(states, steps, i + 1, pid, NumBlocks(states[i]), b)
  {
    hide Init, Cleaned;
  }

  // ---------- how inserts use the list ----------

  /** At step `l` insert `pid` tried block `b`, which had no space for a tuple. */
  ghost predicate TriedAt(o: Options, states: seq<State>, steps: seq<Step>, l: nat, pid: nat, b: nat)
  {
    && l < |steps| && l < |states| && steps[l].pid == pid && pid in states[l].procs
    && var s := states[l];
    && ((steps[l].TryListed? && s.procs[pid].InsertTry? && s.procs[pid].blk == b)
        || (&& steps[l].TryNext? && s.procs[pid].InsertLoop?
            && s.procs[pid].n < |s.notFull| && s.notFull[s.procs[pid].n] == b))
    && IsData(s.pages, b) && FreeSpace(o, |TuplesOf(s.pages[b - 1])|) < TupleSize(o)
  }

  ghost predicate Tried(o: Options, states: seq<State>, steps: seq<Step>, k: nat, pid: nat, b: nat)
  {
    exists l :: 0 <= l < k && TriedAt(o, states, steps, l, pid, b)
  }

  lemma {:induction false} TriedStays(o: Options, states: seq<State>, steps: seq<Step>, k: nat, pid: nat, b: nat)
    requires k > 0 && (Tried(o, states, steps, k - 1, pid, b) || TriedAt(o, states, steps, k - 1, pid, b))
    ensures Tried(o, states, steps, k, pid, b)
  {
    hide TriedAt;
    if !TriedAt(o, states, steps, k - 1, pid, b) {
      var l :| 0 <= l < k - 1 && TriedAt(o, states, steps, l, pid, b);
    }
  }

  /** The listed pages `from .. to - 1` of state `k` have been tried by insert `pid`. */
  ghost predicate AllTried(o: Options, states: seq<State>, steps: seq<Step>, k: nat, pid: nat, from: nat, to: nat)
    requires k < |states|
  {
    forall m | from <= m < to :: m < |states[k].notFull| && Tried(o, states, steps, k, pid, states[k].notFull[m])
  }

  /** What an insert that looks for a page has tried so far. */
  ghost predicate Search(o: Options, states: seq<State>, steps: seq<Step>, k: nat, pid: nat)
    requires k < |states|
  {
    pid in states[k].procs ==>
      match states[k].procs[pid]
      case InsertMeta(_, tried) => tried.Some? ==> Tried(o, states, steps, k, pid, tried.value)
      case InsertLoop(_, n) => AllTried(o, states, steps, k, pid, states[k].nStart, n)
      case _ => true
  }

  /** While an insert holds the metapage lock no other process changes the list. */
  lemma {:induction false} LockHolds(o: Options, s: State, s': State, step: Step, pid: nat)
    requires Inv(o, s) && Next(o, s, s', step) && step.pid != pid && s.metaLock == Some(pid)
    ensures s'.nStart == s.nStart && s'.nEnd == s.nEnd && s'.notFull == s.notFull
  {
    hide TryAdd, Kept, Vacuumed, FreeSpace, ListedNotFull, Matches, Covers, MetaOk, PagesOk;
    if step.pid in s.procs { OneProc(o, s, step.pid); }
  }

  lemma {:induction false} HolderKnown(o: Options, s: State, pid: nat)
    requires Inv(o, s) && pid in s.procs && s.procs[pid].InsertLoop?
    ensures s.metaLock == Some(pid) && s.nStart <= s.procs[pid].n <= s.nEnd <= |s.notFull|
  {
    hide PagesOk;
    OneProc(o, s, pid);
  }

  lemma {:induction false} SearchUndisturbed(o: Options, states: seq<State>, steps: seq<Step>, k: nat, pid: nat)
    requires 0 < k < |states| && k - 1 < |steps| && steps[k - 1].pid != pid && Inv(o, states[k - 1])
    requires Next(o, states[k - 1], states[k], steps[k - 1]) && Search(o, states, steps, k - 1, pid)
    ensures Search(o, states, steps, k, pid)
  {
    hide Next, Tried, Inv;
    var s, s' := states[k - 1], states[k];
    OtherProcess(o, s, s', steps[k - 1], pid);
    if pid in s.procs && s.procs[pid].InsertLoop? {
      HolderKnown(o, s, pid);
      LockHolds(o, s, s', steps[k - 1], pid);
      forall m | s.nStart <= m < s.procs[pid].n
        ensures Tried(o, states, steps, k, pid, s'.notFull[m])
      {
        TriedStays(o, states, steps, k, pid, s.notFull[m]);
      }
    } else if pid in s.procs && s.procs[pid].InsertMeta? && s.procs[pid].tried.Some? {
      TriedStays(o, states, steps, k, pid, s.procs[pid].tried.value);
    }
  }

  /** The steps of an insert, and what they say about the block tried. */
  lemma {:induction false} OwnSearchStep(o: Options, s: State, s': State, step: Step)
    requires Next(o, s, s', step) && step.pid in s'.procs
    ensures s'.procs[step.pid].InsertMeta? && s'.procs[step.pid].tried.Some? ==>
      && step.TryListed? && step.pid in s.procs && s.procs[step.pid].InsertTry?
      && var b := s.procs[step.pid].blk;
      && s'.procs[step.pid].tried == Some(b) && IsData(s.pages, b)
      && FreeSpace(o, |TuplesOf(s.pages[b - 1])|) < TupleSize(o)
    ensures s'.procs[step.pid].InsertLoop? ==>
      && (step.LockMeta? || step.TryNext?) && s'.nStart == s.nStart && s'.notFull == s.notFull && step.pid in s.procs
  {
    hide Kept, Vacuumed, FreeSpace, ListedNotFull, Matches, Covers, TupleSize;
  }

  lemma {:induction false} LockStep(o: Options, s: State, s': State, pid: nat)
    requires Next(o, s, s', LockMeta(pid))
    ensures pid in s.procs && s.procs[pid].InsertMeta? && s'.procs[pid].InsertLoop? && s.nEnd <= |s.notFull|
    ensures var n, tried := s'.procs[pid].n, s.procs[pid].tried;
            n == s.nStart || (n == s.nStart + 1 && s.nStart < s.nEnd && tried == Some(s.notFull[s.nStart]))
  {
  }

  lemma {:induction false} TryStep(o: Options, s: State, s': State, pid: nat)
    requires Next(o, s, s', TryNext(pid)) && s'.procs[pid].InsertLoop?
    ensures pid in s.procs && s.procs[pid].InsertLoop?
    ensures var n := s.procs[pid].n;
            && n < s.nEnd && n < |s.notFull| && s'.procs[pid].n == n + 1 && IsData(s.pages, s.notFull[n])
            && FreeSpace(o, |TuplesOf(s.pages[s.notFull[n] - 1])|) < TupleSize(o)
  {
    hide FreeSpace, TupleSize;
  }

  lemma {:induction false} SearchGoesOn(o: Options, states: seq<State>, steps: seq<Step>, k: nat)
    requires 0 < k < |states| && k - 1 < |steps|
    requires Next(o, states[k - 1], states[k], steps[k - 1]) && Search(o, states, steps, k - 1, steps[k - 1].pid)
    ensures Search(o, states, steps, k, steps[k - 1].pid)
  {
    hide Next, Tried, FreeSpace, TupleSize;
    var s, s', step := states[k - 1], states[k], steps[k - 1];
    var pid := step.pid;
    if pid in s'.procs {
      OwnSearchStep(o, s, s', step);
      if s'.procs[pid].InsertMeta? && s'.procs[pid].tried.Some? {
        TriedStays(o, states, steps, k, pid, s.procs[pid].blk);
      } else if s'.procs[pid].InsertLoop? && step.LockMeta? {
        LockStep(o, s, s', pid);
        if s'.procs[pid].n > s.nStart { TriedStays(o, states, steps, k, pid, s.notFull[s.nStart]); }
      } else if s'.procs[pid].InsertLoop? {
        TryStep(o, s, s', pid);
        forall m | s.nStart <= m < s'.procs[pid].n
          ensures m < |s'.notFull| && Tried(o, states, steps, k, pid, s'.notFull[m])
        {
          TriedStays(o, states, steps, k, pid, s.notFull[m]);
        }
      }
    }
  }

  /** In every state of every run, an insert under way has tried what it skips. */
  lemma {:induction false} SearchInOrder(o: Options, states: seq<State>, steps: seq<Step>, k: nat, pid: nat)
    requires ValidOptions(o) && Run(o, states, steps) && k <= |steps|
    ensures Search(o, states, steps, k, pid)
  {
    hide Next, Inv, Search;
    if k == 0 {
      NobodySearches(o, states, steps, pid);
    } else {
      SearchInOrder(o, states, steps, k - 1, pid);
      RunKeeps(o, states, steps, k - 1);
      if steps[k - 1].pid == pid {
        SearchGoesOn(o, states, steps, k);
      } else {
        SearchUndisturbed(o, states, steps, k, pid);
      }
    }
  }

  lemma {:induction false} NobodySearches(o: Options, states: seq<State>, steps: seq<Step>, pid: nat)
    requires Run(o, states, steps)
    ensures Search(o, states, steps, 0, pid)
  {
  }

  /** A new page is taken only after every listed page has been tried and found full. */
  lemma {:induction false} AllocateOnlyIfFull(o: Options, states: seq<State>, steps: seq<Step>, k: nat, m: nat)
    requires ValidOptions(o) && Run(o, states, steps) && k < |steps| && steps[k].Allocate?
    requires states[k].nStart <= m < states[k].nEnd
    ensures m < |states[k].notFull| && Tried(o, states, steps, k, steps[k].pid, states[k].notFull[m])
  {
    hide Inv, Tried, Init;
    assert Next(o, states[k], states[k + 1], steps[k]);
    SearchInOrder(o, states, steps, k, steps[k].pid);
    RunKeeps(o, states, steps, k);
    HolderKnown(o, states[k], steps[k].pid);
    assert AllTried(o, states, steps, k, steps[k].pid, states[k].nStart, states[k].procs[steps[k].pid].n);
  }

  /** The list loses its first pages only to an insert that has tried them and found
      them full; a page that took the tuple stays the first one. */
  lemma {:induction false} SkipOnlyIfFull(o: Options, states: seq<State>, steps: seq<Step>, k: nat)
    requires ValidOptions(o) && Run(o, states, steps) && k < |steps| && steps[k].TryNext?
    ensures var s, s', pid := states[k], states[k + 1], steps[k].pid;
            && s'.notFull == s.notFull && s'.nEnd == s.nEnd && s.nStart <= s'.nStart
            && (forall m | s.nStart <= m < s'.nStart ::
                  m < |s.notFull| && Tried(o, states, steps, k, pid, s.notFull[m]))
            && pid in s'.procs
            && (s'.procs[pid].InsertDone? ==>
                  && s'.nStart < s'.nEnd <= |s'.notFull| && IsData(s'.pages, s'.notFull[s'.nStart])
                  && s'.procs[pid].t in TuplesOf(s'.pages[s'.notFull[s'.nStart] - 1]))
            && (!s'.procs[pid].InsertDone? ==> s'.nStart == s.nStart && s'.pages == s.pages)
  {
    hide Inv, Tried, Init, TryAdd;
    assert Next(o, states[k], states[k + 1], steps[k]);
    SearchInOrder(o, states, steps, k, steps[k].pid);
    RunKeeps(o, states, steps, k);
    var s := states[k];
    var p := s.procs[steps[k].pid];
    HolderKnown(o, s, steps[k].pid);
    TryAddOk(o, s.pages[s.notFull[p.n] - 1], p.t);
  }

  /** An insert first tries the first listed page, if there is one. */
  lemma {:induction false} FirstListedFirst(o: Options, s: State, s': State, pid: nat)
    requires Next(o, s, s', ReadMeta(pid))
    ensures pid in s.procs && s.procs[pid].InsertStart? && pid in s'.procs && s.nEnd <= |s.notFull|
    ensures s'.procs[pid] ==
      if s.nStart < s.nEnd then InsertTry(s.procs[pid].t, s.notFull[s.nStart]) else InsertMeta(s.procs[pid].t, None)
  {
  }

  /** A new page holds the tuple it was taken for, and is then the only one listed. */
  lemma {:induction false} AllocateLists(o: Options, s: State, s': State, pid: nat, nb: NewBuffer)
    requires Next(o, s, s', Allocate(pid, nb))
    ensures s'.nStart <= s'.nEnd <= |s'.notFull| && s'.notFull[s'.nStart..s'.nEnd] == [nb.blk]
    ensures pid in s.procs && s.procs[pid].InsertLoop?
    ensures IsData(s'.pages, nb.blk) && s'.pages[nb.blk - 1] == LivePage([s.procs[pid].t])
  {
  }
}
