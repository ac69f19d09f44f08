/** What holds over every run of the bloom index machine: no tuple is lost or
    duplicated, no process gets stuck, and a scan misses nothing that stayed live. */
module BloomTheorems {
  import opened Bytes
  import opened BloomSign
  import opened BloomPage
  import opened BloomIndex

  // ---------- conservation of tuples ----------

  /** All tuples on live pages. */
  ghost function Stored(pages: seq<Page>): multiset<BloomTuple>
  {
    if pages == [] then multiset{}
    else Stored(pages[..|pages| - 1]) + multiset(TuplesOf(pages[|pages| - 1]))
  }

  lemma {:induction false} Balance(a: multiset<BloomTuple>, b: multiset<BloomTuple>, c: multiset<BloomTuple>,
      d: multiset<BloomTuple>, e: multiset<BloomTuple>)
    requires a + b == c + d
    ensures a + e + b == c + e + d
  {
    assert a + e + b == a + b + e;
    assert c + e + d == c + d + e;
  }

  lemma {:induction false} Cancel(a: multiset<BloomTuple>, b: multiset<BloomTuple>, c: multiset<BloomTuple>)
    requires a + c == b + c
    ensures a == b
  {
    forall t
      ensures a[t] == b[t]
    {
      assert (a + c)[t] == (b + c)[t];
    }
  }

  lemma {:induction false} StoredUpdate(pages: seq<Page>, b: nat, p: Page)
    requires b < |pages|
    ensures Stored(pages[b := p]) + multiset(TuplesOf(pages[b])) == Stored(pages) + multiset(TuplesOf(p))
  {
    var n := |pages| - 1;
    hide TuplesOf;
    if b < n {
      StoredUpdate(pages[..n], b, p);
      assert pages[b := p][..n] == pages[..n][b := p];
      Balance(Stored(pages[..n][b := p]), multiset(TuplesOf(pages[b])), Stored(pages[..n]),
        multiset(TuplesOf(p)), multiset(TuplesOf(pages[n])));
    } else {
      assert pages[b := p][..n] == pages[..n];
      Balance(Stored(pages[..n]), multiset{}, Stored(pages[..n]), multiset{}, multiset{});
    }
  }

  lemma {:induction false} StoredGrow(pages: seq<Page>, added: nat)
    ensures Stored(pages + seq(added, _ => NewPage)) == Stored(pages)
  {
    if added == 0 {
      assert pages + seq(added, _ => NewPage) == pages;
    } else {
      StoredGrow(pages, added - 1);
      var all := pages + seq(added, _ => NewPage);
      assert all[..|all| - 1] == pages + seq(added - 1, _ => NewPage);
    }
  }

  /** The tuples a step puts on a page. */
  ghost function Placed(o: Options, s: State, s': State, step: Step): seq<BloomTuple>
    requires Next(o, s, s', step)
  {
    match step
    case TryListed(pid) =>
      if TryAdd(o, s.pages[s.procs[pid].blk - 1], s.procs[pid].t) == [] then [] else [s.procs[pid].t]
    case TryNext(pid) =>
      if TryAdd(o, s.pages[s.notFull[s.procs[pid].n] - 1], s.procs[pid].t) == [] then [] else [s.procs[pid].t]
    case Allocate(pid, _) => [s.procs[pid].t]
    case Feed(pid, _, _) => if HasRoom(o, |s.procs[pid].cached|) then [] else s.procs[pid].cached
    case FinishBuild(pid, _) => s.procs[pid].cached
    case _ => []
  }

  /** The tuples a step takes off a page: those a vacuum's callback picks out. */
  ghost function Lost(o: Options, s: State, s': State, step: Step): multiset<BloomTuple>
    requires Next(o, s, s', step)
  {
    match step
    case VacuumPage(pid) =>
      var ts := TuplesOf(s.pages[s.procs[pid].blk - 1]);
      multiset(ts) - multiset(Kept(ts, IsDead(s.procs[pid].dead)))
    case _ => multiset{}
  }

  lemma {:induction false} PageStored(s: State, nb: NewBuffer, tuples: seq<BloomTuple>)
    requires Grants(s, nb)
    ensures Stored(WithPage(s, nb, tuples).pages) == Stored(s.pages) + multiset(tuples)
  {
    hide Stored;
    var all := s.pages + seq(nb.added, _ => NewPage);
    StoredGrow(s.pages, nb.added);
    StoredUpdate(all, nb.blk - 1, LivePage(tuples));
    assert TuplesOf(all[nb.blk - 1]) == [];
  }

  lemma {:induction false} AddStored(o: Options, pages: seq<Page>, b: nat, t: BloomTuple)
    requires b < |pages| && TryAdd(o, pages[b], t) != []
    ensures Stored(pages[b := LivePage(TryAdd(o, pages[b], t))]) == Stored(pages) + multiset([t])
  {
    hide Stored, TryAdd;
    TryAddOk(o, pages[b], t);
    var page := LivePage(TryAdd(o, pages[b], t));
    var ts := multiset(TuplesOf(pages[b]));
    StoredUpdate(pages, b, page);
    assert multiset(TuplesOf(page)) == multiset([t]) + ts;
    assert Stored(pages) + multiset(TuplesOf(page)) == Stored(pages) + multiset([t]) + ts;
    Cancel(Stored(pages[b := page]), Stored(pages) + multiset([t]), ts);
  }

  lemma {:induction false} KeptSubset(ts: seq<BloomTuple>, dead: Tid -> bool)
    ensures multiset(Kept(ts, dead)) <= multiset(ts)
  {
    hide Kept;
    forall t
      ensures multiset(Kept(ts, dead))[t] <= multiset(ts)[t]
    {
      KeptContents(ts, dead, t);
    }
  }

  lemma {:induction false} VacuumStored(pages: seq<Page>, b: nat, dead: Tid -> bool)
    requires b < |pages|
    ensures var ts := TuplesOf(pages[b]);
            Stored(pages[b := Vacuumed(pages[b], dead)]) + (multiset(ts) - multiset(Kept(ts, dead))) == Stored(pages)
  {
    hide Stored, Kept, Vacuumed;
    var ts, page := TuplesOf(pages[b]), Vacuumed(pages[b], dead);
    var kept := multiset(Kept(ts, dead));
    var lost := multiset(ts) - kept;
    VacuumedTuples(pages[b], dead);
    KeptSubset(ts, dead);
    StoredUpdate(pages, b, page);
    assert multiset(ts) == lost + kept;
    assert Stored(pages[b := page]) + multiset(ts) == Stored(pages[b := page]) + lost + kept;
    Cancel(Stored(pages[b := page]) + lost, Stored(pages), kept);
  }

  lemma {:induction false} InsertConserves(o: Options, s: State, s': State, step: Step)
    requires Next(o, s, s', step) && (step.TryListed? || step.TryNext? || step.Allocate?)
    ensures Stored(s'.pages) == Stored(s.pages) + multiset(Placed(o, s, s', step))
  {
    hide Stored, TryAdd;
    var t := s.procs[step.pid].t;
    match step
    case TryListed(pid) =>
      var b := s.procs[pid].blk - 1;
      if TryAdd(o, s.pages[b], t) != [] { AddStored(o, s.pages, b, t); }
    case TryNext(pid) =>
      var b := s.notFull[s.procs[pid].n] - 1;
      if TryAdd(o, s.pages[b], t) != [] { AddStored(o, s.pages, b, t); }
    case Allocate(pid, nb) => PageStored(s, nb, [t]);
  }

  lemma {:induction false} BuildConserves(o: Options, s: State, s': State, step: Step)
    requires Next(o, s, s', step) && (step.Feed? || step.FinishBuild?)
    ensures Stored(s'.pages) == Stored(s.pages) + multiset(Placed(o, s, s', step))
  {
    hide Stored, FreeSpace;
    var cached := s.procs[step.pid].cached;
    if s'.pages != s.pages { PageStored(s, step.nb, cached); }
  }

  lemma {:induction false} VacuumConserves(o: Options, s: State, s': State, step: Step)
    requires Next(o, s, s', step) && step.VacuumPage?
    ensures Stored(s'.pages) + Lost(o, s, s', step) == Stored(s.pages)
  {
    hide Stored, Kept, Vacuumed, ListedNotFull;
    var p := s.procs[step.pid];
    VacuumStored(s.pages, p.blk - 1, IsDead(p.dead));
  }

  lemma {:induction false} OthersConserve(o: Options, s: State, s': State, step: Step)
    requires Next(o, s, s', step) && !step.TryListed? && !step.TryNext? && !step.Allocate?
    requires !step.Feed? && !step.FinishBuild? && !step.VacuumPage?
    ensures s'.pages == s.pages
  {
    hide Matches, Covers;
  }

  /** Each step changes the stored tuples by exactly what it places and loses. */
  lemma {:induction false} StepConserves(o: Options, s: State, s': State, step: Step)
    requires Next(o, s, s', step)
    ensures Stored(s'.pages) + Lost(o, s, s', step) == Stored(s.pages) + multiset(Placed(o, s, s', step))
  {
    hide Stored, Next, TryAdd, Kept, FreeSpace;
    match step
    case TryListed(_) => InsertConserves(o, s, s', step);
    case TryNext(_) => InsertConserves(o, s, s', step);
    case Allocate(_, _) => InsertConserves(o, s, s', step);
    case Feed(_, _, _) => BuildConserves(o, s, s', step);
    case FinishBuild(_, _) => BuildConserves(o, s, s', step);
    case VacuumPage(_) => VacuumConserves(o, s, s', step);
    case _ => OthersConserve(o, s, s', step);
  }

  /** What a vacuum step takes away, its callback had marked dead. */
  lemma {:induction false} LostWasDead(o: Options, s: State, s': State, step: Step, t: BloomTuple)
    requires Next(o, s, s', step) && t in Lost(o, s, s', step)
    ensures step.VacuumPage? && t.heapPtr in s.procs[step.pid].dead
  {
    hide Next, Kept;
    if step.VacuumPage? {
      var p := VacuumProc(o, s, s', step);
      var ts := TuplesOf(s.pages[p.blk - 1]);
      KeptContents(ts, IsDead(p.dead), t);
    }
  }

  lemma {:induction false} VacuumProc(o: Options, s: State, s': State, step: Step) returns (p: Proc)
    requires Next(o, s, s', step) && step.VacuumPage?
    ensures step.pid in s.procs && p == s.procs[step.pid] && p.Vacuum? && IsData(s.pages, p.blk)
  {
    p := s.procs[step.pid];
  }

  ghost function AllPlaced(o: Options, states: seq<State>, steps: seq<Step>, k: nat): multiset<BloomTuple>
    requires Run(o, states, steps) && k <= |steps|
  {
    if k == 0 then multiset{}
    else AllPlaced(o, states, steps, k - 1) + multiset(Placed(o, states[k - 1], states[k], steps[k - 1]))
  }

  ghost function AllLost(o: Options, states: seq<State>, steps: seq<Step>, k: nat): multiset<BloomTuple>
    requires Run(o, states, steps) && k <= |steps|
  {
    if k == 0 then multiset{}
    else AllLost(o, states, steps, k - 1) + Lost(o, states[k - 1], states[k], steps[k - 1])
  }

  /** Over every run the live pages hold exactly what was placed minus what vacuums removed. */
  lemma {:induction false} RunConserves(o: Options, states: seq<State>, steps: seq<Step>, k: nat)
    requires Run(o, states, steps) && k <= |steps|
    ensures Stored(states[k].pages) + AllLost(o, states, steps, k) == AllPlaced(o, states, steps, k)
  {
    hide Next, Placed, Lost;
    if k > 0 {
      RunConserves(o, states, steps, k - 1);
      StepConserves(o, states[k - 1], states[k], steps[k - 1]);
      Accumulate(Stored(states[k - 1].pages), AllLost(o, states, steps, k - 1), AllPlaced(o, states, steps, k - 1),
        Stored(states[k].pages), Lost(o, states[k - 1], states[k], steps[k - 1]),
        multiset(Placed(o, states[k - 1], states[k], steps[k - 1])));
    }
  }

  lemma {:induction false} Accumulate(s: multiset<BloomTuple>, lost: multiset<BloomTuple>, placed: multiset<BloomTuple>,
    s': multiset<BloomTuple>, l: multiset<BloomTuple>, p: multiset<BloomTuple>)
    requires s + lost == placed && s' + l == s + p
    ensures s' + (lost + l) == placed + p
  {
    assert s' + (lost + l) == s' + l + lost == s + p + lost == s + lost + p;
  }

  // ---------- each tuple is placed exactly once ----------

  /** The tuples process `pid` has placed in the first `k` steps, in order. */
  ghost function PlacedBy(o: Options, states: seq<State>, steps: seq<Step>, k: nat, pid: nat): seq<BloomTuple>
    requires Run(o, states, steps) && k <= |steps|
  {
    if k == 0 then []
    else
      var before := PlacedBy(o, states, steps, k - 1, pid);
      if steps[k - 1].pid == pid then before + Placed(o, states[k - 1], states[k], steps[k - 1]) else before
  }

  /** How much of its work a process has put into the index. */
  ghost predicate Accounted(s: State, pid: nat, placed: seq<BloomTuple>)
  {
    if pid !in s.procs then placed == []
    else match s.procs[pid]
      case InsertDone(t) => placed == [t]
      case Build(cached, fed) => placed + cached == fed
      case BuildDone(fed) => placed == fed
      case _ => placed == []
  }

  lemma {:induction false} OtherProcess(o: Options, s: State, s': State, step: Step, pid: nat)
    requires Next(o, s, s', step) && step.pid != pid
    ensures pid in s.procs <==> pid in s'.procs
    ensures pid in s.procs ==> s'.procs[pid] == s.procs[pid]
  {
    hide TryAdd, Kept, Vacuumed, FreeSpace, ListedNotFull, Matches, Covers;
  }

  lemma {:induction false} OwnInsert(o: Options, s: State, s': State, step: Step, placed: seq<BloomTuple>)
    requires Next(o, s, s', step) && Accounted(s, step.pid, placed)
    requires step.ReadMeta? || step.TryListed? || step.LockMeta? || step.TryNext? || step.Allocate?
    ensures Accounted(s', step.pid, placed + Placed(o, s, s', step))
  {
    hide TryAdd;
  }

  lemma {:induction false} OwnOther(o: Options, s: State, s': State, step: Step, placed: seq<BloomTuple>)
    requires Next(o, s, s', step) && Accounted(s, step.pid, placed)
    requires !step.ReadMeta? && !step.TryListed? && !step.LockMeta? && !step.TryNext? && !step.Allocate?
    ensures Accounted(s', step.pid, placed + Placed(o, s, s', step))
  {
    hide Kept, Vacuumed, FreeSpace, ListedNotFull, Matches, Covers;
  }

  lemma {:induction false} StepAccounts(o: Options, s: State, s': State, step: Step, pid: nat, placed: seq<BloomTuple>)
    requires Next(o, s, s', step) && Accounted(s, pid, placed)
    ensures Accounted(s', pid, if step.pid == pid then placed + Placed(o, s, s', step) else placed)
  {
    hide Next, Placed;
    if step.pid != pid {
      OtherProcess(o, s, s', step, pid);
    } else if step.ReadMeta? || step.TryListed? || step.LockMeta? || step.TryNext? || step.Allocate? {
      OwnInsert(o, s, s', step, placed);
    } else {
      OwnOther(o, s, s', step, placed);
    }
  }

  /** An insert that finished placed its tuple exactly once, one under way placed
      nothing yet, and a finished build placed every tuple it was fed, in order. */
  lemma {:induction false} PlacedExactlyOnce(o: Options, states: seq<State>, steps: seq<Step>, k: nat, pid: nat)
    requires Run(o, states, steps) && k <= |steps|
    ensures Accounted(states[k], pid, PlacedBy(o, states, steps, k, pid))
  {
    hide Next, Placed;
    if k > 0 {
      hide Accounted;
      PlacedExactlyOnce(o, states, steps, k - 1, pid);
      StepAccounts(o, states[k - 1], states[k], steps[k - 1], pid, PlacedBy(o, states, steps, k - 1, pid));
    }
  }

  // ---------- scans ----------

  ghost predicate OnBlock(s: State, b: nat, t: BloomTuple)
  {
    IsData(s.pages, b) && t in TuplesOf(s.pages[b - 1])
  }

  /** `step` is a vacuum of block `b` that means to remove `t`. */
  ghost predicate Removes(s: State, step: Step, b: nat, t: BloomTuple)
  {
    && step.VacuumPage? && step.pid in s.procs && s.procs[step.pid].Vacuum?
    && s.procs[step.pid].blk == b && t.heapPtr in s.procs[step.pid].dead
  }

  /** Tuples never move: only a vacuum that picks the tuple takes it off its block. */
  lemma {:induction false} TupleStays(o: Options, s: State, s': State, step: Step, b: nat, t: BloomTuple)
    requires Next(o, s, s', step) && OnBlock(s, b, t) && !Removes(s, step, b, t)
    ensures OnBlock(s', b, t)
  {
    hide Next, Removes, OnBlock;
    match step
    case TryListed(_) => InsertKeepsTuple(o, s, s', step, b, t);
    case TryNext(_) => InsertKeepsTuple(o, s, s', step, b, t);
    case Allocate(_, _) => NewBufferKeepsTuple(o, s, s', step, b, t);
    case Feed(_, _, _) => NewBufferKeepsTuple(o, s, s', step, b, t);
    case FinishBuild(_, _) => NewBufferKeepsTuple(o, s, s', step, b, t);
    case VacuumPage(_) => VacuumKeepsTuple(o, s, s', step, b, t);
    case _ =>
      OthersConserve(o, s, s', step);
      SamePages(s, s', b, t);
  }

  lemma {:induction false} SamePages(s: State, s': State, b: nat, t: BloomTuple)
    requires s'.pages == s.pages && OnBlock(s, b, t)
    ensures OnBlock(s', b, t)
  {
  }

  lemma {:induction false} InsertKeepsTuple(o: Options, s: State, s': State, step: Step, b: nat, t: BloomTuple)
    requires Next(o, s, s', step) && OnBlock(s, b, t) && (step.TryListed? || step.TryNext?)
    ensures OnBlock(s', b, t)
  {
    hide TryAdd;
    var p := s.procs[step.pid];
    var blk := if step.TryListed? then p.blk else s.notFull[p.n];
    TryAddOk(o, s.pages[blk - 1], p.t);
  }

  lemma {:induction false} NewBufferKeepsTuple(o: Options, s: State, s': State, step: Step, b: nat, t: BloomTuple)
    requires Next(o, s, s', step) && OnBlock(s, b, t) && (step.Allocate? || step.Feed? || step.FinishBuild?)
    ensures OnBlock(s', b, t)
  {
    hide FreeSpace;
  }

  lemma {:induction false} VacuumKeepsTuple(o: Options, s: State, s': State, step: Step, b: nat, t: BloomTuple)
    requires Next(o, s, s', step) && OnBlock(s, b, t) && step.VacuumPage? && !Removes(s, step, b, t)
    ensures OnBlock(s', b, t)
  {
    hide Kept, Vacuumed, ListedNotFull;
    var p := s.procs[step.pid];
    VacuumedTuples(s.pages[p.blk - 1], IsDead(p.dead));
    if p.blk == b { KeptMember(TuplesOf(s.pages[b - 1]), IsDead(p.dead), t); }
  }

  lemma {:induction false} KeptMember(ts: seq<BloomTuple>, dead: Tid -> bool, t: BloomTuple)
    requires t in ts && !dead(t.heapPtr)
    ensures t in Kept(ts, dead)
  {
    hide Kept;
    KeptContents(ts, dead, t);
    assert t in multiset(ts);
    assert t in multiset(Kept(ts, dead));
  }

  lemma {:induction false} TupleStaysOn(o: Options, states: seq<State>, steps: seq<Step>, i: nat, k: nat, b: nat,
      t: BloomTuple)
    requires Run(o, states, steps) && i <= k <= |steps| && OnBlock(states[i], b, t)
    requires forall l | i <= l < k :: !Removes(states[l], steps[l], b, t)
    ensures OnBlock(states[k], b, t)
    decreases k - i
  {
    hide Next, OnBlock, Removes;
    if i < k {
      TupleStaysOn(o, states, steps, i, k - 1, b, t);
      TupleStays(o, states[k - 1], states[k], steps[k - 1], b, t);
    }
  }

  /** What scan `pid`, begun with `npages` blocks, has found once it is past block `b`. */
  ghost predicate ScanProgress(s: State, pid: nat, sign: Signature, npages: nat, b: nat, t: BloomTuple)
  {
    && pid in s.procs
    && match s.procs[pid]
       case Scan(sg, np, blk, result) => sg == sign && np == npages && (b < blk ==> t.heapPtr in result)
       case ScanDone(sg, result) => sg == sign && t.heapPtr in result
       case _ => false
  }

  lemma {:induction false} ScanStep(o: Options, s: State, s': State, step: Step, pid: nat, sign: Signature,
      npages: nat, b: nat, t: BloomTuple)
    requires Next(o, s, s', step) && ScanProgress(s, pid, sign, npages, b, t)
    requires OnBlock(s, b, t) && b < npages && |t.sign| == |sign| && Covers(t.sign, sign)
    ensures ScanProgress(s', pid, sign, npages, b, t)
  {
    hide Next, Covers;
    if step.pid != pid {
      OtherProcess(o, s, s', step, pid);
    } else {
      OwnScanStep(o, s, s', step, sign, npages, b, t);
    }
  }

  lemma {:induction false} OwnScanStep(o: Options, s: State, s': State, step: Step, sign: Signature, npages: nat,
      b: nat, t: BloomTuple)
    requires Next(o, s, s', step) && ScanProgress(s, step.pid, sign, npages, b, t)
    requires OnBlock(s, b, t) && b < npages && |t.sign| == |sign| && Covers(t.sign, sign)
    ensures ScanProgress(s', step.pid, sign, npages, b, t)
  {
    hide Covers, Fresh, AfterReadMeta, AfterTryListed, AfterLockMeta, AfterTryNext, AfterAllocate, AfterFeed,
      AfterFinishBuild, AfterVacuumPage, AfterFinishVacuum, AfterCleanupPage, FreeSpace;
  }

  /** Whoever begins a scan finds, by the time it is done, every tuple that was on a
      page when it began, whose signature contains the scan's, and that no vacuum
      removed meanwhile, whatever other processes do in between. */
  lemma {:induction false} ScanComplete(o: Options, states: seq<State>, steps: seq<Step>, i: nat, k: nat,
      pid: nat, sign: Signature, b: nat, t: BloomTuple)
    requires Run(o, states, steps) && i < k <= |steps|
    requires steps[i].Begin? && steps[i].pid == pid && steps[i].p.Scan? && steps[i].p.sign == sign
    requires OnBlock(states[i], b, t) && |t.sign| == |sign| && Covers(t.sign, sign)
    requires forall l | i <= l < k :: !Removes(states[l], steps[l], b, t)
    ensures ScanProgress(states[k], pid, sign, NumBlocks(states[i]), b, t)
    decreases k
  {
    hide OnBlock, Removes, ScanProgress, Covers, Next;
    if k == i + 1 {
      ScanBegins(o, states[i], states[k], pid, steps[i].p, b, t);
    } else {
      ScanComplete(o, states, steps, i, k - 1, pid, sign, b, t);
      TupleStaysOn(o, states, steps, i, k - 1, b, t);
      BlockInside(states[i], b, t);
      ScanStep(o, states[k - 1], states[k], steps[k - 1], pid, sign, NumBlocks(states[i]), b, t);
    }
  }

  lemma {:induction false} BlockInside(s: State, b: nat, t: BloomTuple)
    requires OnBlock(s, b, t)
    ensures b < NumBlocks(s)
  {
  }

  lemma {:induction false} ScanBegins(o: Options, s: State, s': State, pid: nat, p: Proc, b: nat, t: BloomTuple)
    requires Next(o, s, s', Begin(pid, p)) && p.Scan? && OnBlock(s, b, t)
    ensures ScanProgress(s', pid, p.sign, NumBlocks(s), b, t)
  {
  }

  /** The same, in terms of column values: a row whose columns agree with all scan
      keys is in the result of every finished scan, unless vacuumed meanwhile. */
  lemma {:induction false} ScanFindsEqualRows(
    o: Options, states: seq<State>, steps: seq<Step>, i: nat, k: nat, pid: nat,
    row: seq<Column>, keys: seq<Column>, b: nat, tid: Tid)
    requires ValidOptions(o) && Run(o, states, steps) && i < k <= |steps|
    requires steps[i].Begin? && steps[i].pid == pid && steps[i].p.Scan?
    requires steps[i].p.sign == SignAll(o, Blank(o), keys)
    requires forall c | c in keys :: c in row
    requires OnBlock(states[i], b, BloomTuple(tid, SignAll(o, Blank(o), row)))
    requires forall l | i <= l < k :: !Removes(states[l], steps[l], b, BloomTuple(tid, SignAll(o, Blank(o), row)))
    ensures pid in states[k].procs && states[k].procs[pid].ScanDone? ==> tid in states[k].procs[pid].result
  {
    hide SignAll, Blank, OnBlock, Removes, Next, Init, Covers;
    var t, sign := BloomTuple(tid, SignAll(o, Blank(o), row)), SignAll(o, Blank(o), keys);
    MatchingRowCovered(o, row, keys);
    ScanComplete(o, states, steps, i, k, pid, sign, b, t);
  }

  // ---------- scans return nothing else ----------

  /** In state `s` scan `pid` is about to look at a block that holds a tuple of row
      `tid` whose signature contains the scan's. */
  ghost predicate Sees(s: State, pid: nat, sign: Signature, tid: Tid)
  {
    && pid in s.procs && s.procs[pid].Scan? && IsData(s.pages, s.procs[pid].blk)
    && exists t :: OnBlock(s, s.procs[pid].blk, t) && t.heapPtr == tid && |t.sign| == |sign| && Covers(t.sign, sign)
  }

  /** Scan `pid` with signature `sign`, under way or done, has returned `tid`. */
  ghost predicate InResult(s: State, pid: nat, sign: Signature, tid: Tid)
  {
    && pid in s.procs && (s.procs[pid].Scan? || s.procs[pid].ScanDone?)
    && s.procs[pid].sign == sign && tid in s.procs[pid].result
  }

  lemma {:induction false} OwnResultStep(o: Options, s: State, s': State, step: Step, sign: Signature, tid: Tid)
    requires Next(o, s, s', step) && InResult(s', step.pid, sign, tid) && !InResult(s, step.pid, sign, tid)
    ensures step.ScanPage? && Sees(s, step.pid, sign, tid)
  {
    hide Covers, AfterReadMeta, AfterTryListed, AfterLockMeta, AfterTryNext, AfterAllocate, AfterFeed, AfterFinishBuild,
      AfterVacuumPage, AfterFinishVacuum, AfterCleanupPage, FreeSpace;
    NotOtherwise(o, s, s', step, sign, tid);
    var p := s.procs[step.pid];
    var t :| t in TuplesOf(s.pages[p.blk - 1]) && |t.sign| == |sign| && Covers(t.sign, sign) && t.heapPtr == tid;
    assert OnBlock(s, p.blk, t);
  }

  lemma {:induction false} NotOtherwise(o: Options, s: State, s': State, step: Step, sign: Signature, tid: Tid)
    requires Next(o, s, s', step) && InResult(s', step.pid, sign, tid) && !InResult(s, step.pid, sign, tid)
    ensures step.ScanPage?
  {
    hide Covers, Matches, TryAdd, Kept, Vacuumed, FreeSpace, ListedNotFull;
  }

  /** Every row a scan has returned had a tuple with a covering signature on a block
      at the step in which the scan read that block. */
  lemma {:induction false} ScanSound(o: Options, states: seq<State>, steps: seq<Step>, k: nat, pid: nat,
      sign: Signature, tid: Tid) returns (l: nat)
    requires Run(o, states, steps) && k <= |steps| && InResult(states[k], pid, sign, tid)
    ensures l < k && steps[l] == ScanPage(pid) && Sees(states[l], pid, sign, tid)
    decreases k
  {
    hide Next, Sees;
    if k > 0 && InResult(states[k - 1], pid, sign, tid) {
      l := ScanSound(o, states, steps, k - 1, pid, sign, tid);
    } else if k > 0 {
      l := k - 1;
      if steps[l].pid != pid { OtherProcess(o, states[l], states[k], steps[l], pid); }
      OwnResultStep(o, states[l], states[k], steps[l], sign, tid);
    }
  }

  // ---------- vacuums leave nothing behind ----------

  /** A tuple turns up on a block only when the step places it. */
  lemma {:induction false} TupleArrives(o: Options, s: State, s': State, step: Step, b: nat, t: BloomTuple)
    requires Next(o, s, s', step) && !OnBlock(s, b, t) && t !in Placed(o, s, s', step)
    ensures !OnBlock(s', b, t)
  {
    hide Next, Placed;
    match step
    case TryListed(_) => InsertBringsNone(o, s, s', step, b, t);
    case TryNext(_) => InsertBringsNone(o, s, s', step, b, t);
    case Allocate(_, _) => NewBufferBringsNone(o, s, s', step, b, t);
    case Feed(_, _, _) => NewBufferBringsNone(o, s, s', step, b, t);
    case FinishBuild(_, _) => NewBufferBringsNone(o, s, s', step, b, t);
    case VacuumPage(_) => VacuumBringsNone(o, s, s', step, b, t);
    case _ => OthersConserve(o, s, s', step);
  }

  lemma {:induction false} InsertBringsNone(o: Options, s: State, s': State, step: Step, b: nat, t: BloomTuple)
    requires Next(o, s, s', step) && !OnBlock(s, b, t) && (step.TryListed? || step.TryNext?)
    requires t !in Placed(o, s, s', step)
    ensures !OnBlock(s', b, t)
  {
    hide TryAdd;
    var p := s.procs[step.pid];
    var blk := if step.TryListed? then p.blk else s.notFull[p.n];
    TryAddOk(o, s.pages[blk - 1], p.t);
  }

  lemma {:induction false} NewBufferBringsNone(o: Options, s: State, s': State, step: Step, b: nat, t: BloomTuple)
    requires Next(o, s, s', step) && !OnBlock(s, b, t) && (step.Allocate? || step.Feed? || step.FinishBuild?)
    requires t !in Placed(o, s, s', step)
    ensures !OnBlock(s', b, t)
  {
    hide FreeSpace;
  }

  lemma {:induction false} VacuumBringsNone(o: Options, s: State, s': State, step: Step, b: nat, t: BloomTuple)
    requires Next(o, s, s', step) && !OnBlock(s, b, t) && step.VacuumPage?
    ensures !OnBlock(s', b, t)
  {
    hide Kept, Vacuumed, ListedNotFull;
    var p := s.procs[step.pid];
    VacuumedTuples(s.pages[p.blk - 1], IsDead(p.dead));
    if p.blk == b { KeptOnly(TuplesOf(s.pages[b - 1]), IsDead(p.dead), t); }
  }

  /** The filter keeps tuples that were there and are not chosen. */
  lemma {:induction false} KeptOnly(ts: seq<BloomTuple>, dead: Tid -> bool, t: BloomTuple)
    ensures t in Kept(ts, dead) ==> t in ts && !dead(t.heapPtr)
  {
    hide Kept;
    KeptContents(ts, dead, t);
    assert t in Kept(ts, dead) ==> t in multiset(Kept(ts, dead));
    assert t in multiset(ts) ==> t in ts;
  }

  /** What vacuum `pid`, begun with `npages` blocks, has done once it is past block `b`. */
  ghost predicate VacuumProgress(s: State, pid: nat, dead: set<Tid>, npages: nat, b: nat, t: BloomTuple)
  {
    && pid in s.procs
    && match s.procs[pid]
       case Vacuum(d, np, blk, _) => d == dead && np == npages && (b < blk ==> !OnBlock(s, b, t))
       case VacuumDone => !OnBlock(s, b, t)
       case _ => false
  }

  lemma {:induction false} VacuumStep(o: Options, s: State, s': State, step: Step, pid: nat, dead: set<Tid>,
      npages: nat, b: nat, t: BloomTuple)
    requires Next(o, s, s', step) && VacuumProgress(s, pid, dead, npages, b, t)
    requires t.heapPtr in dead && b < npages && t !in Placed(o, s, s', step)
    ensures VacuumProgress(s', pid, dead, npages, b, t)
  {
    hide Next, OnBlock, Placed;
    if !OnBlock(s, b, t) { TupleArrives(o, s, s', step, b, t); }
    if step.pid != pid {
      OtherProcess(o, s, s', step, pid);
    } else {
      OwnVacuumStep(o, s, s', step, dead, npages, b, t);
    }
  }

  lemma {:induction false} OwnVacuumStep(o: Options, s: State, s': State, step: Step, dead: set<Tid>, npages: nat,
      b: nat, t: BloomTuple)
    requires Next(o, s, s', step) && VacuumProgress(s, step.pid, dead, npages, b, t)
    requires t.heapPtr in dead && b < npages
    ensures VacuumProgress(s', step.pid, dead, npages, b, t) || (!OnBlock(s, b, t) && OnBlock(s', b, t))
  {
    hide Fresh, AfterReadMeta, AfterTryListed, AfterLockMeta, AfterTryNext, AfterAllocate, AfterFeed, AfterFinishBuild,
      AfterCleanupPage, AfterScanPage, FreeSpace, Kept, Vacuumed, ListedNotFull;
    if step.VacuumPage? {
      var p := s.procs[step.pid];
      VacuumedTuples(s.pages[p.blk - 1], IsDead(p.dead));
      if p.blk == b { KeptOnly(TuplesOf(s.pages[b - 1]), IsDead(dead), t); }
    }
  }

  /** Once a vacuum is past a block that existed when it began, the block holds no
      tuple of a row the vacuum was to remove, unless a step since then placed it. */
  lemma {:induction false} VacuumComplete(o: Options, states: seq<State>, steps: seq<Step>, i: nat, k: nat,
      pid: nat, dead: set<Tid>, b: nat, t: BloomTuple)
    requires Run(o, states, steps) && i < k <= |steps|
    requires steps[i].Begin? && steps[i].pid == pid && steps[i].p.Vacuum? && steps[i].p.dead == dead
    requires 0 < b < NumBlocks(states[i]) && t.heapPtr in dead
    requires forall l | i <= l < k :: t !in Placed(o, states[l], states[l + 1], steps[l])
    ensures VacuumProgress(states[k], pid, dead, NumBlocks(states[i]), b, t)
    decreases k
  {
    hide OnBlock, VacuumProgress, Next, Placed;
    if k == i + 1 {
      VacuumBegins(o, states[i], states[k], pid, steps[i].p, b, t);
    } else {
      VacuumComplete(o, states, steps, i, k - 1, pid, dead, b, t);
      VacuumStep(o, states[k - 1], states[k], steps[k - 1], pid, dead, NumBlocks(states[i]), b, t);
    }
  }

  lemma {:induction false} VacuumBegins(o: Options, s: State, s': State, pid: nat, p: Proc, b: nat, t: BloomTuple)
    requires Next(o, s, s', Begin(pid, p)) && p.Vacuum? && b > 0
    ensures VacuumProgress(s', pid, p.dead, NumBlocks(s), b, t)
  {
  }

  // ---------- no process gets stuck ----------

  predicate Finished(p: Proc)
  {
    p.InsertDone? || p.BuildDone? || p.VacuumDone? || p.CleanupDone? || p.ScanDone?
  }

  /** Waiting for the metapage lock, which somebody else holds. */
  ghost predicate WaitsForMeta(s: State, pid: nat)
    requires pid in s.procs
  {
    var p := s.procs[pid];
    && s.metaLock.Some? && s.metaLock != Some(pid)
    && (p.InsertStart? || p.InsertMeta? || (p.Vacuum? && p.blk >= p.npages))
  }

  /** In every reachable state each unfinished process can take a step, unless it
      waits for the metapage lock; the holder of that lock never waits. In
      particular the step guards that keep indices in range never block anyone. */
  lemma {:induction false} NeverStuck(o: Options, s: State, pid: nat)
    requires ValidOptions(o) && Inv(o, s) && pid in s.procs && !Finished(s.procs[pid])
    ensures WaitsForMeta(s, pid) || exists step: Step, s': State :: step.pid == pid && Next(o, s, s', step)
  {
    hide Next, Inv;
    var p := s.procs[pid];
    if p.InsertStart? || p.InsertTry? || p.InsertMeta? || p.InsertLoop? {
      var step, s' := InsertCanStep(o, s, pid);
    } else {
      var step, s' := OtherCanStep(o, s, pid);
    }
  }

  lemma {:induction false} InsertCanStep(o: Options, s: State, pid: nat) returns (step: Step, s': State)
    requires Inv(o, s) && pid in s.procs
    requires var p := s.procs[pid];
             p.InsertStart? || p.InsertTry? || p.InsertMeta? || p.InsertLoop?
    ensures WaitsForMeta(s, pid) || (step.pid == pid && Next(o, s, s', step))
  {
    hide PagesOk, TryAdd, FreeSpace;
    var p := s.procs[pid];
    assert ProcOk(o, s, pid, p);
    match p
    case InsertStart(t) =>
      step, s' := ReadMeta(pid), AfterReadMeta(s, pid, t);
    case InsertTry(t, blk) =>
      step, s' := TryListed(pid), AfterTryListed(o, s, pid, t, blk);
    case InsertMeta(t, tried) =>
      step, s' := LockMeta(pid), AfterLockMeta(s, pid, t, tried);
    case InsertLoop(t, n) =>
      if n < s.nEnd {
        assert s.notFull[s.nStart..s.nEnd][n - s.nStart] == s.notFull[n];
        step, s' := TryNext(pid), AfterTryNext(o, s, pid, t, n);
      } else {
        var nb := NewBuffer(|s.pages| + 1, 1, {});
        step, s' := Allocate(pid, nb), AfterAllocate(s, pid, t, nb);
      }
  }

  lemma {:induction false} OtherCanStep(o: Options, s: State, pid: nat) returns (step: Step, s': State)
    requires Inv(o, s) && pid in s.procs && !Finished(s.procs[pid])
    requires var p := s.procs[pid];
             !p.InsertStart? && !p.InsertTry? && !p.InsertMeta? && !p.InsertLoop?
    ensures WaitsForMeta(s, pid) || (step.pid == pid && Next(o, s, s', step))
  {
    hide PagesOk, Kept, Vacuumed, FreeSpace, ListedNotFull, Matches;
    var p := s.procs[pid];
    assert ProcOk(o, s, pid, p);
    match p
    case Build(cached, fed) =>
      var nb := NewBuffer(|s.pages| + 1, 1, {});
      step, s' := FinishBuild(pid, nb), AfterFinishBuild(s, pid, cached, fed, nb);
    case Vacuum(dead, npages, blk, list) =>
      if blk < npages {
        step, s' := VacuumPage(pid), AfterVacuumPage(o, s, pid, dead, npages, blk, list);
      } else {
        step, s' := FinishVacuum(pid), AfterFinishVacuum(s, pid, list);
      }
    case Cleanup(npages, blk) =>
      if blk < npages {
        step, s' := CleanupPage(pid), AfterCleanupPage(s, pid, npages, blk);
      } else {
        step, s' := FinishCleanup(pid), WithProc(s, pid, CleanupDone);
      }
    case Scan(sign, npages, blk, result) =>
      if blk < npages {
        step, s' := ScanPage(pid), AfterScanPage(s, pid, sign, npages, blk, result);
      } else {
        step, s' := FinishScan(pid), WithProc(s, pid, ScanDone(sign, result));
      }
  }
}
