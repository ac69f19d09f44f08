/** A bloom index under concurrent build, insert, bulk-delete, cleanup and scan: a
    state machine whose steps are the sections one process runs under a page lock
    (and, for an insert that must touch the list of not-full pages, under the
    metapage lock it keeps over several steps). */
module BloomIndex {
  import opened Bytes
  import opened BloomSign
  import opened BloomPage

  const META_BLOCK_N := 2004      // BloomMetaBlockN for 8 kB pages

  datatype Proc =
    | InsertStart(t: BloomTuple)
    | InsertTry(t: BloomTuple, blk: nat)                  // first listed page, metapage unlocked
    | InsertMeta(t: BloomTuple, tried: Option<nat>)       // about to lock the metapage exclusively
    | InsertLoop(t: BloomTuple, n: nat)                   // holds the metapage lock
    | InsertDone(t: BloomTuple)
    | Build(cached: seq<BloomTuple>, fed: seq<BloomTuple>)
    | BuildDone(fed: seq<BloomTuple>)
    | Vacuum(dead: set<Tid>, npages: nat, blk: nat, list: seq<nat>)
    | VacuumDone
    | Cleanup(npages: nat, blk: nat)
    | CleanupDone
    | Scan(sign: Signature, npages: nat, blk: nat, result: set<Tid>)
    | ScanDone(sign: Signature, result: set<Tid>)

  /** `pages[b - 1]` is data block b; block 0 is the metapage, whose list of
      not-full pages is `notFull[nStart..nEnd]`. `fsm` is the free space map. */
  datatype State = State(
    pages: seq<Page>,
    nStart: nat,
    nEnd: nat,
    notFull: seq<nat>,
    fsm: set<nat>,
    metaLock: Option<nat>,
    procs: map<nat, Proc>)

  predicate IsData(pages: seq<Page>, blk: nat) { 1 <= blk <= |pages| }

  function NumBlocks(s: State): nat { |s.pages| + 1 }

  function IsDead(dead: set<Tid>): Tid -> bool { (t: Tid) => t in dead }

  /** Where BloomNewBuffer may land, and the pages it may have appended. */
  datatype NewBuffer = NewBuffer(blk: nat, added: nat, fsm: set<nat>)

  ghost predicate Grants(s: State, nb: NewBuffer)
  {
    && nb.fsm <= s.fsm && nb.blk !in nb.fsm
    && (if nb.added == 0 then nb.blk in s.fsm && IsData(s.pages, nb.blk) && !s.pages[nb.blk - 1].LivePage?
        else nb.blk == |s.pages| + 1)
  }

  ghost function WithPage(s: State, nb: NewBuffer, tuples: seq<BloomTuple>): State
    requires Grants(s, nb)
  {
    var all := s.pages + seq(nb.added, _ => NewPage);
    s.(pages := all[nb.blk - 1 := LivePage(tuples)], fsm := nb.fsm)
  }

  ghost function WithProc(s: State, pid: nat, p: Proc): State
  {
    s.(procs := s.procs[pid := p])
  }

  datatype Step =
    | Begin(pid: nat, p: Proc)
    | ReadMeta(pid: nat)
    | TryListed(pid: nat)
    | LockMeta(pid: nat)
    | TryNext(pid: nat)
    | Allocate(pid: nat, nb: NewBuffer)
    | Feed(pid: nat, t: BloomTuple, nb: NewBuffer)
    | FinishBuild(pid: nat, nb: NewBuffer)
    | VacuumPage(pid: nat)
    | FinishVacuum(pid: nat)
    | CleanupPage(pid: nat)
    | FinishCleanup(pid: nat)
    | ScanPage(pid: nat)
    | FinishScan(pid: nat)

  /** The states a process may start in; a build needs an index without data blocks. */
  ghost predicate Fresh(o: Options, s: State, p: Proc)
  {
    match p
    case InsertStart(t) => true
    case Build(cached, fed) => s.pages == [] && cached == [] && fed == []
    case Vacuum(dead, npages, blk, list) => npages == NumBlocks(s) && blk == 1 && list == []
    case Cleanup(npages, blk) => npages == NumBlocks(s) && blk == 1
    case Scan(sign, npages, blk, result) =>
      npages == NumBlocks(s) && blk == 1 && result == {} && |sign| == o.bloomLength
    case _ => false
  }

  // ---------- what each step does ----------

  ghost function AfterReadMeta(s: State, pid: nat, t: BloomTuple): State
    requires s.nEnd <= |s.notFull|
  {
    if s.nStart < s.nEnd then WithProc(s, pid, InsertTry(t, s.notFull[s.nStart]))
    else WithProc(s, pid, InsertMeta(t, None))
  }

  ghost function AfterTryListed(o: Options, s: State, pid: nat, t: BloomTuple, blk: nat): State
    requires IsData(s.pages, blk)
  {
    var r := TryAdd(o, s.pages[blk - 1], t);
    if r != [] then WithProc(s.(pages := s.pages[blk - 1 := LivePage(r)]), pid, InsertDone(t))
    else WithProc(s, pid, InsertMeta(t, Some(blk)))
  }

  ghost function AfterLockMeta(s: State, pid: nat, t: BloomTuple, tried: Option<nat>): State
    requires s.nEnd <= |s.notFull|
  {
    var n := if s.nStart < s.nEnd && tried == Some(s.notFull[s.nStart]) then s.nStart + 1 else s.nStart;
    WithProc(s.(metaLock := Some(pid)), pid, InsertLoop(t, n))
  }

  ghost function AfterTryNext(o: Options, s: State, pid: nat, t: BloomTuple, n: nat): State
    requires n < |s.notFull| && IsData(s.pages, s.notFull[n])
  {
    var blk := s.notFull[n];
    var r := TryAdd(o, s.pages[blk - 1], t);
    if r != [] then
      WithProc(s.(pages := s.pages[blk - 1 := LivePage(r)], nStart := n, metaLock := None), pid, InsertDone(t))
    else WithProc(s, pid, InsertLoop(t, n + 1))
  }

  ghost function AfterAllocate(s: State, pid: nat, t: BloomTuple, nb: NewBuffer): State
    requires Grants(s, nb) && |s.notFull| > 0
  {
    var s1 := WithPage(s, nb, [t]);
    WithProc(s1.(nStart := 0, nEnd := 1, notFull := s.notFull[0 := nb.blk], metaLock := None), pid, InsertDone(t))
  }

  /** bloomBuildCallback: add to the cached page, or flush it first. */
  ghost function AfterFeed(o: Options, s: State, pid: nat, cached: seq<BloomTuple>, fed: seq<BloomTuple>,
      t: BloomTuple, nb: NewBuffer): State
    requires HasRoom(o, |cached|) || Grants(s, nb)
  {
    if HasRoom(o, |cached|) then WithProc(s, pid, Build(cached + [t], fed + [t]))
    else WithProc(WithPage(s, nb, cached), pid, Build([t], fed + [t]))
  }

  ghost function AfterFinishBuild(s: State, pid: nat, cached: seq<BloomTuple>, fed: seq<BloomTuple>,
      nb: NewBuffer): State
    requires cached == [] || Grants(s, nb)
  {
    WithProc(if cached == [] then s else WithPage(s, nb, cached), pid, BuildDone(fed))
  }

  ghost function AfterVacuumPage(o: Options, s: State, pid: nat, dead: set<Tid>, npages: nat, blk: nat,
      list: seq<nat>): State
    requires IsData(s.pages, blk)
  {
    var p := s.pages[blk - 1];
    var list' := if ListedNotFull(o, p, IsDead(dead)) && |list| < META_BLOCK_N then list + [blk] else list;
    WithProc(s.(pages := s.pages[blk - 1 := Vacuumed(p, IsDead(dead))]), pid, Vacuum(dead, npages, blk + 1, list'))
  }

  ghost function AfterFinishVacuum(s: State, pid: nat, list: seq<nat>): State
    requires |list| <= |s.notFull|
  {
    WithProc(s.(notFull := list + s.notFull[|list|..], nStart := 0, nEnd := |list|), pid, VacuumDone)
  }

  ghost function AfterCleanupPage(s: State, pid: nat, npages: nat, blk: nat): State
    requires IsData(s.pages, blk)
  {
    WithProc(if s.pages[blk - 1].LivePage? then s else s.(fsm := s.fsm + {blk}), pid, Cleanup(npages, blk + 1))
  }

  ghost function AfterScanPage(s: State, pid: nat, sign: Signature, npages: nat, blk: nat, result: set<Tid>): State
    requires IsData(s.pages, blk)
  {
    WithProc(s, pid, Scan(sign, npages, blk + 1, result + Matches(TuplesOf(s.pages[blk - 1]), sign)))
  }

  /** One step of the machine. */
  ghost predicate Next(o: Options, s: State, s': State, step: Step)
  {
    match step
    case Begin(pid, p) =>
      pid !in s.procs && Fresh(o, s, p) && s' == WithProc(s, pid, p)
    case ReadMeta(pid) =>
      && pid in s.procs && s.procs[pid].InsertStart? && s.metaLock.None? && s.nEnd <= |s.notFull|
      && s' == AfterReadMeta(s, pid, s.procs[pid].t)
    case TryListed(pid) =>
      && pid in s.procs && s.procs[pid].InsertTry? && IsData(s.pages, s.procs[pid].blk)
      && s' == AfterTryListed(o, s, pid, s.procs[pid].t, s.procs[pid].blk)
    case LockMeta(pid) =>
      && pid in s.procs && s.procs[pid].InsertMeta? && s.metaLock.None? && s.nEnd <= |s.notFull|
      && s' == AfterLockMeta(s, pid, s.procs[pid].t, s.procs[pid].tried)
    case TryNext(pid) =>
      && pid in s.procs && s.procs[pid].InsertLoop?
      && var n := s.procs[pid].n;
      && n < s.nEnd && n < |s.notFull| && IsData(s.pages, s.notFull[n])
      && s' == AfterTryNext(o, s, pid, s.procs[pid].t, n)
    case Allocate(pid, nb) =>
      && pid in s.procs && s.procs[pid].InsertLoop? && s.procs[pid].n >= s.nEnd && Grants(s, nb) && |s.notFull| > 0
      && s' == AfterAllocate(s, pid, s.procs[pid].t, nb)
    case Feed(pid, t, nb) =>
      && pid in s.procs && s.procs[pid].Build?
      && (HasRoom(o, |s.procs[pid].cached|) || Grants(s, nb))
      && s' == AfterFeed(o, s, pid, s.procs[pid].cached, s.procs[pid].fed, t, nb)
    case FinishBuild(pid, nb) =>
      && pid in s.procs && s.procs[pid].Build? && (s.procs[pid].cached == [] || Grants(s, nb))
      && s' == AfterFinishBuild(s, pid, s.procs[pid].cached, s.procs[pid].fed, nb)
    case VacuumPage(pid) =>
      && pid in s.procs && s.procs[pid].Vacuum?
      && var p := s.procs[pid];
      && p.blk < p.npages && IsData(s.pages, p.blk)
      && s' == AfterVacuumPage(o, s, pid, p.dead, p.npages, p.blk, p.list)
    case FinishVacuum(pid) =>
      && pid in s.procs && s.procs[pid].Vacuum? && s.metaLock.None?
      && var p := s.procs[pid];
      && p.blk >= p.npages && |p.list| <= |s.notFull|
      && s' == AfterFinishVacuum(s, pid, p.list)
    case CleanupPage(pid) =>
      && pid in s.procs && s.procs[pid].Cleanup?
      && var p := s.procs[pid];
      && p.blk < p.npages && IsData(s.pages, p.blk)
      && s' == AfterCleanupPage(s, pid, p.npages, p.blk)
    case FinishCleanup(pid) =>
      && pid in s.procs && s.procs[pid].Cleanup? && s.procs[pid].blk >= s.procs[pid].npages
      && s' == WithProc(s, pid, CleanupDone)
    case ScanPage(pid) =>
      && pid in s.procs && s.procs[pid].Scan?
      && var p := s.procs[pid];
      && p.blk < p.npages && IsData(s.pages, p.blk)
      && s' == AfterScanPage(s, pid, p.sign, p.npages, p.blk, p.result)
    case FinishScan(pid) =>
      && pid in s.procs && s.procs[pid].Scan?
      && var p := s.procs[pid];
      && p.blk >= p.npages
      && s' == WithProc(s, pid, ScanDone(p.sign, p.result))
  }

  /** An index just created by BloomInitMetapage. */
  ghost predicate Init(s: State)
  {
    && s.pages == [] && s.nStart == 0 && s.nEnd == 0 && |s.notFull| == META_BLOCK_N
    && s.fsm == {} && s.metaLock == None && s.procs == map[]
  }

  /** A run: states linked by steps. */
  ghost predicate Run(o: Options, states: seq<State>, steps: seq<Step>)
  {
    && |states| == |steps| + 1
    && Init(states[0])
    && forall k | 0 <= k < |steps| :: Next(o, states[k], states[k + 1], steps[k])
  }

  // ---------- the structural invariant ----------

  ghost predicate ListOk(pages: seq<Page>, blocks: seq<nat>)
  {
    forall k | 0 <= k < |blocks| :: IsData(pages, blocks[k])
  }

  /** What every process may rely on about its own variables. */
  ghost predicate ProcOk(o: Options, s: State, pid: nat, p: Proc)
  {
    match p
    case InsertTry(t, blk) => IsData(s.pages, blk)
    case InsertLoop(t, n) => s.metaLock == Some(pid) && s.nStart <= n <= s.nEnd
    case Build(cached, fed) => FreeSpace(o, |cached|) >= 0 && (cached == [] ==> fed == [])
    case Vacuum(dead, npages, blk, list) =>
      1 <= blk <= npages <= NumBlocks(s) && ListOk(s.pages, list) && |list| <= META_BLOCK_N
    case Cleanup(npages, blk) => 1 <= blk <= npages <= NumBlocks(s)
    case Scan(sign, npages, blk, result) => 1 <= blk <= npages <= NumBlocks(s)
    case _ => true
  }

  ghost predicate PagesOk(o: Options, pages: seq<Page>)
  {
    forall b | 0 <= b < |pages| :: Fitting(o, pages[b]) && (pages[b].LivePage? ==> pages[b].tuples != [])
  }

  ghost predicate MetaOk(s: State)
  {
    && |s.notFull| == META_BLOCK_N
    && s.nStart <= s.nEnd <= META_BLOCK_N
    && ListOk(s.pages, s.notFull[s.nStart..s.nEnd])
  }

  /** The metapage lock is held by a process inside the exclusive section, and by ProcOk by no other. */
  ghost predicate ProcsOk(o: Options, s: State)
  {
    && (forall pid | pid in s.procs :: ProcOk(o, s, pid, s.procs[pid]))
    && (s.metaLock.Some? ==> s.metaLock.value in s.procs && s.procs[s.metaLock.value].InsertLoop?)
  }

  /** Every run keeps this: the list of not-full pages names data blocks only, no
      page overflows or stays live while empty, and at most the lock holder is
      inside the exclusive section. */
  ghost predicate Inv(o: Options, s: State)
  {
    && MetaOk(s)
    && PagesOk(o, s.pages)
    && ProcsOk(o, s)
  }

  lemma {:induction false} InitInv(o: Options, s: State)
    requires Init(s)
    ensures Inv(o, s)
  {
  }

  lemma {:induction false} ListGrows(pages: seq<Page>, pages': seq<Page>, blocks: seq<nat>)
    requires ListOk(pages, blocks) && |pages| <= |pages'|
    ensures ListOk(pages', blocks)
  {
  }

  /** Other processes are undisturbed when blocks are only added and the metapage is left alone. */
  lemma {:induction false} OthersOk(o: Options, s: State, s': State, pid: nat, p: Proc)
    requires ProcsOk(o, s) && |s.pages| <= |s'.pages|
    requires s'.procs == s.procs[pid := p] && ProcOk(o, s', pid, p)
    requires s'.nStart == s.nStart && s'.nEnd == s.nEnd && s'.metaLock == s.metaLock
    requires pid in s.procs && s.procs[pid].InsertLoop? ==> p.InsertLoop?
    ensures ProcsOk(o, s')
  {
  }

  /** When nobody else is in the exclusive section, the metapage may change as well. */
  lemma {:induction false} OthersOkExclusive(o: Options, s: State, s': State, pid: nat, p: Proc)
    requires ProcsOk(o, s) && |s.pages| <= |s'.pages|
    requires s'.procs == s.procs[pid := p] && ProcOk(o, s', pid, p)
    requires s.metaLock == None || s.metaLock == Some(pid)
    requires s'.metaLock == None || (s'.metaLock == Some(pid) && p.InsertLoop?)
    ensures ProcsOk(o, s')
  {
  }

  lemma {:induction false} TryAddOk(o: Options, p: Page, t: BloomTuple)
    ensures TryAdd(o, p, t) != [] ==> Fitting(o, LivePage(TryAdd(o, p, t)))
    ensures TryAdd(o, p, t) != [] ==> TryAdd(o, p, t) == TuplesOf(p) + [t]
  {
  }

  lemma {:induction false} MetaStays(s: State, s': State)
    requires MetaOk(s) && |s.pages| <= |s'.pages|
    requires s'.notFull == s.notFull && s'.nStart == s.nStart && s'.nEnd == s.nEnd
    ensures MetaOk(s')
  {
  }

  lemma {:induction false} WithPageOk(o: Options, s: State, nb: NewBuffer, tuples: seq<BloomTuple>)
    requires PagesOk(o, s.pages) && Grants(s, nb) && tuples != [] && FreeSpace(o, |tuples|) >= 0
    ensures var s' := WithPage(s, nb, tuples);
            PagesOk(o, s'.pages) && |s.pages| <= |s'.pages| && IsData(s'.pages, nb.blk)
  {
  }

  // ---------- one lemma per step ----------

  lemma {:induction false} BeginKeeps(o: Options, s: State, s': State, pid: nat, p: Proc)
    requires ValidOptions(o) && Inv(o, s) && Next(o, s, s', Begin(pid, p))
    ensures Inv(o, s')
  {
    hide MetaOk, PagesOk, ProcsOk;
    MetaStays(s, s');
    OthersOk(o, s, s', pid, p);
  }

  lemma {:induction false} ReadMetaKeeps(o: Options, s: State, s': State, pid: nat)
    requires Inv(o, s) && Next(o, s, s', ReadMeta(pid))
    ensures Inv(o, s')
  {
    hide PagesOk, ProcsOk, FreeSpace;
    MetaStays(s, s');
    if s.nStart < s.nEnd {
      assert s.notFull[s.nStart..s.nEnd][0] == s.notFull[s.nStart];
      assert IsData(s.pages, s.notFull[s.nStart]);
    }
    OthersOk(o, s, s', pid, s'.procs[pid]);
  }

  lemma {:induction false} TryListedKeeps(o: Options, s: State, s': State, pid: nat)
    requires Inv(o, s) && Next(o, s, s', TryListed(pid))
    ensures Inv(o, s')
  {
    hide MetaOk, ProcsOk, FreeSpace, TryAdd, Fitting;
    TryAddOk(o, s.pages[s.procs[pid].blk - 1], s.procs[pid].t);
    MetaStays(s, s');
    OthersOk(o, s, s', pid, s'.procs[pid]);
  }

  lemma {:induction false} LockMetaKeeps(o: Options, s: State, s': State, pid: nat)
    requires Inv(o, s) && Next(o, s, s', LockMeta(pid))
    ensures Inv(o, s')
  {
    hide PagesOk, ProcsOk, FreeSpace;
    MetaStays(s, s');
    OthersOkExclusive(o, s, s', pid, s'.procs[pid]);
  }

  lemma {:induction false} TryNextKeeps(o: Options, s: State, s': State, pid: nat)
    requires Inv(o, s) && Next(o, s, s', TryNext(pid))
    ensures Inv(o, s')
  {
    hide FreeSpace, TryAdd, Fitting;
    var n := s.procs[pid].n;
    assert ProcOk(o, s, pid, s.procs[pid]);
    TryAddOk(o, s.pages[s.notFull[n] - 1], s.procs[pid].t);
    assert s.notFull[n..s.nEnd] == s.notFull[s.nStart..s.nEnd][n - s.nStart..];
    assert ListOk(s.pages, s.notFull[n..s.nEnd]);
    OthersOkExclusive(o, s, s', pid, s'.procs[pid]);
  }

  lemma {:induction false} AllocateKeeps(o: Options, s: State, s': State, pid: nat, nb: NewBuffer)
    requires ValidOptions(o) && Inv(o, s) && Next(o, s, s', Allocate(pid, nb))
    ensures Inv(o, s')
  {
    hide PagesOk, ProcsOk, FreeSpace;
    assert ProcOk(o, s, pid, s.procs[pid]) by { OneProc(o, s, pid); }
    OneFits(o);
    WithPageOk(o, s, nb, [s.procs[pid].t]);
    assert s'.notFull[0..1] == [nb.blk];
    OthersOkExclusive(o, s, s', pid, s'.procs[pid]);
  }

  lemma {:induction false} OneProc(o: Options, s: State, pid: nat)
    requires ProcsOk(o, s) && pid in s.procs
    ensures ProcOk(o, s, pid, s.procs[pid])
  {
  }

  lemma {:induction false} OneFits(o: Options)
    requires ValidOptions(o)
    ensures FreeSpace(o, 1) >= 0
  {
  }

  lemma {:induction false} FeedKeeps(o: Options, s: State, s': State, pid: nat, t: BloomTuple, nb: NewBuffer)
    requires ValidOptions(o) && Inv(o, s) && Next(o, s, s', Feed(pid, t, nb))
    ensures Inv(o, s')
  {
    hide MetaOk, PagesOk, ProcsOk, FreeSpace;
    OneProc(o, s, pid);
    OneFits(o);
    FreshPageFits(o);
    var cached := s.procs[pid].cached;
    if HasRoom(o, |cached|) {
      RoomMonotone(o, |cached|, |cached|);
    } else {
      WithPageOk(o, s, nb, cached);
    }
    MetaStays(s, s');
    OthersOk(o, s, s', pid, s'.procs[pid]);
  }

  lemma {:induction false} FinishBuildKeeps(o: Options, s: State, s': State, pid: nat, nb: NewBuffer)
    requires Inv(o, s) && Next(o, s, s', FinishBuild(pid, nb))
    ensures Inv(o, s')
  {
    hide MetaOk, PagesOk, ProcsOk, FreeSpace;
    OneProc(o, s, pid);
    var cached := s.procs[pid].cached;
    if cached != [] { WithPageOk(o, s, nb, cached); }
    MetaStays(s, s');
    OthersOk(o, s, s', pid, s'.procs[pid]);
  }

  lemma {:induction false} VacuumPageKeeps(o: Options, s: State, s': State, pid: nat)
    requires Inv(o, s) && Next(o, s, s', VacuumPage(pid))
    ensures Inv(o, s')
  {
    hide MetaOk, ProcsOk, Kept, Fitting;
    OneProc(o, s, pid);
    var p := s.procs[pid];
    VacuumedFits(o, s.pages[p.blk - 1], IsDead(p.dead));
    VacuumedNonempty(s.pages[p.blk - 1], IsDead(p.dead));
    MetaStays(s, s');
    ListGrows(s.pages, s'.pages, p.list);
    OthersOk(o, s, s', pid, s'.procs[pid]);
  }

  lemma {:induction false} VacuumedNonempty(p: Page, dead: Tid -> bool)
    requires p.LivePage? ==> p.tuples != []
    ensures Vacuumed(p, dead).LivePage? ==> Vacuumed(p, dead).tuples != []
  {
  }

  lemma {:induction false} FinishVacuumKeeps(o: Options, s: State, s': State, pid: nat)
    requires Inv(o, s) && Next(o, s, s', FinishVacuum(pid))
    ensures Inv(o, s')
  {
    hide PagesOk, ProcsOk, FreeSpace;
    OneProc(o, s, pid);
    var list := s.procs[pid].list;
    assert s'.notFull[0..|list|] == list;
    OthersOkExclusive(o, s, s', pid, VacuumDone);
  }

  lemma {:induction false} ReaderKeeps(o: Options, s: State, s': State, step: Step)
    requires Inv(o, s) && Next(o, s, s', step)
    requires step.CleanupPage? || step.FinishCleanup? || step.ScanPage? || step.FinishScan?
    ensures Inv(o, s')
  {
    hide MetaOk, PagesOk, ProcsOk, FreeSpace, Matches;
    var pid := step.pid;
    OneProc(o, s, pid);
    MetaStays(s, s');
    OthersOk(o, s, s', pid, s'.procs[pid]);
  }

  /** Every step keeps the structural invariant. */
  lemma {:induction false} NextKeeps(o: Options, s: State, s': State, step: Step)
    requires ValidOptions(o) && Inv(o, s) && Next(o, s, s', step)
    ensures Inv(o, s')
  {
    hide Inv, Next;
    match step
    case Begin(pid, p) => BeginKeeps(o, s, s', pid, p);
    case ReadMeta(pid) => ReadMetaKeeps(o, s, s', pid);
    case TryListed(pid) => TryListedKeeps(o, s, s', pid);
    case LockMeta(pid) => LockMetaKeeps(o, s, s', pid);
    case TryNext(pid) => TryNextKeeps(o, s, s', pid);
    case Allocate(pid, nb) => AllocateKeeps(o, s, s', pid, nb);
    case Feed(pid, t, nb) => FeedKeeps(o, s, s', pid, t, nb);
    case FinishBuild(pid, nb) => FinishBuildKeeps(o, s, s', pid, nb);
    case VacuumPage(pid) => VacuumPageKeeps(o, s, s', pid);
    case FinishVacuum(pid) => FinishVacuumKeeps(o, s, s', pid);
    case _ => ReaderKeeps(o, s, s', step);
  }

  /** The invariant holds in every state of every run. */
  lemma {:induction false} RunKeeps(o: Options, states: seq<State>, steps: seq<Step>, k: nat)
    requires ValidOptions(o) && Run(o, states, steps) && k < |states|
    ensures Inv(o, states[k])
  {
    hide Inv, Next, Init;
    if k == 0 {
      InitInv(o, states[0]);
    } else {
      RunKeeps(o, states, steps, k - 1);
      NextKeeps(o, states[k - 1], states[k], steps[k - 1]);
    }
  }
}
