/** One page of a bloom index: appending a tuple, and the in-place compaction of
    blbulkdelete. */
module BloomPage {
  import opened BloomSign

  const BLCKSZ := 8192
  const PAGE_HEADER := 24      // MAXALIGN(SizeOfPageHeaderData), also where tuples start
  const PAGE_SPECIAL := 8      // MAXALIGN(sizeof(BloomPageOpaqueData))
  const BLOOMTUPLEHDRSZ := 6

  datatype Tid = Tid(block: nat, offset: nat)

  datatype BloomTuple = BloomTuple(heapPtr: Tid, sign: Signature)

  /** What a page holds: never initialised, deleted by vacuum, or tuples. */
  datatype Page = NewPage | DeletedPage | LivePage(tuples: seq<BloomTuple>)

  function TupleSize(o: Options): nat { BLOOMTUPLEHDRSZ + 2 * o.bloomLength }

  /** BloomPageGetFreeSpace with `n` tuples on the page. */
  function FreeSpace(o: Options, n: nat): int
  {
    BLCKSZ - PAGE_HEADER - n * TupleSize(o) - PAGE_SPECIAL
  }

  predicate HasRoom(o: Options, n: nat) { FreeSpace(o, n) >= TupleSize(o) }

  /** A page whose tuples really fit. */
  predicate Fitting(o: Options, p: Page)
  {
    p.LivePage? ==> FreeSpace(o, |p.tuples|) >= 0
  }

  /** An inserter initialises a new or deleted page, then adds the tuple if it fits. */
  function TryAdd(o: Options, p: Page, t: BloomTuple): (r: seq<BloomTuple>)
    ensures r == [] || r[|r| - 1] == t
  {
    var present := TuplesOf(p);
    if HasRoom(o, |present|) then present + [t] else []
  }

  function Kept(tuples: seq<BloomTuple>, dead: Tid -> bool): (r: seq<BloomTuple>)
    ensures |r| <= |tuples|
  {
    if tuples == [] then []
    else
      var init, t := tuples[..|tuples| - 1], tuples[|tuples| - 1];
      if dead(t.heapPtr) then Kept(init, dead) else Kept(init, dead) + [t]
  }

  /** What blbulkdelete makes of a page; a page that becomes empty is marked deleted. */
  function Vacuumed(p: Page, dead: Tid -> bool): Page
  {
    match p
    case LivePage(ts) =>
      if |Kept(ts, dead)| == |ts| then p
      else if Kept(ts, dead) == [] then DeletedPage
      else LivePage(Kept(ts, dead))
    case _ => p
  }

  /** Whether blbulkdelete lists the page as not full. */
  predicate ListedNotFull(o: Options, p: Page, dead: Tid -> bool)
  {
    p.LivePage? && Kept(p.tuples, dead) != [] && HasRoom(o, |Kept(p.tuples, dead)|)
  }

  /** The heap pointers blgetbitmap collects from a page for a scan signature. */
  function Matches(tuples: seq<BloomTuple>, sign: Signature): set<Tid>
  {
    set t | t in tuples && |t.sign| == |sign| && Covers(t.sign, sign) :: t.heapPtr
  }

  // ---------- facts about the specification ----------

  /** A page has room for another tuple exactly when header, tuples and special area
      then still fit the block. */
  lemma {:induction false} RoomMeaning(o: Options, n: nat)
    ensures HasRoom(o, n) <==> PAGE_HEADER + (n + 1) * TupleSize(o) + PAGE_SPECIAL <= BLCKSZ
  {
    hide TupleSize;
    assert (n + 1) * TupleSize(o) == n * TupleSize(o) + TupleSize(o);
  }

  /** An add to a freshly initialised page always fits. */
  lemma {:induction false} FreshPageFits(o: Options)
    requires ValidOptions(o)
    ensures HasRoom(o, 0)
  {
  }

  lemma {:induction false} RoomMonotone(o: Options, m: nat, n: nat)
    requires m <= n
    ensures FreeSpace(o, n) <= FreeSpace(o, m)
    ensures FreeSpace(o, m + 1) == FreeSpace(o, m) - TupleSize(o)
  {
  }

  lemma {:induction false} MulMonotone(m: nat, n: nat, k: nat)
    requires m <= n
    ensures m * k <= n * k
  {
  }

  lemma {:induction false} KeptStep(tuples: seq<BloomTuple>, i: nat, dead: Tid -> bool)
    requires i < |tuples|
    ensures Kept(tuples[..i + 1], dead) ==
      if dead(tuples[i].heapPtr) then Kept(tuples[..i], dead) else Kept(tuples[..i], dead) + [tuples[i]]
  {
    assert tuples[..i + 1][..i] == tuples[..i];
  }

  /** Exactly the tuples the callback spares survive, and nothing else appears. */
  lemma {:induction false} KeptContents(tuples: seq<BloomTuple>, dead: Tid -> bool, t: BloomTuple)
    ensures multiset(Kept(tuples, dead))[t] == if dead(t.heapPtr) then 0 else multiset(tuples)[t]
  {
    if tuples != [] {
      var n := |tuples| - 1;
      assert tuples == tuples[..n] + [tuples[n]];
      KeptContents(tuples[..n], dead, t);
    }
  }

  /** When nothing was dropped, the kept list is the list. */
  lemma {:induction false} KeptAll(tuples: seq<BloomTuple>, dead: Tid -> bool)
    requires |Kept(tuples, dead)| == |tuples|
    ensures Kept(tuples, dead) == tuples
  {
    if tuples != [] {
      var n := |tuples| - 1;
      KeptAll(tuples[..n], dead);
      assert tuples == tuples[..n] + [tuples[n]];
    }
  }

  function TuplesOf(p: Page): seq<BloomTuple>
  {
    if p.LivePage? then p.tuples else []
  }

  /** Vacuuming a page removes exactly the dead tuples from it. */
  lemma {:induction false} VacuumedTuples(p: Page, dead: Tid -> bool)
    ensures TuplesOf(Vacuumed(p, dead)) == Kept(TuplesOf(p), dead)
  {
    hide Kept;
    if p.LivePage? {
      if |Kept(p.tuples, dead)| == |p.tuples| { KeptAll(p.tuples, dead); }
    } else {
      KeptNothing(dead);
    }
  }

  lemma {:induction false} KeptNothing(dead: Tid -> bool)
    ensures Kept([], dead) == []
  {
  }

  lemma {:induction false} VacuumedFits(o: Options, p: Page, dead: Tid -> bool)
    requires Fitting(o, p)
    ensures Fitting(o, Vacuumed(p, dead))
  {
  }

  lemma {:induction false} Capacity(total: nat, size: nat, n: nat)
    requires size > 0 && n * size <= total
    ensures n <= total / size
  {
    if n > total / size {
      MulMonotone(total / size + 1, n, size);
    }
  }

  // ---------- the page as memory ----------

  /** `slots` is the tuple area behind the page header; `maxoff`, `deleted` and
      `isNew` are the page's bookkeeping, `pdLower` its end-of-data offset. */
  class DataPage {
    const o: Options
    var isNew: bool
    var deleted: bool
    var maxoff: nat
    var pdLower: nat
    const slots: array<BloomTuple>

    ghost predicate Valid()
      reads this, slots
    {
      && ValidOptions(o)
      && (!isNew ==>
            maxoff <= slots.Length && pdLower == PAGE_HEADER + maxoff * TupleSize(o) && FreeSpace(o, maxoff) >= 0)
      && (!isNew && deleted ==> maxoff == 0)
      && (forall n: nat :: FreeSpace(o, n) >= 0 ==> n <= slots.Length)
    }

    ghost function Contents(): Page
      reads this, slots
      requires Valid()
    {
      if isNew then NewPage else if deleted then DeletedPage else LivePage(slots[..maxoff])
    }

    /** A page fresh from extending the relation. */
    constructor (options: Options)
      requires ValidOptions(options)
      ensures Valid() && fresh(slots) && o == options && Contents() == NewPage
    {
      o := options;
      isNew, deleted, maxoff, pdLower := true, false, 0, 0;
      var capacity := (BLCKSZ - PAGE_HEADER - PAGE_SPECIAL) / TupleSize(options);
      slots := new BloomTuple[capacity](_ => BloomTuple(Tid(0, 0), []));
      new;
      forall n: nat | FreeSpace(o, n) >= 0
        ensures n <= slots.Length
      {
        Capacity(BLCKSZ - PAGE_HEADER - PAGE_SPECIAL, TupleSize(o), n);
      }
    }

    /** BloomInitPage */
    method Init()
      requires Valid()
      modifies this
      ensures Valid() && Contents() == LivePage([])
    {
      FreshPageFits(o);
      isNew, deleted, maxoff, pdLower := false, false, 0, PAGE_HEADER;
      assert slots[..0] == [];
    }

    /** BloomPageAddItem */
    method AddItem(t: BloomTuple) returns (added: bool)
      requires Valid() && !isNew && !deleted
      modifies this, slots
      ensures Valid() && !isNew && !deleted
      ensures added == HasRoom(o, old(maxoff))
      ensures Contents() == LivePage(if added then old(slots[..maxoff]) + [t] else old(slots[..maxoff]))
    {
      if FreeSpace(o, maxoff) < TupleSize(o) {
        return false;
      }
      RoomMonotone(o, maxoff, maxoff);
      slots[maxoff] := t;
      maxoff := maxoff + 1;
      pdLower := PAGE_HEADER + maxoff * TupleSize(o);
      return true;
    }

    /** The body of blinsert's attempt on one page: initialise if new or deleted, then add. */
    method InsertHere(t: BloomTuple) returns (added: bool)
      requires Valid()
      modifies this, slots
      ensures Valid()
      ensures added <==> TryAdd(o, old(Contents()), t) != []
      ensures added ==> Contents() == LivePage(TryAdd(o, old(Contents()), t))
      ensures !added ==> Contents() == old(Contents())
    {
      if isNew || deleted {
        Init();
      }
      added := AddItem(t);
    }

    /** The loops of blgetbitmap over one page that is neither new nor deleted. */
    method CollectMatches(sign: Signature) returns (tids: set<Tid>)
      requires Valid() && !isNew && !deleted && |sign| == o.bloomLength
      requires forall k | 0 <= k < maxoff :: |slots[k].sign| == o.bloomLength
      ensures tids == Matches(TuplesOf(Contents()), sign)
    {
      tids := {};
      assert slots[..0] == [];
      for offset := 0 to maxoff
        invariant tids == Matches(slots[..offset], sign)
      {
        var itup := slots[offset];
        var res := true;
        var i := 0;
        while i < o.bloomLength
          invariant i <= o.bloomLength && res
          invariant forall k | 0 <= k < i :: itup.sign[k] * sign[k] == sign[k]
        {
          if itup.sign[i] * sign[i] != sign[i] {
            res := false;
            break;
          }
          i := i + 1;
        }
        if res {
          tids := tids + {itup.heapPtr};
        }
        assert slots[..offset + 1] == slots[..offset] + [itup];
        MatchesAppend(slots[..offset], itup, sign);
      }
    }

    /** The tuple loop of blbulkdelete: live tuples move down over the dead ones, and
        maxoff goes down by one for each dead one, ending where itupPtr ends. */
    method CompactTuples(dead: Tid -> bool) returns (itup: nat, itupPtr: nat, removed: nat)
      requires maxoff <= slots.Length
      modifies this`maxoff, slots
      ensures itup == old(maxoff) && itupPtr == maxoff && removed == old(maxoff) - maxoff
      ensures maxoff <= slots.Length && slots[..maxoff] == Kept(old(slots[..maxoff]), dead)
    {
      hide Kept;
      var itupEnd := maxoff;
      ghost var ts := slots[..itupEnd];
      itup, itupPtr, removed := 0, 0, 0;
      assert ts[..0] == [];
      KeptNothing(dead);
      while itup < itupEnd
        invariant itupPtr <= itup <= itupEnd <= slots.Length
        invariant slots[..itupPtr] == Kept(ts[..itup], dead)
        invariant forall k | itup <= k < itupEnd :: slots[k] == ts[k]
        invariant itupPtr + removed == itup && maxoff + removed == itupEnd
      {
        KeptStep(ts, itup, dead);
        if dead(slots[itup].heapPtr) {
          maxoff := maxoff - 1;
          removed := removed + 1;
        } else {
          ghost var before := slots[..itupPtr];
          if itupPtr != itup {
            slots[itupPtr] := slots[itup];
          }
          assert slots[..itupPtr + 1] == before + [ts[itup]];
          itupPtr := itupPtr + 1;
        }
        itup := itup + 1;
      }
      assert ts[..itup] == ts;
    }

    /** blbulkdelete on a page that is neither new nor deleted. */
    method Compact(dead: Tid -> bool) returns (removed: nat, listed: bool)
      requires Valid() && !isNew && !deleted
      modifies this, slots
      ensures Valid() && Contents() == Vacuumed(old(Contents()), dead)
      ensures !isNew && maxoff <= slots.Length && slots[..maxoff] == Kept(old(slots[..maxoff]), dead)
      ensures removed == old(maxoff) - maxoff
      ensures listed == ListedNotFull(o, old(Contents()), dead)
    {
      hide Kept, FreeSpace;
      ghost var ts := slots[..maxoff];
      var itup, itupPtr;
      itup, itupPtr, removed := CompactTuples(dead);
      RoomMonotone(o, maxoff, |ts|);
      if |Kept(ts, dead)| == |ts| { KeptAll(ts, dead); }
      listed := maxoff != 0 && FreeSpace(o, maxoff) >= TupleSize(o);
      if itupPtr != itup {
        if maxoff == 0 {
          deleted := true;
        }
        pdLower := PAGE_HEADER + itupPtr * TupleSize(o);
      }
    }
  }

  lemma {:induction false} MatchesAppend(ts: seq<BloomTuple>, t: BloomTuple, sign: Signature)
    requires |t.sign| == |sign|
    ensures Matches(ts + [t], sign) == Matches(ts, sign) + (if Covers(t.sign, sign) then {t.heapPtr} else {})
  {
  }
}
