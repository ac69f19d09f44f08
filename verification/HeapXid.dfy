/** Widening a 32-bit transaction id with the help of the next full transaction
    id (FullTransactionIdFromXidAndCtx). */
module HeapXid {
  const TWO31: int := 0x8000_0000
  const TWO32: int := 0x1_0000_0000
  const TWO64: int := 0x1_0000_0000_0000_0000
  const FIRST_NORMAL: nat := 3

  predicate Normal(xid: nat) { xid >= FIRST_NORMAL }

  function Low(full: nat): nat { full % TWO32 }

  /** The difference of two 32-bit ids as a signed 32-bit number. */
  function Diff32(a: nat, b: nat): int
  {
    var m := (a - b) % TWO32;
    if m < TWO31 then m else m - TWO32
  }

  predicate Clamped(next: nat, xid: nat)
  {
    var diff := Diff32(Low(next), xid);
    diff > 0 && next - FIRST_NORMAL < diff
  }

  /** FullTransactionIdFromXidAndCtx */
  function FullFromXid(next: nat, xid: nat): nat
    requires Normal(next) && next < TWO64 && xid < TWO32
  {
    if !Normal(xid) then xid
    else if Clamped(next, xid) then FIRST_NORMAL
    else (next - Diff32(Low(next), xid)) % TWO64
  }

  /** Half the id space before and after `next`. */
  predicate Near(next: nat, full: nat) { next - TWO31 < full <= next + TWO31 }

  lemma {:induction false} DiffOfNear(next: nat, full: nat)
    requires Near(next, full)
    ensures Diff32(Low(next), Low(full)) == next - full
  {
  }

  lemma {:induction false} DiffRange(a: nat, b: nat)
    ensures -TWO31 <= Diff32(a, b) < TWO31
  {
  }

  lemma {:induction false} DiffCongruent(next: nat, xid: nat)
    requires xid < TWO32
    ensures (next - Diff32(Low(next), xid)) % TWO32 == xid
  {
  }

  lemma {:induction false} Wide(x: int)
    ensures (x % TWO64) % TWO32 == x % TWO32
  {
  }

  /** Unless clamped, the result has the 32 bits it was made from; it is never a
      special id. */
  lemma {:induction false} KeepsLowBits(next: nat, xid: nat)
    requires Normal(next) && next < TWO64 && xid < TWO32 && Normal(xid)
    ensures Normal(FullFromXid(next, xid))
    ensures !Clamped(next, xid) ==> Low(FullFromXid(next, xid)) == xid
  {
    hide Diff32, Clamped;
    DiffCongruent(next, xid);
    Wide(next - Diff32(Low(next), xid));
  }

  /** The conversion recovers a full id from its low 32 bits exactly when the id is
      within half the id space of the next one. */
  lemma {:induction false} RecoversExactly(next: nat, full: nat)
    requires Normal(next) && next < TWO64 && full < TWO64 && Normal(Low(full))
    ensures FullFromXid(next, Low(full)) == full <==> Near(next, full) || WrapsTo(next, full)
  {
    hide Diff32;
    DiffRange(Low(next), Low(full));
    DiffCongruent(next, Low(full));
    LowBelow(full);
    if Near(next, full) {
      DiffOfNear(next, full);
      ModWide(full);
    } else {
      NotNear(next, full);
    }
  }

  /** The id lies just past the end of the 64-bit space. */
  predicate WrapsTo(next: nat, full: nat) { full + TWO64 <= next + TWO31 }

  lemma {:induction false} LowBelow(full: nat)
    requires Normal(Low(full))
    ensures full >= FIRST_NORMAL && Low(full) < TWO32
  {
  }

  lemma {:induction false} ModWide(x: int)
    requires 0 <= x < TWO64
    ensures x % TWO64 == x
  {
  }

  lemma {:induction false} NotNear(next: nat, full: nat)
    requires Normal(next) && next < TWO64 && full < TWO64 && Normal(Low(full)) && Low(full) < TWO32 && !Near(next, full)
    ensures FullFromXid(next, Low(full)) == full <==> WrapsTo(next, full)
  {
    hide Diff32, Low;
    var d := Diff32(Low(next), Low(full));
    DiffRange(Low(next), Low(full));
    DiffOfWrapped(next, full);
    var r := next - d;
    if Clamped(next, Low(full)) {
    } else if r < TWO64 {
      ModWide(r);
    } else {
      ModBeyond(r);
    }
  }

  lemma {:induction false} ModBeyond(x: int)
    requires TWO64 <= x < 2 * TWO64
    ensures x % TWO64 == x - TWO64
  {
  }

  lemma {:induction false} DiffOfWrapped(next: nat, full: nat)
    requires next < TWO64
    ensures WrapsTo(next, full) ==> Diff32(Low(next), Low(full)) == next - (full + TWO64)
  {
  }

  /** The result is clamped exactly when no normal full id near `next` has the
      given 32 bits. */
  lemma {:induction false} ClampedExactly(next: nat, xid: nat)
    requires Normal(next) && next < TWO64 && xid < TWO32 && Normal(xid)
    ensures Clamped(next, xid) <==> forall full: nat :: Near(next, full) && Normal(full) ==> Low(full) != xid
  {
    hide Diff32, Low;
    DiffRange(Low(next), xid);
    var r := next - Diff32(Low(next), xid);
    DiffCongruent(next, xid);
    if Clamped(next, xid) {
      forall full: nat | Near(next, full) && Normal(full)
        ensures Low(full) != xid
      {
        DiffOfNear(next, full);
      }
    } else {
      LowIs(r, xid);
    }
  }

  lemma {:induction false} LowIs(r: int, xid: nat)
    requires r >= 0 && r % TWO32 == xid
    ensures Low(r) == xid
  {
  }
}
