/** The private random generator of the bloom access method (blutils.c): Schrage's
    method for x' = 7^5 * x mod (2^31 - 1), in C arithmetic on 32-bit integers. */
module BloomRand {

  const P := 0x7fff_ffff        // 2^31 - 1
  const A := 16807
  const Q := 127773
  const R := 2836

  predicate Int32(x: int) { -0x8000_0000 <= x < 0x8000_0000 }

  /** C division and remainder, truncating toward zero. */
  function TruncDiv(x: int, y: int): int
    requires y > 0
  {
    if x >= 0 then x / y else -((-x) / y)
  }

  function TruncMod(x: int, y: int): int
    requires y > 0
  {
    x - y * TruncDiv(x, y)
  }

  /** Conversion of an unsigned 32-bit value to int32. */
  function ToInt32(u: nat): int { if u < 0x8000_0000 then u else u - 0x1_0000_0000 }

  /** The unreduced value 16807 * lo - 2836 * hi. */
  function Schrage(next: int): int
  {
    A * TruncMod(next, Q) - R * TruncDiv(next, Q)
  }

  /** The generator state after one myRand. */
  function NextState(next: int): int
  {
    var x := Schrage(next);
    if x < 0 then x + P else x
  }

  function SeedState(seed: nat): int
  {
    TruncMod(ToInt32(seed), 0x7fff_fffe) + 1
  }

  lemma {:induction false} TruncBounds(x: int, y: int)
    requires y > 0
    ensures -y < TruncMod(x, y) < y
    ensures x >= 0 ==> TruncMod(x, y) >= 0 && TruncDiv(x, y) >= 0
    ensures x <= 0 ==> TruncMod(x, y) <= 0 && TruncDiv(x, y) <= 0
    ensures x == y * TruncDiv(x, y) + TruncMod(x, y)
  {
  }

  lemma {:induction false} QuotientBound(next: int)
    requires -P < next < P
    ensures -A <= TruncDiv(next, Q) <= A
  {
  }

  /** No intermediate value of myRand leaves the int32 range. */
  lemma {:induction false} NoOverflow(next: int)
    requires -P < next < P
    ensures Int32(A * TruncMod(next, Q)) && Int32(R * TruncDiv(next, Q)) && Int32(Schrage(next))
    ensures -P < Schrage(next) < P
  {
  }

  /** Reduction modulo 2^31 - 1, exactly. */
  lemma {:induction false} SchrageCongruent(next: int)
    ensures Schrage(next) == A * next - P * TruncDiv(next, Q)
  {
  }

  /** The unreduced value vanishes only at 0, because 16807 and 2836 have no common factor. */
  lemma {:induction false} SchrageNonzero(next: int)
    requires -P < next < P && next != 0
    ensures Schrage(next) != 0
  {
    hide TruncMod, TruncDiv;
    var hi, lo := TruncDiv(next, Q), TruncMod(next, Q);
    TruncBounds(next, Q);
    QuotientBound(next);
    if A * lo == R * hi { CommonFactor(hi, lo); }
  }

  lemma {:induction false} CommonFactor(hi: int, lo: int)
    requires A * lo == R * hi && -A <= hi <= A && -Q < lo < Q
    ensures (hi == 0 && lo == 0) || (hi == A && lo == R) || (hi == -A && lo == -R)
  {
  }

  /** From every state but 0 the generator moves to the value in [1, 2^31 - 2] that
      is congruent to 16807 times it; 0 is the one fixed point outside that range. */
  lemma {:induction false} GeneratorStep(next: int)
    requires -P < next < P
    ensures next != 0 ==> 1 <= NextState(next) < P
    ensures next == 0 ==> NextState(next) == 0
    ensures (A * next - NextState(next)) % P == 0
  {
    hide TruncMod, TruncDiv;
    NoOverflow(next);
    SchrageCongruent(next);
    TruncBounds(next, Q);
    if next != 0 { SchrageNonzero(next); }
    var k := TruncDiv(next, Q);
    assert A * next - NextState(next) == P * k || A * next - NextState(next) == P * (k - 1);
    MultipleOfP(k);
    MultipleOfP(k - 1);
  }

  lemma {:induction false} MultipleOfP(k: int)
    ensures (P * k) % P == 0
  {
  }

  /** Seeding lands in the generator's domain, and on the bad state 0 for exactly two seeds. */
  lemma {:induction false} SeedDomain(seed: nat)
    requires seed < 0x1_0000_0000
    ensures -P < SeedState(seed) < P
    ensures SeedState(seed) == 0 <==> seed == 0x8000_0001 || seed == 0xffff_ffff
  {
  }

  // ---------- the bits of a value ----------

  /** The bit numbers `n` successive draws give, for a signature of `m` bits. */
  function Bits(state: int, n: nat, m: nat): (bits: seq<int>)
    requires m > 0
    ensures |bits| == n
    decreases n
  {
    if n == 0 then []
    else [TruncMod(NextState(state) - 1, m)] + Bits(NextState(state), n - 1, m)
  }

  /** From a nonzero state every bit number is valid; from state 0 every one is -1. */
  lemma {:induction false} BitsInRange(state: int, n: nat, m: nat)
    requires -P < state < P && m > 1
    ensures state != 0 ==> forall j | 0 <= j < n :: 0 <= Bits(state, n, m)[j] < m
    ensures state == 0 ==> forall j | 0 <= j < n :: Bits(state, n, m)[j] == -1
    decreases n
  {
    hide NextState;
    if n > 0 {
      GeneratorStep(state);
      TruncBounds(NextState(state) - 1, m);
      BitsInRange(NextState(state), n - 1, m);
    }
  }

  function TwoTo(n: nat): nat { if n == 0 then 1 else 2 * TwoTo(n - 1) }

  /** Exclusive or of the lowest n bits. */
  function XorBits(a: nat, b: nat, n: nat): nat
    decreases n
  {
    if n == 0 then 0 else 2 * XorBits(a / 2, b / 2, n - 1) + (if a % 2 == b % 2 then 0 else 1)
  }

  lemma {:induction false} XorBound(a: nat, b: nat, n: nat)
    ensures XorBits(a, b, n) < TwoTo(n)
  {
    if n > 0 { XorBound(a / 2, b / 2, n - 1); }
  }

  lemma {:induction false} TwoToFour(n: nat)
    ensures TwoTo(n + 4) == 16 * TwoTo(n)
  {
    assert TwoTo(n + 2) == 2 * TwoTo(n + 1);
    assert TwoTo(n + 4) == 2 * TwoTo(n + 3);
  }

  lemma {:induction false} TwoTo32()
    ensures TwoTo(32) == 0x1_0000_0000
  {
    assert TwoTo(0) == 1;
    hide TwoTo;
    TwoToFour(0);
    TwoToFour(4);
    TwoToFour(8);
    TwoToFour(12);
    TwoToFour(16);
    TwoToFour(20);
    TwoToFour(24);
    TwoToFour(28);
  }

  /** Taking the exclusive or twice gives back the first operand. */
  lemma {:induction false} XorTwice(a: nat, b: nat, n: nat)
    requires a < TwoTo(n)
    ensures XorBits(XorBits(a, b, n), b, n) == a
    decreases n
  {
    if n > 0 {
      XorTwice(a / 2, b / 2, n - 1);
      var c, c' := XorBits(a, b, n), XorBits(a / 2, b / 2, n - 1);
      assert c / 2 == c' && c % 2 == if a % 2 == b % 2 then 0 else 1;
    }
  }

  lemma {:induction false} XorInjective(h: nat, x: nat, y: nat, n: nat)
    requires x < TwoTo(n) && y < TwoTo(n) && XorBits(h, x, n) == XorBits(h, y, n)
    ensures x == y
    decreases n
  {
    if n > 0 {
      assert XorBits(h, x, n) % 2 == XorBits(h, y, n) % 2;
      XorInjective(h / 2, x / 2, y / 2, n - 1);
    }
  }

  function Xor32(a: nat, b: nat): (c: nat)
    ensures c < 0x1_0000_0000
  {
    XorBound(a, b, 32);
    TwoTo32();
    XorBits(a, b, 32)
  }

  /** The seed signValue uses for a value with hash `hash` in column `attno`. */
  function ValueSeed(attno: nat, hash: nat): (seed: nat)
    requires attno < 32 && hash < 0x1_0000_0000
    ensures seed < 0x1_0000_0000
  {
    SeedDomain(attno);
    GeneratorStep(SeedState(attno));
    Xor32(hash, NextState(SeedState(attno)) - 1)
  }

  // ---------- the numbers drawn, in closed form ----------

  function Power(k: nat): nat { if k == 0 then 1 else A * Power(k - 1) }

  /** The state after k draws. */
  function Drawn(state: int, k: nat): int
  {
    if k == 0 then state else NextState(Drawn(state, k - 1))
  }

  lemma {:induction false} ModUnique(y: int, x: int, t: int)
    requires 0 <= x < P && x == y - P * t
    ensures x == y % P
  {
  }

  lemma {:induction false} Quotient(d: int)
    requires d % P == 0
    ensures d == P * (d / P)
  {
  }

  lemma {:induction false} PowerStep(k: nat, state: int, x: int, r: int)
    requires k > 0 && x == Power(k - 1) * state - P * r
    ensures A * x == Power(k) * state - P * (A * r)
  {
    var p := Power(k - 1);
    assert Power(k) * state == A * (p * state);
  }

  /** The state after k draws is 7^(5k) times the seed state modulo 2^31 - 1. */
  lemma {:induction false} DrawnIs(state: int, k: nat)
    requires -P < state < P && state != 0
    ensures -P < Drawn(state, k) < P && Drawn(state, k) != 0
    ensures k > 0 ==> 1 <= Drawn(state, k) == (Power(k) * state) % P
  {
    var r := DrawnMultiple(state, k);
    hide NextState, Power;
    if k > 0 { ModUnique(Power(k) * state, Drawn(state, k), r); }
  }

  lemma {:induction false} DrawnMultiple(state: int, k: nat) returns (r: int)
    requires -P < state < P && state != 0
    ensures -P < Drawn(state, k) < P && Drawn(state, k) != 0 && (k > 0 ==> Drawn(state, k) >= 1)
    ensures Drawn(state, k) == Power(k) * state - P * r
  {
    hide NextState;
    r := 0;
    if k > 0 {
      r := DrawnMultiple(state, k - 1);
      var x := Drawn(state, k - 1);
      GeneratorStep(x);
      Quotient(A * x - NextState(x));
      PowerStep(k, state, x, r);
      hide Power;
      var q := (A * x - NextState(x)) / P;
      assert P * (A * r + q) == P * (A * r) + P * q;
      r := A * r + q;
    }
  }

  lemma {:induction false} DrawnShift(state: int, k: nat)
    ensures Drawn(NextState(state), k) == Drawn(state, k + 1)
  {
    hide NextState;
    if k > 0 { DrawnShift(state, k - 1); }
  }

  /** Bit number j of a value, from its seed state. */
  lemma {:induction false} BitAt(state: int, n: nat, m: nat, j: nat)
    requires -P < state < P && state != 0 && m > 1 && j < n
    ensures Bits(state, n, m)[j] == ((Power(j + 1) * state) % P - 1) % m
    decreases n
  {
    hide NextState, Bits, Power, TruncMod, Drawn;
    BitDrawn(state, n, m, j);
    DrawnIs(state, j + 1);
    TruncModPositive(Drawn(state, j + 1) - 1, m);
  }

  lemma {:induction false} TruncModPositive(x: int, m: nat)
    requires x >= 0 && m > 0
    ensures TruncMod(x, m) == x % m
  {
  }

  lemma {:induction false} BitDrawn(state: int, n: nat, m: nat, j: nat)
    requires m > 1 && j < n
    ensures Bits(state, n, m)[j] == TruncMod(Drawn(state, j + 1) - 1, m)
    decreases n
  {
    hide NextState, TruncMod;
    if j > 0 {
      BitDrawn(NextState(state), n - 1, m, j - 1);
      DrawnShift(state, j);
    } else {
      assert Drawn(state, 1) == NextState(Drawn(state, 0));
    }
  }

  /** The generator, seeded with the column number, gives the number the hash of a
      value is combined with. */
  lemma {:induction false} ValueSeedIs(attno: nat, hash: nat)
    requires attno < 32 && hash < 0x1_0000_0000
    ensures ValueSeed(attno, hash) == Xor32(hash, A * (attno + 1) - 1)
  {
    hide Xor32, SeedState, NextState;
    SmallSeed(attno);
    SmallDraw(attno + 1);
  }

  lemma {:induction false} SmallSeed(seed: nat)
    requires seed < 32
    ensures SeedState(seed) == seed + 1
  {
  }

  lemma {:induction false} SmallDraw(state: nat)
    requires state <= 32
    ensures NextState(state) == A * state
  {
    assert state / Q == 0;
  }

  lemma {:induction false} Xor32Injective(h: nat, x: nat, y: nat)
    requires x < 0x1_0000_0000 && y < 0x1_0000_0000 && Xor32(h, x) == Xor32(h, y)
    ensures x == y
  {
    hide XorBits, TwoTo;
    TwoTo32();
    XorInjective(h, x, y, 32);
  }

  lemma {:induction false} Xor32Twice(a: nat, b: nat)
    requires a < 0x1_0000_0000
    ensures Xor32(Xor32(a, b), b) == a
  {
    hide XorBits, TwoTo;
    TwoTo32();
    XorTwice(a, b, 32);
  }

  /** The same value in two columns seeds the generator differently. */
  lemma {:induction false} ColumnsDiffer(attno1: nat, attno2: nat, hash: nat)
    requires attno1 < 32 && attno2 < 32 && attno1 != attno2 && hash < 0x1_0000_0000
    ensures ValueSeed(attno1, hash) != ValueSeed(attno2, hash)
  {
    hide Xor32, ValueSeed;
    ValueSeedIs(attno1, hash);
    ValueSeedIs(attno2, hash);
    var x, y := A * (attno1 + 1) - 1, A * (attno2 + 1) - 1;
    if Xor32(hash, x) == Xor32(hash, y) { Xor32Injective(hash, x, y); }
  }

  /** The static generator state, with myRand and mySrand. */
  class Generator {
    var next: int

    constructor ()
    {
      next := 0;
    }

    method MyRand() returns (r: int)
      requires -P < next < P
      modifies this
      ensures next == NextState(old(next)) && r == next - 1
      ensures -P < next < P
    {
      GeneratorStep(next);
      var hi := TruncDiv(next, Q);
      var lo := TruncMod(next, Q);
      var x := A * lo - R * hi;
      if x < 0 {
        x := x + P;
      }
      next := x;
      r := x - 1;
    }

    method MySrand(seed: nat)
      requires seed < 0x1_0000_0000
      modifies this
      ensures next == SeedState(seed) && -P < next < P
    {
      SeedDomain(seed);
      next := ToInt32(seed);
      next := TruncMod(next, 0x7fff_fffe) + 1;
    }
  }
}
