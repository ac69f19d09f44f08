/** Bloom signatures: arrays of 16-bit words, the bits a column value sets in them,
    and the test a scan applies. */
module BloomSign {
  import opened Bytes
  import opened BloomRand

  const SIGNWORDBITS := 16
  const INDEX_MAX_KEYS := 32

  /** A 16-bit word as the set of its one-bits: union, intersection and inclusion
      are the bitwise operations the source uses. */
  type Word = set<nat>

  type Signature = seq<Word>

  type AttNo = n: nat | n < INDEX_MAX_KEYS
  type Uint32 = n: nat | n < 0x1_0000_0000

  /** Index options: signature length in words, bits drawn per column. */
  datatype Options = Options(bloomLength: nat, bitSize: seq<nat>)

  predicate ValidOptions(o: Options)
  {
    1 <= o.bloomLength <= 256 && |o.bitSize| == INDEX_MAX_KEYS
  }

  /** SETBIT; a bit number outside the signature, which only the two bad seeds
      produce, is undefined in C and leaves the signature alone here. */
  function SetBit(s: Signature, n: int): (t: Signature)
    ensures |t| == |s|
  {
    if 0 <= n < 16 * |s| then s[n / 16 := s[n / 16] + {n % 16}] else s
  }

  function SetBits(s: Signature, bits: seq<int>): (t: Signature)
    ensures |t| == |s|
  {
    if bits == [] then s else SetBit(SetBits(s, bits[..|bits| - 1]), bits[|bits| - 1])
  }

  predicate HasBit(s: Signature, n: int)
  {
    0 <= n < 16 * |s| ==> n % 16 in s[n / 16]
  }

  /** The word-by-word test of blgetbitmap: every bit of the scan signature is in the tuple's. */
  predicate Covers(t: Signature, q: Signature)
    requires |t| == |q|
  {
    forall i | 0 <= i < |q| :: t[i] * q[i] == q[i]
  }

  // ---------- bit algebra ----------

  lemma {:induction false} SetBitHas(s: Signature, n: int, k: int)
    ensures HasBit(SetBit(s, n), k) <==> HasBit(s, k) || k == n
  {
    assert k == 16 * (k / 16) + k % 16 && n == 16 * (n / 16) + n % 16;
  }

  lemma {:induction false} SetBitsHas(s: Signature, bits: seq<int>, k: int)
    ensures HasBit(SetBits(s, bits), k) <==> HasBit(s, k) || k in bits
  {
    hide HasBit, SetBit;
    if bits != [] {
      var n := |bits| - 1;
      assert bits == bits[..n] + [bits[n]];
      SetBitsHas(s, bits[..n], k);
      SetBitHas(SetBits(s, bits[..n]), bits[n], k);
    }
  }

  lemma {:induction false} CoversSetBit(t: Signature, q: Signature, n: int)
    requires |t| == |q| && Covers(t, q) && HasBit(t, n)
    ensures Covers(t, SetBit(q, n))
  {
  }

  lemma {:induction false} CoversSetBits(t: Signature, q: Signature, bits: seq<int>)
    requires |t| == |q| && Covers(t, q) && forall k | k in bits :: HasBit(t, k)
    ensures Covers(t, SetBits(q, bits))
  {
    hide HasBit, SetBit, Covers;
    if bits != [] {
      var n := |bits| - 1;
      CoversSetBits(t, q, bits[..n]);
      CoversSetBit(t, SetBits(q, bits[..n]), bits[n]);
    }
  }

  // ---------- column values ----------

  /** One non-null column of an indexed row, or one scan key: column number and hash of the value. */
  datatype Column = Column(attno: AttNo, hash: Uint32)

  /** The bit numbers a column sets. */
  function ColumnBits(o: Options, c: Column): seq<int>
    requires ValidOptions(o)
  {
    Bits(SeedState(ValueSeed(c.attno, c.hash)), o.bitSize[c.attno], o.bloomLength * SIGNWORDBITS)
  }

  /** Every bit number lies inside the signature unless the seed is one of two. */
  lemma {:induction false} ColumnBitsInRange(o: Options, c: Column)
    requires ValidOptions(o)
    ensures var seed := ValueSeed(c.attno, c.hash);
            forall k | k in ColumnBits(o, c) ::
              0 <= k < 16 * o.bloomLength <==> seed != 0x8000_0001 && seed != 0xffff_ffff
  {
    hide Bits, ValueSeed, SeedState;
    SeedDomain(ValueSeed(c.attno, c.hash));
    BitsInRange(SeedState(ValueSeed(c.attno, c.hash)), o.bitSize[c.attno], o.bloomLength * SIGNWORDBITS);
  }

  /** The hash that leads, in column `attno`, to the seed 0x80000001. */
  function BadColumn(attno: AttNo): Column
  {
    Column(attno, Xor32(0x8000_0001, A * (attno + 1) - 1))
  }

  lemma {:induction false} BadSeed(attno: AttNo)
    ensures ValueSeed(attno, BadColumn(attno).hash) == 0x8000_0001
  {
    hide ValueSeed, Xor32;
    ValueSeedIs(attno, BadColumn(attno).hash);
    Xor32Twice(0x8000_0001, A * (attno + 1) - 1);
  }

  /** In every column there is a hash whose bit numbers are all minus one, outside
      every signature. */
  lemma {:induction false} BadColumnBits(o: Options, attno: AttNo, j: nat)
    requires ValidOptions(o) && j < |ColumnBits(o, BadColumn(attno))|
    ensures ColumnBits(o, BadColumn(attno))[j] == -1
  {
    hide ValueSeed, SeedState, Bits, Xor32;
    BadSeed(attno);
    SeedDomain(0x8000_0001);
    BitsInRange(SeedState(0x8000_0001), o.bitSize[attno], o.bloomLength * SIGNWORDBITS);
  }

  /** Bit number j of a column value, in closed form. */
  lemma {:induction false} ColumnBitAt(o: Options, c: Column, j: nat)
    requires ValidOptions(o) && j < o.bitSize[c.attno]
    requires ValueSeed(c.attno, c.hash) != 0x8000_0001 && ValueSeed(c.attno, c.hash) != 0xffff_ffff
    ensures var seed := Xor32(c.hash, A * (c.attno + 1) - 1);
            |ColumnBits(o, c)| == o.bitSize[c.attno] &&
            ColumnBits(o, c)[j] == ((Power(j + 1) * SeedState(seed)) % P - 1) % (16 * o.bloomLength)
  {
    hide ValueSeed, SeedState, Bits, Xor32, Power;
    ValueSeedIs(c.attno, c.hash);
    SeedDomain(ValueSeed(c.attno, c.hash));
    BitAt(SeedState(ValueSeed(c.attno, c.hash)), o.bitSize[c.attno], o.bloomLength * SIGNWORDBITS, j);
  }

  /** The signature obtained by signing `cols` in order, starting from `s`. */
  function SignAll(o: Options, s: Signature, cols: seq<Column>): (t: Signature)
    requires ValidOptions(o)
    ensures |t| == |s|
  {
    if cols == [] then s
    else SetBits(SignAll(o, s, cols[..|cols| - 1]), ColumnBits(o, cols[|cols| - 1]))
  }

  function Blank(o: Options): (s: Signature)
    ensures |s| == o.bloomLength
  {
    seq(o.bloomLength, _ => {})
  }

  /** A signature gains exactly the bits of the columns; a bit number outside the
      signature counts as set. */
  lemma {:induction false} SignAllExact(o: Options, s: Signature, cols: seq<Column>, k: int)
    requires ValidOptions(o)
    ensures HasBit(SignAll(o, s, cols), k) <==> HasBit(s, k) || exists c :: c in cols && k in ColumnBits(o, c)
  {
    hide HasBit, SetBits, ColumnBits;
    if cols != [] {
      var n := |cols| - 1;
      assert cols == cols[..n] + [cols[n]];
      SignAllExact(o, s, cols[..n], k);
      SetBitsHas(SignAll(o, s, cols[..n]), ColumnBits(o, cols[n]), k);
    }
  }

  /** A row whose columns agree with every scan key always passes the scan's test. */
  lemma {:induction false} MatchingRowCovered(o: Options, row: seq<Column>, keys: seq<Column>)
    requires ValidOptions(o) && forall c | c in keys :: c in row
    ensures Covers(SignAll(o, Blank(o), row), SignAll(o, Blank(o), keys))
  {
    hide HasBit, SetBits, ColumnBits, Covers;
    var t := SignAll(o, Blank(o), row);
    if keys == [] {
      BlankCovered(o, t);
    } else {
      var n := |keys| - 1;
      assert keys == keys[..n] + [keys[n]];
      MatchingRowCovered(o, row, keys[..n]);
      var bits := ColumnBits(o, keys[n]);
      forall k | k in bits
        ensures HasBit(t, k)
      {
        SignAllExact(o, Blank(o), row, k);
      }
      CoversSetBits(t, SignAll(o, Blank(o), keys[..n]), bits);
    }
  }

  lemma {:induction false} BlankCovered(o: Options, t: Signature)
    requires |t| == o.bloomLength
    ensures Covers(t, Blank(o))
  {
  }

  // ---------- the loops ----------

  /** signValue: seed the generator from column and hash, then set bitSize bits in place. */
  method SignValue(o: Options, sign: array<Word>, c: Column, gen: Generator)
    requires ValidOptions(o) && sign.Length == o.bloomLength
    modifies sign, gen
    ensures sign[..] == SetBits(old(sign[..]), ColumnBits(o, c))
  {
    hide NextState, SeedState, TruncMod, Xor32, ValueSeed;
    var m := o.bloomLength * SIGNWORDBITS;
    SeedIs(c.attno, c.hash);
    gen.MySrand(c.attno);
    var r := gen.MyRand();
    gen.MySrand(Xor32(c.hash, r));
    ghost var bits := ColumnBits(o, c);
    assert bits[..0] == [];
    for j := 0 to o.bitSize[c.attno]
      invariant -P < gen.next < P
      invariant sign[..] == SetBits(old(sign[..]), bits[..j])
      invariant Bits(gen.next, o.bitSize[c.attno] - j, m) == bits[j..]
    {
      r := gen.MyRand();
      var nBit := TruncMod(r, m);
      assert bits[j..][0] == nBit && bits[j..][1..] == bits[j + 1..];
      ghost var before := sign[..];
      if 0 <= nBit < m {
        sign[nBit / 16] := sign[nBit / 16] + {nBit % 16};
      }
      assert sign[..] == SetBit(before, nBit);
      assert bits[..j + 1] == bits[..j] + [nBit];
    }
    assert bits[..o.bitSize[c.attno]] == bits;
  }

  lemma {:induction false} SeedIs(attno: AttNo, hash: Uint32)
    ensures 0 <= NextState(SeedState(attno)) - 1 < 0x1_0000_0000
    ensures ValueSeed(attno, hash) == Xor32(hash, NextState(SeedState(attno)) - 1)
  {
  }

  /** The columns of a row whose hashed values are given, nulls skipped. */
  function RowColumns(values: seq<Option<Uint32>>, n: nat): seq<Column>
    requires n <= |values| <= INDEX_MAX_KEYS
  {
    if n == 0 then []
    else if values[n - 1].None? then RowColumns(values, n - 1)
    else RowColumns(values, n - 1) + [Column(n - 1, values[n - 1].value)]
  }

  /** BloomFormTuple's signature: every non-null column, in column order. */
  method FormSignature(o: Options, values: seq<Option<Uint32>>) returns (sign: Signature)
    requires ValidOptions(o) && |values| <= INDEX_MAX_KEYS
    ensures sign == SignAll(o, Blank(o), RowColumns(values, |values|))
  {
    hide Bits, ColumnBits, SetBits;
    var gen := new Generator();
    var res := new Word[o.bloomLength](_ => {});
    assert res[..] == Blank(o);
    for i := 0 to |values|
      invariant res[..] == SignAll(o, Blank(o), RowColumns(values, i))
    {
      if values[i].Some? {
        ghost var cols := RowColumns(values, i);
        assert (cols + [Column(i, values[i].value)])[..|cols|] == cols;
        SignValue(o, res, Column(i, values[i].value), gen);
      }
    }
    sign := res[..];
  }

  /** The scan signature of blgetbitmap; a null key means nothing can match. */
  method ScanSignature(o: Options, keys: seq<Option<Column>>) returns (sign: Option<Signature>)
    requires ValidOptions(o)
    ensures sign.None? <==> None in keys
    ensures sign.Some? ==> sign.value == SignAll(o, Blank(o), KeyColumns(keys, |keys|))
  {
    hide Bits, ColumnBits, SetBits;
    var gen := new Generator();
    var res := new Word[o.bloomLength](_ => {});
    assert res[..] == Blank(o);
    for i := 0 to |keys|
      invariant None !in keys[..i]
      invariant res[..] == SignAll(o, Blank(o), KeyColumns(keys, i))
    {
      assert keys[..i + 1] == keys[..i] + [keys[i]];
      if keys[i].None? {
        return None;
      }
      ghost var cols := KeyColumns(keys, i);
      assert (cols + [keys[i].value])[..|cols|] == cols;
      SignValue(o, res, keys[i].value, gen);
    }
    assert keys[..|keys|] == keys;
    return Some(res[..]);
  }

  function KeyColumns(keys: seq<Option<Column>>, n: nat): seq<Column>
    requires n <= |keys|
  {
    if n == 0 then []
    else if keys[n - 1].None? then KeyColumns(keys, n - 1)
    else KeyColumns(keys, n - 1) + [keys[n - 1].value]
  }
}
