/** Byte memory behind an hstore header: little-endian 32-bit entries followed by
    the string area. Everything that packs, unpacks, copies or moves bytes of an
    hstore goes through this module. */
module HStoreRaw {
  import opened Bytes
  import opened HStoreLayout

  const ISFIRST := 0x8000_0000
  const ISNULL := 0x4000_0000      // one more than HENTRY_POSMASK

  function Pack(e: HEntry): nat
  {
    e.pos % ISNULL + (if e.isNull then ISNULL else 0) + (if e.first then ISFIRST else 0)
  }

  function Unpack(w: nat): HEntry
  {
    HEntry((w / ISFIRST) % 2 == 1, (w / ISNULL) % 2 == 1, w % ISNULL)
  }

  function WordBytes(w: nat): (s: seq<byte>)
    ensures |s| == 4
  {
    [w % 256, (w / 0x100) % 256, (w / 0x1_0000) % 256, (w / 0x100_0000) % 256]
  }

  function WordOf(a: int, b: int, c: int, d: int): int
  {
    a + 0x100 * b + 0x1_0000 * c + 0x100_0000 * d
  }

  function LoadWord(m: seq<byte>, at: nat): nat
    requires at + 4 <= |m|
  {
    WordOf(m[at], m[at + 1], m[at + 2], m[at + 3])
  }

  function LoadEntry(m: seq<byte>, k: nat): HEntry
    requires 4 * k + 4 <= |m|
  {
    Unpack(LoadWord(m, 4 * k))
  }

  function LoadEntries(m: seq<byte>, n: nat): (es: seq<HEntry>)
    requires 4 * n <= |m|
    ensures |es| == n
    ensures forall k | 0 <= k < n :: es[k] == LoadEntry(m, k)
  {
    seq(n, k requires 0 <= k < n => LoadEntry(m, k))
  }

  /** The hstore value that memory `m`, used up to `vlLen`, stands for. */
  function Load(m: seq<byte>, vlLen: nat, count: nat): HStore
    requires HDRSIZE + 8 * count <= vlLen <= HDRSIZE + |m|
  {
    HStore(vlLen, true, count, LoadEntries(m, 2 * count), m[8 * count..vlLen - HDRSIZE])
  }

  lemma {:induction false} UnpackPack(e: HEntry)
    requires e.pos < ISNULL
    ensures Unpack(Pack(e)) == e && Pack(e) < 0x1_0000_0000
  {
  }

  lemma {:induction false} WordRoundTrip(w: nat)
    requires w < 0x1_0000_0000
    ensures WordOf(w % 256, (w / 0x100) % 256, (w / 0x1_0000) % 256, (w / 0x100_0000) % 256) == w
  {
    var w1 := w / 0x100;
    var w2 := w1 / 0x100;
    var w3 := w2 / 0x100;
    assert w2 == w / 0x1_0000;
    assert w3 == w / 0x100_0000 < 0x100;
    assert w == 0x100 * w1 + w % 256 && w1 == 0x100 * w2 + w1 % 256 && w2 == 0x100 * w3 + w2 % 256;
  }

  lemma {:induction false} LoadAfterStore(m: seq<byte>, k: nat, e: HEntry, before: seq<byte>, after: seq<byte>)
    requires e.pos < ISNULL && |before| == 4 * k
    requires m == before + WordBytes(Pack(e)) + after
    ensures LoadEntry(m, k) == e
  {
    UnpackPack(e);
    WordRoundTrip(Pack(e));
    hide Pack, Unpack, WordOf;
    var s := WordBytes(Pack(e));
    assert m[4 * k] == s[0] && m[4 * k + 1] == s[1] && m[4 * k + 2] == s[2] && m[4 * k + 3] == s[3];
  }

  lemma {:induction false} LoadFrame(m: seq<byte>, m': seq<byte>, n: nat)
    requires 4 * n <= |m| && 4 * n <= |m'| && m[..4 * n] == m'[..4 * n]
    ensures LoadEntries(m, n) == LoadEntries(m', n)
  {
  }

  /** `m` with `s` written at `at`. */
  ghost function Written(m: seq<byte>, at: nat, s: seq<byte>): (m': seq<byte>)
    requires at + |s| <= |m|
    ensures |m'| == |m|
  {
    m[..at] + s + m[at + |s|..]
  }

  method MemCopy(mem: array<byte>, at: nat, src: seq<byte>)
    requires at + |src| <= mem.Length
    modifies mem
    ensures mem[..] == Written(old(mem[..]), at, src)
  {
    for j := 0 to |src|
      invariant mem[..at] == old(mem[..at])
      invariant mem[at..at + j] == src[..j]
      invariant mem[at + j..] == old(mem[at + j..])
    {
      mem[at + j] := src[j];
    }
    assert src[..|src|] == src;
  }

  method StoreEntry(mem: array<byte>, k: nat, e: HEntry)
    requires 4 * k + 4 <= mem.Length
    modifies mem
    ensures mem[..] == Written(old(mem[..]), 4 * k, WordBytes(Pack(e)))
  {
    MemCopy(mem, 4 * k, WordBytes(Pack(e)));
  }
}
