/** Checks of toasted values in verify_heapam.c: the chunks of a value are read in
    index order and compared with what its size calls for. */
module HeapToast {
  import opened Bytes

  /** The data column of a toast tuple; sizes are net of the header. */
  datatype ChunkData = NullData | Plain(size: int) | Short(size: int) | OtherVarlena

  /** A toast tuple: its sequence number, unless null, and its data. */
  datatype Chunk = Chunk(chunkSeq: Option<int>, data: ChunkData)

  datatype Finding =
    | NullSequence
    | WrongSequence(got: int, expected: int)
    | NullChunk(chunkSeq: int)
    | InvalidHeader(chunkSeq: int)
    | FollowsLast(chunkSeq: int)
    | WrongSize(chunkSeq: int, size: int, expected: int)
    | NotFound
    | EndedEarly(expected: int)

  const TWO32: nat := 0x1_0000_0000

  /** int32 conversion */
  function Int32(x: int): int
  {
    var m := x % TWO32;
    if m < 0x8000_0000 then m else m - TWO32
  }

  /** The number of the last chunk; the subtraction is unsigned. */
  function LastChunk(extsize: nat, maxChunk: nat): nat
    requires maxChunk > 0
  {
    ((extsize + TWO32 - 1) % TWO32) / maxChunk
  }

  /** The size chunk `s` should have; the subtraction for the last chunk wraps. */
  function ExpectedSize(extsize: nat, maxChunk: nat, s: int): int
    requires maxChunk > 0
  {
    var last := LastChunk(extsize, maxChunk);
    if s < last then maxChunk else Int32(extsize - last * maxChunk)
  }

  /** A chunk is what position `s` of an intact value holds. */
  predicate GoodChunk(c: Chunk, s: int, extsize: nat, maxChunk: nat)
    requires maxChunk > 0
  {
    && c.chunkSeq == Some(s)
    && (c.data.Plain? || c.data.Short?)
    && s <= LastChunk(extsize, maxChunk)
    && c.data.size == ExpectedSize(extsize, maxChunk, s)
  }

  /** Chunks 0 .. last in order, each of its proper size. */
  predicate Intact(chunks: seq<Chunk>, extsize: nat, maxChunk: nat)
    requires maxChunk > 0
  {
    && |chunks| == LastChunk(extsize, maxChunk) + 1
    && forall i | 0 <= i < |chunks| :: GoodChunk(chunks[i], i, extsize, maxChunk)
  }

  class HeapCheckContext {
    var reports: seq<Finding>
    var isCorrupt: bool

    constructor ()
      ensures reports == [] && !isCorrupt
    {
      reports, isCorrupt := [], false;
    }

    /** report_toast_corruption */
    method Report(f: Finding)
      modifies this
      ensures reports == old(reports) + [f] && isCorrupt
    {
      reports, isCorrupt := reports + [f], true;
    }

    /** check_toast_tuple: silent exactly when the chunk is the expected one. */
    method CheckToastTuple(c: Chunk, expected: int, extsize: nat, maxChunk: nat) returns (next: int)
      requires maxChunk > 0
      modifies this
      ensures reports == old(reports) <==> GoodChunk(c, expected, extsize, maxChunk)
      ensures old(reports) <= reports
      ensures reports == old(reports) ==> isCorrupt == old(isCorrupt)
      ensures reports != old(reports) ==> isCorrupt
      ensures next == if c.chunkSeq.None? then expected else Int32(c.chunkSeq.value + 1)
    {
      hide LastChunk, Int32, ExpectedSize;
      var last := LastChunk(extsize, maxChunk);
      if c.chunkSeq.None? {
        Report(NullSequence);
        return expected;
      }
      var s := c.chunkSeq.value;
      if s != expected {
        Report(WrongSequence(s, expected));
      }
      next := Int32(s + 1);
      if c.data.NullData? {
        Report(NullChunk(s));
        return;
      }
      if c.data.OtherVarlena? {
        Report(InvalidHeader(s));
        return;
      }
      if s > last {
        Report(FollowsLast(s));
        return;
      }
      var expectedSize := ExpectedSize(extsize, maxChunk, s);
      if c.data.size != expectedSize {
        Report(WrongSize(s, c.data.size, expectedSize));
      }
    }

    /** check_toasted_attribute over the chunks the index scan returns: nothing is
        reported exactly when the value is intact. The chunk size is a build
        constant, large enough for chunk numbers to fit an int32. */
    method CheckToastedAttribute(chunks: seq<Chunk>, extsize: nat, maxChunk: nat)
      requires maxChunk > 2
      modifies this
      ensures reports == old(reports) <==> Intact(chunks, extsize, maxChunk)
      ensures old(reports) <= reports
    {
      hide LastChunk, GoodChunk, Int32;
      var expected := 0;
      var last := LastChunk(extsize, maxChunk);
      LastFits(extsize, maxChunk);
      for i := 0 to |chunks|
        invariant old(reports) <= reports
        invariant reports == old(reports) <==> forall k | 0 <= k < i :: GoodChunk(chunks[k], k, extsize, maxChunk)
        invariant reports == old(reports) ==> expected == i
      {
        expected := CheckToastTuple(chunks[i], expected, extsize, maxChunk);
        if reports == old(reports) {
          GoodSeq(chunks[i], i, extsize, maxChunk);
        }
      }
      if chunks == [] {
        Report(NotFound);
      } else if expected <= last {
        Report(EndedEarly(expected));
      } else if reports == old(reports) {
        GoodSeq(chunks[|chunks| - 1], |chunks| - 1, extsize, maxChunk);
      }
    }
  }

  lemma {:induction false} LastFits(extsize: nat, maxChunk: nat)
    requires maxChunk > 2
    ensures LastChunk(extsize, maxChunk) + 1 < 0x8000_0000
  {
  }

  lemma {:induction false} GoodSeq(c: Chunk, s: nat, extsize: nat, maxChunk: nat)
    requires maxChunk > 0 && GoodChunk(c, s, extsize, maxChunk)
    ensures c.chunkSeq == Some(s) && s <= LastChunk(extsize, maxChunk)
    ensures s + 1 < 0x8000_0000 ==> Int32(s + 1) == s + 1
  {
  }

  // ---------- the total ----------

  function Total(chunks: seq<Chunk>): int
  {
    if chunks == [] then 0
    else
      var d := chunks[|chunks| - 1].data;
      Total(chunks[..|chunks| - 1]) + if d.Plain? || d.Short? then d.size else 0
  }

  /** The bytes a size word stands for: zero reads as 2^32. */
  function Bytes32(extsize: nat): nat
  {
    if extsize == 0 then TWO32 else extsize
  }

  lemma {:induction false} SizeBelow(extsize: nat)
    requires extsize < TWO32
    ensures (extsize + TWO32 - 1) % TWO32 == Bytes32(extsize) - 1
  {
  }

  lemma {:induction false} ChunkBounds(e: nat, maxChunk: nat)
    requires maxChunk > 0
    ensures var last := e / maxChunk;
            last * maxChunk <= e < last * maxChunk + maxChunk && (last + 1) * maxChunk == last * maxChunk + maxChunk
  {
    var last := e / maxChunk;
    assert e == last * maxChunk + e % maxChunk;
  }

  lemma {:induction false} Int32Small(x: nat)
    requires x < 0x8000_0000
    ensures Int32(x) == x && Int32(x - TWO32) == x
  {
  }

  lemma {:induction false} LastSize(extsize: nat, maxChunk: nat)
    requires 0 < maxChunk < 0x8000_0000 && extsize < TWO32
    ensures var last := LastChunk(extsize, maxChunk);
            && last * maxChunk < Bytes32(extsize) <= (last + 1) * maxChunk
            && ExpectedSize(extsize, maxChunk, last) == Bytes32(extsize) - last * maxChunk
  {
    hide Int32;
    SizeBelow(extsize);
    var e := Bytes32(extsize);
    ChunkBounds(e - 1, maxChunk);
    var last := LastChunk(extsize, maxChunk);
    Int32Small(e - last * maxChunk);
  }

  lemma {:induction false} FullChunks(chunks: seq<Chunk>, n: nat, extsize: nat, maxChunk: nat)
    requires maxChunk > 0 && n <= |chunks| && n <= LastChunk(extsize, maxChunk)
    requires forall i | 0 <= i < |chunks| :: GoodChunk(chunks[i], i, extsize, maxChunk)
    ensures Total(chunks[..n]) == n * maxChunk
  {
    hide LastChunk;
    if n > 0 {
      FullChunks(chunks, n - 1, extsize, maxChunk);
      assert chunks[..n][..n - 1] == chunks[..n - 1];
      assert GoodChunk(chunks[n - 1], n - 1, extsize, maxChunk);
      assert n * maxChunk == (n - 1) * maxChunk + maxChunk;
    }
  }

  /** An intact value has exactly the bytes its size word promises. */
  lemma {:induction false} IntactTotal(chunks: seq<Chunk>, extsize: nat, maxChunk: nat)
    requires 0 < maxChunk < 0x8000_0000 && extsize < TWO32 && Intact(chunks, extsize, maxChunk)
    ensures Total(chunks) == Bytes32(extsize)
    ensures extsize >= 1 ==> Total(chunks) == extsize
  {
    hide LastChunk, ExpectedSize;
    var last := LastChunk(extsize, maxChunk);
    FullChunks(chunks, last, extsize, maxChunk);
    LastSize(extsize, maxChunk);
    assert chunks[..|chunks| - 1] == chunks[..last];
    assert GoodChunk(chunks[last], last, extsize, maxChunk);
  }
}
