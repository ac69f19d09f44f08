/** hstore_cmp: a total order on hstores whose equality is equality of dictionaries. */
module HStoreCmp {
  import opened Bytes
  import opened HStoreLayout

  /** Entries compare by end position, then a null is larger. */
  function EntryCmp(a: HEntry, b: HEntry): int
  {
    if a.pos < b.pos then -1
    else if a.pos > b.pos then 1
    else if a.isNull == b.isNull then 0
    else if a.isNull then 1
    else -1
  }

  /** The first differing entry decides. */
  function EntriesCmp(a: seq<HEntry>, b: seq<HEntry>): int
    requires |a| == |b|
  {
    if a == [] then 0
    else if EntryCmp(a[0], b[0]) != 0 then EntryCmp(a[0], b[0])
    else EntriesCmp(a[1..], b[1..])
  }

  function Sign(a: int, b: int): int { if a < b then -1 else if a > b then 1 else 0 }

  /** The order as a lexicographic product: emptiness, string area, count, entries. */
  function Order(h1: HStore, h2: HStore): int
    requires Readable(h1) && Readable(h2)
  {
    if h1.count == 0 || h2.count == 0 then Sign(h1.count, h2.count)
    else if Lex(h1.chars, h2.chars) != 0 then Lex(h1.chars, h2.chars)
    else if h1.count != h2.count then Sign(h1.count, h2.count)
    else EntriesCmp(h1.entries, h2.entries)
  }

  // ---------- the components are total orders ----------

  lemma {:induction false} EntriesAntisymmetric(a: seq<HEntry>, b: seq<HEntry>)
    requires |a| == |b|
    ensures EntriesCmp(a, b) == -EntriesCmp(b, a)
    ensures EntriesCmp(a, b) == 0 <==> forall k | 0 <= k < |a| :: a[k].pos == b[k].pos && a[k].isNull == b[k].isNull
  {
    if a != [] {
      EntriesAntisymmetric(a[1..], b[1..]);
      assert forall k | 0 < k < |a| :: a[k] == a[1..][k - 1] && b[k] == b[1..][k - 1];
      assert forall k | 0 <= k < |a[1..]| :: a[1..][k] == a[k + 1] && b[1..][k] == b[k + 1];
    }
  }

  lemma {:induction false} EntriesTransitive(a: seq<HEntry>, b: seq<HEntry>, c: seq<HEntry>)
    requires |a| == |b| == |c| && EntriesCmp(a, b) <= 0 && EntriesCmp(b, c) <= 0
    ensures EntriesCmp(a, c) <= 0
    ensures EntriesCmp(a, c) == 0 ==> EntriesCmp(a, b) == 0 && EntriesCmp(b, c) == 0
  {
    if a != [] && EntryCmp(a[0], b[0]) == 0 && EntryCmp(b[0], c[0]) == 0 {
      EntriesTransitive(a[1..], b[1..], c[1..]);
    }
  }

  lemma {:induction false} OrderAntisymmetric(h1: HStore, h2: HStore)
    requires Readable(h1) && Readable(h2)
    ensures Order(h1, h2) == -Order(h2, h1)
  {
    hide Readable, Lex, EntriesCmp;
    ReadableShape(h1);
    ReadableShape(h2);
    LexAntisymmetric(h1.chars, h2.chars);
    if h1.count == h2.count { EntriesAntisymmetric(h1.entries, h2.entries); }
  }

  lemma {:induction false} OrderTransitive(h1: HStore, h2: HStore, h3: HStore)
    requires Readable(h1) && Readable(h2) && Readable(h3)
    requires Order(h1, h2) <= 0 && Order(h2, h3) <= 0
    ensures Order(h1, h3) <= 0
  {
    hide Readable, Lex, EntriesCmp;
    ReadableShape(h1);
    ReadableShape(h2);
    ReadableShape(h3);
    if h1.count != 0 && h2.count != 0 && h3.count != 0 {
      LexTransitive(h1.chars, h2.chars, h3.chars);
      if h1.count == h2.count == h3.count && Lex(h1.chars, h2.chars) == 0 && Lex(h2.chars, h3.chars) == 0 {
        EntriesTransitive(h1.entries, h2.entries, h3.entries);
      }
    }
  }

  lemma {:induction false} ReadableShape(hs: HStore)
    requires Readable(hs)
    ensures |hs.entries| == 2 * hs.count
  {
  }

  /** The empty hstore is the least. */
  lemma {:induction false} EmptyLeast(h1: HStore, h2: HStore)
    requires Readable(h1) && Readable(h2) && h1.count == 0
    ensures Order(h1, h2) <= 0 && (Order(h1, h2) == 0 <==> h2.count == 0)
  {
  }

  // ---------- which of two values is the smaller ----------

  /** The entries agree in position and null flag up to number `n`, where `a` ends
      earlier, or at the same position without being null where `b` is. */
  predicate EntriesBeforeAt(a: seq<HEntry>, b: seq<HEntry>, n: nat)
    requires n < |a| == |b|
  {
    && (forall k | 0 <= k < n :: a[k].pos == b[k].pos && a[k].isNull == b[k].isNull)
    && (a[n].pos < b[n].pos || (a[n].pos == b[n].pos && !a[n].isNull && b[n].isNull))
  }

  lemma {:induction false} EntriesNegative(a: seq<HEntry>, b: seq<HEntry>)
    requires |a| == |b|
    ensures EntriesCmp(a, b) < 0 <==> exists n :: 0 <= n < |a| && EntriesBeforeAt(a, b, n)
  {
    if a != [] {
      var x, y := a[1..], b[1..];
      EntriesNegative(x, y);
      assert forall k | 0 < k < |a| :: a[k] == x[k - 1] && b[k] == y[k - 1];
      if n :| 0 <= n < |x| && EntriesBeforeAt(x, y, n) {
        if EntryCmp(a[0], b[0]) == 0 { assert EntriesBeforeAt(a, b, n + 1); }
      }
      if EntryCmp(a[0], b[0]) < 0 { assert EntriesBeforeAt(a, b, 0); }
      if n :| 0 <= n < |a| && EntriesBeforeAt(a, b, n) {
        if n > 0 { assert EntriesBeforeAt(x, y, n - 1); }
      }
    }
  }

  /** Of two values the smaller is the empty one; else the one whose string area is
      the smaller by the first differing byte, or is a proper prefix of the other's;
      else the one with fewer pairs; else the one with the first smaller entry. */
  lemma {:induction false} OrderMeaning(h1: HStore, h2: HStore)
    requires Readable(h1) && Readable(h2)
    ensures Order(h1, h2) < 0 <==>
      if h1.count == 0 || h2.count == 0 then h1.count == 0 && h2.count > 0
      else
        || Before(h1.chars, h2.chars)
        || (h1.chars == h2.chars && h1.count < h2.count)
        || (&& h1.chars == h2.chars && h1.count == h2.count
            && exists n :: 0 <= n < |h1.entries| && EntriesBeforeAt(h1.entries, h2.entries, n))
  {
    hide Readable, Lex, Before, EntriesCmp, EntriesBeforeAt;
    ReadableShape(h1);
    ReadableShape(h2);
    LexMeaning(h1.chars, h2.chars);
    if h1.count == h2.count { EntriesNegative(h1.entries, h2.entries); }
  }

  /** Comparing equal means the same dictionary, and then the same buffer. */
  lemma {:induction false} OrderZero(h1: HStore, h2: HStore)
    requires Canonical(h1) && Canonical(h2)
    ensures Order(h1, h2) == 0 <==> h1 == h2
    ensures Order(h1, h2) == 0 <==> Abs(h1) == Abs(h2)
  {
    hide Sorted, Abs, Lex, EntriesCmp;
    AbsDetermines(h1, h2);
    LexAntisymmetric(h1.chars, h2.chars);
    if h1.count == h2.count {
      EntriesAntisymmetric(h1.entries, h2.entries);
      if Order(h1, h2) == 0 && h1.count != 0 {
        forall k | 0 <= k < |h1.entries|
          ensures h1.entries[k] == h2.entries[k]
        {
        }
        assert h1.entries == h2.entries;
      }
    }
  }

  // ---------- the comparison loop ----------

  lemma {:induction false} LexSplit(a: seq<byte>, b: seq<byte>, m: nat)
    requires m <= |a| && m <= |b| && (m == |a| || m == |b|)
    ensures Lex(a, b) == if Lex(a[..m], b[..m]) != 0 then Lex(a[..m], b[..m]) else Sign(|a|, |b|)
    decreases m
  {
    if m > 0 && a[0] == b[0] {
      LexSplit(a[1..], b[1..], m - 1);
      assert a[..m][1..] == a[1..][..m - 1] && b[..m][1..] == b[1..][..m - 1];
    }
  }

  lemma {:induction false} EntriesSkip(a: seq<HEntry>, b: seq<HEntry>, i: nat)
    requires |a| == |b| && i <= |a|
    requires forall k | 0 <= k < i :: a[k].pos == b[k].pos && a[k].isNull == b[k].isNull
    ensures EntriesCmp(a, b) == EntriesCmp(a[i..], b[i..])
    decreases i
  {
    if i > 0 {
      EntriesSkip(a[1..], b[1..], i - 1);
      assert a[1..][i - 1..] == a[i..] && b[1..][i - 1..] == b[i..];
    } else {
      assert a[0..] == a && b[0..] == b;
    }
  }

  /** The inner loop of hstore_cmp on entry arrays of equal length. */
  method CompareEntries(e1: seq<HEntry>, e2: seq<HEntry>) returns (res: int)
    requires |e1| == |e2|
    ensures res == EntriesCmp(e1, e2)
  {
    hide EntriesCmp;
    var i := 0;
    while i < |e1|
      invariant i <= |e1|
      invariant forall k | 0 <= k < i :: e1[k].pos == e2[k].pos && e1[k].isNull == e2[k].isNull
    {
      if e1[i].pos != e2[i].pos || e1[i].isNull != e2[i].isNull {
        break;
      }
      i := i + 1;
    }
    EntriesSkip(e1, e2, i);
    res := 0;
    if i < |e1| {
      if e1[i].pos < e2[i].pos {
        res := -1;
      } else if e1[i].pos > e2[i].pos {
        res := 1;
      } else if e1[i].isNull {
        res := 1;
      } else if e2[i].isNull {
        res := -1;
      }
    }
    EntriesHead(e1[i..], e2[i..]);
  }

  lemma {:induction false} EntriesHead(a: seq<HEntry>, b: seq<HEntry>)
    requires |a| == |b|
    ensures a == [] ==> EntriesCmp(a, b) == 0
    ensures a != [] && EntryCmp(a[0], b[0]) != 0 ==> EntriesCmp(a, b) == EntryCmp(a[0], b[0])
  {
  }

  /** hstore_cmp */
  method Compare(h1: HStore, h2: HStore) returns (res: int)
    requires Canonical(h1) && Canonical(h2)
    ensures res == Order(h1, h2)
  {
    hide Sorted, Lex, EntriesCmp;
    res := 0;
    if h1.count == 0 || h2.count == 0 {
      if h1.count > 0 {
        res := 1;
      } else if h2.count > 0 {
        res := -1;
      }
    } else {
      var len1, len2 := h1.entries[2 * h1.count - 1].pos, h2.entries[2 * h2.count - 1].pos;
      var m := if len1 < len2 then len1 else len2;
      LexSplit(h1.chars, h2.chars, m);
      LexAntisymmetric(h1.chars[..m], h2.chars[..m]);
      res := Lex(h1.chars[..m], h2.chars[..m]);
      if res == 0 {
        if len1 > len2 {
          res := 1;
        } else if len1 < len2 {
          res := -1;
        } else if h1.count > h2.count {
          res := 1;
        } else if h2.count > h1.count {
          res := -1;
        } else {
          res := CompareEntries(h1.entries, h2.entries);
        }
      } else {
        res := if res > 0 then 1 else -1;
      }
    }
  }
}
