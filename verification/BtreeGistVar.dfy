/** GiST keys over byte strings (btree_utils_var.c with the bytea comparison):
    ranges whose bounds are cut off shortly behind their common prefix, and the
    question whether a search through such keys can miss a leaf. */
module BtreeGistVar {
  import opened Bytes

  type Str = seq<byte>

  /** GBT_VARKEY: a leaf stores one string, a node key two. */
  datatype VarKey = LeafKey(v: Str) | NodeKey(lo: Str, hi: Str)

  /** gbt_var_key_readable: the two bounds; those of a leaf coincide. */
  function Lower(k: VarKey): Str { if k.LeafKey? then k.v else k.lo }

  function Upper(k: VarKey): Str { if k.LeafKey? then k.v else k.hi }

  datatype Strategy = Less | LessEqual | Equal | GreaterEqual | Greater | NotEqual

  // ---------- common prefixes ----------

  function CommonPrefix(a: Str, b: Str): (n: nat)
    ensures n <= |a| && n <= |b|
  {
    if a == [] || b == [] || a[0] != b[0] then 0 else 1 + CommonPrefix(a[1..], b[1..])
  }

  /** The loop of gbt_var_node_cp_len for single-byte encodings. */
  method CommonPrefixLen(a: Str, b: Str) returns (i: nat)
    ensures i == CommonPrefix(a, b)
  {
    var ml := if |a| < |b| then |a| else |b|;
    if ml == 0 {
      return 0;
    }
    i := 0;
    assert a[0..] == a && b[0..] == b;
    while i < ml
      invariant i <= ml
      invariant CommonPrefix(a, b) == i + CommonPrefix(a[i..], b[i..])
    {
      if a[i] != b[i] {
        return i;
      }
      assert a[i..][1..] == a[i + 1..] && b[i..][1..] == b[i + 1..];
      i := i + 1;
    }
    return ml;
  }

  function Cut(s: Str, n: nat): (t: Str)
    ensures t <= s && |t| == if |s| < n then |s| else n
  {
    if |s| < n then s else s[..n]
  }

  /** gbt_var_node_truncate: keep `cpfLength` + 1 bytes of each bound. */
  function Truncate(k: VarKey, cpfLength: nat): VarKey
  {
    NodeKey(Cut(Lower(k), cpfLength + 1), Cut(Upper(k), cpfLength + 1))
  }

  // ---------- union ----------

  function MinStr(a: Str, b: Str): Str { if Lex(a, b) > 0 then b else a }

  function MaxStr(a: Str, b: Str): Str { if Lex(a, b) < 0 then b else a }

  /** gbt_var_bin_union: extend `u`, or start from `e`. */
  function BinUnion(u: Option<VarKey>, e: VarKey): VarKey
  {
    match u
    case None => NodeKey(Lower(e), Upper(e))
    case Some(r) => NodeKey(MinStr(Lower(r), Lower(e)), MaxStr(Upper(r), Upper(e)))
  }

  /** The range before truncation. */
  function RawUnion(es: seq<VarKey>): VarKey
    requires es != []
  {
    if |es| == 1 then NodeKey(Lower(es[0]), Upper(es[0]))
    else BinUnion(Some(RawUnion(es[..|es| - 1])), es[|es| - 1])
  }

  function UnionKey(es: seq<VarKey>): VarKey
    requires es != []
  {
    var out := RawUnion(es);
    Truncate(out, CommonPrefix(Lower(out), Upper(out)) + 1)
  }

  /** gbt_var_union: fold the entries, then truncate. */
  method Union(es: seq<VarKey>) returns (out: VarKey)
    requires es != []
    ensures out == UnionKey(es)
  {
    hide Lex, CommonPrefix;
    out := NodeKey(Lower(es[0]), Upper(es[0]));
    for i := 1 to |es|
      invariant out == RawUnion(es[..i])
    {
      assert es[..i + 1][..i] == es[..i];
      out := BinUnion(Some(out), es[i]);
    }
    assert es[..|es|] == es;
    var plen := CommonPrefixLen(Lower(out), Upper(out));
    out := Truncate(out, plen + 1);
  }

  // ---------- search ----------

  /** gbt_bytea_pf_match: `pf` is a prefix of `query`. */
  predicate PrefixMatch(pf: Str, query: Str)
  {
    |pf| <= |query| && query[..|pf|] == pf
  }

  predicate NodePrefixMatch(k: VarKey, query: Str)
  {
    PrefixMatch(Lower(k), query) || PrefixMatch(Upper(k), query)
  }

  /** gbt_var_consistent for a truncating type. */
  predicate Consistent(k: VarKey, query: Str, strategy: Strategy, isLeaf: bool)
  {
    match strategy
    case LessEqual =>
      if isLeaf then Lex(query, Lower(k)) >= 0
      else Lex(query, Lower(k)) >= 0 || NodePrefixMatch(k, query)
    case Less =>
      if isLeaf then Lex(query, Lower(k)) > 0
      else Lex(query, Lower(k)) >= 0 || NodePrefixMatch(k, query)
    case Equal =>
      if isLeaf then query == Lower(k)
      else (Lex(Lower(k), query) <= 0 && Lex(query, Upper(k)) <= 0) || NodePrefixMatch(k, query)
    case Greater =>
      if isLeaf then Lex(query, Upper(k)) < 0
      else Lex(query, Upper(k)) <= 0 || NodePrefixMatch(k, query)
    case GreaterEqual =>
      if isLeaf then Lex(query, Upper(k)) <= 0
      else Lex(query, Upper(k)) <= 0 || NodePrefixMatch(k, query)
    case NotEqual => !(query == Lower(k) && query == Upper(k))
  }

  /** The operator of a strategy, on a stored string. */
  predicate Satisfies(v: Str, query: Str, strategy: Strategy)
  {
    match strategy
    case Less => Before(v, query)
    case LessEqual => v == query || Before(v, query)
    case Equal => v == query
    case GreaterEqual => v == query || Before(query, v)
    case Greater => Before(query, v)
    case NotEqual => v != query
  }

  /** On a leaf the test decides the operator. */
  lemma {:induction false} LeafDecides(v: Str, query: Str, strategy: Strategy)
    ensures Consistent(LeafKey(v), query, strategy, true) <==> Satisfies(v, query, strategy)
  {
    hide Lex, Before;
    LexMeaning(query, v);
  }

  /** The six operators are those of one total order. */
  lemma {:induction false} OperatorsAgree(v: Str, query: Str)
    ensures Satisfies(v, query, Equal) ==> !Satisfies(v, query, Less) && !Satisfies(v, query, Greater)
    ensures !(Satisfies(v, query, Less) && Satisfies(v, query, Greater))
    ensures Satisfies(v, query, Less) || Satisfies(v, query, Equal) || Satisfies(v, query, Greater)
    ensures Satisfies(v, query, LessEqual) <==> !Satisfies(v, query, Greater)
    ensures Satisfies(v, query, GreaterEqual) <==> !Satisfies(v, query, Less)
    ensures Satisfies(v, query, NotEqual) <==> !Satisfies(v, query, Equal)
  {
    hide Lex, Before;
    LexMeaning(query, v);
  }

  /** What an inner key promises of a leaf below it. The upper bound may be a
      truncation of something larger, but then it reaches at least two bytes past
      the common prefix of the bounds. */
  predicate Covers(k: VarKey, v: Str)
  {
    && Lex(Lower(k), v) <= 0
    && (Lex(v, Upper(k)) <= 0 || (Upper(k) <= v && |Upper(k)| >= CommonPrefix(Lower(k), Upper(k)) + 2))
  }

  // ---------- order facts ----------

  lemma {:induction false} PrefixSmaller(a: Str, b: Str)
    requires a <= b
    ensures Lex(a, b) <= 0
  {
    if a != [] {
      assert a[1..] <= b[1..];
      PrefixSmaller(a[1..], b[1..]);
    }
  }

  /** Whatever lies between a prefix of `hi` and `hi` has that prefix. */
  lemma {:induction false} Between(p: Str, v: Str, hi: Str)
    requires p <= hi && Lex(p, v) <= 0 && Lex(v, hi) <= 0
    ensures p <= v
  {
    if p != [] {
      assert p[1..] <= hi[1..];
      Between(p[1..], v[1..], hi[1..]);
      assert v == [v[0]] + v[1..] && p == [p[0]] + p[1..];
    }
  }

  lemma {:induction false} CommonPrefixAt(a: Str, b: Str)
    ensures a[..CommonPrefix(a, b)] == b[..CommonPrefix(a, b)]
    ensures var n := CommonPrefix(a, b); n < |a| && n < |b| ==> a[n] != b[n]
  {
    if a != [] && b != [] && a[0] == b[0] {
      CommonPrefixAt(a[1..], b[1..]);
      var n := CommonPrefix(a[1..], b[1..]);
      assert a[..n + 1] == [a[0]] + a[1..][..n] && b[..n + 1] == [b[0]] + b[1..][..n];
    }
  }

  /** Lowering the lower bound of a proper range cannot lengthen the common prefix
      with an upper bound that agrees with the old one that far. */
  lemma {:induction false} PrefixShrinks(lo: Str, el: Str, eu: Str, hi: Str)
    requires Lex(lo, el) <= 0 && Lex(el, eu) < 0
    requires CommonPrefix(el, eu) < |eu| && eu[..CommonPrefix(el, eu) + 1] <= hi
    ensures CommonPrefix(lo, hi) <= CommonPrefix(el, eu)
  {
    var p := CommonPrefix(el, eu);
    assert eu[..p + 1][0] == hi[0];
    if lo != [] && el != [] && eu[0] == el[0] && lo[0] == el[0] {
      assert eu[..p + 1][1..] == eu[1..][..p];
      assert eu[1..][..p] <= hi[1..];
      PrefixShrinks(lo[1..], el[1..], eu[1..], hi[1..]);
    }
  }

  /** Cutting both bounds behind the common prefix leaves the common prefix alone. */
  lemma {:induction false} CutKeepsPrefix(a: Str, b: Str, n: nat)
    requires n > CommonPrefix(a, b)
    ensures CommonPrefix(Cut(a, n), Cut(b, n)) == CommonPrefix(a, b)
  {
    if a != [] && b != [] && a[0] == b[0] {
      assert Cut(a, n)[1..] == Cut(a[1..], n - 1) && Cut(b, n)[1..] == Cut(b[1..], n - 1);
      CutKeepsPrefix(a[1..], b[1..], n - 1);
    }
  }

  // ---------- unions cover ----------

  lemma {:induction false} LexChain(a: Str, b: Str, c: Str)
    requires Lex(a, b) <= 0 && Lex(b, c) <= 0
    ensures Lex(a, c) <= 0
  {
    LexTransitive(a, b, c);
  }

  lemma {:induction false} MinMax(a: Str, b: Str)
    ensures Lex(MinStr(a, b), a) <= 0 && Lex(MinStr(a, b), b) <= 0
    ensures Lex(a, MaxStr(a, b)) <= 0 && Lex(b, MaxStr(a, b)) <= 0
  {
    LexAntisymmetric(a, b);
    LexAntisymmetric(a, a);
    LexAntisymmetric(b, b);
  }

  /** The raw union's bounds enclose those of every entry. */
  lemma {:induction false} RawUnionEncloses(es: seq<VarKey>, i: nat)
    requires i < |es|
    ensures Lex(Lower(RawUnion(es)), Lower(es[i])) <= 0
    ensures Lex(Upper(es[i]), Upper(RawUnion(es))) <= 0
  {
    hide Lex, MinStr, MaxStr;
    if |es| == 1 {
      LexAntisymmetric(Lower(es[0]), Lower(es[0]));
      LexAntisymmetric(Upper(es[0]), Upper(es[0]));
    } else {
      var n := |es| - 1;
      var r := RawUnion(es[..n]);
      MinMax(Lower(r), Lower(es[n]));
      MinMax(Upper(r), Upper(es[n]));
      if i < n {
        RawUnionEncloses(es[..n], i);
        LexChain(Lower(RawUnion(es)), Lower(r), Lower(es[i]));
        LexChain(Upper(es[i]), Upper(r), Upper(RawUnion(es)));
      }
    }
  }

  /** A leaf inside the bounds stays covered by their truncation. */
  lemma {:induction false} TruncateInside(k: VarKey, n: nat, v: Str)
    requires Lex(Lower(k), v) <= 0 && Lex(v, Upper(k)) <= 0
    requires n > CommonPrefix(Lower(k), Upper(k))
    ensures Covers(Truncate(k, n), v)
  {
    hide Lex, CommonPrefix;
    var lo, hi := Lower(k), Upper(k);
    var lo', hi' := Cut(lo, n + 1), Cut(hi, n + 1);
    PrefixSmaller(lo', lo);
    LexChain(lo', lo, v);
    CutKeepsPrefix(lo, hi, n + 1);
    LexAntisymmetric(v, hi');
    if Lex(v, hi') > 0 {
      Between(hi', v, hi);
    }
  }

  /** An entry whose own upper bound was truncated above a leaf: the truncated union still covers the leaf. */
  lemma {:induction false} TruncateBeyond(k: VarKey, e: VarKey, v: Str)
    requires Lex(Lower(k), Lower(e)) <= 0 && Lex(Upper(e), Upper(k)) <= 0
    requires Covers(e, v) && Lex(v, Upper(k)) > 0
    ensures Covers(Truncate(k, CommonPrefix(Lower(k), Upper(k)) + 1), v)
  {
    hide Lex, CommonPrefix;
    var lo, hi, el, eu := Lower(k), Upper(k), Lower(e), Upper(e);
    var c, p := CommonPrefix(lo, hi), CommonPrefix(el, eu);
    assert eu <= v && |eu| >= p + 2 by {
      if Lex(v, eu) <= 0 { LexChain(v, eu, hi); }
    }
    LexAntisymmetric(v, hi);
    Between(eu, hi, v);
    ProperRange(e, v);
    assert eu[..p + 1] <= hi;
    PrefixShrinks(lo, el, eu, hi);
    var lo', hi' := Cut(lo, c + 2), Cut(hi, c + 2);
    CutKeepsPrefix(lo, hi, c + 2);
    assert hi' == hi[..c + 2] == eu[..c + 2] <= v;
    PrefixSmaller(lo', lo);
    LexChain(lo', lo, el);
    LexChain(lo', el, v);
  }

  /** Bounds of which the upper is that much longer than the common prefix are proper. */
  lemma {:induction false} ProperRange(e: VarKey, v: Str)
    requires Lex(Lower(e), v) <= 0 && Upper(e) <= v && |Upper(e)| >= CommonPrefix(Lower(e), Upper(e)) + 2
    ensures Lex(Lower(e), Upper(e)) < 0
  {
    LowerBelow(Lower(e), Upper(e), v);
  }

  lemma {:induction false} LowerBelow(lo: Str, hi: Str, v: Str)
    requires Lex(lo, v) <= 0 && hi <= v && |hi| >= CommonPrefix(lo, hi) + 2
    ensures Lex(lo, hi) < 0
  {
    assert hi[0] == v[0];
    if lo != [] && lo[0] == hi[0] {
      assert hi[1..] <= v[1..];
      LowerBelow(lo[1..], hi[1..], v[1..]);
    }
  }

  /** gbt_var_union covers every leaf its entries cover. */
  lemma {:induction false} UnionCovers(es: seq<VarKey>, i: nat, v: Str)
    requires i < |es| && Covers(es[i], v)
    ensures Covers(UnionKey(es), v)
  {
    hide Lex, CommonPrefix, RawUnion, Truncate;
    var k, e := RawUnion(es), es[i];
    RawUnionEncloses(es, i);
    if Lex(v, Upper(k)) <= 0 {
      LexChain(Lower(k), Lower(e), v);
      TruncateInside(k, CommonPrefix(Lower(k), Upper(k)) + 1, v);
    } else {
      TruncateBeyond(k, e, v);
    }
  }

  lemma {:induction false} LeafCovers(v: Str)
    ensures Covers(LeafKey(v), v)
  {
    LexAntisymmetric(v, v);
  }

  /** A covering key is never skipped: for all six strategies, an inner key covering a matching leaf is consistent. */
  lemma {:induction false} CoversConsistent(k: VarKey, v: Str, query: Str, strategy: Strategy)
    requires Covers(k, v) && Satisfies(v, query, strategy)
    ensures Consistent(k, query, strategy, false)
  {
    hide Lex, Before;
    LeafDecides(v, query, strategy);
    var lo, hi := Lower(k), Upper(k);
    match strategy
    case LessEqual =>
      LexAntisymmetric(query, v);
      LexChain(lo, v, query);
      LexAntisymmetric(query, lo);
    case Less =>
      LexAntisymmetric(query, v);
      LexChain(lo, v, query);
      LexAntisymmetric(query, lo);
    case Equal =>
    case Greater => UpperReaches(k, v, query);
    case GreaterEqual => UpperReaches(k, v, query);
    case NotEqual =>
      if query == lo && query == hi {
        SelfPrefix(lo);
        LexAntisymmetric(lo, v);
        assert false;
      }
  }

  lemma {:induction false} SelfPrefix(a: Str)
    ensures CommonPrefix(a, a) == |a|
  {
    if a != [] { SelfPrefix(a[1..]); }
  }

  lemma {:induction false} UpperReaches(k: VarKey, v: Str, query: Str)
    requires Covers(k, v) && Lex(query, v) <= 0
    ensures Lex(query, Upper(k)) <= 0 || NodePrefixMatch(k, query)
  {
    hide Lex, CommonPrefix;
    var hi := Upper(k);
    if Lex(v, hi) <= 0 {
      LexChain(query, v, hi);
    } else if Lex(query, hi) > 0 {
      LexAntisymmetric(query, hi);
      Between(hi, query, v);
      assert query[..|hi|] == hi;
    }
  }

  // ---------- what an inner key admits ----------

  /** The operator, with its bound included. */
  predicate SatisfiesOrEqual(v: Str, query: Str, strategy: Strategy)
  {
    Satisfies(v, query, strategy) || ((strategy == Less || strategy == Greater) && v == query)
  }

  /** The inner test lets a search through exactly when a string that the key covers
      satisfies the operator, bounds included, or, for a search that looks upwards,
      when a bound is a prefix of the query. */
  lemma {:induction false} InnerExact(k: VarKey, query: Str, strategy: Strategy)
    requires Lex(Lower(k), Upper(k)) <= 0
    ensures Consistent(k, query, strategy, false) <==>
      || (exists v :: Covers(k, v) && SatisfiesOrEqual(v, query, strategy))
      || (strategy in {Equal, Greater, GreaterEqual} && (Lower(k) <= query || Upper(k) <= query))
  {
    hide Lex, Before, Covers, Consistent, Satisfies, CommonPrefix;
    if exists v :: Covers(k, v) && SatisfiesOrEqual(v, query, strategy) {
      var v :| Covers(k, v) && SatisfiesOrEqual(v, query, strategy);
      EqualAdmitted(k, v, query, strategy);
    }
    if strategy in {Equal, Greater, GreaterEqual} && (Lower(k) <= query || Upper(k) <= query) {
      PrefixAdmitted(k, query, strategy);
    }
    if Consistent(k, query, strategy, false) {
      AdmittedBy(k, query, strategy);
    }
  }

  lemma {:induction false} EqualAdmitted(k: VarKey, v: Str, query: Str, strategy: Strategy)
    requires Covers(k, v) && SatisfiesOrEqual(v, query, strategy)
    ensures Consistent(k, query, strategy, false)
  {
    hide Lex, Before, Covers;
    if Satisfies(v, query, strategy) {
      CoversConsistent(k, v, query, strategy);
    } else if strategy == Less {
      CoversConsistent(k, v, query, LessEqual);
    } else {
      CoversConsistent(k, v, query, GreaterEqual);
    }
  }

  lemma {:induction false} PrefixAdmitted(k: VarKey, query: Str, strategy: Strategy)
    requires strategy in {Equal, Greater, GreaterEqual} && (Lower(k) <= query || Upper(k) <= query)
    ensures Consistent(k, query, strategy, false)
  {
    hide Lex;
    assert NodePrefixMatch(k, query);
  }

  lemma {:induction false} BoundsCovered(k: VarKey)
    requires Lex(Lower(k), Upper(k)) <= 0
    ensures Covers(k, Lower(k)) && Covers(k, Upper(k))
  {
    hide Lex, CommonPrefix;
    LexAntisymmetric(Lower(k), Lower(k));
    LexAntisymmetric(Upper(k), Upper(k));
  }

  lemma {:induction false} AdmittedBy(k: VarKey, query: Str, strategy: Strategy)
    requires Lex(Lower(k), Upper(k)) <= 0 && Consistent(k, query, strategy, false)
    ensures
      || (exists v :: Covers(k, v) && SatisfiesOrEqual(v, query, strategy))
      || (strategy in {Equal, Greater, GreaterEqual} && (Lower(k) <= query || Upper(k) <= query))
  {
    hide Lex, Before, CommonPrefix;
    var lo, hi := Lower(k), Upper(k);
    BoundsCovered(k);
    LexMeaning(query, lo);
    LexMeaning(query, hi);
    LexAntisymmetric(lo, query);
    assert NodePrefixMatch(k, query) ==> lo <= query || hi <= query;
    match strategy
    case LessEqual => NoPrefixBelow(k, query); assert SatisfiesOrEqual(lo, query, strategy);
    case Less => NoPrefixBelow(k, query); assert SatisfiesOrEqual(lo, query, strategy);
    case Equal =>
      if Lex(lo, query) <= 0 && Lex(query, hi) <= 0 {
        assert Covers(k, query) && SatisfiesOrEqual(query, query, strategy);
      }
    case Greater => assert Lex(query, hi) <= 0 ==> SatisfiesOrEqual(hi, query, strategy);
    case GreaterEqual => assert Lex(query, hi) <= 0 ==> SatisfiesOrEqual(hi, query, strategy);
    case NotEqual => assert SatisfiesOrEqual(lo, query, strategy) || SatisfiesOrEqual(hi, query, strategy);
  }

  /** A query of which a bound is a prefix is not below the lower bound. */
  lemma {:induction false} NoPrefixBelow(k: VarKey, query: Str)
    requires Lex(Lower(k), Upper(k)) <= 0
    ensures NodePrefixMatch(k, query) ==> Lex(query, Lower(k)) >= 0
  {
    hide Lex;
    var lo, hi := Lower(k), Upper(k);
    LexAntisymmetric(query, lo);
    if PrefixMatch(lo, query) {
      PrefixSmaller(lo, query);
    } else if PrefixMatch(hi, query) {
      PrefixSmaller(hi, query);
      LexChain(lo, hi, query);
    }
  }

  // ---------- what a union is ----------

  /** A union takes each of its bounds from one of its entries. */
  lemma {:induction false} RawUnionAttained(es: seq<VarKey>)
    requires es != []
    ensures exists i :: 0 <= i < |es| && Lower(es[i]) == Lower(RawUnion(es))
    ensures exists i :: 0 <= i < |es| && Upper(es[i]) == Upper(RawUnion(es))
  {
    hide Lex;
    if |es| == 1 {
      assert Lower(es[0]) == Lower(RawUnion(es)) && Upper(es[0]) == Upper(RawUnion(es));
    } else {
      var n := |es| - 1;
      RawUnionAttained(es[..n]);
      var i :| 0 <= i < n && Lower(es[..n][i]) == Lower(RawUnion(es[..n]));
      var j :| 0 <= j < n && Upper(es[..n][j]) == Upper(RawUnion(es[..n]));
      assert es[..n][i] == es[i] && es[..n][j] == es[j];
      assert Lower(es[n]) == Lower(RawUnion(es)) || Lower(es[i]) == Lower(RawUnion(es));
      assert Upper(es[n]) == Upper(RawUnion(es)) || Upper(es[j]) == Upper(RawUnion(es));
    }
  }

  /** The key stored keeps of each bound what distinguishes the two, and one byte more. */
  lemma {:induction false} UnionCut(es: seq<VarKey>)
    requires es != []
    ensures var k, r := UnionKey(es), RawUnion(es);
            var n := CommonPrefix(Lower(k), Upper(k));
            && n == CommonPrefix(Lower(r), Upper(r))
            && Lower(k) <= Lower(r) && (|Lower(k)| == n + 2 || Lower(k) == Lower(r)) && |Lower(k)| <= n + 2
            && Upper(k) <= Upper(r) && (|Upper(k)| == n + 2 || Upper(k) == Upper(r)) && |Upper(k)| <= n + 2
  {
    hide RawUnion, CommonPrefix;
    var r := RawUnion(es);
    CutKeepsPrefix(Lower(r), Upper(r), CommonPrefix(Lower(r), Upper(r)) + 2);
  }
}
