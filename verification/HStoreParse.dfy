/** The hand-written hstore parser: get_val and parse_hstore as loops over a C
    string, each proved against a step function; what they accept is proved about
    the step functions. */
module HStoreParse {
  import opened Bytes
  import opened HStoreLayout
  import opened HStorePairs

  const MAX_WORD_LEN := 0x3fff_ffff    // HSTORE_MAX_KEY_LEN and HSTORE_MAX_VALUE_LEN

  // The largest sizes that doubling reaches before an allocation fails: 32 bytes
  // for a word doubled 24 times, 16 pairs doubled 20 times.
  const MAX_WORD_BUFFER := 0x2000_0000
  const MAX_PAIR_BUFFER := 0x100_0000

  const DQUOTE := 34
  const ESCAPE := 92
  const EQUALS := 61
  const GREATER := 62
  const COMMA := 44

  /** *ptr on a C string: reading at the end gives the terminator. */
  function At(s: seq<byte>, p: nat): byte
  {
    if p < |s| then s[p] else 0
  }

  predicate IsSpace(b: byte)
  {
    b == 32 || b == 9 || b == 10 || b == 13 || b == 12
  }

  function Lower(b: byte): byte
  {
    if 65 <= b <= 90 then b + 32 else b
  }

  /** pg_strcasecmp(word, "null") == 0 for a four-byte word. */
  predicate IsNullWord(w: seq<byte>)
  {
    |w| == 4 && Lower(w[0]) == 110 && Lower(w[1]) == 117 && Lower(w[2]) == 108 && Lower(w[3]) == 108
  }

  datatype ValState = WaitVal | InVal | InEscVal | WaitEscIn | WaitEscEscIn

  datatype ValResult = Found(ptr: nat, word: seq<byte>, escaped: bool) | NotFound | Bad

  /** Room for one more byte and a terminator cannot be had. */
  predicate WordFull(word: seq<byte>) { |word| + 1 >= MAX_WORD_BUFFER }

  /** get_val from position `p` with `word` already collected; `Bad` is an error,
      of syntax or because the word outgrows what can be allocated. */
  function Scan(s: seq<byte>, ignoreEq: bool, st: ValState, p: nat, word: seq<byte>, escaped: bool): (r: ValResult)
    requires p <= |s| && (st != WaitVal ==> p > 0)
    ensures r.Found? ==> r.ptr < |s| && (if st == WaitVal then p else p - 1) <= r.ptr
    decreases |s| - p
  {
    var c := At(s, p);
    match st
    case WaitVal =>
      if c == DQUOTE then Scan(s, ignoreEq, InEscVal, p + 1, word, true)
      else if c == 0 then NotFound
      else if c == EQUALS && !ignoreEq then Bad
      else if c == ESCAPE then Scan(s, ignoreEq, WaitEscIn, p + 1, word, escaped)
      else if !IsSpace(c) then Scan(s, ignoreEq, InVal, p + 1, word + [c], escaped)
      else Scan(s, ignoreEq, WaitVal, p + 1, word, escaped)
    case InVal =>
      if c == ESCAPE then Scan(s, ignoreEq, WaitEscIn, p + 1, word, escaped)
      else if c == EQUALS && !ignoreEq then Found(p - 1, word, escaped)
      else if c == COMMA && ignoreEq then Found(p - 1, word, escaped)
      else if IsSpace(c) then Found(p, word, escaped)
      else if c == 0 then Found(p - 1, word, escaped)
      else if WordFull(word) then Bad
      else Scan(s, ignoreEq, InVal, p + 1, word + [c], escaped)
    case InEscVal =>
      if c == ESCAPE then Scan(s, ignoreEq, WaitEscEscIn, p + 1, word, escaped)
      else if c == DQUOTE then Found(p, word, escaped)
      else if c == 0 || WordFull(word) then Bad
      else Scan(s, ignoreEq, InEscVal, p + 1, word + [c], escaped)
    case WaitEscIn =>
      if c == 0 || WordFull(word) then Bad else Scan(s, ignoreEq, InVal, p + 1, word + [c], escaped)
    case WaitEscEscIn =>
      if c == 0 || WordFull(word) then Bad else Scan(s, ignoreEq, InEscVal, p + 1, word + [c], escaped)
  }

  datatype ParseState = WKey | WVal | WEq | WGt | WDel

  /** The pair a value word makes; an unquoted NULL in any case is a null. */
  function MakePair(key: seq<byte>, word: seq<byte>, escaped: bool): Pair
  {
    Pair(key, word, !escaped && IsNullWord(word), true)
  }

  /** parse_hstore from position `p`; `key` is the key of the pair being read. */
  function Parse(s: seq<byte>, st: ParseState, p: nat, pairs: seq<Pair>, key: seq<byte>): Result<seq<Pair>>
    requires p <= |s|
    decreases |s| - p
  {
    var c := At(s, p);
    match st
    case WKey => (
      match Scan(s, false, WaitVal, p, [], false)
      case NotFound => Ok(pairs)
      case Bad => Error
      case Found(q, word, _) =>
        if |pairs| >= MAX_PAIR_BUFFER || |word| > MAX_WORD_LEN then Error
        else Parse(s, WEq, q + 1, pairs, word))
    case WEq =>
      if c == EQUALS then Parse(s, WGt, p + 1, pairs, key)
      else if c == 0 then Error
      else if !IsSpace(c) then Error
      else Parse(s, WEq, p + 1, pairs, key)
    case WGt =>
      if c == GREATER then Parse(s, WVal, p + 1, pairs, key) else Error
    case WVal => (
      match Scan(s, true, WaitVal, p, [], false)
      case NotFound => Error
      case Bad => Error
      case Found(q, word, escaped) =>
        if |word| > MAX_WORD_LEN then Error
        else Parse(s, WDel, q + 1, pairs + [MakePair(key, word, escaped)], key))
    case WDel =>
      if c == COMMA then Parse(s, WKey, p + 1, pairs, key)
      else if c == 0 then Ok(pairs)
      else if !IsSpace(c) then Error
      else Parse(s, WDel, p + 1, pairs, key)
  }

  // ---------- buffers that grow by doubling ----------

  function Doubled(n: nat, k: nat): nat
  {
    if k == 0 then n else 2 * Doubled(n, k - 1)
  }

  /** `size` is one of the sizes that doubling reaches from `first`, up to `last`. */
  ghost predicate GrownFrom(first: nat, last: nat, size: nat)
  {
    size <= last && exists k: nat :: size == Doubled(first, k)
  }

  lemma {:induction false} DoubledInOrder(n: nat, j: nat, k: nat)
    requires j < k
    ensures 2 * Doubled(n, j) <= Doubled(n, k)
  {
    if j + 1 < k { DoubledInOrder(n, j, k - 1); }
  }

  /** Below the last size there is always the next one, at most half of it before. */
  lemma {:induction false} MayDouble(first: nat, k: nat, size: nat)
    requires GrownFrom(first, Doubled(first, k), size) && size < Doubled(first, k)
    ensures 2 * size <= Doubled(first, k) && GrownFrom(first, Doubled(first, k), 2 * size)
  {
    var j: nat :| size == Doubled(first, j);
    if j >= k { GrowsOn(first, k, j); }
    DoubledInOrder(first, j, k);
    assert 2 * size == Doubled(first, j + 1);
  }

  lemma {:induction false} GrowsOn(n: nat, k: nat, j: nat)
    requires k <= j
    ensures Doubled(n, k) <= Doubled(n, j)
  {
    if k < j { GrowsOn(n, k, j - 1); }
  }

  lemma {:induction false} DoubledFour(n: nat, k: nat)
    ensures Doubled(n, k + 4) == 16 * Doubled(n, k)
  {
    assert Doubled(n, k + 2) == 2 * Doubled(n, k + 1);
    assert Doubled(n, k + 4) == 2 * Doubled(n, k + 3);
  }

  lemma {:induction false} LastSizes()
    ensures Doubled(32, 24) == MAX_WORD_BUFFER && Doubled(16, 20) == MAX_PAIR_BUFFER
  {
    hide Doubled;
    FirstSizes();
    DoubledFour(32, 0);
    DoubledFour(32, 4);
    DoubledFour(32, 8);
    DoubledFour(32, 12);
    DoubledFour(32, 16);
    DoubledFour(32, 20);
    DoubledFour(16, 0);
    DoubledFour(16, 4);
    DoubledFour(16, 8);
    DoubledFour(16, 12);
    DoubledFour(16, 16);
  }

  lemma {:induction false} FirstSizes()
    ensures Doubled(32, 0) == 32 && GrownFrom(32, MAX_WORD_BUFFER, 32)
    ensures Doubled(16, 0) == 16 && GrownFrom(16, MAX_PAIR_BUFFER, 16)
  {
    assert Doubled(32, 0) == 32 && Doubled(16, 0) == 16;
  }

  lemma {:induction false} GrownBound(first: nat, last: nat, size: nat)
    requires GrownFrom(first, last, size)
    ensures first <= size <= last
  {
    var k: nat :| size == Doubled(first, k);
    GrowsOn(first, 0, k);
  }

  /** The collected bytes leave room for a terminator in a buffer of `wordlen` bytes. */
  ghost predicate BufferOk(word: seq<byte>, wordlen: nat)
  {
    |word| < wordlen && GrownFrom(32, MAX_WORD_BUFFER, wordlen)
  }

  lemma {:induction false} BufferStart(c: byte)
    ensures BufferOk([], 32) && BufferOk([] + [c], 32)
  {
    FirstSizes();
  }

  lemma {:induction false} BufferRoom(word: seq<byte>, wordlen: nat)
    requires BufferOk(word, wordlen)
    ensures |word| < wordlen
  {
  }

  /** The HSParser struct. `word` is the collected part of a buffer of `wordlen`
      bytes, `pairs` the finished part of an array of `plen` pairs. */
  class HSParser {
    const begin: seq<byte>
    var ptr: nat
    var word: seq<byte>
    var wordlen: nat
    var pairs: seq<Pair>
    var plen: nat

    constructor (text: seq<byte>)
      ensures begin == text
    {
      begin := text;
      ptr, word, wordlen, pairs, plen := 0, [], 0, [], 0;
    }

    /** *(state->cur)++ = *(state->ptr): the byte must fall inside the buffer. */
    method Collect(c: byte)
      requires |word| < wordlen
      modifies this`word
      ensures word == old(word) + [c]
    {
      word := word + [c];
    }

    /** RESIZEPRSBUF: fails exactly when the word has reached the largest buffer. */
    method Resize() returns (ok: bool)
      requires BufferOk(word, wordlen)
      modifies this`wordlen
      ensures ok <==> !WordFull(word)
      ensures ok ==> |word| + 1 < wordlen && GrownFrom(32, MAX_WORD_BUFFER, wordlen)
    {
      hide GrownFrom, Doubled;
      if |word| + 1 >= wordlen {
        LastSizes();
        if wordlen < MAX_WORD_BUFFER { MayDouble(32, 24, wordlen); }
        GrownBound(32, MAX_WORD_BUFFER, wordlen);
        if wordlen * 2 > MAX_ALLOC_SIZE {
          return false;
        }
        wordlen := wordlen * 2;
      }
      GrownBound(32, MAX_WORD_BUFFER, wordlen);
      return true;
    }

    /** RESIZEPRSBUF and the store that follows it. */
    method Append(c: byte) returns (ok: bool)
      requires BufferOk(word, wordlen)
      modifies this`word, this`wordlen
      ensures ok <==> !WordFull(old(word))
      ensures ok ==> word == old(word) + [c] && BufferOk(word, wordlen)
    {
      ok := Resize();
      if ok {
        Collect(c);
      }
    }

    /** Room in the array for pair number |pairs|: fails exactly past the largest array. */
    method GrowPairs() returns (ok: bool)
      requires |pairs| <= plen && GrownFrom(16, MAX_PAIR_BUFFER, plen)
      modifies this`plen
      ensures ok <==> |pairs| < MAX_PAIR_BUFFER
      ensures ok ==> |pairs| < plen && GrownFrom(16, MAX_PAIR_BUFFER, plen)
    {
      hide GrownFrom, Doubled;
      GrownBound(16, MAX_PAIR_BUFFER, plen);
      if |pairs| >= plen {
        LastSizes();
        if plen < MAX_PAIR_BUFFER { MayDouble(16, 20, plen); }
        if PAIRS_SIZE * (plen * 2) > MAX_ALLOC_SIZE {
          return false;
        }
        plen := plen * 2;
      }
      return true;
    }

    /** The pair being read must fall inside the array. */
    method AddPair(p: Pair)
      requires |pairs| < plen
      modifies this`pairs
      ensures pairs == old(pairs) + [p]
    {
      pairs := pairs + [p];
    }

    /** get_val; `Error` is an elog(ERROR). Collected bytes always fit their buffer,
        with one byte to spare for the terminator the NULL test stores. */
    method GetVal(ignoreEq: bool) returns (r: Result<bool>, escaped: bool)
      requires ptr <= |begin|
      modifies this`ptr, this`word, this`wordlen
      ensures var spec := Scan(begin, ignoreEq, WaitVal, old(ptr), [], false);
              match spec
              case Found(q, w, e) => r == Ok(true) && ptr == q && word == w && escaped == e
              case NotFound => r == Ok(false)
              case Bad => r == Error
      ensures r == Ok(true) ==> |word| < wordlen
    {
      hide BufferOk, WordFull, IsSpace;
      var st := WaitVal;
      word, wordlen, escaped := [], 32, false;
      BufferStart(0);
      while true
        invariant ptr <= |begin| && BufferOk(word, wordlen)
        invariant st == WaitVal ==> word == [] && wordlen == 32
        invariant st != WaitVal ==> ptr > 0
        invariant Scan(begin, ignoreEq, st, ptr, word, escaped) == Scan(begin, ignoreEq, WaitVal, old(ptr), [], false)
        decreases |begin| - ptr
      {
        var c := At(begin, ptr);
        BufferRoom(word, wordlen);
        BufferStart(c);
        match st {
          case WaitVal =>
            if c == DQUOTE {
              escaped, st := true, InEscVal;
            } else if c == 0 {
              return Ok(false), escaped;
            } else if c == EQUALS && !ignoreEq {
              return Error, escaped;
            } else if c == ESCAPE {
              st := WaitEscIn;
            } else if !IsSpace(c) {
              Collect(c);
              st := InVal;
            }
          case InVal =>
            if c == ESCAPE {
              st := WaitEscIn;
            } else if c == EQUALS && !ignoreEq {
              ptr := ptr - 1;
              return Ok(true), escaped;
            } else if c == COMMA && ignoreEq {
              ptr := ptr - 1;
              return Ok(true), escaped;
            } else if IsSpace(c) {
              return Ok(true), escaped;
            } else if c == 0 {
              ptr := ptr - 1;
              return Ok(true), escaped;
            } else {
              var ok := Append(c);
              if !ok {
                return Error, escaped;
              }
            }
          case InEscVal =>
            if c == ESCAPE {
              st := WaitEscEscIn;
            } else if c == DQUOTE {
              return Ok(true), escaped;
            } else if c == 0 {
              return Error, escaped;
            } else {
              var ok := Append(c);
              if !ok {
                return Error, escaped;
              }
            }
          case WaitEscIn =>
            if c == 0 {
              return Error, escaped;
            }
            var ok := Append(c);
            if !ok {
              return Error, escaped;
            }
            st := InVal;
          case WaitEscEscIn =>
            if c == 0 {
              return Error, escaped;
            }
            var ok := Append(c);
            if !ok {
              return Error, escaped;
            }
            st := InEscVal;
        }
        ptr := ptr + 1;
      }
    }

    /** parse_hstore */
    method ParseHStore() returns (r: Result<seq<Pair>>)
      modifies this
      ensures r == Parse(begin, WKey, 0, [], [])
    {
      hide Scan, GrownFrom;
      var st, key := WKey, [];
      ptr, pairs, plen := 0, [], 16;
      FirstSizes();
      while true
        invariant ptr <= |begin|
        invariant |pairs| <= plen && GrownFrom(16, MAX_PAIR_BUFFER, plen)
        invariant st == WEq || st == WGt || st == WVal ==> |pairs| < plen
        invariant Parse(begin, st, ptr, pairs, key) == Parse(begin, WKey, 0, [], [])
        decreases |begin| - ptr
      {
        var c := At(begin, ptr);
        match st {
          case WKey =>
            var v, escaped := GetVal(false);
            if v.Error? {
              return Error;
            }
            if !v.value {
              return Ok(pairs);
            }
            var room := GrowPairs();
            if !room || |word| > MAX_WORD_LEN {
              return Error;
            }
            key := word;
            st := WEq;
          case WEq =>
            if c == EQUALS {
              st := WGt;
            } else if c == 0 {
              return Error;
            } else if !IsSpace(c) {
              return Error;
            }
          case WGt =>
            if c == GREATER {
              st := WVal;
            } else {
              return Error;
            }
          case WVal =>
            var v, escaped := GetVal(true);
            if v.Error? || !v.value {
              return Error;
            }
            if |word| > MAX_WORD_LEN {
              return Error;
            }
            var isNull := false;
            if |word| == 4 && !escaped {
              isNull := IsNullWord(word);
            }
            AddPair(Pair(key, word, isNull, true));
            st := WDel;
          case WDel =>
            if c == COMMA {
              st := WKey;
            } else if c == 0 {
              return Ok(pairs);
            } else if !IsSpace(c) {
              return Error;
            }
        }
        ptr := ptr + 1;
      }
    }
  }
}
