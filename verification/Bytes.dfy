/** Byte strings and the two orders the contrib modules put on them. */
module Bytes {

  type byte = b: int | 0 <= b < 256

  datatype Option<+T> = None | Some(value: T)

  datatype Result<+T> = Ok(value: T) | Error

  /** The sign of memcmp on the common length, then of the length difference.
      On strings of equal length this is the sign of plain memcmp. */
  function Lex(a: seq<byte>, b: seq<byte>): int
  {
    if a == [] then (if b == [] then 0 else -1)
    else if b == [] then 1
    else if a[0] < b[0] then -1
    else if a[0] > b[0] then 1
    else Lex(a[1..], b[1..])
  }

  /** Keys of an hstore are ordered by length first, bytes second. */
  function KeyCmp(a: seq<byte>, b: seq<byte>): int
  {
    if |a| == |b| then Lex(a, b) else if |a| > |b| then 1 else -1
  }

  predicate KeyLess(a: seq<byte>, b: seq<byte>)
  {
    KeyCmp(a, b) < 0
  }

  lemma {:induction false} LexAntisymmetric(a: seq<byte>, b: seq<byte>)
    ensures Lex(a, b) == -Lex(b, a)
    ensures Lex(a, b) == 0 <==> a == b
    ensures -1 <= Lex(a, b) <= 1
  {
    if a != [] && b != [] && a[0] == b[0] {
      LexAntisymmetric(a[1..], b[1..]);
      assert a == [a[0]] + a[1..] && b == [b[0]] + b[1..];
    }
  }

  /** `a` comes before `b`: the two agree up to a position where `a` has ended or has
      the smaller byte. */
  predicate Before(a: seq<byte>, b: seq<byte>)
  {
    exists n :: 0 <= n < |b| && BeforeAt(a, b, n)
  }

  predicate BeforeAt(a: seq<byte>, b: seq<byte>, n: nat)
    requires n < |b|
  {
    n <= |a| && a[..n] == b[..n] && (n == |a| || a[n] < b[n])
  }

  lemma {:induction false} LexBefore(a: seq<byte>, b: seq<byte>) returns (n: nat)
    requires Lex(a, b) < 0
    ensures n < |b| && BeforeAt(a, b, n)
  {
    n := 0;
    if a != [] && a[0] == b[0] {
      n := LexBefore(a[1..], b[1..]);
      assert a[..n + 1] == [a[0]] + a[1..][..n] && b[..n + 1] == [b[0]] + b[1..][..n];
      n := n + 1;
    }
  }

  lemma {:induction false} BeforeLex(a: seq<byte>, b: seq<byte>, n: nat)
    requires n < |b| && BeforeAt(a, b, n)
    ensures Lex(a, b) < 0
  {
    if n > 0 {
      assert a[0] == a[..n][0] == b[..n][0] == b[0];
      assert a[1..][..n - 1] == a[..n][1..] && b[1..][..n - 1] == b[..n][1..];
      BeforeLex(a[1..], b[1..], n - 1);
    }
  }

  /** What the sign of the comparison means; exactly one of the three cases holds. */
  lemma {:induction false} LexMeaning(a: seq<byte>, b: seq<byte>)
    ensures Lex(a, b) < 0 <==> Before(a, b)
    ensures Lex(a, b) > 0 <==> Before(b, a)
    ensures Lex(a, b) == 0 <==> a == b
  {
    hide Lex;
    LexAntisymmetric(a, b);
    LexNegative(a, b);
    LexNegative(b, a);
  }

  lemma {:induction false} LexNegative(a: seq<byte>, b: seq<byte>)
    ensures Lex(a, b) < 0 <==> Before(a, b)
  {
    hide Lex, BeforeAt;
    if Lex(a, b) < 0 {
      var n := LexBefore(a, b);
    } else if Before(a, b) {
      var n :| 0 <= n < |b| && BeforeAt(a, b, n);
      BeforeLex(a, b, n);
    }
  }

  /** Keys come in order of their lengths, those of one length in byte order. */
  lemma {:induction false} KeyLessMeaning(a: seq<byte>, b: seq<byte>)
    ensures KeyLess(a, b) <==> |a| < |b| || (|a| == |b| && Before(a, b))
  {
    hide Lex, Before;
    LexMeaning(a, b);
  }

  lemma {:induction false} LexTransitive(a: seq<byte>, b: seq<byte>, c: seq<byte>)
    requires Lex(a, b) <= 0 && Lex(b, c) <= 0
    ensures Lex(a, c) <= 0
    ensures Lex(a, c) == 0 ==> Lex(a, b) == 0 && Lex(b, c) == 0
  {
    if a != [] && b != [] && c != [] && a[0] == b[0] == c[0] {
      LexTransitive(a[1..], b[1..], c[1..]);
    }
  }

  lemma {:induction false} KeyCmpAntisymmetric(a: seq<byte>, b: seq<byte>)
    ensures KeyCmp(a, b) == -KeyCmp(b, a)
    ensures KeyCmp(a, b) == 0 <==> a == b
  {
    LexAntisymmetric(a, b);
  }

  lemma {:induction false} KeyLessIrreflexive(a: seq<byte>)
    ensures !KeyLess(a, a)
  {
    KeyCmpAntisymmetric(a, a);
  }

  lemma {:induction false} KeyLessAsymmetric(a: seq<byte>, b: seq<byte>)
    ensures !(KeyLess(a, b) && KeyLess(b, a))
  {
    KeyCmpAntisymmetric(a, b);
  }

  lemma {:induction false} KeyLessTransitive(a: seq<byte>, b: seq<byte>, c: seq<byte>)
    requires KeyCmp(a, b) <= 0 && KeyCmp(b, c) <= 0
    ensures KeyCmp(a, c) <= 0
    ensures KeyLess(a, b) || KeyLess(b, c) ==> KeyLess(a, c)
  {
    if |a| == |b| == |c| {
      LexTransitive(a, b, c);
      LexAntisymmetric(a, b);
      LexAntisymmetric(b, c);
    }
  }

  lemma {:induction false} KeyLessTrans(a: seq<byte>, b: seq<byte>, c: seq<byte>)
    requires KeyLess(a, b) && KeyLess(b, c)
    ensures KeyLess(a, c)
  {
    KeyLessTransitive(a, b, c);
  }
}
