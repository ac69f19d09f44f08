/** What the code relies on qsort for, and small facts about permutations. */
module Sorting {

  predicate InOrder<T>(le: (T, T) -> bool, s: seq<T>)
  {
    forall i, j | 0 <= i < j < |s| :: le(s[i], s[j])
  }

  ghost predicate Preorder<T(!new)>(le: (T, T) -> bool)
  {
    && (forall a, b :: le(a, b) || le(b, a))
    && (forall a, b, c :: le(a, b) && le(b, c) ==> le(a, c))
  }

  /** Put `x` behind every element of an ordered list that does not exceed it. */
  function Insert<T>(le: (T, T) -> bool, s: seq<T>, x: T): (t: seq<T>)
    ensures multiset(t) == multiset(s) + multiset{x} && |t| == |s| + 1
  {
    if s == [] then [x]
    else
      var init, last := s[..|s| - 1], s[|s| - 1];
      assert s == init + [last];
      if le(last, x) then s + [x] else Insert(le, init, x) + [last]
  }

  lemma {:induction false} InsertInOrder<T(!new)>(le: (T, T) -> bool, s: seq<T>, x: T)
    requires Preorder(le) && InOrder(le, s)
    ensures InOrder(le, Insert(le, s, x))
  {
    hide Preorder, InOrder;
    if s == [] {
      OneInOrder(le, x);
    } else {
      var init, last := s[..|s| - 1], s[|s| - 1];
      assert s == init + [last];
      if le(last, x) {
        AllBelow(le, s, x);
        AppendInOrder(le, s, x);
      } else {
        InitInOrder(le, init, last);
        InsertInOrder(le, init, x);
        InsertBelow(le, init, x, last);
        AppendInOrder(le, Insert(le, init, x), last);
      }
    }
  }

  lemma {:induction false} OneInOrder<T>(le: (T, T) -> bool, x: T)
    ensures InOrder(le, [x])
  {
  }

  lemma {:induction false} InitInOrder<T>(le: (T, T) -> bool, init: seq<T>, last: T)
    requires InOrder(le, init + [last])
    ensures InOrder(le, init) && forall i | 0 <= i < |init| :: le(init[i], last)
  {
    var s := init + [last];
    assert forall i | 0 <= i < |init| :: init[i] == s[i];
    assert s[|init|] == last;
  }

  lemma {:induction false} AppendInOrder<T>(le: (T, T) -> bool, s: seq<T>, x: T)
    requires InOrder(le, s) && forall i | 0 <= i < |s| :: le(s[i], x)
    ensures InOrder(le, s + [x])
  {
  }

  lemma {:induction false} AllBelow<T(!new)>(le: (T, T) -> bool, s: seq<T>, x: T)
    requires Preorder(le) && InOrder(le, s) && s != [] && le(s[|s| - 1], x)
    ensures forall i | 0 <= i < |s| :: le(s[i], x)
  {
  }

  lemma {:induction false} InsertBelow<T(!new)>(le: (T, T) -> bool, init: seq<T>, x: T, last: T)
    requires Preorder(le) && !le(last, x) && forall i | 0 <= i < |init| :: le(init[i], last)
    ensures forall i | 0 <= i < |Insert(le, init, x)| :: le(Insert(le, init, x)[i], last)
  {
    hide Insert;
    var t := Insert(le, init, x);
    forall i | 0 <= i < |t|
      ensures le(t[i], last)
    {
      assert t[i] in multiset(t);
      assert t[i] == x || t[i] in multiset(init);
    }
  }

  /** qsort: some ordered permutation. */
  method Sort<T(!new)>(le: (T, T) -> bool, t: seq<T>) returns (s: seq<T>)
    requires Preorder(le)
    ensures InOrder(le, s) && multiset(s) == multiset(t) && |s| == |t|
  {
    hide Insert, Preorder, InOrder;
    s := [];
    EmptyInOrder(le);
    for i := 0 to |t|
      invariant InOrder(le, s) && multiset(s) == multiset(t[..i]) && |s| == i
    {
      InsertInOrder(le, s, t[i]);
      s := Insert(le, s, t[i]);
      assert t[..i + 1] == t[..i] + [t[i]];
    }
    assert t[..|t|] == t;
  }

  lemma {:induction false} EmptyInOrder<T>(le: (T, T) -> bool)
    ensures InOrder(le, [])
  {
  }

  // ---------- permutations ----------

  function Mapped<T, U>(f: T -> U, s: seq<T>): (r: seq<U>)
    ensures |r| == |s| && forall i | 0 <= i < |s| :: r[i] == f(s[i])
  {
    seq(|s|, i requires 0 <= i < |s| => f(s[i]))
  }

  lemma {:induction false} WithoutOne<T>(s: seq<T>, i: nat)
    requires i < |s|
    ensures multiset(s) == multiset(s[..i] + s[i + 1..]) + multiset{s[i]}
  {
    assert s == s[..i] + [s[i]] + s[i + 1..];
  }

  lemma {:induction false} Cancel<T>(m: multiset<T>, n: multiset<T>, x: T)
    requires m + multiset{x} == n + multiset{x}
    ensures m == n
  {
    assert (m + multiset{x}) - multiset{x} == m && (n + multiset{x}) - multiset{x} == n;
  }

  lemma {:induction false} SameRest<T>(a: seq<T>, b: seq<T>, i: nat)
    requires a != [] && multiset(a) == multiset(b) && i < |b| && b[i] == a[|a| - 1]
    ensures multiset(a[..|a| - 1]) == multiset(b[..i] + b[i + 1..])
  {
    var n := |a| - 1;
    assert a[..n] + a[n + 1..] == a[..n];
    WithoutOne(a, n);
    WithoutOne(b, i);
    Cancel(multiset(a[..n]), multiset(b[..i] + b[i + 1..]), b[i]);
  }

  lemma {:induction false} MappedInsert<T, U>(f: T -> U, s: seq<T>, i: nat)
    requires i < |s|
    ensures multiset(Mapped(f, s)) == multiset(Mapped(f, s[..i] + s[i + 1..])) + multiset{f(s[i])}
  {
    hide Mapped;
    var r := Mapped(f, s[..i] + s[i + 1..]);
    assert Mapped(f, s) == r[..i] + [f(s[i])] + r[i..];
    assert r == r[..i] + r[i..];
  }

  /** The images of a permutation are a permutation of the images. */
  lemma {:induction false} MappedPermutation<T, U>(f: T -> U, a: seq<T>, b: seq<T>)
    requires multiset(a) == multiset(b)
    ensures multiset(Mapped(f, a)) == multiset(Mapped(f, b))
  {
    hide Mapped;
    if a == [] {
      assert |multiset(b)| == 0;
      assert Mapped(f, a) == Mapped(f, b);
    } else {
      var n := |a| - 1;
      assert a[n] in multiset(b);
      var i :| 0 <= i < |b| && b[i] == a[n];
      SameRest(a, b, i);
      MappedPermutation(f, a[..n], b[..i] + b[i + 1..]);
      MappedInsert(f, b, i);
      MappedInsert(f, a, n);
      assert a[..n] + a[n + 1..] == a[..n];
    }
  }

  function Elements(s: seq<nat>): (r: set<nat>)
    ensures forall x :: x in r <==> x in s
  {
    set x | x in s
  }
}
