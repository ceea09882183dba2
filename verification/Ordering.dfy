/** Least elements, sorted tuples and the lexicographic order on sequences of names. */
module Ordering {
  import opened Prelude

  /** The orders that sort keys induce: ties are possible. */
  ghost predicate IsOrder<T(!new)>(leq: (T, T) -> bool) {
    && (forall a, b :: leq(a, b) || leq(b, a))
    && (forall a, b, c :: leq(a, b) && leq(b, c) ==> leq(a, c))
  }

  ghost predicate IsLeastBy<T(!new)>(leq: (T, T) -> bool, m: T, s: set<T>) {
    m in s && forall x | x in s :: leq(m, x)
  }

  lemma LesserOfTwo<T(!new)>(leq: (T, T) -> bool, x: T, m: T, s: set<T>)
    requires IsOrder(leq) && x in s && IsLeastBy(leq, m, s - {x})
    ensures IsLeastBy(leq, if leq(x, m) then x else m, s)
  {
    forall y | y in s ensures leq(if leq(x, m) then x else m, y) {
      assert y == x || y in s - {x};
    }
  }

  lemma {:induction false} LeastBy<T(!new)>(leq: (T, T) -> bool, s: set<T>)
    requires IsOrder(leq) && s != {}
    ensures exists m :: IsLeastBy(leq, m, s)
  {
    var x :| x in s;
    if s == {x} {
      assert IsLeastBy(leq, x, s);
    } else {
      LeastBy(leq, s - {x});
      hide IsLeastBy, IsOrder;
      var m :| IsLeastBy(leq, m, s - {x});
      LesserOfTwo(leq, x, m, s);
    }
  }

  /** `min(s)`. */
  function Least(s: set<nat>): (m: nat)
    requires s != {}
    ensures m in s && forall x | x in s :: m <= x
  {
    LeastBy((x: nat, y: nat) => x <= y, s);
    var m :| m in s && forall x | x in s :: m <= x;
    m
  }

  /** `tuple(sorted(s))`. */
  function Sorted(s: set<nat>): (r: seq<nat>)
    ensures forall x :: x in r <==> x in s
    ensures forall i, j | 0 <= i < j < |r| :: r[i] < r[j]
    ensures |r| == |s|
  {
    if s == {} then [] else [Least(s)] + Sorted(s - {Least(s)})
  }

  predicate StrictlyAscending(r: seq<nat>) {
    forall i, j | 0 <= i < j < |r| :: r[i] < r[j]
  }

  /** A strictly ascending tuple is fixed by its elements. */
  lemma {:induction false} AscendingIsSorted(r: seq<nat>, s: set<nat>)
    requires StrictlyAscending(r)
    requires forall x :: x in r <==> x in s
    ensures r == Sorted(s)
  {
    if r == [] {
      assert s == {};
    } else {
      var rest := r[1..];
      assert r == [r[0]] + rest;
      assert r[0] in r && Least(s) in r;
      assert r[0] == Least(s);
      assert forall x :: x in rest ==> r[0] < x;
      AscendingIsSorted(rest, s - {r[0]});
    }
  }

  /** `a <= b` as tuples compare. */
  predicate LexLeq(a: seq<nat>, b: seq<nat>) {
    if a == [] then true
    else if b == [] then false
    else a[0] < b[0] || (a[0] == b[0] && LexLeq(a[1..], b[1..]))
  }

  lemma {:induction false} LexAntisymmetric(a: seq<nat>, b: seq<nat>)
    requires LexLeq(a, b) && LexLeq(b, a)
    ensures a == b
  {
    if a != [] && b != [] {
      LexAntisymmetric(a[1..], b[1..]);
      assert a == [a[0]] + a[1..] && b == [b[0]] + b[1..];
    }
  }

  lemma {:induction false} LexTotal(a: seq<nat>, b: seq<nat>)
    ensures LexLeq(a, b) || LexLeq(b, a)
  {
    if a != [] && b != [] {
      LexTotal(a[1..], b[1..]);
    }
  }

  lemma {:induction false} LexTransitive(a: seq<nat>, b: seq<nat>, c: seq<nat>)
    requires LexLeq(a, b) && LexLeq(b, c)
    ensures LexLeq(a, c)
  {
    if a != [] && b != [] && c != [] && a[0] == b[0] == c[0] {
      LexTransitive(a[1..], b[1..], c[1..]);
    }
  }

  /** `sorted(s, key=...)` of distinct elements; ties come in any order. */
  method SortBy<T(!new)>(leq: (T, T) -> bool, s: set<T>) returns (r: seq<T>)
    requires IsOrder(leq)
    ensures Distinct(r) && forall x :: x in r <==> x in s
    ensures forall i, j | 0 <= i < j < |r| :: leq(r[i], r[j])
  {
    r := [];
    var pending := s;
    while pending != {}
      invariant Distinct(r) && pending <= s && forall x :: x in r <==> x in s - pending
      invariant forall i, j | 0 <= i < j < |r| :: leq(r[i], r[j])
      invariant forall x, y | x in r && y in pending :: leq(x, y)
      decreases pending
    {
      LeastBy(leq, pending);
      var x :| x in pending && forall y | y in pending :: leq(x, y);
      pending := pending - {x};
      assert forall y | y in r :: leq(y, x);
      r := r + [x];
    }
  }
}
