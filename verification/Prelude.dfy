/** Shared vocabulary: optional values, results, and names.

    A `Name` is a string of the source that the modelled code only compares for
    equality and orders: a capability identity, a pipeline state key, a rendered
    identifier.  A natural number keeps exactly that structure. */
module Prelude {
  type Name = nat

  datatype Option<+T> = None | Some(value: T)

  datatype Result<+T, +E> = Success(value: T) | Failure(error: E)

  ghost predicate Distinct<T>(s: seq<T>) {
    forall i, j | 0 <= i < j < |s| :: s[i] != s[j]
  }

  function Elements<T(==)>(s: seq<T>): set<T> {
    set x | x in s
  }

  lemma SubsetSize<T>(a: set<T>, b: set<T>)
    requires a <= b
    ensures |a| <= |b|
    ensures |a| == |b| ==> a == b
  {
    assert b == a + (b - a);
    assert |b| == |a| + |b - a|;
  }

  lemma NothingShared<T>(a: set<T>, b: set<T>)
    requires a * b == {}
    ensures a !! b
  {
    forall x | x in a ensures x !in b {
      assert x !in a * b;
    }
  }

  lemma {:induction false} DistinctSize<T>(s: seq<T>)
    ensures |Elements(s)| <= |s|
    ensures |Elements(s)| == |s| <==> Distinct(s)
  {
    if s != [] {
      var n := |s| - 1;
      var front := s[..n];
      DistinctSize(front);
      assert s == front + [s[n]];
      assert Elements(s) == Elements(front) + {s[n]};
      if s[n] in front {
        assert Elements(s) == Elements(front);
        var i :| 0 <= i < n && front[i] == s[n];
        assert s[i] == s[n];
      } else if Distinct(front) {
        assert forall i | 0 <= i < n :: s[i] == front[i] && front[i] in front;
      } else {
        var i, j :| 0 <= i < j < n && front[i] == front[j];
        assert s[i] == s[j];
      }
    }
  }
}
