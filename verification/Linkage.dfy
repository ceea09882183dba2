/** When two aliases belong to one identity: linked by a chain of the alias sets that were added. */
module Linkage {
  import opened Prelude

  type History = seq<set<Name>>

  ghost predicate Adjacent(h: History, a: Name, b: Name) {
    exists s | s in h :: a in s && b in s
  }

  ghost predicate Chain(h: History, p: seq<Name>) {
    |p| >= 2 && forall i | 0 <= i < |p| - 1 :: Adjacent(h, p[i], p[i + 1])
  }

  /** The transitive closure of "were added together". */
  ghost predicate Linked(h: History, a: Name, b: Name) {
    exists p :: Chain(h, p) && p[0] == a && p[|p| - 1] == b
  }

  lemma AdjacentLinked(h: History, a: Name, b: Name)
    requires Adjacent(h, a, b)
    ensures Linked(h, a, b)
  {
    assert Chain(h, [a, b]);
  }

  lemma LinkedTransitive(h: History, a: Name, b: Name, c: Name)
    requires Linked(h, a, b) && Linked(h, b, c)
    ensures Linked(h, a, c)
  {
    hide Adjacent;
    var p :| Chain(h, p) && p[0] == a && p[|p| - 1] == b;
    var q :| Chain(h, q) && q[0] == b && q[|q| - 1] == c;
    var r := p + q[1..];
    forall i | 0 <= i < |r| - 1 ensures Adjacent(h, r[i], r[i + 1]) {
      if i >= |p| - 1 {
        assert r[i] == q[i - |p| + 1] && r[i + 1] == q[i - |p| + 2];
      }
    }
    assert Chain(h, r);
  }

  lemma LinkedSymmetric(h: History, a: Name, b: Name)
    requires Linked(h, a, b)
    ensures Linked(h, b, a)
  {
    var p :| Chain(h, p) && p[0] == a && p[|p| - 1] == b;
    var n := |p|;
    var r := seq(n, i requires 0 <= i < n => p[n - 1 - i]);
    forall i | 0 <= i < n - 1 ensures Adjacent(h, r[i], r[i + 1]) {
      assert Adjacent(h, p[n - 2 - i], p[n - 2 - i + 1]);
    }
    assert Chain(h, r);
  }

  lemma LinkedGrows(h: History, s: set<Name>, a: Name, b: Name)
    requires Linked(h, a, b)
    ensures Linked(h + [s], a, b)
  {
    var p :| Chain(h, p) && p[0] == a && p[|p| - 1] == b;
    forall i | 0 <= i < |p| - 1 ensures Adjacent(h + [s], p[i], p[i + 1]) {
      assert Adjacent(h, p[i], p[i + 1]);
      var t :| t in h && p[i] in t && p[i + 1] in t;
      assert t in h + [s];
    }
    assert Chain(h + [s], p);
  }

  /** A set that holds every added set it meets holds everything linked to its elements. */
  lemma {:induction false} LinkedStaysInside(h: History, inside: set<Name>, p: seq<Name>)
    requires Chain(h, p) && p[0] in inside
    requires forall s | s in h && s * inside != {} :: s <= inside
    ensures p[|p| - 1] in inside
    decreases |p|
  {
    var n := |p| - 1;
    if n > 1 {
      var front := p[..n];
      assert Chain(h, front) by {
        forall i | 0 <= i < |front| - 1 ensures Adjacent(h, front[i], front[i + 1]) {
          assert Adjacent(h, p[i], p[i + 1]);
        }
      }
      LinkedStaysInside(h, inside, front);
    }
    assert Adjacent(h, p[n - 1], p[n - 1 + 1]);
    var s :| s in h && p[n - 1] in s && p[n] in s;
    assert p[n - 1] in s * inside;
  }

  /** Linkage ignores the order in which the sets were added. */
  lemma LinkedIgnoresOrder(h: History, k: History, a: Name, b: Name)
    requires forall s :: s in h <==> s in k
    ensures Linked(h, a, b) <==> Linked(k, a, b)
  {
    if Linked(h, a, b) { LinkedWithin(h, k, a, b); }
    if Linked(k, a, b) { LinkedWithin(k, h, a, b); }
  }

  lemma LinkedWithin(h: History, k: History, a: Name, b: Name)
    requires Linked(h, a, b) && forall s | s in h :: s in k
    ensures Linked(k, a, b)
  {
    var p :| Chain(h, p) && p[0] == a && p[|p| - 1] == b;
    forall i | 0 <= i < |p| - 1 ensures Adjacent(k, p[i], p[i + 1]) {
      assert Adjacent(h, p[i], p[i + 1]);
    }
    assert Chain(k, p);
  }
}
