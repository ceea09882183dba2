/** The order in which the planner's heap loop emits a dependency graph, and why that order is
    the lexicographically least topological one (planning/planner.py, `_topological_order`). */
module Kahn {
  import opened Prelude
  import opened Ordering

  /** For each selected capability, the selected capabilities that must run before it. */
  type Dependencies = map<Name, set<Name>>

  /** What the heap holds once `done` has been emitted. */
  function Ready(deps: Dependencies, done: set<Name>): set<Name> {
    set c | c in deps && c !in done && deps[c] <= done
  }

  /** Emit the least ready name until none is ready. */
  function Greedy(deps: Dependencies, done: set<Name>): (order: seq<Name>)
    decreases |deps.Keys - done|
  {
    var ready := Ready(deps, done);
    if ready == {} then []
    else
      var first := Least(ready);
      SubsetSize(deps.Keys - (done + {first}), deps.Keys - done);
      assert first in deps.Keys - done;
      [first] + Greedy(deps, done + {first})
  }

  /** `order` lists names that are not done, once each, every one after all its dependencies. */
  ghost predicate Admissible(deps: Dependencies, done: set<Name>, order: seq<Name>) {
    && Distinct(order)
    && (forall i | 0 <= i < |order| :: order[i] in deps && order[i] !in done)
    && (forall i | 0 <= i < |order| :: deps[order[i]] <= done + Elements(order[..i]))
  }

  /** ... and lists all of them. */
  ghost predicate Completes(deps: Dependencies, done: set<Name>, order: seq<Name>) {
    Admissible(deps, done, order) && Elements(order) == deps.Keys - done
  }

  ghost predicate Topological(deps: Dependencies, order: seq<Name>) {
    Completes(deps, {}, order)
  }

  lemma PrependAdmissible(deps: Dependencies, done: set<Name>, first: Name, rest: seq<Name>)
    requires first in Ready(deps, done)
    requires Admissible(deps, done + {first}, rest)
    ensures Admissible(deps, done, [first] + rest)
  {
    var order := [first] + rest;
    forall i | 0 <= i < |order| ensures deps[order[i]] <= done + Elements(order[..i]) {
      if i > 0 {
        assert order[..i] == [first] + rest[..i - 1];
        assert Elements(order[..i]) == {first} + Elements(rest[..i - 1]);
      }
    }
  }

  lemma PrependCompletes(deps: Dependencies, done: set<Name>, first: Name, rest: seq<Name>)
    requires first in Ready(deps, done)
    requires Completes(deps, done + {first}, rest)
    ensures Completes(deps, done, [first] + rest)
  {
    PrependAdmissible(deps, done, first, rest);
    assert Elements([first] + rest) == {first} + Elements(rest);
  }

  /** Something is ready as long as some completing order has work left: its first name. */
  lemma SomethingReady(deps: Dependencies, done: set<Name>, order: seq<Name>)
    requires Completes(deps, done, order)
    ensures order == [] ==> Ready(deps, done) == {}
    ensures order != [] ==> order[0] in Ready(deps, done)
  {
    if order == [] {
      assert deps.Keys - done == Elements(order) == {};
    } else {
      assert Elements(order[..0]) == {};
    }
  }

  /** The heap loop never breaks a dependency, whatever the graph. */
  lemma {:induction false} GreedyAdmissible(deps: Dependencies, done: set<Name>)
    ensures Admissible(deps, done, Greedy(deps, done))
    decreases |deps.Keys - done|
  {
    var ready := Ready(deps, done);
    if ready != {} {
      var first := Least(ready);
      SubsetSize(deps.Keys - (done + {first}), deps.Keys - done);
      assert first in deps.Keys - done;
      GreedyAdmissible(deps, done + {first});
      PrependAdmissible(deps, done, first, Greedy(deps, done + {first}));
    }
  }

  function Without(order: seq<Name>, k: nat): (rest: seq<Name>)
    requires k < |order|
    ensures |rest| == |order| - 1
    ensures forall i | 0 <= i < |rest| :: rest[i] == order[if i < k then i else i + 1]
  {
    order[..k] + order[k + 1..]
  }

  lemma PrefixWithout(order: seq<Name>, k: nat, i: nat)
    requires k < |order| && i < |order| - 1
    ensures Elements(order[..if i < k then i else i + 1]) <= {order[k]} + Elements(Without(order, k)[..i])
  {
    var rest := Without(order, k);
    var j := if i < k then i else i + 1;
    forall x | x in order[..j] ensures x == order[k] || x in rest[..i] {
      var p :| 0 <= p < j && order[p] == x;
      if p != k {
        assert rest[..i][if p < k then p else p - 1] == x;
      }
    }
  }

  lemma ElementsWithout(order: seq<Name>, k: nat)
    requires k < |order| && Distinct(order)
    ensures Elements(Without(order, k)) == Elements(order) - {order[k]}
    ensures Distinct(Without(order, k))
  {
    var rest := Without(order, k);
    forall x | x in order && x != order[k] ensures x in rest {
      var p :| 0 <= p < |order| && order[p] == x;
      assert rest[if p < k then p else p - 1] == x;
    }
  }

  /** Dropping one ready name from a completing order leaves a completing order of what remains. */
  lemma {:induction false} DropReady(deps: Dependencies, done: set<Name>, order: seq<Name>, k: nat)
    requires Completes(deps, done, order)
    requires k < |order| && order[k] in Ready(deps, done)
    ensures Completes(deps, done + {order[k]}, Without(order, k))
  {
    var rest := Without(order, k);
    ElementsWithout(order, k);
    forall i | 0 <= i < |rest| ensures deps[rest[i]] <= done + {order[k]} + Elements(rest[..i]) {
      PrefixWithout(order, k, i);
    }
  }

  /** Whenever some order completes the graph, the heap loop completes it too, and with the
      lexicographically least of all completing orders. */
  lemma {:induction false} GreedyLeast(deps: Dependencies, done: set<Name>, order: seq<Name>)
    requires Completes(deps, done, order)
    ensures Completes(deps, done, Greedy(deps, done))
    ensures LexLeq(Greedy(deps, done), order)
    decreases |order|
  {
    SomethingReady(deps, done, order);
    if order != [] {
      var first := Least(Ready(deps, done));
      assert first in Elements(order);
      var k :| 0 <= k < |order| && order[k] == first;
      var rest := Without(order, k);
      DropReady(deps, done, order, k);
      GreedyLeast(deps, done + {first}, rest);
      var tail := Greedy(deps, done + {first});
      PrependCompletes(deps, done, first, tail);
      assert Greedy(deps, done) == [first] + tail;
      if first == order[0] {
        assert rest == order[1..];
      }
    }
  }

  /** Numbers that fall along every dependency: the graph has no cycle. */
  ghost predicate Ranked(deps: Dependencies, rank: map<Name, nat>) {
    && (forall c | c in deps :: c in rank && deps[c] <= deps.Keys)
    && forall c, d | c in deps && d in deps[c] :: d in rank && rank[d] < rank[c]
  }

  lemma LowestRank(names: set<Name>, rank: map<Name, nat>) returns (low: Name)
    requires names != {} && names <= rank.Keys
    ensures low in names && forall x | x in names :: rank[low] <= rank[x]
  {
    low :| low in names;
    if names != {low} {
      var other := LowestRank(names - {low}, rank);
      var first := low;
      if rank[other] < rank[low] {
        low := other;
      }
      forall x | x in names ensures rank[low] <= rank[x] {
        assert x == first || x in names - {first};
      }
    }
  }

  lemma RankedReady(deps: Dependencies, done: set<Name>, rank: map<Name, nat>)
    requires Ranked(deps, rank) && deps.Keys - done != {}
    ensures Ready(deps, done) != {}
  {
    var low := LowestRank(deps.Keys - done, rank);
    forall d | d in deps[low] ensures d in done {
      assert d in deps.Keys && rank[d] < rank[low];
    }
    assert low in Ready(deps, done);
  }

  /** A ranked graph is emitted completely. */
  lemma {:induction false} RankedCompletes(deps: Dependencies, done: set<Name>, rank: map<Name, nat>)
    requires Ranked(deps, rank)
    ensures Completes(deps, done, Greedy(deps, done))
    decreases |deps.Keys - done|
  {
    var ready := Ready(deps, done);
    assert ready <= deps.Keys - done;
    if ready == {} {
      if deps.Keys - done != {} {
        RankedReady(deps, done, rank);
        assert false;
      }
    } else {
      var first := Least(ready);
      SubsetSize(deps.Keys - (done + {first}), deps.Keys - done);
      assert first in deps.Keys - done;
      RankedCompletes(deps, done + {first}, rank);
      PrependCompletes(deps, done, first, Greedy(deps, done + {first}));
    }
  }

  /** The emitted order is topological as soon as any topological order exists, and no topological
      order precedes it lexicographically; so it is the only order with that property. */
  lemma LeastTopologicalOrder(deps: Dependencies, order: seq<Name>)
    requires Topological(deps, order)
    ensures Topological(deps, Greedy(deps, {}))
    ensures LexLeq(Greedy(deps, {}), order)
    ensures LexLeq(order, Greedy(deps, {})) ==> order == Greedy(deps, {})
  {
    GreedyLeast(deps, {}, order);
    if LexLeq(order, Greedy(deps, {})) {
      LexAntisymmetric(order, Greedy(deps, {}));
    }
  }

  /** The loop's length test detects exactly the graphs it could not finish. */
  lemma LengthTest(deps: Dependencies)
    ensures |Greedy(deps, {})| == |deps| <==> Topological(deps, Greedy(deps, {}))
  {
    GreedyAdmissible(deps, {});
    var order := Greedy(deps, {});
    DistinctSize(order);
    assert Elements(order) <= deps.Keys;
    SubsetSize(Elements(order), deps.Keys);
    assert |deps.Keys| == |deps|;
    assert deps.Keys - {} == deps.Keys;
  }
}
