/** What a complete depth-first expansion proves about its request: it selects the reachable
    capabilities, and the order in which it finished them rules out every cycle. */
module Finishing {
  import opened Prelude
  import opened Definitions
  import opened Kahn
  import opened Requests

  /** The moment each finished capability was finished: after all its dependencies. */
  type Finish = map<Name, nat>

  ghost predicate Settled(q: Request, rank: Finish, c: Name)
    requires c in rank
  {
    c in q.reg && forall key | key in q.reg[c].needs && key !in q.available ::
      Supplier(q.reg, key).Some? && Supplier(q.reg, key).value in rank && rank[Supplier(q.reg, key).value] < rank[c]
  }

  ghost predicate AllSettled(q: Request, rank: Finish) {
    forall c | c in rank :: Settled(q, rank, c) && q.Reachable(c)
  }

  ghost predicate GoalsCovered(q: Request, rank: Finish) {
    forall goal | goal in q.goals && goal !in q.available :: Supplier(q.reg, goal).Some? &&
      Supplier(q.reg, goal).value in rank
  }

  /** Along a path that starts at a finished capability, finishing times only go down. */
  lemma {:induction false} PathDescends(q: Request, rank: Finish, p: seq<Name>)
    requires AllSettled(q, rank)
    requires q.IsPath(p) && p[0] in rank
    ensures p[|p| - 1] in rank
    ensures |p| >= 2 ==> rank[p[|p| - 1]] < rank[p[0]]
    decreases |p|
  {
    if |p| >= 2 {
      q.PathPrefix(p);
      var front := p[..|p| - 1];
      PathDescends(q, rank, front);
      assert Settled(q, rank, p[|p| - 2]);
    }
  }

  lemma ReachableIsFinished(q: Request, rank: Finish, c: Name)
    requires AllSettled(q, rank) && GoalsCovered(q, rank) && q.Reachable(c)
    ensures c in rank
  {
    var p :| q.IsPath(p) && q.IsRoot(p[0]) && p[|p| - 1] == c;
    PathDescends(q, rank, p);
  }

  lemma FinishedIsPlannable(q: Request, rank: Finish)
    requires q.goals != {}
    requires AllSettled(q, rank) && GoalsCovered(q, rank)
    ensures q.Plannable()
  {
    forall key | q.Demanded(key) ensures Supplier(q.reg, key).Some? {
      if key !in q.goals {
        var c :| c in q.reg && q.Reachable(c) && key in q.reg[c].needs;
        ReachableIsFinished(q, rank, c);
        assert Settled(q, rank, c);
      }
    }
    forall p ensures !q.IsCycle(p) {
      if q.IsCycle(p) {
        ReachableIsFinished(q, rank, p[0]);
        PathDescends(q, rank, p);
        assert false;
      }
    }
  }

  lemma FinishedIsSelection(q: Request, rank: Finish)
    requires AllSettled(q, rank) && GoalsCovered(q, rank)
    ensures rank.Keys == q.Selection().Keys
  {
    hide Request.Reachable, AllSettled, GoalsCovered, Supplier;
    forall c | c in q.Selection() ensures c in rank {
      ReachableIsFinished(q, rank, c);
    }
    forall c | c in rank ensures c in q.Selection() {
      FinishedIsReachable(q, rank, c);
    }
  }

  lemma FinishedIsReachable(q: Request, rank: Finish, c: Name)
    requires AllSettled(q, rank) && c in rank
    ensures c in q.reg && q.Reachable(c)
  {
    hide Request.Reachable, Supplier;
    assert Settled(q, rank, c);
  }

  /** Definitions selected from a registry, together with the suppliers of all they need. */
  ghost predicate Supplied(q: Request, selected: Catalog) {
    && (forall c | c in selected :: c in q.reg && selected[c] == q.reg[c])
    && forall c, key | c in selected && key in selected[c].needs && key !in q.available ::
         Supplier(q.reg, key).Some? && Supplier(q.reg, key).value in selected
  }

  /** Within such a selection every supplier is the registry's own. */
  lemma SupplierWithin(q: Request, selected: Catalog, c: Name, key: Name)
    requires Supplied(q, selected)
    requires c in selected && key in selected[c].needs && key !in q.available
    ensures Supplier(selected, key) == Supplier(q.reg, key)
  {
    var d := Supplier(q.reg, key).value;
    assert d in Producers(q.reg, key);
    forall x ensures x in Producers(selected, key) <==> x == d {
      if x in Producers(selected, key) {
        assert x in Producers(q.reg, key);
      }
    }
    assert Producers(selected, key) == {d};
    SupplierIs(selected, key, d);
  }

  lemma SelectionSupplied(q: Request, rank: Finish)
    requires AllSettled(q, rank) && GoalsCovered(q, rank)
    ensures Supplied(q, q.Selection())
  {
    var selected := q.Selection();
    FinishedIsSelection(q, rank);
    forall c, key | c in selected && key in selected[c].needs && key !in q.available
      ensures Supplier(q.reg, key).Some? && Supplier(q.reg, key).value in selected
    {
      assert c in rank && Settled(q, rank, c);
      assert Supplier(q.reg, key).value in rank.Keys;
    }
  }

  lemma DependencyFinishedFirst(q: Request, rank: Finish, c: Name, d: Name)
    requires AllSettled(q, rank) && Supplied(q, q.Selection()) && c in rank && c in q.Selection()
    requires DependsOn(q.Selection(), q.available, c, d)
    ensures d in rank && rank[d] < rank[c]
  {
    var selected := q.Selection();
    var key :| key in selected[c].needs && key !in q.available && Supplier(selected, key) == Some(d);
    SupplierWithin(q, selected, c, key);
    assert Settled(q, rank, c);
  }

  /** The finishing times rank the dependency graph of the selection. */
  lemma FinishRanksGraph(q: Request, rank: Finish)
    requires AllSettled(q, rank) && GoalsCovered(q, rank)
    ensures Ranked(DependencyGraph(q.Selection(), q.available), rank)
  {
    FinishedIsSelection(q, rank);
    SelectionSupplied(q, rank);
    var deps := DependencyGraph(q.Selection(), q.available);
    assert deps.Keys == rank.Keys;
    forall c, d | c in deps && d in deps[c] ensures d in rank && rank[d] < rank[c] {
      DependencyFinishedFirst(q, rank, c, d);
    }
  }
}
