/** Dependency expansion and topological planning (planning/planner.py). */
module Planning {
  import opened Prelude
  import opened Ordering
  import opened Definitions
  import opened Kahn
  import opened Requests
  import opened Finishing
  import opened Plans
  import opened TopologicalOrders

  /** The plan of a request: its reachable capabilities in the heap loop's order. */
  ghost function PlanOf(q: Request): ExecutionPlan {
    var order := Greedy(DependencyGraph(q.Selection(), q.available), {});
    GreedyAdmissible(DependencyGraph(q.Selection(), q.available), {});
    ExecutionPlan(Sorted(q.goals), Sorted(q.available), StepsFor(q.Selection(), order))
  }

  /** The state `visit` closes over: the open calls form a dependency path, what is completed is
      settled, and both are selected. */
  datatype Progress = Progress(selected: Catalog, visiting: seq<Name>, completed: set<Name>, rank: Finish) {
    ghost predicate Selects(q: Request) {
      && (forall c | c in selected :: c in q.reg && selected[c] == q.reg[c] && q.Reachable(c))
      && (forall c :: c in selected <==> c in completed || c in visiting)
    }

    ghost predicate Consistent(q: Request) {
      && Selects(q)
      && (forall c | c in visiting :: c !in completed)
      && (visiting != [] ==> q.IsPath(visiting))
      && rank.Keys == completed
      && AllSettled(q, rank)
    }

    function Opened(d: Definition): Progress {
      this.(selected := selected[d.id := d], visiting := visiting + [d.id])
    }

    /** Calls that may follow the open ones. */
    ghost predicate MayVisit(q: Request, d: Definition) {
      && d.id in q.reg && d == q.reg[d.id] && q.Reachable(d.id)
      && (visiting != [] ==> DependsOn(q.reg, q.available, visiting[|visiting| - 1], d.id))
    }

    ghost predicate NeedsCompleted(q: Request, needs: seq<Name>) {
      forall key | key in needs && key !in q.available :: Supplier(q.reg, key).Some? &&
        Supplier(q.reg, key).value in completed
    }

    /** Nothing is forgotten while deeper calls run. */
    ghost predicate Extends(before: Progress) {
      && before.completed <= completed && before.selected.Keys <= selected.Keys
      && forall c | c in before.rank :: c in rank && rank[c] == before.rank[c]
    }

    lemma OpenedSelects(q: Request, d: Definition)
      requires Selects(q) && MayVisit(q, d)
      ensures Opened(d).Selects(q)
    {
    }

    lemma OpenedConsistent(q: Request, d: Definition)
      requires Consistent(q) && MayVisit(q, d) && d.id !in completed && d.id !in visiting
      ensures Opened(d).Consistent(q)
    {
      hide DependsOn, AllSettled, Progress.Selects, Request.Reachable, Request.IsPath;
      OpenedSelects(q, d);
      if visiting != [] {
        q.PathAppend(visiting, d.id);
      } else {
        q.SinglePath(d.id);
        assert visiting + [d.id] == [d.id];
      }
    }

    lemma Closed(q: Request, d: Definition, before: seq<Name>) returns (rank': Finish)
      requires Consistent(q) && visiting == before + [d.id] && d.id !in before
      requires d.id in q.reg && d == q.reg[d.id] && NeedsCompleted(q, d.needs)
      ensures Progress(selected, before, completed + {d.id}, rank').Consistent(q)
      ensures Progress(selected, before, completed + {d.id}, rank').Extends(this)
    {
      rank' := rank[d.id := HighestRank(rank)];
      assert d.id in visiting && d.id !in completed;
      forall c | c in rank' ensures Settled(q, rank', c) && q.Reachable(c) {
        if c != d.id {
          assert Settled(q, rank, c);
        }
      }
      forall c | c in before ensures c in visiting && c != d.id {
      }
      forall c | c in visiting ensures c in before || c == d.id {
      }
      forall i | 0 <= i < |before| - 1 ensures DependsOn(q.reg, q.available, before[i], before[i + 1]) {
        assert visiting[i] == before[i] && visiting[i + 1] == before[i + 1];
      }
    }

    lemma ExtendsTransitive(middle: Progress, before: Progress)
      requires Extends(middle) && middle.Extends(before)
      ensures Extends(before)
    {
      assert forall c | c in before.rank :: c in middle.rank;
    }

    lemma NextNeed(q: Request, middle: Progress, needs: seq<Name>, key: Name)
      requires Extends(middle) && middle.NeedsCompleted(q, needs)
      requires key in q.available || (Supplier(q.reg, key).Some? && Supplier(q.reg, key).value in completed)
      ensures NeedsCompleted(q, needs + [key])
    {
      hide Supplier;
    }

    lemma NoNeeds(q: Request)
      ensures NeedsCompleted(q, [])
    {
    }

    lemma ExtendsItself()
      ensures Extends(this)
    {
    }

    lemma OpenedExtends(d: Definition)
      ensures Opened(d).Extends(this)
    {
    }

    lemma NotSelected(q: Request, id: Name)
      requires Consistent(q) && id !in completed && id !in visiting
      ensures id !in selected
    {
    }

    lemma CycleFound(q: Request, start: nat, id: Name)
      requires Consistent(q) && start < |visiting| && visiting[start] == id
      requires DependsOn(q.reg, q.available, visiting[|visiting| - 1], id)
      ensures q.Justifies(DependencyCycle(visiting[start..] + [id]))
    {
      hide DependsOn, AllSettled, Request.Reachable;
      q.PathSuffix(visiting, start);
      q.PathAppend(visiting[start..], id);
      assert visiting[start] in visiting;
    }
  }

  ghost function Unselected(q: Request, selected: Catalog): nat {
    |q.reg.Keys - selected.Keys|
  }

  /** Selecting one more registered capability leaves fewer to select. */
  lemma FewerUnselected(q: Request, selected: Catalog, d: Definition)
    requires d.id in q.reg && d.id !in selected
    ensures Unselected(q, selected[d.id := d]) < Unselected(q, selected)
  {
    var left := q.reg.Keys - selected.Keys;
    assert d.id in left;
    SubsetSize(q.reg.Keys - selected[d.id := d].Keys, left - {d.id});
  }

  lemma NoMoreUnselected(q: Request, now: Progress, before: Progress)
    requires now.Extends(before)
    ensures Unselected(q, now.selected) <= Unselected(q, before.selected)
  {
    SubsetSize(q.reg.Keys - now.selected.Keys, q.reg.Keys - before.selected.Keys);
  }

  class Expansion {
    const registry: CapabilityRegistry
    ghost const q: Request
    const available: set<Name>
    var selected: Catalog
    var visiting: seq<Name>
    var completed: set<Name>
    ghost var rank: Finish

    ghost function State(): Progress
      reads this
    {
      Progress(selected, visiting, completed, rank)
    }

    ghost predicate Serves()
      reads registry
    {
      registry.Valid() && registry.byId == q.reg && available == q.available
    }

    constructor (registry: CapabilityRegistry, ghost q: Request, available: set<Name>)
      requires registry.Valid() && registry.byId == q.reg && available == q.available
      ensures Serves() && this.registry == registry && this.q == q
      ensures State() == Progress(map[], [], {}, map[])
    {
      this.registry := registry;
      this.q := q;
      this.available := available;
      selected := map[];
      visiting := [];
      completed := {};
      rank := map[];
    }

    method ProducerFor(key: Name) returns (r: Result<Definition, PlanError>)
      requires Serves() && q.Demanded(key)
      ensures r.Success? <==> Supplier(q.reg, key).Some?
      ensures r.Success? ==>
              r.value.id in q.reg && r.value == q.reg[r.value.id] && Supplier(q.reg, key) == Some(r.value.id)
      ensures r.Failure? ==> q.Justifies(r.error)
    {
      var producers := registry.ProducersFor(key);
      ghost var all := Producers(q.reg, key);
      if producers == [] {
        assert all == {};
        return Failure(MissingProducer(key));
      }
      if |producers| > 1 {
        var candidates := Sorted(Producers(registry.byId, key));
        return Failure(AmbiguousProducer(key, candidates));
      }
      assert producers[0] in producers && producers[0].id in all;
      assert Supplier(q.reg, key).value == producers[0].id;
      return Success(producers[0]);
    }

    /** `visit`: terminates because every nested call selects one more registered capability. */
    method Visit(definition: Definition) returns (e: Option<PlanError>)
      requires Serves() && State().Consistent(q) && State().MayVisit(q, definition)
      modifies this
      ensures e.None? ==> State().Consistent(q) && State().Extends(old(State()))
      ensures e.None? ==> visiting == old(visiting) && definition.id in completed
      ensures e.Some? ==> q.Justifies(e.value)
      decreases Unselected(q, selected), 1
    {
      hide Unselected, Progress.Consistent, Request.Justifies, DependsOn, Request.Reachable, Progress.Extends, Serves;
      ghost var before := State();
      var id := definition.id;
      if id in completed {
        before.ExtendsItself();
        return None;
      }
      if id in visiting {
        var start := IndexOf(visiting, id);
        before.CycleFound(q, start, id);
        return Some(DependencyCycle(visiting[start..] + [id]));
      }
      before.NotSelected(q, id);
      e := VisitNew(definition);
    }

    /** The rest of `visit`: open the call, visit the requirements, close it. */
    method VisitNew(definition: Definition) returns (e: Option<PlanError>)
      requires Serves() && State().Consistent(q) && State().MayVisit(q, definition)
      requires definition.id !in completed && definition.id !in visiting && definition.id !in selected
      modifies this
      ensures e.None? ==> State().Consistent(q) && State().Extends(old(State()))
      ensures e.None? ==> visiting == old(visiting) && definition.id in completed
      ensures e.Some? ==> q.Justifies(e.value)
      decreases Unselected(q, selected), 0
    {
      hide Unselected, Progress.Consistent, Request.Justifies, DependsOn, Request.Reachable, Progress.Extends,
        Progress.NeedsCompleted, Serves;
      ghost var before := State();
      before.OpenedConsistent(q, definition);
      before.OpenedExtends(definition);
      FewerUnselected(q, selected, definition);
      visiting := visiting + [definition.id];
      selected := selected[definition.id := definition];
      assert State() == before.Opened(definition);
      e := VisitRequirements(definition);
      if e.None? {
        State().ExtendsTransitive(before.Opened(definition), before);
        Close(definition, before.visiting);
      }
    }

    /** `visiting.pop()` and `completed.add(...)`: the capability is finished after all it needs. */
    method Close(definition: Definition, ghost stack: seq<Name>)
      requires State().Consistent(q) && visiting == stack + [definition.id] && definition.id !in stack
      requires definition.id in q.reg && definition == q.reg[definition.id] &&
               State().NeedsCompleted(q, definition.needs)
      modifies this
      ensures State().Consistent(q) && visiting == stack && definition.id in completed
      ensures forall before: Progress :: old(State()).Extends(before) ==> State().Extends(before)
    {
      hide Progress.Consistent, DependsOn, Request.Reachable, Progress.Extends, Progress.NeedsCompleted;
      ghost var middle := State();
      ghost var rank' := middle.Closed(q, definition, stack);
      visiting := visiting[..|visiting| - 1];
      completed := completed + {definition.id};
      rank := rank';
      assert State() == Progress(middle.selected, stack, middle.completed + {definition.id}, rank');
      forall before: Progress | middle.Extends(before) ensures State().Extends(before) {
        State().ExtendsTransitive(middle, before);
      }
    }

    /** The loop of `visit` over one capability's requirements. */
    method VisitRequirements(definition: Definition) returns (e: Option<PlanError>)
      requires Serves() && State().Consistent(q)
      requires definition.id in q.reg && definition == q.reg[definition.id] && q.Reachable(definition.id)
      requires visiting != [] && visiting[|visiting| - 1] == definition.id
      modifies this
      ensures e.None? ==> State().Consistent(q) && State().Extends(old(State()))
      ensures e.None? ==> visiting == old(visiting) && State().NeedsCompleted(q, definition.needs)
      ensures e.Some? ==> q.Justifies(e.value)
      decreases Unselected(q, selected), 3
    {
      hide Unselected, Progress.Consistent, Progress.Extends, Progress.NeedsCompleted;
      hide Request.Justifies, Request.Reachable, Request.Demanded, DependsOn, Supplier;
      ghost var before := State();
      before.ExtendsItself();
      before.NoNeeds(q);
      for i := 0 to |definition.needs|
        invariant State().Consistent(q) && State().Extends(before)
        invariant visiting == before.visiting && State().NeedsCompleted(q, definition.needs[..i])
      {
        ghost var middle := State();
        assert definition.needs[..i + 1] == definition.needs[..i] + [definition.needs[i]];
        NoMoreUnselected(q, middle, before);
        e := VisitRequirement(definition, definition.needs[i]);
        if e.Some? {
          return;
        }
        State().ExtendsTransitive(middle, before);
        State().NextNeed(q, middle, definition.needs[..i], definition.needs[i]);
      }
      assert definition.needs[..|definition.needs|] == definition.needs;
      e := None;
    }

    method VisitRequirement(definition: Definition, requirement: Name) returns (e: Option<PlanError>)
      requires Serves() && State().Consistent(q)
      requires definition.id in q.reg && definition == q.reg[definition.id] && q.Reachable(definition.id)
      requires visiting != [] && visiting[|visiting| - 1] == definition.id && requirement in definition.needs
      modifies this
      ensures e.None? ==> State().Consistent(q) && State().Extends(old(State())) && visiting == old(visiting)
      ensures e.None? ==>
              requirement in q.available ||
              (Supplier(q.reg, requirement).Some? && Supplier(q.reg, requirement).value in completed)
      ensures e.Some? ==> q.Justifies(e.value)
      decreases Unselected(q, selected), 2
    {
      hide Unselected, Progress.Consistent, Progress.Extends;
      hide Request.Justifies, Request.Reachable, Request.Demanded, DependsOn, Supplier;
      if requirement in available {
        State().ExtendsItself();
        return None;
      }
      q.Need(definition.id, requirement);
      var producer := ProducerFor(requirement);
      if producer.Failure? {
        return Some(producer.error);
      }
      q.Supply(definition.id, requirement);
      q.Step(definition.id, producer.value.id);
      e := Visit(producer.value);
    }
  }

  method IndexOf(s: seq<Name>, x: Name) returns (i: nat)
    requires x in s
    ensures i < |s| && s[i] == x && x !in s[..i]
  {
    i := 0;
    while s[i] != x
      invariant i < |s| && x !in s[..i]
      decreases |s| - i
    {
      i := i + 1;
    }
  }

  ghost function HighestRank(rank: Finish): (n: nat)
    ensures forall c | c in rank :: rank[c] < n
    decreases |rank|
  {
    if rank == map[] then 0
    else
      var c :| c in rank;
      var rest := rank - {c};
      assert rank.Keys == rest.Keys + {c};
      var n := HighestRank(rest);
      assert forall x | x in rank :: x == c || x in rest;
      if rank[c] < n then n else rank[c] + 1
  }

  /** What the expansion has selected once every goal is covered. */
  lemma ExpansionIsSelection(q: Request, done: Progress)
    requires done.Consistent(q) && done.visiting == [] && GoalsCovered(q, done.rank)
    ensures done.selected == q.Selection()
  {
    hide Request.Reachable, Request.Selection, AllSettled, GoalsCovered, Request.IsPath;
    FinishedIsSelection(q, done.rank);
    assert done.selected.Keys == done.rank.Keys == q.Selection().Keys;
  }

  lemma SelectionAllSupplied(q: Request, rank: Finish)
    requires AllSettled(q, rank) && GoalsCovered(q, rank)
    ensures AllSupplied(q.Selection(), q.available)
  {
    hide Supplier;
    SelectionSupplied(q, rank);
    var selected := q.Selection();
    forall c, key | c in selected && key in selected[c].needs && key !in q.available
      ensures Supplier(selected, key).Some?
    {
      SupplierWithin(q, selected, c, key);
    }
  }

  /** The supplier of a selected capability's requirement is one of its dependencies and offers the key. */
  lemma SuppliedEarlier(q: Request, c: Name, key: Name) returns (d: Name)
    requires Supplied(q, q.Selection())
    requires c in q.Selection() && key in q.Selection()[c].needs && key !in q.available
    ensures d in DependencyGraph(q.Selection(), q.available)[c]
    ensures d in q.Selection() && key in q.Selection()[d].offers
  {
    hide Supplier, Request.Reachable;
    var selected := q.Selection();
    SupplierWithin(q, selected, c, key);
    d := Supplier(q.reg, key).value;
    assert d in Producers(q.reg, key);
    assert DependsOn(selected, q.available, c, d);
  }

  /** A selected step finds what it needs among what was available and what earlier steps offer. */
  lemma StepSatisfied(q: Request, order: seq<Name>, plan: ExecutionPlan, i: nat)
    requires Supplied(q, q.Selection()) && Admissible(DependencyGraph(q.Selection(), q.available), {}, order)
    requires plan.steps == StepsFor(q.Selection(), order) && Elements(plan.available) == q.available
    requires i < |order|
    ensures plan.Satisfied(i)
  {
    hide *;
    var c := order[i];
    var before := order[..i];
    EarlierInOrder(DependencyGraph(q.Selection(), q.available), order, i);
    forall key | key in plan.steps[i].needs && key !in plan.available
      ensures exists j | 0 <= j < i :: key in plan.steps[j].offers
    {
      AvailableIs(q, plan, key);
      var d := SuppliedEarlier(q, c, key);
      var j :| 0 <= j < i && order[j] == d;
      assert key in plan.steps[j].offers;
    }
    SatisfiedWhen(plan, i);
  }

  lemma EarlierInOrder(graph: Dependencies, order: seq<Name>, i: nat)
    requires Admissible(graph, {}, order) && i < |order|
    ensures order[i] in graph
    ensures forall d | d in graph[order[i]] :: exists j | 0 <= j < i :: order[j] == d
  {
    forall d | d in graph[order[i]] ensures exists j | 0 <= j < i :: order[j] == d {
      assert d in order[..i];
    }
  }

  lemma AvailableIs(q: Request, plan: ExecutionPlan, key: Name)
    requires Elements(plan.available) == q.available
    ensures key in plan.available <==> key in q.available
  {
    assert key in plan.available <==> key in Elements(plan.available);
  }

  lemma GoalSatisfied(q: Request, rank: Finish, order: seq<Name>, plan: ExecutionPlan, goal: Name)
    requires GoalsCovered(q, rank) && goal in q.goals && rank.Keys == q.Selection().Keys == Elements(order)
    requires plan.steps == StepsFor(q.Selection(), order) && Elements(plan.available) == q.available
    ensures goal in plan.StateBefore(|plan.steps|)
  {
    hide Request.Selection, Request.Reachable, ExecutionPlan.StateBefore, Elements;
    AvailableIs(q, plan, goal);
    StateBeforeIs(plan, |plan.steps|, goal);
    if goal !in q.available {
      var d := Supplier(q.reg, goal).value;
      assert d in Producers(q.reg, goal);
      assert d in rank.Keys;
      var j := ElementAt(order, d);
      assert goal in plan.steps[j].offers;
    }
  }

  lemma ElementAt(order: seq<Name>, d: Name) returns (j: nat)
    requires d in Elements(order)
    ensures j < |order| && order[j] == d
  {
    j :| 0 <= j < |order| && order[j] == d;
  }

  lemma PlanShape(q: Request, order: seq<Name>, plan: ExecutionPlan)
    requires ValidCatalog(q.reg) && q.goals != {} && Distinct(order)
    requires forall c | c in order :: c in q.Selection()
    requires plan == ExecutionPlan(Sorted(q.goals), Sorted(q.available), StepsFor(q.Selection(), order))
    ensures plan.WellShaped() && Elements(plan.available) == q.available && Elements(plan.goals) == q.goals
    ensures plan.Ids() == order
  {
    assert plan.Ids() == order;
    forall i | 0 <= i < |plan.steps| ensures plan.steps[i].position == i && plan.steps[i].WellFormed() {
      assert order[i] in order;
    }
  }

  /** The constructor of a plan accepts every plan the planner assembles. */
  lemma PlanAccepted(q: Request, rank: Finish)
    requires ValidCatalog(q.reg) && q.goals != {}
    requires AllSettled(q, rank) && GoalsCovered(q, rank)
    ensures PlanOf(q).Accepted()
    ensures Elements(PlanOf(q).Ids()) == q.Selection().Keys
  {
    hide *;
    var plan := PlanOf(q);
    var graph := DependencyGraph(q.Selection(), q.available);
    var order := Greedy(graph, {});
    PlanFromOrder(q);
    FinishRanksGraph(q, rank);
    SelectionSupplied(q, rank);
    FinishedIsSelection(q, rank);
    RankedCompletes(graph, {}, rank);
    CompletesMeans(graph, order);
    PlanShape(q, order, plan);
    forall i: nat | i < |plan.steps| ensures plan.Satisfied(i) {
      StepSatisfied(q, order, plan, i);
    }
    forall goal | goal in Elements(plan.goals) ensures goal in plan.StateBefore(|plan.steps|) {
      GoalSatisfied(q, rank, order, plan, goal);
    }
    AcceptedWhen(plan);
  }

  lemma CompletesMeans(graph: Dependencies, order: seq<Name>)
    requires Completes(graph, {}, order)
    ensures Admissible(graph, {}, order) && Elements(order) == graph.Keys && Distinct(order)
  {
    assert graph.Keys - {} == graph.Keys;
  }

  lemma AcceptedWhen(plan: ExecutionPlan)
    requires plan.WellShaped()
    requires forall i: nat | i < |plan.steps| :: plan.Satisfied(i)
    requires forall goal | goal in Elements(plan.goals) :: goal in plan.StateBefore(|plan.steps|)
    ensures plan.Accepted()
  {
  }

  /** Expand requirements and return the plan, or the first error met. */
  class ExecutionPlanner {
    const registry: CapabilityRegistry

    constructor (registry: CapabilityRegistry)
      ensures this.registry == registry
    {
      this.registry := registry;
    }

    /** A plan is returned exactly for plannable requests, and it is the plan of the request; an error
        names a key without a sole producer or a cycle that are really there. */
    method Plan(goals: seq<Name>, availableState: seq<Name>) returns (r: Result<ExecutionPlan, PlanError>)
      requires registry.Valid()
      ensures var q := Request(registry.byId, Elements(goals), Elements(availableState));
              && (r.Success? <==> q.Plannable())
              && (r.Success? ==>
                  r.value == PlanOf(q) && r.value.Accepted() && Elements(r.value.Ids()) == q.Selection().Keys)
              && (r.Success? ==> Topological(DependencyGraph(q.Selection(), q.available), r.value.Ids()))
              && (r.Failure? ==> q.Justifies(r.error))
    {
      hide Greedy, Sorted, Least, Supplier, AllSettled, GoalsCovered, DependencyGraph, AllSupplied, Completes,
        Topological, Ranked;
      hide PlanOf, Progress.Consistent, ExecutionPlan.Accepted;
      hide Request.Plannable, Request.Justifies, Request.Selection, Request.Reachable, Request.Demanded;
      var goalSet := Elements(goals);
      var available := Elements(availableState);
      ghost var q := Request(registry.byId, goalSet, available);
      var normalized := Sorted(goalSet);
      if |goalSet| == 0 {
        q.NoGoalsJustified();
        q.ErrorsExcludePlans(NoGoals);
        return Failure(NoGoals);
      }
      var expansion, error := Expand(q, normalized, available);
      if error.Some? {
        q.ErrorsExcludePlans(error.value);
        return Failure(error.value);
      }
      ghost var rank := expansion.rank;
      ConsistentSettled(q, expansion.State());
      FinishedIsPlannable(q, rank);
      ExpansionIsSelection(q, expansion.State());
      PlanAccepted(q, rank);
      SelectionAllSupplied(q, rank);
      FinishRanksGraph(q, rank);
      RankedCompletes(DependencyGraph(q.Selection(), q.available), {}, rank);
      SelectionValid(q);
      var selected := expansion.selected;
      var ordered := TopologicalOrder(selected, available);
      PlanFromOrder(q);
      PlanIds(q);
      if ordered.Failure? {
        // neither the heap loop's cycle error nor a selected-producer error can arise here
        assert false;
        return Failure(RejectedPlan);
      }
      var plan := ExecutionPlan(normalized, Sorted(available), StepsFor(selected, ordered.value));
      var fault := CheckPlan(plan);
      if fault.Some? {
        // the constructor of the plan accepts it
        assert false;
        return Failure(RejectedPlan);
      }
      return Success(plan);
    }

    /** The loop of `plan` over the goals. */
    method Expand(ghost q: Request, goals: seq<Name>, available: set<Name>)
      returns (expansion: Expansion, error: Option<PlanError>)
      requires registry.Valid() && q == Request(registry.byId, Elements(goals), available)
      ensures error.Some? ==> q.Justifies(error.value)
      ensures error.None? ==>
              expansion.State().Consistent(q) && expansion.visiting == [] && GoalsCovered(q, expansion.rank)
    {
      hide Supplier, AllSettled, Progress.Consistent, Progress.Extends, DependsOn;
      hide Request.Plannable, Request.Justifies, Request.Selection, Request.Reachable, Request.Demanded;
      expansion := new Expansion(registry, q, available);
      NothingExpanded(q);
      for i := 0 to |goals|
        invariant fresh(expansion) && expansion.Serves() && expansion.q == q && expansion.available == available
        invariant expansion.State().Consistent(q) && expansion.visiting == []
        invariant CoveredSoFar(q, goals[..i], expansion.rank)
      {
        ghost var before := expansion.State();
        var goal := goals[i];
        assert goals[..i + 1] == goals[..i] + [goal];
        q.GoalDemanded(goal);
        if goal !in available {
          var producer := expansion.ProducerFor(goal);
          if producer.Failure? {
            return expansion, Some(producer.error);
          }
          q.Root(goal);
          assert expansion.State().MayVisit(q, producer.value);
          error := expansion.Visit(producer.value);
          if error.Some? {
            return;
          }
        } else {
          before.ExtendsItself();
        }
        CoveredNext(q, goals[..i], goal, before, expansion.State());
      }
      assert goals[..|goals|] == goals;
      error := None;
    }
  }

  ghost predicate CoveredSoFar(q: Request, goals: seq<Name>, rank: Finish) {
    forall goal | goal in goals && goal !in q.available :: Supplier(q.reg, goal).Some? &&
      Supplier(q.reg, goal).value in rank
  }

  lemma CoveredNext(q: Request, goals: seq<Name>, goal: Name, before: Progress, now: Progress)
    requires CoveredSoFar(q, goals, before.rank) && now.Extends(before) && now.Consistent(q)
    requires goal in q.available || (Supplier(q.reg, goal).Some? && Supplier(q.reg, goal).value in now.completed)
    ensures CoveredSoFar(q, goals + [goal], now.rank)
  {
    hide Supplier, AllSettled;
  }

  lemma ConsistentSettled(q: Request, done: Progress)
    requires done.Consistent(q)
    ensures AllSettled(q, done.rank)
  {
  }

  lemma NothingExpanded(q: Request)
    ensures Progress(map[], [], {}, map[]).Consistent(q)
    ensures CoveredSoFar(q, [], map[])
  {
  }

  lemma SelectionValid(q: Request)
    requires ValidCatalog(q.reg)
    ensures ValidCatalog(q.Selection())
  {
  }

  lemma PlanFromOrder(q: Request)
    ensures forall c | c in Greedy(DependencyGraph(q.Selection(), q.available), {}) :: c in q.Selection()
    ensures PlanOf(q) == ExecutionPlan(Sorted(q.goals), Sorted(q.available),
                                       StepsFor(q.Selection(), Greedy(DependencyGraph(q.Selection(), q.available), {})))
  {
    GreedyAdmissible(DependencyGraph(q.Selection(), q.available), {});
  }

  /** The steps of a plan are the reachable capabilities in the lexicographically least order that
      runs each one after its suppliers.  Nothing else determines them: not the order in which
      definitions were registered, goals were listed or the expansion visited them. */
  lemma PlanIsLeastOrder(q: Request, order: seq<Name>)
    requires Topological(DependencyGraph(q.Selection(), q.available), order)
    ensures Topological(DependencyGraph(q.Selection(), q.available), PlanOf(q).Ids())
    ensures LexLeq(PlanOf(q).Ids(), order)
  {
    hide *;
    var graph := DependencyGraph(q.Selection(), q.available);
    PlanIds(q);
    LeastTopologicalOrder(graph, order);
  }

  lemma PlanIds(q: Request)
    ensures PlanOf(q).Ids() == Greedy(DependencyGraph(q.Selection(), q.available), {})
  {
    hide Greedy, DependencyGraph, Request.Selection;
    PlanFromOrder(q);
    assert PlanOf(q).Ids() == Greedy(DependencyGraph(q.Selection(), q.available), {});
  }

  /** When every demanded state has a sole producer, a cycle is the only possible failure. */
  lemma OnlyCyclesFail(q: Request, e: PlanError)
    requires q.goals != {} && forall key | q.Demanded(key) :: Supplier(q.reg, key).Some?
    ensures q.Plannable() <==> !exists p :: q.IsCycle(p)
    ensures q.Justifies(e) ==> e.DependencyCycle? && q.IsCycle(e.path)
  {
    if q.Justifies(e) {
      match e
      case MissingProducer(key) => assert false;
      case AmbiguousProducer(key, candidates) => assert false;
      case DependencyCycle(path) =>
    }
  }

  /** What a plan says: the goals and the available state in order, and each step its position and what the registered
      definition needs and offers. */
  lemma PlanContents(q: Request)
    ensures var plan := PlanOf(q);
            && StrictlyAscending(plan.goals) && (forall key :: key in plan.goals <==> key in q.goals)
            && StrictlyAscending(plan.available) && (forall key :: key in plan.available <==> key in q.available)
            && forall i | 0 <= i < |plan.steps| ::
                 var step := plan.steps[i];
                 step.position == i && step.id in q.reg && step.needs == q.reg[step.id].needs &&
                 step.offers == q.reg[step.id].offers
  {
    hide Greedy, DependencyGraph, Request.Reachable;
    PlanFromOrder(q);
    var order := Greedy(DependencyGraph(q.Selection(), q.available), {});
    forall i | 0 <= i < |order| ensures order[i] in q.reg && q.Selection()[order[i]] == q.reg[order[i]] {
      assert order[i] in q.Selection();
    }
  }
}
