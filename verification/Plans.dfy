/** Execution plans and the checks their constructor makes (planning/models.py). */
module Plans {
  import opened Prelude
  import opened Ordering
  import opened Definitions

  datatype ExecutionStep = ExecutionStep(position: nat, id: Name, needs: seq<Name>, offers: seq<Name>) {
    predicate WellFormed() {
      StrictlyAscending(needs) && StrictlyAscending(offers) && offers != []
    }
  }

  datatype ExecutionPlan = ExecutionPlan(goals: seq<Name>, available: seq<Name>, steps: seq<ExecutionStep>) {
    function Ids(): (r: seq<Name>)
      ensures |r| == |steps|
    {
      seq(|steps|, i requires 0 <= i < |steps| => steps[i].id)
    }

    /** The state on hand before step `n`. */
    function StateBefore(n: nat): set<Name>
      requires n <= |steps|
    {
      if n == 0 then Elements(available) else StateBefore(n - 1) + Elements(steps[n - 1].offers)
    }

    predicate Satisfied(i: nat)
      requires i < |steps|
    {
      Elements(steps[i].needs) <= StateBefore(i)
    }

    ghost predicate WellShaped() {
      && goals != [] && StrictlyAscending(goals) && StrictlyAscending(available)
      && (forall i | 0 <= i < |steps| :: steps[i].position == i && steps[i].WellFormed())
      && Distinct(Ids())
    }

    /** What the constructor of a plan lets through. */
    ghost predicate Accepted() {
      && WellShaped()
      && (forall i | 0 <= i < |steps| :: Satisfied(i))
      && Elements(goals) <= StateBefore(|steps|)
    }
  }

  /** The state before a step is what was available and everything an earlier step offers. */
  lemma {:induction false} StateBeforeIs(plan: ExecutionPlan, n: nat, key: Name)
    requires n <= |plan.steps|
    ensures key in plan.StateBefore(n) <==>
            key in plan.available || exists j | 0 <= j < n :: key in plan.steps[j].offers
  {
    if n > 0 {
      StateBeforeIs(plan, n - 1, key);
    }
  }

  lemma SatisfiedWhen(plan: ExecutionPlan, i: nat)
    requires i < |plan.steps|
    requires forall key | key in plan.steps[i].needs ::
             key in plan.available || exists j | 0 <= j < i :: key in plan.steps[j].offers
    ensures plan.Satisfied(i)
  {
    forall key | key in plan.steps[i].needs ensures key in plan.StateBefore(i) {
      StateBeforeIs(plan, i, key);
    }
  }

  datatype PlanFault = Misshapen | UnsatisfiedStep(i: nat) | UncoveredGoal

  /** `ExecutionPlan.__post_init__`: one pass accumulating the state the steps provide. */
  method CheckPlan(plan: ExecutionPlan) returns (fault: Option<PlanFault>)
    requires forall step | step in plan.steps :: step.WellFormed()
    ensures fault.None? <==> plan.Accepted()
    ensures fault == Some(Misshapen) <==> !plan.WellShaped()
    ensures forall i: nat :: fault == Some(UnsatisfiedStep(i)) ==>
      i < |plan.steps| && !plan.Satisfied(i) && forall j: nat | j < i :: plan.Satisfied(j)
    ensures fault == Some(UncoveredGoal) ==>
      plan.WellShaped() && (forall i: nat | i < |plan.steps| :: plan.Satisfied(i)) &&
      !(Elements(plan.goals) <= plan.StateBefore(|plan.steps|))
  {
    DistinctSize(plan.Ids());
    if plan.goals == [] || !StrictlyAscending(plan.goals) || !StrictlyAscending(plan.available) {
      return Some(Misshapen);
    }
    if exists i | 0 <= i < |plan.steps| :: plan.steps[i].position != i {
      return Some(Misshapen);
    }
    if |Elements(plan.Ids())| != |plan.Ids()| {
      return Some(Misshapen);
    }
    var accumulated := Elements(plan.available);
    for i := 0 to |plan.steps|
      invariant accumulated == plan.StateBefore(i)
      invariant forall j | 0 <= j < i :: plan.Satisfied(j)
    {
      if !(Elements(plan.steps[i].needs) <= accumulated) {
        assert !plan.Satisfied(i);
        return Some(UnsatisfiedStep(i));
      }
      accumulated := accumulated + Elements(plan.steps[i].offers);
    }
    if !(Elements(plan.goals) <= accumulated) {
      return Some(UncoveredGoal);
    }
    return None;
  }

  /** The steps the planner writes for an order of registered capabilities. */
  function StepsFor(reg: Catalog, order: seq<Name>): (r: seq<ExecutionStep>)
    requires forall c | c in order :: c in reg
    ensures |r| == |order|
    ensures forall i | 0 <= i < |r| :: r[i] == ExecutionStep(i, order[i], reg[order[i]].needs, reg[order[i]].offers)
  {
    seq(|order|, i requires 0 <= i < |order| => ExecutionStep(i, order[i], reg[order[i]].needs, reg[order[i]].offers))
  }
}
