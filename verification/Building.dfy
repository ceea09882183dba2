/** The builder's own check of a plan against the registry (planning/builder.py, `_validate`). */
module Building {
  import opened Prelude
  import opened Definitions
  import opened Kahn
  import opened Requests
  import opened Plans
  import opened Planning

  /** For each planned capability, the state keys it may publish. */
  type Contracts = map<Name, seq<Name>>

  datatype BuildError =
    | InvalidPlan
    | UnknownStep(id: Name)
    | StepMismatch(id: Name)
    | DependencyOrder(id: Name)

  predicate Matches(reg: Catalog, step: ExecutionStep) {
    step.id in reg && step.needs == reg[step.id].needs && step.offers == reg[step.id].offers
  }

  function ContractsOf(steps: seq<ExecutionStep>): (contracts: Contracts)
    ensures contracts.Keys == set step | step in steps :: step.id
  {
    if steps == [] then map[]
    else ContractsOf(steps[..|steps| - 1])[steps[|steps| - 1].id := steps[|steps| - 1].offers]
  }

  lemma NoContracts()
    ensures ContractsOf([]) == map[]
  {
  }

  lemma NextStep(plan: ExecutionPlan, i: nat)
    requires plan.Accepted() && i < |plan.steps|
    ensures Elements(plan.steps[i].needs) <= plan.StateBefore(i)
    ensures plan.StateBefore(i + 1) == plan.StateBefore(i) + Elements(plan.steps[i].offers)
    ensures ContractsOf(plan.steps[..i + 1]) == ContractsOf(plan.steps[..i])[plan.steps[i].id := plan.steps[i].offers]
  {
    assert plan.Satisfied(i);
    assert plan.steps[..i + 1][..i] == plan.steps[..i];
  }

  /** What the constructor checked and the builder checks once more. */
  lemma AcceptedRepeats(plan: ExecutionPlan)
    requires plan.Accepted()
    ensures forall i | 0 <= i < |plan.steps| :: plan.steps[i].position == i
    ensures |Elements(plan.Ids())| == |plan.Ids()|
    ensures Elements(plan.goals) <= plan.StateBefore(|plan.steps|)
  {
    DistinctSize(plan.Ids());
  }

  /** The first step that disagrees with the registry is that of the identity. */
  ghost predicate FirstMismatch(reg: Catalog, plan: ExecutionPlan, id: Name) {
    exists i: nat ::
      i < |plan.steps| && plan.steps[i].id == id && !Matches(reg, plan.steps[i]) &&
      forall j: nat | j < i :: Matches(reg, plan.steps[j])
  }

  /** `_validate`: the plan must pass its constructor's checks again and agree, step by step, with the
      registered definitions; it then yields the output contract of every step. */
  method Validate(reg: Catalog, plan: ExecutionPlan) returns (r: Result<Contracts, BuildError>)
    requires forall step | step in plan.steps :: step.WellFormed()
    ensures r.Success? <==>
      plan.Accepted() && forall step | step in plan.steps ::
        step.id in reg && reg[step.id].needs == step.needs && reg[step.id].offers == step.offers
    ensures r.Success? ==> r.value == ContractsOf(plan.steps)
    ensures r.Failure? ==> match r.error
            case InvalidPlan => !plan.Accepted()
            case UnknownStep(id) => plan.Accepted() && FirstMismatch(reg, plan, id) && id !in reg
            case StepMismatch(id) => plan.Accepted() && FirstMismatch(reg, plan, id) && id in reg
            case DependencyOrder(id) => false
  {
    var fault := CheckPlan(plan);
    if fault.Some? {
      return Failure(InvalidPlan);
    }
    AcceptedRepeats(plan);
    hide ExecutionPlan.Accepted, ContractsOf, Elements, FirstMismatch;
    if (exists i | 0 <= i < |plan.steps| :: plan.steps[i].position != i) || |Elements(plan.Ids())| != |plan.Ids()| {
      // positions and identities were checked by the constructor
      assert false;
      return Failure(InvalidPlan);
    }
    r := MatchSteps(reg, plan);
  }

  /** The loop of `_validate` over the steps. */
  method MatchSteps(reg: Catalog, plan: ExecutionPlan) returns (r: Result<Contracts, BuildError>)
    requires plan.Accepted()
    ensures r.Success? <==> forall step | step in plan.steps :: Matches(reg, step)
    ensures r.Success? ==> r.value == ContractsOf(plan.steps)
    ensures r.Failure? ==> match r.error
            case InvalidPlan => false
            case UnknownStep(id) => FirstMismatch(reg, plan, id) && id !in reg
            case StepMismatch(id) => FirstMismatch(reg, plan, id) && id in reg
            case DependencyOrder(id) => false
  {
    hide *;
    AcceptedRepeats(plan);
    StartsAvailable(plan);
    var available := Elements(plan.available);
    var contracts: Contracts := map[];
    NoContracts();
    for i := 0 to |plan.steps|
      invariant available == plan.StateBefore(i)
      invariant contracts == ContractsOf(plan.steps[..i])
      invariant forall j | 0 <= j < i :: Matches(reg, plan.steps[j])
    {
      var step := plan.steps[i];
      NextStep(plan, i);
      assert step in plan.steps;
      if step.id !in reg {
        UnknownMismatch(reg, step);
        MismatchAt(reg, plan, i);
        return Failure(UnknownStep(step.id));
      }
      if !Matches(reg, step) {
        MismatchAt(reg, plan, i);
        return Failure(StepMismatch(step.id));
      }
      SameNeeds(reg, step);
      if !(Elements(reg[step.id].needs) <= available) {
        // the constructor's checks already cover the order of the steps
        assert false;
        return Failure(DependencyOrder(step.id));
      }
      contracts := contracts[step.id := step.offers];
      available := available + Elements(step.offers);
    }
    assert plan.steps[..|plan.steps|] == plan.steps;
    assert forall step | step in plan.steps :: Matches(reg, step);
    if !(Elements(plan.goals) <= available) {
      // and so was the coverage of the goals
      assert false;
      return Failure(InvalidPlan);
    }
    return Success(contracts);
  }

  lemma StartsAvailable(plan: ExecutionPlan)
    ensures plan.StateBefore(0) == Elements(plan.available)
    ensures plan.steps[..0] == []
  {
  }

  lemma UnknownMismatch(reg: Catalog, step: ExecutionStep)
    requires step.id !in reg
    ensures !Matches(reg, step)
  {
  }

  lemma SameNeeds(reg: Catalog, step: ExecutionStep)
    requires Matches(reg, step)
    ensures step.id in reg && reg[step.id].needs == step.needs
  {
  }

  lemma MismatchAt(reg: Catalog, plan: ExecutionPlan, i: nat)
    requires i < |plan.steps| && !Matches(reg, plan.steps[i]) && forall j: nat | j < i :: Matches(reg, plan.steps[j])
    ensures FirstMismatch(reg, plan, plan.steps[i].id)
  {
    hide Matches;
  }

  /** Every step of a plan made over a registry agrees with that registry, so the builder never rejects a plan
      the planner returned, and gives each step exactly the outputs its definition declares. */
  lemma PlannedStepsMatch(q: Request)
    ensures forall step | step in PlanOf(q).steps :: Matches(q.reg, step)
  {
    hide Greedy, DependencyGraph;
    PlanFromOrder(q);
    forall step | step in PlanOf(q).steps ensures Matches(q.reg, step) {
      var i :| 0 <= i < |PlanOf(q).steps| && PlanOf(q).steps[i] == step;
      assert step.id in q.Selection();
    }
  }

  /** In an accepted plan the contract of a step is that step's own outputs. */
  lemma {:induction false} ContractOfStep(steps: seq<ExecutionStep>, i: nat)
    requires i < |steps| && forall x, y | 0 <= x < y < |steps| :: steps[x].id != steps[y].id
    ensures steps[i].id in ContractsOf(steps) && ContractsOf(steps)[steps[i].id] == steps[i].offers
  {
    if i < |steps| - 1 {
      ContractOfStep(steps[..|steps| - 1], i);
    }
  }
}
