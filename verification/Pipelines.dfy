/** The pipeline object, its context, and the builder that fills it from a plan
    (runtime/pipeline.py, sdk/context.py, planning/builder.py). */
module Pipelines {
  import opened Prelude
  import opened Ordering
  import opened Definitions
  import opened Plans
  import opened Building
  import opened Runtime
  import opened Runs

  class Context {
    var state: State

    constructor (state: State)
      ensures this.state == state
    {
      this.state := state;
    }

    /** `publish_many`: the whole batch is validated before the dictionary changes. */
    method PublishMany(batch: seq<Publication>) returns (ok: bool)
      modifies this
      ensures ok <==> UniqueKeys(batch) && WellTyped(batch)
      ensures state == if ok then Updated(old(state), batch) else old(state)
    {
      if !UniqueKeys(batch) {
        return false;
      }
      for i := 0 to |batch|
        invariant WellTyped(batch[..i]) && state == old(state)
      {
        assert batch[i] in batch;
        if batch[i].key !in batch[i].value.fits {
          return false;
        }
        assert batch[..i + 1] == batch[..i] + [batch[i]];
      }
      assert batch[..|batch|] == batch;
      for i := 0 to |batch|
        invariant state == Updated(old(state), batch[..i])
      {
        assert batch[..i + 1][..i] == batch[..i];
        state := state[batch[i].key := batch[i].value];
      }
      return true;
    }
  }

  datatype PipelineResult = PipelineResult(
    status: Status,
    executed: seq<Name>,
    lastResult: Option<CapabilityResult>,
    executionOrder: seq<Name>,
    executions: seq<Execution>)

  function EntryNames(entries: seq<Entry>): seq<Name> {
    seq(|entries|, i requires 0 <= i < |entries| => entries[i].name)
  }

  function ExecutedNames(history: seq<Execution>): seq<Name> {
    if history == [] then []
    else
      var n := |history| - 1;
      ExecutedNames(history[..n]) + if history[n].executed then [history[n].name] else []
  }

  /** The capabilities executed are a prefix of the execution order. */
  lemma {:induction false} ExecutedIsPrefix(setup: Setup, t: Trace, k: nat)
    requires WellFormedHistory(setup, 0, t) && k <= |t.history|
    ensures ExecutedNames(t.history[..k]) <= EntryNames(setup.entries)
    ensures |ExecutedNames(t.history[..k])| == if k > 0 && !t.history[k - 1].executed then k - 1 else k
  {
    if k > 0 {
      ExecutedIsPrefix(setup, t, k - 1);
      assert t.history[..k][..k - 1] == t.history[..k - 1];
      assert t.history[k - 1].name == EntryNames(setup.entries)[k - 1];
    }
  }

  predicate ValidContract(keys: seq<Name>) {
    keys != [] && forall i, j | 0 <= i < j < |keys| :: keys[i] != keys[j]
  }

  class Pipeline {
    var entries: seq<Entry>
    var contracts: Contracts

    /** Entries have distinct names, and a typed identity is the entry's own name. */
    ghost predicate Valid()
      reads this
    {
      && (forall i, j | 0 <= i < j < |entries| :: entries[i].name != entries[j].name)
      && (forall e | e in entries :: e.id.Some? ==> e.wellNamed && e.id.value == e.name)
    }

    function Configured(policy: Option<Policy>): Setup
      reads this
    {
      Setup.Setup(entries, contracts, policy)
    }

    /** Contracts are stored with their keys sorted; an empty or repeating one is refused. */
    constructor (contracts: Contracts)
      requires forall id | id in contracts :: ValidContract(contracts[id])
      ensures Valid() && entries == []
      ensures this.contracts == map id | id in contracts :: Sorted(Elements(contracts[id]))
    {
      entries := [];
      this.contracts := map id | id in contracts :: Sorted(Elements(contracts[id]));
    }

    /** `__init__`: contracts, or one key for each identity, but not both; with neither the defaults apply.  Identities
        and keys must be well formed, and no contract may be empty or repeat a key. */
    static method Configure(wellNamed: Name -> bool, known: Name -> bool, contracts: Option<Contracts>,
                            keys: Option<map<Name, Name>>, defaults: Contracts)
      returns (r: Option<Pipeline>)
      ensures r.Some? <==>
        && (contracts.None? || keys.None?)
        && (keys.Some? ==> forall id | id in keys.value :: wellNamed(id) && known(keys.value[id]))
        && (contracts.Some? ==>
            forall id | id in contracts.value :: wellNamed(id) && ValidContract(contracts.value[id]))
        && (contracts.None? && keys.None? ==>
            forall id | id in defaults :: wellNamed(id) && ValidContract(defaults[id]))
      ensures r.Some? ==> fresh(r.value) && r.value.Valid() && r.value.entries == []
      ensures r.Some? && keys.Some? ==> r.value.contracts == map id | id in keys.value :: [keys.value[id]]
      ensures r.Some? && keys.None? ==>
        var given := if contracts.Some? then contracts.value else defaults;
        r.value.contracts == map id | id in given :: Sorted(Elements(given[id]))
    {
      hide Sorted;
      if contracts.Some? && keys.Some? {
        return None;
      }
      var configured := if contracts.Some? then contracts.value else defaults;
      if keys.Some? {
        if exists id | id in keys.value :: !wellNamed(id) || !known(keys.value[id]) {
          return None;
        }
        configured := map id | id in keys.value :: [keys.value[id]];
        forall id | id in configured ensures Sorted(Elements(configured[id])) == configured[id] {
          AscendingIsSorted(configured[id], Elements(configured[id]));
        }
      }
      if exists id | id in configured :: !wellNamed(id) || !ValidContract(configured[id]) {
        return None;
      }
      var pipeline := new Pipeline(configured);
      return Some(pipeline);
    }

    /** `add`: a name or identity already present is refused.  A contract given along is stored first,
        so a refused capability can still have left its contract behind. */
    method Add(name: Name, wellNamed: bool, id: Option<Name>, offers: Option<seq<Name>>) returns (ok: bool)
      requires Valid()
      modifies this
      ensures Valid()
      ensures entries == if ok then old(entries) + [Entry(name, id, wellNamed)] else old(entries)
      ensures ok <==>
        && (id.Some? ==> wellNamed && id.value == name)
        && (offers.Some? ==> id.Some? && ValidContract(offers.value)
                             && (id.value in old(contracts) ==>
                                 old(contracts)[id.value] == Sorted(Elements(offers.value))))
        && name !in EntryNames(old(entries))
      ensures contracts == if offers.Some? && id.Some? && wellNamed && id.value == name &&
              ValidContract(offers.value) && id.value !in old(contracts)
                           then old(contracts)[id.value := Sorted(Elements(offers.value))] else old(contracts)
    {
      hide Sorted;
      if id.Some? && !(wellNamed && id.value == name) {
        return false;
      }
      if offers.Some? {
        if id.None? || !ValidContract(offers.value) {
          return false;
        }
        var validated := Sorted(Elements(offers.value));
        if id.value in contracts && contracts[id.value] != validated {
          return false;
        }
        contracts := contracts[id.value := validated];
      }
      assert forall i | 0 <= i < |entries| :: EntryNames(entries)[i] == entries[i].name && entries[i] in entries;
      if exists e | e in entries :: (id.Some? && e.id.Some? && e.id == id) || e.name == name {
        return false;
      }
      entries := entries + [Entry(name, id, wellNamed)];
      return true;
    }

    /** `run`: executes the entries in order over one context.  None stands for an exception that
        escapes, which only an invalid clock value before a capability can cause. */
    method Run(context: Context, policy: Option<Policy>, turns: seq<Turn>) returns (r: Option<PipelineResult>)
      requires Valid() && |turns| == |entries|
      modifies context
      ensures var t := Configured(policy).RunFrom(turns, 0, old(context.state));
              && context.state == FinalState(old(context.state), t)
              && (r.None? <==> t.escaped)
              && (r.Some? ==> r.value == PipelineResult(Aggregate(t.history), ExecutedNames(t.history),
                                                        if t.history == [] then None
                                                           else Some(t.history[|t.history| - 1].result),
                                                        EntryNames(entries), t.history))
    {
      hide Setup.Step, Setup.RunFrom, Aggregate, ExecutedNames, EntryNames, Tracks, FinalState;
      ghost var setup := Configured(policy);
      ghost var start := context.state;
      var executions: seq<Execution> := [];
      var lastResult: Option<CapabilityResult> := None;
      var aggregate := SUCCESS;
      var executed: seq<Name> := [];
      var order := EntryNames(entries);
      TracksStart(setup, turns, start);
      for i := 0 to |entries|
        invariant aggregate == Aggregate(executions) && executed == ExecutedNames(executions)
        invariant lastResult == if executions == [] then None else Some(executions[|executions| - 1].result)
        invariant Tracks(setup, turns, start, executions, i, context.state)
      {
        ghost var before := context.state;
        StepShape(setup, i, turns[i], before);
        TracksStep(setup, turns, start, executions, i, before);
        var execution := RunEntry(context, policy, i, turns[i]);
        if execution.None? {
          return None;
        }
        HistorySnoc(executions, execution.value);
        executions := executions + [execution.value];
        lastResult := Some(execution.value.result);
        aggregate := Combine(aggregate, execution.value.result.status);
        if execution.value.executed {
          executed := executed + [execution.value.name];
        }
        if !execution.value.result.status.Usable() {
          return Some(PipelineResult(aggregate, executed, lastResult, order, executions));
        }
      }
      TracksEnd(setup, turns, start, executions, context.state);
      return Some(PipelineResult(aggregate, executed, lastResult, order, executions));
    }

    /** One turn of the loop of `run`. */
    method RunEntry(context: Context, policy: Option<Policy>, i: nat, turn: Turn) returns (execution: Option<Execution>)
      requires i < |entries|
      modifies context
      ensures match Configured(policy).Step(i, turn, old(context.state))
              case Escapes => execution == None && context.state == old(context.state)
              case Stops(e) => execution == Some(e) && context.state == old(context.state)
              case Continues(e, next) => execution == Some(e) && context.state == next
    {
      hide Judge, Normalize, DeclaredFor, Updated, UniqueKeys, WellTyped;
      var entry := entries[i];
      var check := CheckDeadline(policy, turn.before);
      if check == Broken {
        return None;
      }
      if check == Expired {
        var violation := DeadlineViolation(BEFORE_CAPABILITY);
        return Some(Execution(entry.name, Unusable(FAILURE, PolicyFailure(violation)), entry.id, false,
                              Some(violation)));
      }
      var judged := Judge(entry.name, DeclaredFor(contracts, entry), policy, turn);
      execution := Some(Execution(entry.name, judged.result, entry.id, true, judged.violation));
      if judged.result.status.Usable() {
        AcceptedBatchPublishable(entry.name, DeclaredFor(contracts, entry), policy, turn);
        var ok := context.PublishMany(judged.normalized.explicit);
        if !ok {
          // the batch was validated before
          assert false;
          return;
        }
        if judged.normalized.legacy.Some? {
          context.state := context.state[judged.normalized.legacy.value.key := judged.normalized.legacy.value.value];
        }
      }
    }
  }

  /** `done` is the part of the run's history before entry `i`, and `state` the context there. */
  ghost predicate Tracks(setup: Setup, turns: seq<Turn>, start: State, done: seq<Execution>, i: nat, state: State)
    requires i <= |setup.entries| == |turns|
  {
    var whole := setup.RunFrom(turns, 0, start);
    var rest := setup.RunFrom(turns, i, state);
    && whole.history == done + rest.history
    && whole.escaped == rest.escaped
    && FinalState(start, whole) == FinalState(state, rest)
  }

  lemma TracksStart(setup: Setup, turns: seq<Turn>, start: State)
    requires |setup.entries| == |turns|
    ensures Tracks(setup, turns, start, [], 0, start)
    ensures Aggregate([]) == SUCCESS && ExecutedNames([]) == []
  {
  }

  lemma TracksStep(setup: Setup, turns: seq<Turn>, start: State, done: seq<Execution>, i: nat, state: State)
    requires i < |setup.entries| == |turns| && Tracks(setup, turns, start, done, i, state)
    ensures var whole := setup.RunFrom(turns, 0, start);
            match setup.Step(i, turns[i], state)
            case Escapes => whole.escaped && FinalState(start, whole) == state
            case Stops(e) => whole.history == done + [e] && !whole.escaped && FinalState(start, whole) == state
            case Continues(e, next) => Tracks(setup, turns, start, done + [e], i + 1, next)
  {
    hide Setup.Step;
    if setup.Step(i, turns[i], state).Continues? {
      var e, next := setup.Step(i, turns[i], state).execution, setup.Step(i, turns[i], state).next;
      var rest := setup.RunFrom(turns, i + 1, next);
      assert done + ([e] + rest.history) == done + [e] + rest.history;
    }
  }

  lemma TracksEnd(setup: Setup, turns: seq<Turn>, start: State, done: seq<Execution>, state: State)
    requires |setup.entries| == |turns| && Tracks(setup, turns, start, done, |turns|, state)
    ensures var whole := setup.RunFrom(turns, 0, start);
            whole.history == done && !whole.escaped && FinalState(start, whole) == state
  {
  }

  lemma HistorySnoc(history: seq<Execution>, e: Execution)
    ensures Aggregate(history + [e]) == Combine(Aggregate(history), e.result.status)
    ensures ExecutedNames(history + [e]) == ExecutedNames(history) + if e.executed then [e.name] else []
  {
    assert (history + [e])[..|history|] == history;
  }

  datatype Factory = Fails | Makes(name: Name, wellNamed: bool)

  datatype PipelineBuildError =
    | RejectedPlan(error: BuildError)
    | MissingFactory(id: Name)
    | InvalidFactory(id: Name)
    | FactoryMismatch(id: Name)
    | RejectedCapability(id: Name)

  predicate Constructs(factories: map<Name, Factory>, id: Name) {
    id in factories && factories[id] == Makes(id, true)
  }

  function PlannedEntries(steps: seq<ExecutionStep>): (r: seq<Entry>)
    ensures |r| == |steps| && forall i | 0 <= i < |r| :: r[i] == Entry(steps[i].id, Some(steps[i].id), true)
  {
    seq(|steps|, i requires 0 <= i < |steps| => Entry(steps[i].id, Some(steps[i].id), true))
  }

  lemma {:induction false} SortedContracts(steps: seq<ExecutionStep>)
    requires forall step | step in steps :: step.WellFormed()
    ensures forall id | id in ContractsOf(steps) :: ValidContract(ContractsOf(steps)[id])
    ensures forall id | id in ContractsOf(steps) :: Sorted(Elements(ContractsOf(steps)[id])) == ContractsOf(steps)[id]
  {
    hide Sorted;
    if steps != [] {
      var n := |steps| - 1;
      SortedContracts(steps[..n]);
      assert steps[n] in steps && steps[n].WellFormed();
      AscendingIsSorted(steps[n].offers, Elements(steps[n].offers));
    }
  }

  /** The checks of `build` on the factories: one for each step, and then one after the other that it makes a
      well-formed
      capability of the step's identity. */
  method CheckFactories(factories: map<Name, Factory>, plan: ExecutionPlan) returns (error: Option<PipelineBuildError>)
    ensures error.None? <==> forall step | step in plan.steps :: Constructs(factories, step.id)
    ensures error.Some? ==> match error.value
            case RejectedPlan(_) => false
            case MissingFactory(id) => Planned(plan, id) && id !in factories
            case InvalidFactory(id) =>
              Planned(plan, id) && id in factories && (factories[id].Fails? || !factories[id].wellNamed)
            case FactoryMismatch(id) =>
              Planned(plan, id) && id in factories && factories[id].Makes? && factories[id].name != id
            case RejectedCapability(_) => false
  {
    if exists step | step in plan.steps :: step.id !in factories {
      var step :| step in plan.steps && step.id !in factories;
      return Some(MissingFactory(step.id));
    }
    for i := 0 to |plan.steps|
      invariant forall j | 0 <= j < i :: Constructs(factories, plan.steps[j].id)
    {
      var id := plan.steps[i].id;
      assert plan.steps[i] in plan.steps && Planned(plan, id);
      match factories[id]
      case Fails => return Some(InvalidFactory(id));
      case Makes(name, wellNamed) =>
        if !wellNamed {
          return Some(InvalidFactory(id));
        }
        if name != id {
          return Some(FactoryMismatch(id));
        }
    }
    error := None;
  }

  ghost predicate Planned(plan: ExecutionPlan, id: Name) {
    exists step | step in plan.steps :: step.id == id
  }

  /** `build`: a plan the builder accepts, with a factory that makes each of its capabilities, becomes a
      pipeline with exactly its steps, in order, and their declared outputs as contracts. */
  method Build(reg: Catalog, factories: map<Name, Factory>, plan: ExecutionPlan)
    returns (r: Result<Pipeline, PipelineBuildError>)
    requires forall step | step in plan.steps :: step.WellFormed()
    ensures r.Success? <==>
      plan.Accepted() && forall step | step in plan.steps ::
        && step.id in reg && reg[step.id].needs == step.needs && reg[step.id].offers == step.offers
        && step.id in factories && factories[step.id] == Makes(step.id, true)
    ensures r.Success? ==> fresh(r.value) && r.value.Valid()
    ensures r.Success? ==> r.value.entries == PlannedEntries(plan.steps) && r.value.contracts == ContractsOf(plan.steps)
    ensures r.Failure? ==> match r.error
            case RejectedPlan(e) => !(plan.Accepted() && forall step | step in plan.steps :: Matches(reg, step))
            case MissingFactory(id) => Planned(plan, id) && id !in factories
            case InvalidFactory(id) =>
              Planned(plan, id) && id in factories && (factories[id].Fails? || !factories[id].wellNamed)
            case FactoryMismatch(id) =>
              Planned(plan, id) && id in factories && factories[id].Makes? && factories[id].name != id
            case RejectedCapability(id) => false
  {
    hide ExecutionPlan.Accepted, Sorted, ContractsOf, ExecutionStep.WellFormed, Planned, Matches;
    var validated := Validate(reg, plan);
    if validated.Failure? {
      return Failure(RejectedPlan(validated.error));
    }
    var error := CheckFactories(factories, plan);
    if error.Some? {
      return Failure(error.value);
    }
    SortedContracts(plan.steps);
    AcceptedDistinct(plan);
    var pipeline := new Pipeline(validated.value);
    for i := 0 to |plan.steps|
      invariant fresh(pipeline) && pipeline.Valid()
      invariant pipeline.entries == PlannedEntries(plan.steps[..i]) && pipeline.contracts == ContractsOf(plan.steps)
    {
      var id := plan.steps[i].id;
      NotYetAdded(plan, i);
      var ok := pipeline.Add(id, true, Some(id), None);
      if !ok {
        // distinct, matching identities are never refused
        assert false;
        return Failure(RejectedCapability(id));
      }
      assert PlannedEntries(plan.steps[..i + 1]) == PlannedEntries(plan.steps[..i]) + [Entry(id, Some(id), true)];
    }
    assert plan.steps[..|plan.steps|] == plan.steps;
    return Success(pipeline);
  }

  lemma AcceptedDistinct(plan: ExecutionPlan)
    requires plan.Accepted()
    ensures forall i, j | 0 <= i < j < |plan.steps| :: plan.steps[i].id != plan.steps[j].id
  {
    forall i, j | 0 <= i < j < |plan.steps| ensures plan.steps[i].id != plan.steps[j].id {
      assert plan.Ids()[i] != plan.Ids()[j];
    }
  }

  lemma NotYetAdded(plan: ExecutionPlan, i: nat)
    requires i < |plan.steps|
    requires forall i, j | 0 <= i < j < |plan.steps| :: plan.steps[i].id != plan.steps[j].id
    ensures plan.steps[i].id !in EntryNames(PlannedEntries(plan.steps[..i]))
  {
  }

  function ProducedState(steps: seq<ExecutionStep>): set<Name> {
    set step, key | step in steps && key in step.offers :: key
  }

  /** Every entry of a built pipeline has its own step's outputs as its contract. */
  lemma PlannedEntriesDeclared(plan: ExecutionPlan, policy: Option<Policy>)
    requires plan.Accepted()
    ensures AllDeclared(Setup.Setup(PlannedEntries(plan.steps), ContractsOf(plan.steps), policy),
                        ProducedState(plan.steps))
  {
    var setup := Setup.Setup(PlannedEntries(plan.steps), ContractsOf(plan.steps), policy);
    AcceptedDistinct(plan);
    hide ContractsOf, ExecutionPlan.Accepted;
    forall e | e in setup.entries
      ensures DeclaredFor(setup.contracts, e).Some? &&
              Elements(DeclaredFor(setup.contracts, e).value) <= ProducedState(plan.steps)
    {
      var i :| 0 <= i < |setup.entries| && setup.entries[i] == e;
      ContractOfStep(plan.steps, i);
      assert plan.steps[i] in plan.steps;
    }
  }

  /** From plan to context: whatever the capabilities answer and the clock shows, running the pipeline of
      an accepted plan changes only state that the plan provides, keeps every limited collection within
      its limit if it started so, and never takes the legacy write. */
  lemma PlannedRunConfined(plan: ExecutionPlan, policy: Option<Policy>, turns: seq<Turn>, state: State)
    requires plan.Accepted() && |turns| == |plan.steps|
    ensures var t := Setup.Setup(PlannedEntries(plan.steps), ContractsOf(plan.steps), policy).RunFrom(turns, 0, state);
            forall s | s in t.states ::
              ChangesOnly(state, s, ProducedState(plan.steps)) && (WithinLimits(policy, state) ==>
                  WithinLimits(policy, s))
    ensures var setup := Setup.Setup(PlannedEntries(plan.steps), ContractsOf(plan.steps), policy);
            forall i: nat, e | i < |plan.steps| :: Accepted(setup, i, e).legacy == None
  {
    hide ContractsOf, ExecutionPlan.Accepted, Setup.RunFrom, ChangesOnly, WithinLimits, DeclaredFor, ProducedState,
      Normalize;
    var setup := Setup.Setup(PlannedEntries(plan.steps), ContractsOf(plan.steps), policy);
    PlannedEntriesDeclared(plan, policy);
    ContextConfined(setup, turns, 0, state, ProducedState(plan.steps));
    forall i: nat, e | i < |plan.steps| ensures Accepted(setup, i, e).legacy == None {
      NoLegacy(setup, i, e, ProducedState(plan.steps));
    }
  }

  lemma NoLegacy(setup: Setup, i: nat, e: Execution, keys: set<Name>)
    requires i < |setup.entries| && AllDeclared(setup, keys)
    ensures Accepted(setup, i, e).legacy == None
  {
    hide DeclaredFor;
    assert setup.entries[i] in setup.entries;
  }
}
