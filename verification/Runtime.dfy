/** What one pipeline run does, as functions on values: result normalisation, policy checks and the
    step that publishes (runtime/pipeline.py, runtime/execution_policy.py, sdk/context.py). */
module Runtime {
  import opened Prelude

  datatype Status = SUCCESS | PARTIAL | FAILURE | ERROR {
    function Severity(): nat {
      match this
      case SUCCESS => 0
      case PARTIAL => 1
      case FAILURE => 2
      case ERROR => 3
    }

    predicate Usable() {
      SUCCESS? || PARTIAL?
    }
  }

  /** A published value: the canonical keys whose type check it passes, its length where it is a
      bounded collection, and a token for everything else about it. */
  datatype Value = Value(fits: set<Name>, size: nat, token: nat)

  datatype Publication = Publication(key: Name, value: Value)

  datatype Phase = BEFORE_CAPABILITY | AFTER_CAPABILITY

  datatype Violation =
    | DeadlineViolation(phase: Phase)
    | StateLimitViolation(key: Name, observed: nat, allowed: nat)

  /** Why a result is not the capability's own. */
  datatype Origin = Own | UnexpectedError | InvalidResult | PolicyFailure(violation: Violation)

  datatype CapabilityResult = CapabilityResult(status: Status, data: Option<Value>, publications: seq<Publication>,
                                               origin: Origin)

  /** What calling a capability produced; any answer is possible. */
  datatype Candidate = Raised | NotAResult | Returned(result: CapabilityResult)

  datatype Reading = At(seconds: real) | Invalid

  /** The capability's answer and the two clock readings around it, all of them arbitrary. */
  datatype Turn = Turn(candidate: Candidate, before: Reading, after: Reading)

  datatype Policy = Policy(limits: map<Name, nat>, expiresAt: Option<real>)

  type State = map<Name, Value>

  function Combine(current: Status, observed: Status): Status {
    if current.Severity() >= observed.Severity() then current else observed
  }

  predicate UniqueKeys(batch: seq<Publication>) {
    forall i, j | 0 <= i < j < |batch| :: batch[i].key != batch[j].key
  }

  predicate WellTyped(batch: seq<Publication>) {
    forall p | p in batch :: p.key in p.value.fits
  }

  function Keys(batch: seq<Publication>): set<Name> {
    set p | p in batch :: p.key
  }

  /** `dict.update` with a batch. */
  function Updated(state: State, batch: seq<Publication>): State {
    if batch == [] then state
    else Updated(state, batch[..|batch| - 1])[batch[|batch| - 1].key := batch[|batch| - 1].value]
  }

  datatype Normalized = Normalized(explicit: seq<Publication>, legacy: Option<Publication>)

  const NOTHING := Normalized([], None)

  /** `_normalize_capability_result`; None stands for its ValueErrors. */
  function Normalize(name: Name, result: CapabilityResult, declared: Option<seq<Name>>): Option<Normalized> {
    if !UniqueKeys(result.publications) then None
    else if !result.status.Usable() then
      if result.publications != [] then None else Some(NOTHING)
    else if result.publications != [] then
      if result.data.Some? || declared.None? then None
      else if exists p | p in result.publications :: p.key !in declared.value then None
      else Some(Normalized(result.publications, None))
    else if result.data.None? then Some(NOTHING)
    else if declared.None? then Some(Normalized([], Some(Publication(name, result.data.value))))
    else if |declared.value| != 1 then None
    else Some(Normalized([Publication(declared.value[0], result.data.value)], None))
  }

  function Unusable(status: Status, origin: Origin): CapabilityResult {
    CapabilityResult(status, None, [], origin)
  }

  datatype Check = Open | Expired | Broken

  /** `check_deadline`: an invalid clock value raises, an expired deadline is a violation. */
  function CheckDeadline(policy: Option<Policy>, reading: Reading): Check {
    if policy.None? || policy.value.expiresAt.None? then Open
    else if reading.Invalid? then Broken
    else if reading.seconds >= policy.value.expiresAt.value then Expired
    else Open
  }

  /** `validate_publications`: the first publication over its limit. */
  function OverLimit(policy: Policy, batch: seq<Publication>): (r: Option<Violation>)
    ensures r.None? <==> forall p | p in batch && p.key in policy.limits :: p.value.size <= policy.limits[p.key]
  {
    if batch == [] then None
    else
      var p := batch[0];
      assert batch == [p] + batch[1..];
      if p.key in policy.limits && p.value.size > policy.limits[p.key]
      then Some(StateLimitViolation(p.key, p.value.size, policy.limits[p.key]))
      else OverLimit(policy, batch[1..])
  }

  datatype Judged = Judged(result: CapabilityResult, normalized: Normalized, violation: Option<Violation>)

  /** The capability's answer, normalised or replaced by a sanitised error. */
  function Received(name: Name, declared: Option<seq<Name>>, candidate: Candidate): (CapabilityResult, Normalized) {
    match candidate
    case Raised => (Unusable(ERROR, UnexpectedError), NOTHING)
    case NotAResult => (Unusable(ERROR, InvalidResult), NOTHING)
    case Returned(result) =>
      match Normalize(name, result, declared)
      case None => (Unusable(ERROR, InvalidResult), NOTHING)
      case Some(normalized) => (result, normalized)
  }

  /** Type checks, then the deadline, then the state limits, before anything is published. */
  function Judge(name: Name, declared: Option<seq<Name>>, policy: Option<Policy>, turn: Turn): Judged {
    var (result, normalized) := Received(name, declared, turn.candidate);
    if !result.status.Usable() then Judged(result, normalized, None)
    else if !WellTyped(normalized.explicit) then Judged(Unusable(ERROR, InvalidResult), normalized, None)
    else match CheckDeadline(policy, turn.after)
      case Broken => Judged(Unusable(ERROR, InvalidResult), normalized, None)
      case Expired =>
        var violation := DeadlineViolation(AFTER_CAPABILITY);
        Judged(Unusable(FAILURE, PolicyFailure(violation)), normalized, Some(violation))
      case Open =>
        if policy.None? then Judged(result, normalized, None)
        else match OverLimit(policy.value, normalized.explicit)
          case None => Judged(result, normalized, None)
          case Some(violation) => Judged(Unusable(FAILURE, PolicyFailure(violation)), normalized, Some(violation))
  }

  datatype Entry = Entry(name: Name, id: Option<Name>, wellNamed: bool)

  datatype Execution = Execution(name: Name, result: CapabilityResult, id: Option<Name>, executed: bool,
                                 violation: Option<Violation>)

  /** The output contract that applies to an entry: by typed identity, else by a name that is one. */
  function DeclaredFor(contracts: map<Name, seq<Name>>, entry: Entry): Option<seq<Name>> {
    var key := if entry.id.Some? then entry.id else if entry.wellNamed then Some(entry.name) else None;
    if key.Some? && key.value in contracts then Some(contracts[key.value]) else None
  }

  function Publish(state: State, normalized: Normalized): State {
    var published := Updated(state, normalized.explicit);
    if normalized.legacy.Some? then published[normalized.legacy.value.key := normalized.legacy.value.value]
       else published
  }

  /** One run: the history, the context after each entry of it, and whether an exception escaped. */
  datatype Trace = Trace(history: seq<Execution>, states: seq<State>, escaped: bool)

  datatype Step = Escapes | Stops(execution: Execution) | Continues(execution: Execution, next: State)

  datatype Setup = Setup(entries: seq<Entry>, contracts: map<Name, seq<Name>>, policy: Option<Policy>) {
    function Judgement(i: nat, turn: Turn): Judged
      requires i < |entries|
    {
      Judge(entries[i].name, DeclaredFor(contracts, entries[i]), policy, turn)
    }

    /** One turn of the loop of `run`: the deadline, the capability, the checks, the publication. */
    function Step(i: nat, turn: Turn, state: State): Step
      requires i < |entries|
    {
      match CheckDeadline(policy, turn.before)
      case Broken => Escapes
      case Expired =>
        var violation := DeadlineViolation(BEFORE_CAPABILITY);
        Stops(Execution(entries[i].name, Unusable(FAILURE, PolicyFailure(violation)), entries[i].id, false,
                        Some(violation)))
      case Open =>
        var judged := Judgement(i, turn);
        var execution := Execution(entries[i].name, judged.result, entries[i].id, true, judged.violation);
        if judged.result.status.Usable() then Continues(execution, Publish(state, judged.normalized))
           else Stops(execution)
    }

    /** The loop of `run` from entry `i` on. */
    function RunFrom(turns: seq<Turn>, i: nat, state: State): (t: Trace)
      requires i <= |entries| == |turns|
      ensures |t.history| == |t.states| <= |entries| - i
      decreases |entries| - i
    {
      if i == |entries| then Trace([], [], false)
      else match Step(i, turns[i], state)
        case Escapes => Trace([], [], true)
        case Stops(execution) => Trace([execution], [state], false)
        case Continues(execution, next) =>
          var rest := RunFrom(turns, i + 1, next);
          Trace([execution] + rest.history, [next] + rest.states, rest.escaped)
    }
  }

  function FinalState(state: State, t: Trace): State {
    if t.states == [] then state else t.states[|t.states| - 1]
  }

  function Aggregate(history: seq<Execution>): Status {
    if history == [] then SUCCESS
    else Combine(Aggregate(history[..|history| - 1]), history[|history| - 1].result.status)
  }
}
