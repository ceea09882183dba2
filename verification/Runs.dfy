/** What holds of every run: shape of the history, aggregate status, and the context as a replay of
    the accepted batches. */
module Runs {
  import opened Prelude
  import opened Runtime

  /** The aggregate is the most severe outcome observed. */
  lemma {:induction false} AggregateIsMaximum(history: seq<Execution>)
    ensures forall e | e in history :: e.result.status.Severity() <= Aggregate(history).Severity()
    ensures Aggregate(history) == SUCCESS || exists e | e in history :: e.result.status == Aggregate(history)
  {
    if history != [] {
      var n := |history| - 1;
      AggregateIsMaximum(history[..n]);
      assert history == history[..n] + [history[n]];
    }
  }

  /** A usable judgement kept the capability's own result, and its batch is distinct, well typed,
      declared, within the limits and not late. */
  lemma UsableJudgement(name: Name, declared: Option<seq<Name>>, policy: Option<Policy>, turn: Turn)
    requires Judge(name, declared, policy, turn).result.status.Usable()
    ensures var j := Judge(name, declared, policy, turn);
            && Normalize(name, j.result, declared) == Some(j.normalized)
            && turn.candidate == Returned(j.result) && j.violation == None
            && WellTyped(j.normalized.explicit)
            && CheckDeadline(policy, turn.after) == Open
            && (policy.Some? ==> OverLimit(policy.value, j.normalized.explicit) == None)
  {
  }

  lemma NormalizedBatch(name: Name, result: CapabilityResult, declared: Option<seq<Name>>)
    requires Normalize(name, result, declared).Some?
    ensures var n := Normalize(name, result, declared).value;
            && UniqueKeys(n.explicit)
            && (n.explicit != [] ==> declared.Some? && Keys(n.explicit) <= Elements(declared.value))
            && (n.legacy.Some? ==> declared.None? && n.legacy.value.key == name && n.explicit == [])
            && (!result.status.Usable() ==> n == NOTHING)
  {
    var n := Normalize(name, result, declared).value;
    if n.explicit != [] && result.publications != [] {
      forall k | k in Keys(n.explicit) ensures k in declared.value {
        var p :| p in n.explicit && p.key == k;
      }
    }
  }

  /** The batch an entry of the history added to the context, read off that entry alone. */
  function Accepted(setup: Setup, i: nat, e: Execution): Normalized
    requires i < |setup.entries|
  {
    if e.executed && e.result.status.Usable() then
      match Normalize(setup.entries[i].name, e.result, DeclaredFor(setup.contracts, setup.entries[i]))
      case Some(n) => n
      case None => NOTHING
    else NOTHING
  }

  ghost predicate WellFormedHistory(setup: Setup, i: nat, t: Trace)
    requires i <= |setup.entries|
  {
    && |t.history| == |t.states| <= |setup.entries| - i
    && (forall k | 0 <= k < |t.history| :: t.history[k].name == setup.entries[i + k].name &&
          t.history[k].id == setup.entries[i + k].id)
    && (forall k | 0 <= k < |t.history| - 1 :: t.history[k].executed && t.history[k].result.status.Usable())
    && (t.escaped ==> forall k | 0 <= k < |t.history| :: t.history[k].executed && t.history[k].result.status.Usable())
    && (forall k | 0 <= k < |t.history| && !t.history[k].executed :: t.history[k].result.status == FAILURE)
    && (!t.escaped && (t.history == [] || t.history[|t.history| - 1].result.status.Usable()) ==>
        |t.history| == |setup.entries| - i)
  }

  lemma HistoryCons(setup: Setup, i: nat, e: Execution, next: State, rest: Trace)
    requires i < |setup.entries| && WellFormedHistory(setup, i + 1, rest)
    requires e.name == setup.entries[i].name && e.id == setup.entries[i].id && e.executed && e.result.status.Usable()
    ensures WellFormedHistory(setup, i, Trace([e] + rest.history, [next] + rest.states, rest.escaped))
  {
    var history := [e] + rest.history;
    assert forall k | 1 <= k < |history| :: history[k] == rest.history[k - 1];
    if rest.history != [] {
      assert history[|history| - 1] == rest.history[|rest.history| - 1];
    }
  }

  lemma StepShape(setup: Setup, i: nat, turn: Turn, state: State)
    requires i < |setup.entries|
    ensures match setup.Step(i, turn, state)
            case Escapes => true
            case Stops(e) =>
              e.name == setup.entries[i].name && e.id == setup.entries[i].id &&
              !e.result.status.Usable() && (!e.executed ==> e.result.status == FAILURE)
            case Continues(e, next) =>
              e.name == setup.entries[i].name && e.id == setup.entries[i].id &&
              e.executed && e.result.status.Usable()
  {
    hide Judge;
  }

  /** Every entry but the last is SUCCESS or PARTIAL, the names are a prefix of the execution order, at
      most the last entry was not executed, and a run that stops early ends in FAILURE or ERROR. */
  lemma {:induction false} HistoryShape(setup: Setup, turns: seq<Turn>, i: nat, state: State)
    requires i <= |setup.entries| == |turns|
    ensures WellFormedHistory(setup, i, setup.RunFrom(turns, i, state))
    decreases |turns| - i
  {
    hide Setup.Step;
    if i < |turns| {
      StepShape(setup, i, turns[i], state);
      match setup.Step(i, turns[i], state)
      case Escapes =>
      case Stops(e) =>
      case Continues(e, next) =>
        hide WellFormedHistory;
        HistoryShape(setup, turns, i + 1, next);
        HistoryCons(setup, i, e, next, setup.RunFrom(turns, i + 1, next));
    }
  }

  function StateBefore(state: State, t: Trace, k: nat): State
    requires k < |t.states|
  {
    if k == 0 then state else t.states[k - 1]
  }

  /** A step publishes exactly the batch that can be read off its history entry. */
  lemma StepPublishesAccepted(setup: Setup, i: nat, turn: Turn, state: State)
    requires i < |setup.entries|
    ensures match setup.Step(i, turn, state)
            case Escapes => true
            case Stops(e) => state == Publish(state, Accepted(setup, i, e))
            case Continues(e, next) => next == Publish(state, Accepted(setup, i, e))
  {
    hide Normalize, DeclaredFor;
    if setup.Step(i, turn, state).Continues? {
      UsableJudgement(setup.entries[i].name, DeclaredFor(setup.contracts, setup.entries[i]), setup.policy, turn);
    }
  }

  /** The context after each history entry is the context before it updated with exactly the batch that
      entry accepted; so the final context is the replay of the history. */
  lemma {:induction false} ContextIsReplay(setup: Setup, turns: seq<Turn>, i: nat, state: State, k: nat)
    requires i <= |setup.entries| == |turns|
    requires k < |setup.RunFrom(turns, i, state).history|
    ensures var t := setup.RunFrom(turns, i, state);
            t.states[k] == Publish(StateBefore(state, t, k), Accepted(setup, i + k, t.history[k]))
    decreases |turns| - i
  {
    hide Setup.Step, Publish, Accepted;
    var t := setup.RunFrom(turns, i, state);
    StepPublishesAccepted(setup, i, turns[i], state);
    if k > 0 {
      var next := setup.Step(i, turns[i], state).next;
      var rest := setup.RunFrom(turns, i + 1, next);
      ContextIsReplay(setup, turns, i + 1, next, k - 1);
      assert t.history[k] == rest.history[k - 1] && t.states[k] == rest.states[k - 1];
    }
  }

  /** `publish_many` re-checks what was already checked: it cannot reject the batch of a usable result. */
  lemma AcceptedBatchPublishable(name: Name, declared: Option<seq<Name>>, policy: Option<Policy>, turn: Turn)
    requires Judge(name, declared, policy, turn).result.status.Usable()
    ensures UniqueKeys(Judge(name, declared, policy, turn).normalized.explicit)
    ensures WellTyped(Judge(name, declared, policy, turn).normalized.explicit)
  {
    hide Normalize;
    UsableJudgement(name, declared, policy, turn);
    NormalizedBatch(name, Judge(name, declared, policy, turn).result, declared);
  }

  /** A deadline seen expired after a capability, or before it, lets nothing of it into the context. */
  lemma ExpiryPublishesNothing(setup: Setup, turns: seq<Turn>, i: nat, state: State)
    requires i < |setup.entries| == |turns|
    requires CheckDeadline(setup.policy, turns[i].before) == Expired ||
             CheckDeadline(setup.policy, turns[i].after) == Expired
    ensures FinalState(state, setup.RunFrom(turns, i, state)) == state
    ensures |setup.RunFrom(turns, i, state).history| <= 1
  {
    hide Normalize, DeclaredFor;
    if CheckDeadline(setup.policy, turns[i].before) == Open && setup.Judgement(i, turns[i]).result.status.Usable() {
      UsableJudgement(setup.entries[i].name, DeclaredFor(setup.contracts, setup.entries[i]), setup.policy, turns[i]);
      assert false;
    }
  }

  lemma {:induction false} UpdatedKeys(state: State, batch: seq<Publication>)
    ensures Updated(state, batch).Keys == state.Keys + Keys(batch)
    ensures forall key | key in state && key !in Keys(batch) :: Updated(state, batch)[key] == state[key]
    ensures forall key | key in Keys(batch) ::
            exists p | p in batch :: p.key == key && Updated(state, batch)[key] == p.value
  {
    if batch != [] {
      var n := |batch| - 1;
      UpdatedKeys(state, batch[..n]);
      assert batch == batch[..n] + [batch[n]];
      assert Keys(batch) == Keys(batch[..n]) + {batch[n].key};
    }
  }

  /** A batch with distinct keys is published whole: every value lands under its own key. */
  lemma {:induction false} UpdatedHolds(state: State, batch: seq<Publication>, i: nat)
    requires UniqueKeys(batch) && i < |batch|
    ensures batch[i].key in Updated(state, batch) && Updated(state, batch)[batch[i].key] == batch[i].value
  {
    if i < |batch| - 1 {
      UpdatedHolds(state, batch[..|batch| - 1], i);
    }
  }

  ghost predicate WithinLimits(policy: Option<Policy>, state: State) {
    policy.Some? ==>
      forall key | key in policy.value.limits && key in state :: state[key].size <= policy.value.limits[key]
  }

  /** `b` differs from `a` at most at some of `keys`, and forgets nothing. */
  ghost predicate ChangesOnly(a: State, b: State, keys: set<Name>) {
    && a.Keys <= b.Keys <= a.Keys + keys
    && forall key | key in a && key !in keys :: b[key] == a[key]
  }

  ghost predicate AllDeclared(setup: Setup, keys: set<Name>) {
    forall e | e in setup.entries :: DeclaredFor(setup.contracts, e).Some? &&
      Elements(DeclaredFor(setup.contracts, e).value) <= keys
  }

  lemma StepConfined(setup: Setup, i: nat, turn: Turn, state: State, keys: set<Name>)
    requires i < |setup.entries| && AllDeclared(setup, keys)
    requires setup.Step(i, turn, state).Continues?
    ensures var next := setup.Step(i, turn, state).next;
            ChangesOnly(state, next, keys) && (WithinLimits(setup.policy, state) ==> WithinLimits(setup.policy, next))
  {
    hide Normalize, DeclaredFor, Judge, Updated;
    var name, declared := setup.entries[i].name, DeclaredFor(setup.contracts, setup.entries[i]);
    assert setup.entries[i] in setup.entries;
    var j := setup.Judgement(i, turn);
    UsableJudgement(name, declared, setup.policy, turn);
    NormalizedBatch(name, j.result, declared);
    UpdatedKeys(state, j.normalized.explicit);
  }

  /** For a pipeline all of whose entries have contracts within `keys`: every reachable context changes
      only those keys, and stays within the state limits if it started so. */
  lemma {:induction false} ContextConfined(setup: Setup, turns: seq<Turn>, i: nat, state: State, keys: set<Name>)
    requires i <= |setup.entries| == |turns| && AllDeclared(setup, keys)
    ensures var t := setup.RunFrom(turns, i, state);
            forall s | s in t.states :: ChangesOnly(state, s, keys) && (WithinLimits(setup.policy, state) ==>
                WithinLimits(setup.policy, s))
    decreases |turns| - i
  {
    hide Setup.Step, WithinLimits, AllDeclared;
    var t := setup.RunFrom(turns, i, state);
    if i < |turns| && setup.Step(i, turns[i], state).Continues? {
      StepConfined(setup, i, turns[i], state, keys);
      var next := setup.Step(i, turns[i], state).next;
      ContextConfined(setup, turns, i + 1, next, keys);
      var rest := setup.RunFrom(turns, i + 1, next);
      forall s | s in t.states
        ensures ChangesOnly(state, s, keys) && (WithinLimits(setup.policy, state) ==> WithinLimits(setup.policy, s))
      {
        assert s == next || s in rest.states;
      }
    }
  }
}
