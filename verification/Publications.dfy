/** What a run publishes and when it stops, read off the capabilities' answers, the clock and the contracts alone
    (runtime/pipeline.py, `run`, `_normalize_capability_result`; runtime/execution_policy.py). */
module Publications {
  import opened Prelude
  import opened Runtime
  import opened Runs

  ghost predicate Unreadable(policy: Option<Policy>, reading: Reading) {
    policy.Some? && policy.value.expiresAt.Some? && reading.Invalid?
  }

  ghost predicate Late(policy: Option<Policy>, reading: Reading) {
    policy.Some? && policy.value.expiresAt.Some? && reading.At? && reading.seconds >= policy.value.expiresAt.value
  }

  ghost predicate Usable(r: CapabilityResult) {
    r.status == SUCCESS || r.status == PARTIAL
  }

  /** The contract of an entry: that of its typed identity, or, without one, of a name that is an identity. */
  ghost predicate Contracted(setup: Setup, e: Entry, declared: seq<Name>) {
    exists id | id in setup.contracts ::
      (e.id == Some(id) || (e.id.None? && e.wellNamed && e.name == id)) && setup.contracts[id] == declared
  }

  /** The result stops the run and carries nothing. */
  ghost predicate Stopping(r: CapabilityResult) {
    !Usable(r) && r.publications == []
  }

  /** Explicit publications: of distinct keys of the contract, and no data besides. */
  ghost predicate Explicit(setup: Setup, e: Entry, r: CapabilityResult) {
    && Usable(r) && r.publications != [] && r.data.None?
    && (forall i, j | 0 <= i < j < |r.publications| :: r.publications[i].key != r.publications[j].key)
    && exists declared :: Contracted(setup, e, declared) && forall p | p in r.publications :: p.key in declared
  }

  /** Data alone, for the one key of the contract. */
  ghost predicate Single(setup: Setup, e: Entry, r: CapabilityResult, key: Name) {
    Usable(r) && r.publications == [] && r.data.Some? && Contracted(setup, e, [key])
  }

  /** Data alone and no contract. */
  ghost predicate Legacy(setup: Setup, e: Entry, r: CapabilityResult) {
    Usable(r) && r.publications == [] && r.data.Some? && !exists declared :: Contracted(setup, e, declared)
  }

  ghost predicate Silent(r: CapabilityResult) {
    Usable(r) && r.publications == [] && r.data.None?
  }

  /** What an answer offers for publication under the state keys. */
  ghost predicate Offers(setup: Setup, e: Entry, r: CapabilityResult, batch: seq<Publication>) {
    || (Explicit(setup, e, r) && batch == r.publications)
    || (exists key :: Single(setup, e, r, key) && batch == [Publication(key, r.data.value)])
    || ((Silent(r) || Legacy(setup, e, r)) && batch == [])
  }

  /** Every value is one its key admits. */
  ghost predicate Admitted(batch: seq<Publication>) {
    forall p | p in batch :: p.key in p.value.fits
  }

  ghost predicate Over(policy: Option<Policy>, p: Publication) {
    policy.Some? && p.key in policy.value.limits && p.value.size > policy.value.limits[p.key]
  }

  /** Every published value lies under its key, data without contract under the capability's name, and nothing
      else has changed. */
  ghost predicate Lands(setup: Setup, e: Entry, r: CapabilityResult, batch: seq<Publication>, before: State,
                        after: State) {
    && (forall p | p in batch :: p.key in after && after[p.key] == p.value)
    && (Legacy(setup, e, r) ==> e.name in after && after[e.name] == r.data.value)
    && (forall key | key in before :: key in after)
    && (forall key | key in after :: (key in before && after[key] == before[key]) ||
          (exists p | p in batch :: p.key == key) || (Legacy(setup, e, r) && key == e.name))
  }

  /** How an entry fails. */
  function Failed(e: Entry, status: Status, origin: Origin, executed: bool, violation: Option<Violation>): Step {
    Stops(Execution(e.name, CapabilityResult(status, None, [], origin), e.id, executed, violation))
  }

  lemma ContractUnique(setup: Setup, e: Entry)
    ensures match DeclaredFor(setup.contracts, e)
            case None => !exists declared :: Contracted(setup, e, declared)
            case Some(declared) =>
              Contracted(setup, e, declared) && forall other | Contracted(setup, e, other) :: other == declared
  {
  }

  /** Which answers are normalised, and to what. */
  lemma NormalizedOffers(setup: Setup, e: Entry, r: CapabilityResult)
    ensures match Normalize(e.name, r, DeclaredFor(setup.contracts, e))
            case None => !Stopping(r) && !exists batch :: Offers(setup, e, r, batch)
            case Some(n) =>
              && (Stopping(r) <==> !Usable(r)) && (Usable(r) ==> Offers(setup, e, r, n.explicit))
              && n.legacy == if Legacy(setup, e, r) then Some(Publication(e.name, r.data.value)) else None
  {
    hide Contracted;
    ContractUnique(setup, e);
    var declared := DeclaredFor(setup.contracts, e);
    if declared.Some? && |declared.value| == 1 {
      assert declared.value == [declared.value[0]];
    }
  }

  /** An answer offers at most one batch, and that is what it is normalised to. */
  lemma OneOffer(setup: Setup, e: Entry, r: CapabilityResult, batch: seq<Publication>)
    requires Offers(setup, e, r, batch)
    ensures Usable(r)
    ensures var legacy := if Legacy(setup, e, r) then Some(Publication(e.name, r.data.value)) else None;
            Normalize(e.name, r, DeclaredFor(setup.contracts, e)) == Some(Normalized(batch, legacy))
  {
    hide Contracted;
    ContractUnique(setup, e);
  }

  lemma {:induction false} FirstOver(policy: Policy, batch: seq<Publication>, n: nat)
    requires n < |batch| && Over(Some(policy), batch[n]) && forall m | 0 <= m < n :: !Over(Some(policy), batch[m])
    ensures OverLimit(policy, batch) ==
            Some(StateLimitViolation(batch[n].key, batch[n].value.size, policy.limits[batch[n].key]))
  {
    if n > 0 {
      assert !Over(Some(policy), batch[0]);
      assert forall m | 0 <= m < n - 1 :: batch[1..][m] == batch[m + 1];
      FirstOver(policy, batch[1..], n - 1);
    }
  }

  /** An exception escapes exactly for an unreadable clock before the capability; an expired deadline there ends the
      run without calling it. */
  lemma CheckedBefore(setup: Setup, i: nat, turn: Turn, state: State)
    requires i < |setup.entries|
    ensures setup.Step(i, turn, state).Escapes? <==> Unreadable(setup.policy, turn.before)
    ensures Late(setup.policy, turn.before) ==>
            setup.Step(i, turn, state) ==
            Failed(setup.entries[i], FAILURE, PolicyFailure(DeadlineViolation(BEFORE_CAPABILITY)), false,
                   Some(DeadlineViolation(BEFORE_CAPABILITY)))
  {
    hide Judge;
  }

  /** The checks before the call let the capability run. */
  ghost predicate Called(setup: Setup, turn: Turn) {
    !Late(setup.policy, turn.before) && !Unreadable(setup.policy, turn.before)
  }

  /** An exception and an answer that is no result end the run with an error of their own kind; a stopping result
      ends it as it is; an answer that neither stops nor offers a batch is replaced by an error. */
  lemma NothingOffered(setup: Setup, i: nat, turn: Turn, state: State)
    requires i < |setup.entries| && Called(setup, turn)
    ensures var e, s := setup.entries[i], setup.Step(i, turn, state);
            match turn.candidate
            case Raised => s == Failed(e, ERROR, UnexpectedError, true, None)
            case NotAResult => s == Failed(e, ERROR, InvalidResult, true, None)
            case Returned(r) =>
              && (Stopping(r) ==> s == Stops(Execution(e.name, r, e.id, true, None)))
              && (!Stopping(r) && !(exists batch :: Offers(setup, e, r, batch)) ==>
                  s == Failed(e, ERROR, InvalidResult, true, None))
  {
    hide Normalize, DeclaredFor, Offers, Legacy;
    if turn.candidate.Returned? {
      NormalizedOffers(setup, setup.entries[i], turn.candidate.result);
    }
  }

  /** An offered batch with an ill-typed value, or a clock that cannot be read after the call, is an error; a passed
      deadline is a policy failure. */
  lemma OfferRefused(setup: Setup, i: nat, turn: Turn, state: State, r: CapabilityResult, batch: seq<Publication>)
    requires i < |setup.entries| && Called(setup, turn)
    requires turn.candidate == Returned(r) && Offers(setup, setup.entries[i], r, batch)
    ensures var e, s := setup.entries[i], setup.Step(i, turn, state);
            && (!Admitted(batch) || Unreadable(setup.policy, turn.after) ==>
                s == Failed(e, ERROR, InvalidResult, true, None))
            && (Admitted(batch) && Late(setup.policy, turn.after) ==>
                s == Failed(e, FAILURE, PolicyFailure(DeadlineViolation(AFTER_CAPABILITY)), true,
                            Some(DeadlineViolation(AFTER_CAPABILITY))))
  {
    OneOffer(setup, setup.entries[i], r, batch);
    hide Normalize, DeclaredFor, Offers, Legacy, OverLimit;
  }

  /** Otherwise the first value over its limit is reported, with its size and the limit. */
  lemma OfferOverLimit(setup: Setup, i: nat, turn: Turn, state: State, r: CapabilityResult, batch: seq<Publication>,
                       n: nat)
    requires i < |setup.entries| && Called(setup, turn)
    requires turn.candidate == Returned(r) && Offers(setup, setup.entries[i], r, batch)
    requires Admitted(batch) && !Late(setup.policy, turn.after) && !Unreadable(setup.policy, turn.after)
    requires n < |batch| && Over(setup.policy, batch[n]) && forall m | 0 <= m < n :: !Over(setup.policy, batch[m])
    ensures var v := StateLimitViolation(batch[n].key, batch[n].value.size, setup.policy.value.limits[batch[n].key]);
            setup.Step(i, turn, state) == Failed(setup.entries[i], FAILURE, PolicyFailure(v), true, Some(v))
  {
    OneOffer(setup, setup.entries[i], r, batch);
    FirstOver(setup.policy.value, batch, n);
    hide Normalize, DeclaredFor, Offers, Legacy, OverLimit, Over;
  }

  /** What may be published. */
  ghost predicate Publishable(setup: Setup, e: Entry, turn: Turn, r: CapabilityResult, batch: seq<Publication>) {
    && turn.candidate == Returned(r) && Offers(setup, e, r, batch) && Admitted(batch)
    && !Late(setup.policy, turn.after) && !Unreadable(setup.policy, turn.after)
    && forall p | p in batch :: !Over(setup.policy, p)
  }

  /** A publishable batch is published whole, the result is kept as it is, and nothing else changes. */
  lemma OfferPublished(setup: Setup, i: nat, turn: Turn, state: State, r: CapabilityResult, batch: seq<Publication>)
    requires i < |setup.entries| && Called(setup, turn) && Publishable(setup, setup.entries[i], turn, r, batch)
    ensures var e, s := setup.entries[i], setup.Step(i, turn, state);
            s.Continues? && s.execution == Execution(e.name, r, e.id, true, None) &&
              Lands(setup, e, r, batch, state, s.next)
  {
    var e := setup.entries[i];
    OneOffer(setup, e, r, batch);
    BatchLands(setup, e, r, batch, state);
    hide Normalize, DeclaredFor, Offers, Legacy, Updated, Lands;
    assert setup.policy.Some? ==> OverLimit(setup.policy.value, batch) == None;
  }

  lemma BatchLands(setup: Setup, e: Entry, r: CapabilityResult, batch: seq<Publication>, state: State)
    requires Offers(setup, e, r, batch)
    ensures var legacy := if Legacy(setup, e, r) then Some(Publication(e.name, r.data.value)) else None;
            Lands(setup, e, r, batch, state, Publish(state, Normalized(batch, legacy)))
  {
    hide Contracted, Updated;
    UpdatedKeys(state, batch);
    forall p | p in batch ensures p.key in Updated(state, batch) && Updated(state, batch)[p.key] == p.value {
      var n :| 0 <= n < |batch| && batch[n] == p;
      UpdatedHolds(state, batch, n);
    }
  }

  /** The run goes on after an entry exactly when its answer is publishable, and a result of the capability's own
      is kept exactly then or when it stops the run: any other is replaced. */
  lemma KeptExactly(setup: Setup, i: nat, turn: Turn, state: State)
    requires i < |setup.entries| && Called(setup, turn)
    ensures var e, s := setup.entries[i], setup.Step(i, turn, state);
            && (s.Continues? <==> exists r, batch :: Publishable(setup, e, turn, r, batch))
            && (turn.candidate.Returned? && turn.candidate.result.origin.Own? ==>
                var r := turn.candidate.result;
                s.execution.result == r <==> Stopping(r) || exists batch :: Publishable(setup, e, turn, r, batch))
  {
    hide Setup.Step, Offers, Admitted;
    var e := setup.entries[i];
    CheckedBefore(setup, i, turn, state);
    NothingOffered(setup, i, turn, state);
    if r, batch :| turn.candidate == Returned(r) && Offers(setup, e, r, batch) {
      OneOffer(setup, e, r, batch);
      OfferRefused(setup, i, turn, state, r, batch);
      hide Late, Unreadable, Over;
      forall other | Offers(setup, e, r, other) ensures other == batch {
        OneOffer(setup, e, r, other);
      }
      if Admitted(batch) && !Late(setup.policy, turn.after) && !Unreadable(setup.policy, turn.after) {
        if exists n :: 0 <= n < |batch| && Over(setup.policy, batch[n]) {
          var n := FirstOverAt(setup.policy, batch);
          OfferOverLimit(setup, i, turn, state, r, batch, n);
        } else {
          assert Publishable(setup, e, turn, r, batch);
          OfferPublished(setup, i, turn, state, r, batch);
        }
      }
    }
  }

  lemma FirstOverAt(policy: Option<Policy>, batch: seq<Publication>) returns (n: nat)
    requires exists m :: 0 <= m < |batch| && Over(policy, batch[m])
    ensures n < |batch| && Over(policy, batch[n]) && forall m | 0 <= m < n :: !Over(policy, batch[m])
  {
    hide Over;
    n := 0;
    while !Over(policy, batch[n])
      invariant n < |batch| && forall m | 0 <= m < n :: !Over(policy, batch[m])
      decreases |batch| - n
    {
      n := n + 1;
    }
  }

  /** Every entry of a history is one turn of the loop from the context before it; only the last can stop the run. */
  lemma {:induction false} RunTakesSteps(setup: Setup, turns: seq<Turn>, i: nat, state: State, k: nat)
    requires i <= |setup.entries| == |turns| && k < |setup.RunFrom(turns, i, state).history|
    ensures i + k < |turns|
    ensures var t := setup.RunFrom(turns, i, state);
            var before, s := StateBefore(state, t, k), setup.Step(i + k, turns[i + k], StateBefore(state, t, k));
            !s.Escapes? && s.execution == t.history[k]
            && if s.Continues? then t.states[k] == s.next else t.states[k] == before && k == |t.history| - 1
    decreases |turns| - i
  {
    hide Setup.Step;
    if k > 0 {
      var t, next := setup.RunFrom(turns, i, state), setup.Step(i, turns[i], state).next;
      var rest := setup.RunFrom(turns, i + 1, next);
      RunTakesSteps(setup, turns, i + 1, next, k - 1);
      assert t.history[k] == rest.history[k - 1] && t.states[k] == rest.states[k - 1];
      assert StateBefore(state, t, k) == StateBefore(next, rest, k - 1);
    }
  }

  /** What one turn does to the context: a usable result is the capability's own answer, in time and within the
      limits, and all that it published lands; any other result ends the run. */
  ghost predicate Turned(setup: Setup, e: Entry, turn: Turn, x: Execution, before: State, after: State) {
    if Usable(x.result)
    then Called(setup, turn) && x == Execution(e.name, x.result, e.id, true, None) &&
         exists batch :: Publishable(setup, e, turn, x.result, batch) && Lands(setup, e, x.result, batch, before, after)
    else after == before
  }

  lemma StepTurns(setup: Setup, i: nat, turn: Turn, state: State)
    requires i < |setup.entries|
    ensures match setup.Step(i, turn, state)
            case Escapes => true
            case Stops(x) => Turned(setup, setup.entries[i], turn, x, state, state) && !Usable(x.result)
            case Continues(x, next) => Turned(setup, setup.entries[i], turn, x, state, next) && Usable(x.result)
  {
    CheckedBefore(setup, i, turn, state);
    StepShape(setup, i, turn, state);
    if setup.Step(i, turn, state).Continues? {
      hide Setup.Step, Lands, Offers, Admitted, Over, Late, Unreadable;
      KeptExactly(setup, i, turn, state);
      var r, batch :| Publishable(setup, setup.entries[i], turn, r, batch);
      OfferPublished(setup, i, turn, state, r, batch);
    }
  }

  /** Over every run: each entry of the history has its turn's effect on the context, and only the last result can
      be one that is not usable. */
  lemma RunPublishes(setup: Setup, turns: seq<Turn>, i: nat, state: State, k: nat)
    requires i <= |setup.entries| == |turns| && k < |setup.RunFrom(turns, i, state).history|
    ensures i + k < |turns|
    ensures var t := setup.RunFrom(turns, i, state);
            && Turned(setup, setup.entries[i + k], turns[i + k], t.history[k], StateBefore(state, t, k), t.states[k])
            && (!Usable(t.history[k].result) ==> k == |t.history| - 1)
  {
    hide Turned, Setup.Step, Setup.RunFrom;
    RunTakesSteps(setup, turns, i, state, k);
    StepTurns(setup, i + k, turns[i + k], StateBefore(state, setup.RunFrom(turns, i, state), k));
  }

  /** The status of a run, said of its history alone. */
  lemma {:induction false} AggregateExactly(history: seq<Execution>)
    ensures Aggregate(history) == ERROR <==> exists x | x in history :: x.result.status == ERROR
    ensures Aggregate(history) in {FAILURE, ERROR} <==> exists x | x in history :: !Usable(x.result)
    ensures Aggregate(history) == SUCCESS <==> forall x | x in history :: x.result.status == SUCCESS
  {
    if history != [] {
      var n := |history| - 1;
      AggregateExactly(history[..n]);
      assert history == history[..n] + [history[n]];
    }
  }
}
