/** Planning under a policy of disabled capabilities (application/scan_config.py, `prepare_scan`):
    plan over the whole registry, then again over the allowed part of it. */
module Preparation {
  import opened Prelude
  import opened Ordering
  import opened Definitions
  import opened Requests
  import opened Plans
  import opened Planning

  ghost function Filtered(q: Request, disabled: set<Name>): Request {
    Request(q.reg - disabled, q.goals, q.available)
  }

  ghost predicate Allows(q: Request, disabled: set<Name>) {
    q.Plannable() && forall c | q.Reachable(c) :: c in q.reg && c !in disabled
  }

  /** A demanded key keeps its sole producer when nothing the plan needs is disabled. */
  lemma SameSupplier(q: Request, disabled: set<Name>, key: Name)
    requires Allows(q, disabled) && q.Demanded(key)
    ensures Supplier(Filtered(q, disabled).reg, key) == Supplier(q.reg, key)
    ensures q.Reachable(Supplier(q.reg, key).value)
  {
    hide Request.Reachable;
    var d := Supplier(q.reg, key).value;
    if key in q.goals {
      q.Root(key);
    } else {
      var c :| c in q.reg && q.Reachable(c) && key in q.reg[c].needs;
      q.Supply(c, key);
      q.Step(c, d);
    }
    assert d in Producers(q.reg, key);
    OnlyProducerKept(q.reg, disabled, key, d);
    SupplierIs(q.reg - disabled, key, d);
  }

  lemma OnlyProducerKept(reg: Catalog, disabled: set<Name>, key: Name, d: Name)
    requires Producers(reg, key) == {d} && d !in disabled
    ensures Producers(reg - disabled, key) == {d}
  {
    forall x ensures x in Producers(reg - disabled, key) <==> x == d {
      assert x in Producers(reg, key) <==> x in {d};
    }
  }

  /** From a reachable capability, both registries have the same dependency steps ... */
  lemma SameStep(q: Request, disabled: set<Name>, c: Name, d: Name)
    requires Allows(q, disabled) && q.Reachable(c)
    ensures DependsOn(q.reg, q.available, c, d) <==> DependsOn(Filtered(q, disabled).reg, q.available, c, d)
    ensures DependsOn(q.reg, q.available, c, d) ==> q.Reachable(d)
  {
    hide Supplier, Request.Reachable;
    forall key | key in q.reg[c].needs && key !in q.available
      ensures Supplier(Filtered(q, disabled).reg, key) == Supplier(q.reg, key)
    {
      q.Need(c, key);
      SameSupplier(q, disabled, key);
    }
    if DependsOn(q.reg, q.available, c, d) {
      q.Step(c, d);
    }
  }

  /** ... and therefore the same paths. */
  lemma {:induction false} SamePath(q: Request, disabled: set<Name>, p: seq<Name>)
    requires Allows(q, disabled) && p != [] && q.Reachable(p[0])
    ensures q.IsPath(p) <==> Filtered(q, disabled).IsPath(p)
    ensures q.IsPath(p) ==> q.Reachable(p[|p| - 1])
    decreases |p|
  {
    hide Allows, DependsOn, Request.Reachable;
    var f := Filtered(q, disabled);
    if |p| > 1 {
      var front := p[..|p| - 1];
      var last := p[|p| - 1];
      assert p == front + [last];
      SamePath(q, disabled, front);
      if q.IsPath(p) {
        q.PathPrefix(p);
        SameStep(q, disabled, front[|front| - 1], last);
        f.PathAppend(front, last);
      }
      if f.IsPath(p) {
        f.PathPrefix(p);
        SameStep(q, disabled, front[|front| - 1], last);
        q.PathAppend(front, last);
      }
    }
  }

  lemma SameRoots(q: Request, disabled: set<Name>, c: Name)
    requires Allows(q, disabled)
    ensures q.IsRoot(c) <==> Filtered(q, disabled).IsRoot(c)
    ensures q.IsRoot(c) ==> q.Reachable(c)
  {
    hide Request.Reachable, Supplier;
    forall goal | goal in q.goals && goal !in q.available
      ensures Supplier(Filtered(q, disabled).reg, goal) == Supplier(q.reg, goal)
    {
      q.GoalDemanded(goal);
      SameSupplier(q, disabled, goal);
    }
    if q.IsRoot(c) {
      var goal :| goal in q.goals && goal !in q.available && Supplier(q.reg, goal) == Some(c);
      q.Root(goal);
    }
  }

  lemma SameReachable(q: Request, disabled: set<Name>, c: Name)
    requires Allows(q, disabled)
    ensures q.Reachable(c) <==> Filtered(q, disabled).Reachable(c)
  {
    hide Allows, DependsOn, Request.IsRoot, Filtered;
    var f := Filtered(q, disabled);
    if q.Reachable(c) {
      var p :| q.IsPath(p) && q.IsRoot(p[0]) && p[|p| - 1] == c;
      SameRoots(q, disabled, p[0]);
      SamePath(q, disabled, p);
    }
    if f.Reachable(c) {
      var p :| f.IsPath(p) && f.IsRoot(p[0]) && p[|p| - 1] == c;
      SameRoots(q, disabled, p[0]);
      SamePath(q, disabled, p);
    }
  }

  lemma NotPlannable(q: Request, p: seq<Name>)
    requires q.IsCycle(p)
    ensures !q.Plannable()
  {
  }

  lemma FilteredPlannable(q: Request, disabled: set<Name>)
    requires Allows(q, disabled)
    ensures Filtered(q, disabled).Plannable()
  {
    hide Supplier, Request.Reachable, Request.IsPath;
    var f := Filtered(q, disabled);
    forall key | f.Demanded(key) ensures Supplier(f.reg, key).Some? {
      if key !in q.goals {
        var c :| c in f.reg && f.Reachable(c) && key in f.reg[c].needs;
        SameReachable(q, disabled, c);
      }
      assert q.Demanded(key);
      SameSupplier(q, disabled, key);
    }
    forall p ensures !f.IsCycle(p) {
      if f.IsCycle(p) {
        SameReachable(q, disabled, p[0]);
        SamePath(q, disabled, p);
        NotPlannable(q, p);
        assert false;
      }
    }
  }

  lemma SameSelection(q: Request, disabled: set<Name>)
    requires Allows(q, disabled)
    ensures Filtered(q, disabled).Selection() == q.Selection()
  {
    hide Request.Reachable, Request.Plannable;
    var f := Filtered(q, disabled);
    forall c ensures c in f.Selection() <==> c in q.Selection() {
      SameReachable(q, disabled, c);
    }
  }

  lemma ReachableRegistered(q: Request, c: Name)
    requires q.Reachable(c)
    ensures c in q.reg
  {
    var p :| q.IsPath(p) && q.IsRoot(p[0]) && p[|p| - 1] == c;
    if |p| > 1 {
      q.PathPrefix(p);
    }
  }

  /** Planning again without the disabled capabilities cannot fail and gives the identical plan,
      as soon as the full plan exists and uses none of them. */
  lemma ReplanIsIdentical(q: Request, disabled: set<Name>)
    requires q.Plannable() && forall c | c in disabled :: !q.Reachable(c)
    ensures Filtered(q, disabled).Plannable()
    ensures PlanOf(Filtered(q, disabled)) == PlanOf(q)
  {
    forall c | q.Reachable(c) ensures c in q.reg && c !in disabled {
      ReachableRegistered(q, c);
    }
    hide Request.Plannable, Request.Reachable, Allows;
    FilteredPlannable(q, disabled);
    SameSelection(q, disabled);
  }

  datatype PreparedScan = PreparedScan(plan: ExecutionPlan, allowed: seq<Name>)

  datatype PrepareError =
    | UnregisteredDisabled
    | CannotPlan(error: PlanError)
    | RequiresDisabled(id: Name)
    | CannotReplan

  function FirstIn(ids: seq<Name>, wanted: set<Name>): (r: Option<Name>)
    ensures r.None? <==> forall id | id in ids :: id !in wanted
    ensures r.Some? ==>
            exists i: nat ::
              i < |ids| && ids[i] == r.value && r.value in wanted && forall j: nat | j < i :: ids[j] !in wanted
  {
    if ids == [] then None
    else if ids[0] in wanted then Some(ids[0])
    else
      assert ids == [ids[0]] + ids[1..];
      assert forall i: nat | i < |ids| - 1 :: ids[1..][i] == ids[i + 1];
      FirstIn(ids[1..], wanted)
  }

  /** `prepare_scan`: the second planning pass never fails, and the plan it returns is the one of the
      full registry. */
  method PrepareScan(registry: CapabilityRegistry, outputs: seq<Name>, disabledIds: seq<Name>)
    returns (r: Result<PreparedScan, PrepareError>)
    requires registry.Valid()
    ensures var q := Request(registry.byId, Elements(outputs), {});
            var disabled := Elements(disabledIds);
            && (r.Success? <==> disabled <= q.reg.Keys && q.Plannable() && q.Selection().Keys !! disabled)
            && (r.Success? ==> r.value == PreparedScan(PlanOf(q), Sorted(q.reg.Keys - disabled)))
            && (r.Failure? ==> match r.error
                case UnregisteredDisabled => !(disabled <= q.reg.Keys)
                case CannotPlan(e) => q.Justifies(e)
                case RequiresDisabled(id) => id in disabled && q.Reachable(id)
                case CannotReplan => false)
  {
    hide Sorted, Least, PlanOf, ExecutionPlan.Accepted, Supplier, Registered;
    hide Request.Plannable, Request.Selection, Request.Reachable, Request.Justifies;
    var disabled := Elements(disabledIds);
    ghost var q := Request(registry.byId, Elements(outputs), {});
    if exists id | id in disabledIds :: id !in registry.byId {
      var id :| id in disabledIds && id !in registry.byId;
      assert id in disabled;
      return Failure(UnregisteredDisabled);
    }
    var planner := new ExecutionPlanner(registry);
    var nothing: seq<Name> := [];
    assert Elements(nothing) == {};
    var complete := planner.Plan(outputs, nothing);
    if complete.Failure? {
      return Failure(CannotPlan(complete.error));
    }
    var required := complete.value.Ids();
    assert forall id :: id in required <==> id in Elements(required);
    var blocked := FirstIn(required, disabled);
    if blocked.Some? {
      assert blocked.value in q.Selection();
      return Failure(RequiresDisabled(blocked.value));
    }
    var all := InOrder(registry.byId, registry.byId.Keys - disabled);
    AllowedRegistered(registry.byId, disabled, all);
    var filtered := BuildRegistry(all);
    ReplanIsIdentical(q, disabled);
    var replanner := new ExecutionPlanner(filtered.value);
    var plan := replanner.Plan(outputs, nothing);
    if plan.Failure? {
      // planning over the allowed definitions succeeds
      assert false;
      return Failure(CannotReplan);
    }
    return Success(PreparedScan(plan.value, Sorted(filtered.value.byId.Keys)));
  }

  lemma AllowedRegistered(reg: Catalog, disabled: set<Name>, all: seq<Definition>)
    requires ValidCatalog(reg) && all == InOrder(reg, reg.Keys - disabled)
    ensures Registered(all) == Some(reg - disabled)
    ensures forall d | d in all :: d.WellFormed()
  {
    hide Registered, InOrder;
    RegisteredExactly(all);
    SameCatalog(Registered(all).value, reg - disabled);
  }
}
