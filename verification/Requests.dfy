/** What a planning request demands, said without any algorithm: the dependency relation through
    sole producers, the capabilities reachable from the goals, and when a plan exists. */
module Requests {
  import opened Prelude
  import opened Ordering
  import opened Definitions
  import opened Kahn

  datatype PlanError =
    | NoGoals
    | MissingProducer(key: Name)
    | AmbiguousProducer(key: Name, candidates: seq<Name>)
    | DependencyCycle(path: seq<Name>)
    | RejectedPlan

  ghost predicate DependsOn(reg: Catalog, available: set<Name>, c: Name, d: Name) {
    c in reg && exists key | key in reg[c].needs :: key !in available && Supplier(reg, key) == Some(d)
  }

  /** The dependency sets `_topological_order` derives from the selected definitions. */
  ghost function DependencyGraph(selected: Catalog, available: set<Name>): (deps: Dependencies)
    ensures deps.Keys == selected.Keys
    ensures forall c | c in deps :: deps[c] <= selected.Keys
    ensures forall c, d | c in deps && d in deps[c] :: DependsOn(selected, available, c, d)
    ensures forall c, d | DependsOn(selected, available, c, d) && d in selected :: d in deps[c]
  {
    map c | c in selected :: set d | d in selected && DependsOn(selected, available, c, d)
  }

  datatype Request = Request(reg: Catalog, goals: set<Name>, available: set<Name>) {
    ghost predicate IsPath(p: seq<Name>) {
      p != [] && forall i | 0 <= i < |p| - 1 :: DependsOn(reg, available, p[i], p[i + 1])
    }

    ghost predicate IsRoot(c: Name) {
      exists goal | goal in goals :: goal !in available && Supplier(reg, goal) == Some(c)
    }

    /** Reachable from a goal that is not available, through sole producers of unavailable keys. */
    ghost predicate Reachable(c: Name) {
      exists p :: IsPath(p) && IsRoot(p[0]) && p[|p| - 1] == c
    }

    ghost predicate Demanded(key: Name) {
      key !in available && (key in goals || exists c :: c in reg && Reachable(c) && key in reg[c].needs)
    }

    ghost predicate IsCycle(p: seq<Name>) {
      |p| >= 2 && IsPath(p) && Reachable(p[0]) && p[0] == p[|p| - 1]
    }

    /** When the planner must succeed. */
    ghost predicate Plannable() {
      && goals != {}
      && (forall key | Demanded(key) :: Supplier(reg, key).Some?)
      && !exists p :: IsCycle(p)
    }

    /** What each planning error claims about the request. */
    ghost predicate Justifies(e: PlanError) {
      match e
      case NoGoals => goals == {}
      case MissingProducer(key) => Demanded(key) && Producers(reg, key) == {}
      case AmbiguousProducer(key, candidates) =>
        Demanded(key) && |candidates| > 1 && candidates == Sorted(Producers(reg, key))
      case DependencyCycle(path) => IsCycle(path)
      case RejectedPlan => false
    }

    ghost function Selection(): (selected: Catalog)
      ensures forall c :: c in selected <==> c in reg && Reachable(c)
      ensures forall c | c in selected :: selected[c] == reg[c]
    {
      map c | c in reg && Reachable(c) :: reg[c]
    }

    lemma SinglePath(c: Name)
      ensures IsPath([c])
    {
    }

    lemma PathAppend(p: seq<Name>, d: Name)
      requires IsPath(p) && DependsOn(reg, available, p[|p| - 1], d)
      ensures IsPath(p + [d])
    {
      hide DependsOn;
    }

    lemma PathSuffix(p: seq<Name>, start: nat)
      requires IsPath(p) && start < |p|
      ensures IsPath(p[start..])
    {
      hide DependsOn;
      var s := p[start..];
      forall i | 0 <= i < |s| - 1 ensures DependsOn(reg, available, s[i], s[i + 1]) {
        assert s[i] == p[start + i] && s[i + 1] == p[start + i + 1];
      }
    }

    lemma Need(c: Name, key: Name)
      requires c in reg && Reachable(c) && key in reg[c].needs && key !in available
      ensures Demanded(key)
    {
    }

    lemma Supply(c: Name, key: Name)
      requires c in reg && key in reg[c].needs && key !in available && Supplier(reg, key).Some?
      ensures DependsOn(reg, available, c, Supplier(reg, key).value)
    {
    }

    lemma Step(c: Name, d: Name)
      requires Reachable(c) && DependsOn(reg, available, c, d)
      ensures Reachable(d)
    {
      var p :| IsPath(p) && IsRoot(p[0]) && p[|p| - 1] == c;
      PathAppend(p, d);
      var longer := p + [d];
      assert IsRoot(longer[0]) && longer[|longer| - 1] == d;
    }

    lemma Root(goal: Name)
      requires goal in goals && goal !in available && Supplier(reg, goal).Some?
      ensures Reachable(Supplier(reg, goal).value)
    {
      var c := Supplier(reg, goal).value;
      assert IsPath([c]) && IsRoot([c][0]);
    }

    lemma NoGoalsJustified()
      requires goals == {}
      ensures Justifies(NoGoals)
    {
    }

    lemma GoalDemanded(goal: Name)
      requires goal in goals
      ensures goal !in available ==> Demanded(goal)
    {
    }

    lemma PathPrefix(p: seq<Name>)
      requires |p| >= 2 && IsPath(p)
      ensures IsPath(p[..|p| - 1]) && DependsOn(reg, available, p[|p| - 2], p[|p| - 1])
    {
      assert p[|p| - 2 + 1] == p[|p| - 1];
    }

    /** No request both has a plan and justifies an error, so an error settles that there is none. */
    lemma ErrorsExcludePlans(e: PlanError)
      requires Justifies(e)
      ensures !Plannable()
    {
    }
  }
}
