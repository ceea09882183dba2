/** `_topological_order` and `_single_selected_producer` (planning/planner.py), step by step. */
module TopologicalOrders {
  import opened Prelude
  import opened Ordering
  import opened Definitions
  import opened Kahn
  import opened Requests

  ghost predicate NeedsSupplied(selected: Catalog, available: set<Name>, needs: seq<Name>) {
    forall key | key in needs && key !in available :: Supplier(selected, key).Some?
  }

  ghost predicate AllSupplied(selected: Catalog, available: set<Name>) {
    forall c | c in selected :: NeedsSupplied(selected, available, selected[c].needs)
  }

  /** `dependents` is `dependencies` read backwards. */
  ghost predicate Inverse(dependencies: Dependencies, dependents: Dependencies) {
    && dependents.Keys == dependencies.Keys
    && (forall d | d in dependents :: dependents[d] <= dependencies.Keys)
    && forall c, d | c in dependencies && d in dependents :: c in dependents[d] <==> d in dependencies[c]
  }

  /** The suppliers of some of one capability's requirements. */
  function Suppliers(selected: Catalog, available: set<Name>, needs: seq<Name>): set<Name> {
    set key | key in needs && key !in available && Supplier(selected, key).Some? :: Supplier(selected, key).value
  }

  lemma SuppliersAreDependencies(selected: Catalog, available: set<Name>, c: Name)
    requires c in selected
    ensures Suppliers(selected, available, selected[c].needs) == DependencyGraph(selected, available)[c]
  {
    hide Supplier;
    var deps := DependencyGraph(selected, available);
    forall d ensures d in Suppliers(selected, available, selected[c].needs) <==> d in deps[c] {
      if d in deps[c] {
        assert DependsOn(selected, available, c, d);
      }
      if d in Suppliers(selected, available, selected[c].needs) {
        var key :| key in selected[c].needs && key !in available && Supplier(selected, key) == Some(d);
        assert DependsOn(selected, available, c, d);
      }
    }
  }

  lemma NoSuppliers(selected: Catalog, available: set<Name>)
    ensures Suppliers(selected, available, []) == {}
  {
  }

  lemma SuppliersSnoc(selected: Catalog, available: set<Name>, needs: seq<Name>, key: Name)
    ensures Suppliers(selected, available, needs + [key]) ==
            Suppliers(selected, available, needs) +
            if key !in available && Supplier(selected, key).Some? then {Supplier(selected, key).value} else {}
  {
    hide Supplier;
  }

  /** `_single_selected_producer`. */
  method SingleSelectedProducer(key: Name, selected: Catalog) returns (r: Result<Name, PlanError>)
    requires ValidCatalog(selected)
    ensures r.Success? <==> Supplier(selected, key).Some?
    ensures r.Success? ==> Supplier(selected, key) == Some(r.value) && r.value in selected
    ensures r.Failure? ==> r.error == if Producers(selected, key) == {} then MissingProducer(key)
                                      else AmbiguousProducer(key, Sorted(Producers(selected, key)))
  {
    var producers := Producers(selected, key);
    if producers == {} {
      return Failure(MissingProducer(key));
    }
    if |producers| > 1 {
      return Failure(AmbiguousProducer(key, Sorted(producers)));
    }
    return Success(Supplier(selected, key).value);
  }

  lemma NoEdges(dependencies: Dependencies, dependents: Dependencies)
    requires dependencies.Keys == dependents.Keys
    requires forall c | c in dependencies :: dependencies[c] == {} && dependents[c] == {}
    ensures Inverse(dependencies, dependents)
  {
  }

  lemma AddEdge(dependencies: Dependencies, dependents: Dependencies, c: Name, d: Name)
    requires Inverse(dependencies, dependents) && c in dependencies && d in dependencies
    ensures d in dependents
    ensures Inverse(dependencies[c := dependencies[c] + {d}], dependents[d := dependents[d] + {c}])
  {
  }

  /** The two dictionaries, filled from the selected definitions in whatever order they come. */
  method BuildDependencies(selected: Catalog, available: set<Name>)
    returns (dependencies: Dependencies, dependents: Dependencies, error: Option<PlanError>)
    requires ValidCatalog(selected)
    ensures error.None? <==> AllSupplied(selected, available)
    ensures error.None? ==> dependencies == DependencyGraph(selected, available) && Inverse(dependencies, dependents)
    ensures error.Some? ==> error.value.MissingProducer? || error.value.AmbiguousProducer?
  {
    hide Supplier, Least, Sorted, DependencyGraph, Suppliers, NeedsSupplied, Inverse;
    ghost var graph := DependencyGraph(selected, available);
    dependencies := map c | c in selected :: {};
    dependents := map c | c in selected :: {};
    NoEdges(dependencies, dependents);
    var todo := selected.Keys;
    while todo != {}
      invariant todo <= selected.Keys == dependencies.Keys && Inverse(dependencies, dependents)
      invariant forall c | c in selected :: dependencies[c] == if c in todo then {} else graph[c]
      invariant forall c | c in selected && c !in todo :: NeedsSupplied(selected, available, selected[c].needs)
    {
      var name :| name in todo;
      dependencies, dependents, error := AddDependencies(selected, available, name, dependencies, dependents);
      if error.Some? {
        return;
      }
      SuppliersAreDependencies(selected, available, name);
      todo := todo - {name};
    }
    assert forall c | c in dependencies :: dependencies[c] == graph[c];
    error := None;
  }

  method AddDependencies(selected: Catalog, available: set<Name>, name: Name, before: Dependencies,
                         beforeDependents: Dependencies)
    returns (dependencies: Dependencies, dependents: Dependencies, error: Option<PlanError>)
    requires ValidCatalog(selected) && name in selected
    requires before.Keys == selected.Keys && Inverse(before, beforeDependents) && before[name] == {}
    ensures error.None? ==> dependencies == before[name := Suppliers(selected, available, selected[name].needs)]
    ensures error.None? ==> Inverse(dependencies, dependents)
    ensures error.None? <==> NeedsSupplied(selected, available, selected[name].needs)
    ensures error.Some? ==> error.value.MissingProducer? || error.value.AmbiguousProducer?
  {
    hide Supplier, Inverse, Suppliers, Least, Sorted;
    NoSuppliers(selected, available);
    dependencies, dependents := before, beforeDependents;
    var needs := selected[name].needs;
    assert before[name := {}] == before;
    for i := 0 to |needs|
      invariant dependencies == before[name := Suppliers(selected, available, needs[..i])]
      invariant Inverse(dependencies, dependents)
      invariant NeedsSupplied(selected, available, needs[..i])
    {
      assert needs[..i + 1] == needs[..i] + [needs[i]];
      SuppliersSnoc(selected, available, needs[..i], needs[i]);
      if needs[i] !in available {
        var producer := SingleSelectedProducer(needs[i], selected);
        if producer.Failure? {
          return dependencies, dependents, Some(producer.error);
        }
        AddEdge(dependencies, dependents, name, producer.value);
        dependencies := dependencies[name := dependencies[name] + {producer.value}];
        assert dependencies == before[name := Suppliers(selected, available, needs[..i + 1])];
        dependents := dependents[producer.value := dependents[producer.value] + {name}];
      } else {
        assert Suppliers(selected, available, needs[..i + 1]) == Suppliers(selected, available, needs[..i]);
      }
    }
    assert needs[..|needs|] == needs;
    error := None;
  }

  /** What is left of every dependency set once `done` has been discarded from it. */
  ghost predicate Discarded(graph: Dependencies, done: set<Name>, left: Dependencies) {
    left.Keys == graph.Keys && forall c | c in graph :: left[c] == graph[c] - done
  }

  ghost predicate DownClosed(graph: Dependencies, done: set<Name>) {
    forall c | c in done :: c in graph && graph[c] <= done
  }

  lemma HeapHoldsReady(graph: Dependencies, done: set<Name>, ready: multiset<Name>)
    requires ready == multiset(Ready(graph, done))
    ensures |ready| > 0 <==> Ready(graph, done) != {}
    ensures (set name | name in ready) == Ready(graph, done)
  {
  }

  lemma GreedyStep(graph: Dependencies, done: set<Name>, ordered: seq<Name>, name: Name)
    requires Ready(graph, done) != {} && DownClosed(graph, done) && name == Least(Ready(graph, done))
    ensures ordered + Greedy(graph, done) == (ordered + [name]) + Greedy(graph, done + {name})
    ensures DownClosed(graph, done + {name}) && name in graph && name !in done
  {
    assert Greedy(graph, done) == [name] + Greedy(graph, done + {name});
  }

  /** The heap loop: pops the least ready name, discards it from its dependents, pushes those left
      without dependencies.  The heap never holds a name twice. */
  method EmitInOrder(graph: Dependencies, dependents: Dependencies) returns (ordered: seq<Name>)
    requires Inverse(graph, dependents)
    ensures ordered == Greedy(graph, {})
  {
    hide *;
    ghost var done: set<Name> := {};
    var dependencies := graph;
    var ready := multiset(set name | name in dependencies && dependencies[name] == {});
    Begin(graph);
    ordered := [];
    while |ready| > 0
      invariant Discarded(graph, done, dependencies) && DownClosed(graph, done)
      invariant ready == multiset(Ready(graph, done))
      invariant ordered + Greedy(graph, done) == Greedy(graph, {})
      decreases |graph.Keys - done|
    {
      HeapHoldsReady(graph, done, ready);
      var heap := set name | name in ready;
      assert heap == Ready(graph, done);
      var name := Least(heap);
      GreedyStep(graph, done, ordered, name);
      FewerLeft(graph, done, name);
      ready := ready - multiset{name};
      ordered := ordered + [name];
      DependentsOf(graph, dependents, name);
      dependencies, ready := Discard(graph, done, name, dependents[name], dependencies, ready);
      done := done + {name};
    }
    HeapHoldsReady(graph, done, ready);
    GreedyEnds(graph, done, ordered);
  }

  lemma Begin(graph: Dependencies)
    ensures Discarded(graph, {}, graph) && DownClosed(graph, {})
    ensures (set name | name in graph && graph[name] == {}) == Ready(graph, {})
    ensures [] + Greedy(graph, {}) == Greedy(graph, {})
  {
  }

  lemma GreedyEnds(graph: Dependencies, done: set<Name>, ordered: seq<Name>)
    requires Ready(graph, done) == {}
    ensures ordered + Greedy(graph, done) == ordered
  {
  }

  lemma DependentsOf(graph: Dependencies, dependents: Dependencies, name: Name)
    requires Inverse(graph, dependents) && name in graph
    ensures name in dependents && forall c :: c in dependents[name] <==> c in graph && name in graph[c]
  {
  }

  lemma FewerLeft(graph: Dependencies, done: set<Name>, name: Name)
    requires name in graph && name !in done
    ensures |graph.Keys - (done + {name})| < |graph.Keys - done|
  {
    assert name in graph.Keys - done;
    SubsetSize(graph.Keys - (done + {name}), graph.Keys - done - {name});
  }

  /** Names that become ready when `name` is emitted, among those already looked at. */
  ghost predicate Pushed(graph: Dependencies, done: set<Name>, name: Name, seen: set<Name>, ready: multiset<Name>) {
    ready == multiset(set c | c in Ready(graph, done + {name}) && (c in Ready(graph, done) || c in seen))
  }

  method Discard(graph: Dependencies, ghost done: set<Name>, name: Name, dependents: set<Name>, before: Dependencies,
                 heap: multiset<Name>)
    returns (dependencies: Dependencies, ready: multiset<Name>)
    requires Discarded(graph, done, before) && DownClosed(graph, done) && name in Ready(graph, done)
    requires forall c :: c in dependents <==> c in graph && name in graph[c]
    requires heap == multiset(Ready(graph, done)) - multiset{name}
    ensures Discarded(graph, done + {name}, dependencies)
    ensures ready == multiset(Ready(graph, done + {name}))
  {
    hide Ready, DownClosed, Pushed, Least, Sorted;
    var order := Sorted(dependents);
    dependencies, ready := before, heap;
    HeapAfterPop(graph, done, name, heap);
    ghost var seen: set<Name> := {};
    for i := 0 to |order|
      invariant seen == Elements(order[..i])
      invariant Pushed(graph, done, name, seen, ready)
      invariant dependencies.Keys == graph.Keys
      invariant forall c | c in graph :: dependencies[c] == graph[c] - done - if c in seen then {name} else {}
    {
      var dependent := order[i];
      assert order[..i + 1] == order[..i] + [dependent];
      assert dependent in dependents && dependent !in order[..i];
      dependencies := dependencies[dependent := dependencies[dependent] - {name}];
      LookAt(graph, done, name, seen, dependent, ready);
      if dependencies[dependent] == {} {
        ready := ready + multiset{dependent};
      }
      seen := seen + {dependent};
    }
    assert order[..|order|] == order;
    assert seen == dependents;
    AllSeen(graph, done, name, dependents, ready);
    forall c | c in graph ensures dependencies[c] == graph[c] - (done + {name}) {
      assert c in dependents <==> name in graph[c];
    }
  }

  lemma HeapAfterPop(graph: Dependencies, done: set<Name>, name: Name, heap: multiset<Name>)
    requires name in Ready(graph, done) && heap == multiset(Ready(graph, done)) - multiset{name}
    ensures Pushed(graph, done, name, {}, heap)
  {
    var left := set c | c in Ready(graph, done + {name}) && (c in Ready(graph, done) || c in {});
    assert left == Ready(graph, done) - {name};
  }

  lemma LookAt(graph: Dependencies, done: set<Name>, name: Name, seen: set<Name>, c: Name, ready: multiset<Name>)
    requires Pushed(graph, done, name, seen, ready) && name in Ready(graph, done) && DownClosed(graph, done)
    requires c in graph && name in graph[c] && c !in seen
    ensures Pushed(graph, done, name, seen + {c}, if graph[c] - done - {name} == {} then ready + multiset{c} else ready)
  {
    var next := Ready(graph, done + {name});
    var pushed := set x | x in next && (x in Ready(graph, done) || x in seen);
    var pushed' := set x | x in next && (x in Ready(graph, done) || x in seen + {c});
    if graph[c] - done - {name} == {} {
      assert graph[c] <= done + {name};
      assert c !in done;
      assert pushed' == pushed + {c};
    } else {
      assert c !in next;
      assert pushed' == pushed;
    }
  }

  lemma AllSeen(graph: Dependencies, done: set<Name>, name: Name, dependents: set<Name>, ready: multiset<Name>)
    requires forall c :: c in dependents <==> c in graph && name in graph[c]
    requires Pushed(graph, done, name, dependents, ready)
    ensures ready == multiset(Ready(graph, done + {name}))
  {
    var pushed := set c | c in Ready(graph, done + {name}) && (c in Ready(graph, done) || c in dependents);
    forall c | c in Ready(graph, done + {name}) ensures c in pushed {
      if c !in dependents {
        assert graph[c] <= done;
      }
    }
    assert pushed == Ready(graph, done + {name});
  }

  /** `_topological_order`: the greedy order when every requirement has one selected supplier and the
      graph has no cycle; otherwise the error, which for a cycle names the least name left over. */
  method TopologicalOrder(selected: Catalog, available: set<Name>) returns (r: Result<seq<Name>, PlanError>)
    requires ValidCatalog(selected)
    ensures !AllSupplied(selected, available) ==> r.Failure? && (r.error.MissingProducer? || r.error.AmbiguousProducer?)
    ensures AllSupplied(selected, available) ==>
      var order := Greedy(DependencyGraph(selected, available), {});
      var left := selected.Keys - Elements(order);
      && (r.Success? <==> Topological(DependencyGraph(selected, available), order))
      && (r.Success? ==> r.value == order)
      && (r.Failure? ==> left != {} && r.error == DependencyCycle([Least(left), Least(left)]))
  {
    hide Greedy, Topological, Least, Supplier, AllSupplied, Inverse;
    var dependencies, dependents, error := BuildDependencies(selected, available);
    if error.Some? {
      return Failure(error.value);
    }
    var ordered := EmitInOrder(dependencies, dependents);
    LengthTest(dependencies);
    assert |dependencies| == |dependencies.Keys| == |selected.Keys| == |selected|;
    if |ordered| != |selected| {
      Unfinished(dependencies);
      var left := selected.Keys - Elements(ordered);
      return Failure(DependencyCycle([Least(left), Least(left)]));
    }
    return Success(ordered);
  }

  lemma Unfinished(graph: Dependencies)
    requires |Greedy(graph, {})| != |graph|
    ensures graph.Keys - Elements(Greedy(graph, {})) != {}
  {
    hide Greedy, Least, Ready;
    GreedyAdmissible(graph, {});
    var order := Greedy(graph, {});
    DistinctSize(order);
    assert Elements(order) <= graph.Keys && |graph.Keys| == |graph|;
    assert Elements(order) != graph.Keys;
    var c :| c in graph.Keys && c !in Elements(order);
    assert c in graph.Keys - Elements(order);
  }
}
