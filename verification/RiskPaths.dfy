/** Assessing every joined path once, and listing the assessments by priority
    (capabilities/risk_intelligence.py:115-173). */
module RiskPaths {
  import opened Prelude
  import opened Ordering
  import opened KnowledgeGraphs
  import opened Risk
  import opened RiskIntelligence
  import R = Runtime

  /** The path goes over two valid edges: the asset was observed to use the technology, and the technology
      matches the vulnerability. */
  ghost predicate Joins(index: NodeIndex, edges: set<Edge>, p: Path) {
    exists e, f :: e in edges && f in edges && Observes(index, e) && Matches(index, f) &&
                   e.source == p.asset && e.target == p.technology == f.source && f.target == p.vulnerability
  }

  function Weight(e: Edge): int {
    if e.confidence.None? then 0 else IdentityConfidence(e.confidence.value)
  }

  /** `_match_edge_preference_key`: more confidence first, then the sort key of edges. */
  predicate Prefers(rank: Edge -> nat, e: Edge, x: Edge) {
    Weight(e) > Weight(x) || (Weight(e) == Weight(x) && rank(e) <= rank(x))
  }

  ghost predicate BestMatch(rank: Edge -> nat, edges: set<Edge>, e: Edge) {
    e in edges && forall x | x in edges :: Prefers(rank, e, x)
  }

  method PickMatch(rank: Edge -> nat, edges: set<Edge>) returns (best: Edge)
    requires edges != {}
    ensures BestMatch(rank, edges, best)
  {
    best :| best in edges;
    var pending := edges;
    while pending != {}
      invariant pending <= edges && best in edges
      invariant forall x | x in edges - pending :: Prefers(rank, best, x)
      decreases pending
    {
      var e :| e in pending;
      ghost var done, was := edges - pending, best;
      pending := pending - {e};
      if !Prefers(rank, best, e) {
        best := e;
        forall x | x in done ensures Prefers(rank, e, x) {
          assert Prefers(rank, was, x);
        }
      }
    }
  }

  /** The assessment of a path by a best of its match edges. */
  ghost predicate Picked(index: NodeIndex, rank: Edge -> nat, edges: set<Edge>, p: Path, a: RiskAssessment) {
    && p.technology in index && index[p.technology].entity.TechnologyEntity?
    && p.vulnerability in index && index[p.vulnerability].entity.VulnerabilityEntity?
    && exists e :: BestMatch(rank, edges, e) &&
                   Assess(p, index[p.technology].entity.technology, index[p.vulnerability].entity.vulnerability, e) ==
                     Some(a)
  }

  type Assessments = map<Path, RiskAssessment>

  ghost predicate Grows(before: Assessments, after: Assessments) {
    forall p | p in before :: p in after && after[p] == before[p]
  }

  /** The table entry of a technology leads to vulnerability nodes. */
  ghost predicate Resolved(index: NodeIndex, t: string, entry: map<string, set<Edge>>) {
    && t in index && index[t].entity.TechnologyEntity?
    && forall v | v in entry :: entry[v] != {} && v in index && index[v].entity.VulnerabilityEntity?
  }

  method AssessVulnerabilities(index: NodeIndex, rank: Edge -> nat, asset: string, t: string,
                               entry: map<string, set<Edge>>, before: Assessments)
    returns (after: Assessments)
    requires Resolved(index, t, entry)
    ensures Grows(before, after)
    ensures forall p :: p in after <==>
              p in before || (p.asset == asset && p.technology == t && p.vulnerability in entry)
    ensures forall p | p in after && p !in before :: Picked(index, rank, entry[p.vulnerability], p, after[p])
  {
    hide Picked, BestMatch, Assess;
    after := before;
    var pending := entry.Keys;
    while pending != {}
      invariant pending <= entry.Keys && Grows(before, after)
      invariant forall p :: p in after <==>
                  p in before || (p.asset == asset && p.technology == t && p.vulnerability in entry.Keys - pending)
      invariant forall p | p in after && p !in before :: Picked(index, rank, entry[p.vulnerability], p, after[p])
      decreases pending
    {
      var v :| v in pending;
      pending := pending - {v};
      var p := Path(asset, t, v);
      var best := PickMatch(rank, entry[v]);
      var technology, vulnerability := index[t].entity.technology, index[v].entity.vulnerability;
      AssessAlwaysSucceeds(p, technology, vulnerability, best);
      var assessment := Assess(p, technology, vulnerability, best).value;
      PickedBy(index, rank, entry[v], p, assessment, best);
      if p !in after {
        after := after[p := assessment];
      }
    }
  }

  lemma PickedBy(index: NodeIndex, rank: Edge -> nat, edges: set<Edge>, p: Path, a: RiskAssessment, best: Edge)
    requires p.technology in index && index[p.technology].entity.TechnologyEntity?
    requires p.vulnerability in index && index[p.vulnerability].entity.VulnerabilityEntity?
    requires BestMatch(rank, edges, best)
    requires Assess(p, index[p.technology].entity.technology, index[p.vulnerability].entity.vulnerability, best) ==
             Some(a)
    ensures Picked(index, rank, edges, p, a)
  {
  }

  method AssessOwners(index: NodeIndex, rank: Edge -> nat, owners: set<string>, t: string,
                      entry: map<string, set<Edge>>, before: Assessments)
    returns (after: Assessments)
    requires Resolved(index, t, entry)
    ensures Grows(before, after)
    ensures forall p :: p in after <==>
              p in before || (p.asset in owners && p.technology == t && p.vulnerability in entry)
    ensures forall p | p in after && p !in before :: Picked(index, rank, entry[p.vulnerability], p, after[p])
  {
    hide Picked, Resolved;
    after := before;
    var pending := owners;
    while pending != {}
      invariant pending <= owners && Grows(before, after)
      invariant forall p :: p in after <==>
                  p in before || (p.asset in owners - pending && p.technology == t && p.vulnerability in entry)
      invariant forall p | p in after && p !in before :: Picked(index, rank, entry[p.vulnerability], p, after[p])
      decreases pending
    {
      var asset :| asset in pending;
      pending := pending - {asset};
      ghost var was := after;
      after := AssessVulnerabilities(index, rank, asset, t, entry, after);
      forall p | p in after && p !in before ensures Picked(index, rank, entry[p.vulnerability], p, after[p]) {
        if p in was {
          assert after[p] == was[p];
        }
      }
    }
  }

  /** The nested loops over technologies, assets and vulnerabilities. */
  method AssessPaths(index: NodeIndex, rank: Edge -> nat, owners: Owners, table: MatchTable)
    returns (assessments: Assessments)
    requires forall t | t in owners && t in table :: Resolved(index, t, table[t])
    ensures forall p :: p in assessments <==>
              p.asset in OwnerEntry(owners, p.technology) && p.vulnerability in Entry(table, p.technology)
    ensures forall p | p in assessments ::
            Picked(index, rank, MatchEntry(table, p.technology, p.vulnerability), p, assessments[p])
  {
    hide Picked, Resolved;
    assessments := map[];
    var pending := owners.Keys;
    while pending != {}
      invariant pending <= owners.Keys
      invariant forall p :: p in assessments <==>
                  p.technology in owners.Keys - pending && p.asset in OwnerEntry(owners, p.technology) &&
                  p.vulnerability in Entry(table, p.technology)
      invariant forall p | p in assessments ::
                Picked(index, rank, MatchEntry(table, p.technology, p.vulnerability), p, assessments[p])
      decreases pending
    {
      var t :| t in pending;
      pending := pending - {t};
      if t in table {
        ghost var was := assessments;
        assessments := AssessOwners(index, rank, owners[t], t, table[t], assessments);
        forall p | p in assessments
          ensures Picked(index, rank, MatchEntry(table, p.technology, p.vulnerability), p, assessments[p])
        {
          if p in was {
            assert assessments[p] == was[p];
          }
        }
      }
    }
  }

  lemma TableJoins(index: NodeIndex, edges: set<Edge>, owners: Owners, table: MatchTable, p: Path)
    requires Tabulated(index, edges, owners, table)
    ensures p.asset in OwnerEntry(owners, p.technology) && p.vulnerability in Entry(table, p.technology) <==>
            Joins(index, edges, p)
    ensures MatchEntry(table, p.technology, p.vulnerability) == MatchesOf(index, edges, p.technology, p.vulnerability)
  {
    hide ValidEdge, OwnerEntry;
    var t, v := p.technology, p.vulnerability;
    assert v in Entry(table, t) <==> MatchEntry(table, t, v) != {};
    assert OwnerEntry(owners, t) == OwnersOf(index, edges, t);
    if p.asset in OwnerEntry(owners, t) && v in Entry(table, t) {
      var e :| e in edges && Observes(index, e) && e.target == t && e.source == p.asset;
      var f :| f in MatchesOf(index, edges, t, v);
      assert e in edges && f in edges;
    }
    if Joins(index, edges, p) {
      var e, f :| e in edges && f in edges && Observes(index, e) && Matches(index, f) &&
                  e.source == p.asset && e.target == t == f.source && f.target == v;
      assert f in MatchesOf(index, edges, t, v);
    }
  }

  lemma TableResolves(index: NodeIndex, edges: set<Edge>, owners: Owners, table: MatchTable, t: string)
    requires Tabulated(index, edges, owners, table) && t in owners && t in table
    ensures Resolved(index, t, table[t])
  {
    assert OwnerEntry(owners, t) != {};
    var a :| a in OwnersOf(index, edges, t);
    forall v | v in table[t] ensures v in index && index[v].entity.VulnerabilityEntity? {
      assert MatchEntry(table, t, v) != {};
      var f :| f in MatchesOf(index, edges, t, v);
    }
  }

  /** The sort key of assessments: priority first, then the identifiers of the path. */
  predicate Before(order: Path -> nat, a: RiskAssessment, b: RiskAssessment) {
    a.priority > b.priority || (a.priority == b.priority && order(a.path) <= order(b.path))
  }

  ghost predicate Prioritized(order: Path -> nat, list: seq<RiskAssessment>) {
    forall i, j | 0 <= i < j < |list| :: list[i].path != list[j].path && Before(order, list[i], list[j])
  }

  method Prioritize(order: Path -> nat, assessments: Assessments) returns (list: seq<RiskAssessment>)
    requires forall p | p in assessments :: assessments[p].path == p
    ensures Prioritized(order, list)
    ensures forall a :: a in list <==> a.path in assessments && assessments[a.path] == a
  {
    list := SortBy((a: RiskAssessment, b: RiskAssessment) => Before(order, a, b), assessments.Values);
    assert forall a :: a in list <==> a in assessments.Values;
    forall i, j | 0 <= i < j < |list| ensures list[i].path != list[j].path {
      assert list[i] in list && list[j] in list;
    }
  }

  /** What is found in the pipeline state under the key of the graph. */
  datatype Input = Missing | Invalid | Present(graph: KnowledgeGraph)

  /** The list holds exactly one assessment for each joined path and nothing else; each is made by a best of
      the path's match edges; they come in order of priority. */
  ghost predicate AssessesJoin(index: NodeIndex, edges: set<Edge>, rank: Edge -> nat, order: Path -> nat,
                               list: seq<RiskAssessment>) {
    && Prioritized(order, list)
    && (forall p :: Joins(index, edges, p) <==> exists a :: a in list && a.path == p)
    && (forall a | a in list ::
        Picked(index, rank, MatchesOf(index, edges, a.path.technology, a.path.vulnerability), a.path, a))
  }

  /** `execute`. */
  method Execute(rank: Edge -> nat, order: Path -> nat, input: Input)
    returns (status: R.Status, list: seq<RiskAssessment>, ghost index: NodeIndex)
    ensures input.Missing? ==> status == R.FAILURE && list == []
    ensures input.Invalid? ==> status == R.ERROR && list == []
    ensures input.Present? ==>
            FirstNodes(input.graph.nodes, index) && AssessesJoin(index, Elements(input.graph.edges), rank, order, list)
    ensures input.Present? ==>
            status == if InvalidEdges(index, Elements(input.graph.edges)) != {} then R.PARTIAL else R.SUCCESS
  {
    hide Tabulated, Resolved, Picked, Prioritized, Joins, FirstNodes, InvalidEdges, OwnerEntry, MatchEntry, Entry;
    index := map[];
    if input.Missing? {
      return R.FAILURE, [], index;
    }
    if input.Invalid? {
      return R.ERROR, [], index;
    }
    var graph := input.graph;
    var indexed := IndexNodes(graph.nodes);
    index := indexed;
    var edges := Elements(graph.edges);
    var owners, table, skipped := Tabulate(indexed, edges);
    forall t | t in owners && t in table ensures Resolved(index, t, table[t]) {
      TableResolves(index, edges, owners, table, t);
    }
    var assessments := AssessPaths(indexed, rank, owners, table);
    forall p ensures p in assessments <==> Joins(index, edges, p)
      ensures p in assessments ==>
              assessments[p].path == p &&
              Picked(index, rank, MatchesOf(index, edges, p.technology, p.vulnerability), p, assessments[p])
    {
      TableJoins(index, edges, owners, table, p);
      if p in assessments {
        PickedPath(index, rank, MatchEntry(table, p.technology, p.vulnerability), p, assessments[p]);
      }
    }
    list := Prioritize(order, assessments);
    ListsJoin(index, edges, rank, order, assessments, list);
    status := if skipped > 0 then R.PARTIAL else R.SUCCESS;
  }

  lemma PickedPath(index: NodeIndex, rank: Edge -> nat, edges: set<Edge>, p: Path, a: RiskAssessment)
    requires Picked(index, rank, edges, p, a)
    ensures a.path == p
  {
    hide BestMatch, Factors, FirstOf, ConfidenceScore;
  }

  lemma ListsJoin(index: NodeIndex, edges: set<Edge>, rank: Edge -> nat, order: Path -> nat, assessments: Assessments,
                  list: seq<RiskAssessment>)
    requires forall p :: p in assessments <==> Joins(index, edges, p)
    requires forall p | p in assessments ::
             assessments[p].path == p &&
             Picked(index, rank, MatchesOf(index, edges, p.technology, p.vulnerability), p, assessments[p])
    requires Prioritized(order, list) && forall a :: a in list <==> a.path in assessments && assessments[a.path] == a
    ensures AssessesJoin(index, edges, rank, order, list)
  {
    hide Joins, Picked, Prioritized, MatchesOf;
    forall p ensures Joins(index, edges, p) <==> exists a :: a in list && a.path == p {
      if p in assessments {
        assert assessments[p] in list;
      }
    }
  }

  /** Of two matches of one technology and vulnerability, the more confident one is used: no match edge of an
      assessed path gives it more confidence than its own. */
  lemma MostConfident(index: NodeIndex, edges: set<Edge>, rank: Edge -> nat, a: RiskAssessment, x: Edge)
    requires var p := a.path;
             Picked(index, rank, MatchesOf(index, edges, p.technology, p.vulnerability), p, a) &&
               x in MatchesOf(index, edges, p.technology, p.vulnerability)
    ensures var p := a.path;
            var t, v := index[p.technology].entity.technology, index[p.vulnerability].entity.vulnerability;
            && Assess(p, t, v, x).Some? && (x.confidence.Some? ==> Assess(p, t, v, x).value.confidence <= a.confidence)
            && a.priority == Priority(v) && 0 <= a.priority <= 70
  {
    hide MatchesOf, Factors, FirstOf, CvssContribution;
    var p := a.path;
    var t, v := index[p.technology].entity.technology, index[p.vulnerability].entity.vulnerability;
    var e :| BestMatch(rank, MatchesOf(index, edges, p.technology, p.vulnerability), e) &&
      Assess(p, t, v, e) == Some(a);
    AssessAlwaysSucceeds(p, t, v, e);
    AssessAlwaysSucceeds(p, t, v, x);
  }
}
