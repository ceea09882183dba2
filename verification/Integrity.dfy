/** Referential integrity across asset intelligence, vulnerability intelligence, the knowledge graph and risk
    intelligence: nothing is skipped and every edge joins nodes of the right kinds. */
module Integrity {
  import opened Prelude
  import opened Recon
  import opened Strings
  import opened Assets
  import opened Vulnerabilities
  import opened KnowledgeGraphs
  import opened RiskIntelligence
  import opened Risk
  import AI = AssetIntelligence
  import VI = VulnerabilityIntelligence
  import P = RiskPaths
  import R = Runtime

  /** What the graph needs of its inputs: asset identifiers carry their prefix, and every relationship names a
      known asset or vulnerability. */
  ghost predicate Grounded(assets: seq<Asset>, associations: set<AI.Association>, i: Intelligence) {
    && (forall a | a in assets :: StartsWith(a.identifier, "asset:"))
    && (forall p | p in associations :: exists a | a in assets :: a.identifier == p.assetId)
    && (forall a | a in i.associations :: a.vulnerabilityId in i.vulnerabilities &&
          Strip(a.vulnerabilityId) == a.vulnerabilityId != [] && Blankless(a.product))
    && (forall id | id in i.vulnerabilities :: i.vulnerabilities[id].identifier == id && Strip(id) == id != [])
  }

  lemma AllAssetsKnown(assets: seq<Asset>, associations: set<AI.Association>, i: Intelligence, nodes: NodeIndex)
    requires Grounded(assets, associations, i) && AssetsIndexed(Elements(assets), nodes)
    ensures Known(nodes, associations) == associations
  {
    hide Strip;
    forall p | p in associations ensures p.assetId in nodes {
      var a :| a in assets && a.identifier == p.assetId;
      PrefixedIsNotBlank(a.identifier, "asset:");
    }
  }

  lemma AllVulnerabilitiesKnown(assets: seq<Asset>, associations: set<AI.Association>, i: Intelligence,
                                nodes: NodeIndex)
    requires Grounded(assets, associations, i) && VulnerabilitiesIndexed(i.vulnerabilities.Values, nodes)
    ensures Matchable(nodes, i.associations) == i.associations
  {
    hide Strip, Blankless;
    forall a | a in i.associations ensures a.vulnerabilityId in nodes {
      assert i.vulnerabilities[a.vulnerabilityId] in i.vulnerabilities.Values;
    }
  }

  lemma AssetLetter(identifier: string)
    requires StartsWith(identifier, "asset:")
    ensures |"graph:" + identifier| > 6 && ("graph:" + identifier)[6] == 'a'
  {
    assert identifier[0] == 'a';
  }

  lemma VulnerabilityLetter(identifier: string)
    ensures |"graph:vulnerability:" + identifier| > 6 && ("graph:vulnerability:" + identifier)[6] == 'v'
  {
  }

  lemma TechnologyLetter(digest: Technology -> string, t: Technology)
    ensures var n := TechnologyNode(digest, t);
            |n.identifier| > 6 && n.identifier[6] == 't' && n.kind == TECHNOLOGY &&
            n.entity == TechnologyEntity(t)
  {
  }

  /** Which kind of node an identifier of the graph can belong to is decided by its prefix. */
  lemma NodeKinds(digest: Technology -> string, technologies: set<Technology>, assets: seq<Asset>,
                  vulnerabilities: set<Vulnerability>, assetNodes: NodeIndex, vulnerabilityNodes: NodeIndex,
                  index: NodeIndex, id: string)
    requires AssetsIndexed(Elements(assets), assetNodes) && VulnerabilitiesIndexed(vulnerabilities, vulnerabilityNodes)
    requires forall a | a in assets :: StartsWith(a.identifier, "asset:")
    requires NodesOf(digest, technologies, assetNodes, vulnerabilityNodes, index) && id in index
    ensures |id| > 6
    ensures id[6] == 'a' ==> index[id].kind == ASSET && index[id].entity.AssetEntity?
    ensures id[6] == 'v' ==> index[id].kind == VULNERABILITY && index[id].entity.VulnerabilityEntity?
    ensures id[6] == 't' ==> exists t | t in technologies :: index[id] == TechnologyNode(digest, t)
  {
    hide Strip, TechnologyNode, NodesOf;
    var n := index[id];
    NodeOrigin(digest, technologies, assetNodes, vulnerabilityNodes, index, id);
    if k :| k in vulnerabilityNodes && n == vulnerabilityNodes[k] {
      var v :| v in vulnerabilities && n == VulnerabilityNode(v);
      VulnerabilityLetter(Strip(v.identifier));
    } else if k :| k in assetNodes && n == assetNodes[k] {
      var a :| a in Elements(assets) && n == AssetNode(a);
      AssetLetter(a.identifier);
    } else {
      var t :| t in technologies && n == TechnologyNode(digest, t);
      TechnologyLetter(digest, t);
    }
  }

  lemma NodeOrigin(digest: Technology -> string, technologies: set<Technology>, assetNodes: NodeIndex,
                   vulnerabilityNodes: NodeIndex, index: NodeIndex, id: string)
    requires NodesOf(digest, technologies, assetNodes, vulnerabilityNodes, index) && id in index
    ensures index[id].identifier == id && Origin(digest, technologies, assetNodes, vulnerabilityNodes, id, index[id])
  {
    hide Origin;
  }

  /** A grounded graph skips nothing, and each of its edges is valid. */
  lemma GraphIsSound(digest: Technology -> string, assets: seq<Asset>, associations: set<AI.Association>,
                     i: Intelligence, assetNodes: NodeIndex, vulnerabilityNodes: NodeIndex, index: NodeIndex,
                     graph: KnowledgeGraph)
    requires Grounded(assets, associations, i)
    requires AssetsIndexed(Elements(assets), assetNodes) &&
             VulnerabilitiesIndexed(i.vulnerabilities.Values, vulnerabilityNodes)
    requires Snapshot(digest, associations, i.associations, assetNodes, vulnerabilityNodes, index, graph)
    ensures forall e | e in graph.edges :: ValidEdge(index, e)
  {
    hide AssetsIndexed, VulnerabilitiesIndexed, Lists, NodesOf, ObservedEdges, MatchEdges;
    AllAssetsKnown(assets, associations, i, assetNodes);
    AllVulnerabilitiesKnown(assets, associations, i, vulnerabilityNodes);
    forall e | e in graph.edges ensures ValidEdge(index, e) {
      assert e in Elements(graph.edges);
      var technologies := AI.ObservedTechnologies(associations) + MatchedTechnologies(i.associations);
      if e in ObservedEdges(digest, associations) {
        ObservedIsValid(digest, technologies, assets, associations, i, assetNodes, vulnerabilityNodes, index, e);
      } else {
        MatchIsValid(digest, technologies, assets, associations, i, assetNodes, vulnerabilityNodes, index, e);
      }
    }
  }

  /** Nor does it leave out any relationship. */
  lemma NothingOmitted(assets: seq<Asset>, associations: seq<AI.Association>, matches: seq<VulnerabilityAssociation>,
                       i: Intelligence, assetNodes: NodeIndex, vulnerabilityNodes: NodeIndex)
    requires Grounded(assets, Elements(associations), i) && Elements(matches) == i.associations
    requires AssetsIndexed(Elements(assets), assetNodes) &&
             VulnerabilitiesIndexed(i.vulnerabilities.Values, vulnerabilityNodes)
    ensures Omitted(associations, matches, assetNodes, vulnerabilityNodes) == 0
  {
    hide AssetsIndexed, VulnerabilitiesIndexed, Known, Matchable, Grounded;
    AllAssetsKnown(assets, Elements(associations), i, assetNodes);
    AllVulnerabilitiesKnown(assets, Elements(associations), i, vulnerabilityNodes);
    NothingDropped(associations, Elements(associations));
    NothingDropped(matches, Elements(matches));
  }

  lemma {:induction false} NothingDropped<T>(all: seq<T>, kept: set<T>)
    requires forall x | x in all :: x in kept
    ensures Dropped(all, kept) == 0
  {
    if all != [] {
      assert all[|all| - 1] in all;
      NothingDropped(all[..|all| - 1], kept);
    }
  }

  lemma ObservedIsValid(digest: Technology -> string, technologies: set<Technology>, assets: seq<Asset>,
                        associations: set<AI.Association>, i: Intelligence, assetNodes: NodeIndex,
                        vulnerabilityNodes: NodeIndex, index: NodeIndex, e: Edge)
    requires Grounded(assets, associations, i) && AI.ObservedTechnologies(associations) <= technologies
    requires AssetsIndexed(Elements(assets), assetNodes) &&
             VulnerabilitiesIndexed(i.vulnerabilities.Values, vulnerabilityNodes)
    requires NodesOf(digest, technologies, assetNodes, vulnerabilityNodes, index) &&
             e in ObservedEdges(digest, associations)
    ensures ValidEdge(index, e)
  {
    hide AssetsIndexed, VulnerabilitiesIndexed, Strip, NodesOf, TechnologyNode;
    var p :| p in associations && e == ObservedEdge(digest, p);
    var a :| a in assets && a.identifier == p.assetId;
    AssetLetter(a.identifier);
    TechnologyLetter(digest, p.technology);
    assert p.technology in AI.ObservedTechnologies(associations);
    AssetPresent(digest, technologies, assets, assetNodes, vulnerabilityNodes, index, a);
    TechnologyPresent(digest, technologies, assetNodes, vulnerabilityNodes, index, p.technology);
    hide Grounded;
    NodeKinds(digest, technologies, assets, i.vulnerabilities.Values, assetNodes, vulnerabilityNodes, index, e.source);
    NodeKinds(digest, technologies, assets, i.vulnerabilities.Values, assetNodes, vulnerabilityNodes, index, e.target);
    var t :| t in technologies && index[e.target] == TechnologyNode(digest, t);
    TechnologyLetter(digest, t);
  }

  lemma AssetPresent(digest: Technology -> string, technologies: set<Technology>, assets: seq<Asset>,
                     assetNodes: NodeIndex, vulnerabilityNodes: NodeIndex, index: NodeIndex, a: Asset)
    requires AssetsIndexed(Elements(assets), assetNodes) &&
             NodesOf(digest, technologies, assetNodes, vulnerabilityNodes, index)
    requires a in assets && StartsWith(a.identifier, "asset:")
    ensures "graph:" + a.identifier in index
  {
    hide Strip, Origin;
    PrefixedIsNotBlank(a.identifier, "asset:");
    assert a in Elements(assets) && assetNodes[a.identifier].identifier == "graph:" + a.identifier;
  }

  lemma TechnologyPresent(digest: Technology -> string, technologies: set<Technology>, assetNodes: NodeIndex,
                          vulnerabilityNodes: NodeIndex, index: NodeIndex, t: Technology)
    requires NodesOf(digest, technologies, assetNodes, vulnerabilityNodes, index) && t in technologies
    ensures TechnologyNode(digest, t).identifier in index
  {
    hide Origin;
  }

  lemma VulnerabilityPresent(digest: Technology -> string, technologies: set<Technology>,
                             vulnerabilities: set<Vulnerability>, assetNodes: NodeIndex, vulnerabilityNodes: NodeIndex,
                             index: NodeIndex, v: Vulnerability)
    requires VulnerabilitiesIndexed(vulnerabilities, vulnerabilityNodes) &&
             NodesOf(digest, technologies, assetNodes, vulnerabilityNodes, index)
    requires v in vulnerabilities && Strip(v.identifier) == v.identifier != []
    ensures "graph:vulnerability:" + v.identifier in index
  {
    hide Strip, Origin;
    assert vulnerabilityNodes[v.identifier].identifier == "graph:vulnerability:" + v.identifier;
  }

  lemma MatchIsValid(digest: Technology -> string, technologies: set<Technology>, assets: seq<Asset>,
                     associations: set<AI.Association>, i: Intelligence, assetNodes: NodeIndex,
                     vulnerabilityNodes: NodeIndex, index: NodeIndex, e: Edge)
    requires Grounded(assets, associations, i) && MatchedTechnologies(i.associations) <= technologies
    requires AssetsIndexed(Elements(assets), assetNodes) &&
             VulnerabilitiesIndexed(i.vulnerabilities.Values, vulnerabilityNodes)
    requires NodesOf(digest, technologies, assetNodes, vulnerabilityNodes, index) &&
             e in MatchEdges(digest, i.associations)
    ensures ValidEdge(index, e)
  {
    hide AssetsIndexed, VulnerabilitiesIndexed, Strip, NodesOf, TechnologyNode, Blankless;
    var a :| a in i.associations && e == MatchEdge(digest, a);
    var v := i.vulnerabilities[a.vulnerabilityId];
    assert v in i.vulnerabilities.Values;
    VulnerabilityLetter(v.identifier);
    TechnologyLetter(digest, a.technology);
    assert a.technology in MatchedTechnologies(i.associations);
    VulnerabilityPresent(digest, technologies, i.vulnerabilities.Values, assetNodes, vulnerabilityNodes, index, v);
    TechnologyPresent(digest, technologies, assetNodes, vulnerabilityNodes, index, a.technology);
    NodeKinds(digest, technologies, assets, i.vulnerabilities.Values, assetNodes, vulnerabilityNodes, index, e.source);
    NodeKinds(digest, technologies, assets, i.vulnerabilities.Values, assetNodes, vulnerabilityNodes, index, e.target);
    var t :| t in technologies && index[e.source] == TechnologyNode(digest, t);
    TechnologyLetter(digest, t);
  }

  /** The node a graph holds for an observation is the observation itself, when digests tell technologies apart. */
  lemma TechnologyNodesFaithful(digest: Technology -> string, technologies: set<Technology>, assets: seq<Asset>,
                                vulnerabilities: set<Vulnerability>, assetNodes: NodeIndex,
                                vulnerabilityNodes: NodeIndex, index: NodeIndex, t: Technology)
    requires Injective(digest) && t in technologies
    requires AssetsIndexed(Elements(assets), assetNodes) && VulnerabilitiesIndexed(vulnerabilities, vulnerabilityNodes)
    requires forall a | a in assets :: StartsWith(a.identifier, "asset:")
    requires NodesOf(digest, technologies, assetNodes, vulnerabilityNodes, index)
    ensures var id := TechnologyNode(digest, t).identifier; id in index && index[id] == TechnologyNode(digest, t)
  {
    hide AssetsIndexed, VulnerabilitiesIndexed, Origin;
    var id := TechnologyNode(digest, t).identifier;
    NodeKinds(digest, technologies, assets, vulnerabilities, assetNodes, vulnerabilityNodes, index, id);
    assert id[6] == 't';
    var u :| u in technologies && index[id] == TechnologyNode(digest, u);
    assert TechnologyNode(digest, u).identifier[29..] == digest(u) && id[29..] == digest(t);
  }

  /** The path an asset, a technology and a vulnerability make in the graph. */
  function PathOf(digest: Technology -> string, x: AI.Association, a: VulnerabilityAssociation): Path {
    Path("graph:" + x.assetId, TechnologyNode(digest, a.technology).identifier,
         "graph:vulnerability:" + a.vulnerabilityId)
  }

  lemma SameObservation(digest: Technology -> string, t: Technology, u: Technology)
    requires Injective(digest) && TechnologyNode(digest, t).identifier == TechnologyNode(digest, u).identifier
    ensures t == u
  {
    assert TechnologyNode(digest, t).identifier[29..] == digest(t) &&
           TechnologyNode(digest, u).identifier[29..] == digest(u);
  }

  /** In a grounded graph the joined paths are exactly those of an observed technology and a vulnerability
      associated with that same technology. */
  lemma JoinIsOfAssociations(digest: Technology -> string, associations: set<AI.Association>,
                             matches: set<VulnerabilityAssociation>, index: NodeIndex, edges: set<Edge>, p: Path)
    requires Injective(digest) && edges == ObservedEdges(digest, associations) + MatchEdges(digest, matches)
    requires forall e | e in edges :: ValidEdge(index, e)
    ensures P.Joins(index, edges, p) <==>
            exists x, a :: x in associations && a in matches && x.technology == a.technology &&
              p == PathOf(digest, x, a)
  {
    hide ValidEdge, TechnologyNode;
    if P.Joins(index, edges, p) {
      var e, f :| e in edges && f in edges && Observes(index, e) && Matches(index, f) &&
                  e.source == p.asset && e.target == p.technology == f.source && f.target == p.vulnerability;
      var x :| x in associations && e == ObservedEdge(digest, x);
      var a :| a in matches && f == MatchEdge(digest, a);
      SameObservation(digest, x.technology, a.technology);
      assert p == PathOf(digest, x, a);
    }
    if x, a :| x in associations && a in matches && x.technology == a.technology && p == PathOf(digest, x, a) {
      var e, f := ObservedEdge(digest, x), MatchEdge(digest, a);
      assert e in edges && f in edges;
      assert Observes(index, e) && Matches(index, f);
    }
  }

  lemma ListedNodesIndex(index: NodeIndex, nodes: seq<Node>, found: NodeIndex)
    requires Lists(index, nodes) && FirstNodes(nodes, found)
    requires forall id | id in index :: index[id].identifier == id
    ensures found == index
  {
    forall id | id in index ensures id in found {
      assert index[id] in nodes;
    }
    forall id | id in found ensures id in index && found[id] == index[id] {
      assert found[id] in nodes;
    }
  }

  lemma ReadModelsGrounded(naming: Naming, q: Inputs, assets: seq<Asset>, associations: set<AI.Association>,
                           i: Intelligence)
    requires Describes(naming, q, assets) && AI.Associates(naming, q.technologies, assets, associations)
    requires forall a | a in i.associations :: a.vulnerabilityId in i.vulnerabilities &&
               Strip(a.vulnerabilityId) == a.vulnerabilityId != []
                                               && a.product.scheme == "cpe23" && StartsWith(a.product.value, "cpe:2.3:")
    requires forall id | id in i.vulnerabilities :: i.vulnerabilities[id].identifier == id && Strip(id) == id != []
    ensures Grounded(assets, associations, i)
  {
    hide Inputs.AddedSets, IsComponent, HostMeets, EndpointMeets, Strip, Naming.SourceAlias;
    forall a | a in assets ensures StartsWith(a.identifier, "asset:") {
      assert Reports(naming, q, a);
    }
    forall p | p in associations ensures exists a | a in assets :: a.identifier == p.assetId {
      var x :| x in assets && naming.SourceAlias(p.technology).value in x.aliases && p.assetId == x.identifier;
    }
    forall a | a in i.associations ensures Blankless(a.product) {
      PrefixedIsNotBlank(a.product.scheme, "cpe23");
      PrefixedIsNotBlank(a.product.value, "cpe:2.3:");
    }
  }

  /** The match edges that relate one technology to one vulnerability. */
  ghost function MatchesFor(digest: Technology -> string, matches: set<VulnerabilityAssociation>,
                            v: VulnerabilityAssociation): set<Edge> {
    set w | w in matches && w.technology == v.technology && w.vulnerabilityId == v.vulnerabilityId ::
      MatchEdge(digest, w)
  }

  /** The assessment of an observed technology and a vulnerability associated with it, made by a best of the
      associations between the two. */
  ghost predicate AssessmentOf(digest: Technology -> string, rank: Edge -> nat, i: Intelligence, x: AI.Association,
                               v: VulnerabilityAssociation, a: RiskAssessment) {
    && x.technology == v.technology && a.path == PathOf(digest, x, v) && v.vulnerabilityId in i.vulnerabilities
    && exists e :: P.BestMatch(rank, MatchesFor(digest, i.associations, v), e) &&
                   Assess(a.path, v.technology, i.vulnerabilities[v.vulnerabilityId], e) == Some(a)
  }

  /** The assessments of a run, in terms of what was observed and what the provider reported: one for each pair of an
      observed technology and a vulnerability associated with it, and no other. */
  ghost predicate AssessesObservations(env: Environment, associations: set<AI.Association>, i: Intelligence,
                                       list: seq<RiskAssessment>) {
    && P.Prioritized(env.pathOrder, list)
    && (forall x, v | x in associations && v in i.associations && x.technology == v.technology ::
          exists a :: a in list && a.path == PathOf(env.digest, x, v))
    && (forall a | a in list ::
          exists x, v :: x in associations && v in i.associations && AssessmentOf(env.digest, env.edgeRank, i, x, v, a))
  }

  lemma MatchesAreAssociations(digest: Technology -> string, associations: set<AI.Association>,
                               matches: set<VulnerabilityAssociation>, index: NodeIndex, edges: set<Edge>,
                               v: VulnerabilityAssociation)
    requires Injective(digest) && edges == ObservedEdges(digest, associations) + MatchEdges(digest, matches)
    requires forall e | e in edges :: ValidEdge(index, e)
    ensures MatchesOf(index, edges, TechnologyNode(digest, v.technology).identifier,
                      "graph:vulnerability:" + v.vulnerabilityId) ==
            MatchesFor(digest, matches, v)
  {
    hide ValidEdge, TechnologyNode;
    var t, id := TechnologyNode(digest, v.technology).identifier, "graph:vulnerability:" + v.vulnerabilityId;
    forall e ensures e in MatchesOf(index, edges, t, id) <==> e in MatchesFor(digest, matches, v) {
      if e in MatchesOf(index, edges, t, id) {
        var w :| w in matches && e == MatchEdge(digest, w);
        SameObservation(digest, w.technology, v.technology);
        assert w.vulnerabilityId == e.target[20..] == v.vulnerabilityId;
      }
      if e in MatchesFor(digest, matches, v) {
        assert e in MatchEdges(digest, matches) && Matches(index, e);
      }
    }
  }

  /** The node of a reported vulnerability holds that very vulnerability. */
  lemma VulnerabilityNodesFaithful(digest: Technology -> string, technologies: set<Technology>, assets: seq<Asset>,
                                   associations: set<AI.Association>, i: Intelligence, assetNodes: NodeIndex,
                                   vulnerabilityNodes: NodeIndex, index: NodeIndex, id: string)
    requires Grounded(assets, associations, i) && VulnerabilitiesIndexed(i.vulnerabilities.Values, vulnerabilityNodes)
    requires NodesOf(digest, technologies, assetNodes, vulnerabilityNodes, index) && id in i.vulnerabilities
    ensures var node := "graph:vulnerability:" + id;
            node in index &&
            index[node].entity == VulnerabilityEntity(i.vulnerabilities[id])
  {
    hide Strip, Origin, Blankless;
    assert i.vulnerabilities[id] in i.vulnerabilities.Values;
    var v :| v in i.vulnerabilities.Values && Strip(v.identifier) == id &&
      vulnerabilityNodes[id] == VulnerabilityNode(v);
    assert v == i.vulnerabilities[id];
    assert vulnerabilityNodes[id].identifier == "graph:vulnerability:" + id;
  }

  /** The parameters of a run: naming, provider, digests and sort keys, all arbitrary. */
  datatype Environment = Environment(
    naming: Naming, associationRank: AI.Association -> nat,
    lex: Lexicon, provider: Provider, technologyRank: Technology -> nat, matchRank: VulnerabilityAssociation -> nat,
    digest: Technology -> string, keys: SortKeys, edgeRank: Edge -> nat, pathOrder: Path -> nat)

  /** What is listed for the graph of a run is what was observed. */
  lemma ListedIsObserved(env: Environment, assets: seq<Asset>, associations: set<AI.Association>, i: Intelligence,
                         assetNodes: NodeIndex, vulnerabilityNodes: NodeIndex, index: NodeIndex, graph: KnowledgeGraph,
                         list: seq<RiskAssessment>)
    requires Injective(env.digest) && Grounded(assets, associations, i)
    requires AssetsIndexed(Elements(assets), assetNodes) &&
             VulnerabilitiesIndexed(i.vulnerabilities.Values, vulnerabilityNodes)
    requires Snapshot(env.digest, associations, i.associations, assetNodes, vulnerabilityNodes, index, graph)
    requires P.AssessesJoin(index, Elements(graph.edges), env.edgeRank, env.pathOrder, list)
    ensures AssessesObservations(env, associations, i, list)
  {
    hide *;
    GraphIsSound(env.digest, assets, associations, i, assetNodes, vulnerabilityNodes, index, graph);
    NoneInvalid(index, graph.edges);
    SnapshotEdges(env.digest, assets, associations, i, assetNodes, vulnerabilityNodes, index, graph);
    EachJoinListed(env, associations, i, index, Elements(graph.edges), list);
    forall a | a in list
      ensures exists x, v :: x in associations && v in i.associations &&
                AssessmentOf(env.digest, env.edgeRank, i, x, v, a)
    {
      var x, v := EachListedJoins(env, associations, i, index, Elements(graph.edges), list, a);
      PickedIsAssessment(env, assets, associations, i, assetNodes, vulnerabilityNodes, index, graph, x, v, a);
    }
    ObservationsAssessed(env, associations, i, index, Elements(graph.edges), list);
  }

  lemma EachJoinListed(env: Environment, associations: set<AI.Association>, i: Intelligence, index: NodeIndex,
                       edges: set<Edge>, list: seq<RiskAssessment>)
    requires Injective(env.digest) && edges == ObservedEdges(env.digest, associations) +
             MatchEdges(env.digest, i.associations)
    requires (forall e | e in edges :: ValidEdge(index, e)) &&
             P.AssessesJoin(index, edges, env.edgeRank, env.pathOrder, list)
    ensures forall x, v | x in associations && v in i.associations && x.technology == v.technology ::
              exists a :: a in list && a.path == PathOf(env.digest, x, v)
  {
    hide ObservedEdges, MatchEdges, ValidEdge, Injective, PathOf, P.Joins, P.Picked, P.Prioritized;
    forall x, v | x in associations && v in i.associations && x.technology == v.technology
      ensures exists a :: a in list && a.path == PathOf(env.digest, x, v)
    {
      JoinIsOfAssociations(env.digest, associations, i.associations, index, edges, PathOf(env.digest, x, v));
    }
  }

  lemma EachListedJoins(env: Environment, associations: set<AI.Association>, i: Intelligence, index: NodeIndex,
                        edges: set<Edge>, list: seq<RiskAssessment>, a: RiskAssessment)
    returns (x: AI.Association, v: VulnerabilityAssociation)
    requires Injective(env.digest) && edges == ObservedEdges(env.digest, associations) +
             MatchEdges(env.digest, i.associations)
    requires (forall e | e in edges :: ValidEdge(index, e)) &&
             P.AssessesJoin(index, edges, env.edgeRank, env.pathOrder, list) && a in list
    ensures x in associations && v in i.associations && x.technology == v.technology &&
            a.path == PathOf(env.digest, x, v)
    ensures P.Picked(index, env.edgeRank, MatchesOf(index, edges, a.path.technology, a.path.vulnerability), a.path, a)
  {
    hide ObservedEdges, MatchEdges, ValidEdge, Injective, PathOf, P.Joins, P.Picked, P.Prioritized;
    JoinIsOfAssociations(env.digest, associations, i.associations, index, edges, a.path);
    x, v :| x in associations && v in i.associations && x.technology == v.technology &&
      a.path == PathOf(env.digest, x, v);
  }

  lemma ObservationsAssessed(env: Environment, associations: set<AI.Association>, i: Intelligence, index: NodeIndex,
                             edges: set<Edge>, list: seq<RiskAssessment>)
    requires P.AssessesJoin(index, edges, env.edgeRank, env.pathOrder, list)
    requires forall x, v | x in associations && v in i.associations && x.technology == v.technology ::
               exists a :: a in list && a.path == PathOf(env.digest, x, v)
    requires forall a | a in list ::
               exists x, v :: x in associations && v in i.associations &&
                 AssessmentOf(env.digest, env.edgeRank, i, x, v, a)
    ensures AssessesObservations(env, associations, i, list)
  {
    hide PathOf, P.Joins, P.Picked, P.Prioritized, AssessmentOf;
  }

  lemma PickedIsAssessment(env: Environment, assets: seq<Asset>, associations: set<AI.Association>, i: Intelligence,
                           assetNodes: NodeIndex, vulnerabilityNodes: NodeIndex, index: NodeIndex,
                           graph: KnowledgeGraph, x: AI.Association, v: VulnerabilityAssociation, a: RiskAssessment)
    requires Injective(env.digest) && Grounded(assets, associations, i)
    requires AssetsIndexed(Elements(assets), assetNodes) &&
             VulnerabilitiesIndexed(i.vulnerabilities.Values, vulnerabilityNodes)
    requires Snapshot(env.digest, associations, i.associations, assetNodes, vulnerabilityNodes, index, graph)
    requires x in associations && v in i.associations && x.technology == v.technology &&
             a.path == PathOf(env.digest, x, v)
    requires P.Picked(index, env.edgeRank,
                      MatchesOf(index, Elements(graph.edges), a.path.technology, a.path.vulnerability), a.path, a)
    ensures AssessmentOf(env.digest, env.edgeRank, i, x, v, a)
  {
    hide AssetsIndexed, VulnerabilitiesIndexed, Lists, ObservedEdges, MatchEdges, ValidEdge, NodesOf, Injective,
      P.BestMatch, Assess, MatchesFor, MatchesOf, TechnologyNode, Strip, Blankless;
    AllAssetsKnown(assets, associations, i, assetNodes);
    AllVulnerabilitiesKnown(assets, associations, i, vulnerabilityNodes);
    GraphIsSound(env.digest, assets, associations, i, assetNodes, vulnerabilityNodes, index, graph);
    var technologies := AI.ObservedTechnologies(associations) + MatchedTechnologies(i.associations);
    assert v.technology in technologies;
    TechnologyNodesFaithful(env.digest, technologies, assets, i.vulnerabilities.Values, assetNodes, vulnerabilityNodes,
                            index, v.technology);
    VulnerabilityNodesFaithful(env.digest, technologies, assets, associations, i, assetNodes, vulnerabilityNodes,
                               index, v.vulnerabilityId);
    MatchesAreAssociations(env.digest, associations, i.associations, index, Elements(graph.edges), v);
    TechnologyLetter(env.digest, v.technology);
  }

  /** The four stages, each fed with the outputs of the ones before.  Asset intelligence describes the inputs,
      vulnerability intelligence is what the lookups of the observed technologies support, the graph holds exactly the
      relationships of both and skips none, and, when digests tell technologies apart, the risk stage assesses
      exactly the observed technologies with their vulnerabilities. */
  method Analyze(env: Environment, q: Inputs)
    returns (analyzed: bool, graphStatus: R.Status, riskStatus: R.Status, list: seq<RiskAssessment>,
             ghost model: AI.ReadModel, ghost status: R.Status, ghost i: Intelligence, ghost o: Observations,
             ghost representatives: map<Key, Technology>, ghost index: NodeIndex, ghost graph: KnowledgeGraph)
    ensures analyzed <==> forall x | x in q.hosts :: env.naming.HostAliases(x) != {}
    ensures analyzed ==> Describes(env.naming, q, model.assets)
    ensures analyzed ==> AI.Associates(env.naming, q.technologies, model.assets, Elements(model.associations))
    ensures analyzed ==> Grouped(env.lex, AI.ObservedTechnologies(Elements(model.associations)), o)
    ensures analyzed ==> Chosen(env.technologyRank, o, representatives) && Asked(env.lex, representatives)
    ensures analyzed ==>
              if status == R.ERROR then i == Intelligence(map[], {})
              else Gathered(env.lex, env.provider, o, representatives, o.Keys, i) &&
                   FirstReports(env.lex, env.provider, representatives, o.Keys, i)
    ensures analyzed ==>
              (status == R.ERROR <==>
               exists k :: k in representatives && LookUp(env.lex, env.provider, representatives[k]) == Broke)
    ensures analyzed ==> graphStatus == riskStatus == R.SUCCESS
    ensures analyzed ==>
              Elements(graph.edges) == ObservedEdges(env.digest, Elements(model.associations)) +
                MatchEdges(env.digest, i.associations)
    ensures analyzed ==> (forall e | e in graph.edges :: ValidEdge(index, e)) && Lists(index, graph.nodes)
    ensures analyzed ==> P.AssessesJoin(index, Elements(graph.edges), env.edgeRank, env.pathOrder, list)
    ensures analyzed && Injective(env.digest) ==> AssessesObservations(env, Elements(model.associations), i, list)
  {
    hide *;
    index, graph, list := map[], KnowledgeGraph([], []), [];
    model, status, i, o, representatives := AI.ReadModel([], [], 0), R.SUCCESS, Intelligence(map[], {}), map[], map[];
    graphStatus, riskStatus := R.SUCCESS, R.SUCCESS;
    var assetModel := AI.Execute(env.naming, env.associationRank, q);
    if assetModel.None? {
      analyzed := false;
      return;
    }
    model := assetModel.value;
    var assets, associations := assetModel.value.assets, assetModel.value.associations;
    var lookupStatus, report, found, observations, chosen :=
      VI.Execute(env.lex, env.provider, env.technologyRank, env.matchRank, Elements(associations));
    status, i, o, representatives := lookupStatus, found, observations, chosen;
    IntelligenceGrounded(env, status, Elements(associations), i, o, representatives);
    ReadModelsGrounded(env.naming, q, assets, Elements(associations), i);
    Published(env.matchRank, i, report);
    var built, skipped;
    ghost var assetNodes, vulnerabilityNodes;
    graphStatus, built, skipped, assetNodes, vulnerabilityNodes, index :=
      Execute(env.digest, env.keys, assets, associations, report.vulnerabilities, report.associations);
    graph := built;
    NothingOmitted(assets, associations, report.associations, i, assetNodes, vulnerabilityNodes);
    GraphIsSound(env.digest, assets, Elements(associations), i, assetNodes, vulnerabilityNodes, index, built);
    SnapshotEdges(env.digest, assets, Elements(associations), i, assetNodes, vulnerabilityNodes, index, built);
    SnapshotLists(env.digest, Elements(associations), i.associations, assetNodes, vulnerabilityNodes, index, built);
    ghost var indexed;
    riskStatus, list, indexed := P.Execute(env.edgeRank, env.pathOrder, P.Present(built));
    ListedNodesIndex(index, built.nodes, indexed);
    NoneInvalid(index, built.edges);
    if Injective(env.digest) {
      ListedIsObserved(env, assets, Elements(associations), i, assetNodes, vulnerabilityNodes, index, built, list);
    }
    analyzed := true;
  }

  lemma Published(rank: VulnerabilityAssociation -> nat, i: Intelligence, r: VI.Report)
    requires VI.Publishes(rank, i, r)
    ensures Elements(r.vulnerabilities) == i.vulnerabilities.Values && Elements(r.associations) == i.associations
  {
  }

  lemma NoneInvalid(index: NodeIndex, edges: seq<Edge>)
    requires forall e | e in edges :: ValidEdge(index, e)
    ensures InvalidEdges(index, Elements(edges)) == {} && forall e | e in Elements(edges) :: ValidEdge(index, e)
  {
  }

  lemma SnapshotEdges(digest: Technology -> string, assets: seq<Asset>, associations: set<AI.Association>,
                      i: Intelligence, assetNodes: NodeIndex, vulnerabilityNodes: NodeIndex, index: NodeIndex,
                      graph: KnowledgeGraph)
    requires Grounded(assets, associations, i)
    requires AssetsIndexed(Elements(assets), assetNodes) &&
             VulnerabilitiesIndexed(i.vulnerabilities.Values, vulnerabilityNodes)
    requires Snapshot(digest, associations, i.associations, assetNodes, vulnerabilityNodes, index, graph)
    ensures Elements(graph.edges) == ObservedEdges(digest, associations) + MatchEdges(digest, i.associations)
  {
    hide AssetsIndexed, VulnerabilitiesIndexed, Lists, NodesOf, ObservedEdges, MatchEdges, Grounded;
    AllAssetsKnown(assets, associations, i, assetNodes);
    AllVulnerabilitiesKnown(assets, associations, i, vulnerabilityNodes);
  }

  lemma SnapshotLists(digest: Technology -> string, associations: set<AI.Association>,
                      matches: set<VulnerabilityAssociation>, assetNodes: NodeIndex, vulnerabilityNodes: NodeIndex,
                      index: NodeIndex, graph: KnowledgeGraph)
    requires Snapshot(digest, associations, matches, assetNodes, vulnerabilityNodes, index, graph)
    ensures Lists(index, graph.nodes) && forall id | id in index :: index[id].identifier == id
  {
    hide Lists, Origin;
  }

  lemma IntelligenceGrounded(env: Environment, status: R.Status, associations: set<AI.Association>, i: Intelligence,
                             o: Observations, representatives: map<Key, Technology>)
    requires Grouped(env.lex, AI.ObservedTechnologies(associations), o) &&
             Chosen(env.technologyRank, o, representatives) && Asked(env.lex, representatives)
    requires status == R.ERROR ==> i == Intelligence(map[], {})
    requires status != R.ERROR ==> Gathered(env.lex, env.provider, o, representatives, o.Keys, i)
    ensures forall a | a in i.associations :: a.vulnerabilityId in i.vulnerabilities &&
              Strip(a.vulnerabilityId) == a.vulnerabilityId != []
                                              && a.product.scheme == "cpe23" && StartsWith(a.product.value, "cpe:2.3:")
    ensures forall id | id in i.vulnerabilities :: i.vulnerabilities[id].identifier == id && Strip(id) == id != []
  {
    if status != R.ERROR {
      forall a | a in i.associations
        ensures a.vulnerabilityId in i.vulnerabilities && Strip(a.vulnerabilityId) == a.vulnerabilityId != []
        ensures a.product.scheme == "cpe23" && StartsWith(a.product.value, "cpe:2.3:")
      {
        hide Gathered, Grouped, Asked, Strip;
        VI.AssociationsMatch(env.lex, env.provider, AI.ObservedTechnologies(associations), o, representatives, i, a);
      }
      forall id | id in i.vulnerabilities ensures i.vulnerabilities[id].identifier == id && Strip(id) == id != [] {
        hide Justified, Grouped, LookUp, ToVulnerability, Strip;
        var v := i.vulnerabilities[id];
        var k, r :| k in o.Keys && LookUp(env.lex, env.provider, representatives[k]).Found? &&
                    r in LookUp(env.lex, env.provider, representatives[k]).records && ToVulnerability(r) == Some(v);
        VI.IdentifierIsStripped(r);
      }
    }
  }
}
