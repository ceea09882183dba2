/** What a knowledge graph snapshot holds, in terms of the assets, vulnerabilities and associations it is built from
    (capabilities/knowledge_graph.py:46-212). */
module Snapshots {
  import opened Prelude
  import opened Recon
  import opened Strings
  import opened Assets
  import opened AssetIntelligence
  import opened Vulnerabilities
  import opened KnowledgeGraphs

  /** Some given asset has the identifier, and it is not blank. */
  ghost predicate AssetKnown(assets: set<Asset>, id: string) {
    Strip(id) != [] && exists a | a in assets :: a.identifier == id
  }

  /** Some given vulnerability has the identifier, once that is stripped, and it is not blank. */
  ghost predicate VulnerabilityKnown(vulnerabilities: set<Vulnerability>, id: string) {
    id != [] && exists v | v in vulnerabilities :: Strip(v.identifier) == id
  }

  ghost predicate Usable(vulnerabilities: set<Vulnerability>, a: VulnerabilityAssociation) {
    VulnerabilityKnown(vulnerabilities, a.vulnerabilityId) && Strip(a.product.scheme) != [] &&
      Strip(a.product.value) != []
  }

  function TechnologyId(digest: Technology -> string, t: Technology): string {
    "graph:technology-observation:" + digest(t)
  }

  /** The edge for an observed technology of an asset. */
  ghost predicate Observation(digest: Technology -> string, p: Association, e: Edge) {
    && e.source == "graph:" + p.assetId && e.target == TechnologyId(digest, p.technology)
    && e.kind == OBSERVED_TECHNOLOGY && e.product == None && e.confidence == None
  }

  /** The edge for a vulnerability of a technology, with the product and the confidence of the match. */
  ghost predicate Match(digest: Technology -> string, a: VulnerabilityAssociation, e: Edge) {
    && e.source == TechnologyId(digest, a.technology) && e.target == "graph:vulnerability:" + a.vulnerabilityId
    && e.kind == MATCHES_VULNERABILITY && e.product == Some(a.product) && e.confidence == Some(a.confidence)
  }

  lemma KnownExactly(assets: set<Asset>, nodes: NodeIndex, associations: set<Association>)
    requires AssetsIndexed(assets, nodes)
    ensures forall p :: p in Known(nodes, associations) <==> p in associations && AssetKnown(assets, p.assetId)
  {
    hide Strip;
  }

  lemma MatchableExactly(vulnerabilities: set<Vulnerability>, nodes: NodeIndex,
                         associations: set<VulnerabilityAssociation>)
    requires VulnerabilitiesIndexed(vulnerabilities, nodes)
    ensures forall a :: a in Matchable(nodes, associations) <==> a in associations && Usable(vulnerabilities, a)
  {
    hide Strip;
  }

  /** The edges of a graph are exactly those of the associations of known assets, and of known vulnerabilities with a
      product that is not blank. */
  lemma EdgesExactly(digest: Technology -> string, assets: set<Asset>, vulnerabilities: set<Vulnerability>,
                     associations: set<Association>, matches: set<VulnerabilityAssociation>,
                     assetNodes: NodeIndex, vulnerabilityNodes: NodeIndex, index: NodeIndex, graph: KnowledgeGraph,
                       e: Edge)
    requires AssetsIndexed(assets, assetNodes) && VulnerabilitiesIndexed(vulnerabilities, vulnerabilityNodes)
    requires Snapshot(digest, associations, matches, assetNodes, vulnerabilityNodes, index, graph)
    ensures e in graph.edges <==>
            || (exists p | p in associations && AssetKnown(assets, p.assetId) :: Observation(digest, p, e))
            || (exists a | a in matches && Usable(vulnerabilities, a) :: Match(digest, a, e))
  {
    hide NodesOf, Lists, AssetsIndexed, VulnerabilitiesIndexed, AssetKnown, Usable;
    KnownExactly(assets, assetNodes, associations);
    MatchableExactly(vulnerabilities, vulnerabilityNodes, matches);
    assert e in graph.edges <==> e in Elements(graph.edges);
    hide Known, Matchable;
    EdgeIsObservation(digest, Known(assetNodes, associations), e);
    EdgeIsMatch(digest, Matchable(vulnerabilityNodes, matches), e);
  }

  lemma EdgeIsObservation(digest: Technology -> string, associations: set<Association>, e: Edge)
    ensures e in ObservedEdges(digest, associations) <==> exists p | p in associations :: Observation(digest, p, e)
  {
    if p :| p in associations && Observation(digest, p, e) {
      assert e == ObservedEdge(digest, p);
    }
    if e in ObservedEdges(digest, associations) {
      var p :| p in associations && e == ObservedEdge(digest, p);
      assert Observation(digest, p, e);
    }
  }

  lemma EdgeIsMatch(digest: Technology -> string, matches: set<VulnerabilityAssociation>, e: Edge)
    ensures e in MatchEdges(digest, matches) <==> exists a | a in matches :: Match(digest, a, e)
  {
    if a :| a in matches && Match(digest, a, e) {
      assert e == MatchEdge(digest, a);
    }
    if e in MatchEdges(digest, matches) {
      var a :| a in matches && e == MatchEdge(digest, a);
      assert Match(digest, a, e);
    }
  }

  /** The number of relationships skipped: positions of the given associations that made no edge. */
  lemma OmittedExactly(assets: set<Asset>, vulnerabilities: set<Vulnerability>, associations: seq<Association>,
                       matches: seq<VulnerabilityAssociation>, assetNodes: NodeIndex, vulnerabilityNodes: NodeIndex)
    requires AssetsIndexed(assets, assetNodes) && VulnerabilitiesIndexed(vulnerabilities, vulnerabilityNodes)
    ensures Omitted(associations, matches, assetNodes, vulnerabilityNodes) ==
            |set n | 0 <= n < |associations| && !AssetKnown(assets, associations[n].assetId)| +
            |set n | 0 <= n < |matches| && !Usable(vulnerabilities, matches[n])|
  {
    hide AssetsIndexed, VulnerabilitiesIndexed, AssetKnown, Usable;
    KnownExactly(assets, assetNodes, Elements(associations));
    MatchableExactly(vulnerabilities, vulnerabilityNodes, Elements(matches));
    hide Known, Matchable;
    var known, ok := Known(assetNodes, Elements(associations)), Matchable(vulnerabilityNodes, Elements(matches));
    DroppedExactly(associations, known);
    DroppedExactly(matches, ok);
    assert (set n | 0 <= n < |associations| && associations[n] !in known) ==
           set n | 0 <= n < |associations| && !AssetKnown(assets, associations[n].assetId);
    assert (set n | 0 <= n < |matches| && matches[n] !in ok) == set n | 0 <= n < |matches| &&
           !Usable(vulnerabilities, matches[n]);
  }

  lemma {:induction false} DroppedExactly<T>(all: seq<T>, kept: set<T>)
    ensures Dropped(all, kept) == |set n | 0 <= n < |all| && all[n] !in kept|
  {
    var dropped := set n | 0 <= n < |all| && all[n] !in kept;
    if all == [] {
      assert dropped == {};
    } else {
      var n := |all| - 1;
      DroppedExactly(all[..n], kept);
      assert dropped == (set m | 0 <= m < n && all[..n][m] !in kept) + (if all[n] in kept then {} else {n});
    }
  }

  /** The node of an asset: of all assets of its identifier one of least sort key. */
  ghost predicate AssetNodeOf(rank: Asset -> nat, assets: set<Asset>, n: Node) {
    && n.kind == ASSET && n.entity.AssetEntity?
    && var a := n.entity.asset;
       a in assets && Strip(a.identifier) != [] && n.identifier == "graph:" + a.identifier &&
       forall b | b in assets && b.identifier == a.identifier :: rank(a) <= rank(b)
  }

  ghost predicate VulnerabilityNodeOf(rank: Vulnerability -> nat, vulnerabilities: set<Vulnerability>, n: Node) {
    && n.kind == VULNERABILITY && n.entity.VulnerabilityEntity?
    && var v := n.entity.vulnerability;
       v in vulnerabilities && Strip(v.identifier) != [] &&
         n.identifier == "graph:vulnerability:" + Strip(v.identifier) &&
       forall w | w in vulnerabilities && Strip(w.identifier) == Strip(v.identifier) :: rank(v) <= rank(w)
  }

  ghost predicate TechnologyNodeOf(digest: Technology -> string, technologies: set<Technology>, n: Node) {
    && n.kind == TECHNOLOGY && n.entity.TechnologyEntity?
    && n.entity.technology in technologies && n.identifier == TechnologyId(digest, n.entity.technology)
  }

  lemma AssetNodesAre(rank: Asset -> nat, assets: set<Asset>, nodes: NodeIndex, id: string)
    requires AssetsIndexed(assets, nodes) && LeastAssets(rank, assets, nodes)
    ensures id in nodes ==> AssetNodeOf(rank, assets, nodes[id])
  {
    hide Strip;
  }

  lemma VulnerabilityNodesAre(rank: Vulnerability -> nat, vulnerabilities: set<Vulnerability>, nodes: NodeIndex,
                              id: string)
    requires VulnerabilitiesIndexed(vulnerabilities, nodes) && LeastVulnerabilities(rank, vulnerabilities, nodes)
    ensures id in nodes ==> VulnerabilityNodeOf(rank, vulnerabilities, nodes[id])
  {
    hide Strip;
  }

  /** The technologies of the associations that made edges. */
  ghost function Kept(assets: set<Asset>, vulnerabilities: set<Vulnerability>, associations: set<Association>,
                          matches: set<VulnerabilityAssociation>): set<Technology> {
    (set p | p in associations && AssetKnown(assets, p.assetId) :: p.technology) +
    (set a | a in matches && Usable(vulnerabilities, a) :: a.technology)
  }

  lemma KeptExactly(assets: set<Asset>, vulnerabilities: set<Vulnerability>, associations: set<Association>,
                    matches: set<VulnerabilityAssociation>, assetNodes: NodeIndex, vulnerabilityNodes: NodeIndex)
    requires AssetsIndexed(assets, assetNodes) && VulnerabilitiesIndexed(vulnerabilities, vulnerabilityNodes)
    ensures ObservedTechnologies(Known(assetNodes, associations)) +
            MatchedTechnologies(Matchable(vulnerabilityNodes, matches)) ==
            Kept(assets, vulnerabilities, associations, matches)
  {
    hide AssetsIndexed, VulnerabilitiesIndexed, AssetKnown, Usable;
    KnownExactly(assets, assetNodes, associations);
    MatchableExactly(vulnerabilities, vulnerabilityNodes, matches);
    hide Known, Matchable;
    var known, ok := Known(assetNodes, associations), Matchable(vulnerabilityNodes, matches);
    assert ObservedTechnologies(known) == set p | p in associations && AssetKnown(assets, p.assetId) :: p.technology;
    assert MatchedTechnologies(ok) == set a | a in matches && Usable(vulnerabilities, a) :: a.technology;
  }

  /** The sort keys and the inputs of one graph. */
  datatype Sources = Sources(digest: Technology -> string, keys: SortKeys, assets: set<Asset>,
                             associations: set<Association>,
                             vulnerabilities: set<Vulnerability>, matches: set<VulnerabilityAssociation>)

  /** The graph was built from these. */
  ghost predicate BuiltFrom(q: Sources, assetNodes: NodeIndex, vulnerabilityNodes: NodeIndex, index: NodeIndex,
                            graph: KnowledgeGraph) {
    && AssetsIndexed(q.assets, assetNodes) && LeastAssets(q.keys.asset, q.assets, assetNodes)
    && VulnerabilitiesIndexed(q.vulnerabilities, vulnerabilityNodes)
    && LeastVulnerabilities(q.keys.vulnerability, q.vulnerabilities, vulnerabilityNodes)
    && Snapshot(q.digest, q.associations, q.matches, assetNodes, vulnerabilityNodes, index, graph)
  }

  ghost predicate NodeOf(q: Sources, n: Node) {
    || AssetNodeOf(q.keys.asset, q.assets, n)
    || VulnerabilityNodeOf(q.keys.vulnerability, q.vulnerabilities, n)
    || TechnologyNodeOf(q.digest, Kept(q.assets, q.vulnerabilities, q.associations, q.matches), n)
  }

  /** Every node is one of an asset, a vulnerability or the technology of an edge. */
  lemma NodesExactly(q: Sources, assetNodes: NodeIndex, vulnerabilityNodes: NodeIndex, index: NodeIndex,
                     graph: KnowledgeGraph, n: Node)
    requires BuiltFrom(q, assetNodes, vulnerabilityNodes, index, graph) && n in graph.nodes
    ensures NodeOf(q, n)
  {
    hide AssetsIndexed, VulnerabilitiesIndexed, LeastAssets, LeastVulnerabilities, AssetNodeOf, VulnerabilityNodeOf,
      Known, Matchable,
      ObservedEdges, MatchEdges, Kept, ObservedTechnologies, MatchedTechnologies;
    KeptExactly(q.assets, q.vulnerabilities, q.associations, q.matches, assetNodes, vulnerabilityNodes);
    assert Origin(q.digest, Kept(q.assets, q.vulnerabilities, q.associations, q.matches), assetNodes,
                  vulnerabilityNodes,
                  n.identifier, n);
    if k :| k in vulnerabilityNodes && n == vulnerabilityNodes[k] {
      VulnerabilityNodesAre(q.keys.vulnerability, q.vulnerabilities, vulnerabilityNodes, k);
    } else if k :| k in assetNodes && n == assetNodes[k] {
      AssetNodesAre(q.keys.asset, q.assets, assetNodes, k);
    }
  }

  /** Every vulnerability that is not blank has its node. */
  lemma VulnerabilityListed(q: Sources, assetNodes: NodeIndex, vulnerabilityNodes: NodeIndex, index: NodeIndex,
                            graph: KnowledgeGraph, v: Vulnerability)
    requires BuiltFrom(q, assetNodes, vulnerabilityNodes, index, graph) && v in q.vulnerabilities &&
             Strip(v.identifier) != []
    ensures exists n | n in graph.nodes ::
              n.identifier == "graph:vulnerability:" + Strip(v.identifier) &&
              VulnerabilityNodeOf(q.keys.vulnerability, q.vulnerabilities, n)
  {
    hide Strip, AssetsIndexed, LeastAssets, LeastVulnerabilities, VulnerabilityNodeOf, Known, Matchable, ObservedEdges,
      MatchEdges, Origin;
    var id := Strip(v.identifier);
    VulnerabilityNodesAre(q.keys.vulnerability, q.vulnerabilities, vulnerabilityNodes, id);
    var n := vulnerabilityNodes[id];
    assert n.identifier == "graph:vulnerability:" + id;
    assert n in graph.nodes;
  }

  /** Every asset that is not blank has its node, unless a vulnerability has taken its identifier. */
  lemma AssetListed(q: Sources, assetNodes: NodeIndex, vulnerabilityNodes: NodeIndex, index: NodeIndex,
                    graph: KnowledgeGraph, a: Asset)
    requires BuiltFrom(q, assetNodes, vulnerabilityNodes, index, graph) && a in q.assets && Strip(a.identifier) != []
    ensures exists n | n in graph.nodes ::
              n.identifier == "graph:" + a.identifier &&
              (AssetNodeOf(q.keys.asset, q.assets, n) ||
               VulnerabilityNodeOf(q.keys.vulnerability, q.vulnerabilities, n))
  {
    hide Strip, VulnerabilitiesIndexed, LeastAssets, LeastVulnerabilities, AssetNodeOf, VulnerabilityNodeOf, Known,
      Matchable,
      ObservedEdges, MatchEdges;
    var id := a.identifier;
    assert assetNodes[id].identifier == "graph:" + id;
    var n := index["graph:" + id];
    assert n in graph.nodes && n.identifier == "graph:" + id;
    hide AssetsIndexed;
    if k :| k in vulnerabilityNodes && n == vulnerabilityNodes[k] {
      VulnerabilityNodesAre(q.keys.vulnerability, q.vulnerabilities, vulnerabilityNodes, k);
    } else {
      var k :| k in assetNodes && n == assetNodes[k];
      AssetNodesAre(q.keys.asset, q.assets, assetNodes, k);
    }
  }

  /** Every technology of an edge has a node of its identifier. */
  lemma TechnologyListed(q: Sources, assetNodes: NodeIndex, vulnerabilityNodes: NodeIndex, index: NodeIndex,
                         graph: KnowledgeGraph, t: Technology)
    requires BuiltFrom(q, assetNodes, vulnerabilityNodes, index, graph)
    requires t in Kept(q.assets, q.vulnerabilities, q.associations, q.matches)
    ensures exists n | n in graph.nodes :: n.identifier == TechnologyId(q.digest, t)
  {
    hide AssetsIndexed, VulnerabilitiesIndexed, LeastAssets, LeastVulnerabilities, Known, Matchable, Origin,
      ObservedEdges, MatchEdges, Kept, ObservedTechnologies, MatchedTechnologies;
    KeptExactly(q.assets, q.vulnerabilities, q.associations, q.matches, assetNodes, vulnerabilityNodes);
    assert index[TechnologyId(q.digest, t)] in graph.nodes;
  }
}
