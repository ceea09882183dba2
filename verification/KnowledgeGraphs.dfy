/** The security knowledge graph (domain/knowledge_graph.py, capabilities/knowledge_graph.py). */
module KnowledgeGraphs {
  import opened Prelude
  import opened Ordering
  import opened Recon
  import opened Strings
  import opened Assets
  import opened AssetIntelligence
  import opened Vulnerabilities
  import R = Runtime

  datatype NodeKind = ASSET | TECHNOLOGY | VULNERABILITY

  datatype Entity = AssetEntity(asset: Asset) | TechnologyEntity(technology: Technology) |
      VulnerabilityEntity(vulnerability: Vulnerability)

  datatype Node = Node(identifier: string, kind: NodeKind, entity: Entity)

  datatype RelationKind = OBSERVED_TECHNOLOGY | MATCHES_VULNERABILITY

  datatype Edge = Edge(source: string, target: string, kind: RelationKind, product: Option<ProductIdentifier>,
                       confidence: Option<MatchConfidence>)

  datatype KnowledgeGraph = KnowledgeGraph(nodes: seq<Node>, edges: seq<Edge>)

  /** The sort keys of assets, vulnerabilities and edges, arbitrary here. */
  datatype SortKeys = SortKeys(asset: Asset -> nat, vulnerability: Vulnerability -> nat, edge: Edge -> nat)

  type NodeIndex = map<string, Node>

  function AssetNode(a: Asset): Node {
    Node("graph:" + a.identifier, ASSET, AssetEntity(a))
  }

  function VulnerabilityNode(v: Vulnerability): Node {
    Node("graph:vulnerability:" + Strip(v.identifier), VULNERABILITY, VulnerabilityEntity(v))
  }

  /** The digest of a technology's fields is an arbitrary function; `Injective` says it tells them apart. */
  function TechnologyNode(digest: Technology -> string, t: Technology): Node {
    Node("graph:technology-observation:" + digest(t), TECHNOLOGY, TechnologyEntity(t))
  }

  ghost predicate Injective(digest: Technology -> string) {
    forall t, u :: digest(t) == digest(u) ==> t == u
  }

  /** `_asset_nodes`: one node for each identifier that is not blank. */
  ghost predicate AssetsIndexed(assets: set<Asset>, nodes: NodeIndex) {
    && (forall a | a in assets && Strip(a.identifier) != [] :: a.identifier in nodes)
    && (forall id | id in nodes ::
        Strip(id) != [] && exists a | a in assets :: a.identifier == id && nodes[id] == AssetNode(a))
  }

  /** Of the assets of one identifier a least one is kept. */
  ghost predicate LeastAssets(rank: Asset -> nat, assets: set<Asset>, nodes: NodeIndex) {
    forall id, a | id in nodes && a in assets && a.identifier == id :: nodes[id].entity.AssetEntity? &&
      rank(nodes[id].entity.asset) <= rank(a)
  }

  method AssetNodes(rank: Asset -> nat, assets: set<Asset>) returns (nodes: NodeIndex)
    ensures AssetsIndexed(assets, nodes) && LeastAssets(rank, assets, nodes)
  {
    hide Strip, AssetsIndexed, LeastAssets;
    nodes := map[];
    var sorted := SortBy((a: Asset, b: Asset) => rank(a) <= rank(b), assets);
    NoAssets(rank);
    assert Elements(sorted[..0]) == {};
    for i := 0 to |sorted|
      invariant AssetsIndexed(Elements(sorted[..i]), nodes) && LeastAssets(rank, Elements(sorted[..i]), nodes)
    {
      var a := sorted[i];
      assert sorted[..i + 1] == sorted[..i] + [a];
      assert Elements(sorted[..i + 1]) == Elements(sorted[..i]) + {a};
      AssetNext(rank, Elements(sorted[..i]), nodes, a);
      if Strip(a.identifier) != [] && a.identifier !in nodes {
        nodes := nodes[a.identifier := AssetNode(a)];
      }
    }
    assert sorted[..|sorted|] == sorted && Elements(sorted) == assets;
  }

  lemma NoAssets(rank: Asset -> nat)
    ensures AssetsIndexed({}, map[]) && LeastAssets(rank, {}, map[])
  {
  }

  lemma AssetNext(rank: Asset -> nat, done: set<Asset>, nodes: NodeIndex, a: Asset)
    requires AssetsIndexed(done, nodes) && LeastAssets(rank, done, nodes) && forall b | b in done :: rank(b) <= rank(a)
    ensures var next := if Strip(a.identifier) != [] && a.identifier !in nodes then nodes[a.identifier := AssetNode(a)]
            else nodes;
            AssetsIndexed(done + {a}, next) && LeastAssets(rank, done + {a}, next)
  {
    hide Strip;
    if a.identifier in nodes {
      var b :| b in done && nodes[a.identifier] == AssetNode(b);
      assert rank(b) <= rank(a);
    }
  }

  /** `_vulnerability_nodes`, likewise by stripped identifier. */
  ghost predicate VulnerabilitiesIndexed(vulnerabilities: set<Vulnerability>, nodes: NodeIndex) {
    && (forall v | v in vulnerabilities && Strip(v.identifier) != [] :: Strip(v.identifier) in nodes)
    && (forall id | id in nodes ::
        id != [] && exists v | v in vulnerabilities :: Strip(v.identifier) == id && nodes[id] == VulnerabilityNode(v))
  }

  ghost predicate LeastVulnerabilities(rank: Vulnerability -> nat, vulnerabilities: set<Vulnerability>,
                                       nodes: NodeIndex) {
    forall id, v | id in nodes && v in vulnerabilities && Strip(v.identifier) == id ::
      nodes[id].entity.VulnerabilityEntity? && rank(nodes[id].entity.vulnerability) <= rank(v)
  }

  method VulnerabilityNodes(rank: Vulnerability -> nat, vulnerabilities: set<Vulnerability>) returns (nodes: NodeIndex)
    ensures VulnerabilitiesIndexed(vulnerabilities, nodes) && LeastVulnerabilities(rank, vulnerabilities, nodes)
  {
    hide Strip, VulnerabilitiesIndexed, LeastVulnerabilities;
    nodes := map[];
    var sorted := SortBy((v: Vulnerability, w: Vulnerability) => rank(v) <= rank(w), vulnerabilities);
    NoVulnerabilities(rank);
    assert Elements(sorted[..0]) == {};
    for i := 0 to |sorted|
      invariant VulnerabilitiesIndexed(Elements(sorted[..i]), nodes) &&
                LeastVulnerabilities(rank, Elements(sorted[..i]), nodes)
    {
      var v := sorted[i];
      assert sorted[..i + 1] == sorted[..i] + [v];
      assert Elements(sorted[..i + 1]) == Elements(sorted[..i]) + {v};
      VulnerabilityNext(rank, Elements(sorted[..i]), nodes, v);
      var identifier := Strip(v.identifier);
      if identifier != [] && identifier !in nodes {
        nodes := nodes[identifier := VulnerabilityNode(v)];
      }
    }
    assert sorted[..|sorted|] == sorted && Elements(sorted) == vulnerabilities;
  }

  lemma NoVulnerabilities(rank: Vulnerability -> nat)
    ensures VulnerabilitiesIndexed({}, map[]) && LeastVulnerabilities(rank, {}, map[])
  {
  }

  lemma VulnerabilityNext(rank: Vulnerability -> nat, done: set<Vulnerability>, nodes: NodeIndex, v: Vulnerability)
    requires VulnerabilitiesIndexed(done, nodes) && LeastVulnerabilities(rank, done, nodes) &&
             forall w | w in done :: rank(w) <= rank(v)
    ensures var id := Strip(v.identifier);
            var next := if id != [] && id !in nodes then nodes[id := VulnerabilityNode(v)] else nodes;
            VulnerabilitiesIndexed(done + {v}, next) && LeastVulnerabilities(rank, done + {v}, next)
  {
    hide Strip;
    if Strip(v.identifier) in nodes {
      var w :| w in done && nodes[Strip(v.identifier)] == VulnerabilityNode(w);
      assert rank(w) <= rank(v);
    }
  }

  /** The nodes of a table have identifiers of their own. */
  ghost predicate Separate(table: NodeIndex) {
    forall j, k | j in table && k in table && table[j].identifier == table[k].identifier :: j == k
  }

  /** The nodes of a table replace whatever was indexed under their identifiers. */
  ghost predicate Updated(before: NodeIndex, table: NodeIndex, keys: set<string>, after: NodeIndex)
    requires keys <= table.Keys
  {
    && (forall k | k in keys :: table[k].identifier in after && after[table[k].identifier] == table[k])
    && (forall id | id in before :: id in after)
    && (forall id | id in after :: (exists k | k in keys :: after[id] == table[k]) ||
          (id in before && after[id] == before[id]))
  }

  /** `nodes.update((node.identifier, node) for node in table.values())`. */
  method Update(before: NodeIndex, table: NodeIndex) returns (after: NodeIndex)
    requires Separate(table) && (forall id | id in before :: before[id].identifier == id)
    ensures Updated(before, table, table.Keys, after)
    ensures forall id | id in after :: after[id].identifier == id
  {
    after := before;
    var pending := table.Keys;
    while pending != {}
      invariant pending <= table.Keys && Updated(before, table, table.Keys - pending, after)
      invariant forall id | id in after :: after[id].identifier == id
      decreases pending
    {
      var k :| k in pending;
      ghost var done := table.Keys - pending;
      pending := pending - {k};
      assert table.Keys - pending == done + {k};
      after := after[table[k].identifier := table[k]];
    }
    assert table.Keys - pending == table.Keys;
  }

  predicate Blankless(product: ProductIdentifier) {
    Strip(product.scheme) != [] && Strip(product.value) != []
  }

  function ObservedEdge(digest: Technology -> string, p: Association): Edge {
    Edge("graph:" + p.assetId, TechnologyNode(digest, p.technology).identifier, OBSERVED_TECHNOLOGY, None, None)
  }

  function MatchEdge(digest: Technology -> string, a: VulnerabilityAssociation): Edge {
    Edge(TechnologyNode(digest, a.technology).identifier, "graph:vulnerability:" + a.vulnerabilityId,
         MATCHES_VULNERABILITY,
         Some(a.product), Some(a.confidence))
  }

  /** A graph under construction: its nodes by identifier, its edges, and how many relationships were skipped. */
  datatype Draft = Draft(nodes: NodeIndex, edges: set<Edge>, skipped: nat)

  function SetDefault(nodes: NodeIndex, n: Node): NodeIndex {
    if n.identifier in nodes then nodes else nodes[n.identifier := n]
  }

  /** After an association is related: its technology is indexed, and nothing indexed before changed. */
  ghost predicate Extends(before: Draft, after: Draft, digest: Technology -> string, technologies: set<Technology>) {
    && (forall id | id in before.nodes :: id in after.nodes && after.nodes[id] == before.nodes[id])
    && (forall t | t in technologies :: TechnologyNode(digest, t).identifier in after.nodes)
    && (forall id | id in after.nodes && id !in before.nodes ::
          after.nodes[id].identifier == id &&
            exists t | t in technologies :: after.nodes[id] == TechnologyNode(digest, t))
  }

  ghost function Known(nodes: NodeIndex, associations: set<Association>): set<Association> {
    set p | p in associations && p.assetId in nodes
  }

  ghost function Matchable(nodes: NodeIndex,
                           associations: set<VulnerabilityAssociation>): set<VulnerabilityAssociation> {
    set a | a in associations && a.vulnerabilityId in nodes && Blankless(a.product)
  }

  ghost function ObservedEdges(digest: Technology -> string, associations: set<Association>): set<Edge> {
    set p | p in associations :: ObservedEdge(digest, p)
  }

  ghost function MatchEdges(digest: Technology -> string, associations: set<VulnerabilityAssociation>): set<Edge> {
    set a | a in associations :: MatchEdge(digest, a)
  }

  ghost function MatchedTechnologies(associations: set<VulnerabilityAssociation>): set<Technology> {
    set a | a in associations :: a.technology
  }

  /** The drafted graph gains one edge for each kept association, and counts each of the others as skipped. */
  ghost predicate Related(digest: Technology -> string, kept: set<Edge>, skipped: nat, technologies: set<Technology>,
                          before: Draft, after: Draft) {
    && after.edges == before.edges + kept
    && after.skipped == before.skipped + skipped
    && Extends(before, after, digest, technologies)
  }

  function Join(digest: Technology -> string, draft: Draft, t: Technology, e: Edge): Draft {
    Draft(SetDefault(draft.nodes, TechnologyNode(digest, t)), draft.edges + {e}, draft.skipped)
  }

  lemma JoinRelates(digest: Technology -> string, kept: set<Edge>, skipped: nat, technologies: set<Technology>,
                    before: Draft, draft: Draft, t: Technology, e: Edge)
    requires Related(digest, kept, skipped, technologies, before, draft)
    ensures Related(digest, kept + {e}, skipped, technologies + {t}, before, Join(digest, draft, t, e))
  {
    hide TechnologyNode;
    var after := Join(digest, draft, t, e);
    forall id | id in after.nodes && id !in before.nodes
      ensures exists u | u in technologies + {t} :: after.nodes[id] == TechnologyNode(digest, u)
    {
      if id in draft.nodes {
        var u :| u in technologies && draft.nodes[id] == TechnologyNode(digest, u);
        assert u in technologies + {t};
      } else {
        assert t in technologies + {t};
      }
    }
  }

  /** How many relationships are not kept, each as often as it is given. */
  ghost function Dropped<T>(all: seq<T>, kept: set<T>): nat {
    if all == [] then 0 else Dropped(all[..|all| - 1], kept) + if all[|all| - 1] in kept then 0 else 1
  }

  lemma DroppedNext<T>(all: seq<T>, kept: set<T>, n: nat)
    requires n < |all|
    ensures Dropped(all[..n + 1], kept) == Dropped(all[..n], kept) + if all[n] in kept then 0 else 1
  {
    assert all[..n + 1][..n] == all[..n];
  }

  /** The loop over technology associations: one edge for each association whose asset is known; the others
      are counted as skipped.  Their order only decides which of two technologies of one digest is kept. */
  method RelateTechnologies(digest: Technology -> string, assetNodes: NodeIndex, associations: seq<Association>,
                            before: Draft) returns (after: Draft)
    requires forall id | id in assetNodes :: assetNodes[id].identifier == "graph:" + id
    ensures var known := Known(assetNodes, Elements(associations));
            Related(digest, ObservedEdges(digest, known), Dropped(associations, known), ObservedTechnologies(known),
                    before, after)
  {
    hide Related, TechnologyNode, Dropped, ObservedEdges, ObservedTechnologies;
    after := before;
    ghost var all := Known(assetNodes, Elements(associations));
    TechnologiesStart(digest, before);
    assert Known(assetNodes, Elements(associations[..0])) == {};
    assert Dropped(associations[..0], all) == 0 by { DroppedNothing(associations, all); }
    for n := 0 to |associations|
      invariant var known := Known(assetNodes, Elements(associations[..n]));
                Related(digest, ObservedEdges(digest, known), Dropped(associations[..n], all),
                        ObservedTechnologies(known), before, after)
    {
      var p := associations[n];
      ghost var known := Known(assetNodes, Elements(associations[..n]));
      assert associations[..n + 1] == associations[..n] + [p];
      DroppedNext(associations, all, n);
      if p.assetId !in assetNodes {
        SkipRelates(digest, ObservedEdges(digest, known), Dropped(associations[..n], all), ObservedTechnologies(known),
                    before, after);
        assert Known(assetNodes, Elements(associations[..n + 1])) == known;
        after := after.(skipped := after.skipped + 1);
      } else {
        var e := Edge(assetNodes[p.assetId].identifier, TechnologyNode(digest, p.technology).identifier,
                      OBSERVED_TECHNOLOGY, None, None);
        JoinRelates(digest, ObservedEdges(digest, known), Dropped(associations[..n], all), ObservedTechnologies(known),
                    before, after, p.technology, e);
        assert Known(assetNodes, Elements(associations[..n + 1])) == known + {p};
        ObservedNext(digest, known, p);
        after := Join(digest, after, p.technology, e);
      }
    }
    assert associations[..|associations|] == associations;
  }

  lemma DroppedNothing<T>(all: seq<T>, kept: set<T>)
    ensures Dropped(all[..0], kept) == 0
  {
  }

  lemma SkipRelates(digest: Technology -> string, kept: set<Edge>, skipped: nat, technologies: set<Technology>,
                    before: Draft, draft: Draft)
    requires Related(digest, kept, skipped, technologies, before, draft)
    ensures Related(digest, kept, skipped + 1, technologies, before, draft.(skipped := draft.skipped + 1))
  {
  }

  lemma ObservedNext(digest: Technology -> string, known: set<Association>, p: Association)
    ensures ObservedEdges(digest, known + {p}) == ObservedEdges(digest, known) + {ObservedEdge(digest, p)}
    ensures ObservedTechnologies(known + {p}) == ObservedTechnologies(known) + {p.technology}
  {
    hide ObservedEdge;
  }

  lemma MatchNext(digest: Technology -> string, ok: set<VulnerabilityAssociation>, a: VulnerabilityAssociation)
    ensures MatchEdges(digest, ok + {a}) == MatchEdges(digest, ok) + {MatchEdge(digest, a)}
    ensures MatchedTechnologies(ok + {a}) == MatchedTechnologies(ok) + {a.technology}
  {
    hide MatchEdge;
  }

  lemma TechnologiesStart(digest: Technology -> string, before: Draft)
    ensures Related(digest, ObservedEdges(digest, {}), 0, ObservedTechnologies({}), before, before)
    ensures Related(digest, MatchEdges(digest, {}), 0, MatchedTechnologies({}), before, before)
  {
  }

  /** The loop over vulnerability associations: one edge for each association whose vulnerability is known and
      whose product identity is not blank. */
  method RelateVulnerabilities(digest: Technology -> string, nodes: NodeIndex,
                               associations: seq<VulnerabilityAssociation>, before: Draft) returns (after: Draft)
    requires forall id | id in nodes :: nodes[id].identifier == "graph:vulnerability:" + id
    ensures var ok := Matchable(nodes, Elements(associations));
            Related(digest, MatchEdges(digest, ok), Dropped(associations, ok), MatchedTechnologies(ok), before, after)
  {
    hide Related, TechnologyNode, Blankless, Dropped, MatchEdges, MatchedTechnologies;
    after := before;
    ghost var all := Matchable(nodes, Elements(associations));
    TechnologiesStart(digest, before);
    assert Matchable(nodes, Elements(associations[..0])) == {};
    assert Dropped(associations[..0], all) == 0 by { DroppedNothing(associations, all); }
    for n := 0 to |associations|
      invariant var ok := Matchable(nodes, Elements(associations[..n]));
                Related(digest, MatchEdges(digest, ok), Dropped(associations[..n], all), MatchedTechnologies(ok),
                        before, after)
    {
      var a := associations[n];
      ghost var ok := Matchable(nodes, Elements(associations[..n]));
      assert associations[..n + 1] == associations[..n] + [a];
      DroppedNext(associations, all, n);
      if a.vulnerabilityId !in nodes || !Blankless(a.product) {
        SkipRelates(digest, MatchEdges(digest, ok), Dropped(associations[..n], all), MatchedTechnologies(ok), before,
                    after);
        assert Matchable(nodes, Elements(associations[..n + 1])) == ok;
        after := after.(skipped := after.skipped + 1);
      } else {
        var e := Edge(TechnologyNode(digest, a.technology).identifier, nodes[a.vulnerabilityId].identifier,
                      MATCHES_VULNERABILITY,
                      Some(a.product), Some(a.confidence));
        JoinRelates(digest, MatchEdges(digest, ok), Dropped(associations[..n], all), MatchedTechnologies(ok), before,
                    after, a.technology, e);
        assert Matchable(nodes, Elements(associations[..n + 1])) == ok + {a};
        MatchNext(digest, ok, a);
        after := Join(digest, after, a.technology, e);
      }
    }
    assert associations[..|associations|] == associations;
  }

  /** The nodes of an index, each once, ordered by identifier. */
  ghost predicate Lists(index: NodeIndex, nodes: seq<Node>) {
    && (forall n :: n in nodes <==> n.identifier in index && index[n.identifier] == n)
    && (forall i, j | 0 <= i < j < |nodes| :: nodes[i].identifier != nodes[j].identifier &&
          TextLeq(nodes[i].identifier, nodes[j].identifier))
  }

  method ListNodes(index: NodeIndex) returns (nodes: seq<Node>)
    requires forall id | id in index :: index[id].identifier == id
    ensures Lists(index, nodes)
  {
    hide TextLeq;
    TextsOrdered();
    nodes := SortBy((m: Node, n: Node) => TextLeq(m.identifier, n.identifier), index.Values);
    assert forall n :: n in nodes <==> n.identifier in index && index[n.identifier] == n;
  }

  /** The edges of a set, each once, ordered by sort key. */
  ghost predicate ListsEdges(rank: Edge -> nat, edges: set<Edge>, list: seq<Edge>) {
    Distinct(list) && Elements(list) == edges && forall i, j | 0 <= i < j < |list| :: rank(list[i]) <= rank(list[j])
  }

  method ListEdges(rank: Edge -> nat, edges: set<Edge>) returns (list: seq<Edge>)
    ensures ListsEdges(rank, edges, list)
  {
    list := SortBy((e: Edge, f: Edge) => rank(e) <= rank(f), edges);
  }

  ghost predicate Origin(digest: Technology -> string, technologies: set<Technology>, assetNodes: NodeIndex,
                         vulnerabilityNodes: NodeIndex, id: string, n: Node) {
    || (exists k | k in vulnerabilityNodes :: n == vulnerabilityNodes[k])
    || (exists k | k in assetNodes :: n == assetNodes[k])
    || ((exists t | t in technologies :: n == TechnologyNode(digest, t)) && !exists k | k in assetNodes ::
        assetNodes[k].identifier == id)
  }

  /** The nodes of a graph: vulnerability nodes, the asset nodes that none of them replaced, and one node for
      each observed technology whose identifier was free. */
  ghost predicate NodesOf(digest: Technology -> string, technologies: set<Technology>, assetNodes: NodeIndex,
                          vulnerabilityNodes: NodeIndex, index: NodeIndex) {
    && (forall id | id in index :: index[id].identifier == id)
    && (forall k | k in vulnerabilityNodes :: vulnerabilityNodes[k].identifier in index &&
          index[vulnerabilityNodes[k].identifier] == vulnerabilityNodes[k])
    && (forall k | k in assetNodes :: assetNodes[k].identifier in index)
    && (forall t | t in technologies :: TechnologyNode(digest, t).identifier in index)
    && (forall id | id in index :: Origin(digest, technologies, assetNodes, vulnerabilityNodes, id, index[id]))
  }

  /** The snapshot that the relationships determine. */
  ghost predicate Snapshot(digest: Technology -> string, associations: set<Association>,
                           matches: set<VulnerabilityAssociation>, assetNodes: NodeIndex,
                           vulnerabilityNodes: NodeIndex, index: NodeIndex, graph: KnowledgeGraph) {
    var known, ok := Known(assetNodes, associations), Matchable(vulnerabilityNodes, matches);
    && NodesOf(digest, ObservedTechnologies(known) + MatchedTechnologies(ok), assetNodes, vulnerabilityNodes, index)
    && Lists(index, graph.nodes)
    && Elements(graph.edges) == ObservedEdges(digest, known) + MatchEdges(digest, ok)
  }

  /** What the relationships leave out: the associations of unknown assets and vulnerabilities and of blank products. */
  ghost function Omitted(associations: seq<Association>, matches: seq<VulnerabilityAssociation>, assetNodes: NodeIndex,
                         vulnerabilityNodes: NodeIndex): nat {
    Dropped(associations, Known(assetNodes, Elements(associations))) +
      Dropped(matches, Matchable(vulnerabilityNodes, Elements(matches)))
  }

  /** `execute`. */
  method Execute(digest: Technology -> string, keys: SortKeys, assets: seq<Asset>, associations: seq<Association>,
                 vulnerabilities: seq<Vulnerability>, matches: seq<VulnerabilityAssociation>)
    returns (status: R.Status, graph: KnowledgeGraph, skipped: nat,
             ghost assetNodes: NodeIndex, ghost vulnerabilityNodes: NodeIndex, ghost index: NodeIndex)
    ensures AssetsIndexed(Elements(assets), assetNodes) && LeastAssets(keys.asset, Elements(assets), assetNodes)
    ensures VulnerabilitiesIndexed(Elements(vulnerabilities), vulnerabilityNodes)
    ensures LeastVulnerabilities(keys.vulnerability, Elements(vulnerabilities), vulnerabilityNodes)
    ensures Snapshot(digest, Elements(associations), Elements(matches), assetNodes, vulnerabilityNodes, index, graph)
    ensures ListsEdges(keys.edge, Elements(graph.edges), graph.edges)
    ensures skipped == Omitted(associations, matches, assetNodes, vulnerabilityNodes)
    ensures status == if skipped > 0 then R.PARTIAL else R.SUCCESS
  {
    hide *;
    var known := Elements(assets);
    var ofAssets := AssetNodes(keys.asset, known);
    var ofVulnerabilities := VulnerabilityNodes(keys.vulnerability, Elements(vulnerabilities));
    assetNodes, vulnerabilityNodes := ofAssets, ofVulnerabilities;
    NodesKeyed(known, Elements(vulnerabilities), assetNodes, vulnerabilityNodes);
    var draft := Relate(digest, ofAssets, ofVulnerabilities, associations, matches);
    var nodes := ListNodes(draft.nodes);
    var edges := ListEdges(keys.edge, draft.edges);
    index, skipped := draft.nodes, draft.skipped;
    graph := KnowledgeGraph(nodes, edges);
    status := if skipped > 0 then R.PARTIAL else R.SUCCESS;
    IsSnapshot(digest, keys.edge, associations, matches, assetNodes, vulnerabilityNodes, draft, graph);
  }

  lemma IsSnapshot(digest: Technology -> string, rank: Edge -> nat, associations: seq<Association>,
                   matches: seq<VulnerabilityAssociation>, assetNodes: NodeIndex, vulnerabilityNodes: NodeIndex,
                   draft: Draft, graph: KnowledgeGraph)
    requires Complete(digest, associations, matches, assetNodes, vulnerabilityNodes, draft)
    requires Lists(draft.nodes, graph.nodes) && ListsEdges(rank, draft.edges, graph.edges)
    ensures Snapshot(digest, Elements(associations), Elements(matches), assetNodes, vulnerabilityNodes, draft.nodes,
                     graph)
    ensures draft.skipped == Omitted(associations, matches, assetNodes, vulnerabilityNodes)
    ensures ListsEdges(rank, Elements(graph.edges), graph.edges)
  {
    hide NodesOf, Lists, Known, Matchable, Dropped, ObservedEdges, MatchEdges, ObservedTechnologies,
      MatchedTechnologies;
  }

  /** A draft with every node, every edge and the count of what was skipped. */
  ghost predicate Complete(digest: Technology -> string, associations: seq<Association>,
                           matches: seq<VulnerabilityAssociation>, assetNodes: NodeIndex,
                           vulnerabilityNodes: NodeIndex, draft: Draft) {
    var known, ok := Known(assetNodes, Elements(associations)), Matchable(vulnerabilityNodes, Elements(matches));
    && NodesOf(digest, ObservedTechnologies(known) + MatchedTechnologies(ok), assetNodes, vulnerabilityNodes,
               draft.nodes)
    && draft.edges == ObservedEdges(digest, known) + MatchEdges(digest, ok)
    && draft.skipped == Dropped(associations, known) + Dropped(matches, ok)
  }

  /** The nodes of both tables, then the two loops over relationships. */
  method Relate(digest: Technology -> string, assetNodes: NodeIndex, vulnerabilityNodes: NodeIndex,
                associations: seq<Association>, matches: seq<VulnerabilityAssociation>)
    returns (draft: Draft)
    requires forall id | id in assetNodes :: assetNodes[id].identifier == "graph:" + id
    requires forall id | id in vulnerabilityNodes :: vulnerabilityNodes[id].identifier == "graph:vulnerability:" + id
    requires Separate(assetNodes) && Separate(vulnerabilityNodes)
    ensures Complete(digest, associations, matches, assetNodes, vulnerabilityNodes, draft)
    ensures forall id | id in draft.nodes :: draft.nodes[id].identifier == id
  {
    hide *;
    var first := Update(map[], assetNodes);
    var nodes := Update(first, vulnerabilityNodes);
    var draft0 := Draft(nodes, {}, 0);
    var draft1 := RelateTechnologies(digest, assetNodes, associations, draft0);
    draft := RelateVulnerabilities(digest, vulnerabilityNodes, matches, draft1);
    BuiltInSteps(digest, associations, matches, assetNodes, vulnerabilityNodes, first, draft0, draft1, draft);
  }

  lemma NodesKeyed(assets: set<Asset>, vulnerabilities: set<Vulnerability>, assetNodes: NodeIndex,
                   vulnerabilityNodes: NodeIndex)
    requires AssetsIndexed(assets, assetNodes) && VulnerabilitiesIndexed(vulnerabilities, vulnerabilityNodes)
    ensures forall id | id in assetNodes :: assetNodes[id].identifier == "graph:" + id
    ensures forall id | id in vulnerabilityNodes :: vulnerabilityNodes[id].identifier == "graph:vulnerability:" + id
    ensures Separate(assetNodes) && Separate(vulnerabilityNodes)
  {
    hide Strip;
    forall j, k | j in assetNodes && k in assetNodes && assetNodes[j].identifier == assetNodes[k].identifier
      ensures j == k
    {
      assert assetNodes[j].identifier[6..] == j && assetNodes[k].identifier[6..] == k;
    }
    forall j, k | j in vulnerabilityNodes && k in vulnerabilityNodes &&
      vulnerabilityNodes[j].identifier == vulnerabilityNodes[k].identifier ensures j == k
    {
      assert vulnerabilityNodes[j].identifier[20..] == j && vulnerabilityNodes[k].identifier[20..] == k;
    }
  }

  lemma BuiltInSteps(digest: Technology -> string, associations: seq<Association>,
                     matches: seq<VulnerabilityAssociation>, assetNodes: NodeIndex, vulnerabilityNodes: NodeIndex,
                     first: NodeIndex, draft0: Draft, draft1: Draft, draft2: Draft)
    requires draft0.edges == {} && draft0.skipped == 0
    requires Updated(map[], assetNodes, assetNodes.Keys, first) &&
             Updated(first, vulnerabilityNodes, vulnerabilityNodes.Keys, draft0.nodes)
    requires forall id | id in draft0.nodes :: draft0.nodes[id].identifier == id
    requires var known := Known(assetNodes, Elements(associations));
             Related(digest, ObservedEdges(digest, known), Dropped(associations, known), ObservedTechnologies(known),
                     draft0, draft1)
    requires var ok := Matchable(vulnerabilityNodes, Elements(matches));
             Related(digest, MatchEdges(digest, ok), Dropped(matches, ok), MatchedTechnologies(ok), draft1, draft2)
    ensures Complete(digest, associations, matches, assetNodes, vulnerabilityNodes, draft2)
    ensures forall id | id in draft2.nodes :: draft2.nodes[id].identifier == id
  {
    hide Known, Matchable, Dropped, ObservedEdges, MatchEdges, ObservedTechnologies, MatchedTechnologies, Updated,
      Origin, TechnologyNode;
    var known, ok := Known(assetNodes, Elements(associations)), Matchable(vulnerabilityNodes, Elements(matches));
    TwoExtensions(digest, ObservedTechnologies(known), MatchedTechnologies(ok), draft0, draft1, draft2);
    NodesComplete(digest, ObservedTechnologies(known) + MatchedTechnologies(ok), assetNodes, vulnerabilityNodes, first,
                  draft0, draft2);
  }

  lemma TwoExtensions(digest: Technology -> string, a: set<Technology>, b: set<Technology>, draft0: Draft,
                      draft1: Draft, draft2: Draft)
    requires Extends(draft0, draft1, digest, a) && Extends(draft1, draft2, digest, b)
    ensures Extends(draft0, draft2, digest, a + b)
  {
    hide TechnologyNode;
    forall id | id in draft2.nodes && id !in draft0.nodes
      ensures exists t | t in a + b :: draft2.nodes[id] == TechnologyNode(digest, t)
    {
      if id in draft1.nodes {
        var t :| t in a && draft1.nodes[id] == TechnologyNode(digest, t);
        assert t in a + b;
      } else {
        var t :| t in b && draft2.nodes[id] == TechnologyNode(digest, t);
        assert t in a + b;
      }
    }
  }

  lemma NodesComplete(digest: Technology -> string, technologies: set<Technology>, assetNodes: NodeIndex,
                      vulnerabilityNodes: NodeIndex, first: NodeIndex, before: Draft, after: Draft)
    requires Updated(map[], assetNodes, assetNodes.Keys, first) &&
             Updated(first, vulnerabilityNodes, vulnerabilityNodes.Keys, before.nodes)
    requires forall id | id in before.nodes :: before.nodes[id].identifier == id
    requires Extends(before, after, digest, technologies)
    ensures NodesOf(digest, technologies, assetNodes, vulnerabilityNodes, after.nodes)
  {
    hide TechnologyNode;
    forall k | k in assetNodes ensures assetNodes[k].identifier in before.nodes {
      assert assetNodes[k].identifier in first;
    }
    forall id | id in after.nodes
      ensures Origin(digest, technologies, assetNodes, vulnerabilityNodes, id, after.nodes[id])
    {
      if id in before.nodes {
        if !(exists k | k in vulnerabilityNodes :: before.nodes[id] == vulnerabilityNodes[k]) {
          assert id in first && before.nodes[id] == first[id];
          var k :| k in assetNodes && first[id] == assetNodes[k];
          assert after.nodes[id] == assetNodes[k];
        }
      }
    }
  }
}
