/** The risk intelligence capability: the join of the graph's valid edges into assessed paths
    (capabilities/risk_intelligence.py, `execute`). */
module RiskIntelligence {
  import opened KnowledgeGraphs

  /** `_node_index`: for each identifier the first node that carries it. */
  ghost predicate FirstNodes(nodes: seq<Node>, index: NodeIndex) {
    && (forall n | n in nodes :: n.identifier in index)
    && (forall id | id in index :: index[id].identifier == id && IsFirstNode(nodes, index[id]))
  }

  ghost predicate IsFirstNode(nodes: seq<Node>, n: Node) {
    exists i :: 0 <= i < |nodes| && nodes[i] == n && forall j | 0 <= j < i :: nodes[j].identifier != n.identifier
  }

  method IndexNodes(nodes: seq<Node>) returns (index: NodeIndex)
    ensures FirstNodes(nodes, index)
  {
    index := map[];
    for i := 0 to |nodes|
      invariant forall n | n in nodes[..i] :: n.identifier in index
      invariant forall id | id in index :: index[id].identifier == id && index[id] in nodes[..i] &&
                  IsFirstNode(nodes, index[id])
    {
      assert nodes[..i + 1] == nodes[..i] + [nodes[i]];
      if nodes[i].identifier !in index {
        assert forall j | 0 <= j < i :: nodes[j] in nodes[..i];
        index := index[nodes[i].identifier := nodes[i]];
      }
    }
    assert nodes[..|nodes|] == nodes;
  }

  /** `_valid_edge`, for an edge between indexed nodes. */
  predicate ValidEdge(index: NodeIndex, e: Edge) {
    && e.source in index && e.target in index
    && var source, target := index[e.source], index[e.target];
       match e.kind
       case OBSERVED_TECHNOLOGY =>
         source.kind == ASSET && source.entity.AssetEntity? && target.kind == TECHNOLOGY &&
           target.entity.TechnologyEntity?
       case MATCHES_VULNERABILITY =>
         source.kind == TECHNOLOGY && source.entity.TechnologyEntity? && target.kind == VULNERABILITY &&
           target.entity.VulnerabilityEntity?
  }

  predicate Observes(index: NodeIndex, e: Edge) {
    e.kind == OBSERVED_TECHNOLOGY && ValidEdge(index, e)
  }

  predicate Matches(index: NodeIndex, e: Edge) {
    e.kind == MATCHES_VULNERABILITY && ValidEdge(index, e)
  }

  type Owners = map<string, set<string>>

  type MatchTable = map<string, map<string, set<Edge>>>

  ghost function OwnersOf(index: NodeIndex, edges: set<Edge>, t: string): set<string> {
    set e | e in edges && Observes(index, e) && e.target == t :: e.source
  }

  ghost function MatchesOf(index: NodeIndex, edges: set<Edge>, t: string, v: string): set<Edge> {
    set e | e in edges && Matches(index, e) && e.source == t && e.target == v
  }

  function Entry(table: MatchTable, t: string): map<string, set<Edge>> {
    if t in table then table[t] else map[]
  }

  function MatchEntry(table: MatchTable, t: string, v: string): set<Edge> {
    if v in Entry(table, t) then Entry(table, t)[v] else {}
  }

  function OwnerEntry(owners: Owners, t: string): set<string> {
    if t in owners then owners[t] else {}
  }

  /** The two tables list the valid edges, and hold no empty entry. */
  ghost predicate Tabulated(index: NodeIndex, edges: set<Edge>, owners: Owners, table: MatchTable) {
    && (forall t :: OwnerEntry(owners, t) == OwnersOf(index, edges, t))
    && (forall t, v :: MatchEntry(table, t, v) == MatchesOf(index, edges, t, v))
    && (forall t | t in owners :: owners[t] != {})
    && (forall t, v | t in table && v in table[t] :: table[t][v] != {})
  }

  function WithOwner(owners: Owners, e: Edge): Owners {
    owners[e.target := OwnerEntry(owners, e.target) + {e.source}]
  }

  function WithMatch(table: MatchTable, e: Edge): MatchTable {
    table[e.source := Entry(table, e.source)[e.target := MatchEntry(table, e.source, e.target) + {e}]]
  }

  lemma SkipTabulates(index: NodeIndex, edges: set<Edge>, owners: Owners, table: MatchTable, e: Edge)
    requires Tabulated(index, edges, owners, table) && !ValidEdge(index, e)
    ensures Tabulated(index, edges + {e}, owners, table)
  {
    hide ValidEdge, OwnerEntry, MatchEntry;
    forall t ensures OwnersOf(index, edges + {e}, t) == OwnersOf(index, edges, t) {
    }
    forall t, v ensures MatchesOf(index, edges + {e}, t, v) == MatchesOf(index, edges, t, v) {
    }
  }

  lemma OwnerTabulates(index: NodeIndex, edges: set<Edge>, owners: Owners, table: MatchTable, e: Edge)
    requires Tabulated(index, edges, owners, table) && Observes(index, e)
    ensures Tabulated(index, edges + {e}, WithOwner(owners, e), table)
  {
    hide ValidEdge, MatchEntry;
    forall t ensures OwnersOf(index, edges + {e}, t) == OwnersOf(index, edges, t) + if t == e.target then {e.source}
      else {}
    {
    }
    forall t, v ensures MatchesOf(index, edges + {e}, t, v) == MatchesOf(index, edges, t, v) {
    }
    hide OwnersOf, MatchesOf;
  }

  lemma MatchTabulates(index: NodeIndex, edges: set<Edge>, owners: Owners, table: MatchTable, e: Edge)
    requires Tabulated(index, edges, owners, table) && Matches(index, e)
    ensures Tabulated(index, edges + {e}, owners, WithMatch(table, e))
  {
    hide ValidEdge, OwnerEntry;
    forall t ensures OwnersOf(index, edges + {e}, t) == OwnersOf(index, edges, t) {
    }
    forall t, v ensures MatchesOf(index, edges + {e}, t, v) == MatchesOf(index, edges, t, v) + if t == e.source &&
      v == e.target then {e} else {}
    {
    }
    hide OwnersOf, MatchesOf;
    forall t, v ensures MatchEntry(WithMatch(table, e), t, v) == MatchEntry(table, t, v) + if t == e.source &&
      v == e.target then {e} else {}
    {
    }
  }

  ghost function InvalidEdges(index: NodeIndex, edges: set<Edge>): set<Edge> {
    set e | e in edges && !ValidEdge(index, e)
  }

  /** The loop over the edges: valid edges enter the tables, the others are counted as skipped. */
  method Tabulate(index: NodeIndex, edges: set<Edge>) returns (owners: Owners, table: MatchTable, skipped: nat)
    ensures Tabulated(index, edges, owners, table)
    ensures skipped == |InvalidEdges(index, edges)|
  {
    hide ValidEdge, Tabulated, WithOwner, WithMatch;
    owners, table, skipped := map[], map[], 0;
    var pending := edges;
    NothingTabulated(index, edges);
    while pending != {}
      invariant pending <= edges
      invariant Tabulated(index, edges - pending, owners, table)
      invariant skipped == |InvalidEdges(index, edges - pending)|
      decreases pending
    {
      var e :| e in pending;
      ghost var done := edges - pending;
      pending := pending - {e};
      assert edges - pending == done + {e};
      if !ValidEdge(index, e) {
        SkipTabulates(index, done, owners, table, e);
        assert InvalidEdges(index, done + {e}) == InvalidEdges(index, done) + {e};
        skipped := skipped + 1;
      } else {
        assert InvalidEdges(index, done + {e}) == InvalidEdges(index, done);
        if e.kind == OBSERVED_TECHNOLOGY {
          OwnerTabulates(index, done, owners, table, e);
          owners := WithOwner(owners, e);
        } else {
          MatchTabulates(index, done, owners, table, e);
          table := WithMatch(table, e);
        }
      }
    }
    assert edges - pending == edges;
  }

  lemma NothingTabulated(index: NodeIndex, edges: set<Edge>)
    ensures Tabulated(index, edges - edges, map[], map[])
    ensures |InvalidEdges(index, edges - edges)| == 0
  {
    assert edges - edges == {};
    assert InvalidEdges(index, {}) == {};
  }
}
