/** What the risk stage lists, in terms of the graph, and for a whole run in terms of what was observed and reported
    (capabilities/risk_intelligence.py:60-175, 434-442). */
module Assessments {
  import opened Prelude
  import opened Recon
  import opened Vulnerabilities
  import opened KnowledgeGraphs
  import opened RiskIntelligence
  import opened Risk
  import opened Scoring
  import opened RiskPaths
  import AI = AssetIntelligence
  import I = Integrity

  /** The edge says that an asset uses a technology, and its nodes are of that kind and entity. */
  ghost predicate Uses(index: NodeIndex, e: Edge) {
    && e.kind == OBSERVED_TECHNOLOGY && e.source in index && e.target in index
    && index[e.source].kind == ASSET && index[e.source].entity.AssetEntity?
    && index[e.target].kind == TECHNOLOGY && index[e.target].entity.TechnologyEntity?
  }

  /** The edge says that a technology matches a vulnerability. */
  ghost predicate Threatens(index: NodeIndex, e: Edge) {
    && e.kind == MATCHES_VULNERABILITY && e.source in index && e.target in index
    && index[e.source].kind == TECHNOLOGY && index[e.source].entity.TechnologyEntity?
    && index[e.target].kind == VULNERABILITY && index[e.target].entity.VulnerabilityEntity?
  }

  /** A match edge of a path, and the one its assessment uses: none is more confident, and among the equally confident
      none has a lesser sort key. */
  ghost predicate Between(index: NodeIndex, edges: set<Edge>, p: Path, e: Edge) {
    e in edges && Threatens(index, e) && e.source == p.technology && e.target == p.vulnerability
  }

  ghost predicate Preferred(index: NodeIndex, edges: set<Edge>, rank: Edge -> nat, p: Path, e: Edge) {
    Between(index, edges, p, e) && forall x | Between(index, edges, p, x) ::
      IdentityPart(x.confidence) < IdentityPart(e.confidence) ||
      (IdentityPart(x.confidence) == IdentityPart(e.confidence) && rank(e) <= rank(x))
  }

  ghost predicate OnPath(index: NodeIndex, edges: set<Edge>, p: Path) {
    && (exists e | e in edges :: Uses(index, e) && e.source == p.asset && e.target == p.technology)
    && (exists f :: Between(index, edges, p, f))
  }

  /** The numbers of an assessment. */
  ghost predicate Scores(a: RiskAssessment, t: Technology, v: Vulnerability, match_: Option<MatchConfidence>) {
    && (Scored(v) ==> -1.0 < 2.0 * a.priority as real - 14.0 * v.cvss.value <= 1.0)
    && (!Scored(v) ==> a.priority == match v.severity
                       case UNKNOWN => 0
                       case LOW => 15
                       case MEDIUM => 35
                       case HIGH => 55
                       case CRITICAL => 70)
    && Parts(t, match_) * a.confidence <= PartsSum(t, match_)
    && (Parts(t, match_) == 0 ==> a.confidence == 0)
    && (Parts(t, match_) > 0 ==> PartsSum(t, match_) < Parts(t, match_) * a.confidence + Parts(t, match_))
  }

  lemma AssessedScores(p: Path, t: Technology, v: Vulnerability, e: Edge, a: RiskAssessment)
    requires Assess(p, t, v, e) == Some(a)
    ensures Scores(a, t, v, e.confidence) && a.path == p
  {
    hide Assess, Parts, PartsSum;
    PriorityExactly(p, t, v, e);
    ConfidenceExactly(p, t, v, e);
    AssessAlwaysSucceeds(p, t, v, e);
  }

  lemma OnPathJoins(index: NodeIndex, edges: set<Edge>, p: Path)
    ensures OnPath(index, edges, p) <==> Joins(index, edges, p)
  {
    forall e ensures Uses(index, e) <==> Observes(index, e) {
    }
    forall e ensures Threatens(index, e) <==> Matches(index, e) {
    }
    hide Uses, Threatens, ValidEdge, Observes, Matches;
    if OnPath(index, edges, p) {
      var f :| Between(index, edges, p, f);
      var e :| e in edges && Uses(index, e) && e.source == p.asset && e.target == p.technology;
      assert Observes(index, e) && Matches(index, f);
    }
    if Joins(index, edges, p) {
      var e, f :| e in edges && f in edges && Observes(index, e) && Matches(index, f) &&
        e.source == p.asset && e.target == p.technology == f.source && f.target == p.vulnerability;
      assert Between(index, edges, p, f);
    }
  }

  lemma PreferredIsBest(index: NodeIndex, edges: set<Edge>, rank: Edge -> nat, p: Path, e: Edge)
    ensures Preferred(index, edges, rank, p, e) <==>
            BestMatch(rank, MatchesOf(index, edges, p.technology, p.vulnerability), e)
  {
    forall x ensures Between(index, edges, p, x) <==> x in MatchesOf(index, edges, p.technology, p.vulnerability) {
    }
    forall x: Edge ensures Weight(x) == IdentityPart(x.confidence) {
    }
    hide Between, MatchesOf, Weight, IdentityPart;
  }

  /** The assessment is of the entities of its nodes, by a preferred match edge. */
  ghost predicate AssessedBy(index: NodeIndex, edges: set<Edge>, rank: Edge -> nat, a: RiskAssessment, e: Edge) {
    && a.path.technology in index && index[a.path.technology].entity.TechnologyEntity?
    && a.path.vulnerability in index && index[a.path.vulnerability].entity.VulnerabilityEntity?
    && Preferred(index, edges, rank, a.path, e)
    && Scores(a, index[a.path.technology].entity.technology, index[a.path.vulnerability].entity.vulnerability,
              e.confidence)
  }

  /** The list of a run over any graph: one assessment for each path, of the entities of its nodes and by a preferred
      match edge, and none besides; first by priority, then by the order of paths. */
  lemma ListedExactly(index: NodeIndex, edges: set<Edge>, rank: Edge -> nat, order: Path -> nat,
                      list: seq<RiskAssessment>)
    requires AssessesJoin(index, edges, rank, order, list)
    ensures forall p :: OnPath(index, edges, p) <==> exists a | a in list :: a.path == p
    ensures forall a | a in list :: exists e :: AssessedBy(index, edges, rank, a, e)
    ensures forall i, j | 0 <= i < j < |list| ::
              && list[i].path != list[j].path
              && (list[i].priority > list[j].priority ||
                  (list[i].priority == list[j].priority && order(list[i].path) <= order(list[j].path)))
  {
    hide Joins, Picked, OnPath, AssessedBy, MatchesOf;
    forall p ensures OnPath(index, edges, p) <==> exists a | a in list :: a.path == p {
      OnPathJoins(index, edges, p);
    }
    forall a | a in list ensures exists e :: AssessedBy(index, edges, rank, a, e) {
      var e := ByPreferred(index, edges, rank, a);
    }
  }

  lemma ByPreferred(index: NodeIndex, edges: set<Edge>, rank: Edge -> nat, a: RiskAssessment) returns (e: Edge)
    requires Picked(index, rank, MatchesOf(index, edges, a.path.technology, a.path.vulnerability), a.path, a)
    ensures AssessedBy(index, edges, rank, a, e)
  {
    hide Preferred, Scores, BestMatch, MatchesOf, Assess;
    var p := a.path;
    e :| BestMatch(rank, MatchesOf(index, edges, p.technology, p.vulnerability), e) &&
      Assess(p, index[p.technology].entity.technology, index[p.vulnerability].entity.vulnerability, e) == Some(a);
    PreferredIsBest(index, edges, rank, p, e);
    AssessedScores(p, index[p.technology].entity.technology, index[p.vulnerability].entity.vulnerability, e, a);
  }

  /** A run reports PARTIAL exactly when some edge of the graph is of neither kind. */
  lemma PartialExactly(index: NodeIndex, edges: set<Edge>)
    ensures InvalidEdges(index, edges) != {} <==> exists e | e in edges :: !Uses(index, e) && !Threatens(index, e)
  {
    forall e ensures ValidEdge(index, e) <==> Uses(index, e) || Threatens(index, e) {
    }
    hide ValidEdge, Uses, Threatens;
    if e :| e in edges && !Uses(index, e) && !Threatens(index, e) {
      assert e in InvalidEdges(index, edges);
    }
  }

  /** Of several nodes of one identifier the first counts. */
  lemma FirstNodeCounts(nodes: seq<Node>, index: NodeIndex, n: nat)
    requires FirstNodes(nodes, index) && n < |nodes|
    ensures (forall m | 0 <= m < n :: nodes[m].identifier != nodes[n].identifier) ==>
            nodes[n].identifier in index && index[nodes[n].identifier] == nodes[n]
    ensures forall id | id in index :: index[id] in nodes
  {
  }

  /** The pair the assessment is for, and the association it rests on: of the same technology and vulnerability, and
      none of those is more confident. */
  ghost predicate Rests(env: I.Environment, associations: set<AI.Association>, i: Intelligence, a: RiskAssessment,
                        x: AI.Association, w: VulnerabilityAssociation) {
    && x in associations && w in i.associations && x.technology == w.technology &&
       w.vulnerabilityId in i.vulnerabilities
    && a.path == Path("graph:" + x.assetId, "graph:technology-observation:" + env.digest(x.technology),
                      "graph:vulnerability:" + w.vulnerabilityId)
    && (forall u | u in i.associations && u.technology == w.technology && u.vulnerabilityId == w.vulnerabilityId ::
          u.confidence == High ==> w.confidence == High)
    && Scores(a, w.technology, i.vulnerabilities[w.vulnerabilityId], Some(w.confidence))
  }

  /** What a whole run lists: for each observed technology and each vulnerability reported for it one assessment,
      resting
      on one of the associations between the two, and no other assessment. */
  lemma RunListsExactly(env: I.Environment, associations: set<AI.Association>, i: Intelligence,
                        list: seq<RiskAssessment>)
    requires I.AssessesObservations(env, associations, i, list)
    ensures forall x, w | x in associations && w in i.associations && x.technology == w.technology ::
              exists a | a in list ::
                a.path == Path("graph:" + x.assetId, "graph:technology-observation:" + env.digest(x.technology),
                               "graph:vulnerability:" + w.vulnerabilityId)
    ensures forall a | a in list :: exists x, w :: Rests(env, associations, i, a, x, w)
  {
    hide Scores, I.AssessmentOf, Prioritized, Rests;
    forall x, w | x in associations && w in i.associations && x.technology == w.technology
      ensures exists a | a in list ::
                a.path == Path("graph:" + x.assetId, "graph:technology-observation:" + env.digest(x.technology),
                               "graph:vulnerability:" + w.vulnerabilityId)
    {
      assert I.PathOf(env.digest, x, w) ==
             Path("graph:" + x.assetId, "graph:technology-observation:" + env.digest(x.technology),
                                                "graph:vulnerability:" + w.vulnerabilityId);
    }
    forall a | a in list ensures exists x, w :: Rests(env, associations, i, a, x, w) {
      var x, v :| x in associations && v in i.associations && I.AssessmentOf(env.digest, env.edgeRank, i, x, v, a);
      var w := RestsOn(env, associations, i, a, x, v);
    }
  }

  lemma RestsOn(env: I.Environment, associations: set<AI.Association>, i: Intelligence, a: RiskAssessment,
                x: AI.Association, v: VulnerabilityAssociation) returns (w: VulnerabilityAssociation)
    requires x in associations && v in i.associations && I.AssessmentOf(env.digest, env.edgeRank, i, x, v, a)
    ensures Rests(env, associations, i, a, x, w)
  {
    hide Scores, Assess;
    var matches := I.MatchesFor(env.digest, i.associations, v);
    var e :| BestMatch(env.edgeRank, matches, e) &&
      Assess(a.path, v.technology, i.vulnerabilities[v.vulnerabilityId], e) == Some(a);
    w :| w in i.associations && w.technology == v.technology && w.vulnerabilityId == v.vulnerabilityId &&
      e == MatchEdge(env.digest, w);
    AssessedScores(a.path, v.technology, i.vulnerabilities[v.vulnerabilityId], e, a);
    forall u | u in i.associations && u.technology == w.technology && u.vulnerabilityId == w.vulnerabilityId
      ensures u.confidence == High ==> w.confidence == High
    {
      assert MatchEdge(env.digest, u) in matches;
      assert Prefers(env.edgeRank, e, MatchEdge(env.digest, u));
    }
  }
}
