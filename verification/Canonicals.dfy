/** What correlation reports, in terms of the given findings: the decisions kept, the content of every canonical
    finding, and where each finding is placed (domain/finding_correlation.py:748-896). */
module Canonicals {
  import opened Prelude
  import opened Findings
  import opened Comparisons
  import opened Grouping
  import opened Anchors
  import opened Correlation
  import opened Correlated
  import opened CanonicalIdentities

  /** The pair of fingerprints of two findings. */
  function PairFor(x: Record, y: Record): multiset<Identity> {
    multiset{x.identity, y.identity}
  }

  lemma SamePair(a: Identity, b: Identity, c: Identity, d: Identity)
    requires multiset{a, b} == multiset{c, d}
    ensures (a == c && b == d) || (a == d && b == c)
  {
    assert a in multiset{c, d} && b in multiset{c, d} && c in multiset{a, b} && d in multiset{a, b};
  }

  /** A pair of findings is reported as unmerged exactly when the two are not mergeable, whether it was found possible
      or contradictory; every reported decision is the comparison of such a pair. */
  lemma UnmergedExactly(ordered: seq<Record>)
    requires Collected(ordered) && Aggregable(GroupsOf(ordered)) && Outcome(ordered).Success?
    ensures var unmerged := Outcome(ordered).value.unmerged;
            && (forall i, j | 0 <= i < j < |ordered| ::
                  (exists d :: d in unmerged && d.pair == PairFor(ordered[i], ordered[j])) <==>
                  !Mergeable(ordered[i], ordered[j]))
            && (forall d | d in unmerged ::
                  exists i, j ::
                    0 <= i < j < |ordered| && !Mergeable(ordered[i], ordered[j]) &&
                      d == Compare(ordered[i], ordered[j]))
  {
    hide GroupsOf, AggregateAll, IdentitiesConflict, ByIdentity, Compare, Mergeable, Merges;
    var unmerged := Outcome(ordered).value.unmerged;
    forall d | d in unmerged
      ensures exists i, j :: 0 <= i < j < |ordered| && !Mergeable(ordered[i], ordered[j]) &&
                d == Compare(ordered[i], ordered[j])
    {
      var i, j :| 0 <= i < j < |ordered| && !Merges(ordered[i], ordered[j]) && d == Compare(ordered[i], ordered[j]);
      MergesWhenMergeable(ordered[i], ordered[j]);
    }
    forall i, j | 0 <= i < j < |ordered|
      ensures (exists d :: d in unmerged && d.pair == PairFor(ordered[i], ordered[j])) <==>
              !Mergeable(ordered[i], ordered[j])
    {
      DecisionOfPair(ordered, unmerged, i, j);
    }
  }

  lemma DecisionOfPair(ordered: seq<Record>, unmerged: set<Decision>, i: nat, j: nat)
    requires Collected(ordered) && unmerged == Unmerged(ordered) && i < j < |ordered|
    ensures (exists d :: d in unmerged && d.pair == PairFor(ordered[i], ordered[j])) <==>
            !Mergeable(ordered[i], ordered[j])
  {
    hide Compare, Mergeable, Merges;
    MergesWhenMergeable(ordered[i], ordered[j]);
    PairExactly(ordered[i], ordered[j]);
    if !Mergeable(ordered[i], ordered[j]) {
      assert Compare(ordered[i], ordered[j]) in unmerged;
    }
    if d :| d in unmerged && d.pair == PairFor(ordered[i], ordered[j]) {
      var a, b :| 0 <= a < b < |ordered| && !Merges(ordered[a], ordered[b]) && d == Compare(ordered[a], ordered[b]);
      PairExactly(ordered[a], ordered[b]);
      SamePair(ordered[a].identity, ordered[b].identity, ordered[i].identity, ordered[j].identity);
    }
  }

  /** Where one more finding goes: into the only group all of whose findings are mergeable with it, and otherwise, be
      there none or several, into a group of its own. */
  lemma PlacedExactly(ordered: seq<Record>, r: Record)
    ensures var before, after := GroupsOf(ordered), GroupsOf(ordered + [r]);
            && (forall k: nat | AdmitsAlone(before, k, r) :: after == before[k := before[k] + [r]])
            && (!(exists k: nat :: AdmitsAlone(before, k, r)) ==> after == before + [[r]])
  {
    hide Mergeable, Merges, Candidates;
    var before := GroupsOf(ordered);
    assert (ordered + [r])[..|ordered|] == ordered;
    var c := Candidates(before, r);
    if |c| == 1 {
      SoleCandidate(before, r);
    }
    forall k: nat | AdmitsAlone(before, k, r) ensures c == [k] {
      OnlyCandidate(before, k, r);
    }
  }

  lemma SoleCandidate(groups: Groups, r: Record)
    requires |Candidates(groups, r)| == 1
    ensures AdmitsAlone(groups, Candidates(groups, r)[0], r)
  {
    hide Mergeable, Merges, Admits, Fits;
    var c := Candidates(groups, r);
    forall j: nat | j < |groups| ensures Admits(groups[j], r) <==> j == c[0] {
      FitsIfAdmitted(groups[j], r);
      assert Fits(groups[j], r) ==> j in c;
    }
  }

  lemma OnlyCandidate(groups: Groups, k: nat, r: Record)
    requires AdmitsAlone(groups, k, r)
    ensures Candidates(groups, r) == [k]
  {
    hide Mergeable, Merges, Admits, Fits;
    var c := Candidates(groups, r);
    FitsIfAdmitted(groups[k], r);
    assert k in c;
    if |c| >= 2 {
      assert c[0] < c[1];
      FitsIfAdmitted(groups[c[0]], r);
      FitsIfAdmitted(groups[c[1]], r);
    }
  }

  /** Every finding of the group is mergeable with the record. */
  ghost predicate Admits(group: seq<Record>, r: Record) {
    forall x | x in group :: Mergeable(x, r)
  }

  /** The group is the only one. */
  ghost predicate AdmitsAlone(groups: Groups, k: nat, r: Record) {
    k < |groups| && forall j: nat | j < |groups| :: Admits(groups[j], r) <==> j == k
  }

  lemma FitsIfAdmitted(group: seq<Record>, r: Record)
    ensures Fits(group, r) <==> Admits(group, r)
  {
    hide Mergeable, Merges;
    forall x | x in group ensures Merges(x, r) <==> Mergeable(x, r) {
      MergesWhenMergeable(x, r);
    }
  }

  /** A group as grouping makes it. */
  ghost predicate Grouped(group: seq<Record>) {
    group != [] && Distinct(group) && FingerprintUnique(group) && PairwiseMerged(group) && Evidenced(group)
  }

  /** Correlation makes such groups of a collection. */
  lemma GroupsGrouped(ordered: seq<Record>, k: nat)
    requires Collected(ordered) && k < |GroupsOf(ordered)|
    ensures Grouped(GroupsOf(ordered)[k])
  {
    hide GroupsOf, Merges, PairwiseMerged;
    GroupMembers(ordered, k);
  }

  /** The content of a canonical finding, each field exactly what its sources carry. */
  lemma ContentExactly(group: seq<Record>)
    requires group != [] && Evidenced(group) && Aggregate(group).Success?
    ensures var f := Aggregate(group).value;
            && (forall r :: r in f.sources <==> r in group)
            && (forall x :: x in f.references <==> exists r | r in group :: x in r.references)
            && (forall n :: n in f.summaries <==> exists r, e | r in group && e in r.evidence :: e.summary == n)
            && (forall n :: n in f.methods <==> exists r, e | r in group && e in r.evidence :: e.method_ == n)
            && (forall n :: n in f.provenance <==>
                  (exists r | r in group :: r.source == n) ||
                  (exists r, e | r in group && e in r.evidence :: e.source == n))
            && (forall n :: n in f.severities <==> exists r | r in group :: r.severity == n)
  {
    hide AnchorFor, WithinCaps, EvidenceOf, Disagreements, Strongest, Confidences, Qualities, PairwiseMerged,
      FingerprintUnique;
    var f, evidence := Aggregate(group).value, EvidenceOf(group);
    forall e ensures e in evidence <==> exists r | r in group :: e in r.evidence {
      EvidenceCollected(group, e);
    }
    forall n ensures n in f.summaries <==> exists e | e in evidence :: e.summary == n {
    }
  }

  /** Its confidence and quality are the strongest of all its evidence. */
  lemma StrengthIsGreatest(group: seq<Record>)
    requires group != [] && Evidenced(group) && Aggregate(group).Success?
    ensures var f := Aggregate(group).value;
            && (forall r, e | r in group && e in r.evidence :: e.confidence <= f.confidence && e.quality <= f.quality)
            && (exists r, e | r in group && e in r.evidence :: e.confidence == f.confidence)
            && (exists r, e | r in group && e in r.evidence :: e.quality == f.quality)
  {
    hide Aggregate, PairwiseMerged, FingerprintUnique;
    forall r, e | r in group && e in r.evidence
      ensures e.confidence <= Aggregate(group).value.confidence && e.quality <= Aggregate(group).value.quality
    {
      EvidenceRetained(group, r, e);
    }
    StrengthAttained(group);
  }

  lemma GroupedPair(group: seq<Record>, i: nat, j: nat)
    requires Grouped(group) && i < j < |group|
    ensures Mergeable(group[i], group[j]) && Common(group[i], group[j])
  {
    hide Merges, Leads, Contradict, Common;
    assert group[i] != group[j];
    MergesWhenMergeable(group[i], group[j]);
    SameLeadIsCommon(group[i], group[j]);
  }

  lemma SameLeadIsCommon(x: Record, y: Record)
    ensures SameLead(x, y) ==> Common(x, y)
  {
    if z :| Leads(x, z) && Leads(y, z) {
      assert z in x.references && z in y.references;
    }
  }

  /** The one disagreement a canonical finding can record is of classifications, and it does whenever there is one. */
  lemma DisagreementsExactly(group: seq<Record>)
    requires Grouped(group) && Aggregate(group).Success?
    ensures Aggregate(group).value.conflicts ==
            if exists x, y :: x in group && y in group && x.identity.classification != y.identity.classification
            then {Conflict(CLASSIFICATION, false)} else {}
  {
    hide AnchorFor, WithinCaps, EvidenceOf, ReferencesOf, Strongest, Confidences, Qualities, Grouped, Compare,
      Mergeable, Common;
    forall c ensures c in Disagreements(group) <==>
              c == Conflict(CLASSIFICATION, false) &&
              exists x, y :: x in group && y in group && x.identity.classification != y.identity.classification
    {
      DisagreementIs(group, c);
    }
  }

  lemma DisagreementIs(group: seq<Record>, c: Conflict)
    requires Grouped(group)
    ensures c in Disagreements(group) <==>
            c == Conflict(CLASSIFICATION, false) &&
            exists x, y :: x in group && y in group && x.identity.classification != y.identity.classification
  {
    hide Grouped, Compare, Contradict, SameLead, Common;
    if c in Disagreements(group) {
      var i, j :| 0 <= i < j < |group| && c in Compare(group[i], group[j]).conflicts && !c.blocking;
      ConflictsExactly(group[i], group[j], c);
      assert group[i] in group && group[j] in group;
    }
    if c == Conflict(CLASSIFICATION, false) {
      if x, y :| x in group && y in group && x.identity.classification != y.identity.classification {
        var i, j := PositionsOf(group, x, y);
        GroupedPair(group, i, j);
        ConflictsExactly(group[i], group[j], c);
      }
    }
  }

  lemma PositionsOf(group: seq<Record>, x: Record, y: Record) returns (i: nat, j: nat)
    requires x in group && y in group && x != y
    ensures i < j < |group| && ((group[i] == x && group[j] == y) || (group[i] == y && group[j] == x))
  {
    i :| i < |group| && group[i] == x;
    j :| j < |group| && group[j] == y;
    if j < i {
      i, j := j, i;
    }
  }

  /** The anchor: the reference that leads every finding of the group, with the asset and with the endpoint and the
      technology that any of them names; a finding without such a reference stands for itself. */
  lemma AnchorExactly(group: seq<Record>)
    requires Grouped(group)
    ensures AnchorFor(group).Some?
    ensures match AnchorFor(group).value
            case ClassificationSubject(identity) =>
              |group| == 1 && identity == group[0].identity && forall x | x in group[0].references :: !NamesOne(x)
            case ConcreteReference(asset, reference, endpoint, technology) =>
              && (forall r | r in group :: r.identity.asset == asset && Leads(r, reference))
              && (forall n :: endpoint == Some(n) <==> exists r | r in group :: r.identity.endpoint == Some(n))
              && (forall n :: technology == Some(n) <==> exists r | r in group :: r.identity.technology == Some(n))
  {
    hide PairwiseMerged, FingerprintUnique, Evidenced, Anchor, Leads, CommonConcrete, SelectedAnchors, Sole;
    GroupAnchored(group);
    if CommonConcrete(group) == {} {
      SomeNamed(group[0]);
      AloneCommon(group);
    } else {
      var reference := AnchorFor(group).value.reference;
      forall r | r in group ensures r.identity.asset == group[0].identity.asset && Leads(r, reference) {
        LedByAnchor(group, r);
      }
      forall n ensures n in Endpoints(group) <==> exists r | r in group :: r.identity.endpoint == Some(n) {
      }
      forall n ensures n in Technologies(group) <==> exists r | r in group :: r.identity.technology == Some(n) {
      }
      hide Endpoints, Technologies;
      SoleIs(Endpoints(group));
      SoleIs(Technologies(group));
    }
  }

  lemma AloneCommon(group: seq<Record>)
    requires |group| == 1
    ensures CommonConcrete(group) == group[0].Concrete()
  {
  }

  lemma SoleIs(names: set<Name>)
    requires |names| <= 1
    ensures forall n :: Sole(names) == Some(n) <==> n in names
  {
    if n :| n in names {
      SubsetSize({n}, names);
    }
  }

  lemma LedByAnchor(group: seq<Record>, r: Record)
    requires Grouped(group) && r in group && CommonConcrete(group) != {} && AnchorFor(group).Some?
    ensures r.identity.asset == group[0].identity.asset
    ensures Anchor(group[0]).Some? && Leads(r, Anchor(group[0]).value)
  {
    hide Anchor, Leads, CommonConcrete, SelectedAnchors, Merges, Contradict, ReferencesConflict;
    LeadIsAnchor(r);
    if |group| >= 2 {
      OneAnchor(group);
      if r != group[0] {
        GroupShares(group, r, group[0]);
      }
    } else {
      AloneCommon(group);
      SomeNamed(group[0]);
    }
  }

  /** The size caps, in numbers: at most 4096 references counted with repetition, and at most 4096 findings and pieces
      of evidence together. */
  lemma CapsExactly(group: seq<Record>)
    requires Grouped(group)
    ensures Aggregate(group).Success? <==>
            Total(group, (r: Record) => |r.references|) <= 4096 &&
              |group| + Total(group, (r: Record) => |r.evidence|) <= 4096
  {
    hide Aggregate;
    AggregatesWithinCaps(group);
    CountsAreTotals(group);
  }

  function Total(group: seq<Record>, size: Record -> nat): nat {
    if group == [] then 0 else size(group[0]) + Total(group[1..], size)
  }

  lemma {:induction false} CountsAreTotals(group: seq<Record>)
    ensures ReferenceCount(group) == Total(group, (r: Record) => |r.references|)
    ensures |EvidenceOf(group)| == Total(group, (r: Record) => |r.evidence|)
  {
    if group != [] {
      var n := |group| - 1;
      CountsAreTotals(group[..n]);
      TotalLast(group, (r: Record) => |r.references|);
      TotalLast(group, (r: Record) => |r.evidence|);
    }
  }

  lemma {:induction false} TotalLast(group: seq<Record>, size: Record -> nat)
    requires group != []
    ensures Total(group, size) == Total(group[..|group| - 1], size) + size(group[|group| - 1])
  {
    if |group| > 1 {
      TotalLast(group[1..], size);
      assert group[1..][..|group| - 2] == group[..|group| - 1][1..];
    }
  }

  /** The anchors of different groups are different. */
  ghost predicate Apart(groups: Groups)
    requires forall k: nat | k < |groups| :: groups[k] != []
  {
    forall j: nat, k: nat | j < |groups| && k < |groups| && AnchorFor(groups[j]) == AnchorFor(groups[k]) :: j == k
  }

  /** Canonical findings conflict exactly when two groups get one anchor. */
  lemma ConflictExactly(ordered: seq<Record>)
    requires Collected(ordered) && Aggregable(GroupsOf(ordered)) && AggregateAll(GroupsOf(ordered)).Success?
    ensures IdentitiesConflict(AggregateAll(GroupsOf(ordered)).value) <==> !Apart(GroupsOf(ordered))
  {
    hide GroupsOf, AnchorFor, AggregateAll;
    var groups, findings := GroupsOf(ordered), AggregateAll(GroupsOf(ordered)).value;
    if i, j :| 0 <= i < |findings| && 0 <= j < |findings| && Clash(findings[i], findings[j]) {
      FindingOf(ordered, i);
      FindingOf(ordered, j);
      assert AnchorFor(groups[i]) == AnchorFor(groups[j]) && i != j;
    }
    hide IdentitiesConflict;
    if j: nat, k: nat :| j < k < |groups| && AnchorFor(groups[j]) == AnchorFor(groups[k]) {
      SameAnchorRejected(ordered, j, k);
    }
  }

  /** Correlation of a collection of at most 512 findings succeeds exactly when every group is within the caps and
      the anchors of the groups are different. */
  lemma SucceedsExactly(ordered: seq<Record>)
    requires Collected(ordered) && |ordered| <= 512
    ensures Aggregable(GroupsOf(ordered))
    ensures Outcome(ordered).Success? <==>
            (forall k: nat | k < |GroupsOf(ordered)| :: WithinCaps(GroupsOf(ordered)[k])) && Apart(GroupsOf(ordered))
  {
    hide GroupsOf, AggregateAll, IdentitiesConflict, WithinCaps, Unmerged, ByIdentity, Aggregate, Apart;
    AggregationSucceeds(ordered);
    DecisionsWithinCap(ordered);
    if AggregateAll(GroupsOf(ordered)).Success? {
      ConflictExactly(ordered);
    }
  }

  /** The result holds exactly one canonical finding for each group, under its own anchor. */
  lemma ResultExactly(ordered: seq<Record>)
    requires Collected(ordered) && Aggregable(GroupsOf(ordered)) && Outcome(ordered).Success?
    ensures var groups, result := GroupsOf(ordered), Outcome(ordered).value.byIdentity;
            && (forall k: nat | k < |groups| ::
                  Aggregate(groups[k]).Success? && HoldsAlone(result, Aggregate(groups[k]).value))
            && (forall a | a in result :: exists k: nat | k < |groups| :: Aggregate(groups[k]) == Success(result[a]))
  {
    hide GroupsOf, AggregateAll, Unmerged, Aggregate;
    var groups, findings := GroupsOf(ordered), AggregateAll(GroupsOf(ordered)).value;
    var result := Outcome(ordered).value.byIdentity;
    forall k: nat | k < |groups| ensures Aggregate(groups[k]) == Success(findings[k]) {
      AggregatedEach(groups, k);
    }
    hide ByIdentity;
    forall k: nat | k < |groups| ensures HoldsAlone(result, findings[k]) {
      assert findings[k] in findings;
      assert !Clash(result[findings[k].anchor], findings[k]);
    }
    forall a | a in result ensures exists k: nat | k < |groups| :: Aggregate(groups[k]) == Success(result[a]) {
      var k: nat :| k < |findings| && findings[k] == result[a];
    }
  }

  ghost predicate HoldsAlone(result: map<CanonicalAnchor, CanonicalFinding>, f: CanonicalFinding) {
    f.anchor in result && result[f.anchor] == f
  }

  /** Every finding is a source of exactly one canonical finding of the result. */
  lemma EachReportedOnce(ordered: seq<Record>, x: Record)
    requires Collected(ordered) && Aggregable(GroupsOf(ordered)) && Outcome(ordered).Success? && x in ordered
    ensures var result := Outcome(ordered).value.byIdentity;
            exists a | a in result :: x in result[a].sources && forall b | b in result && x in result[b].sources ::
              b == a
  {
    hide GroupsOf, Outcome, Aggregate;
    var groups, result := GroupsOf(ordered), Outcome(ordered).value.byIdentity;
    ResultExactly(ordered);
    var k := GroupHolding(ordered, x);
    SourcesOfGroup(ordered, k);
    var a := Aggregate(groups[k]).value.anchor;
    forall b | b in result && x in result[b].sources ensures b == a {
      var j: nat :| j < |groups| && Aggregate(groups[j]) == Success(result[b]);
      SourcesOfGroup(ordered, j);
      InOneGroup(ordered, j, k, x);
      assert HoldsAlone(result, Aggregate(groups[k]).value);
      AnchoredUnder(ordered, b);
    }
  }

  lemma SourcesOfGroup(ordered: seq<Record>, k: nat)
    requires Collected(ordered) && Aggregable(GroupsOf(ordered)) && k < |GroupsOf(ordered)|
    ensures Aggregate(GroupsOf(ordered)[k]).Success? ==>
            Aggregate(GroupsOf(ordered)[k]).value.sources == Elements(GroupsOf(ordered)[k])
  {
    hide GroupsOf, Aggregate;
    GroupMembers(ordered, k);
    AggregatesWithinCaps(GroupsOf(ordered)[k]);
  }

  lemma AnchoredUnder(ordered: seq<Record>, b: CanonicalAnchor)
    requires Aggregable(GroupsOf(ordered)) && Outcome(ordered).Success? && b in Outcome(ordered).value.byIdentity
    ensures Outcome(ordered).value.byIdentity[b].anchor == b
  {
    hide GroupsOf, AggregateAll, IdentitiesConflict, Unmerged, ByIdentity;
  }
}
