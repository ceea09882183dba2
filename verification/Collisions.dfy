/** Findings that correlation rejects (domain/finding_correlation.py:452-457, 802-821, 866-889). */
module Collisions {
  import opened Prelude
  import opened Findings
  import opened Grouping
  import opened Anchors
  import opened Correlation
  import opened Correlated
  import opened CanonicalIdentities

  /** A group that holds a finding naming an endpoint and a technology is anchored at that finding's own anchor. */
  lemma AnchoredAtNamed(ordered: seq<Record>, k: nat, x: Record)
    requires Collected(ordered) && k < |GroupsOf(ordered)| && x in GroupsOf(ordered)[k]
    requires Anchor(x).Some? && x.identity.endpoint.Some? && x.identity.technology.Some?
    ensures AnchorFor(GroupsOf(ordered)[k]) == Some(Own(x))
  {
    hide GroupsOf, Merges, Anchor, CommonConcrete, SelectedAnchors, FingerprintUnique, PairwiseMerged,
      ReferencesConflict;
    GroupMembers(ordered, k);
    var group := GroupsOf(ordered)[k];
    GroupAnchored(group);
    assert group[0] in group;
    if |group| == 1 {
      assert group == [x];
      SharedAnchor(group, x);
    } else {
      if group[0] != x {
        GroupShares(group, group[0], x);
      }
      assert x.identity.endpoint.value in Endpoints(group) && x.identity.technology.value in Technologies(group);
      SoleName(Endpoints(group), x.identity.endpoint.value);
      SoleName(Technologies(group), x.identity.technology.value);
    }
  }

  lemma SoleName(names: set<Name>, n: Name)
    requires n in names && |names| <= 1
    ensures Sole(names) == Some(n)
  {
    SubsetSize({n}, names);
  }

  /** Whatever else the collection holds, two findings of one fully named subject and selected reference
      whose concrete references contradict make correlation fail. */
  lemma ContradictionAlwaysFails(ordered: seq<Record>, x: Record, y: Record)
    requires Collected(ordered) && x in ordered && y in ordered && Own(x) == Own(y)
    requires Anchor(x).Some? && x.identity.endpoint.Some? && x.identity.technology.Some?
    requires ReferencesConflict(x.Concrete(), y.Concrete())
    ensures Aggregable(GroupsOf(ordered)) && Outcome(ordered).Failure?
  {
    hide GroupsOf, AnchorFor, AggregateAll, Merges, ReferencesConflict, IdentitiesConflict, Anchor, Unmerged,
      ByIdentity;
    AggregationSucceeds(ordered);
    if AggregateAll(GroupsOf(ordered)).Success? {
      NoSelfConflict(x);
      MergesExactly(x, y);
      var j := GroupHolding(ordered, x);
      var k := GroupHolding(ordered, y);
      GroupMembers(ordered, j);
      assert j != k;
      AnchoredAtNamed(ordered, j, x);
      AnchoredAtNamed(ordered, k, y);
      if j < k {
        SameAnchorRejected(ordered, j, k);
      } else {
        SameAnchorRejected(ordered, k, j);
      }
    }
  }

  function Example(classification: Name, endpoint: Option<Name>, references: set<Reference>): Record {
    Record(Identity(classification, 1, endpoint, None), 1, 1, references, [Evidence(1, 1, 1, 1, 1)], 1, 1, 1, {})
  }

  lemma Sized(r: Record)
    requires |r.references| <= 2 && |r.evidence| == 1
    ensures WithinCaps([r])
  {
    assert EvidenceOf([]) == [];
    assert [r][..0] == [];
    assert EvidenceOf([r]) == r.evidence;
    assert ReferenceCount([r]) == |r.references|;
  }

  lemma Alone(x: Record, y: Record)
    requires !Merges(x, y)
    ensures GroupsOf([x, y]) == [[x], [y]]
  {
    hide Merges;
    assert [x, y][..1] == [x] && [x][..0] == [];
    assert [[x]][..0] == [];
    assert Candidates([], x) == [];
    assert GroupsOf([x]) == Place([], x) == [[x]];
    assert x in [x] && !Fits([x], y);
    assert Candidates([[x]], y) == Candidates([], y) == [];
  }

  lemma PairRejected(a: Record, b: Record)
    requires a.identity != b.identity && Own(a) == Own(b) && Anchor(a).Some?
    requires ReferencesConflict(a.Concrete(), b.Concrete())
    requires |a.references| <= 2 && |a.evidence| == 1 && |b.references| <= 2 && |b.evidence| == 1
    ensures Collected([a, b]) && Aggregable(GroupsOf([a, b])) && Outcome([a, b]) == Failure(ConflictingIdentities)
  {
    hide Anchor, ReferencesConflict, GroupsOf, WithinCaps, AggregateAll, IdentitiesConflict, Unmerged, ByIdentity,
      Merges, Record.Concrete, Aggregate, ReferencesAgree;
    MergesExactly(a, b);
    Alone(a, b);
    Sized(a);
    Sized(b);
    assert PresenceAgrees([a, b]);
    Disagree(a, b);
    CorrelatesExactly([a, b]);
  }

  lemma Disagree(a: Record, b: Record)
    requires Own(a) == Own(b) && ReferencesConflict(a.Concrete(), b.Concrete())
    ensures !ReferencesAgree([a, b])
  {
    hide ReferencesConflict, Own, Record.Concrete;
    assert a in [a, b] && b in [a, b];
  }

  /** Correlation is not total: findings of one asset and endpoint with references {CVE-1, GHSA-1} and
      {CVE-1, GHSA-2} are kept apart, receive one anchor, and are then rejected. */
  lemma KeptApartThenRejected()
    ensures var a := Example(1, Some(7), {Reference(CVE, 1), Reference(GHSA, 1)});
            var b := Example(2, Some(7), {Reference(CVE, 1), Reference(GHSA, 2)});
            Collected([a, b]) && Aggregable(GroupsOf([a, b])) && Outcome([a, b]) == Failure(ConflictingIdentities)
  {
    var a := Example(1, Some(7), {Reference(CVE, 1), Reference(GHSA, 1)});
    var b := Example(2, Some(7), {Reference(CVE, 1), Reference(GHSA, 2)});
    hide ReferencesConflict, Outcome, GroupsOf, Aggregable, Collected;
    Contradict();
    assert Reference(CVE, 1) in a.Concrete() && Reference(CVE, 1) in b.Concrete();
    PairRejected(a, b);
  }

  /** Groups of equal fingerprints may lack a stable anchor: the two findings share GHSA-1 and merge, but one
      of them selects CVE-1. */
  lemma EqualFingerprintsUnstable()
    ensures var a := Example(1, Some(7), {Reference(CVE, 1), Reference(GHSA, 1)});
            var b := Example(1, Some(7), {Reference(GHSA, 1)});
            Aggregable(GroupsOf([a, b])) && Outcome([a, b]) == Failure(UnstableAnchor)
  {
    var a := Example(1, Some(7), {Reference(CVE, 1), Reference(GHSA, 1)});
    var b := Example(1, Some(7), {Reference(GHSA, 1)});
    assert Reference(CVE, 1) in a.Concrete() && Reference(GHSA, 1) in a.Concrete();
    assert b.Concrete() == {Reference(GHSA, 1)};
    assert Anchor(a) == Some(Reference(CVE, 1));
    assert Anchor(b) == Some(Reference(GHSA, 1));
    assert Reference(GHSA, 1) in a.Concrete() * b.Concrete();
    assert OfKind(b.Concrete(), CVE) == {} && OfKind(b.Concrete(), OSV) == {};
    assert Reference(GHSA, 1) in OfKind(a.Concrete(), GHSA) * OfKind(b.Concrete(), GHSA);
    PairUnstable(a, b, Reference(GHSA, 1));
  }

  lemma PairUnstable(a: Record, b: Record, shared: Reference)
    requires a.identity == b.identity && Anchor(a) != Anchor(b) && !ReferencesConflict(a.Concrete(), b.Concrete())
    requires shared in a.Concrete() && shared in b.Concrete() && a.evidence != [] && b.evidence != []
    ensures Aggregable(GroupsOf([a, b])) && Outcome([a, b]) == Failure(UnstableAnchor)
  {
    hide Anchor, ReferencesConflict, GroupsOf, Unmerged, ByIdentity, Merges, Record.Concrete, CommonConcrete,
      SelectedAnchors, WithinCaps, IdentitiesConflict;
    MergesExactly(a, b);
    Together(a, b);
    CommonIsShared([a, b], shared);
    assert a in [a, b] && b in [a, b];
    AnchorForRaises([a, b]);
    assert Aggregate([a, b]) == Failure(UnstableAnchor);
    assert [[a, b]][..0] == [];
    assert AggregateAll([[a, b]]) == Failure(UnstableAnchor);
  }

  lemma OnlyGroup(group: seq<Record>, r: Record)
    requires Fits(group, r)
    ensures Candidates([group], r) == [0]
  {
    hide Fits;
    assert [group][..0] == [];
    assert Candidates([], r) == [];
  }

  lemma Together(x: Record, y: Record)
    requires Merges(x, y)
    ensures GroupsOf([x, y]) == [[x, y]]
  {
    hide Merges, Candidates;
    assert [x, y][..1] == [x] && [x][..0] == [];
    NoGroups(x);
    assert GroupsOf([x]) == Place([], x) == [[x]];
    FitsSingle(x, y);
    OnlyGroup([x], y);
    assert [x] + [y] == [x, y];
  }

  lemma NoGroups(r: Record)
    ensures Candidates([], r) == []
  {
  }

  lemma Contradict()
    ensures var a := Example(1, Some(7), {Reference(CVE, 1), Reference(GHSA, 1)});
            var b := Example(2, Some(7), {Reference(CVE, 1), Reference(GHSA, 2)});
            ReferencesConflict(a.Concrete(), b.Concrete())
  {
    var a := Example(1, Some(7), {Reference(CVE, 1), Reference(GHSA, 1)});
    var b := Example(2, Some(7), {Reference(CVE, 1), Reference(GHSA, 2)});
    assert Reference(GHSA, 1) in OfKind(a.Concrete(), GHSA) && Reference(GHSA, 2) in OfKind(b.Concrete(), GHSA);
    assert OfKind(a.Concrete(), GHSA) * OfKind(b.Concrete(), GHSA) == {};
    assert Reference(CVE, 1) in a.Concrete();
    assert Reference(CVE, 1) in b.Concrete();
  }

  lemma StartsGroup(groups: Groups, r: Record)
    requires |Candidates(groups, r)| != 1
    ensures Place(groups, r) == groups + [[r]]
  {
  }

  lemma FitsSeveral(groups: Groups, r: Record, i: nat, j: nat)
    requires i < j < |groups| && Fits(groups[i], r) && Fits(groups[j], r)
    ensures |Candidates(groups, r)| != 1
  {
    hide Fits, Candidates;
    assert i in Candidates(groups, r) && j in Candidates(groups, r);
  }

  lemma FitsSingle(x: Record, r: Record)
    ensures Fits([x], r) <==> Merges(x, r)
  {
    hide Merges;
    assert x in [x];
  }

  /** Two findings that name different endpoints, then two that name none: the third and the fourth each fit
      several groups, so each starts its own. */
  lemma FourGroups(a: Record, b: Record, c: Record, d: Record)
    requires !Merges(a, b) && Merges(a, c) && Merges(b, c) && Merges(a, d) && Merges(b, d)
    ensures GroupsOf([a, b, c, d]) == [[a], [b], [c], [d]]
  {
    hide Merges, Candidates, Fits, Place;
    Alone(a, b);
    FitsSingle(a, c);
    FitsSingle(b, c);
    FitsSingle(a, d);
    FitsSingle(b, d);
    FitsSeveral([[a], [b]], c, 0, 1);
    StartsGroup([[a], [b]], c);
    FitsSeveral([[a], [b], [c]], d, 0, 1);
    StartsGroup([[a], [b], [c]], d);
    assert [a, b, c][..2] == [a, b] && [a, b, c, d][..3] == [a, b, c];
    assert GroupsOf([a, b, c]) == [[a], [b]] + [[c]] == [[a], [b], [c]];
    assert [[a], [b], [c]] + [[d]] == [[a], [b], [c], [d]];
  }

  /** Without agreement on presence, findings that would merge with each other can collide: the fit of the
      last two findings to both named endpoints keeps them apart. */
  lemma AmbiguousSubjectsCollide()
    ensures var a, b := Example(1, Some(7), {Reference(CVE, 1)}), Example(2, Some(8), {Reference(CVE, 1)});
            var c, d := Example(3, None, {Reference(CVE, 1)}), Example(4, None, {Reference(CVE, 1)});
            Collected([a, b, c, d]) && ReferencesAgree([a, b, c, d])
            && Aggregable(GroupsOf([a, b, c, d])) && Outcome([a, b, c, d]) == Failure(ConflictingIdentities)
  {
    var a, b := Example(1, Some(7), {Reference(CVE, 1)}), Example(2, Some(8), {Reference(CVE, 1)});
    var c, d := Example(3, None, {Reference(CVE, 1)}), Example(4, None, {Reference(CVE, 1)});
    hide ReferencesAgree, Anchor, Record.Concrete, GroupsOf, Outcome, Aggregable, Collected, FingerprintUnique,
      Distinct, Example;
    OneReference(1, Some(7));
    OneReference(2, Some(8));
    OneReference(3, None);
    OneReference(4, None);
    FourDistinct(a, b, c, d);
    AmbiguityRejected(a, b, c, d);
  }

  lemma FourDistinct(a: Record, b: Record, c: Record, d: Record)
    requires a.identity != b.identity && a.identity != c.identity && a.identity != d.identity
    requires b.identity != c.identity && b.identity != d.identity && c.identity != d.identity
    ensures Distinct([a, b, c, d]) && FingerprintUnique([a, b, c, d])
  {
  }

  lemma OneReference(classification: Name, endpoint: Option<Name>)
    ensures var r := Example(classification, endpoint, {Reference(CVE, 1)});
            && r.identity == Identity(classification, 1, endpoint, None) && |r.references| == |r.evidence| == 1
            && r.Concrete() == {Reference(CVE, 1)} && |r.Concrete()| <= 1 && Anchor(r) == Some(Reference(CVE, 1))
  {
    assert Example(classification, endpoint, {Reference(CVE, 1)}).Concrete() == {Reference(CVE, 1)};
  }

  lemma AmbiguityRejected(a: Record, b: Record, c: Record, d: Record)
    requires Distinct([a, b, c, d]) && FingerprintUnique([a, b, c, d])
    requires Anchor(a).Some? && Anchor(a) == Anchor(b) == Anchor(c) == Anchor(d) &&
             a.Concrete() == b.Concrete() == c.Concrete() == d.Concrete()
    requires a.identity.asset == b.identity.asset == c.identity.asset == d.identity.asset
    requires a.identity.technology == b.identity.technology == c.identity.technology == d.identity.technology
    requires Differ(a.identity.endpoint, b.identity.endpoint) && c.identity.endpoint.None? && d.identity.endpoint.None?
    requires forall r | r in [a, b, c, d] :: |r.references| <= 2 && |r.evidence| == 1
    requires |a.Concrete()| <= 1
    ensures ReferencesAgree([a, b, c, d])
    ensures Collected([a, b, c, d]) && Aggregable(GroupsOf([a, b, c, d])) &&
            Outcome([a, b, c, d]) == Failure(ConflictingIdentities)
  {
    hide ReferencesConflict, Anchor, GroupsOf, Merges, Record.Concrete, WithinCaps, AggregateAll, IdentitiesConflict,
      Unmerged, ByIdentity, Aggregate, AnchorFor;
    var all := [a, b, c, d];
    assert a in all && b in all && c in all && d in all;
    OneReferenceAgrees(all);
    NoSelfConflict(a);
    MergesExactly(a, b);
    MergesExactly(a, c);
    MergesExactly(b, c);
    MergesExactly(a, d);
    MergesExactly(b, d);
    FourGroups(a, b, c, d);
    Sized(a);
    Sized(b);
    Sized(c);
    Sized(d);
    AggregationSucceeds(all);
    SharedAnchor([c], c);
    SharedAnchor([d], d);
    SameAnchorRejected(all, 2, 3);
  }

  /** Grouping raises for want of a stable anchor only when two findings of one fingerprint share a concrete
      reference and select different ones. */
  lemma UnstableOnlyForEqualFingerprints(ordered: seq<Record>) returns (x: Record, y: Record, shared: Reference)
    requires Distinct(ordered) && Evidenced(ordered)
    requires Aggregable(GroupsOf(ordered)) && Outcome(ordered) == Failure(UnstableAnchor)
    ensures x in ordered && y in ordered && x.identity == y.identity && Anchor(x) != Anchor(y)
    ensures shared in x.Concrete() && shared in y.Concrete()
  {
    hide GroupsOf, Unmerged, ByIdentity, IdentitiesConflict, Anchor, Record.Concrete, Merges, CommonConcrete,
      AnchorFor, AggregateAll, Aggregate;
    var groups := GroupsOf(ordered);
    var k := FailedGroup(groups);
    var group := groups[k];
    FailsUnanchored(group);
    AnchorForRaises(group);
    x, y :| x in group && y in group && Anchor(x) != Anchor(y);
    shared :| shared in CommonConcrete(group);
    CommonIsShared(group, shared);
    GroupsPartition(ordered);
    MergesExactly(x, y);
    assert x in groups[k] && y in groups[k];
  }

  lemma FailsUnanchored(group: seq<Record>)
    requires group != [] && Evidenced(group) && Aggregate(group) == Failure(UnstableAnchor)
    ensures AnchorFor(group).None?
  {
    hide AnchorFor, EvidenceOf, ReferencesOf, Disagreements;
  }
}
