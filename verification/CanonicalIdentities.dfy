/** Exactly when correlated findings collide on one canonical identity
    (domain/finding_correlation.py:452-457, 757-821, 866-896). */
module CanonicalIdentities {
  import opened Prelude
  import opened Findings
  import opened Grouping
  import opened Anchors
  import opened Correlation
  import opened Correlated

  /** The anchor of a finding that is grouped alone. */
  function Own(r: Record): CanonicalAnchor {
    var i := r.identity;
    match Anchor(r)
    case None => ClassificationSubject(i)
    case Some(reference) => ConcreteReference(i.asset, reference, i.endpoint, i.technology)
  }

  /** Findings of one asset and selected reference either all name an endpoint or none does, and so for technologies. */
  ghost predicate PresenceAgrees(records: seq<Record>) {
    forall x, y | x in records && y in records && x.identity.asset == y.identity.asset && Anchor(x).Some? &&
      Anchor(x) == Anchor(y) ::
      x.identity.endpoint.Some? == y.identity.endpoint.Some? &&
        x.identity.technology.Some? == y.identity.technology.Some?
  }

  /** No two findings of one subject and selected reference carry contradicting concrete references. */
  ghost predicate ReferencesAgree(records: seq<Record>) {
    forall x, y | x in records && y in records && Own(x) == Own(y) :: !ReferencesConflict(x.Concrete(), y.Concrete())
  }

  /** Groups are the classes of findings with equal subjects, for some notion of subject. */
  ghost predicate ClassesBy(subject: Record -> CanonicalAnchor, groups: Groups) {
    forall j: nat, k: nat, x, y | j < |groups| && k < |groups| && x in groups[j] && y in groups[k] ::
      subject(x) == subject(y) <==> j == k
  }

  /** Findings merge exactly with the others of their subject. */
  ghost predicate MergesBy(subject: Record -> CanonicalAnchor, records: seq<Record>) {
    forall x, y | x in records && y in records && x != y :: Merges(x, y) <==> subject(x) == subject(y)
  }

  ghost predicate Classes(groups: Groups) {
    ClassesBy(Own, groups)
  }

  lemma MergesOwn(records: seq<Record>, x: Record, y: Record)
    requires FingerprintUnique(records) && PresenceAgrees(records) && x in records && y in records && x != y
    ensures Merges(x, y) <==> Own(x) == Own(y) && !ReferencesConflict(x.Concrete(), y.Concrete())
    ensures Own(x) == Own(y) ==> Anchor(x).Some?
  {
    hide Merges, ReferencesConflict, Anchor, Record.Concrete;
    MergesExactly(x, y);
    assert x.identity != y.identity;
  }

  lemma FitsItsClass(subject: Record -> CanonicalAnchor, group: seq<Record>, r: Record, records: seq<Record>)
    requires MergesBy(subject, records) && group != [] && r in records && r !in group
    requires forall x | x in group :: x in records && subject(x) == subject(group[0])
    ensures Fits(group, r) <==> subject(group[0]) == subject(r)
  {
    hide Merges;
    assert group[0] in group;
  }

  lemma OneOfClass(subject: Record -> CanonicalAnchor, groups: Groups, j: nat, k: nat)
    requires ClassesBy(subject, groups) && j < |groups| && k < |groups| && groups[j] != [] && groups[k] != []
    requires subject(groups[j][0]) == subject(groups[k][0])
    ensures j == k
  {
    assert groups[j][0] in groups[j] && groups[k][0] in groups[k];
  }

  /** The groups are of one subject each, none is empty, and the record is in none. */
  ghost predicate Awaiting(subject: Record -> CanonicalAnchor, groups: Groups, r: Record, records: seq<Record>) {
    && ClassesBy(subject, groups) && r in records
    && (forall k: nat, x | k < |groups| && x in groups[k] :: x in records && x != r)
    && (forall k: nat | k < |groups| :: groups[k] != [])
  }

  lemma PlaceClasses(subject: Record -> CanonicalAnchor, groups: Groups, r: Record, records: seq<Record>)
    requires MergesBy(subject, records) && Awaiting(subject, groups, r, records)
    ensures ClassesBy(subject, Place(groups, r))
  {
    hide MergesBy, Candidates, Fits, ClassesBy;
    var c := Candidates(groups, r);
    forall k: nat | k < |groups| ensures k in c <==> subject(groups[k][0]) == subject(r) {
      OfOneSubject(subject, groups, k);
      FitsItsClass(subject, groups[k], r, records);
    }
    if |c| >= 2 {
      assert c[0] < c[1] && c[0] in c && c[1] in c;
      OneOfClass(subject, groups, c[0], c[1]);
    }
    if |c| == 0 {
      StartsClass(subject, groups, r, records);
    } else {
      assert c == [c[0]] && c[0] in c;
      JoinsClass(subject, groups, c[0], r, records);
    }
  }

  lemma OfOneSubject(subject: Record -> CanonicalAnchor, groups: Groups, k: nat)
    requires ClassesBy(subject, groups) && k < |groups| && groups[k] != []
    ensures forall x | x in groups[k] :: subject(x) == subject(groups[k][0])
  {
    assert groups[k][0] in groups[k];
  }

  lemma StartsClass(subject: Record -> CanonicalAnchor, groups: Groups, r: Record, records: seq<Record>)
    requires Awaiting(subject, groups, r, records)
    requires forall k: nat | k < |groups| :: subject(groups[k][0]) != subject(r)
    ensures ClassesBy(subject, groups + [[r]])
  {
    forall k: nat, x | k < |groups| && x in groups[k] ensures subject(x) != subject(r) {
      OfOneSubject(subject, groups, k);
    }
  }

  lemma JoinsClass(subject: Record -> CanonicalAnchor, groups: Groups, n: nat, r: Record, records: seq<Record>)
    requires Awaiting(subject, groups, r, records) && n < |groups|
    requires forall k: nat | k < |groups| :: k == n <==> subject(groups[k][0]) == subject(r)
    ensures ClassesBy(subject, groups[n := groups[n] + [r]])
  {
    var placed := groups[n := groups[n] + [r]];
    forall k: nat, x | k < |placed| && x in placed[k] ensures subject(x) == subject(groups[k][0]) {
      OfOneSubject(subject, groups, k);
      assert x == r || x in groups[k];
    }
    forall j: nat, k: nat | j < |groups| && k < |groups| && subject(groups[j][0]) == subject(groups[k][0])
      ensures j == k
    {
      assert groups[j][0] in groups[j] && groups[k][0] in groups[k];
    }
  }

  /** When findings merge exactly with the others of their subject, grouping computes the classes of subjects. */
  lemma {:induction false} GroupsBySubject(subject: Record -> CanonicalAnchor, ordered: seq<Record>)
    requires Collected(ordered) && MergesBy(subject, ordered)
    ensures ClassesBy(subject, GroupsOf(ordered))
  {
    hide Place, Merges;
    if ordered != [] {
      var n := |ordered| - 1;
      var front := GroupsOf(ordered[..n]);
      assert Collected(ordered[..n]);
      GroupsBySubject(subject, ordered[..n]);
      forall k: nat | k < |front|
        ensures front[k] != [] && forall x | x in front[k] :: x in ordered && x != ordered[n]
      {
        GroupMembers(ordered[..n], k);
      }
      hide ClassesBy;
      PlaceClasses(subject, front, ordered[n], ordered);
    }
  }

  /** When neither presence nor references disagree, grouping computes the classes of equal subjects. */
  lemma GroupsAreClasses(ordered: seq<Record>)
    requires Collected(ordered) && PresenceAgrees(ordered) && ReferencesAgree(ordered)
    ensures Classes(GroupsOf(ordered))
  {
    hide Own, GroupsOf, Merges, ReferencesConflict, PresenceAgrees;
    forall x, y | x in ordered && y in ordered && x != y ensures Merges(x, y) <==> Own(x) == Own(y) {
      MergesOwn(ordered, x, y);
    }
    GroupsBySubject(Own, ordered);
  }

  lemma SoleEndpoint(group: seq<Record>, e: Option<Name>)
    requires group != [] && forall x | x in group :: x.identity.endpoint == e
    ensures Sole(Endpoints(group)) == e
  {
    assert group[0] in group;
    assert Endpoints(group) == if e.Some? then {e.value} else {};
  }

  lemma SoleTechnology(group: seq<Record>, t: Option<Name>)
    requires group != [] && forall x | x in group :: x.identity.technology == t
    ensures Sole(Technologies(group)) == t
  {
    assert group[0] in group;
    assert Technologies(group) == if t.Some? then {t.value} else {};
  }

  /** A group whose findings share their own anchor is anchored there. */
  lemma SharedAnchor(group: seq<Record>, x: Record)
    requires x in group && forall y | y in group :: Own(y) == Own(x)
    ensures AnchorFor(group) == Some(Own(x))
  {
    hide Selected, Record.Concrete, CommonConcrete, Endpoints, Technologies, Sole;
    assert group[0] in group;
    AnchorForRaises(group);
    forall y | y in group ensures Anchor(y) == Anchor(x) {
      assert Own(y) == Own(x);
    }
    if Anchor(x).Some? {
      SharedReference(group, Anchor(x).value);
      forall y | y in group
        ensures y.identity.endpoint == x.identity.endpoint && y.identity.technology == x.identity.technology
      {
        assert Own(y) == Own(x);
      }
      SoleEndpoint(group, x.identity.endpoint);
      SoleTechnology(group, x.identity.technology);
    } else {
      NothingCommon(group);
    }
  }

  lemma NothingCommon(group: seq<Record>)
    requires group != [] && Anchor(group[0]).None?
    ensures CommonConcrete(group) == {}
  {
    AnchorIsConcrete(group[0]);
    hide Anchor, Record.Concrete, CommonConcrete;
    assert group[0] in group;
    forall c ensures c !in CommonConcrete(group) {
      CommonIsShared(group, c);
    }
  }

  /** Under agreement on presence, every group is anchored at the own anchor of each of its findings. */
  lemma AnchoredAtOwn(ordered: seq<Record>, k: nat, x: Record)
    requires Collected(ordered) && PresenceAgrees(ordered)
    requires k < |GroupsOf(ordered)| && x in GroupsOf(ordered)[k]
    ensures AnchorFor(GroupsOf(ordered)[k]) == Some(Own(x))
  {
    hide GroupsOf, Merges, Own, AnchorFor, PresenceAgrees;
    GroupMembers(ordered, k);
    var group := GroupsOf(ordered)[k];
    forall y | y in group ensures Own(y) == Own(x) {
      if y != x {
        MergesOwn(ordered, y, x);
      }
    }
    SharedAnchor(group, x);
  }

  lemma FindingOf(ordered: seq<Record>, k: nat)
    requires Collected(ordered) && k < |GroupsOf(ordered)|
    requires Aggregable(GroupsOf(ordered)) && AggregateAll(GroupsOf(ordered)).Success?
    ensures var f := AggregateAll(GroupsOf(ordered)).value[k];
            Some(f.anchor) == AnchorFor(GroupsOf(ordered)[k]) && f.sources == Elements(GroupsOf(ordered)[k])
  {
    hide GroupsOf, AnchorFor, Aggregate;
    GroupMembers(ordered, k);
    AggregatedEach(GroupsOf(ordered), k);
    AggregatesWithinCaps(GroupsOf(ordered)[k]);
  }

  /** Two findings in different groups that end up anchored alike make the collection reject the result. */
  lemma SameAnchorRejected(ordered: seq<Record>, j: nat, k: nat)
    requires Collected(ordered) && j < k < |GroupsOf(ordered)|
    requires Aggregable(GroupsOf(ordered)) && AggregateAll(GroupsOf(ordered)).Success?
    requires AnchorFor(GroupsOf(ordered)[j]) == AnchorFor(GroupsOf(ordered)[k])
    ensures IdentitiesConflict(AggregateAll(GroupsOf(ordered)).value)
  {
    hide GroupsOf, AnchorFor, AggregateAll;
    var groups, findings := GroupsOf(ordered), AggregateAll(GroupsOf(ordered)).value;
    FindingOf(ordered, j);
    FindingOf(ordered, k);
    GroupMembers(ordered, j);
    var x := groups[j][0];
    if x in groups[k] {
      InOneGroup(ordered, j, k, x);
    }
    assert x in findings[j].sources && x !in findings[k].sources;
    assert Clash(findings[j], findings[k]);
  }

  /** Two findings of one subject and selected reference whose concrete references contradict collide. */
  lemma ContradictionRejected(ordered: seq<Record>, x: Record, y: Record)
    requires Collected(ordered) && PresenceAgrees(ordered) && x in ordered && y in ordered
    requires Own(x) == Own(y) && ReferencesConflict(x.Concrete(), y.Concrete())
    requires Aggregable(GroupsOf(ordered)) && AggregateAll(GroupsOf(ordered)).Success?
    ensures IdentitiesConflict(AggregateAll(GroupsOf(ordered)).value)
  {
    hide GroupsOf, AnchorFor, AggregateAll, Own, Merges, ReferencesConflict, IdentitiesConflict, PresenceAgrees;
    NoSelfConflict(x);
    MergesOwn(ordered, x, y);
    var j := GroupHolding(ordered, x);
    var k := GroupHolding(ordered, y);
    GroupMembers(ordered, j);
    assert j != k;
    AnchoredAtOwn(ordered, j, x);
    AnchoredAtOwn(ordered, k, y);
    if j < k {
      SameAnchorRejected(ordered, j, k);
    } else {
      SameAnchorRejected(ordered, k, j);
    }
  }

  lemma NoSelfConflict(x: Record)
    ensures !ReferencesConflict(x.Concrete(), x.Concrete())
  {
    assert x.Concrete() * x.Concrete() == x.Concrete();
    forall kind ensures OfKind(x.Concrete(), kind) * OfKind(x.Concrete(), kind) == OfKind(x.Concrete(), kind) {
    }
  }

  lemma ClassesDoNotCollide(ordered: seq<Record>)
    requires Collected(ordered) && PresenceAgrees(ordered) && ReferencesAgree(ordered)
    requires Aggregable(GroupsOf(ordered)) && AggregateAll(GroupsOf(ordered)).Success?
    ensures !IdentitiesConflict(AggregateAll(GroupsOf(ordered)).value)
  {
    hide GroupsOf, AnchorFor, AggregateAll, Own, Merges, ReferencesAgree, PresenceAgrees;
    GroupsAreClasses(ordered);
    var groups, findings := GroupsOf(ordered), AggregateAll(GroupsOf(ordered)).value;
    forall j, k | 0 <= j < |findings| && 0 <= k < |findings| && j != k
      ensures findings[j].anchor != findings[k].anchor
    {
      FindingOf(ordered, j);
      FindingOf(ordered, k);
      GroupMembers(ordered, j);
      GroupMembers(ordered, k);
      AnchoredAtOwn(ordered, j, groups[j][0]);
      AnchoredAtOwn(ordered, k, groups[k][0]);
      assert groups[j][0] in groups[j] && groups[k][0] in groups[k];
    }
  }

  /** Correlation of a collection whose findings agree on presence succeeds exactly when no two findings
      of one subject and selected reference contradict each other and every group is within the caps. */
  lemma CorrelatesExactly(ordered: seq<Record>)
    requires Collected(ordered) && PresenceAgrees(ordered) && |ordered| <= MAX_RECORDS
    ensures Aggregable(GroupsOf(ordered))
    ensures Outcome(ordered).Success? <==>
            ReferencesAgree(ordered) && forall k: nat | k < |GroupsOf(ordered)| :: WithinCaps(GroupsOf(ordered)[k])
    ensures Outcome(ordered).Failure? ==> Outcome(ordered).error in {TooManyItems, ConflictingIdentities}
    ensures Outcome(ordered).Success? ==> Classes(GroupsOf(ordered))
    ensures !ReferencesAgree(ordered) &&
            (forall k: nat | k < |GroupsOf(ordered)| :: WithinCaps(GroupsOf(ordered)[k])) ==>
            Outcome(ordered) == Failure(ConflictingIdentities)
  {
    hide GroupsOf, AggregateAll, Own, ReferencesConflict, IdentitiesConflict, PresenceAgrees, WithinCaps, Unmerged,
      ByIdentity, Aggregate;
    AggregationSucceeds(ordered);
    DecisionsWithinCap(ordered);
    var all := AggregateAll(GroupsOf(ordered));
    if all.Success? {
      if ReferencesAgree(ordered) {
        ClassesDoNotCollide(ordered);
        GroupsAreClasses(ordered);
      } else {
        var x, y :| x in ordered && y in ordered && Own(x) == Own(y) && ReferencesConflict(x.Concrete(), y.Concrete());
        ContradictionRejected(ordered, x, y);
      }
    } else {
      AllErrors(GroupsOf(ordered));
    }
  }

  /** Findings with at most one CVE, GHSA or OSV reference each never contradict inside a subject. */
  lemma OneReferenceAgrees(records: seq<Record>)
    requires forall r | r in records :: |r.Concrete()| <= 1
    ensures ReferencesAgree(records)
  {
    hide Anchor, Record.Concrete;
    forall x, y | x in records && y in records && Own(x) == Own(y)
      ensures !ReferencesConflict(x.Concrete(), y.Concrete())
    {
      AnchorIsConcrete(x);
      AnchorIsConcrete(y);
      NoSelfConflict(x);
      if Anchor(x).Some? {
        SubsetSize({Anchor(x).value}, x.Concrete());
        SubsetSize({Anchor(x).value}, y.Concrete());
      }
    }
  }

  /** What the findings of one asset and selected reference have in common, whatever endpoint or technology they
      name; findings without a concrete reference stand for themselves. */
  function Subject(r: Record): CanonicalAnchor {
    match Anchor(r)
    case None => ClassificationSubject(r.identity)
    case Some(reference) => ConcreteReference(r.identity.asset, reference, None, None)
  }

  /** An anchor without endpoint and technology. */
  function Reduced(a: CanonicalAnchor): CanonicalAnchor {
    match a
    case ClassificationSubject(_) => a
    case ConcreteReference(asset, reference, _, _) => ConcreteReference(asset, reference, None, None)
  }

  /** No two findings of one asset and selected reference contradict each other; some may name an endpoint or a
      technology that others leave out. */
  ghost predicate SubjectsCompatible(records: seq<Record>) {
    forall x, y | x in records && y in records && Subject(x) == Subject(y) :: Compatible(x, y)
  }

  lemma CompatibleMerge(records: seq<Record>, x: Record, y: Record)
    requires FingerprintUnique(records) && SubjectsCompatible(records) && x in records && y in records && x != y
    ensures Merges(x, y) <==> Subject(x) == Subject(y)
  {
    hide Merges, ReferencesConflict, Anchor, Record.Concrete;
    MergesExactly(x, y);
    assert x.identity != y.identity;
  }

  lemma AnchorNamesSubject(group: seq<Record>, x: Record)
    requires x in group && Distinct(group) && FingerprintUnique(group) && PairwiseMerged(group)
    ensures AnchorFor(group).Some? && Reduced(AnchorFor(group).value) == Subject(x)
  {
    hide Merges, Anchor, CommonConcrete, SelectedAnchors, FingerprintUnique, PairwiseMerged, ReferencesConflict,
      Endpoints, Technologies;
    GroupAnchored(group);
    assert group[0] in group;
    if |group| == 1 {
      assert group == [x];
      SharedAnchor(group, x);
    } else if group[0] != x {
      GroupShares(group, group[0], x);
    }
  }

  lemma CompatibleDoNotCollide(ordered: seq<Record>)
    requires Collected(ordered) && ClassesBy(Subject, GroupsOf(ordered))
    requires Aggregable(GroupsOf(ordered)) && AggregateAll(GroupsOf(ordered)).Success?
    ensures !IdentitiesConflict(AggregateAll(GroupsOf(ordered)).value)
  {
    hide GroupsOf, AnchorFor, AggregateAll, Subject, Merges, PairwiseMerged, Reduced;
    var groups, findings := GroupsOf(ordered), AggregateAll(GroupsOf(ordered)).value;
    forall j, k | 0 <= j < |findings| && 0 <= k < |findings| && j != k
      ensures findings[j].anchor != findings[k].anchor
    {
      FindingOf(ordered, j);
      FindingOf(ordered, k);
      GroupMembers(ordered, j);
      GroupMembers(ordered, k);
      AnchorNamesSubject(groups[j], groups[j][0]);
      AnchorNamesSubject(groups[k], groups[k][0]);
      assert groups[j][0] in groups[j] && groups[k][0] in groups[k];
    }
  }

  /** Findings that may leave an endpoint or technology out, but never contradict the others of their asset and
      selected reference, are grouped by asset and selected reference, and nothing collides. */
  lemma CompatibleCorrelate(ordered: seq<Record>)
    requires Collected(ordered) && SubjectsCompatible(ordered) && |ordered| <= MAX_RECORDS
    ensures ClassesBy(Subject, GroupsOf(ordered)) && Aggregable(GroupsOf(ordered))
    ensures Outcome(ordered).Success? <==> forall k: nat | k < |GroupsOf(ordered)| :: WithinCaps(GroupsOf(ordered)[k])
    ensures Outcome(ordered).Failure? ==> Outcome(ordered).error == TooManyItems
  {
    hide GroupsOf, AggregateAll, Subject, Merges, IdentitiesConflict, WithinCaps, Unmerged, ByIdentity, Aggregate,
      Compatible;
    forall x, y | x in ordered && y in ordered && x != y ensures Merges(x, y) <==> Subject(x) == Subject(y) {
      CompatibleMerge(ordered, x, y);
    }
    GroupsBySubject(Subject, ordered);
    AggregationSucceeds(ordered);
    DecisionsWithinCap(ordered);
    if AggregateAll(GroupsOf(ordered)).Success? {
      CompatibleDoNotCollide(ordered);
    } else {
      AllErrors(GroupsOf(ordered));
    }
  }
}
