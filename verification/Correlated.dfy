/** What correlation guarantees for a collection of findings: no finding is lost, no anchor is unstable,
    the cap on decisions is out of reach, and exactly when two groups collide on one canonical identity
    (domain/finding_correlation.py). */
module Correlated {
  import opened Prelude
  import opened Findings
  import opened Grouping
  import opened Anchors
  import opened Correlation

  ghost predicate Evidenced(records: seq<Record>) {
    forall r | r in records :: r.evidence != []
  }

  /** The records of a `FindingRecordCollection` once they are in order: no fingerprint twice. */
  ghost predicate Collected(ordered: seq<Record>) {
    Distinct(ordered) && FingerprintUnique(ordered) && Evidenced(ordered)
  }

  /** Permuting the records of a collection changes neither the order they are grouped in nor the result. */
  lemma OrderOfRecordsIrrelevant(key: Record -> nat, a: seq<Record>, b: seq<Record>, records: seq<Record>,
                                 permuted: seq<Record>)
    requires SeparatesFingerprints(key) && FingerprintUnique(records) && multiset(records) == multiset(permuted)
    requires Ordered(key, a, records) && Ordered(key, b, permuted)
    ensures a == b && |records| == |permuted|
  {
    assert |multiset(records)| == |multiset(permuted)|;
    forall r ensures r in records <==> r in permuted {
      assert r in multiset(records) <==> r in multiset(permuted);
    }
    OrderedUnique(key, a, b);
  }

  lemma GroupMembers(ordered: seq<Record>, k: nat)
    requires Collected(ordered) && k < |GroupsOf(ordered)|
    ensures Aggregable(GroupsOf(ordered))
    ensures var g := GroupsOf(ordered)[k];
            g != [] && Distinct(g) && FingerprintUnique(g) && PairwiseMerged(g) && forall r | r in g :: r in ordered
  {
    hide GroupsOf, Merges;
    GroupsAggregable(ordered);
    GroupsPartition(ordered);
    assert GroupsOf(ordered)[k] in GroupsOf(ordered);
  }

  lemma GroupHolding(ordered: seq<Record>, x: Record) returns (k: nat)
    requires Collected(ordered) && x in ordered
    ensures k < |GroupsOf(ordered)| && x in GroupsOf(ordered)[k]
  {
    hide GroupsOf;
    GroupsPartition(ordered);
    k :| k < |GroupsOf(ordered)| && x in GroupsOf(ordered)[k];
  }

  lemma InOneGroup(ordered: seq<Record>, j: nat, k: nat, x: Record)
    requires Collected(ordered) && j < |GroupsOf(ordered)| && k < |GroupsOf(ordered)|
    requires x in GroupsOf(ordered)[j] && x in GroupsOf(ordered)[k]
    ensures j == k
  {
    hide GroupsOf;
    GroupsPartition(ordered);
  }

  /** Aggregation of a collection fails only for a group over the size caps: no group lacks a stable anchor. */
  lemma AggregationSucceeds(ordered: seq<Record>)
    requires Collected(ordered)
    ensures Aggregable(GroupsOf(ordered))
    ensures AggregateAll(GroupsOf(ordered)).Success? <==>
            forall k: nat | k < |GroupsOf(ordered)| :: WithinCaps(GroupsOf(ordered)[k])
    ensures AggregateAll(GroupsOf(ordered)) != Failure(UnstableAnchor)
  {
    hide GroupsOf, WithinCaps, AnchorFor, EvidenceOf;
    GroupsAggregable(ordered);
    var groups := GroupsOf(ordered);
    forall k: nat | k < |groups| ensures Aggregate(groups[k]).Success? <==> WithinCaps(groups[k])
      ensures Aggregate(groups[k]) != Failure(UnstableAnchor)
    {
      GroupMembers(ordered, k);
      AggregatesWithinCaps(groups[k]);
    }
    hide Aggregate;
    AllSucceed(groups);
    if AggregateAll(groups).Failure? {
      var i := FailedGroup(groups);
    } else {
      forall k: nat | k < |groups| ensures Aggregate(groups[k]).Success? {
        AggregatedEach(groups, k);
      }
    }
  }

  lemma AggregatesWithinCaps(group: seq<Record>)
    requires group != [] && Distinct(group) && FingerprintUnique(group) && PairwiseMerged(group) && Evidenced(group)
    ensures Aggregate(group).Success? <==> WithinCaps(group)
    ensures Aggregate(group) != Failure(UnstableAnchor)
    ensures Aggregate(group).Success? ==>
            Some(Aggregate(group).value.anchor) == AnchorFor(group) && Aggregate(group).value.sources == Elements(group)
  {
    hide PairwiseMerged, FingerprintUnique, AnchorFor, WithinCaps, EvidenceOf, ReferencesOf, Disagreements;
    GroupAnchored(group);
  }

  lemma {:induction false} AllSucceed(groups: Groups)
    requires Aggregable(groups)
    ensures (forall i | 0 <= i < |groups| :: Aggregate(groups[i]).Success?) ==> AggregateAll(groups).Success?
  {
    hide Aggregate;
    if groups != [] {
      var n := |groups| - 1;
      AllSucceed(groups[..n]);
    }
  }

  lemma AllErrors(groups: Groups)
    requires Aggregable(groups)
    ensures AggregateAll(groups).Failure? ==> AggregateAll(groups).error in {UnstableAnchor, TooManyItems}
  {
    hide Aggregate;
    if AggregateAll(groups).Failure? {
      var i := FailedGroup(groups);
      AggregateErrors(groups[i]);
    }
  }

  /** The decisions of the pairs (a, j) with a < i. */
  function Against(ordered: seq<Record>, j: nat, i: nat): set<Decision>
    requires i <= j < |ordered|
  {
    set a | 0 <= a < i && !Merges(ordered[a], ordered[j]) :: Compare(ordered[a], ordered[j])
  }

  lemma {:induction false} AgainstCount(ordered: seq<Record>, j: nat, i: nat)
    requires i <= j < |ordered|
    ensures |Against(ordered, j, i)| <= i
  {
    hide Compare, Merges;
    if i > 0 {
      AgainstCount(ordered, j, i - 1);
      SubsetSize(Against(ordered, j, i), Against(ordered, j, i - 1) + {Compare(ordered[i - 1], ordered[j])});
    }
  }

  /** How many pairs n findings make. */
  function Pairs(n: nat): nat {
    if n == 0 then 0 else Pairs(n - 1) + (n - 1)
  }

  lemma {:induction false} PairsClosed(n: nat)
    ensures 2 * Pairs(n) == n * (n - 1)
  {
    if n > 0 {
      PairsClosed(n - 1);
    }
  }

  lemma {:induction false} PairsGrow(m: nat, n: nat)
    requires m <= n
    ensures Pairs(m) <= Pairs(n)
    decreases n
  {
    if m < n {
      PairsGrow(m, n - 1);
    }
  }

  /** n findings leave at most as many unmerged decisions as they make pairs. */
  lemma {:induction false} UnmergedCount(ordered: seq<Record>)
    ensures |Unmerged(ordered)| <= Pairs(|ordered|)
  {
    hide Compare, Merges;
    if ordered == [] {
      assert Unmerged(ordered) == {};
    } else {
      var n := |ordered| - 1;
      UnmergedCount(ordered[..n]);
      AgainstCount(ordered, n, n);
      LastPairs(ordered);
      SubsetSize(Unmerged(ordered), Unmerged(ordered[..n]) + Against(ordered, n, n));
    }
  }

  lemma LastPairs(ordered: seq<Record>)
    requires ordered != []
    ensures var n := |ordered| - 1; Unmerged(ordered) <= Unmerged(ordered[..n]) + Against(ordered, n, n)
  {
    hide Compare, Merges;
    var n := |ordered| - 1;
    forall d | d in Unmerged(ordered) ensures d in Unmerged(ordered[..n]) + Against(ordered, n, n) {
      var i, j :| 0 <= i < j < |ordered| && !Merges(ordered[i], ordered[j]) && Compare(ordered[i], ordered[j]) == d;
      if j < n {
        assert ordered[..n][i] == ordered[i] && ordered[..n][j] == ordered[j];
      }
    }
  }

  /** Among the 512 findings correlation accepts, the cap on unmerged decisions cannot be exceeded. */
  lemma DecisionsWithinCap(ordered: seq<Record>)
    requires |ordered| <= MAX_RECORDS
    ensures |Unmerged(ordered)| <= 130816 < MAX_DECISIONS
  {
    hide Unmerged;
    UnmergedCount(ordered);
    PairsGrow(|ordered|, 512);
    PairsClosed(512);
  }

  /** A correlated collection loses and repeats nothing: each finding is a source of exactly one canonical
      finding, and the sources are nothing but the given findings. */
  lemma SourcesPartition(ordered: seq<Record>)
    requires Collected(ordered)
    requires Aggregable(GroupsOf(ordered)) && AggregateAll(GroupsOf(ordered)).Success?
    ensures var findings := AggregateAll(GroupsOf(ordered)).value;
            && (forall x :: x in ordered <==> exists k :: 0 <= k < |findings| && x in findings[k].sources)
            && (forall j, k, x | 0 <= j < |findings| && 0 <= k < |findings| && x in findings[j].sources &&
                  x in findings[k].sources :: j == k)
  {
    hide GroupsOf, AnchorFor, WithinCaps, EvidenceOf, ReferencesOf, Disagreements, Aggregate, AggregateAll;
    var groups, findings := GroupsOf(ordered), AggregateAll(GroupsOf(ordered)).value;
    forall k: nat | k < |groups| ensures findings[k].sources == Elements(groups[k]) {
      GroupMembers(ordered, k);
      AggregatedEach(groups, k);
      AggregatesWithinCaps(groups[k]);
    }
    GroupsPartition(ordered);
    assert forall k: nat, x | k < |groups| :: x in findings[k].sources <==> x in groups[k];
  }

  /** A canonical finding names exactly the references of its sources. */
  lemma ReferencesRetained(group: seq<Record>, x: Reference)
    requires group != [] && Evidenced(group) && Aggregate(group).Success?
    ensures x in Aggregate(group).value.references <==> exists r | r in group :: x in r.references
  {
    hide AnchorFor, WithinCaps, EvidenceOf, Disagreements, Strongest, Confidences, Qualities;
  }

  /** It keeps every summary, method and source of their evidence, and is nowhere less confident than they are. */
  lemma EvidenceRetained(group: seq<Record>, r: Record, x: Evidence)
    requires group != [] && Evidenced(group) && Aggregate(group).Success? && r in group && x in r.evidence
    ensures var f := Aggregate(group).value;
            x.summary in f.summaries && x.method_ in f.methods && x.source in f.provenance &&
              x.confidence <= f.confidence && x.quality <= f.quality
  {
    hide AnchorFor, WithinCaps, EvidenceOf, Disagreements, ReferencesOf, Strongest, Confidences, Qualities, Evidenced;
    EvidenceCollected(group, x);
    var evidence := EvidenceOf(group);
    assert x in evidence;
    StrongestEvidence(evidence);
  }

  /** Its confidence and quality are those of some piece of their evidence. */
  lemma StrengthAttained(group: seq<Record>)
    requires group != [] && Evidenced(group) && Aggregate(group).Success?
    ensures exists r, x :: r in group && x in r.evidence && x.confidence == Aggregate(group).value.confidence
    ensures exists r, x :: r in group && x in r.evidence && x.quality == Aggregate(group).value.quality
  {
    hide AnchorFor, WithinCaps, EvidenceOf, Disagreements, ReferencesOf, Strongest, Confidences, Qualities;
    var evidence := EvidenceOf(group);
    StrongestEvidence(evidence);
    var x :| x in evidence && x.confidence == Strongest(Confidences(evidence));
    EvidenceCollected(group, x);
    var y :| y in evidence && y.quality == Strongest(Qualities(evidence));
    EvidenceCollected(group, y);
  }
}
