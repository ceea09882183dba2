/** Correlation of a collection of findings: ordering, grouping, aggregation and the canonical
    collection that the groups form (domain/finding_correlation.py, `group`, `_aggregate`,
    `CanonicalFindingCollection`). */
module Correlation {
  import opened Prelude
  import opened Ordering
  import opened Findings
  import opened Grouping
  import opened Anchors

  const MAX_RECORDS := 512
  const MAX_ITEMS := 4096
  const MAX_DECISIONS := 131000

  datatype CorrelationError = TooManyRecords | UnstableAnchor | TooManyItems | ConflictingIdentities | TooManyDecisions

  datatype CanonicalFinding = CanonicalFinding(
    anchor: CanonicalAnchor, sources: set<Record>, references: set<Reference>, summaries: set<Name>,
    methods: set<Name>, provenance: set<Name>, severities: set<Name>, confidence: nat, quality: nat,
      conflicts: set<Conflict>)

  datatype Canonical = Canonical(byIdentity: map<CanonicalAnchor, CanonicalFinding>, unmerged: set<Decision>)

  /** A sort key that may only confuse findings of one fingerprint, as `_record_sort_key` may. */
  ghost predicate SeparatesFingerprints(key: Record -> nat) {
    forall a, b :: key(a) == key(b) ==> a.identity == b.identity
  }

  predicate Ascending(key: Record -> nat, s: seq<Record>) {
    forall i, j | 0 <= i < j < |s| :: key(s[i]) <= key(s[j])
  }

  /** `ordered` is a possible value of `sorted(set(records), key=key)`. */
  ghost predicate Ordered(key: Record -> nat, ordered: seq<Record>, records: seq<Record>) {
    && Distinct(ordered) && Ascending(key, ordered)
    && forall r :: r in ordered <==> r in records
  }

  /** `_record_tuple`: the set of records is iterated in any order, and equal keys keep that order. */
  method SortRecords(key: Record -> nat, records: seq<Record>) returns (ordered: seq<Record>)
    ensures Ordered(key, ordered, records)
  {
    ordered := SortBy((a: Record, b: Record) => key(a) <= key(b), Elements(records));
  }

  lemma SameHead(key: Record -> nat, a: seq<Record>, b: seq<Record>)
    requires SeparatesFingerprints(key) && FingerprintUnique(a)
    requires a != [] && b != [] && Ascending(key, a) && Ascending(key, b)
    requires forall r :: r in a <==> r in b
    ensures a[0] == b[0]
  {
    assert a[0] in b && b[0] in a;
    assert key(a[0]) == key(b[0]);
  }

  lemma Rest(a: seq<Record>)
    requires a != [] && Distinct(a)
    ensures forall r :: r in a[1..] <==> r in a && r != a[0]
  {
    assert a == [a[0]] + a[1..];
    forall r | r in a[1..] ensures r in a && r != a[0] {
    }
  }

  /** Records of different fingerprints sort in one way only. */
  lemma {:induction false} OrderedUnique(key: Record -> nat, a: seq<Record>, b: seq<Record>)
    requires SeparatesFingerprints(key) && FingerprintUnique(a)
    requires Distinct(a) && Distinct(b) && Ascending(key, a) && Ascending(key, b)
    requires forall r :: r in a <==> r in b
    ensures a == b
  {
    hide SeparatesFingerprints;
    assert a != [] ==> a[0] in b;
    assert b != [] ==> b[0] in a;
    if a != [] {
      SameHead(key, a, b);
      Rest(a);
      Rest(b);
      assert b == [b[0]] + b[1..] && a == [a[0]] + a[1..];
      OrderedUnique(key, a[1..], b[1..]);
    }
  }

  function ReferenceCount(group: seq<Record>): nat {
    if group == [] then 0 else ReferenceCount(group[..|group| - 1]) + |group[|group| - 1].references|
  }

  function EvidenceOf(group: seq<Record>): (e: seq<Evidence>)
    ensures group != [] && group[0].evidence != [] ==> e != []
  {
    if group == [] then []
    else EvidenceOf(group[..|group| - 1]) + group[|group| - 1].evidence
  }

  /** The evidence of a group is what its findings carry, and nothing else. */
  lemma {:induction false} EvidenceCollected(group: seq<Record>, x: Evidence)
    ensures x in EvidenceOf(group) <==> exists r | r in group :: x in r.evidence
  {
    if group != [] {
      var n := |group| - 1;
      EvidenceCollected(group[..n], x);
      assert group == group[..n] + [group[n]];
    }
  }

  /** `max` of a non-empty tuple of ranks. */
  function Strongest(ranks: seq<nat>): (m: nat)
    requires ranks != []
    ensures m in ranks && forall x | x in ranks :: x <= m
  {
    var n := |ranks| - 1;
    if n == 0 then ranks[0]
    else
      var m := Strongest(ranks[..n]);
      assert ranks == ranks[..n] + [ranks[n]];
      if m < ranks[n] then ranks[n] else m
  }

  function Confidences(evidence: seq<Evidence>): (ranks: seq<nat>)
    ensures |ranks| == |evidence|
  {
    seq(|evidence|, i requires 0 <= i < |evidence| => evidence[i].confidence)
  }

  function Qualities(evidence: seq<Evidence>): (ranks: seq<nat>)
    ensures |ranks| == |evidence|
  {
    seq(|evidence|, i requires 0 <= i < |evidence| => evidence[i].quality)
  }

  /** The strongest ranks bound every piece of evidence, and some piece attains each. */
  lemma StrongestEvidence(evidence: seq<Evidence>)
    requires evidence != []
    ensures forall x | x in evidence :: x.confidence <= Strongest(Confidences(evidence)) &&
              x.quality <= Strongest(Qualities(evidence))
    ensures exists x :: x in evidence && x.confidence == Strongest(Confidences(evidence))
    ensures exists x :: x in evidence && x.quality == Strongest(Qualities(evidence))
  {
    hide Strongest;
    forall x | x in evidence
      ensures x.confidence <= Strongest(Confidences(evidence)) && x.quality <= Strongest(Qualities(evidence))
    {
      var i :| 0 <= i < |evidence| && evidence[i] == x;
      assert Confidences(evidence)[i] == x.confidence && Confidences(evidence)[i] in Confidences(evidence);
      assert Qualities(evidence)[i] == x.quality && Qualities(evidence)[i] in Qualities(evidence);
    }
    var i :| 0 <= i < |evidence| && Confidences(evidence)[i] == Strongest(Confidences(evidence));
    assert evidence[i] in evidence;
    var j :| 0 <= j < |evidence| && Qualities(evidence)[j] == Strongest(Qualities(evidence));
    assert evidence[j] in evidence;
  }

  function ReferencesOf(group: seq<Record>): set<Reference> {
    set r, x | r in group && x in r.references :: x
  }

  /** The disagreements inside a group that did not block its merging. */
  function Disagreements(group: seq<Record>): set<Conflict> {
    set i, j, c | 0 <= i < j < |group| && c in Compare(group[i], group[j]).conflicts && !c.blocking :: c
  }

  predicate WithinCaps(group: seq<Record>) {
    ReferenceCount(group) <= MAX_ITEMS && |group| + |EvidenceOf(group)| <= MAX_ITEMS
  }

  /** `_aggregate`. */
  function Aggregate(group: seq<Record>): Result<CanonicalFinding, CorrelationError>
    requires group != [] && forall r | r in group :: r.evidence != []
  {
    var evidence := EvidenceOf(group);
    assert group[0] in group;
    match AnchorFor(group)
    case None => Failure(UnstableAnchor)
    case Some(anchor) =>
      if !WithinCaps(group) then Failure(TooManyItems)
      else Success(CanonicalFinding(
        anchor, Elements(group), ReferencesOf(group),
        set x | x in evidence :: x.summary,
        set x | x in evidence :: x.method_,
        (set r | r in group :: r.source) + (set x | x in evidence :: x.source),
        set r | r in group :: r.severity,
        Strongest(Confidences(evidence)),
        Strongest(Qualities(evidence)),
        Disagreements(group)))
  }

  ghost predicate Aggregable(groups: Groups) {
    forall i | 0 <= i < |groups| :: groups[i] != [] && forall r | r in groups[i] :: r.evidence != []
  }

  /** The groups are aggregated in order; the first failure is raised. */
  function AggregateAll(groups: Groups): (r: Result<seq<CanonicalFinding>, CorrelationError>)
    requires Aggregable(groups)
    ensures r.Success? ==> |r.value| == |groups|
  {
    if groups == [] then Success([])
    else
      var n := |groups| - 1;
      var front := AggregateAll(groups[..n]);
      if front.Failure? then front
      else
        var last := Aggregate(groups[n]);
        if last.Failure? then Failure(last.error) else Success(front.value + [last.value])
  }

  /** Each group has its own finding. */
  lemma {:induction false} AggregatedEach(groups: Groups, i: nat)
    requires Aggregable(groups) && AggregateAll(groups).Success? && i < |groups|
    ensures Aggregate(groups[i]) == Success(AggregateAll(groups).value[i])
  {
    hide Aggregate;
    if i < |groups| - 1 {
      AggregatedEach(groups[..|groups| - 1], i);
    }
  }

  /** A failure is one group's own. */
  lemma {:induction false} FailedGroup(groups: Groups) returns (i: nat)
    requires Aggregable(groups) && AggregateAll(groups).Failure?
    ensures i < |groups| && Aggregate(groups[i]) == Failure(AggregateAll(groups).error)
  {
    hide Aggregate;
    i := |groups| - 1;
    if AggregateAll(groups[..i]).Failure? {
      i := FailedGroup(groups[..i]);
    }
  }

  predicate Clash(f: CanonicalFinding, g: CanonicalFinding) {
    f.anchor == g.anchor && f != g
  }

  predicate IdentitiesConflict(findings: seq<CanonicalFinding>) {
    exists i, j :: 0 <= i < |findings| && 0 <= j < |findings| && Clash(findings[i], findings[j])
  }

  function ByIdentity(findings: seq<CanonicalFinding>): (m: map<CanonicalAnchor, CanonicalFinding>)
    ensures forall a :: a in m <==> exists f :: f in findings && f.anchor == a
    ensures forall a | a in m :: m[a] in findings && m[a].anchor == a
  {
    if findings == [] then map[]
    else
      var n := |findings| - 1;
      assert findings == findings[..n] + [findings[n]];
      var front := ByIdentity(findings[..n]);
      if findings[n].anchor in front then front else front[findings[n].anchor := findings[n]]
  }

  /** The decisions of pairs that stay apart. */
  function Unmerged(ordered: seq<Record>): set<Decision> {
    set i, j | 0 <= i < j < |ordered| && !Merges(ordered[i], ordered[j]) :: Compare(ordered[i], ordered[j])
  }

  /** The canonical collection of records already in order. */
  function Outcome(ordered: seq<Record>): Result<Canonical, CorrelationError>
    requires Aggregable(GroupsOf(ordered))
  {
    var findings := AggregateAll(GroupsOf(ordered));
    if findings.Failure? then Failure(findings.error)
    else if IdentitiesConflict(findings.value) then Failure(ConflictingIdentities)
    else if |Unmerged(ordered)| > MAX_DECISIONS then Failure(TooManyDecisions)
    else Success(Canonical(ByIdentity(findings.value), Unmerged(ordered)))
  }

  /** `any(not merge)` over one group. */
  method FitsGroup(group: seq<Record>, r: Record) returns (fits: bool)
    ensures fits == Fits(group, r)
  {
    hide Merges;
    for i := 0 to |group|
      invariant forall x | x in group[..i] :: Merges(x, r)
    {
      if !Merges(group[i], r) {
        return false;
      }
      assert group[..i + 1] == group[..i] + [group[i]];
    }
    assert group[..|group|] == group;
    return true;
  }

  method CandidateGroups(groups: Groups, r: Record) returns (candidates: seq<nat>)
    ensures candidates == Candidates(groups, r)
  {
    hide Fits;
    candidates := [];
    for i := 0 to |groups|
      invariant candidates == Candidates(groups[..i], r)
    {
      var fits := FitsGroup(groups[i], r);
      assert groups[..i + 1][..i] == groups[..i];
      if fits {
        candidates := candidates + [i];
      }
    }
    assert groups[..|groups|] == groups;
  }

  /** The greedy loop of `group`. */
  method GroupRecords(ordered: seq<Record>) returns (groups: Groups)
    ensures groups == GroupsOf(ordered)
  {
    hide Candidates;
    groups := [];
    for i := 0 to |ordered|
      invariant groups == GroupsOf(ordered[..i])
    {
      var candidates := CandidateGroups(groups, ordered[i]);
      assert ordered[..i + 1][..i] == ordered[..i];
      if |candidates| == 1 {
        groups := groups[candidates[0] := groups[candidates[0]] + [ordered[i]]];
      } else {
        groups := groups + [[ordered[i]]];
      }
    }
    assert ordered[..|ordered|] == ordered;
  }

  /** The decisions kept by `group`, gathered pair by pair. */
  method UnmergedDecisions(ordered: seq<Record>) returns (unmerged: set<Decision>)
    ensures unmerged == Unmerged(ordered)
  {
    hide Compare;
    unmerged := {};
    for j := 0 to |ordered|
      invariant unmerged == set a, b | 0 <= a < b < j && !Merges(ordered[a], ordered[b]) ::
                Compare(ordered[a], ordered[b])
    {
      ghost var before := unmerged;
      for i := 0 to j
        invariant unmerged == before + set a | 0 <= a < i && !Merges(ordered[a], ordered[j]) ::
                  Compare(ordered[a], ordered[j])
      {
        var decision := Compare(ordered[i], ordered[j]);
        if !decision.AutomaticMerge() {
          unmerged := unmerged + {decision};
        }
      }
    }
  }

  lemma NextConflict(findings: seq<CanonicalFinding>, n: nat)
    requires n < |findings| && !IdentitiesConflict(findings[..n])
    ensures IdentitiesConflict(findings[..n + 1]) <==>
            var front := ByIdentity(findings[..n]);
            findings[n].anchor in front && front[findings[n].anchor] != findings[n]
  {
    var front, f := ByIdentity(findings[..n]), findings[n];
    hide ByIdentity;
    if f.anchor in front && front[f.anchor] != f {
      var k :| 0 <= k < n && findings[..n][k] == front[f.anchor];
      assert Clash(findings[k], f);
      hide Clash;
      assert findings[..n + 1][k] == findings[k] && findings[..n + 1][n] == f;
    } else {
      hide IdentitiesConflict, Clash;
      forall i: nat | i < n ensures !Clash(findings[i], f) && !Clash(f, findings[i]) {
        LastAgrees(findings, n, i);
      }
      NoNewConflict(findings, n);
    }
  }

  lemma NoNewConflict(findings: seq<CanonicalFinding>, n: nat)
    requires n < |findings| && !IdentitiesConflict(findings[..n])
    requires forall i: nat | i < n :: !Clash(findings[i], findings[n]) && !Clash(findings[n], findings[i])
    ensures !IdentitiesConflict(findings[..n + 1])
  {
    assert !Clash(findings[n], findings[n]);
    hide Clash;
    forall i, j | 0 <= i < n + 1 && 0 <= j < n + 1 ensures !Clash(findings[i], findings[j]) {
      if i < n && j < n {
        assert !Clash(findings[..n][i], findings[..n][j]);
      }
    }
  }

  lemma LastAgrees(findings: seq<CanonicalFinding>, n: nat, i: nat)
    requires i < n < |findings| && !IdentitiesConflict(findings[..n])
    requires var front := ByIdentity(findings[..n]); findings[n].anchor in front ==>
             front[findings[n].anchor] == findings[n]
    ensures !Clash(findings[i], findings[n]) && !Clash(findings[n], findings[i])
  {
    var front, f := ByIdentity(findings[..n]), findings[n];
    hide ByIdentity;
    assert findings[..n][i] in findings[..n];
    if findings[i].anchor == f.anchor {
      var k :| 0 <= k < n && findings[..n][k] == f;
      assert !Clash(findings[..n][i], findings[..n][k]);
    }
  }

  /** The validation of `CanonicalFindingCollection`: one finding an identity. */
  method IndexFindings(findings: seq<CanonicalFinding>) returns (index: Option<map<CanonicalAnchor, CanonicalFinding>>)
    ensures index.None? <==> IdentitiesConflict(findings)
    ensures index.Some? ==> index.value == ByIdentity(findings)
  {
    hide IdentitiesConflict;
    var byIdentity: map<CanonicalAnchor, CanonicalFinding> := map[];
    NoneConflict();
    for i := 0 to |findings|
      invariant byIdentity == ByIdentity(findings[..i])
      invariant !IdentitiesConflict(findings[..i])
    {
      var f := findings[i];
      assert findings[..i + 1][..i] == findings[..i];
      NextConflict(findings, i);
      if f.anchor in byIdentity {
        if byIdentity[f.anchor] != f {
          ConflictStays(findings, i + 1);
          return None;
        }
      } else {
        byIdentity := byIdentity[f.anchor := f];
      }
    }
    assert findings[..|findings|] == findings;
    return Some(byIdentity);
  }

  lemma NoneConflict()
    ensures !IdentitiesConflict([])
  {
  }

  lemma ConflictStays(findings: seq<CanonicalFinding>, n: nat)
    requires n <= |findings| && IdentitiesConflict(findings[..n])
    ensures IdentitiesConflict(findings)
  {
    var i, j :| 0 <= i < n && 0 <= j < n && Clash(findings[..n][i], findings[..n][j]);
    assert Clash(findings[i], findings[j]);
  }

  /** `FindingCorrelator.group`; `ordered` is the order the records were sorted into. */
  method Group(key: Record -> nat, records: seq<Record>)
    returns (ghost ordered: seq<Record>, outcome: Result<Canonical, CorrelationError>)
    requires forall r | r in records :: r.evidence != []
    ensures |records| > MAX_RECORDS <==> outcome == Failure(TooManyRecords)
    ensures Ordered(key, ordered, records) && Aggregable(GroupsOf(ordered))
    ensures |records| <= MAX_RECORDS ==> outcome == Outcome(ordered)
  {
    hide GroupsOf, Aggregate, AnchorFor, Merges, Compare, IdentitiesConflict;
    var sorted := SortRecords(key, records);
    ordered := sorted;
    GroupsAggregable(ordered);
    if |records| > MAX_RECORDS {
      return ordered, Failure(TooManyRecords);
    }
    var groups := GroupRecords(sorted);
    var findings: seq<CanonicalFinding> := [];
    for i := 0 to |groups|
      invariant Aggregable(groups[..i]) && AggregateAll(groups[..i]) == Success(findings)
    {
      var finding := Aggregate(groups[i]);
      assert groups[..i + 1][..i] == groups[..i];
      if finding.Failure? {
        FirstFailure(groups, i);
        AggregateErrors(groups[i]);
        return ordered, Failure(finding.error);
      }
      findings := findings + [finding.value];
    }
    assert groups[..|groups|] == groups;
    var unmerged := UnmergedDecisions(sorted);
    var index := IndexFindings(findings);
    if index.None? {
      return ordered, Failure(ConflictingIdentities);
    }
    if |unmerged| > MAX_DECISIONS {
      return ordered, Failure(TooManyDecisions);
    }
    return ordered, Success(Canonical(index.value, unmerged));
  }

  lemma AggregateErrors(group: seq<Record>)
    requires group != [] && forall r | r in group :: r.evidence != []
    ensures Aggregate(group).Failure? ==> Aggregate(group).error in {UnstableAnchor, TooManyItems}
  {
  }

  lemma {:induction false} FirstFailure(groups: Groups, i: nat)
    requires Aggregable(groups) && i < |groups|
    requires AggregateAll(groups[..i]).Success? && Aggregate(groups[i]).Failure?
    ensures AggregateAll(groups) == Failure(Aggregate(groups[i]).error)
    decreases |groups|
  {
    hide Aggregate;
    var n := |groups| - 1;
    if i == n {
      assert groups[..i] == groups[..n];
    } else {
      assert groups[..n][..i] == groups[..i];
      FirstFailure(groups[..n], i);
    }
  }

  /** Every group is non-empty and holds only given records, whatever their fingerprints. */
  lemma GroupsAggregable(ordered: seq<Record>)
    requires Distinct(ordered) && forall r | r in ordered :: r.evidence != []
    ensures Aggregable(GroupsOf(ordered))
  {
    hide GroupsOf;
    GroupsPartition(ordered);
    var groups := GroupsOf(ordered);
    forall i | 0 <= i < |groups| ensures groups[i] != [] && forall r: Record | r in groups[i] :: r.evidence != [] {
      assert groups[i] in groups;
      assert forall r | r in groups[i] :: r in ordered;
    }
  }
}
