/** Collections of findings and their correlation (domain/finding_intelligence.py, `FindingRecordCollection`;
    domain/finding_correlation.py, `correlate`). */
module Collections {
  import opened Prelude
  import opened Findings
  import opened Grouping
  import opened Anchors
  import opened Correlation
  import opened Correlated

  /** `FindingRecordCollection`: records keyed by fingerprint; None stands for the exception raised when
      two different records carry one fingerprint. */
  method CollectRecords(records: seq<Record>) returns (byFingerprint: Option<map<Identity, Record>>)
    ensures byFingerprint.None? <==> !FingerprintUnique(records)
    ensures byFingerprint.Some? ==>
            forall r :: r in records <==> r.identity in byFingerprint.value && byFingerprint.value[r.identity] == r
    ensures byFingerprint.Some? ==> forall i | i in byFingerprint.value :: byFingerprint.value[i].identity == i
  {
    var kept: map<Identity, Record> := map[];
    for n := 0 to |records|
      invariant forall r :: r in records[..n] <==> r.identity in kept && kept[r.identity] == r
      invariant forall i | i in kept :: kept[i].identity == i
    {
      var r := records[n];
      if r.identity in kept && kept[r.identity] != r {
        assert kept[r.identity] in records[..n];
        return None;
      }
      assert records[..n + 1] == records[..n] + [r];
      kept := kept[r.identity := r];
    }
    assert records[..|records|] == records;
    return Some(kept);
  }

  /** The distinct records of a collection, in the order of their fingerprints. */
  method RecordsOf(fingerprint: Identity -> nat, byFingerprint: map<Identity, Record>) returns (records: seq<Record>)
    requires forall i | i in byFingerprint :: byFingerprint[i].identity == i
    ensures forall r :: r in records <==> r.identity in byFingerprint && byFingerprint[r.identity] == r
    ensures Ordered((r: Record) => fingerprint(r.identity), records, records)
  {
    var unsorted: seq<Record> := [];
    var pending := byFingerprint.Keys;
    while pending != {}
      invariant pending <= byFingerprint.Keys
      invariant forall r :: r in unsorted <==>
                  r.identity in byFingerprint.Keys - pending && byFingerprint[r.identity] == r
      decreases pending
    {
      var i :| i in pending;
      unsorted := unsorted + [byFingerprint[i]];
      pending := pending - {i};
    }
    records := SortRecords((r: Record) => fingerprint(r.identity), unsorted);
  }

  /** Correlating given records: it fails only because two records share a fingerprint, because there are too
      many, because a group is over the size caps, or because two groups collide. */
  method Correlate(fingerprint: Identity -> nat, key: Record -> nat, records: seq<Record>)
    returns (ghost ordered: seq<Record>, outcome: Option<Result<Canonical, CorrelationError>>)
    requires Evidenced(records)
    ensures outcome.None? <==> !FingerprintUnique(records)
    ensures outcome.Some? ==> Collected(ordered) && Ordered(key, ordered, records) && Aggregable(GroupsOf(ordered))
    ensures outcome.Some? ==>
            outcome.value == if |ordered| > MAX_RECORDS then Failure(TooManyRecords) else Outcome(ordered)
    ensures outcome.Some? && outcome.value.Failure? ==>
              outcome.value.error in {TooManyRecords, TooManyItems, ConflictingIdentities}
  {
    hide GroupsOf, Merges, AnchorFor, Outcome;
    ordered := [];
    var collected := CollectRecords(records);
    if collected.None? {
      return [], None;
    }
    var distinct := RecordsOf(fingerprint, collected.value);
    var result;
    ordered, result := Group(key, distinct);
    SameSize(ordered, distinct);
    if |ordered| <= MAX_RECORDS {
      OnlyExpectedErrors(ordered);
    }
    return ordered, Some(result);
  }

  lemma SameSize(a: seq<Record>, b: seq<Record>)
    requires Distinct(a) && Distinct(b) && forall r :: r in a <==> r in b
    ensures |a| == |b|
  {
    DistinctSize(a);
    DistinctSize(b);
    assert Elements(a) == Elements(b);
  }

  lemma OnlyExpectedErrors(ordered: seq<Record>)
    requires Collected(ordered) && |ordered| <= MAX_RECORDS && Aggregable(GroupsOf(ordered))
    ensures Outcome(ordered).Failure? ==> Outcome(ordered).error in {TooManyItems, ConflictingIdentities}
  {
    hide GroupsOf, AggregateAll, IdentitiesConflict, Unmerged, ByIdentity, Aggregate;
    AggregationSucceeds(ordered);
    DecisionsWithinCap(ordered);
    AllErrors(GroupsOf(ordered));
  }
}
