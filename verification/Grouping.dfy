/** Greedy grouping of findings into pairwise mergeable groups, and the anchor of a group
    (domain/finding_correlation.py, `group`, `_anchor_for`). */
module Grouping {
  import opened Prelude
  import opened Findings

  type Groups = seq<seq<Record>>

  predicate Fits(group: seq<Record>, r: Record) {
    forall x | x in group :: Merges(x, r)
  }

  /** The groups every member of which merges with the record. */
  function Candidates(groups: Groups, r: Record): (c: seq<nat>)
    ensures forall i | 0 <= i < |c| :: c[i] < |groups| && Fits(groups[c[i]], r)
    ensures forall k: nat | k < |groups| && Fits(groups[k], r) :: k in c
    ensures forall i, j | 0 <= i < j < |c| :: c[i] < c[j]
  {
    if groups == [] then []
    else
      var n := |groups| - 1;
      Candidates(groups[..n], r) + if Fits(groups[n], r) then [n] else []
  }

  /** A record joins its only candidate group, and otherwise starts a new one. */
  function Place(groups: Groups, r: Record): Groups {
    var c := Candidates(groups, r);
    if |c| == 1 then groups[c[0] := groups[c[0]] + [r]] else groups + [[r]]
  }

  function GroupsOf(ordered: seq<Record>): Groups {
    if ordered == [] then []
    else Place(GroupsOf(ordered[..|ordered| - 1]), ordered[|ordered| - 1])
  }

  /** Every record is in exactly one group, once, and groups hold nothing else. */
  ghost predicate Partitions(groups: Groups, records: seq<Record>) {
    && (forall g | g in groups :: g != [] && Distinct(g))
    && (forall x :: x in records <==> exists k: nat | k < |groups| :: x in groups[k])
    && (forall j: nat, k: nat, x | j < |groups| && k < |groups| && x in groups[j] && x in groups[k] :: j == k)
  }

  ghost predicate Cliques(groups: Groups) {
    forall k: nat, x, y | k < |groups| && x in groups[k] && y in groups[k] && x != y :: Merges(x, y)
  }

  lemma PlacePartitions(groups: Groups, records: seq<Record>, r: Record)
    requires Partitions(groups, records) && r !in records
    ensures Partitions(Place(groups, r), records + [r])
  {
    hide Candidates, Merges, Fits;
    var c := Candidates(groups, r);
    var placed := Place(groups, r);
    var k := if |c| == 1 then c[0] else |groups|;
    assert forall j: nat | j < |groups| && j != k :: placed[j] == groups[j];
    assert r in placed[k];
    forall x ensures x in records + [r] <==> exists j: nat | j < |placed| :: x in placed[j] {
      if x in records {
        var j: nat :| j < |groups| && x in groups[j];
        assert x in placed[j];
      }
    }
    forall g | g in placed ensures g != [] && Distinct(g) {
      var j: nat :| j < |placed| && placed[j] == g;
      if j < |groups| {
        assert groups[j] in groups;
        assert r !in groups[j];
      }
    }
  }

  lemma PlaceCliques(groups: Groups, r: Record)
    requires Cliques(groups)
    ensures Cliques(Place(groups, r))
  {
    hide Merges;
    var c := Candidates(groups, r);
    var placed := Place(groups, r);
    forall k: nat, x, y | k < |placed| && x in placed[k] && y in placed[k] && x != y ensures Merges(x, y) {
      CompareSymmetricMerges(x, y);
      if k < |groups| && !(x in groups[k] && y in groups[k]) {
        assert Fits(groups[k], r);
      }
    }
  }

  lemma CompareSymmetricMerges(x: Record, y: Record)
    ensures Merges(x, y) <==> Merges(y, x)
  {
    hide Compare;
    CompareSymmetric(x, y);
  }

  /** Grouping partitions distinct records into groups whose every pair merges. */
  lemma {:induction false} GroupsPartition(ordered: seq<Record>)
    requires Distinct(ordered)
    ensures Partitions(GroupsOf(ordered), ordered) && Cliques(GroupsOf(ordered))
  {
    hide Merges, Candidates, Place;
    if ordered != [] {
      var n := |ordered| - 1;
      GroupsPartition(ordered[..n]);
      PlacePartitions(GroupsOf(ordered[..n]), ordered[..n], ordered[n]);
      PlaceCliques(GroupsOf(ordered[..n]), ordered[n]);
      assert ordered[..n] + [ordered[n]] == ordered;
    }
  }
}
