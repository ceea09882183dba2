/** The canonical anchor of a group of findings (domain/finding_correlation.py, `_anchor_for`). */
module Anchors {
  import opened Prelude
  import opened Ordering
  import opened Findings

  /** The material a canonical finding identity digests; the identity is modelled as this payload. */
  datatype CanonicalAnchor =
    | ConcreteReference(asset: Name, reference: Reference, endpoint: Option<Name>, technology: Option<Name>)
    | ClassificationSubject(identity: Identity)

  function Endpoints(group: seq<Record>): set<Name> {
    set x | x in group && x.identity.endpoint.Some? :: x.identity.endpoint.value
  }

  function Technologies(group: seq<Record>): set<Name> {
    set x | x in group && x.identity.technology.Some? :: x.identity.technology.value
  }

  function Sole(names: set<Name>): (r: Option<Name>)
    ensures r.Some? ==> names == {r.value}
    ensures r.None? ==> |names| != 1
  {
    if |names| == 1 then
      var n := Least(names);
      SubsetSize({n}, names);
      Some(n)
    else None
  }

  function CommonConcrete(group: seq<Record>): set<Reference>
    requires group != []
  {
    if |group| == 1 then group[0].Concrete()
    else CommonConcrete(group[..|group| - 1]) * group[|group| - 1].Concrete()
  }

  function SelectedAnchors(group: seq<Record>): set<Option<Reference>> {
    set x | x in group :: Anchor(x)
  }

  /** `_anchor_for`; None stands for the exception it raises. */
  function AnchorFor(group: seq<Record>): Option<CanonicalAnchor>
    requires group != []
  {
    if CommonConcrete(group) != {} then
      if |SelectedAnchors(group)| != 1 || None in SelectedAnchors(group) then None
      else Some(ConcreteReference(group[0].identity.asset, Anchor(group[0]).value, Sole(Endpoints(group)),
                                  Sole(Technologies(group))))
    else Some(ClassificationSubject(group[0].identity))
  }

  /** The loop of `_anchor_for` that intersects the concrete references of a group. */
  method IntersectReferences(group: seq<Record>) returns (common: set<Reference>)
    requires group != []
    ensures common == CommonConcrete(group)
    ensures forall x :: x in common <==> forall r | r in group :: x in r.Concrete()
  {
    hide Record.Concrete;
    common := group[0].Concrete();
    assert group[..1] == [group[0]];
    for i := 1 to |group|
      invariant common == CommonConcrete(group[..i])
      invariant forall x :: x in common <==> forall r | r in group[..i] :: x in r.Concrete()
    {
      assert group[..i + 1][..i] == group[..i] && group[..i + 1] == group[..i] + [group[i]];
      common := common * group[i].Concrete();
    }
    assert group[..|group|] == group;
  }

  lemma {:induction false} CommonIsShared(group: seq<Record>, x: Reference)
    requires group != []
    ensures x in CommonConcrete(group) <==> forall r | r in group :: x in r.Concrete()
  {
    hide Record.Concrete;
    if |group| > 1 {
      var n := |group| - 1;
      CommonIsShared(group[..n], x);
      assert group == group[..n] + [group[n]];
    }
  }

  /** `_anchor_for` raises exactly when its records share a concrete reference but select different ones. */
  lemma AnchorForRaises(group: seq<Record>)
    requires group != []
    ensures AnchorFor(group).None? <==>
            CommonConcrete(group) != {} && exists x, y | x in group && y in group :: Anchor(x) != Anchor(y)
  {
    hide Record.Concrete, Selected;
    var selected := SelectedAnchors(group);
    assert group[0] in group && Anchor(group[0]) in selected;
    if CommonConcrete(group) != {} {
      var c :| c in CommonConcrete(group);
      forall x | x in group ensures Anchor(x).Some? {
        CommonIsShared(group, c);
      }
      if forall x, y | x in group && y in group :: Anchor(x) == Anchor(y) {
        assert selected == {Anchor(group[0])};
      } else {
        var x, y :| x in group && y in group && Anchor(x) != Anchor(y);
        SubsetSize({Anchor(x), Anchor(y)}, selected);
      }
    }
  }

  ghost predicate FingerprintUnique(records: seq<Record>) {
    forall x, y | x in records && y in records && x.identity == y.identity :: x == y
  }

  ghost predicate PairwiseMerged(group: seq<Record>) {
    forall x, y | x in group && y in group && x != y :: Merges(x, y)
  }

  /** A group of two or more findings shares one selected concrete reference, one asset, and at most one
      endpoint and one technology. */
  lemma GroupShares(group: seq<Record>, x: Record, y: Record)
    requires FingerprintUnique(group) && PairwiseMerged(group)
    requires x in group && y in group && x != y
    ensures Anchor(x).Some? && Anchor(x) == Anchor(y) && Compatible(x, y)
  {
    hide Merges, Compatible;
    MergesExactly(x, y);
  }

  lemma AtMostOne(names: set<Name>)
    requires forall a, b | a in names && b in names :: a == b
    ensures |names| <= 1
  {
    if names != {} {
      var a :| a in names;
      assert names == {a};
    }
  }

  lemma OneEndpoint(group: seq<Record>)
    requires FingerprintUnique(group) && PairwiseMerged(group)
    ensures |Endpoints(group)| <= 1
  {
    hide Merges, PairwiseMerged, FingerprintUnique, Anchor, ReferencesConflict;
    forall a, b | a in Endpoints(group) && b in Endpoints(group) ensures a == b {
      var x :| x in group && x.identity.endpoint.Some? && x.identity.endpoint.value == a;
      var y :| y in group && y.identity.endpoint.Some? && y.identity.endpoint.value == b;
      if x != y {
        GroupShares(group, x, y);
      }
    }
    AtMostOne(Endpoints(group));
  }

  lemma OneTechnology(group: seq<Record>)
    requires FingerprintUnique(group) && PairwiseMerged(group)
    ensures |Technologies(group)| <= 1
  {
    hide Merges, PairwiseMerged, FingerprintUnique, Anchor, ReferencesConflict;
    forall a, b | a in Technologies(group) && b in Technologies(group) ensures a == b {
      var x :| x in group && x.identity.technology.Some? && x.identity.technology.value == a;
      var y :| y in group && y.identity.technology.Some? && y.identity.technology.value == b;
      if x != y {
        GroupShares(group, x, y);
      }
    }
    AtMostOne(Technologies(group));
  }

  lemma OneAnchor(group: seq<Record>)
    requires |group| >= 2 && Distinct(group) && FingerprintUnique(group) && PairwiseMerged(group)
    ensures Anchor(group[0]).Some? && forall x | x in group :: Anchor(x) == Anchor(group[0])
  {
    hide Merges, PairwiseMerged, FingerprintUnique, Anchor, Compatible;
    assert group[0] != group[1];
    GroupShares(group, group[0], group[1]);
    forall x | x in group ensures Anchor(x) == Anchor(group[0]) {
      if x != group[0] {
        GroupShares(group, x, group[0]);
      }
    }
  }

  /** Grouping hazards that cannot happen once fingerprints are unique: a group never lacks a stable
      anchor, never mixes endpoints or technologies, and has no common reference only when it is a
      single finding. */
  lemma GroupAnchored(group: seq<Record>)
    requires group != [] && Distinct(group) && FingerprintUnique(group) && PairwiseMerged(group)
    ensures AnchorFor(group).Some?
    ensures |Endpoints(group)| <= 1 && |Technologies(group)| <= 1
    ensures CommonConcrete(group) == {} ==> |group| == 1
    ensures |group| >= 2 ==>
            AnchorFor(group).value.ConcreteReference? &&
            forall x | x in group :: Anchor(x) == Some(AnchorFor(group).value.reference)
  {
    hide PairwiseMerged, FingerprintUnique, Anchor, CommonConcrete, SelectedAnchors, Endpoints, Technologies;
    OneEndpoint(group);
    OneTechnology(group);
    AnchorForRaises(group);
    if |group| >= 2 {
      OneAnchor(group);
      SharedReference(group, Anchor(group[0]).value);
    }
  }

  lemma SharedReference(group: seq<Record>, reference: Reference)
    requires group != [] && forall x | x in group :: Anchor(x) == Some(reference)
    ensures reference in CommonConcrete(group)
  {
    hide Selected;
    forall x | x in group ensures reference in x.Concrete() {
      AnchorIsConcrete(x);
    }
    hide Anchor, Record.Concrete;
    CommonIsShared(group, reference);
  }

  lemma AnchorIsConcrete(x: Record)
    ensures Anchor(x).Some? ==> Anchor(x).value in x.Concrete()
    ensures Anchor(x).None? <==> x.Concrete() == {}
  {
  }
}
