/** What the comparison of two findings says, in terms of what the findings carry
    (domain/finding_correlation.py:589-746, 802-821). */
module Comparisons {
  import opened Prelude
  import opened Findings

  /** A reference that names one vulnerability. */
  predicate NamesOne(x: Reference) {
    x.kind == CVE || x.kind == GHSA || x.kind == OSV
  }

  ghost predicate Common(left: Record, right: Record) {
    exists x | x in left.references && x in right.references :: NamesOne(x)
  }

  ghost predicate Carries(r: Record, kind: ReferenceKind) {
    exists x | x in r.references :: x.kind == kind
  }

  ghost predicate CommonOf(left: Record, right: Record, kind: ReferenceKind) {
    exists x | x in left.references && x in right.references :: x.kind == kind
  }

  /** Both name vulnerabilities, and none in common, or they disagree in one kind of name. */
  ghost predicate Contradict(left: Record, right: Record) {
    && (exists x | x in left.references :: NamesOne(x)) && (exists x | x in right.references :: NamesOne(x))
    && (!Common(left, right) || Parted(left, right, CVE) || Parted(left, right, GHSA) || Parted(left, right, OSV))
  }

  ghost predicate Parted(left: Record, right: Record, kind: ReferenceKind) {
    Carries(left, kind) && Carries(right, kind) && !CommonOf(left, right, kind)
  }

  /** The reference a finding is filed under: the least CVE, without one the least GHSA, without both the least OSV. */
  ghost predicate Leads(r: Record, x: Reference) {
    && x in r.references && NamesOne(x)
    && (forall y | y in r.references && y.kind == x.kind :: x.value <= y.value)
    && (x.kind == GHSA ==> !Carries(r, CVE))
    && (x.kind == OSV ==> !Carries(r, CVE) && !Carries(r, GHSA))
  }

  ghost predicate SameLead(left: Record, right: Record) {
    exists x :: Leads(left, x) && Leads(right, x)
  }

  predicate Disagree(a: Option<Name>, b: Option<Name>) {
    a.Some? && b.Some? && a.value != b.value
  }

  predicate BothNamed(a: Option<Name>, b: Option<Name>) {
    a.Some? && b.Some? && a.value == b.value
  }

  predicate OneNamed(a: Option<Name>, b: Option<Name>) {
    (a.Some? && b.None?) || (a.None? && b.Some?)
  }

  lemma LeadIsAnchor(r: Record)
    ensures forall x :: Anchor(r) == Some(x) <==> Leads(r, x)
    ensures Anchor(r).None? <==> forall x | x in r.references :: !NamesOne(x)
  {
    forall x ensures Anchor(r) == Some(x) <==> Leads(r, x) {
      if Anchor(r) == Some(x) {
        LeadOfAnchor(r, x);
      }
      if Leads(r, x) {
        AnchorOfLead(r, x);
      }
    }
    if x :| x in r.references && NamesOne(x) {
      assert x in r.Concrete();
    }
  }

  lemma LeadOfAnchor(r: Record, x: Reference)
    requires Anchor(r) == Some(x)
    ensures Leads(r, x)
  {
    forall y | y in r.references && NamesOne(y) ensures Precedes(x, y) {
      assert y in r.Concrete();
    }
  }

  lemma AnchorOfLead(r: Record, x: Reference)
    requires Leads(r, x)
    ensures Anchor(r) == Some(x)
  {
    forall y | y in r.Concrete() ensures Precedes(x, y) {
    }
    assert x in r.Concrete();
    var a := Anchor(r).value;
    assert a in r.Concrete() && Precedes(a, x) && Precedes(x, a);
  }

  lemma CommonIsShares(left: Record, right: Record)
    ensures Common(left, right) <==> Shares(left, right)
  {
    if Shares(left, right) {
      var x :| x in left.Concrete() * right.Concrete();
    }
    if x :| x in left.references && x in right.references && NamesOne(x) {
      assert x in left.Concrete() * right.Concrete();
    }
  }

  lemma PartedIs(left: Record, right: Record, kind: ReferenceKind)
    requires kind.Concrete()
    ensures Parted(left, right, kind) <==>
            var l, r := OfKind(left.Concrete(), kind), OfKind(right.Concrete(), kind);
            l != {} && r != {} && l * r == {}
  {
    var l, r := OfKind(left.Concrete(), kind), OfKind(right.Concrete(), kind);
    assert forall x :: x in l <==> x in left.references && x.kind == kind;
    assert forall x :: x in r <==> x in right.references && x.kind == kind;
    if CommonOf(left, right, kind) {
      var x :| x in left.references && x in right.references && x.kind == kind;
      assert x in l * r;
    }
  }

  lemma SomeNamed(r: Record)
    ensures r.Concrete() != {} <==> exists x | x in r.references :: NamesOne(x)
  {
    if x :| x in r.references && NamesOne(x) {
      assert x in r.Concrete();
    }
  }

  lemma ContradictionIs(left: Record, right: Record)
    ensures Contradict(left, right) <==> ReferencesConflict(left.Concrete(), right.Concrete())
  {
    CommonIsShares(left, right);
    PartedIs(left, right, CVE);
    PartedIs(left, right, GHSA);
    PartedIs(left, right, OSV);
    SomeNamed(left);
    SomeNamed(right);
    hide Common, Parted, OfKind, NamesOne, Record.Concrete;
  }

  /** How far the comparison gets before something contradicts. */
  ghost predicate Related(left: Record, right: Record) {
    left.identity.asset == right.identity.asset && !Contradict(left, right)
  }

  ghost predicate Located(left: Record, right: Record) {
    Related(left, right) && !Disagree(left.identity.endpoint, right.identity.endpoint)
  }

  ghost predicate Consistent(left: Record, right: Record) {
    Located(left, right) && !Disagree(left.identity.technology, right.identity.technology)
  }

  /** Findings merge exactly when nothing about their subjects contradicts and they have one fingerprint or are filed
      under one reference. */
  ghost predicate Mergeable(left: Record, right: Record) {
    Consistent(left, right) && (left.identity == right.identity || SameLead(left, right))
  }

  lemma MergesWhenMergeable(left: Record, right: Record)
    ensures Merges(left, right) <==> Mergeable(left, right)
  {
    hide Merges, Contradict, Leads, Anchor, ReferencesConflict, Record.Concrete;
    MergesExactly(left, right);
    ContradictionIs(left, right);
    LeadIsAnchor(left);
    LeadIsAnchor(right);
  }

  lemma LeadsAgree(left: Record, right: Record)
    ensures SameLead(left, right) <==> Shares(left, right) && Anchor(left) == Anchor(right)
  {
    LeadIsAnchor(left);
    LeadIsAnchor(right);
    CommonIsShares(left, right);
    hide Anchor, Shares;
    if x :| Leads(left, x) && Leads(right, x) {
      assert x in left.references && x in right.references;
    }
  }

  /** The subject is the same and complete. */
  predicate Complete(left: Record, right: Record) {
    BothNamed(left.identity.endpoint, right.identity.endpoint) && left.identity.technology == right.identity.technology
  }

  /** The strength of a match: none for what contradicts, or for different weaknesses without a common reference;
      exact for one fingerprint, or one leading reference of one complete subject; strong for one leading reference. */
  lemma StrengthExactly(left: Record, right: Record)
    ensures var s, a, b := Compare(left, right).strength, left.identity, right.identity;
            && (s == NO_MATCH <==>
                !Consistent(left, right) || (a.classification != b.classification && !Common(left, right)))
            && (s == EXACT <==>
                Consistent(left, right) && (a == b || (SameLead(left, right) && Complete(left, right))))
            && (s == STRONG <==>
                Consistent(left, right) && a != b && SameLead(left, right) && !Complete(left, right))
  {
    ContradictionIs(left, right);
    LeadsAgree(left, right);
    CommonIsShares(left, right);
    hide Contradict, Common, SameLead, Anchor, Shares, ReferencesConflict, Record.Concrete, Record.Weaknesses, PairOf,
      FieldReasons;
  }

  /** The two fingerprints, unordered. */
  lemma PairExactly(left: Record, right: Record)
    ensures Compare(left, right).pair == multiset{left.identity, right.identity}
  {
    hide ReferencesConflict, Anchor, Shares, Record.Concrete, Record.Weaknesses, FieldReasons;
  }

  /** Each contradiction is reported alone with what was established before it, and blocks; a difference of
      classification is reported too, and blocks unless the findings share a reference. */
  lemma ConflictsExactly(left: Record, right: Record, c: Conflict)
    ensures c in Compare(left, right).conflicts <==>
            match c.kind
            case ASSET => c.blocking && left.identity.asset != right.identity.asset
            case CONCRETE_REFERENCE =>
              c.blocking && left.identity.asset == right.identity.asset && Contradict(left, right)
            case ENDPOINT =>
              c.blocking && Related(left, right) && Disagree(left.identity.endpoint, right.identity.endpoint)
            case TECHNOLOGY =>
              c.blocking && Located(left, right) && Disagree(left.identity.technology, right.identity.technology)
            case CLASSIFICATION =>
              Consistent(left, right) && left.identity.classification != right.identity.classification &&
              (c.blocking <==> !Common(left, right))
  {
    ContradictionIs(left, right);
    CommonIsShares(left, right);
    hide Contradict, Common, Anchor, Shares, ReferencesConflict, Record.Concrete, Record.Weaknesses, PairOf,
      FieldReasons;
  }

  ghost predicate CommonWeakness(left: Record, right: Record) {
    CommonOf(left, right, CWE)
  }

  /** When each reason is given. */
  ghost predicate Reasoned(left: Record, right: Record, reason: Reason) {
    var a, b := left.identity, right.identity;
    match reason
    case SAME_ASSET => a.asset == b.asset
    case ASSET_MISMATCH => a.asset != b.asset
    case CONFLICTING_CONCRETE_REFERENCE => a.asset == b.asset && Contradict(left, right)
    case SAME_CONCRETE_REFERENCE => Related(left, right) && Common(left, right)
    case CONFLICTING_ENDPOINT => Related(left, right) && Disagree(a.endpoint, b.endpoint)
    case SAME_ENDPOINT => Related(left, right) && BothNamed(a.endpoint, b.endpoint)
    case ENDPOINT_MISSING_ON_ONE_SIDE => Related(left, right) && OneNamed(a.endpoint, b.endpoint)
    case CONFLICTING_TECHNOLOGY => Located(left, right) && Disagree(a.technology, b.technology)
    case SAME_TECHNOLOGY => Located(left, right) && BothNamed(a.technology, b.technology)
    case TECHNOLOGY_MISSING_ON_ONE_SIDE => Located(left, right) && OneNamed(a.technology, b.technology)
    case SAME_CLASSIFICATION => Consistent(left, right) && a.classification == b.classification
    case CONFLICTING_CLASSIFICATION => Consistent(left, right) && a.classification != b.classification
    case SAME_FINGERPRINT => Consistent(left, right) && a == b
    case INSUFFICIENT_IDENTITY =>
      Consistent(left, right) && a != b && !SameLead(left, right) &&
        (Common(left, right) || a.classification == b.classification)
    case CWE_ONLY_CLASSIFICATION =>
      Consistent(left, right) && a != b && !Common(left, right) && CommonWeakness(left, right)
    case TITLE_ONLY_SIMILARITY =>
      Consistent(left, right) && !Common(left, right) && a.classification != b.classification &&
        left.title == right.title
  }

  lemma WeaknessCommon(left: Record, right: Record)
    ensures CommonWeakness(left, right) <==> left.Weaknesses() * right.Weaknesses() != {}
  {
    if x :| x in left.references && x in right.references && x.kind == CWE {
      assert x in left.Weaknesses() * right.Weaknesses();
    }
    if x :| x in left.Weaknesses() * right.Weaknesses() {
      assert x in left.references && x in right.references;
    }
  }

  /** The reasons given before the findings are graded. */
  function SubjectReasons(left: Record, right: Record): set<Reason> {
    {SAME_ASSET} + (if Shares(left, right) then {SAME_CONCRETE_REFERENCE} else {})
    + FieldReasons(left.identity.endpoint, right.identity.endpoint, SAME_ENDPOINT, ENDPOINT_MISSING_ON_ONE_SIDE)
    + FieldReasons(left.identity.technology, right.identity.technology, SAME_TECHNOLOGY, TECHNOLOGY_MISSING_ON_ONE_SIDE)
  }

  lemma GradedReasons(left: Record, right: Record, reasons: set<Reason>, reason: Reason)
    ensures reason in Grade(left, right, Shares(left, right), reasons).reasons <==>
            var a, b := left.identity, right.identity;
            || reason in reasons
            || (reason == SAME_CLASSIFICATION && a.classification == b.classification)
            || (reason == CONFLICTING_CLASSIFICATION && a.classification != b.classification)
            || (reason == SAME_FINGERPRINT && a == b)
            || (reason == INSUFFICIENT_IDENTITY && a != b && !SameLead(left, right) &&
                (Common(left, right) || a.classification == b.classification))
            || (reason == CWE_ONLY_CLASSIFICATION && a != b && !Common(left, right) && CommonWeakness(left, right))
            || (reason == TITLE_ONLY_SIMILARITY && a != b && !Common(left, right) &&
                a.classification != b.classification &&
                left.title == right.title)
  {
    LeadsAgree(left, right);
    CommonIsShares(left, right);
    WeaknessCommon(left, right);
    hide Common, SameLead, Anchor, Shares, Record.Weaknesses, PairOf, CommonWeakness;
  }

  lemma ConsistentIsGraded(left: Record, right: Record)
    requires Consistent(left, right)
    ensures Compare(left, right) == Grade(left, right, Shares(left, right), SubjectReasons(left, right))
  {
    ContradictionIs(left, right);
    hide Contradict, Shares, ReferencesConflict, Record.Concrete, PairOf, FieldReasons, Grade;
  }

  lemma BlockedReasons(left: Record, right: Record, reason: Reason)
    requires !Consistent(left, right)
    ensures reason in Compare(left, right).reasons <==> Reasoned(left, right, reason)
  {
    ContradictionIs(left, right);
    CommonIsShares(left, right);
    hide Contradict, Common, SameLead, Shares, ReferencesConflict, Record.Concrete, PairOf, CommonWeakness, Grade;
  }

  lemma SubjectReasoned(left: Record, right: Record, reason: Reason)
    requires Consistent(left, right)
    ensures reason in SubjectReasons(left, right) <==>
            || reason == SAME_ASSET
            || (reason == SAME_CONCRETE_REFERENCE && Common(left, right))
            || (reason == SAME_ENDPOINT && BothNamed(left.identity.endpoint, right.identity.endpoint))
            || (reason == ENDPOINT_MISSING_ON_ONE_SIDE && OneNamed(left.identity.endpoint, right.identity.endpoint))
            || (reason == SAME_TECHNOLOGY && BothNamed(left.identity.technology, right.identity.technology))
            || (reason == TECHNOLOGY_MISSING_ON_ONE_SIDE &&
                OneNamed(left.identity.technology, right.identity.technology))
  {
    CommonIsShares(left, right);
    hide Contradict, Common, Shares;
  }

  lemma ReasonsExactly(left: Record, right: Record, reason: Reason)
    ensures reason in Compare(left, right).reasons <==> Reasoned(left, right, reason)
  {
    if Consistent(left, right) {
      ConsistentIsGraded(left, right);
      hide Contradict, Common, SameLead, Shares, CommonWeakness, Grade, Compare, SubjectReasons, BothNamed, OneNamed;
      SubjectReasoned(left, right, reason);
      GradedReasons(left, right, SubjectReasons(left, right), reason);
    } else {
      BlockedReasons(left, right, reason);
    }
  }
}
