/** Finding records and the pairwise comparison of two of them
    (domain/finding_intelligence.py, domain/finding_correlation.py). */
module Findings {
  import opened Prelude

  datatype ReferenceKind = CVE | GHSA | OSV | CWE | VENDOR_ADVISORY | RESEARCH_ARTICLE | INTERNAL {
    predicate Concrete() {
      CVE? || GHSA? || OSV?
    }

    function Priority(): nat {
      match this
      case CVE => 0
      case GHSA => 1
      case _ => 2
    }
  }

  datatype Reference = Reference(kind: ReferenceKind, value: Name)

  /** What the fingerprint digests; the digest is modelled as this payload, of which it is an injective image. */
  datatype Identity = Identity(classification: Name, asset: Name, endpoint: Option<Name>, technology: Option<Name>)

  datatype Evidence = Evidence(summary: Name, method_: Name, confidence: nat, quality: nat, source: Name)

  /** `title` is the normalised title that comparison uses, `rawTitle` the title as given; the record identity of
      the source is the empty name when there is none. */
  datatype Record = Record(
    identity: Identity, title: Name, rawTitle: Name, references: set<Reference>, evidence: seq<Evidence>,
    source: Name, recordId: Name, severity: Name, tags: set<Name>)
  {
    function Concrete(): set<Reference> {
      set x | x in references && x.kind.Concrete()
    }

    function Weaknesses(): set<Reference> {
      set x | x in references && x.kind == CWE
    }
  }

  predicate Precedes(a: Reference, b: Reference) {
    a.kind.Priority() < b.kind.Priority() || (a.kind.Priority() == b.kind.Priority() && a.value <= b.value)
  }

  predicate IsFirst(m: Reference, refs: set<Reference>) {
    m in refs && forall x | x in refs :: Precedes(m, x)
  }

  lemma FirstOfTwo(m: Reference, least: Reference, refs: set<Reference>)
    requires m in refs && IsFirst(least, refs - {m})
    ensures IsFirst(if Precedes(m, least) then m else least, refs)
  {
    forall x | x in refs ensures Precedes(if Precedes(m, least) then m else least, x) {
      if x != m {
        assert Precedes(least, x);
      }
    }
  }

  lemma {:induction false} LeastReferenceExists(refs: set<Reference>)
    requires refs != {}
    ensures exists m :: IsFirst(m, refs)
  {
    hide Precedes;
    var m :| m in refs;
    if refs == {m} {
      ItsOwnFirst(m);
    } else {
      LeastReferenceExists(refs - {m});
      var least :| IsFirst(least, refs - {m});
      FirstOfTwo(m, least, refs);
    }
  }

  lemma ItsOwnFirst(m: Reference)
    ensures IsFirst(m, {m})
  {
  }

  lemma OneFirst(refs: set<Reference>)
    requires forall x | x in refs :: x.kind.Concrete()
    ensures forall a, b | IsFirst(a, refs) && IsFirst(b, refs) :: a == b
  {
    forall a, b | IsFirst(a, refs) && IsFirst(b, refs) ensures a == b {
      assert Precedes(a, b) && Precedes(b, a);
      assert a.kind == b.kind;
    }
  }

  /** `_selected_concrete_anchor`: the least concrete reference, CVE before GHSA before OSV. */
  function Selected(refs: set<Reference>): (r: Option<Reference>)
    requires forall x | x in refs :: x.kind.Concrete()
    ensures r.None? <==> refs == {}
    ensures r.Some? ==> r.value in refs && forall x | x in refs :: Precedes(r.value, x)
  {
    if refs == {} then None
    else
      LeastReferenceExists(refs);
      OneFirst(refs);
      var m :| m in refs && IsFirst(m, refs);
      Some(m)
  }

  function Anchor(r: Record): Option<Reference> {
    Selected(r.Concrete())
  }

  function OfKind(refs: set<Reference>, kind: ReferenceKind): set<Reference> {
    set x | x in refs && x.kind == kind
  }

  /** `_concrete_references_conflict`. */
  predicate ReferencesConflict(left: set<Reference>, right: set<Reference>) {
    && left != {} && right != {}
    && (left * right == {}
        || exists kind | kind in {CVE, GHSA, OSV} ::
             OfKind(left, kind) != {} && OfKind(right, kind) != {} && OfKind(left, kind) * OfKind(right, kind) == {})
  }

  datatype Strength = EXACT | STRONG | POSSIBLE | NO_MATCH

  datatype Reason =
    | SAME_FINGERPRINT | SAME_CONCRETE_REFERENCE | SAME_CLASSIFICATION | SAME_ASSET | SAME_ENDPOINT
    | ENDPOINT_MISSING_ON_ONE_SIDE | SAME_TECHNOLOGY | TECHNOLOGY_MISSING_ON_ONE_SIDE
    | CWE_ONLY_CLASSIFICATION | TITLE_ONLY_SIMILARITY | CONFLICTING_CONCRETE_REFERENCE
    | CONFLICTING_CLASSIFICATION | CONFLICTING_ENDPOINT | CONFLICTING_TECHNOLOGY | ASSET_MISMATCH |
      INSUFFICIENT_IDENTITY

  datatype ConflictKind = ASSET | CONCRETE_REFERENCE | CLASSIFICATION | ENDPOINT | TECHNOLOGY

  datatype Conflict = Conflict(kind: ConflictKind, blocking: bool)

  /** The two fingerprints are kept in order, which an unordered pair expresses. */
  datatype Decision = Decision(pair: multiset<Identity>, strength: Strength, reasons: set<Reason>,
                               conflicts: set<Conflict>) {
    predicate AutomaticMerge() {
      strength in {EXACT, STRONG} && !exists c | c in conflicts :: c.blocking
    }
  }

  /** One side missing, both equal, both different, or both missing. */
  predicate Differ(a: Option<Name>, b: Option<Name>) {
    a.Some? && b.Some? && a != b
  }

  function FieldReasons(a: Option<Name>, b: Option<Name>, same: Reason, missing: Reason): set<Reason> {
    if a.Some? && b.Some? then {same} else if a.Some? != b.Some? then {missing} else {}
  }

  function PairOf(left: Record, right: Record): multiset<Identity> {
    multiset{left.identity, right.identity}
  }

  predicate Shares(left: Record, right: Record) {
    left.Concrete() * right.Concrete() != {}
  }

  lemma PairSymmetric(left: Record, right: Record)
    ensures PairOf(left, right) == PairOf(right, left) && (Shares(left, right) <==> Shares(right, left))
  {
    hide Record.Concrete;
    assert left.Concrete() * right.Concrete() == right.Concrete() * left.Concrete();
  }

  /** `FindingCorrelator.compare`. */
  function Compare(left: Record, right: Record): Decision {
    var pair := PairOf(left, right);
    var a, b := left.identity, right.identity;
    if a.asset != b.asset then Decision(pair, NO_MATCH, {ASSET_MISMATCH}, {Conflict(ASSET, true)})
    else if ReferencesConflict(left.Concrete(), right.Concrete()) then
      Decision(pair, NO_MATCH, {SAME_ASSET, CONFLICTING_CONCRETE_REFERENCE}, {Conflict(CONCRETE_REFERENCE, true)})
    else
      var shared := Shares(left, right);
      var reasons := {SAME_ASSET} + if shared then {SAME_CONCRETE_REFERENCE} else {};
      if Differ(a.endpoint, b.endpoint) then
         Decision(pair, NO_MATCH, reasons + {CONFLICTING_ENDPOINT}, {Conflict(ENDPOINT, true)})
      else
        var reasons := reasons + FieldReasons(a.endpoint, b.endpoint, SAME_ENDPOINT, ENDPOINT_MISSING_ON_ONE_SIDE);
        if Differ(a.technology, b.technology) then
           Decision(pair, NO_MATCH, reasons + {CONFLICTING_TECHNOLOGY}, {Conflict(TECHNOLOGY, true)})
        else Grade(left, right, shared,
                   reasons + FieldReasons(a.technology, b.technology, SAME_TECHNOLOGY, TECHNOLOGY_MISSING_ON_ONE_SIDE))
  }

  /** The last part of `compare`, once no subject contradicts. */
  function Grade(left: Record, right: Record, shared: bool, reasons: set<Reason>): Decision {
    var pair := PairOf(left, right);
    var a, b := left.identity, right.identity;
    var sameClass := a.classification == b.classification;
    var reasons := reasons + if sameClass then {SAME_CLASSIFICATION} else {CONFLICTING_CLASSIFICATION};
    var conflicts := if sameClass then {} else {Conflict(CLASSIFICATION, !shared)};
    if a == b then Decision(pair, EXACT, reasons + {SAME_FINGERPRINT}, conflicts)
    else if shared && Anchor(left) == Anchor(right) then
      var complete := a.endpoint.Some? && a.endpoint == b.endpoint && a.technology == b.technology;
      Decision(pair, if complete then EXACT else STRONG, reasons, conflicts)
    else if shared then Decision(pair, POSSIBLE, reasons + {INSUFFICIENT_IDENTITY}, conflicts)
    else
      var reasons := reasons + if left.Weaknesses() * right.Weaknesses() != {} then {CWE_ONLY_CLASSIFICATION} else {};
      if !sameClass then Decision(pair, NO_MATCH, reasons + if left.title == right.title then {TITLE_ONLY_SIMILARITY}
                                  else {}, conflicts)
      else Decision(pair, POSSIBLE, reasons + {INSUFFICIENT_IDENTITY}, conflicts)
  }

  predicate Merges(left: Record, right: Record) {
    Compare(left, right).AutomaticMerge()
  }

  lemma ConflictSymmetric(left: set<Reference>, right: set<Reference>)
    ensures ReferencesConflict(left, right) <==> ReferencesConflict(right, left)
  {
    assert left * right == right * left;
    forall kind ensures OfKind(left, kind) * OfKind(right, kind) == OfKind(right, kind) * OfKind(left, kind) {
    }
  }

  lemma GradeSymmetric(left: Record, right: Record, shared: bool, reasons: set<Reason>)
    ensures Grade(left, right, shared, reasons) == Grade(right, left, shared, reasons)
  {
    hide Anchor, Record.Weaknesses, PairOf, Shares;
    PairSymmetric(left, right);
    assert left.Weaknesses() * right.Weaknesses() == right.Weaknesses() * left.Weaknesses();
  }

  /** Comparison does not depend on which record is on the left. */
  lemma CompareSymmetric(left: Record, right: Record)
    ensures Compare(left, right) == Compare(right, left)
  {
    hide ReferencesConflict, Record.Concrete, Grade, PairOf, Shares;
    ConflictSymmetric(left.Concrete(), right.Concrete());
    PairSymmetric(left, right);
    forall reasons
      ensures Grade(left, right, Shares(left, right), reasons) == Grade(right, left, Shares(left, right), reasons)
    {
      GradeSymmetric(left, right, Shares(left, right), reasons);
    }
  }

  /** Neither the asset, the concrete references, the endpoints nor the technologies contradict. */
  predicate Compatible(left: Record, right: Record) {
    && left.identity.asset == right.identity.asset
    && !ReferencesConflict(left.Concrete(), right.Concrete())
    && !Differ(left.identity.endpoint, right.identity.endpoint)
    && !Differ(left.identity.technology, right.identity.technology)
  }

  /** When two findings merge automatically: compatible subjects, and either the same fingerprint or the
      same selected concrete reference.  Titles, weaknesses and classifications never decide it. */
  lemma MergesExactly(left: Record, right: Record)
    ensures Merges(left, right) <==>
            Compatible(left, right) &&
              (left.identity == right.identity || (Anchor(left).Some? && Anchor(left) == Anchor(right)))
  {
    hide ReferencesConflict, Selected, Record.Concrete, Record.Weaknesses, FieldReasons;
    if Anchor(left).Some? && Anchor(left) == Anchor(right) {
      assert Anchor(left).value in left.Concrete() * right.Concrete();
      assert Shares(left, right);
    }
  }

  predicate Blocked(d: Decision) {
    exists c | c in d.conflicts :: c.blocking
  }

  /** A pair fails to match exactly when some conflict blocks it.  So strength alone decides about merging: the
      extra test for blocking conflicts never changes the outcome. */
  lemma NoMatchIffBlocked(left: Record, right: Record)
    ensures Compare(left, right).strength == NO_MATCH <==> Blocked(Compare(left, right))
    ensures Merges(left, right) <==> Compare(left, right).strength in {EXACT, STRONG}
  {
    hide ReferencesConflict, Anchor, Record.Concrete, Record.Weaknesses, FieldReasons, PairOf, Shares;
    var d := Compare(left, right);
    if d.strength == NO_MATCH {
      assert d.conflicts != {};
      var c :| c in d.conflicts;
      assert c.blocking;
    }
  }

  /** Findings that merge disagree in nothing but their classification, and that disagreement is recorded
      without blocking. */
  lemma MergedDisagreement(left: Record, right: Record)
    requires Merges(left, right)
    ensures Compare(left, right).conflicts ==
            if left.identity.classification == right.identity.classification then {}
               else {Conflict(CLASSIFICATION, false)}
    ensures SAME_ASSET in Compare(left, right).reasons
    ensures SAME_FINGERPRINT in Compare(left, right).reasons || SAME_CONCRETE_REFERENCE in Compare(left, right).reasons
  {
    hide ReferencesConflict, Anchor, Record.Concrete, Record.Weaknesses, PairOf, Shares;
  }
}
