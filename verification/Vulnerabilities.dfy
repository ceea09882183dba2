/** Vulnerability intelligence: lookups of observed technologies against a vulnerability provider
    (capabilities/vulnerability_intelligence.py). */
module Vulnerabilities {
  import opened Prelude
  import opened Ordering
  import opened Recon
  import opened Strings
  import opened Runtime

  datatype Severity = UNKNOWN | LOW | MEDIUM | HIGH | CRITICAL

  datatype Vulnerability = Vulnerability(identifier: string, severity: Severity, cvss: Option<real>, details: nat)

  datatype MatchConfidence = Medium | High

  datatype ProductIdentifier = ProductIdentifier(scheme: string, value: string)

  datatype VulnerabilityAssociation = VulnerabilityAssociation(
    technology: Technology, vulnerabilityId: string, product: ProductIdentifier, confidence: MatchConfidence)

  datatype CpeCandidate = CpeCandidate(cpeName: string, deprecated: bool, vendor: Name, product: Name, version: Name)

  datatype NvdRecord = NvdRecord(identifier: string, rejected: bool, severity: Option<Severity>, score: Option<real>,
                                 details: nat)

  /** What a provider call ends with: an answer, an adapter error, or an invalid answer or unexpected exception. */
  datatype Reply<T> = Answer(value: T) | Unavailable | Broken

  /** An arbitrary provider; its answers may depend on nothing but the question. */
  datatype Provider = Provider(
    search: (Name, Name, Option<Name>) -> Reply<seq<CpeCandidate>>, records: string -> Reply<seq<NvdRecord>>)

  /** The string functions of the capability: `_normalize_identity`, `_concrete_version` and case folding,
      arbitrary here. */
  datatype Lexicon = Lexicon(identity: Name -> Option<Name>, concrete: Name -> Option<Name>, fold: Name -> Name) {
    function Version(version: Option<Name>): Option<Name> {
      if version.None? then None else concrete(version.value)
    }

    function Vendor(vendor: Option<Name>): Option<Name> {
      if vendor.None? then None else identity(vendor.value)
    }
  }

  datatype Key = Key(vendor: Option<Name>, name: Name, version: Name)

  /** Lookup keys compare as tuples; no vendor counts as the empty text, which is never one. */
  function KeyTuple(k: Key): seq<nat> {
    [if k.vendor.None? then 0 else k.vendor.value + 1, k.name, k.version]
  }

  predicate KeyLeq(a: Key, b: Key) {
    LexLeq(KeyTuple(a), KeyTuple(b))
  }

  lemma KeysOrdered()
    ensures IsOrder(KeyLeq)
    ensures forall a, b | KeyLeq(a, b) && KeyLeq(b, a) :: a == b
  {
    hide LexLeq, KeyTuple;
    forall a, b ensures KeyLeq(a, b) || KeyLeq(b, a) {
      LexTotal(KeyTuple(a), KeyTuple(b));
    }
    forall a, b, c | KeyLeq(a, b) && KeyLeq(b, c) ensures KeyLeq(a, c) {
      LexTransitive(KeyTuple(a), KeyTuple(b), KeyTuple(c));
    }
    forall a, b | KeyLeq(a, b) && KeyLeq(b, a) ensures a == b {
      LexAntisymmetric(KeyTuple(a), KeyTuple(b));
      SameTuple(a, b);
    }
  }

  lemma SameTuple(a: Key, b: Key)
    requires KeyTuple(a) == KeyTuple(b)
    ensures a == b
  {
    assert KeyTuple(a)[0] == KeyTuple(b)[0] && KeyTuple(a)[1] == KeyTuple(b)[1] && KeyTuple(a)[2] == KeyTuple(b)[2];
  }

  /** The lookup a technology takes part in, if its name and version are concrete. */
  function KeyOf(lex: Lexicon, t: Technology): Option<Key> {
    match (lex.identity(t.name), lex.Version(t.version))
    case (Some(name), Some(version)) => Some(Key(lex.Vendor(t.vendor), name, lex.fold(version)))
    case _ => None
  }

  /** A candidate that names the technology's product and version, and its vendor when one is known. */
  predicate Qualifies(lex: Lexicon, t: Technology, c: CpeCandidate) {
    && !c.deprecated
    && KeyOf(lex, t).Some?
    && lex.identity(c.vendor).Some?
    && lex.identity(c.product) == Some(KeyOf(lex, t).value.name)
    && lex.concrete(c.version).Some? && lex.fold(lex.concrete(c.version).value) == KeyOf(lex, t).value.version
    && (lex.Vendor(t.vendor).Some? ==> lex.identity(c.vendor) == lex.Vendor(t.vendor))
    && StartsWith(c.cpeName, "cpe:2.3:")
  }

  /** `_to_vulnerability`: None for records without identifier and rejected ones. */
  function ToVulnerability(r: NvdRecord): Option<Vulnerability> {
    var identifier := Strip(r.identifier);
    if identifier == [] || r.rejected then None
    else Some(Vulnerability(
      identifier, if r.severity.None? then UNKNOWN else r.severity.value,
      if r.score.Some? && 0.0 <= r.score.value <= 10.0 then r.score else None, r.details))
  }

  datatype Lookup = Found(cpeName: string, records: seq<NvdRecord>) | Nothing | Ambiguous | Failed | Broke

  function QualifyingNames(lex: Lexicon, t: Technology, candidates: seq<CpeCandidate>): set<string> {
    set c | c in candidates && Qualifies(lex, t, c) :: c.cpeName
  }

  function TheOne(names: set<string>): (n: string)
    requires |names| == 1
    ensures names == {n}
  {
    ExactlyOne(names);
    var n :| n in names;
    n
  }

  lemma ExactlyOne(names: set<string>)
    requires |names| == 1
    ensures forall a, b | a in names && b in names :: a == b
    ensures exists n :: n in names
    ensures forall n | n in names :: names == {n}
  {
    var n :| n in names;
    SubsetSize({n}, names);
  }

  /** The provider conversation for one representative technology. */
  function LookUp(lex: Lexicon, provider: Provider, t: Technology): Lookup
    requires KeyOf(lex, t).Some?
  {
    var vendor := if lex.Vendor(t.vendor).Some? then t.vendor else None;
    match provider.search(t.name, lex.Version(t.version).value, vendor)
    case Unavailable => Failed
    case Broken => Broke
    case Answer(candidates) =>
      var names := QualifyingNames(lex, t, candidates);
      if |names| == 0 then Nothing
      else if |names| > 1 then Ambiguous
      else
        match provider.records(TheOne(names))
        case Unavailable => Failed
        case Broken => Broke
        case Answer(records) => Found(TheOne(names), records)
  }

  /** `_status`. */
  function LookupStatus(lookups: nat, failures: nat): Status {
    if failures == 0 then SUCCESS else if lookups > 0 && failures == lookups then FAILURE else PARTIAL
  }

  function ConfidenceOf(lex: Lexicon, t: Technology): MatchConfidence {
    if lex.Vendor(t.vendor).Some? then High else Medium
  }

  type Observations = map<Key, set<Technology>>

  /** Technologies grouped by lookup: every group is exactly the technologies of its key, and none is empty. */
  ghost predicate Grouped(lex: Lexicon, technologies: set<Technology>, o: Observations) {
    && (forall k, t | k in o && t in o[k] :: t in technologies && KeyOf(lex, t) == Some(k))
    && (forall t | t in technologies && KeyOf(lex, t).Some? :: KeyOf(lex, t).value in o && t in o[KeyOf(lex, t).value])
    && (forall k | k in o :: o[k] != {})
  }

  /** Each lookup is made for one least observation of its group. */
  ghost predicate Chosen(rank: Technology -> nat, o: Observations, representatives: map<Key, Technology>) {
    && representatives.Keys == o.Keys
    && forall k | k in o :: representatives[k] in o[k] && forall t | t in o[k] :: rank(representatives[k]) <= rank(t)
  }

  /** The association states a result of the lookup k, made for t, about one observation of the lookup. */
  ghost predicate Supported(lex: Lexicon, provider: Provider, o: Observations, k: Key, t: Technology, r: NvdRecord,
                            a: VulnerabilityAssociation)
    requires KeyOf(lex, t).Some?
  {
    && LookUp(lex, provider, t).Found? && r in LookUp(lex, provider, t).records && ToVulnerability(r).Some?
    && k in o && a.technology in o[k]
    && a.vulnerabilityId == ToVulnerability(r).value.identifier
    && a.product == ProductIdentifier("cpe23", LookUp(lex, provider, t).cpeName)
    && a.confidence == ConfidenceOf(lex, t)
  }

  /** The representatives are well formed for lookups. */
  ghost predicate Asked(lex: Lexicon, representatives: map<Key, Technology>) {
    forall k | k in representatives :: KeyOf(lex, representatives[k]) == Some(k)
  }

  ghost predicate Justified(lex: Lexicon, provider: Provider, o: Observations, representatives: map<Key, Technology>,
                            keys: set<Key>, a: VulnerabilityAssociation)
    requires Asked(lex, representatives) && keys <= representatives.Keys
  {
    exists k, r :: k in keys && Supported(lex, provider, o, k, representatives[k], r, a)
  }

  ghost predicate FoundBy(lex: Lexicon, provider: Provider, representatives: map<Key, Technology>, keys: set<Key>,
                          v: Vulnerability)
    requires Asked(lex, representatives) && keys <= representatives.Keys
  {
    exists k, r :: k in keys && LookUp(lex, provider, representatives[k]).Found? &&
                   r in LookUp(lex, provider, representatives[k]).records && ToVulnerability(r) == Some(v)
  }

  ghost function FailedKeys(lex: Lexicon, provider: Provider, representatives: map<Key, Technology>,
                            keys: set<Key>): set<Key>
    requires Asked(lex, representatives) && keys <= representatives.Keys
  {
    set k | k in keys && LookUp(lex, provider, representatives[k]) == Failed
  }

  datatype Intelligence = Intelligence(vulnerabilities: map<string, Vulnerability>,
                                       associations: set<VulnerabilityAssociation>)

  /** What is known after the lookups of the given keys: the associations are exactly the supported ones, and
      each found identifier has one of the vulnerabilities found under it. */
  ghost predicate Gathered(lex: Lexicon, provider: Provider, o: Observations, representatives: map<Key, Technology>,
                           keys: set<Key>, i: Intelligence)
    requires Asked(lex, representatives) && keys <= representatives.Keys
  {
    && (forall a :: a in i.associations <==> Justified(lex, provider, o, representatives, keys, a))
    && (forall id | id in i.vulnerabilities :: i.vulnerabilities[id].identifier == id &&
          FoundBy(lex, provider, representatives, keys, i.vulnerabilities[id]))
    && (forall v :: FoundBy(lex, provider, representatives, keys, v) ==> v.identifier in i.vulnerabilities)
  }

  predicate Identifies(r: NvdRecord, id: string) {
    ToVulnerability(r).Some? && ToVulnerability(r).value.identifier == id
  }

  /** The first of the records that reports the identifier reports this vulnerability. */
  ghost predicate ReportedFirst(records: seq<NvdRecord>, v: Vulnerability) {
    exists n :: 0 <= n < |records| && ToVulnerability(records[n]) == Some(v) &&
      forall m | 0 <= m < n :: !Identifies(records[m], v.identifier)
  }

  /** The lookup found a record of the identifier. */
  ghost predicate Names(lex: Lexicon, provider: Provider, t: Technology, id: string)
    requires KeyOf(lex, t).Some?
  {
    LookUp(lex, provider, t).Found? && exists r | r in LookUp(lex, provider, t).records :: Identifies(r, id)
  }

  /** The vulnerability comes from the first record of its identifier in the least lookup that found one. */
  ghost predicate FirstReport(lex: Lexicon, provider: Provider, representatives: map<Key, Technology>, keys: set<Key>,
                              k: Key, v: Vulnerability)
    requires Asked(lex, representatives) && keys <= representatives.Keys
  {
    && k in keys && LookUp(lex, provider, representatives[k]).Found?
    && ReportedFirst(LookUp(lex, provider, representatives[k]).records, v)
    && forall j | j in keys && Names(lex, provider, representatives[j], v.identifier) :: KeyLeq(k, j)
  }

  ghost predicate FirstReports(lex: Lexicon, provider: Provider, representatives: map<Key, Technology>, keys: set<Key>,
                               i: Intelligence)
    requires Asked(lex, representatives) && keys <= representatives.Keys
  {
    forall id | id in i.vulnerabilities ::
      i.vulnerabilities[id].identifier == id &&
        exists k :: FirstReport(lex, provider, representatives, keys, k, i.vulnerabilities[id])
  }

  lemma OneFirstRecord(records: seq<NvdRecord>, v: Vulnerability, w: Vulnerability)
    requires ReportedFirst(records, v) && ReportedFirst(records, w) && v.identifier == w.identifier
    ensures v == w
  {
    hide ToVulnerability;
    var n :| 0 <= n < |records| && ToVulnerability(records[n]) == Some(v) &&
      forall m | 0 <= m < n :: !Identifies(records[m], v.identifier);
    var m :| 0 <= m < |records| && ToVulnerability(records[m]) == Some(w) &&
      forall i | 0 <= i < m :: !Identifies(records[i], w.identifier);
    assert Identifies(records[n], v.identifier) && Identifies(records[m], v.identifier);
  }

  lemma FirstIsNamed(lex: Lexicon, provider: Provider, representatives: map<Key, Technology>, keys: set<Key>, k: Key,
                     v: Vulnerability)
    requires Asked(lex, representatives) && keys <= representatives.Keys &&
             FirstReport(lex, provider, representatives, keys, k, v)
    ensures Names(lex, provider, representatives[k], v.identifier)
  {
    hide LookUp, ToVulnerability, KeyOf;
    var records := LookUp(lex, provider, representatives[k]).records;
    var n :| 0 <= n < |records| && ToVulnerability(records[n]) == Some(v);
    assert records[n] in records && Identifies(records[n], v.identifier);
  }

  lemma OneFirstReport(lex: Lexicon, provider: Provider, representatives: map<Key, Technology>, keys: set<Key>, j: Key,
                       v: Vulnerability, k: Key, w: Vulnerability)
    requires Asked(lex, representatives) && keys <= representatives.Keys && v.identifier == w.identifier
    requires FirstReport(lex, provider, representatives, keys, j, v) &&
             FirstReport(lex, provider, representatives, keys, k, w)
    ensures v == w
  {
    hide LookUp, KeyOf, Names, ReportedFirst, KeyLeq;
    FirstIsNamed(lex, provider, representatives, keys, j, v);
    FirstIsNamed(lex, provider, representatives, keys, k, w);
    KeysOrdered();
    OneFirstRecord(LookUp(lex, provider, representatives[j]).records, v, w);
  }

  /** The lookups determine what is reported. */
  lemma IntelligenceUnique(lex: Lexicon, provider: Provider, o: Observations, representatives: map<Key, Technology>,
                           a: Intelligence, b: Intelligence)
    requires Asked(lex, representatives) && o.Keys == representatives.Keys
    requires Gathered(lex, provider, o, representatives, o.Keys, a) &&
             FirstReports(lex, provider, representatives, o.Keys, a)
    requires Gathered(lex, provider, o, representatives, o.Keys, b) &&
             FirstReports(lex, provider, representatives, o.Keys, b)
    ensures a == b
  {
    hide Justified, FoundBy, FirstReport, KeyOf;
    assert a.associations == b.associations;
    forall id | id in a.vulnerabilities && id in b.vulnerabilities
      ensures a.vulnerabilities[id] == b.vulnerabilities[id]
    {
      var j :| FirstReport(lex, provider, representatives, o.Keys, j, a.vulnerabilities[id]);
      var k :| FirstReport(lex, provider, representatives, o.Keys, k, b.vulnerabilities[id]);
      OneFirstReport(lex, provider, representatives, o.Keys, j, a.vulnerabilities[id], k, b.vulnerabilities[id]);
    }
    assert forall id | id in a.vulnerabilities ::
           FoundBy(lex, provider, representatives, o.Keys, a.vulnerabilities[id]);
    assert forall id | id in b.vulnerabilities ::
           FoundBy(lex, provider, representatives, o.Keys, b.vulnerabilities[id]);
    assert a.vulnerabilities.Keys == b.vulnerabilities.Keys;
    assert a.vulnerabilities == b.vulnerabilities;
  }
}
