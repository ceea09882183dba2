/** What vulnerability intelligence reports, in terms of the provider's answers and the given technologies
    (capabilities/vulnerability_intelligence.py:59-330). */
module Lookups {
  import opened Prelude
  import opened Ordering
  import opened Recon
  import opened Strings
  import opened Runtime
  import opened Vulnerabilities

  /** The normalized name, the concrete version and, if known, the normalized vendor of a technology. */
  ghost predicate Sought(lex: Lexicon, t: Technology, name: Name, version: Name, vendor: Option<Name>) {
    && lex.identity(t.name) == Some(name)
    && t.version.Some? && lex.concrete(t.version.value) == Some(version)
    && vendor == if t.vendor.Some? then lex.identity(t.vendor.value) else None
  }

  /** The two technologies ask for the same product. */
  ghost predicate SameProduct(lex: Lexicon, t: Technology, u: Technology) {
    exists name: Name, v: Name, w: Name, vendor: Option<Name> :: Sought(lex, t, name, v, vendor) &&
      Sought(lex, u, name, w, vendor) && lex.fold(v) == lex.fold(w)
  }

  /** The candidate is the product: not deprecated, of the same name and version, of the same vendor if one is known,
      and a CPE 2.3 name. */
  ghost predicate Fitting(lex: Lexicon, t: Technology, c: CpeCandidate) {
    && !c.deprecated && "cpe:2.3:" <= c.cpeName && lex.identity(c.vendor).Some?
    && exists name: Name, v: Name, w: Name, vendor: Option<Name> ::
         Sought(lex, t, name, v, vendor) && lex.identity(c.product) == Some(name) &&
         lex.concrete(c.version) == Some(w) && lex.fold(v) == lex.fold(w) &&
         (vendor.Some? ==> lex.identity(c.vendor) == vendor)
  }

  /** What the provider says to the search for a technology. */
  ghost predicate Searched(lex: Lexicon, provider: Provider, t: Technology, reply: Reply<seq<CpeCandidate>>) {
    exists name: Name, version: Name, vendor: Option<Name> ::
      Sought(lex, t, name, version, vendor) &&
      provider.search(t.name, version, if vendor.Some? then t.vendor else None) == reply
  }

  /** Exactly one CPE name fits. */
  ghost predicate Resolves(lex: Lexicon, provider: Provider, t: Technology, cpe: string) {
    exists candidates ::
      && Searched(lex, provider, t, Answer(candidates))
      && (exists c | c in candidates :: Fitting(lex, t, c) && c.cpeName == cpe)
      && forall c | c in candidates && Fitting(lex, t, c) :: c.cpeName == cpe
  }

  ghost predicate Yields(lex: Lexicon, provider: Provider, t: Technology, cpe: string, records: seq<NvdRecord>) {
    Resolves(lex, provider, t, cpe) && provider.records(cpe) == Answer(records)
  }

  /** One of the two questions has an invalid answer or fails unexpectedly. */
  ghost predicate Breaks(lex: Lexicon, provider: Provider, t: Technology) {
    Searched(lex, provider, t, Reply.Broken) ||
      exists cpe :: Resolves(lex, provider, t, cpe) && provider.records(cpe) == Reply.Broken
  }

  /** One of the two fails in the way the provider announces. */
  ghost predicate Misses(lex: Lexicon, provider: Provider, t: Technology) {
    Searched(lex, provider, t, Unavailable) ||
    exists cpe :: Resolves(lex, provider, t, cpe) && provider.records(cpe) == Unavailable
  }

  /** The vulnerability a record gives: its stripped identifier, its severity if it has one, and its score if that is
      between 0 and 10; a rejected record gives none. */
  ghost predicate Gives(r: NvdRecord, v: Vulnerability) {
    && !r.rejected && v.identifier == Strip(r.identifier) != []
    && (match r.severity case None => v.severity == UNKNOWN case Some(s) => v.severity == s)
    && (r.score.Some? && 0.0 <= r.score.value <= 10.0 ==> v.cvss == r.score)
    && (r.score.None? || r.score.value < 0.0 || r.score.value > 10.0 ==> v.cvss == None)
    && v.details == r.details
  }

  lemma GivesExactly(r: NvdRecord)
    ensures forall v :: ToVulnerability(r) == Some(v) <==> Gives(r, v)
    ensures ToVulnerability(r).Some? <==> !r.rejected && Strip(r.identifier) != []
    ensures forall id :: Identifies(r, id) <==> !r.rejected && Strip(r.identifier) == id != []
  {
    hide Strip;
  }

  lemma SoughtIsKey(lex: Lexicon, t: Technology)
    ensures KeyOf(lex, t).Some? <==>
            exists name: Name, version: Name, vendor: Option<Name> :: Sought(lex, t, name, version, vendor)
    ensures forall name: Name, version: Name, vendor: Option<Name> | Sought(lex, t, name, version, vendor) ::
              KeyOf(lex, t) == Some(Key(vendor, name, lex.fold(version)))
  {
    if KeyOf(lex, t).Some? {
      assert Sought(lex, t, lex.identity(t.name).value, lex.concrete(t.version.value).value,
                    if t.vendor.Some? then lex.identity(t.vendor.value) else None);
    }
  }

  lemma SameProductIsKey(lex: Lexicon, t: Technology, u: Technology)
    ensures SameProduct(lex, t, u) <==> KeyOf(lex, t).Some? && KeyOf(lex, t) == KeyOf(lex, u)
  {
    SoughtIsKey(lex, t);
    SoughtIsKey(lex, u);
  }

  lemma FittingQualifies(lex: Lexicon, t: Technology, c: CpeCandidate)
    requires KeyOf(lex, t).Some?
    ensures Fitting(lex, t, c) <==> Qualifies(lex, t, c)
  {
    SoughtIsKey(lex, t);
    if Qualifies(lex, t, c) {
      var vendor := if t.vendor.Some? then lex.identity(t.vendor.value) else None;
      assert Sought(lex, t, lex.identity(t.name).value, lex.concrete(t.version.value).value, vendor);
    }
  }

  lemma SearchedExactly(lex: Lexicon, provider: Provider, t: Technology, reply: Reply<seq<CpeCandidate>>)
    requires KeyOf(lex, t).Some?
    ensures Searched(lex, provider, t, reply) <==>
            provider.search(t.name, lex.Version(t.version).value, if lex.Vendor(t.vendor).Some? then t.vendor
                            else None) == reply
  {
    var vendor := if t.vendor.Some? then lex.identity(t.vendor.value) else None;
    assert Sought(lex, t, lex.identity(t.name).value, lex.concrete(t.version.value).value, vendor);
  }

  /** The one CPE name that fits is the one the lookup asks about. */
  lemma ResolvesExactly(lex: Lexicon, provider: Provider, t: Technology, candidates: seq<CpeCandidate>)
    requires KeyOf(lex, t).Some? && Searched(lex, provider, t, Answer(candidates))
    ensures forall cpe :: Resolves(lex, provider, t, cpe) <==> QualifyingNames(lex, t, candidates) == {cpe}
  {
    hide Fitting, Qualifies, KeyOf, Searched;
    forall c ensures Fitting(lex, t, c) <==> Qualifies(lex, t, c) {
      FittingQualifies(lex, t, c);
    }
    forall other | Searched(lex, provider, t, Answer(other)) ensures other == candidates {
      SearchedExactly(lex, provider, t, Answer(other));
      SearchedExactly(lex, provider, t, Answer(candidates));
    }
    forall cpe ensures Resolves(lex, provider, t, cpe) <==> QualifyingNames(lex, t, candidates) == {cpe} {
      if QualifyingNames(lex, t, candidates) == {cpe} {
        assert cpe in QualifyingNames(lex, t, candidates);
        forall c | c in candidates && Qualifies(lex, t, c) ensures c.cpeName == cpe {
          assert c.cpeName in QualifyingNames(lex, t, candidates);
        }
      }
      if Resolves(lex, provider, t, cpe) {
        assert forall n :: n in QualifyingNames(lex, t, candidates) <==> n == cpe;
      }
    }
  }

  /** What a lookup finds, breaks on or misses. */
  lemma LookUpExactly(lex: Lexicon, provider: Provider, t: Technology)
    requires KeyOf(lex, t).Some?
    ensures forall cpe, records :: LookUp(lex, provider, t) == Found(cpe, records) <==>
              Yields(lex, provider, t, cpe, records)
    ensures LookUp(lex, provider, t) == Broke <==> Breaks(lex, provider, t)
    ensures LookUp(lex, provider, t) == Failed <==> Misses(lex, provider, t)
  {
    hide Searched, Resolves, Qualifies, QualifyingNames;
    var reply := provider.search(t.name, lex.Version(t.version).value, if lex.Vendor(t.vendor).Some? then t.vendor
                                 else None);
    forall other ensures Searched(lex, provider, t, other) <==> other == reply {
      SearchedExactly(lex, provider, t, other);
    }
    if reply.Answer? {
      ResolvesExactly(lex, provider, t, reply.value);
      OneName(QualifyingNames(lex, t, reply.value));
    } else {
      NothingResolves(lex, provider, t, reply);
    }
  }

  lemma OneName(names: set<string>)
    ensures forall n | names == {n} :: |names| == 1 && TheOne(names) == n
  {
    forall n | names == {n} ensures |names| == 1 && TheOne(names) == n {
      assert |{n}| == 1 && TheOne(names) in {n};
    }
  }

  lemma NothingResolves(lex: Lexicon, provider: Provider, t: Technology, reply: Reply<seq<CpeCandidate>>)
    requires KeyOf(lex, t).Some? && !reply.Answer?
    requires forall other :: Searched(lex, provider, t, other) <==> other == reply
    ensures forall cpe :: !Resolves(lex, provider, t, cpe)
  {
    hide Searched;
  }

  /** The technologies asked about: for every product that can be asked about one of its technologies, of least rank. */
  ghost predicate Asking(lex: Lexicon, rank: Technology -> nat, technologies: set<Technology>, asked: set<Technology>) {
    && (forall u | u in asked :: u in technologies && SameProduct(lex, u, u))
    && (forall u, v | u in asked && v in asked && SameProduct(lex, u, v) :: u == v)
    && (forall t | t in technologies && SameProduct(lex, t, t) ::
          exists u | u in asked :: SameProduct(lex, t, u) && rank(u) <= rank(t))
  }

  lemma AskingExactly(lex: Lexicon, rank: Technology -> nat, technologies: set<Technology>, o: Observations,
                      representatives: map<Key, Technology>)
    requires Grouped(lex, technologies, o) && Chosen(rank, o, representatives) && Asked(lex, representatives)
    ensures Asking(lex, rank, technologies, representatives.Values)
  {
    hide SameProduct, KeyOf;
    forall t, u ensures SameProduct(lex, t, u) <==> KeyOf(lex, t).Some? && KeyOf(lex, t) == KeyOf(lex, u) {
      SameProductIsKey(lex, t, u);
    }
    forall t | t in technologies && SameProduct(lex, t, t)
      ensures exists u | u in representatives.Values :: SameProduct(lex, t, u) && rank(u) <= rank(t)
    {
      var k := KeyOf(lex, t).value;
      assert representatives[k] in representatives.Values;
    }
  }

  /** The association follows from what the provider said about the product. */
  ghost predicate Follows(lex: Lexicon, provider: Provider, technologies: set<Technology>, asked: set<Technology>,
                          a: VulnerabilityAssociation) {
    exists u: Technology, cpe: string, records: seq<NvdRecord>, r: NvdRecord ::
      && u in asked && Yields(lex, provider, u, cpe, records) && r in records && !r.rejected
      && a.vulnerabilityId == Strip(r.identifier) != []
      && a.technology in technologies && SameProduct(lex, a.technology, u)
      && a.product == ProductIdentifier("cpe23", cpe)
      && a.confidence == if u.vendor.Some? && lex.identity(u.vendor.value).Some? then High else Medium
  }

  /** The associations are exactly those that follow. */
  lemma AssociationsExactly(lex: Lexicon, provider: Provider, technologies: set<Technology>, o: Observations,
                            representatives: map<Key, Technology>, i: Intelligence, a: VulnerabilityAssociation)
    requires Grouped(lex, technologies, o) && Asked(lex, representatives) && o.Keys == representatives.Keys
    requires Gathered(lex, provider, o, representatives, o.Keys, i)
    ensures a in i.associations <==> Follows(lex, provider, technologies, representatives.Values, a)
  {
    hide Yields, SameProduct, LookUp, ToVulnerability, Strip;
    if a in i.associations {
      assert Justified(lex, provider, o, representatives, o.Keys, a);
      var k, r :| k in o.Keys && Supported(lex, provider, o, k, representatives[k], r, a);
      SupportFollows(lex, provider, technologies, o, representatives, k, r, a);
    }
    if Follows(lex, provider, technologies, representatives.Values, a) {
      var u: Technology, cpe: string, records: seq<NvdRecord>, r: NvdRecord :|
        && u in representatives.Values && Yields(lex, provider, u, cpe, records) && r in records && !r.rejected
        && a.vulnerabilityId == Strip(r.identifier) != []
        && a.technology in technologies && SameProduct(lex, a.technology, u)
        && a.product == ProductIdentifier("cpe23", cpe)
        && a.confidence == if u.vendor.Some? && lex.identity(u.vendor.value).Some? then High else Medium;
      var k :| k in representatives && representatives[k] == u;
      FollowsSupported(lex, provider, technologies, o, representatives, k, cpe, records, r, a);
    }
  }

  lemma SupportFollows(lex: Lexicon, provider: Provider, technologies: set<Technology>, o: Observations,
                       representatives: map<Key, Technology>, k: Key, r: NvdRecord, a: VulnerabilityAssociation)
    requires Grouped(lex, technologies, o) && Asked(lex, representatives) && o.Keys == representatives.Keys
    requires k in o && Supported(lex, provider, o, k, representatives[k], r, a)
    ensures Follows(lex, provider, technologies, representatives.Values, a)
  {
    hide Yields, SameProduct, LookUp, ToVulnerability, Strip;
    var u := representatives[k];
    assert u in representatives.Values;
    var l := LookUp(lex, provider, u);
    LookUpExactly(lex, provider, u);
    GivesExactly(r);
    SameProductIsKey(lex, a.technology, u);
    assert Yields(lex, provider, u, l.cpeName, l.records);
    assert Gives(r, ToVulnerability(r).value);
  }

  lemma FollowsSupported(lex: Lexicon, provider: Provider, technologies: set<Technology>, o: Observations,
                         representatives: map<Key, Technology>, k: Key, cpe: string, records: seq<NvdRecord>,
                           r: NvdRecord,
                         a: VulnerabilityAssociation)
    requires Grouped(lex, technologies, o) && Asked(lex, representatives) && o.Keys == representatives.Keys && k in o
    requires Yields(lex, provider, representatives[k], cpe, records) && r in records && !r.rejected
    requires a.vulnerabilityId == Strip(r.identifier) != []
    requires a.technology in technologies && SameProduct(lex, a.technology, representatives[k])
    requires a.product == ProductIdentifier("cpe23", cpe)
    requires var u := representatives[k];
             a.confidence == if u.vendor.Some? && lex.identity(u.vendor.value).Some? then High else Medium
    ensures Justified(lex, provider, o, representatives, o.Keys, a)
  {
    hide Yields, SameProduct, LookUp, ToVulnerability, Strip;
    var u := representatives[k];
    LookUpExactly(lex, provider, u);
    GivesExactly(r);
    SameProductIsKey(lex, a.technology, u);
    assert Gives(r, ToVulnerability(r).value);
    assert Supported(lex, provider, o, k, u, r, a);
  }

  /** Lookups are made by vendor, a missing one first, then by name, then by version. */
  predicate Sooner(a: Key, b: Key) {
    || (a.vendor.None? && b.vendor.Some?)
    || (a.vendor.Some? && b.vendor.Some? && a.vendor.value < b.vendor.value)
    || (a.vendor == b.vendor && a.name < b.name)
    || (a.vendor == b.vendor && a.name == b.name && a.version < b.version)
  }

  lemma SoonerIsLess(a: Key, b: Key)
    ensures KeyLeq(a, b) <==> !Sooner(b, a)
  {
    var s, t := KeyTuple(a), KeyTuple(b);
    assert LexLeq(s, t) <==> s[0] < t[0] || (s[0] == t[0] && LexLeq(s[1..], t[1..]));
    assert LexLeq(s[1..], t[1..]) <==> s[1] < t[1] || (s[1] == t[1] && LexLeq(s[1..][1..], t[1..][1..]));
    assert s[1..][1..] == [a.version] && t[1..][1..] == [b.version];
    assert LexLeq([a.version], [b.version]) <==> a.version < b.version || (a.version == b.version && LexLeq([], []));
  }

  /** Which record a reported vulnerability comes from: the first of its identifier in the first lookup that has one. */
  ghost predicate Reported(lex: Lexicon, provider: Provider, representatives: map<Key, Technology>, v: Vulnerability) {
    exists k: Key, cpe: string, records: seq<NvdRecord>, n: nat ::
      && k in representatives && Yields(lex, provider, representatives[k], cpe, records)
      && n < |records| && Gives(records[n], v)
      && (forall m | 0 <= m < n && !records[m].rejected :: Strip(records[m].identifier) != v.identifier)
      && (forall j: Key, other: string, found: seq<NvdRecord>, r: NvdRecord | j in representatives &&
            Yields(lex, provider, representatives[j], other, found) &&
            r in found && !r.rejected && Strip(r.identifier) == v.identifier :: !Sooner(j, k))
  }

  /** Every reported vulnerability is what its record gives, and every found record that is neither rejected nor blank
      has its identifier reported. */
  lemma ReportedExactly(lex: Lexicon, provider: Provider, o: Observations, representatives: map<Key, Technology>,
                        i: Intelligence)
    requires Asked(lex, representatives) && o.Keys == representatives.Keys
    requires Gathered(lex, provider, o, representatives, o.Keys, i) &&
             FirstReports(lex, provider, representatives, o.Keys, i)
    ensures forall id | id in i.vulnerabilities ::
              i.vulnerabilities[id].identifier == id && Reported(lex, provider, representatives, i.vulnerabilities[id])
    ensures forall u: Technology, cpe: string, records: seq<NvdRecord>, r: NvdRecord |
              u in representatives.Values && Yields(lex, provider, u, cpe, records) && r in records && !r.rejected &&
              Strip(r.identifier) != [] ::
              Strip(r.identifier) in i.vulnerabilities
  {
    hide Yields, LookUp, ToVulnerability, Strip, Justified, KeyOf;
    forall id | id in i.vulnerabilities ensures Reported(lex, provider, representatives, i.vulnerabilities[id]) {
      hide Gathered;
      var k :| FirstReport(lex, provider, representatives, o.Keys, k, i.vulnerabilities[id]);
      FirstIsReported(lex, provider, representatives, k, i.vulnerabilities[id]);
    }
    forall u: Technology, cpe: string, records: seq<NvdRecord>, r: NvdRecord |
      u in representatives.Values && Yields(lex, provider, u, cpe, records) && r in records && !r.rejected &&
      Strip(r.identifier) != []
      ensures Strip(r.identifier) in i.vulnerabilities
    {
      var k :| k in representatives && representatives[k] == u;
      FoundFrom(lex, provider, representatives, k, cpe, records, r);
    }
  }

  lemma FoundFrom(lex: Lexicon, provider: Provider, representatives: map<Key, Technology>, k: Key, cpe: string,
                  records: seq<NvdRecord>, r: NvdRecord)
    requires Asked(lex, representatives) && k in representatives &&
             Yields(lex, provider, representatives[k], cpe, records)
    requires r in records && !r.rejected && Strip(r.identifier) != []
    ensures exists v: Vulnerability :: v.identifier == Strip(r.identifier) &&
              FoundBy(lex, provider, representatives, representatives.Keys, v)
  {
    hide Yields, LookUp, ToVulnerability, Strip;
    LookUpExactly(lex, provider, representatives[k]);
    GivesExactly(r);
    var v := ToVulnerability(r).value;
    assert Gives(r, v);
    assert FoundBy(lex, provider, representatives, representatives.Keys, v);
  }

  lemma FirstIsReported(lex: Lexicon, provider: Provider, representatives: map<Key, Technology>, k: Key,
                        v: Vulnerability)
    requires Asked(lex, representatives) && FirstReport(lex, provider, representatives, representatives.Keys, k, v)
    ensures Reported(lex, provider, representatives, v)
  {
    hide Yields, LookUp, ToVulnerability, Strip, KeyOf, Sooner, KeyLeq;
    var l := LookUp(lex, provider, representatives[k]);
    LookUpExactly(lex, provider, representatives[k]);
    var n: nat :| n < |l.records| && ToVulnerability(l.records[n]) == Some(v) &&
      forall m | 0 <= m < n :: !Identifies(l.records[m], v.identifier);
    GivesExactly(l.records[n]);
    forall m | 0 <= m < n && !l.records[m].rejected ensures Strip(l.records[m].identifier) != v.identifier {
      GivesExactly(l.records[m]);
      assert !Identifies(l.records[m], v.identifier);
    }
    forall j: Key, other: string, found: seq<NvdRecord>, r: NvdRecord | j in representatives &&
      Yields(lex, provider, representatives[j], other, found) &&
        r in found && !r.rejected && Strip(r.identifier) == v.identifier
      ensures !Sooner(j, k)
    {
      LookUpExactly(lex, provider, representatives[j]);
      GivesExactly(r);
      assert Identifies(r, v.identifier);
      assert Names(lex, provider, representatives[j], v.identifier);
      SoonerIsLess(k, j);
    }
  }

  /** The status of a run: an error when some question breaks; otherwise the product lookups that were missed decide. */
  lemma StatusExactly(lex: Lexicon, provider: Provider, o: Observations, representatives: map<Key, Technology>,
                      status: Status)
    requires Asked(lex, representatives) && o.Keys == representatives.Keys
    requires status == ERROR <==> exists k :: k in representatives && LookUp(lex, provider, representatives[k]) == Broke
    requires status != ERROR ==> status == LookupStatus(|o|, |FailedKeys(lex, provider, representatives, o.Keys)|)
    ensures status == ERROR <==> exists u | u in representatives.Values :: Breaks(lex, provider, u)
    ensures status == SUCCESS ==> forall u | u in representatives.Values :: !Misses(lex, provider, u)
    ensures status == FAILURE ==>
            representatives.Values != {} && forall u | u in representatives.Values :: Misses(lex, provider, u)
    ensures status == PARTIAL ==> (exists u | u in representatives.Values :: Misses(lex, provider, u)) &&
                                  (exists u | u in representatives.Values :: !Misses(lex, provider, u))
  {
    hide LookUp, Breaks, Misses, KeyOf;
    forall k | k in representatives
      ensures LookUp(lex, provider, representatives[k]) == Broke <==> Breaks(lex, provider, representatives[k])
      ensures LookUp(lex, provider, representatives[k]) == Failed <==> Misses(lex, provider, representatives[k])
    {
      Asks(lex, representatives, k);
      LookUpExactly(lex, provider, representatives[k]);
    }
    var failed := FailedKeys(lex, provider, representatives, o.Keys);
    SubsetSize(failed, o.Keys);
    assert |o| == |o.Keys|;
    forall u | u in representatives.Values ensures Misses(lex, provider, u) <==>
      exists k | k in failed :: representatives[k] == u
    {
      var k :| k in representatives && representatives[k] == u;
    }
    if failed != {} {
      var k :| k in failed;
      assert representatives[k] in representatives.Values;
    }
    if failed != o.Keys {
      var k :| k in o.Keys && k !in failed;
      assert representatives[k] in representatives.Values;
    } else {
      forall u | u in representatives.Values ensures Misses(lex, provider, u) {
        var k :| k in representatives && representatives[k] == u;
        assert k in failed;
      }
    }
  }

  lemma Asks(lex: Lexicon, representatives: map<Key, Technology>, k: Key)
    requires Asked(lex, representatives) && k in representatives
    ensures KeyOf(lex, representatives[k]).Some?
  {
  }
}
