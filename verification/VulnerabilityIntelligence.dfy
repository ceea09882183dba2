/** The vulnerability intelligence capability: one lookup per product, vendor and version, and the
    associations it supports (capabilities/vulnerability_intelligence.py). */
module VulnerabilityIntelligence {
  import opened Prelude
  import opened Ordering
  import opened Recon
  import opened Strings
  import opened Runtime
  import opened Vulnerabilities
  import opened AssetIntelligence

  method GroupObservations(lex: Lexicon, associations: set<Association>) returns (o: Observations)
    ensures Grouped(lex, ObservedTechnologies(associations), o)
  {
    hide KeyOf;
    o := map[];
    var pending := associations;
    while pending != {}
      invariant pending <= associations
      invariant Grouped(lex, ObservedTechnologies(associations - pending), o)
      decreases pending
    {
      var a :| a in pending;
      var t := a.technology;
      ghost var seen := ObservedTechnologies(associations - pending);
      pending := pending - {a};
      assert ObservedTechnologies(associations - pending) == seen + {t};
      var key := KeyOf(lex, t);
      if key.Some? {
        if key.value in o {
          o := o[key.value := o[key.value] + {t}];
        } else {
          o := o[key.value := {t}];
        }
      }
    }
    assert associations - pending == associations;
  }

  /** `min(observations, key=...)`, a least observation of a group. */
  method Representative(rank: Technology -> nat, group: set<Technology>) returns (least: Technology)
    requires group != {}
    ensures least in group && forall t | t in group :: rank(least) <= rank(t)
  {
    least :| least in group;
    var pending := group;
    while pending != {}
      invariant pending <= group && least in group
      invariant forall t | t in group - pending :: rank(least) <= rank(t)
      decreases pending
    {
      var t :| t in pending;
      pending := pending - {t};
      if rank(t) < rank(least) {
        least := t;
      }
    }
  }

  /** The vulnerability of one record, related to every observation of the lookup. */
  function Relate(lex: Lexicon, group: set<Technology>, t: Technology, cpeName: string,
                  v: Vulnerability): set<VulnerabilityAssociation> {
    set x | x in group ::
      VulnerabilityAssociation(x, v.identifier, ProductIdentifier("cpe23", cpeName), ConfidenceOf(lex, t))
  }

  /** What the records read so far of one lookup add. */
  ghost predicate Records(lex: Lexicon, group: set<Technology>, t: Technology, cpeName: string,
                          records: seq<NvdRecord>, before: Intelligence, after: Intelligence) {
    && (forall a :: a in after.associations <==>
          a in before.associations ||
          exists r | r in records ::
            ToVulnerability(r).Some? && a in Relate(lex, group, t, cpeName, ToVulnerability(r).value))
    && (forall id | id in before.vulnerabilities ::
        id in after.vulnerabilities && after.vulnerabilities[id] == before.vulnerabilities[id])
    && (forall id | id in after.vulnerabilities && id !in before.vulnerabilities ::
          after.vulnerabilities[id].identifier == id && ReportedFirst(records, after.vulnerabilities[id]))
    && (forall r | r in records && ToVulnerability(r).Some? ::
        ToVulnerability(r).value.identifier in after.vulnerabilities)
  }

  method AddRecords(lex: Lexicon, group: set<Technology>, t: Technology, cpeName: string, records: seq<NvdRecord>,
                    before: Intelligence) returns (after: Intelligence)
    ensures Records(lex, group, t, cpeName, records, before, after)
  {
    after := before;
    hide ToVulnerability, Relate;
    for n := 0 to |records|
      invariant Records(lex, group, t, cpeName, records[..n], before, after)
    {
      var vulnerability := ToVulnerability(records[n]);
      assert records[..n + 1] == records[..n] + [records[n]];
      ghost var was := after;
      if vulnerability.Some? {
        var v := vulnerability.value;
        var vulnerabilities := if v.identifier in after.vulnerabilities then after.vulnerabilities
          else after.vulnerabilities[v.identifier := v];
        after := Intelligence(vulnerabilities, after.associations + Relate(lex, group, t, cpeName, v));
      }
      RecordsNext(lex, group, t, cpeName, records[..n], records[n], before, was, after);
    }
    assert records[..|records|] == records;
  }

  lemma RecordsNext(lex: Lexicon, group: set<Technology>, t: Technology, cpeName: string, records: seq<NvdRecord>,
                    r: NvdRecord, before: Intelligence, was: Intelligence, after: Intelligence)
    requires Records(lex, group, t, cpeName, records, before, was)
    requires after == match ToVulnerability(r)
                      case None => was
                      case Some(v) => Intelligence(
                        if v.identifier in was.vulnerabilities then was.vulnerabilities
                           else was.vulnerabilities[v.identifier := v],
                        was.associations + Relate(lex, group, t, cpeName, v))
    ensures Records(lex, group, t, cpeName, records + [r], before, after)
  {
    hide ToVulnerability, Relate, ReportedFirst;
    assert r in records + [r] && forall x | x in records :: x in records + [r];
    forall a
      ensures a in after.associations <==>
              a in before.associations ||
              exists x | x in records + [r] ::
                ToVulnerability(x).Some? && a in Relate(lex, group, t, cpeName, ToVulnerability(x).value)
    {
      if a in after.associations && a !in was.associations {
        assert ToVulnerability(r).Some? && a in Relate(lex, group, t, cpeName, ToVulnerability(r).value);
      }
    }
    forall id | id in after.vulnerabilities && id !in before.vulnerabilities
      ensures ReportedFirst(records + [r], after.vulnerabilities[id])
    {
      if id in was.vulnerabilities {
        FirstStays(records, r, after.vulnerabilities[id]);
      } else {
        FirstNow(records, r, after.vulnerabilities[id]);
      }
    }
  }

  lemma FirstStays(records: seq<NvdRecord>, r: NvdRecord, v: Vulnerability)
    requires ReportedFirst(records, v)
    ensures ReportedFirst(records + [r], v)
  {
    hide ToVulnerability, Identifies;
    var n :| 0 <= n < |records| && ToVulnerability(records[n]) == Some(v) &&
      forall m | 0 <= m < n :: !Identifies(records[m], v.identifier);
    assert (records + [r])[n] == records[n] && forall m | 0 <= m < n :: (records + [r])[m] == records[m];
  }

  lemma FirstNow(records: seq<NvdRecord>, r: NvdRecord, v: Vulnerability)
    requires ToVulnerability(r) == Some(v)
    requires forall x | x in records && ToVulnerability(x).Some? :: ToVulnerability(x).value.identifier != v.identifier
    ensures ReportedFirst(records + [r], v)
  {
    hide ToVulnerability;
    assert (records + [r])[|records|] == r;
    forall m | 0 <= m < |records| ensures !Identifies((records + [r])[m], v.identifier) {
      assert (records + [r])[m] == records[m] && records[m] in records;
    }
  }

  lemma AssociationsNext(lex: Lexicon, provider: Provider, o: Observations, representatives: map<Key, Technology>,
                         keys: set<Key>, k: Key, before: Intelligence, after: Intelligence, a: VulnerabilityAssociation)
    requires Asked(lex, representatives) && keys <= representatives.Keys && k in representatives && k in o
    requires a in before.associations <==> Justified(lex, provider, o, representatives, keys, a)
    requires LookUp(lex, provider, representatives[k]).Found?
    requires var l := LookUp(lex, provider, representatives[k]);
             Records(lex, o[k], representatives[k], l.cpeName, l.records, before, after)
    ensures a in after.associations <==> Justified(lex, provider, o, representatives, keys + {k}, a)
  {
    hide ToVulnerability, LookUp, ConfidenceOf, KeyOf;
    var l, t := LookUp(lex, provider, representatives[k]), representatives[k];
    forall r ensures Supported(lex, provider, o, k, t, r, a) <==>
      r in l.records && ToVulnerability(r).Some? && a in Relate(lex, o[k], t, l.cpeName, ToVulnerability(r).value)
    {
    }
    hide Supported, Relate;
    if a in after.associations {
      if a in before.associations {
        var j, r :| j in keys && Supported(lex, provider, o, j, representatives[j], r, a);
        assert j in keys + {k};
      } else {
        var r :| r in l.records && ToVulnerability(r).Some? &&
          a in Relate(lex, o[k], t, l.cpeName, ToVulnerability(r).value);
        assert Supported(lex, provider, o, k, t, r, a);
      }
    }
    if Justified(lex, provider, o, representatives, keys + {k}, a) {
      var j, r :| j in keys + {k} && Supported(lex, provider, o, j, representatives[j], r, a);
      if j != k {
        assert j in keys;
      }
    }
  }

  lemma GatheredNext(lex: Lexicon, provider: Provider, o: Observations, representatives: map<Key, Technology>,
                     keys: set<Key>, k: Key, before: Intelligence, after: Intelligence)
    requires Asked(lex, representatives) && keys <= representatives.Keys && k in representatives && k in o
    requires Gathered(lex, provider, o, representatives, keys, before)
    requires LookUp(lex, provider, representatives[k]).Found?
    requires var l := LookUp(lex, provider, representatives[k]);
             Records(lex, o[k], representatives[k], l.cpeName, l.records, before, after)
    ensures Gathered(lex, provider, o, representatives, keys + {k}, after)
  {
    hide LookUp, KeyOf, ToVulnerability, ConfidenceOf, Relate;
    forall a ensures a in after.associations <==> Justified(lex, provider, o, representatives, keys + {k}, a) {
      hide Records, Justified;
      AssociationsNext(lex, provider, o, representatives, keys, k, before, after, a);
    }
    hide Justified;
    forall v | FoundBy(lex, provider, representatives, keys + {k}, v) ensures v.identifier in after.vulnerabilities {
      var j, r :| j in keys + {k} && LookUp(lex, provider, representatives[j]).Found? &&
                  r in LookUp(lex, provider, representatives[j]).records && ToVulnerability(r) == Some(v);
      if j != k {
        assert j in keys;
        assert FoundBy(lex, provider, representatives, keys, v);
      }
    }
    forall id | id in after.vulnerabilities
      ensures after.vulnerabilities[id].identifier == id &&
              FoundBy(lex, provider, representatives, keys + {k}, after.vulnerabilities[id])
    {
      var v := after.vulnerabilities[id];
      if id in before.vulnerabilities {
        assert FoundBy(lex, provider, representatives, keys, v);
        var j, r :| j in keys && LookUp(lex, provider, representatives[j]).Found? &&
                    r in LookUp(lex, provider, representatives[j]).records && ToVulnerability(r) == Some(v);
        assert j in keys + {k};
      } else {
        assert k in keys + {k};
      }
    }
  }

  lemma GatheredNothing(lex: Lexicon, provider: Provider, o: Observations, representatives: map<Key, Technology>,
                        keys: set<Key>, k: Key, i: Intelligence)
    requires Asked(lex, representatives) && keys <= representatives.Keys && k in representatives
    requires Gathered(lex, provider, o, representatives, keys, i)
    requires !LookUp(lex, provider, representatives[k]).Found?
    ensures Gathered(lex, provider, o, representatives, keys + {k}, i)
  {
    hide LookUp, KeyOf, ToVulnerability, ConfidenceOf;
    forall a ensures Justified(lex, provider, o, representatives, keys + {k}, a) <==>
      Justified(lex, provider, o, representatives, keys, a)
    {
      if Justified(lex, provider, o, representatives, keys, a) {
        var j, r :| j in keys && Supported(lex, provider, o, j, representatives[j], r, a);
        assert j in keys + {k};
      }
    }
    hide Justified;
    forall v ensures FoundBy(lex, provider, representatives, keys + {k}, v) <==>
      FoundBy(lex, provider, representatives, keys, v)
    {
      if FoundBy(lex, provider, representatives, keys, v) {
        var j, r :| j in keys && LookUp(lex, provider, representatives[j]).Found? &&
                    r in LookUp(lex, provider, representatives[j]).records && ToVulnerability(r) == Some(v);
        assert j in keys + {k};
      }
    }
  }

  /** Lookups are made for representatives that were chosen before; only the lookups that succeed matter. */
  method Choose(lex: Lexicon, rank: Technology -> nat, ghost technologies: set<Technology>, o: Observations)
    returns (representatives: map<Key, Technology>)
    requires Grouped(lex, technologies, o)
    ensures Chosen(rank, o, representatives) && Asked(lex, representatives) && representatives.Keys == o.Keys
  {
    hide KeyOf;
    representatives := map[];
    var pending := o.Keys;
    while pending != {}
      invariant pending <= o.Keys && representatives.Keys == o.Keys - pending
      invariant forall k | k in representatives ::
                representatives[k] in o[k] && forall t | t in o[k] :: rank(representatives[k]) <= rank(t)
      decreases pending
    {
      var k :| k in pending;
      pending := pending - {k};
      var t := Representative(rank, o[k]);
      representatives := representatives[k := t];
    }
  }

  lemma FirstReportsNext(lex: Lexicon, provider: Provider, o: Observations, representatives: map<Key, Technology>,
                         keys: set<Key>, k: Key, before: Intelligence, after: Intelligence)
    requires Asked(lex, representatives) && keys <= representatives.Keys && k in representatives && k in o
    requires Gathered(lex, provider, o, representatives, keys, before) &&
             FirstReports(lex, provider, representatives, keys, before)
    requires LookUp(lex, provider, representatives[k]).Found? && forall j | j in keys :: KeyLeq(j, k)
    requires var l := LookUp(lex, provider, representatives[k]);
             Records(lex, o[k], representatives[k], l.cpeName, l.records, before, after)
    ensures FirstReports(lex, provider, representatives, keys + {k}, after)
  {
    hide LookUp, KeyOf, ToVulnerability, Relate, Justified, KeyLeq, ReportedFirst;
    forall id | id in after.vulnerabilities
      ensures after.vulnerabilities[id].identifier == id &&
              exists j :: FirstReport(lex, provider, representatives, keys + {k}, j, after.vulnerabilities[id])
    {
      var v := after.vulnerabilities[id];
      if id in before.vulnerabilities {
        var j :| FirstReport(lex, provider, representatives, keys, j, v);
        assert FirstReport(lex, provider, representatives, keys + {k}, j, v);
      } else {
        KeysOrdered();
        assert FirstReport(lex, provider, representatives, keys + {k}, k, v);
      }
    }
  }

  lemma FirstReportsStay(lex: Lexicon, provider: Provider, representatives: map<Key, Technology>, keys: set<Key>,
                         k: Key, i: Intelligence)
    requires Asked(lex, representatives) && keys <= representatives.Keys && k in representatives
    requires FirstReports(lex, provider, representatives, keys, i) && !LookUp(lex, provider, representatives[k]).Found?
    ensures FirstReports(lex, provider, representatives, keys + {k}, i)
  {
    hide LookUp, KeyOf, ToVulnerability, KeyLeq, ReportedFirst;
    forall id | id in i.vulnerabilities
      ensures exists j :: FirstReport(lex, provider, representatives, keys + {k}, j, i.vulnerabilities[id])
    {
      var j :| FirstReport(lex, provider, representatives, keys, j, i.vulnerabilities[id]);
      assert FirstReport(lex, provider, representatives, keys + {k}, j, i.vulnerabilities[id]);
    }
  }

  /** The reported tuples: vulnerabilities by identifier and associations by sort key, each once. */
  datatype Report = Report(vulnerabilities: seq<Vulnerability>, associations: seq<VulnerabilityAssociation>)

  ghost predicate Publishes(rank: VulnerabilityAssociation -> nat, i: Intelligence, r: Report) {
    && Distinct(r.vulnerabilities) && Elements(r.vulnerabilities) == i.vulnerabilities.Values
    && (forall n, m | 0 <= n < m < |r.vulnerabilities| ::
        TextLeq(r.vulnerabilities[n].identifier, r.vulnerabilities[m].identifier))
    && Distinct(r.associations) && Elements(r.associations) == i.associations
    && (forall n, m | 0 <= n < m < |r.associations| :: rank(r.associations[n]) <= rank(r.associations[m]))
  }

  method Publish(rank: VulnerabilityAssociation -> nat, i: Intelligence) returns (r: Report)
    ensures Publishes(rank, i, r)
  {
    hide TextLeq;
    TextsOrdered();
    var vulnerabilities :=
      SortBy((v: Vulnerability, w: Vulnerability) => TextLeq(v.identifier, w.identifier), i.vulnerabilities.Values);
    var associations :=
      SortBy((a: VulnerabilityAssociation, b: VulnerabilityAssociation) => rank(a) <= rank(b), i.associations);
    r := Report(vulnerabilities, associations);
  }

  /** `execute`: one lookup a group, in the order of their keys.  An invalid or unexpectedly failing lookup ends the
      run with an error and nothing known; otherwise exactly the supported associations are reported, and each
      vulnerability as the first record of its identifier gives it. */
  method Execute(lex: Lexicon, provider: Provider, rank: Technology -> nat, order: VulnerabilityAssociation -> nat,
                 associations: set<Association>)
    returns (status: Status, r: Report, i: Intelligence, ghost o: Observations,
             ghost representatives: map<Key, Technology>)
    ensures Grouped(lex, ObservedTechnologies(associations), o) && Chosen(rank, o, representatives) &&
            Asked(lex, representatives)
    ensures status == ERROR <==> exists k :: k in representatives && LookUp(lex, provider, representatives[k]) == Broke
    ensures status == ERROR ==> i == Intelligence(map[], {})
    ensures status != ERROR ==>
            Gathered(lex, provider, o, representatives, o.Keys, i) &&
            FirstReports(lex, provider, representatives, o.Keys, i)
    ensures Publishes(order, i, r)
    ensures status != ERROR ==> status == LookupStatus(|o|, |FailedKeys(lex, provider, representatives, o.Keys)|)
  {
    hide KeyOf, LookUp, Records, Gathered, ToVulnerability, Grouped, Chosen, FailedKeys, ObservedTechnologies,
      FirstReports, KeyLeq, Publishes;
    var groups := GroupObservations(lex, associations);
    var chosen := Choose(lex, rank, ObservedTechnologies(associations), groups);
    o, representatives := groups, chosen;
    var known := Intelligence(map[], {});
    NothingGathered(lex, provider, o, representatives);
    KeysOrdered();
    var keys := SortBy(KeyLeq, groups.Keys);
    var failures := 0;
    assert Elements(keys[..0]) == {};
    for n := 0 to |keys|
      invariant forall k | k in keys[..n] :: LookUp(lex, provider, representatives[k]) != Broke
      invariant Gathered(lex, provider, o, representatives, Elements(keys[..n]), known)
      invariant FirstReports(lex, provider, representatives, Elements(keys[..n]), known)
      invariant failures == |FailedKeys(lex, provider, representatives, Elements(keys[..n]))|
    {
      var k := keys[n];
      ghost var done := Elements(keys[..n]);
      assert keys[..n + 1] == keys[..n] + [k];
      assert Elements(keys[..n + 1]) == done + {k} && k !in done;
      var lookup := LookUp(lex, provider, chosen[k]);
      FailuresNext(lex, provider, representatives, done, k);
      if lookup == Broke {
        r := Publish(order, Intelligence(map[], {}));
        return ERROR, r, Intelligence(map[], {}), o, representatives;
      }
      if lookup.Found? {
        var next := AddRecords(lex, groups[k], chosen[k], lookup.cpeName, lookup.records, known);
        GatheredNext(lex, provider, o, representatives, done, k, known, next);
        FirstReportsNext(lex, provider, o, representatives, done, k, known, next);
        known := next;
      } else {
        GatheredNothing(lex, provider, o, representatives, done, k, known);
        FirstReportsStay(lex, provider, representatives, done, k, known);
      }
      if lookup == Failed {
        failures := failures + 1;
      }
    }
    assert keys[..|keys|] == keys && Elements(keys) == o.Keys;
    status := LookupStatus(|groups|, failures);
    i := known;
    r := Publish(order, known);
  }

  lemma NothingGathered(lex: Lexicon, provider: Provider, o: Observations, representatives: map<Key, Technology>)
    requires Asked(lex, representatives) && o.Keys == representatives.Keys
    ensures Gathered(lex, provider, o, representatives, {}, Intelligence(map[], {}))
    ensures FirstReports(lex, provider, representatives, {}, Intelligence(map[], {}))
    ensures |FailedKeys(lex, provider, representatives, {})| == 0
  {
    assert FailedKeys(lex, provider, representatives, {}) == {};
  }

  lemma FailuresNext(lex: Lexicon, provider: Provider, representatives: map<Key, Technology>, keys: set<Key>, k: Key)
    requires Asked(lex, representatives) && keys <= representatives.Keys && k in representatives && k !in keys
    ensures |FailedKeys(lex, provider, representatives, keys + {k})| ==
            |FailedKeys(lex, provider, representatives, keys)| + if LookUp(lex, provider, representatives[k]) ==
              Failed then 1 else 0
  {
    hide LookUp, KeyOf;
    var before := FailedKeys(lex, provider, representatives, keys);
    if LookUp(lex, provider, representatives[k]) == Failed {
      assert FailedKeys(lex, provider, representatives, keys + {k}) == before + {k};
    } else {
      assert FailedKeys(lex, provider, representatives, keys + {k}) == before;
    }
  }

  /** No association without a matching product: the candidate it names has the technology's product and
      version, the vendor too when the technology names one, and only then is the confidence high. */
  lemma AssociationsMatch(lex: Lexicon, provider: Provider, technologies: set<Technology>, o: Observations,
                          representatives: map<Key, Technology>, i: Intelligence, a: VulnerabilityAssociation)
    requires Grouped(lex, technologies, o) && Asked(lex, representatives) && o.Keys == representatives.Keys
    requires Gathered(lex, provider, o, representatives, o.Keys, i) && a in i.associations
    ensures a.technology in technologies && KeyOf(lex, a.technology).Some?
    ensures a.vulnerabilityId in i.vulnerabilities && Strip(a.vulnerabilityId) == a.vulnerabilityId != []
    ensures a.product.scheme == "cpe23" && StartsWith(a.product.value, "cpe:2.3:")
    ensures a.confidence == High <==> lex.Vendor(a.technology.vendor).Some?
    ensures exists c: CpeCandidate :: c.cpeName == a.product.value && Qualifies(lex, a.technology, c)
  {
    hide LookUp, ToVulnerability, Qualifies;
    assert Justified(lex, provider, o, representatives, o.Keys, a);
    var k, r :| k in o.Keys && Supported(lex, provider, o, k, representatives[k], r, a);
    var t := representatives[k];
    assert FoundBy(lex, provider, representatives, o.Keys, ToVulnerability(r).value);
    IdentifierIsStripped(r);
    FoundQualifies(lex, provider, t);
    var c: CpeCandidate :| c.cpeName == a.product.value && Qualifies(lex, t, c);
    SameKeyQualifies(lex, t, a.technology, c);
  }

  lemma IdentifierIsStripped(r: NvdRecord)
    requires ToVulnerability(r).Some?
    ensures Strip(ToVulnerability(r).value.identifier) == ToVulnerability(r).value.identifier != []
  {
    StripTwice(r.identifier);
  }

  lemma FoundQualifies(lex: Lexicon, provider: Provider, t: Technology)
    requires KeyOf(lex, t).Some? && LookUp(lex, provider, t).Found?
    ensures exists c: CpeCandidate :: c.cpeName == LookUp(lex, provider, t).cpeName && Qualifies(lex, t, c)
  {
    hide Qualifies;
    var vendor := if lex.Vendor(t.vendor).Some? then t.vendor else None;
    var candidates := provider.search(t.name, lex.Version(t.version).value, vendor).value;
    var name := LookUp(lex, provider, t).cpeName;
    assert name in QualifyingNames(lex, t, candidates);
    var c :| c in candidates && Qualifies(lex, t, c) && c.cpeName == name;
  }

  lemma SameKeyQualifies(lex: Lexicon, t: Technology, u: Technology, c: CpeCandidate)
    requires KeyOf(lex, t).Some? && KeyOf(lex, u) == KeyOf(lex, t) && Qualifies(lex, t, c)
    ensures Qualifies(lex, u, c) && StartsWith(c.cpeName, "cpe:2.3:") && ConfidenceOf(lex, u) == ConfidenceOf(lex, t)
  {
  }
}
