/** What the fold over detection output keeps and counts, in terms of the raw lines
    (adapters/nuclei/provider.py:165-317). */
module Detections {
  import opened Prelude
  import opened Ordering
  import opened Findings
  import opened Nuclei

  /** A detection at an approved endpoint. */
  predicate Approved(c: Conventions, raw: Raw) {
    raw.Detection? && raw.target in c.endpoints
  }

  /** The finding a detection is written down as. */
  ghost predicate WrittenAs(c: Conventions, d: Raw, r: Record) {
    && Approved(c, d)
    && r.identity.classification == c.slug(d.title) && r.identity.asset == c.assetOf(c.endpoints[d.target])
    && r.identity.endpoint == Some(c.endpoints[d.target]) && r.identity.technology == None
    && r.title == c.normalize(d.title) && r.rawTitle == d.title && r.severity == d.severity &&
       r.recordId == d.templateId
    && r.references == {} && r.tags == {} && r.source == TOOL
    && r.evidence == [Evidence(1, 1, 3, 2, TOOL)]
  }

  lemma WrittenExactly(c: Conventions, raw: Raw)
    ensures Classify(c, raw) == BlankLine <==> raw.Space?
    ensures Classify(c, raw) == Garbage <==> raw.Unusable?
    ensures Classify(c, raw) == Foreign <==> raw.Detection? && !Approved(c, raw)
    ensures forall r :: Classify(c, raw) == Hit(r) <==> WrittenAs(c, raw, r)
  {
  }

  /** The finding of a given detection. */
  lemma WrittenOnce(c: Conventions, d: Raw) returns (r: Record)
    requires Approved(c, d)
    ensures WrittenAs(c, d, r) && Classify(c, d) == Hit(r)
  {
    WrittenExactly(c, d);
    r := Classify(c, d).record;
  }

  /** The positions of the lines of a kind. */
  ghost function Positions(lines: seq<Line>, kind: Line -> bool): set<nat> {
    set i: nat | i < |lines| && kind(lines[i])
  }

  lemma LastPosition(lines: seq<Line>, kind: Line -> bool)
    requires lines != []
    ensures var n := |lines| - 1;
            |Positions(lines, kind)| == |Positions(lines[..n], kind)| + if kind(lines[n]) then 1 else 0
  {
    var n := |lines| - 1;
    var front := Positions(lines[..n], kind);
    assert n !in front;
    assert Positions(lines, kind) == if kind(lines[n]) then front + {n} else front;
  }

  lemma {:induction false} CountIsSize(lines: seq<Line>, kind: Line -> bool)
    ensures Count(lines, kind) == |Positions(lines, kind)|
  {
    if lines == [] {
      assert Positions(lines, kind) == {};
    } else {
      hide Positions;
      CountIsSize(lines[..|lines| - 1], kind);
      LastPosition(lines, kind);
    }
  }

  /** What is counted: as unassociated the detections at endpoints that are not approved; as malformed every line that
      is no usable record, and otherwise only duplicates; and each detection at an approved endpoint is kept or a
      duplicate. */
  lemma CountedExactly(c: Conventions, output: seq<Raw>)
    ensures var f := ReadAll(KeyOf(c), Lines(c, output));
            var unusable := |set i | 0 <= i < |output| && output[i].Unusable?|;
            && f.unassociated == |set i | 0 <= i < |output| && output[i].Detection? && !Approved(c, output[i])|
            && f.duplicates + |f.kept| == |set i | 0 <= i < |output| && Approved(c, output[i])|
            && unusable <= f.malformed <= unusable + f.duplicates
  {
    hide ReadAll, KeyOf, Count, Classify, Lines;
    LinesAccounted(KeyOf(c), Lines(c, output));
    UnusableCounted(c, output);
    ForeignCounted(c, output);
    ApprovedCounted(c, output);
  }

  lemma UnusableCounted(c: Conventions, output: seq<Raw>)
    ensures Count(Lines(c, output), (x: Line) => x.Garbage?) == |set i | 0 <= i < |output| && output[i].Unusable?|
  {
    hide Count, Classify, Lines;
    forall raw | raw in output ensures Classify(c, raw).Garbage? <==> raw.Unusable? {
      KindOf(c, raw);
    }
    CountRaw(c, output, (x: Line) => x.Garbage?, (raw: Raw) => raw.Unusable?);
    assert (set i | 0 <= i < |output| && ((raw: Raw) => raw.Unusable?)(output[i])) ==
           set i | 0 <= i < |output| && output[i].Unusable?;
  }

  lemma ForeignCounted(c: Conventions, output: seq<Raw>)
    ensures Count(Lines(c, output), (x: Line) => x.Foreign?) ==
            |set i | 0 <= i < |output| && output[i].Detection? && !Approved(c, output[i])|
  {
    hide Count, Classify, Lines, Approved;
    forall raw | raw in output ensures Classify(c, raw).Foreign? <==> raw.Detection? && !Approved(c, raw) {
      KindOf(c, raw);
    }
    CountRaw(c, output, (x: Line) => x.Foreign?, (raw: Raw) => raw.Detection? && !Approved(c, raw));
    assert (set i | 0 <= i < |output| && ((raw: Raw) => raw.Detection? && !Approved(c, raw))(output[i])) ==
           set i | 0 <= i < |output| && output[i].Detection? && !Approved(c, output[i]);
  }

  lemma ApprovedCounted(c: Conventions, output: seq<Raw>)
    ensures Count(Lines(c, output), (x: Line) => x.Hit?) == |set i | 0 <= i < |output| && Approved(c, output[i])|
  {
    hide Count, Classify, Lines, Approved;
    forall raw | raw in output ensures Classify(c, raw).Hit? <==> Approved(c, raw) {
      KindOf(c, raw);
    }
    CountRaw(c, output, (x: Line) => x.Hit?, (raw: Raw) => Approved(c, raw));
    assert (set i | 0 <= i < |output| && ((raw: Raw) => Approved(c, raw))(output[i])) ==
           set i | 0 <= i < |output| && Approved(c, output[i]);
  }

  lemma KindOf(c: Conventions, raw: Raw)
    ensures Classify(c, raw).Garbage? <==> raw.Unusable?
    ensures Classify(c, raw).Foreign? <==> raw.Detection? && !Approved(c, raw)
    ensures Classify(c, raw).Hit? <==> Approved(c, raw)
  {
    WrittenExactly(c, raw);
    if Approved(c, raw) {
      var r := WrittenOnce(c, raw);
    }
  }

  lemma CountRaw(c: Conventions, output: seq<Raw>, kind: Line -> bool, raw: Raw -> bool)
    requires forall x | x in output :: kind(Classify(c, x)) == raw(x)
    ensures Count(Lines(c, output), kind) == |set i | 0 <= i < |output| && raw(output[i])|
  {
    hide Classify, Count;
    var lines := Lines(c, output);
    CountIsSize(lines, kind);
    assert Positions(lines, kind) == set i | 0 <= i < |output| && raw(output[i]);
  }

  /** Findings of one fingerprint compare by folded title, title, severity and record identity, in this order. */
  predicate NotAbove(c: Conventions, a: Record, b: Record) {
    || c.fold(a.rawTitle) < c.fold(b.rawTitle)
    || (c.fold(a.rawTitle) == c.fold(b.rawTitle) &&
        (|| a.rawTitle < b.rawTitle
         || (a.rawTitle == b.rawTitle &&
             (a.severity < b.severity || (a.severity == b.severity && a.recordId <= b.recordId)))))
  }

  lemma KeysCompare(c: Conventions, a: Record, b: Record)
    requires a.identity == b.identity
    ensures AtMost(KeyOf(c), a, b) <==> NotAbove(c, a, b)
  {
    var s, t := ValueKey(c, a), ValueKey(c, b);
    SevenCompare(s, t);
  }

  lemma SevenCompare(s: seq<nat>, t: seq<nat>)
    requires |s| == |t| == 7 && s[0] == t[0] && s[4] == t[4] && s[6] == t[6]
    ensures LexLeq(s, t) <==>
            s[1] < t[1] ||
              (s[1] == t[1] && (s[2] < t[2] || (s[2] == t[2] && (s[3] < t[3] || (s[3] == t[3] && s[5] <= t[5])))))
  {
    hide LexLeq;
    assert s[0..] == s && t[0..] == t && s[7..] == [] && t[7..] == [];
    LexAt(s, t, 0);
    LexAt(s, t, 1);
    LexAt(s, t, 2);
    LexAt(s, t, 3);
    LexAt(s, t, 4);
    LexAt(s, t, 5);
    LexAt(s, t, 6);
  }

  lemma LexAt(s: seq<nat>, t: seq<nat>, n: nat)
    requires n < |s| && n < |t|
    ensures LexLeq(s[n..], t[n..]) <==> s[n] < t[n] || (s[n] == t[n] && LexLeq(s[n + 1..], t[n + 1..]))
    ensures LexLeq([], [])
  {
    assert s[n..][1..] == s[n + 1..] && t[n..][1..] == t[n + 1..];
  }

  /** What is kept: for every fingerprint of an approved detection exactly one finding, which is written for one of the
      detections and is above none of them. */
  lemma KeptExactly(c: Conventions, output: seq<Raw>)
    ensures var kept := ReadAll(KeyOf(c), Lines(c, output)).kept;
            && (forall d, r | d in output && WrittenAs(c, d, r) ::
                r.identity in kept && NotAbove(c, kept[r.identity], r))
            && (forall i | i in kept :: kept[i].identity == i && exists d | d in output :: WrittenAs(c, d, kept[i]))
  {
    hide ReadAll, KeyOf, Classify, AtMost, NotAbove, WrittenAs;
    var lines := Lines(c, output);
    ReadKeepsLeast(KeyOf(c), lines);
    var kept := ReadAll(KeyOf(c), lines).kept;
    forall d, r | d in output && WrittenAs(c, d, r) ensures r.identity in kept && NotAbove(c, kept[r.identity], r) {
      var i :| 0 <= i < |output| && output[i] == d;
      WrittenExactly(c, d);
      assert lines[i] == Hit(r);
      KeysCompare(c, kept[r.identity], r);
    }
    forall i | i in kept ensures exists d | d in output :: WrittenAs(c, d, kept[i]) {
      var n :| 0 <= n < |lines| && lines[n] == Hit(kept[i]);
      WrittenExactly(c, output[n]);
      assert output[n] in output;
    }
  }

  /** The lines that are not white space, each as often as it occurs and in their order. */
  lemma {:induction false} NonBlankParts(a: seq<Raw>, b: seq<Raw>)
    ensures NonBlank(a + b) == NonBlank(a) + NonBlank(b)
  {
    if b == [] {
      assert a + b == a;
    } else {
      var n := |b| - 1;
      NonBlankParts(a, b[..n]);
      assert (a + b)[..|a + b| - 1] == a + b[..n] && (a + b)[|a + b| - 1] == b[n];
    }
  }

  lemma NonBlankOne(raw: Raw)
    ensures NonBlank([raw]) == if raw.Space? then [] else [raw]
    ensures NonBlank([]) == []
  {
    assert [raw][..0] == [];
  }
}
