/** The numbers of an assessment, said of the score, the severity and the two confidences
    (capabilities/risk_intelligence.py:254-345, domain/risk_intelligence.py:34-146). */
module Scoring {
  import opened Prelude
  import opened Recon
  import opened Vulnerabilities
  import opened KnowledgeGraphs
  import opened Risk

  /** A CVSS base score that counts. */
  predicate Scored(v: Vulnerability) {
    v.cvss.Some? && v.cvss.value >= 0.0 && v.cvss.value <= 10.0
  }

  /** A detection confidence that counts. */
  predicate Measured(t: Technology) {
    t.confidence.Some? && t.confidence.value >= 0 && t.confidence.value <= 100
  }

  /** The priority of a scored vulnerability is seven times the score, rounded to the nearest whole number and halves
      upwards; that of any other follows the severity. */
  lemma PriorityExactly(path: Path, t: Technology, v: Vulnerability, e: Edge)
    ensures Assess(path, t, v, e).Some?
    ensures var p := Assess(path, t, v, e).value.priority;
            && (Scored(v) ==> -1.0 < 2.0 * p as real - 14.0 * v.cvss.value <= 1.0)
            && (!Scored(v) ==> p == match v.severity
                               case UNKNOWN => 0
                               case LOW => 15
                               case MEDIUM => 35
                               case HIGH => 55
                               case CRITICAL => 70)
  {
    AssessAlwaysSucceeds(path, t, v, e);
    hide Factors, FirstOf, ConfidenceScore, Assess;
    if Scored(v) {
      var exact := v.cvss.value * 7.0 + 0.5;
      assert exact.Floor as real <= exact < exact.Floor as real + 1.0;
    }
  }

  /** What the identity match contributes to the confidence. */
  function IdentityPart(match_: Option<MatchConfidence>): int {
    if match_ == Some(High) then 100 else if match_ == Some(Medium) then 60 else 0
  }

  /** How many parts the confidence has, and their sum. */
  function Parts(t: Technology, match_: Option<MatchConfidence>): nat {
    (if match_.Some? then 1 else 0) + if Measured(t) then 1 else 0
  }

  function PartsSum(t: Technology, match_: Option<MatchConfidence>): int {
    IdentityPart(match_) + if Measured(t) then t.confidence.value else 0
  }

  /** The confidence is the average of the parts that are known, rounded down, and nothing without any. */
  lemma ConfidenceExactly(path: Path, t: Technology, v: Vulnerability, e: Edge)
    ensures Assess(path, t, v, e).Some?
    ensures var n, m, c := Parts(t, e.confidence), PartsSum(t, e.confidence), Assess(path, t, v, e).value.confidence;
            n * c <= m && (if n == 0 then c == 0 else m < n * c + n)
  {
    AssessAlwaysSucceeds(path, t, v, e);
    hide Factors, FirstOf, CvssContribution;
    var components := ConfidenceComponents(t, e);
    if |components| == 2 {
      assert components[1..][1..] == [];
      assert Sum(components) == components[0] + Sum(components[1..]) == components[0] + components[1];
    } else if |components| == 1 {
      assert components[1..] == [];
      assert Sum(components) == components[0] + Sum(components[1..]);
    }
  }

  /** A quarter of completeness for the path itself and for each of priority, identity and detection that is known. */
  lemma CompletenessExactly(path: Path, t: Technology, v: Vulnerability, e: Edge)
    ensures Assess(path, t, v, e).Some?
    ensures var a := Assess(path, t, v, e).value;
            && (a.priorityKnown <==> Scored(v) || v.severity != UNKNOWN)
            && a.completeness == 25 + (if Scored(v) || v.severity != UNKNOWN then 25 else 0)
                                    + (if e.confidence.Some? then 25 else 0) + (if Measured(t) then 25 else 0)
  {
    AssessAlwaysSucceeds(path, t, v, e);
    hide Factors, FirstOf, CvssContribution, ConfidenceScore;
  }

  /** The level: unknown without score and severity, otherwise in steps of twenty points of priority. */
  lemma LevelExactly(path: Path, t: Technology, v: Vulnerability, e: Edge)
    ensures Assess(path, t, v, e).Some?
    ensures var a := Assess(path, t, v, e).value;
            a.level == if !Scored(v) && v.severity == UNKNOWN then UNKNOWN_RISK
                       else if a.priority <= 19 then LOW_RISK
                       else if a.priority <= 39 then MEDIUM_RISK
                       else if a.priority <= 59 then HIGH_RISK
                       else CRITICAL_RISK
  {
    AssessAlwaysSucceeds(path, t, v, e);
    hide Factors, FirstOf, CvssContribution, ConfidenceScore;
  }

  /** The factors that explain a priority: the severity counts only without a score and the score only with one, so
      together they contribute the priority; the others contribute nothing, and the last one is there exactly when
      something is not known. */
  lemma FactorsExactly(path: Path, t: Technology, v: Vulnerability, e: Edge)
    ensures Assess(path, t, v, e).Some?
    ensures var a := Assess(path, t, v, e).value;
            var missing := !Scored(v) || v.severity == UNKNOWN || e.confidence.None? || !Measured(t);
            a.factors == [Factor(VULNERABILITY_SEVERITY, if Scored(v) then 0 else a.priority),
                          Factor(CVSS_BASE, if Scored(v) then a.priority else 0),
                          Factor(IDENTITY_MATCH_CONFIDENCE, 0), Factor(TECHNOLOGY_DETECTION_CONFIDENCE, 0),
                          Factor(OBSERVED_ENDPOINT_PRESENCE, 0)] + if missing then [Factor(DATA_QUALITY, 0)] else []
  {
    AssessAlwaysSucceeds(path, t, v, e);
    hide FirstOf, ConfidenceScore, CvssContribution;
  }
}
