/** Scoring of one asset-technology-vulnerability path (domain/risk_intelligence.py,
    capabilities/risk_intelligence.py, `_assessment`). */
module Risk {
  import opened Prelude
  import opened Recon
  import opened Vulnerabilities
  import opened KnowledgeGraphs

  datatype RiskLevel = UNKNOWN_RISK | LOW_RISK | MEDIUM_RISK | HIGH_RISK | CRITICAL_RISK

  datatype FactorKind =
    | VULNERABILITY_SEVERITY | CVSS_BASE | IDENTITY_MATCH_CONFIDENCE
    | TECHNOLOGY_DETECTION_CONFIDENCE | OBSERVED_ENDPOINT_PRESENCE | DATA_QUALITY

  datatype Factor = Factor(kind: FactorKind, contribution: int)

  /** The three node identifiers; the assessment identity is an injective image of them. */
  datatype Path = Path(asset: string, technology: string, vulnerability: string)

  datatype RiskAssessment = RiskAssessment(
    path: Path, priority: int, confidence: int, completeness: int, priorityKnown: bool, level: RiskLevel,
      factors: seq<Factor>)

  /** `risk_level_for_score`; None stands for the exception raised outside 0..100. */
  function LevelFor(score: int, known: bool): Option<RiskLevel> {
    if !(0 <= score <= 100) then None
    else if !known then Some(UNKNOWN_RISK)
    else if score < 20 then Some(LOW_RISK)
    else if score < 40 then Some(MEDIUM_RISK)
    else if score < 60 then Some(HIGH_RISK)
    else Some(CRITICAL_RISK)
  }

  /** The construction of a `RiskAssessment`; None stands for the exception it raises. */
  function Assessed(path: Path, priority: int, confidence: int, completeness: int, known: bool,
                    factors: seq<Factor>): Option<RiskAssessment> {
    if !(0 <= priority <= 100) || !(0 <= confidence <= 100) || !(0 <= completeness <= 100) then None
    else
      var level := LevelFor(priority, known);
      if level.None? then None
      else Some(RiskAssessment(path, priority, confidence, completeness, known, level.value, factors))
  }

  predicate ValidCvss(score: Option<real>) {
    score.Some? && 0.0 <= score.value <= 10.0
  }

  predicate ValidPercentage(confidence: Option<int>) {
    confidence.Some? && 0 <= confidence.value <= 100
  }

  function SeverityContribution(s: Severity): int {
    match s
    case UNKNOWN => 0
    case LOW => 15
    case MEDIUM => 35
    case HIGH => 55
    case CRITICAL => 70
  }

  function IdentityConfidence(c: MatchConfidence): int {
    match c
    case Medium => 60
    case High => 100
  }

  /** `int(score * 7 + 0.5)` of a score that is not negative. */
  function CvssContribution(score: real): int {
    (score * 7.0 + 0.5).Floor
  }

  function SeverityFactor(v: Vulnerability, useFallback: bool): Factor {
    Factor(VULNERABILITY_SEVERITY, if useFallback then SeverityContribution(v.severity) else 0)
  }

  function CvssFactor(v: Vulnerability): Factor {
    Factor(CVSS_BASE, if ValidCvss(v.cvss) then CvssContribution(v.cvss.value) else 0)
  }

  /** The factors in the order `_assessment` appends them. */
  function Factors(t: Technology, v: Vulnerability, e: Edge): seq<Factor> {
    var missing := !ValidCvss(v.cvss) || v.severity.UNKNOWN? || e.confidence.None? || !ValidPercentage(t.confidence);
    [SeverityFactor(v, !ValidCvss(v.cvss)), CvssFactor(v), Factor(IDENTITY_MATCH_CONFIDENCE, 0),
     Factor(TECHNOLOGY_DETECTION_CONFIDENCE, 0), Factor(OBSERVED_ENDPOINT_PRESENCE, 0)]
    + if missing then [Factor(DATA_QUALITY, 0)] else []
  }

  /** The contribution of the first factor of a kind. */
  function FirstOf(factors: seq<Factor>, kind: FactorKind): (r: Option<int>)
    ensures r.None? <==> forall f | f in factors :: f.kind != kind
  {
    if factors == [] then None
    else if factors[0].kind == kind then Some(factors[0].contribution)
    else FirstOf(factors[1..], kind)
  }

  function ConfidenceComponents(t: Technology, e: Edge): seq<int> {
    (if e.confidence.Some? then [IdentityConfidence(e.confidence.value)] else []) +
    if ValidPercentage(t.confidence) then [t.confidence.value] else []
  }

  function Sum(s: seq<int>): int {
    if s == [] then 0 else s[0] + Sum(s[1..])
  }

  function ConfidenceScore(t: Technology, e: Edge): int {
    var components := ConfidenceComponents(t, e);
    if components == [] then 0 else Sum(components) / |components|
  }

  function Truth(b: bool): int {
    if b then 1 else 0
  }

  /** `_assessment`. */
  function Assess(path: Path, t: Technology, v: Vulnerability, e: Edge): Option<RiskAssessment> {
    var factors := Factors(t, v, e);
    var known := ValidCvss(v.cvss) || !v.severity.UNKNOWN?;
    var priority := FirstOf(factors, if ValidCvss(v.cvss) then CVSS_BASE else VULNERABILITY_SEVERITY);
    if priority.None? then None
    else Assessed(path, priority.value, ConfidenceScore(t, e),
                  25 * (Truth(known) + Truth(e.confidence.Some?) + Truth(ValidPercentage(t.confidence)) + 1), known,
                    factors)
  }

  /** The priority a vulnerability earns, stated without the factors: its CVSS score on a scale of 70, or the
      fallback of its severity when no valid score is known. */
  function Priority(v: Vulnerability): int {
    if ValidCvss(v.cvss) then CvssContribution(v.cvss.value) else SeverityContribution(v.severity)
  }

  lemma CvssBounds(score: real)
    requires 0.0 <= score <= 10.0
    ensures 0 <= CvssContribution(score) <= 70
  {
    assert 0.5 <= score * 7.0 + 0.5 <= 70.5;
  }

  /** Of two scores the higher one contributes no less, unless it is above 10 and so treated as absent while the
      lower one counts for something: that is the only exception. */
  lemma CvssMonotone(v: Vulnerability, w: Vulnerability)
    requires v.cvss.Some? && w.cvss.Some? && v.cvss.value <= w.cvss.value
    ensures CvssFactor(v).contribution <= CvssFactor(w).contribution <==>
            w.cvss.value <= 10.0 || !ValidCvss(v.cvss) || v.cvss.value * 14.0 < 1.0
  {
    var a, b := v.cvss.value * 7.0 + 0.5, w.cvss.value * 7.0 + 0.5;
    assert a <= b;
    assert a.Floor as real <= a < (a.Floor + 1) as real && b < (b.Floor + 1) as real;
  }

  lemma ConfidenceBounds(t: Technology, e: Edge)
    ensures 0 <= ConfidenceScore(t, e) <= 100
  {
    var components := ConfidenceComponents(t, e);
    if |components| == 2 {
      var rest := components[1..];
      assert rest[1..] == [];
      assert Sum(components) == components[0] + Sum(rest) == components[0] + components[1];
    } else if |components| == 1 {
      assert Sum(components) == components[0];
    }
  }

  lemma PriorityIsFactor(t: Technology, v: Vulnerability, e: Edge)
    ensures FirstOf(Factors(t, v, e), if ValidCvss(v.cvss) then CVSS_BASE else VULNERABILITY_SEVERITY) ==
            Some(Priority(v))
  {
    hide CvssContribution, SeverityContribution;
    var factors := Factors(t, v, e);
    assert factors[0] == SeverityFactor(v, !ValidCvss(v.cvss)) && factors[1] == CvssFactor(v);
    assert factors[1..][0] == factors[1];
  }

  /** Every path can be assessed: the scores are in range, so the assessment is never rejected.  The priority is
      the vulnerability's alone, confidence never lowers it, and the level is unknown exactly when neither a
      valid CVSS score nor a severity is. */
  lemma AssessAlwaysSucceeds(path: Path, t: Technology, v: Vulnerability, e: Edge)
    ensures Assess(path, t, v, e).Some?
    ensures var a := Assess(path, t, v, e).value;
            && a.path == path && a.priority == Priority(v) && 0 <= a.priority <= 70
            && 0 <= a.confidence <= 100 && a.completeness in {25, 50, 75, 100}
            && (a.completeness == 100 <==> a.priorityKnown && e.confidence.Some? && ValidPercentage(t.confidence))
            && (a.level == UNKNOWN_RISK <==> !ValidCvss(v.cvss) && v.severity == UNKNOWN)
  {
    hide FirstOf, Factors, ConfidenceScore, CvssContribution;
    PriorityIsFactor(t, v, e);
    ConfidenceBounds(t, e);
    if ValidCvss(v.cvss) {
      CvssBounds(v.cvss.value);
    }
  }

  function Severeness(level: RiskLevel): nat {
    match level
    case UNKNOWN_RISK => 0
    case LOW_RISK => 1
    case MEDIUM_RISK => 2
    case HIGH_RISK => 3
    case CRITICAL_RISK => 4
  }

  /** More CVSS never means less priority or a lower level, whatever else differs. */
  lemma AssessMonotone(p: Path, q: Path, t: Technology, u: Technology, v: Vulnerability, w: Vulnerability, e: Edge,
                       f: Edge)
    requires ValidCvss(v.cvss) && ValidCvss(w.cvss) && v.cvss.value <= w.cvss.value
    ensures Assess(p, t, v, e).Some? && Assess(q, u, w, f).Some?
    ensures Assess(p, t, v, e).value.priority <= Assess(q, u, w, f).value.priority
    ensures Severeness(Assess(p, t, v, e).value.level) <= Severeness(Assess(q, u, w, f).value.level)
  {
    hide FirstOf, Factors, ConfidenceScore, CvssContribution;
    PriorityIsFactor(t, v, e);
    PriorityIsFactor(u, w, f);
    AssessAlwaysSucceeds(p, t, v, e);
    AssessAlwaysSucceeds(q, u, w, f);
    CvssMonotone(v, w);
  }

  /** Without a valid CVSS score the level carries the name of the severity. */
  lemma FallbackLevel(path: Path, t: Technology, v: Vulnerability, e: Edge)
    requires !ValidCvss(v.cvss)
    ensures Assess(path, t, v, e).Some?
    ensures Assess(path, t, v, e).value.level == match v.severity
            case UNKNOWN => UNKNOWN_RISK
            case LOW => LOW_RISK
            case MEDIUM => MEDIUM_RISK
            case HIGH => HIGH_RISK
            case CRITICAL => CRITICAL_RISK
  {
    hide FirstOf, Factors, ConfidenceScore;
    PriorityIsFactor(t, v, e);
    ConfidenceBounds(t, e);
  }

  /** With one, the level is critical from 8.5 upwards, and the other levels begin where seven times the score
      reaches 39.5 and 19.5. */
  lemma CvssLevel(path: Path, t: Technology, v: Vulnerability, e: Edge)
    requires ValidCvss(v.cvss)
    ensures Assess(path, t, v, e).Some?
    ensures var level := Assess(path, t, v, e).value.level;
            && (level == CRITICAL_RISK <==> v.cvss.value * 7.0 >= 59.5)
            && (level == HIGH_RISK <==> 39.5 <= v.cvss.value * 7.0 < 59.5)
            && (level == MEDIUM_RISK <==> 19.5 <= v.cvss.value * 7.0 < 39.5)
            && (level == LOW_RISK <==> v.cvss.value * 7.0 < 19.5)
  {
    hide FirstOf, Factors, ConfidenceScore;
    PriorityIsFactor(t, v, e);
    ConfidenceBounds(t, e);
    CvssBounds(v.cvss.value);
  }
}
