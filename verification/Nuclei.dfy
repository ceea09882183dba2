/** The fold that reads detection output line by line and keeps one finding a fingerprint
    (adapters/nuclei/provider.py, `_finding_from_record`, `_finding_value_key`, `_parse_jsonl`). */
module Nuclei {
  import opened Prelude
  import opened Ordering
  import opened Findings
  import opened Anchors

  /** What one line turns out to be: white space only, not a finding object, a finding of no approved
      endpoint, or a finding. */
  datatype Line = BlankLine | Garbage | Foreign | Hit(record: Record)

  datatype ParseResult = ParseResult(
    findings: map<Identity, Record>, malformed: nat, duplicates: nat, unassociated: nat, total: nat)

  datatype Fold = Fold(kept: map<Identity, Record>, malformed: nat, duplicates: nat, unassociated: nat)

  /** Findings have tuples as sort keys. */
  type Key = Record -> seq<nat>

  predicate AtMost(key: Key, a: Record, b: Record) {
    LexLeq(key(a), key(b))
  }

  /** `min((existing, finding), key=...)`, which prefers the first on ties. */
  function Lesser(key: Key, existing: Record, finding: Record): Record {
    if AtMost(key, existing, finding) then existing else finding
  }

  /** One step of the fold. */
  function Read(key: Key, f: Fold, line: Line): Fold {
    match line
    case BlankLine => f
    case Garbage => f.(malformed := f.malformed + 1)
    case Foreign => f.(unassociated := f.unassociated + 1)
    case Hit(r) =>
      if r.identity !in f.kept then f.(kept := f.kept[r.identity := r])
      else
        var existing := f.kept[r.identity];
        var g := f.(duplicates := f.duplicates + 1);
        if existing == r then g
        else g.(malformed := g.malformed + 1, kept := g.kept[r.identity := Lesser(key, existing, r)])
  }

  function ReadAll(key: Key, lines: seq<Line>): Fold {
    if lines == [] then Fold(map[], 0, 0, 0)
    else Read(key, ReadAll(key, lines[..|lines| - 1]), lines[|lines| - 1])
  }

  /** How many lines are of a kind. */
  function Count(lines: seq<Line>, kind: Line -> bool): nat {
    if lines == [] then 0
    else Count(lines[..|lines| - 1], kind) + if kind(lines[|lines| - 1]) then 1 else 0
  }

  /** A line of the tool's output: white space, text that is no usable record, or the fields of a record. */
  datatype Raw = Space | Unusable | Detection(templateId: Name, title: Name, severity: Name, target: Name)

  /** The approved endpoints by target, and the string functions of the provider, all arbitrary. */
  datatype Conventions = Conventions(
    endpoints: map<Name, Name>, assetOf: Name -> Name, slug: Name -> Name, normalize: Name -> Name, fold: Name -> Name,
    fingerprint: Identity -> Name)

  const TOOL: Name := 1

  const DETECTED: Name := 1

  /** The evidence every finding of the provider carries. */
  const DETECTION := Evidence(1, 1, 3, 2, TOOL)

  /** `_finding_from_record`, from usable fields: None when the target is not an approved endpoint. */
  function FindingOf(c: Conventions, d: Raw): Option<Record>
    requires d.Detection?
  {
    if d.target !in c.endpoints then None
    else
      var endpoint := c.endpoints[d.target];
      Some(Record(Identity(c.slug(d.title), c.assetOf(endpoint), Some(endpoint), None), c.normalize(d.title), d.title,
                  {}, [DETECTION], TOOL, d.templateId, d.severity, {}))
  }

  /** `_finding_value_key`. */
  function ValueKey(c: Conventions, r: Record): seq<nat> {
    [r.identity.classification, c.fold(r.rawTitle), r.rawTitle, r.severity, DETECTED, r.recordId,
     c.fingerprint(r.identity)]
  }

  function KeyOf(c: Conventions): Key {
    (r: Record) => ValueKey(c, r)
  }

  function Classify(c: Conventions, raw: Raw): Line {
    match raw
    case Space => BlankLine
    case Unusable => Garbage
    case Detection(_, _, _, _) => if FindingOf(c, raw).None? then Foreign else Hit(FindingOf(c, raw).value)
  }

  function Lines(c: Conventions, output: seq<Raw>): (lines: seq<Line>)
    ensures |lines| == |output| && forall i | 0 <= i < |output| :: lines[i] == Classify(c, output[i])
  {
    seq(|output|, i requires 0 <= i < |output| => Classify(c, output[i]))
  }

  function NonBlank(output: seq<Raw>): (kept: seq<Raw>)
    ensures forall raw :: raw in kept <==> raw in output && !raw.Space?
  {
    if output == [] then []
    else
      var n := |output| - 1;
      assert output == output[..n] + [output[n]];
      NonBlank(output[..n]) + if output[n].Space? then [] else [output[n]]
  }

  /** `_parse_jsonl`.  No lines stand for empty output; `complete` says whether the last line is terminated. */
  method ParseJsonl(c: Conventions, output: seq<Raw>, maxRecords: nat, discardUnterminated: bool, complete: bool)
    returns (r: ParseResult)
    ensures var cut := output != [] && discardUnterminated && !complete;
            var nonempty := NonBlank(if cut then output[..|output| - 1] else output);
            var extra := if cut then 1 else 0;
            if |nonempty| > maxRecords then r == ParseResult(map[], extra + 1, 0, 0, |nonempty|)
            else
              var f := ReadAll(KeyOf(c), Lines(c, nonempty));
              r == ParseResult(f.kept, f.malformed + extra, f.duplicates, f.unassociated, |nonempty|)
  {
    if output == [] {
      return ParseResult(map[], 0, 0, 0, 0);
    }
    var lines, malformed := output, 0;
    if discardUnterminated && !complete {
      lines := lines[..|lines| - 1];
      malformed := malformed + 1;
    }
    var nonempty := NonBlank(lines);
    if |nonempty| > maxRecords {
      return ParseResult(map[], malformed + 1, 0, 0, |nonempty|);
    }
    hide *;
    var kept, rejected, duplicates, unassociated := FoldLines(c, nonempty);
    return ParseResult(kept, malformed + rejected, duplicates, unassociated, |nonempty|);
  }

  /** The loop of `_parse_jsonl`. */
  method FoldLines(c: Conventions, nonempty: seq<Raw>)
    returns (kept: map<Identity, Record>, malformed: nat, duplicates: nat, unassociated: nat)
    ensures Fold(kept, malformed, duplicates, unassociated) == ReadAll(KeyOf(c), Lines(c, nonempty))
  {
    ghost var all := Lines(c, nonempty);
    hide AtMost, Classify, KeyOf, Lines;
    kept, malformed, duplicates, unassociated := map[], 0, 0, 0;
    for i := 0 to |nonempty|
      invariant Fold(kept, malformed, duplicates, unassociated) == ReadAll(KeyOf(c), all[..i])
    {
      assert all[..i + 1][..i] == all[..i];
      match Classify(c, nonempty[i]) {
        case BlankLine =>
        case Garbage => malformed := malformed + 1;
        case Foreign => unassociated := unassociated + 1;
        case Hit(finding) =>
          if finding.identity in kept {
            duplicates := duplicates + 1;
            var existing := kept[finding.identity];
            if existing != finding {
              malformed := malformed + 1;
              kept := kept[finding.identity := Lesser(KeyOf(c), existing, finding)];
            }
          } else {
            kept := kept[finding.identity := finding];
          }
      }
    }
    assert all[..|nonempty|] == all;
  }

  /** The findings kept are, for each fingerprint among the hits, one of least key. */
  ghost predicate KeepsLeast(key: Key, lines: seq<Line>, kept: map<Identity, Record>) {
    && (forall r | Hit(r) in lines :: r.identity in kept && AtMost(key, kept[r.identity], r))
    && (forall i | i in kept :: kept[i].identity == i && Hit(kept[i]) in lines)
  }

  lemma LesserIsLess(key: Key, existing: Record, finding: Record, x: Record)
    ensures AtMost(key, Lesser(key, existing, finding), finding)
    ensures AtMost(key, existing, x) ==> AtMost(key, Lesser(key, existing, finding), x)
  {
    LexTotal(key(existing), key(finding));
    LexTotal(key(finding), key(finding));
    if AtMost(key, existing, x) && !AtMost(key, existing, finding) {
      LexTransitive(key(finding), key(existing), key(x));
    }
  }

  lemma HitKeepsLeast(key: Key, lines: seq<Line>, kept: map<Identity, Record>, r: Record)
    requires KeepsLeast(key, lines, kept)
    ensures var least := if r.identity in kept then Lesser(key, kept[r.identity], r) else r;
            KeepsLeast(key, lines + [Hit(r)], kept[r.identity := least])
  {
    hide AtMost;
    var least := if r.identity in kept then Lesser(key, kept[r.identity], r) else r;
    AtMostItself(key, r);
    assert Hit(least) in lines + [Hit(r)];
    forall x | Hit(x) in lines + [Hit(r)]
      ensures x.identity in kept[r.identity := least] && AtMost(key, kept[r.identity := least][x.identity], x)
    {
      assert x == r || Hit(x) in lines;
      if r.identity in kept {
        LesserIsLess(key, kept[r.identity], r, x);
      }
    }
  }

  lemma AtMostItself(key: Key, r: Record)
    ensures AtMost(key, r, r)
  {
    LexTotal(key(r), key(r));
  }

  lemma OtherKeepsLeast(key: Key, lines: seq<Line>, kept: map<Identity, Record>, line: Line)
    requires KeepsLeast(key, lines, kept) && !line.Hit?
    ensures KeepsLeast(key, lines + [line], kept)
  {
    hide AtMost;
  }

  lemma {:induction false} ReadKeepsLeast(key: Key, lines: seq<Line>)
    ensures KeepsLeast(key, lines, ReadAll(key, lines).kept)
  {
    hide KeepsLeast, AtMost;
    if lines == [] {
      NothingKept(key);
    } else {
      var n := |lines| - 1;
      var front := ReadAll(key, lines[..n]);
      ReadKeepsLeast(key, lines[..n]);
      assert lines == lines[..n] + [lines[n]];
      match lines[n] {
        case Hit(r) =>
          HitKeepsLeast(key, lines[..n], front.kept, r);
          KeptSame(key, lines[..n], front.kept, r);
        case _ => OtherKeepsLeast(key, lines[..n], front.kept, lines[n]);
      }
    }
  }

  lemma NothingKept(key: Key)
    ensures KeepsLeast(key, [], map[])
  {
  }

  /** Keeping an equal finding, or the lesser of two, is one update. */
  lemma KeptSame(key: Key, lines: seq<Line>, kept: map<Identity, Record>, r: Record)
    ensures r.identity in kept && kept[r.identity] == r ==> kept[r.identity := Lesser(key, kept[r.identity], r)] == kept
  {
  }

  /** Every line is accounted for: garbage, unassociated findings, duplicates and kept findings add up to the
      lines that are not blank, although conflicting duplicates are counted as malformed besides. */
  lemma {:induction false} LinesAccounted(key: Key, lines: seq<Line>)
    ensures var f := ReadAll(key, lines);
            var garbage := Count(lines, (x: Line) => x.Garbage?);
            && garbage + f.unassociated + f.duplicates + |f.kept| == Count(lines, (x: Line) => !x.BlankLine?)
            && garbage <= f.malformed <= garbage + f.duplicates
            && f.unassociated == Count(lines, (x: Line) => x.Foreign?)
            && f.duplicates + |f.kept| == Count(lines, (x: Line) => x.Hit?)
  {
    hide Lesser;
    if lines != [] {
      LinesAccounted(key, lines[..|lines| - 1]);
    }
  }

  /** None of the lines left by `NonBlank` is blank, so the four counts add up to the total reported. */
  lemma {:induction false} NonBlankCounted(c: Conventions, output: seq<Raw>)
    requires forall raw | raw in output :: !raw.Space?
    ensures Count(Lines(c, output), (x: Line) => !x.BlankLine?) == |output|
  {
    if output != [] {
      var n := |output| - 1;
      NonBlankCounted(c, output[..n]);
      assert Lines(c, output)[..n] == Lines(c, output[..n]);
      assert output[n] in output;
    }
  }

  /** The sort key tells findings of one fingerprint apart. */
  ghost predicate Separating(key: Key, lines: seq<Line>) {
    forall a, b | Hit(a) in lines && Hit(b) in lines && a.identity == b.identity && key(a) == key(b) :: a == b
  }

  /** It does for the findings of this provider: they carry the same evidence, and the key holds every other
      field that the fingerprint leaves open. */
  lemma ProviderSeparates(c: Conventions, output: seq<Raw>)
    ensures Separating(KeyOf(c), Lines(c, output))
  {
    var lines := Lines(c, output);
    forall a, b | Hit(a) in lines && Hit(b) in lines && a.identity == b.identity && KeyOf(c)(a) == KeyOf(c)(b)
      ensures a == b
    {
      var i :| 0 <= i < |output| && lines[i] == Hit(a);
      var j :| 0 <= j < |output| && lines[j] == Hit(b);
      assert ValueKey(c, a)[2] == ValueKey(c, b)[2] && ValueKey(c, a)[3] == ValueKey(c, b)[3];
      assert ValueKey(c, a)[5] == ValueKey(c, b)[5];
    }
  }

  lemma Removed<T>(s: seq<T>, i: nat)
    requires i < |s|
    ensures multiset(s) == multiset(s[..i] + s[i + 1..]) + multiset{s[i]}
  {
    assert s == s[..i] + [s[i]] + s[i + 1..];
  }

  lemma Cancelled<T>(m: multiset<T>, n: multiset<T>, x: T)
    requires m + multiset{x} == n + multiset{x}
    ensures m == n
  {
    assert m == (m + multiset{x}) - multiset{x};
    assert n == (n + multiset{x}) - multiset{x};
  }

  /** The last of a permuted sequence is somewhere in the other, and what is left is permuted too. */
  lemma LastMatched<T>(a: seq<T>, b: seq<T>) returns (i: nat)
    requires multiset(a) == multiset(b) && a != []
    ensures i < |b| && b[i] == a[|a| - 1] && multiset(a[..|a| - 1]) == multiset(b[..i] + b[i + 1..])
  {
    var n := |a| - 1;
    assert a[n] in multiset(a);
    i :| 0 <= i < |b| && b[i] == a[n];
    Removed(a, n);
    Removed(b, i);
    assert a[..n] + a[n + 1..] == a[..n];
    Cancelled(multiset(a[..n]), multiset(b[..i] + b[i + 1..]), a[n]);
  }

  lemma {:induction false} CountPermuted(a: seq<Line>, b: seq<Line>, kind: Line -> bool)
    requires multiset(a) == multiset(b)
    ensures Count(a, kind) == Count(b, kind)
    decreases |a|
  {
    if a == [] {
      assert |multiset(b)| == 0;
    } else {
      var i := LastMatched(a, b);
      CountPermuted(a[..|a| - 1], b[..i] + b[i + 1..], kind);
      CountWithout(b, i, kind);
    }
  }

  lemma {:induction false} CountWithout(s: seq<Line>, i: nat, kind: Line -> bool)
    requires i < |s|
    ensures Count(s, kind) == Count(s[..i] + s[i + 1..], kind) + if kind(s[i]) then 1 else 0
    decreases |s|
  {
    var n := |s| - 1;
    if i == n {
      assert s[..i] + s[i + 1..] == s[..n];
    } else {
      var rest := s[..i] + s[i + 1..];
      assert s[..n][..i] + s[..n][i + 1..] == rest[..n - 1] && rest[n - 1] == s[n];
      CountWithout(s[..n], i, kind);
    }
  }

  lemma {:induction false} LinesPermuted(c: Conventions, a: seq<Raw>, b: seq<Raw>)
    requires multiset(a) == multiset(b)
    ensures multiset(Lines(c, a)) == multiset(Lines(c, b))
    decreases |a|
  {
    hide Classify;
    if a == [] {
      assert |multiset(b)| == 0;
    } else {
      var n := |a| - 1;
      var i := LastMatched(a, b);
      var rest := b[..i] + b[i + 1..];
      LinesPermuted(c, a[..n], rest);
      Removed(Lines(c, a), n);
      Removed(Lines(c, b), i);
      assert Lines(c, a)[..n] + Lines(c, a)[n + 1..] == Lines(c, a[..n]);
      assert Lines(c, b)[..i] + Lines(c, b)[i + 1..] == Lines(c, rest);
    }
  }

  /** Permuting lines of separated findings changes neither the findings kept nor the counts of duplicates and
      unassociated findings. */
  lemma FoldIgnoresOrder(key: Key, a: seq<Line>, b: seq<Line>)
    requires multiset(a) == multiset(b) && Separating(key, a)
    ensures ReadAll(key, a).kept == ReadAll(key, b).kept
    ensures ReadAll(key, a).duplicates == ReadAll(key, b).duplicates
    ensures ReadAll(key, a).unassociated == ReadAll(key, b).unassociated
  {
    hide ReadAll, Count;
    ReadKeepsLeast(key, a);
    ReadKeepsLeast(key, b);
    SameMembers(a, b);
    SameLeast(key, a, b, ReadAll(key, a).kept, ReadAll(key, b).kept);
    LinesAccounted(key, a);
    LinesAccounted(key, b);
    CountPermuted(a, b, (x: Line) => x.Foreign?);
    CountPermuted(a, b, (x: Line) => x.Hit?);
  }

  lemma SameMembers<T>(a: seq<T>, b: seq<T>)
    requires multiset(a) == multiset(b)
    ensures forall x :: x in a <==> x in b
  {
    forall x ensures x in a <==> x in b {
      assert x in multiset(a) <==> x in multiset(b);
    }
  }

  lemma SameLeast(key: Key, a: seq<Line>, b: seq<Line>, m: map<Identity, Record>, n: map<Identity, Record>)
    requires KeepsLeast(key, a, m) && KeepsLeast(key, b, n) && Separating(key, a)
    requires forall x :: x in a <==> x in b
    ensures m == n
  {
    forall i ensures i in m <==> i in n {
      assert i in m ==> Hit(m[i]) in b;
      assert i in n ==> Hit(n[i]) in a;
    }
    forall i | i in m ensures m[i] == n[i] {
      assert Hit(m[i]) in a && Hit(n[i]) in a;
      LexAntisymmetric(key(m[i]), key(n[i]));
    }
  }

  /** Permuting the output changes neither the findings the provider keeps nor its counts of duplicates and
      unassociated findings. */
  lemma OrderOfLinesIrrelevant(c: Conventions, a: seq<Raw>, b: seq<Raw>)
    requires multiset(a) == multiset(b)
    ensures var f, g := ReadAll(KeyOf(c), Lines(c, a)), ReadAll(KeyOf(c), Lines(c, b));
            f.kept == g.kept && f.duplicates == g.duplicates && f.unassociated == g.unassociated
  {
    hide ReadAll, Lines, KeyOf;
    LinesPermuted(c, a, b);
    ProviderSeparates(c, a);
    FoldIgnoresOrder(KeyOf(c), Lines(c, a), Lines(c, b));
  }

  /** Some finding of the same fingerprint has a lesser key. */
  predicate Beaten(key: Key, lines: seq<Line>, r: Record) {
    exists x | x in lines :: x.Hit? && x.record.identity == r.identity && !AtMost(key, r, x.record)
  }

  function BeatenFindings(key: Key, lines: seq<Line>): set<Record> {
    set x | x in lines && x.Hit? && Beaten(key, lines, x.record) :: x.record
  }

  /** No finding beaten by another of its fingerprint occurs twice. */
  ghost predicate BeatenOnce(key: Key, lines: seq<Line>) {
    forall r | r in BeatenFindings(key, lines) :: multiset(lines)[Hit(r)] == 1
  }

  /** Every order of the lines has the same count of malformed lines. */
  ghost predicate MalformedStable(key: Key, lines: seq<Line>) {
    forall other: seq<Line> | multiset(other) == multiset(lines) ::
      ReadAll(key, other).malformed == ReadAll(key, lines).malformed
  }

  /** The beaten findings are those that are not kept. */
  lemma BeatenIsNotKept(key: Key, lines: seq<Line>, kept: map<Identity, Record>, r: Record)
    requires Separating(key, lines) && KeepsLeast(key, lines, kept) && Hit(r) in lines
    ensures r.identity in kept && (r in BeatenFindings(key, lines) <==> kept[r.identity] != r)
  {
    hide AtMost;
    var least := kept[r.identity];
    if least != r {
      if AtMost(key, r, least) {
        EqualKeys(key, r, least);
      }
      assert Hit(least) in lines;
    }
    if Beaten(key, lines, r) {
      var x :| x in lines && x.Hit? && x.record.identity == r.identity && !AtMost(key, r, x.record);
      assert Hit(x.record) in lines;
    }
  }

  lemma EqualKeys(key: Key, a: Record, b: Record)
    requires AtMost(key, a, b) && AtMost(key, b, a)
    ensures key(a) == key(b)
  {
    LexAntisymmetric(key(a), key(b));
  }

  /** The beaten findings, read off what is kept. */
  ghost predicate Unkept(lines: seq<Line>, kept: map<Identity, Record>, beaten: set<Record>) {
    && (forall x | Hit(x) in lines :: x.identity in kept)
    && (forall x :: x in beaten <==> Hit(x) in lines && kept[x.identity] != x)
  }

  lemma BeatenAreUnkept(key: Key, lines: seq<Line>)
    requires Separating(key, lines)
    ensures Unkept(lines, ReadAll(key, lines).kept, BeatenFindings(key, lines))
  {
    hide ReadAll, AtMost, Beaten;
    ReadKeepsLeast(key, lines);
    var kept := ReadAll(key, lines).kept;
    forall x | Hit(x) in lines
      ensures x.identity in kept && (x in BeatenFindings(key, lines) <==> kept[x.identity] != x)
    {
      hide BeatenFindings, Separating, KeepsLeast;
      BeatenIsNotKept(key, lines, kept, x);
    }
  }

  /** The loser of a conflict was not beaten before; everything else is beaten as before. */
  lemma LoserJoins(key: Key, front: seq<Line>, kept: map<Identity, Record>, before: set<Record>, r: Record,
                   after: set<Record>)
    requires KeepsLeast(key, front, kept) && Unkept(front, kept, before) && r.identity in kept && kept[r.identity] != r
    requires Unkept(front + [Hit(r)], kept[r.identity := Lesser(key, kept[r.identity], r)], after)
    requires r in after ==> Hit(r) !in front
    ensures var existing := kept[r.identity];
            var loser := if AtMost(key, existing, r) then r else existing;
            loser !in before && after == before + {loser}
  {
    hide AtMost;
    var all, existing := front + [Hit(r)], kept[r.identity];
    var loser := if AtMost(key, existing, r) then r else existing;
    assert Hit(r) in all && Hit(existing) in all;
    forall x ensures x in after <==> x in before + {loser} {
      assert Hit(x) in all <==> x == r || Hit(x) in front;
    }
  }

  /** Without a conflict nothing more is beaten. */
  lemma NoneJoins(front: seq<Line>, kept: map<Identity, Record>, before: set<Record>, line: Line,
                  next: map<Identity, Record>, after: set<Record>)
    requires Unkept(front, kept, before) && Unkept(front + [line], next, after)
    requires if line.Hit? && line.record.identity !in kept then next == kept[line.record.identity := line.record]
             else next == kept && (line.Hit? ==> kept[line.record.identity] == line.record)
    ensures after == before
  {
    forall x ensures x in after <==> x in before {
      assert Hit(x) in front + [line] <==> Hit(x) == line || Hit(x) in front;
    }
  }

  lemma SmallerInput(key: Key, front: seq<Line>, line: Line)
    requires Separating(key, front + [line])
    ensures Separating(key, front)
  {
    assert forall x | x in front :: x in front + [line];
  }

  /** Beaten findings that occur once in all the lines occur once in a part of them. */
  lemma OnceInPart(key: Key, front: seq<Line>, line: Line)
    requires BeatenOnce(key, front + [line])
    ensures BeatenOnce(key, front)
  {
    hide AtMost;
    var all := front + [line];
    forall r | r in BeatenFindings(key, front) ensures multiset(front)[Hit(r)] == 1 {
      assert Hit(r) in front && Hit(r) in all;
      assert Beaten(key, all, r) by {
        var x :| x in front && x.Hit? && x.record.identity == r.identity && !AtMost(key, r, x.record);
        assert x in all;
      }
      assert multiset(all) == multiset(front) + multiset{line};
    }
  }

  /** When no beaten finding occurs twice, each of them is counted as malformed once, besides the garbage. */
  lemma {:induction false} MalformedCount(key: Key, lines: seq<Line>)
    requires Separating(key, lines) && BeatenOnce(key, lines)
    ensures ReadAll(key, lines).malformed == Count(lines, (x: Line) => x.Garbage?) + |BeatenFindings(key, lines)|
  {
    hide AtMost, Lesser, Separating, KeepsLeast, Unkept, Beaten;
    if lines == [] {
      assert BeatenFindings(key, lines) == {};
    } else {
      var n := |lines| - 1;
      var front, line := lines[..n], lines[n];
      assert lines == front + [line];
      SmallerInput(key, front, line);
      OnceInPart(key, front, line);
      MalformedCount(key, front);
      BeatenAreUnkept(key, front);
      BeatenAreUnkept(key, lines);
      MalformedNext(key, front, line);
    }
  }

  lemma MalformedNext(key: Key, front: seq<Line>, line: Line)
    requires Separating(key, front + [line]) && Separating(key, front) && BeatenOnce(key, front + [line])
    ensures var f, g := ReadAll(key, front), ReadAll(key, front + [line]);
            g.malformed - f.malformed - (if line.Garbage? then 1 else 0) ==
            |BeatenFindings(key, front + [line])| - |BeatenFindings(key, front)|
  {
    hide AtMost, Separating, KeepsLeast, Unkept, Beaten;
    var all := front + [line];
    assert all[..|all| - 1] == front;
    var f, g := ReadAll(key, front), ReadAll(key, all);
    var before, after := BeatenFindings(key, front), BeatenFindings(key, all);
    BeatenAreUnkept(key, front);
    BeatenAreUnkept(key, all);
    ReadKeepsLeast(key, front);
    if line.Hit? && line.record.identity in f.kept && f.kept[line.record.identity] != line.record {
      var r := line.record;
      if r in after {
        OccursOnce(front, r);
      }
      LoserJoins(key, front, f.kept, before, r, after);
    } else {
      NoneJoins(front, f.kept, before, line, g.kept, after);
    }
  }

  lemma OccursOnce(front: seq<Line>, r: Record)
    requires multiset(front + [Hit(r)])[Hit(r)] == 1
    ensures Hit(r) !in front
  {
    assert multiset(front + [Hit(r)]) == multiset(front) + multiset{Hit(r)};
  }

  /** Reading the same lines from two states that keep the same findings preserves their difference. */
  lemma {:induction false} ReadApart(key: Key, a: seq<Line>, b: seq<Line>, rest: seq<Line>)
    requires ReadAll(key, a).kept == ReadAll(key, b).kept
    ensures ReadAll(key, a + rest).kept == ReadAll(key, b + rest).kept
    ensures ReadAll(key, a + rest).malformed - ReadAll(key, a).malformed ==
            ReadAll(key, b + rest).malformed - ReadAll(key, b).malformed
  {
    hide Lesser;
    if rest == [] {
      assert a + rest == a && b + rest == b;
    } else {
      var n := |rest| - 1;
      ReadApart(key, a, b, rest[..n]);
      assert (a + rest)[..|a + rest| - 1] == a + rest[..n];
      assert (b + rest)[..|b + rest| - 1] == b + rest[..n];
    }
  }

  /** Of two different findings of one fingerprint the greater, read twice, conflicts once or twice. */
  lemma MalformedDependsOnOrder(key: Key, a: Record, b: Record)
    requires a.identity == b.identity && !AtMost(key, a, b)
    ensures multiset([Hit(a), Hit(a), Hit(b)]) == multiset([Hit(a), Hit(b), Hit(a)])
    ensures ReadAll(key, [Hit(a), Hit(a), Hit(b)]).malformed == 1 &&
            ReadAll(key, [Hit(a), Hit(b), Hit(a)]).malformed == 2
    ensures ReadAll(key, [Hit(a), Hit(a), Hit(b)]).kept == ReadAll(key, [Hit(a), Hit(b), Hit(a)]).kept
  {
    hide ReadAll, AtMost;
    AtMostItself(key, a);
    LesserIsLess(key, b, a, a);
    OneIsLess(key, a, b);
    ReadThree(key, Hit(a), Hit(a), Hit(b));
    ReadThree(key, Hit(a), Hit(b), Hit(a));
  }

  lemma OneIsLess(key: Key, a: Record, b: Record)
    requires !AtMost(key, a, b)
    ensures AtMost(key, b, a)
  {
    LexTotal(key(a), key(b));
  }

  lemma ReadThree(key: Key, x: Line, y: Line, z: Line)
    ensures ReadAll(key, [x, y, z]) == Read(key, Read(key, Read(key, Fold(map[], 0, 0, 0), x), y), z)
  {
    hide Read;
    assert [x, y, z][..2] == [x, y] && [x, y][..1] == [x] && [x][..0] == [];
    assert ReadAll(key, [x]) == Read(key, ReadAll(key, []), x);
    assert ReadAll(key, [x, y]) == Read(key, ReadAll(key, [x]), y);
  }

  lemma Without(lines: seq<Line>, x: Line) returns (rest: seq<Line>)
    requires x in lines
    ensures multiset(lines) == multiset(rest) + multiset{x}
  {
    var i :| 0 <= i < |lines| && lines[i] == x;
    rest := lines[..i] + lines[i + 1..];
    Removed(lines, i);
  }

  /** Two occurrences of one line and one of another, brought to the front. */
  lemma BroughtToFront(lines: seq<Line>, x: Line, y: Line) returns (rest: seq<Line>)
    requires x != y && multiset(lines)[x] >= 2 && y in lines
    ensures multiset([x, x, y] + rest) == multiset(lines) && multiset([x, y, x] + rest) == multiset(lines)
  {
    assert x in multiset(lines) && y in multiset(lines);
    var first := Without(lines, x);
    assert multiset(first)[x] >= 1 && multiset(first)[y] == multiset(lines)[y];
    var second := Without(first, x);
    assert y in multiset(second);
    rest := Without(second, y);
    ThreeThen(x, x, y, rest);
    ThreeThen(x, y, x, rest);
  }

  lemma ThreeThen(x: Line, y: Line, z: Line, rest: seq<Line>)
    ensures multiset([x, y, z] + rest) == multiset(rest) + multiset{x} + multiset{y} + multiset{z}
  {
    assert multiset([x, y, z] + rest) == multiset([x, y, z]) + multiset(rest);
    assert multiset([x, y, z]) == multiset{x} + multiset{y} + multiset{z};
  }

  /** A beaten finding that occurs twice makes the count depend on the order. */
  lemma TwiceBeatenUnstable(key: Key, lines: seq<Line>, r: Record)
    requires r in BeatenFindings(key, lines) && multiset(lines)[Hit(r)] >= 2
    ensures !MalformedStable(key, lines)
  {
    hide ReadAll, AtMost;
    var winner :| winner in lines && winner.Hit? && winner.record.identity == r.identity &&
      !AtMost(key, r, winner.record);
    AtMostItself(key, r);
    hide BeatenFindings;
    var x := Hit(r);
    var rest := BroughtToFront(lines, x, winner);
    MalformedDependsOnOrder(key, r, winner.record);
    ReadApart(key, [x, x, winner], [x, winner, x], rest);
    SomeOrdersDiffer(key, lines, [x, x, winner] + rest, [x, winner, x] + rest);
  }

  lemma SomeOrdersDiffer(key: Key, lines: seq<Line>, a: seq<Line>, b: seq<Line>)
    requires multiset(a) == multiset(lines) && multiset(b) == multiset(lines)
    requires ReadAll(key, a).malformed != ReadAll(key, b).malformed
    ensures !MalformedStable(key, lines)
  {
    hide ReadAll;
  }

  lemma SameBeaten(key: Key, a: seq<Line>, b: seq<Line>)
    requires multiset(a) == multiset(b)
    ensures BeatenFindings(key, a) == BeatenFindings(key, b) && (BeatenOnce(key, a) <==> BeatenOnce(key, b))
    ensures Separating(key, a) <==> Separating(key, b)
  {
    hide AtMost;
    SameMembers(a, b);
    forall r ensures Beaten(key, a, r) <==> Beaten(key, b, r) {
    }
  }

  /** The malformed count is the same for every order of the lines exactly when no finding beaten by another of
      its fingerprint occurs twice. */
  lemma StableExactly(key: Key, lines: seq<Line>)
    requires Separating(key, lines)
    ensures MalformedStable(key, lines) <==> BeatenOnce(key, lines)
  {
    hide ReadAll, Beaten, AtMost, Separating, BeatenFindings;
    if BeatenOnce(key, lines) {
      MalformedCount(key, lines);
      forall other: seq<Line> | multiset(other) == multiset(lines)
        ensures ReadAll(key, other).malformed == ReadAll(key, lines).malformed
      {
        SameBeaten(key, other, lines);
        MalformedCount(key, other);
        CountPermuted(other, lines, (x: Line) => x.Garbage?);
      }
    } else {
      var r :| r in BeatenFindings(key, lines) && multiset(lines)[Hit(r)] != 1;
      BeatenOccurs(key, lines, r);
      TwiceBeatenUnstable(key, lines, r);
    }
  }

  lemma BeatenOccurs(key: Key, lines: seq<Line>, r: Record)
    requires r in BeatenFindings(key, lines)
    ensures multiset(lines)[Hit(r)] >= 1
  {
    assert Hit(r) in multiset(lines);
  }

  /** For the provider's own output this needs no assumption on the findings. */
  lemma ProviderStableExactly(c: Conventions, output: seq<Raw>)
    ensures MalformedStable(KeyOf(c), Lines(c, output)) <==> BeatenOnce(KeyOf(c), Lines(c, output))
  {
    hide *;
    ProviderSeparates(c, output);
    StableExactly(KeyOf(c), Lines(c, output));
  }

  /** The collection made of the kept findings is accepted: no fingerprint occurs twice. */
  lemma KeptFindingsCollect(key: Key, lines: seq<Line>, findings: seq<Record>)
    requires forall r :: r in findings <==> r in ReadAll(key, lines).kept.Values
    ensures FingerprintUnique(findings)
  {
    hide ReadAll, AtMost;
    ReadKeepsLeast(key, lines);
    var kept := ReadAll(key, lines).kept;
    forall x, y | x in findings && y in findings && x.identity == y.identity ensures x == y {
      var i :| i in kept && kept[i] == x;
      var j :| j in kept && kept[j] == y;
    }
  }
}
