/** Recognition of hosts: DNS names by their own rules, addresses by an arbitrary function (domain/hostname.py,
    domain/http_probe.py, `_normalize_url_host`). */
module Hostnames {
  import opened Prelude
  import opened Urls
  import opened UrlGrammar

  const MAX_NAME := 253
  const MAX_LABEL := 63

  predicate LabelChar(c: char) {
    'a' <= c <= 'z' || Digit(c) || c == '-'
  }

  /** `hostname.split(".")`, with `part` of a label read already. */
  function LabelsFrom(s: string, part: string): (labels: seq<string>)
    ensures labels != []
  {
    if s == [] then [part]
    else if s[0] == '.' then [part] + LabelsFrom(s[1..], [])
    else LabelsFrom(s[1..], part + [s[0]])
  }

  predicate ValidLabel(part: string) {
    && 0 < |part| <= MAX_LABEL
    && part[0] != '-' && part[|part| - 1] != '-'
    && forall c | c in part :: LabelChar(c)
  }

  /** A name that is left as it is. */
  predicate ValidName(name: string) {
    0 < |name| <= MAX_NAME && |LabelsFrom(name, [])| >= 2 &&
      forall part | part in LabelsFrom(name, []) :: ValidLabel(part)
  }

  /** One trailing dot is dropped. */
  function WithoutDot(s: string): string {
    if s != [] && s[|s| - 1] == '.' then s[..|s| - 1] else s
  }

  /** `normalize_dns_hostname` of ASCII text, before addresses are refused.  ASCII labels are their own encoding; a
      wildcard, a scheme, a path or a port fails the label rules. */
  function DnsName(s: string): Option<string> {
    var name := WithoutDot(LowerAll(s));
    if AllVisible(s) && ValidName(name) then Some(name) else None
  }

  /** `ip_address`, with `str` of its result: arbitrary, but canonical addresses are their own text. */
  type Addresses = string -> Option<HostText>

  ghost predicate LawfulAddresses(address: Addresses) {
    forall s | address(s).Some? ::
      var h := address(s).value; !h.Named? && CanonicalHost(h) && address(h.text) == Some(h)
  }

  /** An address if it reads as one, and otherwise a DNS name. */
  function Recognise(address: Addresses, s: string): Option<HostText> {
    if address(s).Some? then address(s)
    else
      match DnsName(s)
      case None => None
      case Some(name) => if address(name).Some? then None else Some(Named(name))
  }

  function Recognition(address: Addresses): Hosts {
    Hosts((s: string) => Recognise(address, s))
  }

  /** Every character of a text other than a dot is in one of its labels. */
  lemma {:induction false} CharOfLabel(s: string, part: string, i: nat) returns (found: string)
    requires i < |s| && s[i] != '.'
    ensures found in LabelsFrom(s, part) && s[i] in found
    decreases |s|
  {
    if i == 0 {
      LabelKept(s[1..], part + [s[0]]);
      found := LabelsFrom(s, part)[0];
      assert found[|part|] == s[0];
    } else {
      assert s[1..][i - 1] == s[i];
      found := CharOfLabel(s[1..], if s[0] == '.' then [] else part + [s[0]], i - 1);
    }
  }

  /** What was read of a label is part of the first one. */
  lemma {:induction false} LabelKept(s: string, part: string)
    ensures part <= LabelsFrom(s, part)[0]
    decreases |s|
  {
    if s != [] && s[0] != '.' {
      LabelKept(s[1..], part + [s[0]]);
    }
  }

  /** A text that ends with a dot has an empty last label. */
  lemma {:induction false} LastLabel(s: string, part: string)
    requires s != [] && s[|s| - 1] == '.'
    ensures var labels := LabelsFrom(s, part); labels[|labels| - 1] == []
    decreases |s|
  {
    var rest := s[1..];
    if |s| == 1 {
      assert rest == [];
    } else {
      assert rest[|rest| - 1] == s[|s| - 1];
      LastLabel(rest, if s[0] == '.' then [] else part + [s[0]]);
    }
  }

  lemma NameChars(name: string)
    requires ValidName(name)
    ensures forall c | c in name :: c == '.' || LabelChar(c)
    ensures name[|name| - 1] != '.'
  {
    forall c | c in name ensures c == '.' || LabelChar(c) {
      var i :| 0 <= i < |name| && name[i] == c;
      if c != '.' {
        var found := CharOfLabel(name, [], i);
      }
    }
    var labels := LabelsFrom(name, []);
    assert labels[|labels| - 1] in labels;
    if name[|name| - 1] == '.' {
      LastLabel(name, []);
    }
  }

  /** A normalized name is normalized already. */
  lemma NameStays(name: string)
    requires ValidName(name)
    ensures DnsName(name) == Some(name) && CanonicalHost(Named(name))
  {
    NameChars(name);
    hide ValidName;
    forall i | 0 <= i < |name| ensures Lower(name[i]) == name[i] {
      assert name[i] in name;
    }
    assert LowerAll(name) == name;
    assert WithoutDot(name) == name;
  }

  /** Normalization of DNS names is idempotent. */
  lemma DnsNameIdempotent(s: string)
    ensures DnsName(s).Some? ==> DnsName(DnsName(s).value) == DnsName(s)
  {
    hide ValidName, WithoutDot, LowerAll, AllVisible;
    if DnsName(s).Some? {
      NameStays(DnsName(s).value);
    }
  }

  /** With lawful addresses the repository's recognition of hosts satisfies every law the URL results ask for. */
  lemma RecognitionLawful(address: Addresses)
    requires LawfulAddresses(address)
    ensures Recognition(address).Lawful()
  {
    var hosts := Recognition(address);
    forall s | hosts.parse(s).Some?
      ensures CanonicalHost(hosts.parse(s).value) && hosts.parse(hosts.parse(s).value.text) == hosts.parse(s)
    {
      hide CanonicalHost, ValidName, DnsName;
      if address(s).None? {
        KnownName(s);
      }
    }
  }

  lemma KnownName(s: string)
    ensures DnsName(s).Some? ==> var name := DnsName(s).value; DnsName(name) == Some(name) && CanonicalHost(Named(name))
  {
    hide ValidName, CanonicalHost, WithoutDot, LowerAll, AllVisible;
    if DnsName(s).Some? {
      NameStays(DnsName(s).value);
    }
  }

  /** URL normalization with the repository's own recognition of names needs no assumption on names. */
  lemma UrlsNormalizeOnce(address: Addresses, url: string)
    requires LawfulAddresses(address)
    ensures var hosts := Recognition(address);
            Normalize(hosts, url).Some? ==> Normalize(hosts, Text(Normalize(hosts, url).value)) == Normalize(hosts, url)
  {
    hide *;
    RecognitionLawful(address);
    NormalizeIdempotent(Recognition(address), url);
  }

  /** Labels written side by side with dots between them. */
  function Dotted(labels: seq<string>): string
    requires labels != []
  {
    if |labels| == 1 then labels[0] else labels[0] + "." + Dotted(labels[1..])
  }

  /** A label of letters, digits and inner hyphens, of at most 63 characters. */
  ghost predicate Label(part: string) {
    && 1 <= |part| <= 63 && part[0] != '-' && part[|part| - 1] != '-'
    && forall i | 0 <= i < |part| :: 'a' <= part[i] <= 'z' || '0' <= part[i] <= '9' || part[i] == '-'
  }

  /** At least two labels, and at most 253 characters. */
  ghost predicate Spelled(name: string, labels: seq<string>) {
    |labels| >= 2 && (forall part | part in labels :: Label(part)) && name == Dotted(labels) && |name| <= 253
  }

  lemma {:induction false} SplitsBack(labels: seq<string>, part: string)
    requires labels != [] && forall l | l in labels :: '.' !in l
    ensures LabelsFrom(Dotted(labels), part) == [part + labels[0]] + labels[1..]
  {
    var first := labels[0];
    if |labels| == 1 {
      LabelToEnd(first, part);
    } else {
      LabelToDot(first, Dotted(labels[1..]), part);
      SplitsBack(labels[1..], []);
      assert [] + labels[1..][0] == labels[1] && labels[1..] == [labels[1]] + labels[2..];
    }
  }

  lemma {:induction false} LabelToEnd(s: string, part: string)
    requires '.' !in s
    ensures LabelsFrom(s, part) == [part + s]
    decreases |s|
  {
    if s == [] {
      assert part + s == part;
    } else {
      LabelToEnd(s[1..], part + [s[0]]);
      assert part + [s[0]] + s[1..] == part + s;
    }
  }

  lemma {:induction false} LabelToDot(s: string, rest: string, part: string)
    requires '.' !in s
    ensures LabelsFrom(s + "." + rest, part) == [part + s] + LabelsFrom(rest, [])
    decreases |s|
  {
    var whole := s + "." + rest;
    if s == [] {
      assert whole[1..] == rest && part + s == part;
    } else {
      assert whole[1..] == s[1..] + "." + rest;
      LabelToDot(s[1..], rest, part + [s[0]]);
      assert part + [s[0]] + s[1..] == part + s;
    }
  }

  lemma {:induction false} JoinsBack(s: string, part: string)
    ensures Dotted(LabelsFrom(s, part)) == part + s
    decreases |s|
  {
    if s == [] {
      assert part + s == part;
    } else if s[0] == '.' {
      JoinsBack(s[1..], []);
      var rest := LabelsFrom(s[1..], []);
      assert ([part] + rest)[1..] == rest && part + s == part + "." + s[1..];
    } else {
      JoinsBack(s[1..], part + [s[0]]);
      assert part + [s[0]] + s[1..] == part + s;
    }
  }

  lemma LabelIs(part: string)
    ensures ValidLabel(part) <==> Label(part)
  {
    assert forall i | 0 <= i < |part| :: part[i] in part;
  }

  /** A name is valid exactly when it is spelled by labels. */
  lemma SpelledExactly(name: string)
    ensures ValidName(name) <==> exists labels :: Spelled(name, labels)
  {
    hide Label, ValidLabel;
    if ValidName(name) {
      var labels := LabelsFrom(name, []);
      JoinsBack(name, []);
      assert [] + name == name;
      forall part | part in labels ensures Label(part) {
        LabelIs(part);
      }
      assert Spelled(name, labels);
    }
    if labels :| Spelled(name, labels) {
      SpelledIsValid(name, labels);
    }
  }

  lemma SpelledIsValid(name: string, labels: seq<string>)
    requires Spelled(name, labels)
    ensures ValidName(name)
  {
    hide ValidLabel;
    forall part | part in labels ensures '.' !in part && ValidLabel(part) {
      LabelIs(part);
    }
    SplitsBack(labels, []);
    assert [] + labels[0] == labels[0] && labels == [labels[0]] + labels[1..];
    assert labels[0] in labels && |labels[0]| >= 1;
  }

  /** What a text normalizes to: its characters in lower case, without one trailing dot, if labels spell that. */
  lemma NamedExactly(s: string, name: string)
    ensures DnsName(s) == Some(name) <==>
            && (forall c | c in s :: c > ' ' && c != 127 as char)
            && (Lowered(s, name) || (s != "" && s[|s| - 1] == '.' && Lowered(s[..|s| - 1], name)))
            && exists labels :: Spelled(name, labels)
  {
    SpelledExactly(name);
    hide Spelled;
    LowersWithoutDot(s);
    if ValidName(name) {
      NameChars(name);
    }
    hide ValidName;
    LoweredIs(s, name);
    if s != "" {
      LoweredIs(s[..|s| - 1], name);
    }
  }

  lemma LowersWithoutDot(s: string)
    ensures WithoutDot(LowerAll(s)) == if s != "" && s[|s| - 1] == '.' then LowerAll(s[..|s| - 1]) else LowerAll(s)
  {
  }

  /** Names that differ only in the case of letters are one name. */
  lemma CaseIgnored(s: string, t: string)
    requires LowerAll(s) == LowerAll(t)
    ensures DnsName(s) == DnsName(t)
  {
    hide ValidName, WithoutDot;
    forall i | 0 <= i < |s| ensures Visible(s[i]) <==> Visible(t[i]) {
      assert LowerAll(s)[i] == LowerAll(t)[i];
    }
    forall c | c in s ensures AllVisible(t) ==> Visible(c) {
      var i :| 0 <= i < |s| && s[i] == c;
      assert |LowerAll(s)| == |LowerAll(t)| && t[i] in t;
    }
    forall c | c in t ensures AllVisible(s) ==> Visible(c) {
      var i :| 0 <= i < |t| && t[i] == c;
      assert |LowerAll(s)| == |LowerAll(t)| && s[i] in s;
    }
  }

  /** Which host a text is recognised as: an address where it reads as one, and otherwise a name that is no address. */
  lemma RecognisedExactly(address: Addresses, s: string, h: HostText)
    ensures Recognition(address).Normalize(s) == Some(h) <==>
            && '%' !in s
            && (address(s) == Some(h) ||
                (address(s).None? && h.Named? && DnsName(s) == Some(h.text) && address(h.text).None?))
  {
    hide DnsName;
  }
}
