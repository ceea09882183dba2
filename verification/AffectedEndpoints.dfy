/** Canonical affected endpoints (domain/finding_intelligence.py, `AffectedEndpoint`). */
module AffectedEndpoints {
  import opened Prelude
  import opened Strings
  import opened Urls
  import opened UrlGrammar
  import opened Hostnames

  const MAX_SCHEME := 16
  const MAX_HOST := 253
  const MAX_PATH := 2048

  datatype AffectedEndpoint = AffectedEndpoint(scheme: string, host: HostText, port: nat, path: string)

  predicate Control(c: char) {
    c < ' ' || c == 127 as char
  }

  /** `_text`: not empty, not padded, not too long, no control characters. */
  predicate TextOk(s: string, maximum: nat) {
    s != [] && Strip(s) == s && |s| <= maximum && forall c | c in s :: !Control(c)
  }

  function PathOf(u: HttpUrl): string {
    if u.suffix == [] then "/" else u.suffix
  }

  /** The construction of an endpoint; None stands for the exception it raises. */
  function Make(hosts: Hosts, scheme: string, hostname: string, port: int, path: string): Option<AffectedEndpoint> {
    if !TextOk(scheme, MAX_SCHEME) || !TextOk(path, MAX_PATH) || !StartsWith(path, "/")
       || !TextOk(hostname, MAX_HOST) || !(1 <= port <= 65535) || hosts.Normalize(hostname).None? then None
    else
      var authority := SerializedHost(hosts.Normalize(hostname).value) + ":" + Show(port);
      match Normalize(hosts, LowerAll(scheme) + "://" + authority + path)
      case None => None
      case Some(u) => Some(AffectedEndpoint(u.scheme, u.host, u.port, PathOf(u)))
  }

  /** `from_url`. */
  function FromUrl(hosts: Hosts, url: string): Option<AffectedEndpoint> {
    match Normalize(hosts, url)
    case None => None
    case Some(u) => Make(hosts, u.scheme, u.host.text, u.port, PathOf(u))
  }

  function UrlOf(e: AffectedEndpoint): HttpUrl {
    HttpUrl(e.scheme, e.host, e.port, e.path)
  }

  /** `canonical_url`. */
  function CanonicalText(e: AffectedEndpoint): string {
    Text(UrlOf(e))
  }

  lemma VisibleText(s: string, maximum: nat)
    requires AllVisible(s) && 0 < |s| <= maximum
    ensures TextOk(s, maximum)
  {
    assert s[0] in s && s[|s| - 1] in s;
    StripKeeps(s);
  }

  lemma SchemeText(scheme: string)
    requires scheme == "http" || scheme == "https"
    ensures TextOk(scheme, MAX_SCHEME)
  {
    VisibleText(scheme, MAX_SCHEME);
  }

  lemma HostIsText(h: HostText)
    requires CanonicalHost(h)
    ensures TextOk(h.text, MAX_HOST)
  {
    VisibleText(h.text, MAX_HOST);
  }

  /** Every constructed endpoint has a canonical URL. */
  lemma MadeIsCanonical(hosts: Hosts, scheme: string, hostname: string, port: int, path: string)
    requires hosts.Lawful() && Make(hosts, scheme, hostname, port, path).Some?
    ensures var e := Make(hosts, scheme, hostname, port, path).value; CanonicalUrl(hosts, UrlOf(e)) && e.path != []
  {
    hide Normalize, TextOk, LowerAll, SerializedHost, Show, Hosts.Lawful, CanonicalHost;
    NormalizeIsCanonical(hosts,
                         LowerAll(scheme) + "://" +
                         (SerializedHost(hosts.Normalize(hostname).value) + ":" + Show(port)) + path);
    assert AllVisible("/");
  }

  lemma WrittenOut(h: HostText, port: nat)
    requires CanonicalHost(h)
    ensures var netloc := SerializedHost(h) + ":" + Show(port);
            Plain(netloc) && SplitAuthority(netloc) == Some(Authority(h.text, Some(port)))
  {
    hide Show, SplitAuthority;
    HostSplits(h, ":" + Show(port), Some(port));
    assert SerializedHost(h) + (":" + Show(port)) == SerializedHost(h) + ":" + Show(port);
    assert forall c | c in Show(port) :: Digit(c);
  }

  /** Components that are canonical already make the endpoint they describe. */
  lemma MakeCanonical(hosts: Hosts, u: HttpUrl)
    requires CanonicalUrl(hosts, u) && StartsWith(u.suffix, "/") && |u.suffix| <= MAX_PATH
    ensures Make(hosts, u.scheme, u.host.text, u.port, u.suffix) ==
            Some(AffectedEndpoint(u.scheme, u.host, u.port, u.suffix))
  {
    hide TextOk, LowerAll, SerializedHost, Show, SplitAuthority, Normalize, CanonicalHost, AllVisible, Plain, Strip;
    SchemeText(u.scheme);
    VisibleText(u.suffix, MAX_PATH);
    HostIsText(u.host);
    LowerStays(u.scheme);
    HostPlain(u.host);
    WrittenOut(u.host, u.port);
    AuthorityNormalizes(hosts, u, SerializedHost(u.host) + ":" + Show(u.port));
  }

  /** A constructed endpoint is recovered from its canonical URL exactly when its path starts with a slash
      and is within the length limit. */
  lemma RoundTrip(hosts: Hosts, scheme: string, hostname: string, port: int, path: string)
    requires hosts.Lawful() && Make(hosts, scheme, hostname, port, path).Some?
    ensures var e := Make(hosts, scheme, hostname, port, path).value;
            FromUrl(hosts, CanonicalText(e)) == Some(e) <==> StartsWith(e.path, "/") && |e.path| <= MAX_PATH
  {
    MadeIsCanonical(hosts, scheme, hostname, port, path);
    var e := Make(hosts, scheme, hostname, port, path).value;
    TextNormalizes(hosts, UrlOf(e));
    if StartsWith(e.path, "/") && |e.path| <= MAX_PATH {
      hide Make, Text;
      MakeCanonical(hosts, UrlOf(e));
    } else {
      hide Normalize, Text;
    }
  }

  /** With a scheme of HTTP, what is normalized is the URL of the given parts. */
  lemma HttpParts(hosts: Hosts, scheme: string, hostname: string, port: int, path: string)
    requires hosts.Lawful() && (LowerAll(scheme) == "http" || LowerAll(scheme) == "https")
    requires Make(hosts, scheme, hostname, port, path).Some?
    ensures CanonicalUrl(hosts, HttpUrl(LowerAll(scheme), hosts.Normalize(hostname).value, port, path))
    ensures path != []
  {
    hide Normalize, Show, LowerAll, Plain, Suffix, CanonicalHost, Hosts.Lawful, SplitAuthority, TextOk;
    HostIsCanonical(hosts, hostname);
    var h := hosts.Normalize(hostname).value;
    WrittenOut(h, port);
    PathIsSuffix(hosts, LowerAll(scheme), SerializedHost(h) + ":" + Show(port), path);
  }

  /** Endpoints constructed with a scheme of HTTP keep their path, so all of them are recovered. */
  lemma HttpRoundTrip(hosts: Hosts, scheme: string, hostname: string, port: int, path: string)
    requires hosts.Lawful() && (LowerAll(scheme) == "http" || LowerAll(scheme) == "https")
    requires Make(hosts, scheme, hostname, port, path).Some?
    ensures var e := Make(hosts, scheme, hostname, port, path).value;
            && e == AffectedEndpoint(LowerAll(scheme), hosts.Normalize(hostname).value, port, path)
            && FromUrl(hosts, CanonicalText(e)) == Some(e)
  {
    hide Normalize, Show, LowerAll, Plain, Suffix, CanonicalHost, Hosts.Lawful, SplitAuthority, TextOk, FromUrl, Text,
      CanonicalUrl;
    HttpParts(hosts, scheme, hostname, port, path);
    HttpMade(hosts, scheme, hostname, port, path);
    hide Make;
    RoundTrip(hosts, scheme, hostname, port, path);
  }

  lemma HttpMade(hosts: Hosts, scheme: string, hostname: string, port: int, path: string)
    requires Make(hosts, scheme, hostname, port, path).Some?
    requires CanonicalUrl(hosts, HttpUrl(LowerAll(scheme), hosts.Normalize(hostname).value, port, path)) && path != []
    ensures Make(hosts, scheme, hostname, port, path) ==
            Some(AffectedEndpoint(LowerAll(scheme), hosts.Normalize(hostname).value, port, path))
    ensures StartsWith(path, "/") && |path| <= MAX_PATH
  {
    var u := HttpUrl(LowerAll(scheme), hosts.Normalize(hostname).value, port, path);
    assert CanonicalHost(u.host);
    hide Normalize, Show, LowerAll, Plain, Suffix, CanonicalHost, SplitAuthority, CanonicalUrl, SerializedHost;
    WrittenOut(u.host, port);
    AuthorityNormalizes(hosts, u, SerializedHost(u.host) + ":" + Show(port));
  }

  lemma PathIsSuffix(hosts: Hosts, scheme: string, netloc: string, path: string)
    requires (scheme == "http" || scheme == "https") && Plain(netloc) && StartsWith(path, "/")
    requires Normalize(hosts, scheme + "://" + netloc + path).Some?
    ensures Suffix(path)
  {
    hide FirstOf, Plain;
    var url := scheme + "://" + netloc + path;
    assert Match(url).Some? && AllVisible(url);
    NoHash(scheme, netloc, path);
    assert forall c | c in path :: c in url;
  }

  lemma NoHash(scheme: string, netloc: string, path: string)
    requires (scheme == "http" || scheme == "https") && Plain(netloc) && StartsWith(path, "/")
    requires Match(scheme + "://" + netloc + path).Some?
    ensures '#' !in path
  {
    hide FirstOf;
    assert scheme + "://" + netloc + path == scheme + "://" + (netloc + path);
    SchemeEnds(scheme, netloc + path);
    FirstOfAt(netloc, path, "/?#");
    assert (netloc + path)[|netloc|..] == path;
  }

  /** The hazard behind the condition: a scheme of "http://a.bc?" is accepted as text; the endpoint made with it
      belongs to the host inside the scheme, and its path is one that no URL gives back. */
  lemma SchemeCapturesHost(hosts: Hosts)
    requires hosts.Lawful() && hosts.parse("a.bc") == Some(Named("a.bc")) && hosts.parse("d.ef") == Some(Named("d.ef"))
    ensures var made := Make(hosts, ODD_SCHEME, "d.ef", 80, "/x");
            made == Some(AffectedEndpoint("http", Named("a.bc"), 80, ODD_SUFFIX)) &&
              FromUrl(hosts, CanonicalText(made.value)) == None
  {
    hide *;
    OddUrl(hosts);
    OddMade(hosts);
    NotRecovered(hosts, HttpUrl("http", Named("a.bc"), 80, ODD_SUFFIX));
  }

  lemma OddUrl(hosts: Hosts)
    requires hosts.Lawful() && hosts.parse("a.bc") == Some(Named("a.bc"))
    ensures CanonicalUrl(hosts, HttpUrl("http", Named("a.bc"), 80, ODD_SUFFIX)) && ODD_SUFFIX != [] &&
            !StartsWith(ODD_SUFFIX, "/")
  {
    hide Suffix, CanonicalHost, Hosts.Lawful;
    OddTexts();
    HostIsCanonical(hosts, "a.bc");
    assert ODD_SUFFIX[0] == '?';
  }

  lemma NotRecovered(hosts: Hosts, u: HttpUrl)
    requires CanonicalUrl(hosts, u) && u.suffix != [] && !StartsWith(u.suffix, "/")
    ensures FromUrl(hosts, CanonicalText(AffectedEndpoint(u.scheme, u.host, u.port, u.suffix))) == None
  {
    hide Normalize, Text, TextOk, CanonicalUrl;
    TextNormalizes(hosts, u);
  }

  const ODD_SCHEME := "http://a.bc?"

  const ODD_SUFFIX := "?://d.ef:80/x"

  lemma OddMade(hosts: Hosts)
    requires hosts.Lawful() && hosts.parse("a.bc") == Some(Named("a.bc")) && hosts.parse("d.ef") == Some(Named("d.ef"))
    ensures Make(hosts, ODD_SCHEME, "d.ef", 80, "/x") == Some(AffectedEndpoint("http", Named("a.bc"), 80, ODD_SUFFIX))
  {
    hide Normalize, TextOk, LowerAll, Show, CanonicalUrl, SplitAuthority, Plain, Suffix, Hosts.Lawful;
    OddTexts();
    OddScheme();
    OddAuthority();
    ShowEighty();
    OddUrl(hosts);
    AuthorityNormalizes(hosts, HttpUrl("http", Named("a.bc"), 80, ODD_SUFFIX), "a.bc");
    OddJoined();
  }

  /** The text that the construction normalizes reads as a URL of the host in the scheme. */
  lemma OddJoined()
    ensures ODD_SCHEME + "://" + ("d.ef" + ":" + "80") + "/x" == "http" + "://" + "a.bc" + ODD_SUFFIX
  {
  }

  lemma ShowEighty()
    ensures Show(80) == "80"
  {
    assert Show(8) == "8";
  }

  lemma OddScheme()
    ensures LowerAll(ODD_SCHEME) == ODD_SCHEME
  {
  }

  lemma OddTexts()
    ensures TextOk(ODD_SCHEME, MAX_SCHEME) && TextOk("d.ef", MAX_HOST) && TextOk("/x", MAX_PATH) && Suffix(ODD_SUFFIX)
  {
    hide TextOk;
    VisibleText(ODD_SCHEME, MAX_SCHEME);
    VisibleText("d.ef", MAX_HOST);
    VisibleText("/x", MAX_PATH);
  }

  lemma OddAuthority()
    ensures Plain("a.bc") && SplitAuthority("a.bc") == Some(Authority("a.bc", None))
  {
    hide SplitAuthority;
    PlainSplits("a.bc", [], None);
    assert "a.bc" + [] == "a.bc";
  }

  lemma TwoLabels(name: string)
    requires |name| == 4 && name[1] == '.' && forall i | 0 <= i < 4 && i != 1 :: 'a' <= name[i] <= 'z'
    ensures ValidName(name)
  {
    var s1, s2, s3 := name[1..], name[2..], name[3..];
    assert s1[1..] == s2 && s2[1..] == s3 && s3[1..] == [] && [] + [name[0]] == [name[0]] &&
           [] + [name[2]] == [name[2]];
    assert [name[2]] + [name[3]] == [name[2], name[3]];
    assert LabelsFrom(s3, [name[2]]) == [[name[2], name[3]]];
    assert LabelsFrom(name, []) == LabelsFrom(s1, [name[0]]) == [[name[0]]] + LabelsFrom(s2, []);
  }

  /** The repository's recognition of hosts reads both names of the hazard, so it is real. */
  lemma HazardIsReal(address: Addresses)
    requires LawfulAddresses(address) && address("a.bc").None? && address("d.ef").None?
    ensures var hosts := Recognition(address);
            var made := Make(hosts, ODD_SCHEME, "d.ef", 80, "/x");
            made.Some? && made.value.host == Named("a.bc") && FromUrl(hosts, CanonicalText(made.value)) == None
  {
    TwoLabels("a.bc");
    TwoLabels("d.ef");
    hide ValidName, Make, FromUrl, CanonicalText, DnsName;
    NameStays("a.bc");
    NameStays("d.ef");
    RecognitionLawful(address);
    SchemeCapturesHost(Recognition(address));
  }

  /** What an endpoint of an HTTP scheme must be given. */
  ghost predicate Constructible(hosts: Hosts, hostname: string, port: int, path: string) {
    && path != "" && path[0] == '/' && |path| <= 2048 && '#' !in path
    && (forall c | c in path :: c > ' ' && c != 127 as char)
    && hostname != "" && |hostname| <= 253 && Strip(hostname) == hostname && '%' !in hostname
    && (forall c | c in hostname :: c >= ' ' && c != 127 as char)
    && hosts.parse(hostname).Some? && 1 <= port <= 65535
  }

  /** When an endpoint of an HTTP scheme can be constructed, and what it is. */
  lemma MadeExactly(hosts: Hosts, scheme: string, hostname: string, port: int, path: string)
    requires hosts.Lawful() && (Lowered(scheme, "http") || Lowered(scheme, "https"))
    ensures Make(hosts, scheme, hostname, port, path).Some? <==> Constructible(hosts, hostname, port, path)
    ensures Make(hosts, scheme, hostname, port, path).Some? ==>
            var e := Make(hosts, scheme, hostname, port, path).value;
            Lowered(scheme, e.scheme) && Some(e.host) == hosts.parse(hostname) && e.port == port && e.path == path
  {
    LoweredIs(scheme, LowerAll(scheme));
    LoweredIs(scheme, "http");
    LoweredIs(scheme, "https");
    if Make(hosts, scheme, hostname, port, path).Some? {
      MadeIsConstructible(hosts, scheme, hostname, port, path);
    }
    if Constructible(hosts, hostname, port, path) {
      ConstructibleIsMade(hosts, scheme, hostname, port, path);
    }
  }

  lemma MadeIsConstructible(hosts: Hosts, scheme: string, hostname: string, port: int, path: string)
    requires hosts.Lawful() && (LowerAll(scheme) == "http" || LowerAll(scheme) == "https")
    requires Make(hosts, scheme, hostname, port, path).Some?
    ensures Constructible(hosts, hostname, port, path)
    ensures Make(hosts, scheme, hostname, port, path).value ==
            AffectedEndpoint(LowerAll(scheme), hosts.parse(hostname).value, port, path)
  {
    hide *;
    HttpParts(hosts, scheme, hostname, port, path);
    HttpRoundTrip(hosts, scheme, hostname, port, path);
    MadeChecks(hosts, scheme, hostname, port, path);
    CanonicalSuffix(hosts, HttpUrl(LowerAll(scheme), hosts.Normalize(hostname).value, port, path));
    ConstructibleWhen(hosts, hostname, port, path);
  }

  lemma CanonicalSuffix(hosts: Hosts, u: HttpUrl)
    requires CanonicalUrl(hosts, u)
    ensures Suffix(u.suffix)
  {
    hide Suffix, CanonicalHost;
  }

  lemma ConstructibleWhen(hosts: Hosts, hostname: string, port: int, path: string)
    requires TextOk(path, MAX_PATH) && StartsWith(path, "/") && Suffix(path) && TextOk(hostname, MAX_HOST)
    requires 1 <= port <= 65535 && hosts.Normalize(hostname).Some?
    ensures Constructible(hosts, hostname, port, path) && hosts.Normalize(hostname) == hosts.parse(hostname)
  {
    TextIs(hostname, MAX_HOST);
    TextIs(path, MAX_PATH);
    hide TextOk, Strip;
    assert forall c | c in path :: Visible(c);
  }

  lemma MadeChecks(hosts: Hosts, scheme: string, hostname: string, port: int, path: string)
    requires Make(hosts, scheme, hostname, port, path).Some?
    ensures TextOk(path, MAX_PATH) && StartsWith(path, "/") && TextOk(hostname, MAX_HOST) && 1 <= port <= 65535
    ensures hosts.Normalize(hostname).Some?
  {
    hide Normalize, LowerAll, SerializedHost, Show, TextOk;
  }

  lemma TextIs(s: string, maximum: nat)
    ensures TextOk(s, maximum) <==>
            s != "" && |s| <= maximum && Strip(s) == s && forall c | c in s :: c >= ' ' && c != 127 as char
  {
    hide Strip;
    assert forall c :: Control(c) <==> !(c >= ' ' && c != 127 as char);
  }

  lemma ConstructibleIsMade(hosts: Hosts, scheme: string, hostname: string, port: int, path: string)
    requires hosts.Lawful() && (LowerAll(scheme) == "http" || LowerAll(scheme) == "https")
    requires Constructible(hosts, hostname, port, path)
    ensures Make(hosts, scheme, hostname, port, path).Some?
  {
    hide *;
    ConstructibleParts(hosts, LowerAll(scheme), hostname, port, path);
    var u := HttpUrl(LowerAll(scheme), hosts.parse(hostname).value, port, path);
    AnyCase(scheme);
    CanonicalParts(hosts, u);
    WrittenOut(u.host, port);
    AuthorityNormalizes(hosts, u, SerializedHost(u.host) + ":" + Show(port));
    MadeWhen(hosts, scheme, hostname, port, path, u);
  }

  lemma ConstructibleParts(hosts: Hosts, scheme: string, hostname: string, port: int, path: string)
    requires hosts.Lawful() && Constructible(hosts, hostname, port, path) && (scheme == "http" || scheme == "https")
    ensures TextOk(path, MAX_PATH) && StartsWith(path, "/") && TextOk(hostname, MAX_HOST) && 1 <= port <= 65535
    ensures hosts.Normalize(hostname) == hosts.parse(hostname)
    ensures hosts.parse(hostname).Some? && CanonicalUrl(hosts, HttpUrl(scheme, hosts.parse(hostname).value, port, path))
  {
    HostIsCanonical(hosts, hostname);
    hide Hosts.Lawful, CanonicalHost, Strip, TextOk;
    TextIs(hostname, MAX_HOST);
    assert AllVisible(path);
    VisibleText(path, MAX_PATH);
  }

  lemma CanonicalParts(hosts: Hosts, u: HttpUrl)
    requires CanonicalUrl(hosts, u)
    ensures CanonicalHost(u.host)
  {
    hide CanonicalHost, Suffix;
  }

  lemma MadeWhen(hosts: Hosts, scheme: string, hostname: string, port: int, path: string, u: HttpUrl)
    requires TextOk(scheme, MAX_SCHEME) && TextOk(path, MAX_PATH) && StartsWith(path, "/") && TextOk(hostname, MAX_HOST)
    requires 1 <= port <= 65535 && hosts.Normalize(hostname).Some? && port == u.port
    requires Normalize(hosts,
                       LowerAll(scheme) + "://" +
                       (SerializedHost(hosts.Normalize(hostname).value) + ":" + Show(u.port)) + path)
             == Some(u)
    ensures Make(hosts, scheme, hostname, port, path).Some?
  {
    hide TextOk, Normalize, LowerAll, SerializedHost, Show;
  }

  lemma AnyCase(scheme: string)
    requires LowerAll(scheme) == "http" || LowerAll(scheme) == "https"
    ensures TextOk(scheme, MAX_SCHEME)
  {
    forall c | c in scheme ensures Visible(c) {
      var i :| 0 <= i < |scheme| && scheme[i] == c;
      assert LowerAll(scheme)[i] in "https";
    }
    VisibleText(scheme, MAX_SCHEME);
  }

  /** Which URLs give an endpoint: those whose path is left out, or starts with a slash and is within the limit. */
  lemma FromExactly(hosts: Hosts, url: string, u: HttpUrl)
    requires hosts.Lawful() && Normalize(hosts, url) == Some(u)
    ensures FromUrl(hosts, url) ==
            if u.suffix == "" then Some(AffectedEndpoint(u.scheme, u.host, u.port, "/"))
            else if u.suffix[0] == '/' && |u.suffix| <= 2048 then
              Some(AffectedEndpoint(u.scheme, u.host, u.port, u.suffix))
            else None
  {
    NormalizeIsCanonical(hosts, url);
    hide Normalize, Hosts.Lawful, CanonicalHost;
    if u.suffix == "" {
      assert AllVisible("/");
      MakeCanonical(hosts, u.(suffix := "/"));
    } else if u.suffix[0] == '/' && |u.suffix| <= 2048 {
      assert StartsWith(u.suffix, "/");
      MakeCanonical(hosts, u);
    }
  }
}
