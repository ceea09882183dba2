/** Crawled URLs as endpoints and back (adapters/katana.py, `_url_to_endpoint`;
    adapters/technology_detection.py, `_endpoint_url`). */
module Crawl {
  import opened Prelude
  import opened Strings
  import opened Urls
  import AE = AffectedEndpoints

  const MAX_URL_LENGTH := 4096
  const MAX_PATH_LENGTH := 2048

  datatype Endpoint = Endpoint(host: HostText, port: nat, protocol: string, path: string)

  datatype ExactTarget = ExactTarget(scheme: string, hostname: string, port: nat)

  /** The scope of a crawl, and which queries are safe to keep: an arbitrary set and predicate. */
  datatype Scope = Scope(approved: set<string>, exact: Option<ExactTarget>, safeQuery: string -> bool)

  /** Rejected stands for the exception, OutOfScope for None. */
  datatype Crawled = Rejected | OutOfScope | Found(endpoint: Endpoint)

  predicate InScope(scope: Scope, u: HttpUrl) {
    && (scope.exact.None? || scope.exact.value == ExactTarget(u.scheme, u.host.text, u.port))
    && u.host.text in scope.approved
  }

  /** The path and query of `urlsplit`; a canonical URL has no fragment. */
  function PathPart(suffix: string): string {
    suffix[..FirstOf(suffix, "?")]
  }

  function QueryPart(suffix: string): string {
    var q := FirstOf(suffix, "?");
    if q == |suffix| then [] else suffix[q + 1..]
  }

  function OrRoot(path: string): string {
    if path == [] then "/" else path
  }

  /** `_url_to_endpoint`. */
  function UrlToEndpoint(hosts: Hosts, scope: Scope, url: string): Crawled {
    if |url| > MAX_URL_LENGTH then Rejected
    else
      match Normalize(hosts, url)
      case None => Rejected
      case Some(u) =>
        if !InScope(scope, u) then OutOfScope
        else
          var path, query := OrRoot(PathPart(u.suffix)), QueryPart(u.suffix);
          if |path| > MAX_PATH_LENGTH || !scope.safeQuery(query) then Rejected
          else Found(Endpoint(u.host, u.port, u.scheme, if query != [] then path + "?" + query else path))
  }

  /** `_endpoint_url`; None stands for the exception. */
  function EndpointUrl(hosts: Hosts, e: Endpoint): Option<string> {
    var scheme := LowerAll(e.protocol);
    if (scheme != "http" && scheme != "https") || !(1 <= e.port <= 65535) || !StartsWith(OrRoot(e.path), "/") then None
    else
      match Normalize(hosts, scheme + "://" + Netloc(scheme, e.host, e.port) + OrRoot(e.path))
      case None => None
      case Some(u) => if |Text(u)| > MAX_URL_LENGTH then None else Some(Text(u))
  }

  function UrlOf(e: Endpoint): HttpUrl {
    HttpUrl(e.protocol, e.host, e.port, e.path)
  }

  lemma SplitsAgain(path: string, query: string)
    requires path != [] && '?' !in path
    ensures var joined := if query != [] then path + "?" + query else path;
            PathPart(joined) == path && QueryPart(joined) == query
  {
    hide FirstOf;
    assert forall c | c in path :: c !in "?";
    if query == [] {
      FirstOfAt(path, [], "?");
      assert path + [] == path;
    } else {
      FirstOfAt(path, "?" + query, "?");
      assert path + "?" + query == path + ("?" + query);
    }
  }

  lemma PathStarts(suffix: string)
    requires Suffix(suffix)
    ensures var path := OrRoot(PathPart(suffix));
            StartsWith(path, "/") && '?' !in path && AllVisible(path) &&
            '#' !in path
    ensures AllVisible(QueryPart(suffix)) && '#' !in QueryPart(suffix)
  {
    var q := FirstOf(suffix, "?");
    assert forall c | c in suffix[..q] :: c in suffix;
    if q < |suffix| {
      assert forall c | c in suffix[q + 1..] :: c in suffix;
    }
    if PathPart(suffix) != [] {
      assert suffix[0] in suffix && suffix[0] == '/';
    }
  }

  /** What the crawler found is canonical, and splits again into the parts it was joined from. */
  lemma FoundIsCanonical(hosts: Hosts, scope: Scope, url: string)
    requires hosts.Lawful() && UrlToEndpoint(hosts, scope, url).Found?
    ensures var e := UrlToEndpoint(hosts, scope, url).endpoint;
            && CanonicalUrl(hosts, UrlOf(e)) && StartsWith(e.path, "/") && InScope(scope, UrlOf(e))
            && |PathPart(e.path)| <= MAX_PATH_LENGTH && scope.safeQuery(QueryPart(e.path))
            && e.path == (if QueryPart(e.path) != [] then PathPart(e.path) + "?" + QueryPart(e.path)
                          else PathPart(e.path))
  {
    NormalizeIsCanonical(hosts, url);
    var u := Normalize(hosts, url).value;
    hide Normalize, PathPart, QueryPart, OrRoot, CanonicalHost, Hosts.Lawful, AllVisible;
    assert Suffix(u.suffix);
    PathStarts(u.suffix);
    var path, query := OrRoot(PathPart(u.suffix)), QueryPart(u.suffix);
    SplitsAgain(path, query);
    JoinedVisible(path, query);
  }

  lemma JoinedVisible(path: string, query: string)
    requires StartsWith(path, "/") && AllVisible(path) && '#' !in path && AllVisible(query) && '#' !in query
    ensures var joined := if query != [] then path + "?" + query else path; Suffix(joined) && StartsWith(joined, "/")
  {
  }

  /** Technology detection addresses what the crawler found by its canonical URL, unless that is too long. */
  lemma FoundUrl(hosts: Hosts, e: Endpoint)
    requires CanonicalUrl(hosts, UrlOf(e)) && StartsWith(e.path, "/")
    ensures EndpointUrl(hosts, e) == if |Text(UrlOf(e))| > MAX_URL_LENGTH then None else Some(Text(UrlOf(e)))
  {
    LowerStays(e.protocol);
    TextNormalizes(hosts, UrlOf(e));
    hide Normalize, LowerAll, Netloc, CanonicalHost;
    assert OrRoot(e.path) == e.path;
  }

  /** Crawling the URL that technology detection makes of a crawled endpoint finds the same endpoint. */
  lemma CrawlRoundTrip(hosts: Hosts, scope: Scope, url: string)
    requires hosts.Lawful() && UrlToEndpoint(hosts, scope, url).Found?
    ensures var e := UrlToEndpoint(hosts, scope, url).endpoint;
            && (EndpointUrl(hosts, e).Some? <==> |Text(UrlOf(e))| <= MAX_URL_LENGTH)
            && (EndpointUrl(hosts, e).Some? ==> UrlToEndpoint(hosts, scope, EndpointUrl(hosts, e).value) == Found(e))
  {
    hide Normalize, PathPart, QueryPart, EndpointUrl, Text, CanonicalUrl, UrlToEndpoint;
    FoundIsCanonical(hosts, scope, url);
    var e := UrlToEndpoint(hosts, scope, url).endpoint;
    FoundUrl(hosts, e);
    if |Text(UrlOf(e))| <= MAX_URL_LENGTH {
      FoundAgain(hosts, scope, e);
    }
  }

  lemma FoundAgain(hosts: Hosts, scope: Scope, e: Endpoint)
    requires CanonicalUrl(hosts, UrlOf(e)) && StartsWith(e.path, "/") && InScope(scope, UrlOf(e))
    requires |PathPart(e.path)| <= MAX_PATH_LENGTH && scope.safeQuery(QueryPart(e.path))
    requires e.path == if QueryPart(e.path) != [] then PathPart(e.path) + "?" + QueryPart(e.path) else PathPart(e.path)
    requires |Text(UrlOf(e))| <= MAX_URL_LENGTH
    ensures UrlToEndpoint(hosts, scope, Text(UrlOf(e))) == Found(e)
  {
    hide Normalize, PathPart, QueryPart, Text, CanonicalUrl, InScope, OrRoot;
    TextNormalizes(hosts, UrlOf(e));
    PathNotEmpty(e.path);
  }

  lemma PathNotEmpty(path: string)
    requires StartsWith(path, "/")
    ensures OrRoot(PathPart(path)) == PathPart(path)
  {
    assert path[0] == '/';
  }

  /** A path without question mark and, after the first one, a query. */
  ghost predicate Divides(suffix: string, path: string, query: string) {
    '?' !in path && (suffix == path + "?" + query || (suffix == path && query == ""))
  }

  lemma DividesExactly(suffix: string, path: string, query: string)
    ensures Divides(suffix, path, query) <==> path == PathPart(suffix) && query == QueryPart(suffix)
  {
    hide FirstOf;
    var q := FirstOf(suffix, "?");
    assert '?' !in suffix[..q];
    assert q < |suffix| ==> suffix == suffix[..q] + "?" + suffix[q + 1..];
    if Divides(suffix, path, query) {
      assert forall c | c in path :: c !in "?";
      if suffix == path + "?" + query {
        assert suffix == path + ("?" + query);
        FirstOfAt(path, "?" + query, "?");
      } else {
        assert suffix == path + [];
        FirstOfAt(path, [], "?");
      }
    }
  }

  /** The target is approved, and the exact one if there is one. */
  ghost predicate Approved(scope: Scope, u: HttpUrl) {
    && u.host.text in scope.approved
    && (scope.exact.Some? ==>
        var t := scope.exact.value; t.scheme == u.scheme && t.hostname == u.host.text && t.port == u.port)
  }

  /** The endpoint a URL in scope is written down as: an empty path becomes the root, a query that is not empty stays.
      */
  ghost predicate WrittenAs(scope: Scope, u: HttpUrl, e: Endpoint) {
    && e.host == u.host && e.port == u.port && e.protocol == u.scheme
    && exists path, query ::
         && Divides(u.suffix, path, query) && scope.safeQuery(query)
         && var root := if path == "" then "/" else path;
            |root| <= 2048 && e.path == if query == "" then root else root + "?" + query
  }

  /** What becomes of a crawled URL: too long or no URL, out of scope, an unsafe query or too long a path, or found. */
  lemma CrawledExactly(hosts: Hosts, scope: Scope, url: string)
    ensures UrlToEndpoint(hosts, scope, url) == OutOfScope <==>
            |url| <= 4096 && exists u :: Normalize(hosts, url) == Some(u) && !Approved(scope, u)
    ensures forall e :: UrlToEndpoint(hosts, scope, url) == Found(e) <==>
              |url| <= 4096 &&
                exists u :: Normalize(hosts, url) == Some(u) && Approved(scope, u) && WrittenAs(scope, u, e)
  {
    hide Normalize, PathPart, QueryPart, Divides;
    if Normalize(hosts, url).Some? {
      var u := Normalize(hosts, url).value;
      DividesExactly(u.suffix, PathPart(u.suffix), QueryPart(u.suffix));
      forall path, query ensures Divides(u.suffix, path, query) <==>
        path == PathPart(u.suffix) && query == QueryPart(u.suffix)
      {
        DividesExactly(u.suffix, path, query);
      }
    }
  }

  /** Which endpoints have an address: those whose protocol, port and path make a canonical URL that is not too long. */
  lemma AddressedExactly(hosts: Hosts, e: Endpoint)
    requires CanonicalHost(e.host) && hosts.parse(e.host.text) == Some(e.host)
    ensures var u := HttpUrl(LowerAll(e.protocol), e.host, e.port, if e.path == "" then "/" else e.path);
            EndpointUrl(hosts, e) ==
            if CanonicalUrl(hosts, u) && u.suffix[0] == '/' && |Text(u)| <= 4096 then Some(Text(u)) else None
  {
    hide Normalize, LowerAll, Netloc, CanonicalHost, Suffix, Text;
    var u := HttpUrl(LowerAll(e.protocol), e.host, e.port, if e.path == "" then "/" else e.path);
    WholeText(u);
    if CanonicalUrl(hosts, u) {
      TextNormalizes(hosts, u);
      SlashFirst(u.suffix);
    } else if (u.scheme == "http" || u.scheme == "https") && 1 <= u.port <= 65535 && StartsWith(u.suffix, "/") {
      NotCanonical(hosts, u);
    }
  }

  lemma WholeText(u: HttpUrl)
    ensures Text(u) == u.scheme + "://" + Netloc(u.scheme, u.host, u.port) + u.suffix
  {
  }

  lemma SlashFirst(suffix: string)
    ensures StartsWith(suffix, "/") <==> suffix != "" && suffix[0] == '/'
  {
    if suffix != "" && suffix[0] == '/' {
      assert suffix == "/" + suffix[1..];
    }
  }

  lemma NotCanonical(hosts: Hosts, u: HttpUrl)
    requires CanonicalHost(u.host) && hosts.parse(u.host.text) == Some(u.host) && !CanonicalUrl(hosts, u)
    requires (u.scheme == "http" || u.scheme == "https") && 1 <= u.port <= 65535 && StartsWith(u.suffix, "/")
    ensures Normalize(hosts, u.scheme + "://" + Netloc(u.scheme, u.host, u.port) + u.suffix) == None
  {
    hide Normalize, Netloc, CanonicalHost, Suffix;
    NetlocPlain(u.scheme, u.host, u.port);
    PlainNetloc(Netloc(u.scheme, u.host, u.port));
    if Normalize(hosts, u.scheme + "://" + Netloc(u.scheme, u.host, u.port) + u.suffix).Some? {
      AE.PathIsSuffix(hosts, u.scheme, Netloc(u.scheme, u.host, u.port), u.suffix);
    }
  }

  lemma PlainNetloc(n: string)
    requires n != [] && AllVisible(n) && forall c | c in n :: c !in "/?#@"
    ensures Plain(n)
  {
  }
}
