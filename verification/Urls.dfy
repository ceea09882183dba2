/** Canonical HTTP URLs (domain/http_probe.py, `normalize_http_url`). */
module Urls {
  import opened Prelude
  import opened Strings

  /** A character that may stand in a URL: neither white space nor a control character. */
  predicate Visible(c: char) {
    c > ' ' && c != 127 as char
  }

  predicate AllVisible(s: string) {
    forall c | c in s :: Visible(c)
  }

  function Lower(c: char): char {
    if 'A' <= c <= 'Z' then (c as int + 32) as char else c
  }

  function LowerAll(s: string): string {
    seq(|s|, i requires 0 <= i < |s| => Lower(s[i]))
  }

  predicate Digit(c: char) {
    '0' <= c <= '9'
  }

  predicate AllDigits(s: string) {
    forall c | c in s :: Digit(c)
  }

  /** `int(s)` of a string of digits. */
  function ToNat(s: string): nat
    requires AllDigits(s)
  {
    if s == [] then 0
    else
      assert Digit(s[|s| - 1]);
      10 * ToNat(s[..|s| - 1]) + (s[|s| - 1] as int - '0' as int)
  }

  function Show(n: nat): (s: string)
    ensures s != [] && AllDigits(s)
  {
    (if n < 10 then [] else Show(n / 10)) + [('0' as int + n % 10) as char]
  }

  lemma {:induction false} ShowToNat(n: nat)
    ensures ToNat(Show(n)) == n
  {
    var s := Show(n);
    if n >= 10 {
      ShowToNat(n / 10);
      assert s[..|s| - 1] == Show(n / 10);
    } else {
      assert s[..|s| - 1] == [];
    }
  }

  /** A host in canonical form: a DNS name or an address. */
  datatype HostText = Named(text: string) | V4(text: string) | V6(text: string)

  /** Recognition of hosts, an arbitrary function here. */
  datatype Hosts = Hosts(parse: string -> Option<HostText>) {
    /** Canonical texts are canonical already, and free of the characters that structure a URL. */
    ghost predicate Lawful() {
      forall s | parse(s).Some? :: CanonicalHost(parse(s).value) && parse(parse(s).value.text) == parse(s)
    }

    /** `_normalize_url_host`. */
    function Normalize(s: string): Option<HostText> {
      if '%' in s then None else parse(s)
    }
  }

  ghost predicate CanonicalHost(h: HostText) {
    0 < |h.text| <= 253 && forall c | c in h.text :: Visible(c) && c !in "/?#@%[]" && (c == ':' ==> h.V6?)
  }

  /** The position of the first of some characters, or the end. */
  function FirstOf(s: string, stops: string): (i: nat)
    ensures i <= |s| && (i < |s| ==> s[i] in stops)
    ensures forall j | 0 <= j < i :: s[j] !in stops
  {
    if s == [] || s[0] in stops then 0 else 1 + FirstOf(s[1..], stops)
  }

  lemma FirstOfAt(s: string, t: string, stops: string)
    requires forall c | c in s :: c !in stops
    requires t == [] || t[0] in stops
    ensures FirstOf(s + t, stops) == |s|
  {
    assert forall j | 0 <= j < |s| :: (s + t)[j] == s[j] && s[j] in s;
    assert t != [] ==> (s + t)[|s|] == t[0];
  }

  /** The three parts of `scheme://authority suffix`. */
  datatype Parts = Parts(scheme: string, authority: string, suffix: string)

  /** The URL pattern: the authority ends before the first slash, question mark or hash, and there is no hash. */
  function Match(url: string): Option<Parts> {
    var colon := FirstOf(url, ":");
    if !StartsWith(url[colon..], "://") then None
    else
      var rest := url[colon + 3..];
      var end := FirstOf(rest, "/?#");
      if '#' in rest[end..] then None else Some(Parts(url[..colon], rest[..end], rest[end..]))
  }

  datatype Authority = Authority(host: string, port: Option<nat>)

  function PortOf(host: string, text: string): Option<Authority> {
    if text == [] || !AllDigits(text) then None else Some(Authority(host, Some(ToNat(text))))
  }

  /** `_split_authority`. */
  function SplitAuthority(authority: string): Option<Authority> {
    if authority != [] && authority[0] == '[' then
      var closing := FirstOf(authority, "]");
      if closing == |authority| then None
      else
        var host, remainder := authority[1..closing], authority[closing + 1..];
        if remainder == [] then Some(Authority(host, None))
        else if remainder[0] != ':' then None
        else PortOf(host, remainder[1..])
    else
      var colon := FirstOf(authority, ":");
      if colon == |authority| then Some(Authority(authority, None))
      else if ':' in authority[colon + 1..] then None
      else PortOf(authority[..colon], authority[colon + 1..])
  }

  datatype HttpUrl = HttpUrl(scheme: string, host: HostText, port: nat, suffix: string)

  function DefaultPort(scheme: string): nat {
    if scheme == "https" then 443 else 80
  }

  function SerializedHost(h: HostText): string {
    if h.V6? then "[" + h.text + "]" else h.text
  }

  function Netloc(scheme: string, h: HostText, port: nat): string {
    if port == DefaultPort(scheme) then SerializedHost(h) else SerializedHost(h) + ":" + Show(port)
  }

  /** The canonical text of a URL. */
  function Text(u: HttpUrl): string {
    u.scheme + "://" + Netloc(u.scheme, u.host, u.port) + u.suffix
  }

  /** `normalize_http_url`, as components; `Text` gives its value.  None stands for the exception. */
  function Normalize(hosts: Hosts, url: string): Option<HttpUrl> {
    if url == [] || !AllVisible(url) then None
    else
      match Match(url)
      case None => None
      case Some(parts) =>
        var scheme := LowerAll(parts.scheme);
        if (scheme != "http" && scheme != "https") || parts.authority == [] || '@' in parts.authority then None
        else
          match SplitAuthority(parts.authority)
          case None => None
          case Some(authority) =>
            var host := hosts.Normalize(authority.host);
            var port := if authority.port.Some? then authority.port.value else DefaultPort(scheme);
            if host.None? || !(1 <= port <= 65535) then None else Some(HttpUrl(scheme, host.value, port, parts.suffix))
  }

  /** What may follow the authority. */
  predicate Suffix(s: string) {
    AllVisible(s) && '#' !in s && (s == [] || s[0] in "/?#")
  }

  /** What a canonical URL is made of. */
  ghost predicate CanonicalUrl(hosts: Hosts, u: HttpUrl) {
    && (u.scheme == "http" || u.scheme == "https")
    && CanonicalHost(u.host) && hosts.parse(u.host.text) == Some(u.host)
    && 1 <= u.port <= 65535
    && Suffix(u.suffix)
  }

  lemma ShownPort(host: string, port: nat)
    ensures PortOf(host, Show(port)) == Some(Authority(host, Some(port)))
  {
    hide ToNat, Show;
    ShowToNat(port);
  }

  lemma BracketedSplits(text: string, tail: string, port: Option<nat>)
    requires ']' !in text
    requires tail == match port case None => [] case Some(p) => ":" + Show(p)
    ensures SplitAuthority("[" + text + "]" + tail) == Some(Authority(text, port))
  {
    hide Show, PortOf;
    var authority := "[" + text + "]" + tail;
    FirstOfAt("[" + text, "]" + tail, "]");
    assert authority == ("[" + text) + ("]" + tail);
    assert authority[1..|text| + 1] == text && authority[|text| + 2..] == tail;
    if port.Some? {
      assert tail[1..] == Show(port.value);
      ShownPort(text, port.value);
    }
  }

  lemma PlainSplits(text: string, tail: string, port: Option<nat>)
    requires text != [] && text[0] != '[' && ':' !in text
    requires tail == match port case None => [] case Some(p) => ":" + Show(p)
    ensures SplitAuthority(text + tail) == Some(Authority(text, port))
  {
    hide Show, PortOf;
    var authority := text + tail;
    FirstOfAt(text, tail, ":");
    if port.Some? {
      assert authority[..|text|] == text && authority[|text| + 1..] == Show(port.value);
      assert forall c | c in Show(port.value) :: Digit(c);
      ShownPort(text, port.value);
    } else {
      assert authority == text;
    }
  }

  lemma NetlocSplits(scheme: string, h: HostText, port: nat)
    requires CanonicalHost(h)
    ensures SplitAuthority(Netloc(scheme, h, port)) ==
            Some(Authority(h.text, if port == DefaultPort(scheme) then None else Some(port)))
  {
    hide Show, SplitAuthority, CanonicalHost;
    HostPlain(h);
    var serialized := SerializedHost(h);
    if port == DefaultPort(scheme) {
      assert serialized + [] == serialized;
      HostSplits(h, [], None);
    } else {
      HostSplits(h, ":" + Show(port), Some(port));
      assert serialized + (":" + Show(port)) == serialized + ":" + Show(port);
    }
  }

  lemma HostSplits(h: HostText, tail: string, port: Option<nat>)
    requires CanonicalHost(h) && tail == match port case None => [] case Some(p) => ":" + Show(p)
    ensures SplitAuthority(SerializedHost(h) + tail) == Some(Authority(h.text, port))
  {
    hide Show, SplitAuthority, CanonicalHost;
    HostPlain(h);
    if h.V6? {
      BracketedSplits(h.text, tail, port);
    } else {
      PlainSplits(h.text, tail, port);
    }
  }

  lemma HostPlain(h: HostText)
    requires CanonicalHost(h)
    ensures h.text != [] && h.text[0] != '[' && ']' !in h.text && '%' !in h.text && (!h.V6? ==> ':' !in h.text)
  {
    assert h.text[0] in h.text;
  }

  /** The characters of a serialized authority neither end it nor name a user. */
  lemma NetlocPlain(scheme: string, h: HostText, port: nat)
    requires CanonicalHost(h)
    ensures var n := Netloc(scheme, h, port); n != [] && AllVisible(n) && forall c | c in n :: c !in "/?#@"
  {
    hide Show;
    var shown := Show(port);
    assert forall c | c in shown :: Digit(c);
  }

  predicate Plain(netloc: string) {
    netloc != [] && AllVisible(netloc) && forall c | c in netloc :: c !in "/?#@"
  }

  lemma SchemeEnds(scheme: string, rest: string)
    requires scheme == "http" || scheme == "https"
    ensures var url := scheme + "://" + rest;
            FirstOf(url, ":") == |scheme| && url[|scheme|..] == "://" + rest && url[|scheme| + 3..] == rest &&
              url[..|scheme|] == scheme
  {
    hide FirstOf;
    assert scheme + "://" + rest == scheme + ("://" + rest);
    assert forall c | c in scheme :: c !in ":";
    FirstOfAt(scheme, "://" + rest, ":");
  }

  lemma AuthorityEnds(netloc: string, suffix: string)
    requires Plain(netloc) && Suffix(suffix)
    ensures var rest := netloc + suffix;
            FirstOf(rest, "/?#") == |netloc| && rest[|netloc|..] == suffix && rest[..|netloc|] == netloc
  {
    hide FirstOf;
    FirstOfAt(netloc, suffix, "/?#");
  }

  lemma PlainMatches(scheme: string, netloc: string, suffix: string)
    requires (scheme == "http" || scheme == "https") && Plain(netloc) && Suffix(suffix)
    ensures Match(scheme + "://" + netloc + suffix) == Some(Parts(scheme, netloc, suffix))
  {
    hide FirstOf, Plain;
    SchemeEnds(scheme, netloc + suffix);
    AuthorityEnds(netloc, suffix);
    assert scheme + "://" + netloc + suffix == scheme + "://" + (netloc + suffix);
  }

  lemma PlainVisible(scheme: string, netloc: string, suffix: string)
    requires (scheme == "http" || scheme == "https") && Plain(netloc) && Suffix(suffix)
    ensures AllVisible(scheme + "://" + netloc + suffix) && scheme + "://" + netloc + suffix != []
  {
    assert AllVisible(scheme) && AllVisible("://");
  }

  /** A canonical URL is also recognised when its port is written out. */
  lemma AuthorityNormalizes(hosts: Hosts, u: HttpUrl, netloc: string)
    requires CanonicalUrl(hosts, u) && Plain(netloc)
    requires SplitAuthority(netloc) == Some(Authority(u.host.text, Some(u.port)))
             || (SplitAuthority(netloc) == Some(Authority(u.host.text, None)) && u.port == DefaultPort(u.scheme))
    ensures Normalize(hosts, u.scheme + "://" + netloc + u.suffix) == Some(u)
  {
    PlainMatches(u.scheme, netloc, u.suffix);
    PlainVisible(u.scheme, netloc, u.suffix);
    LowerStays(u.scheme);
    HostPlain(u.host);
    hide SplitAuthority, Match, LowerAll, AllVisible, CanonicalHost;
  }

  /** A canonical text normalizes to what it is the text of. */
  lemma TextNormalizes(hosts: Hosts, u: HttpUrl)
    requires CanonicalUrl(hosts, u)
    ensures Normalize(hosts, Text(u)) == Some(u)
  {
    NetlocPlain(u.scheme, u.host, u.port);
    NetlocSplits(u.scheme, u.host, u.port);
    hide Netloc, SplitAuthority, Normalize, CanonicalHost;
    AuthorityNormalizes(hosts, u, Netloc(u.scheme, u.host, u.port));
  }

  lemma LowerStays(scheme: string)
    requires scheme == "http" || scheme == "https"
    ensures LowerAll(scheme) == scheme
  {
  }

  lemma NormalizeIsCanonical(hosts: Hosts, url: string)
    requires hosts.Lawful()
    ensures Normalize(hosts, url).Some? ==> CanonicalUrl(hosts, Normalize(hosts, url).value)
  {
    hide SplitAuthority, LowerAll, Match, Hosts.Lawful;
    if Normalize(hosts, url).Some? {
      var u := Normalize(hosts, url).value;
      SuffixOf(url);
      HostIsCanonical(hosts, SplitAuthority(Match(url).value.authority).value.host);
    }
  }

  lemma HostIsCanonical(hosts: Hosts, text: string)
    requires hosts.Lawful() && hosts.Normalize(text).Some?
    ensures var h := hosts.Normalize(text).value; CanonicalHost(h) && hosts.parse(h.text) == Some(h)
  {
    hide CanonicalHost;
  }

  lemma SuffixOf(url: string)
    requires AllVisible(url)
    ensures Match(url).Some? ==>
            Suffix(Match(url).value.suffix)
  {
    if Match(url).Some? {
      var rest := url[FirstOf(url, ":") + 3..];
      var end := FirstOf(rest, "/?#");
      assert forall c | c in rest[end..] :: c in url;
    }
  }

  /** `normalize_http_url` is idempotent: its value normalizes to itself, with default ports left out
      (section 6.2.3 of RFC 3986). */
  lemma NormalizeIdempotent(hosts: Hosts, url: string)
    requires hosts.Lawful()
    ensures Normalize(hosts, url).Some? ==> Normalize(hosts, Text(Normalize(hosts, url).value)) == Normalize(hosts, url)
  {
    hide Normalize;
    NormalizeIsCanonical(hosts, url);
    if Normalize(hosts, url).Some? {
      TextNormalizes(hosts, Normalize(hosts, url).value);
    }
  }

  /** Canonical texts identify URLs. */
  lemma TextInjective(hosts: Hosts, u: HttpUrl, v: HttpUrl)
    requires CanonicalUrl(hosts, u) && CanonicalUrl(hosts, v) && Text(u) == Text(v)
    ensures u == v
  {
    hide Normalize;
    TextNormalizes(hosts, u);
    TextNormalizes(hosts, v);
  }
}
