/** Which texts are HTTP URLs and what they mean, as a grammar (domain/http_probe.py:12-109). */
module UrlGrammar {
  import opened Prelude
  import opened Strings
  import opened Urls

  /** The same letters, in lower case where they are ASCII capitals. */
  predicate Lowered(s: string, t: string) {
    |s| == |t| && forall i | 0 <= i < |s| ::
      if 'A' <= s[i] <= 'Z' then t[i] as int == s[i] as int + 32 else t[i] == s[i]
  }

  /** The part of an authority after the host: nothing, or a colon and a decimal number. */
  ghost predicate PortTail(scheme: string, tail: string, port: nat) {
    || (tail == "" && port == if scheme == "https" then 443 else 80)
    || (exists digits :: tail == ":" + digits && digits != "" && AllDigits(digits) && ToNat(digits) == port)
  }

  /** A bracketed host, or one without colon, and a port. */
  ghost predicate AuthorityReads(scheme: string, authority: string, host: string, port: nat) {
    exists tail ::
      && PortTail(scheme, tail, port)
      && ((authority == "[" + host + "]" + tail && ']' !in host) ||
          (authority == host + tail && ':' !in host && (authority == "" || authority[0] != '[')))
  }

  /** `scheme://authority suffix`, where the suffix begins with the first slash or question mark. */
  ghost predicate Reads(hosts: Hosts, url: string, u: HttpUrl, scheme: string, authority: string, host: string) {
    && url == scheme + "://" + authority + u.suffix
    && (forall c | c in url :: c > ' ' && c != 127 as char) && '#' !in authority + u.suffix
    && Lowered(scheme, u.scheme) && (u.scheme == "http" || u.scheme == "https")
    && authority != "" && (forall c | c in authority :: c != '/' && c != '?' && c != '@')
    && (u.suffix == "" || u.suffix[0] == '/' || u.suffix[0] == '?')
    && AuthorityReads(u.scheme, authority, host, u.port) && 1 <= u.port <= 65535
    && '%' !in host && hosts.parse(host) == Some(u.host)
  }

  lemma LoweredIs(s: string, t: string)
    ensures Lowered(s, t) <==> t == LowerAll(s)
  {
  }

  lemma {:induction false} LeadingZeros(zeros: string, n: nat)
    requires forall i | 0 <= i < |zeros| :: zeros[i] == '0'
    ensures AllDigits(zeros + Show(n)) && ToNat(zeros + Show(n)) == n
    decreases n
  {
    var s := zeros + Show(n);
    if n < 10 {
      assert s[..|s| - 1] == zeros;
      OnlyZeros(zeros);
    } else {
      LeadingZeros(zeros, n / 10);
      assert s[..|s| - 1] == zeros + Show(n / 10);
    }
  }

  lemma {:induction false} OnlyZeros(zeros: string)
    requires forall i | 0 <= i < |zeros| :: zeros[i] == '0'
    ensures AllDigits(zeros) && ToNat(zeros) == 0
  {
    if zeros != [] {
      OnlyZeros(zeros[..|zeros| - 1]);
    }
  }

  lemma AuthorityExactly(scheme: string, authority: string, host: string, port: nat)
    ensures AuthorityReads(scheme, authority, host, port) <==>
            var a := SplitAuthority(authority);
            a.Some? && a.value.host == host && port == if a.value.port.Some? then a.value.port.value
              else DefaultPort(scheme)
  {
    if AuthorityReads(scheme, authority, host, port) {
      var tail :|
        && PortTail(scheme, tail, port)
        && ((authority == "[" + host + "]" + tail && ']' !in host) ||
            (authority == host + tail && ':' !in host && (authority == "" || authority[0] != '[')));
      ReadSplits(scheme, authority, host, port, tail);
    }
    var a := SplitAuthority(authority);
    if a.Some? && a.value.host == host && port == if a.value.port.Some? then a.value.port.value
       else DefaultPort(scheme) {
      SplitReads(scheme, authority, host, port);
    }
  }

  lemma ReadSplits(scheme: string, authority: string, host: string, port: nat, tail: string)
    requires PortTail(scheme, tail, port)
    requires (authority == "[" + host + "]" + tail && ']' !in host) ||
             (authority == host + tail && ':' !in host && (authority == "" || authority[0] != '['))
    ensures var a := SplitAuthority(authority);
            a.Some? && a.value.host == host && port == if a.value.port.Some? then a.value.port.value
              else DefaultPort(scheme)
  {
    hide ToNat;
    if authority == "[" + host + "]" + tail && ']' !in host {
      assert authority == ("[" + host) + ("]" + tail);
      FirstOfAt("[" + host, "]" + tail, "]");
      assert authority[1..|host| + 1] == host && authority[|host| + 2..] == tail;
    } else {
      FirstOfAt(host, tail, ":");
      assert authority[..|host|] == host && authority[|host|..] == tail;
    }
    if tail != "" {
      var digits :| tail == ":" + digits && digits != "" && AllDigits(digits) && ToNat(digits) == port;
      assert tail[1..] == digits;
      assert ':' !in digits;
    }
  }

  lemma SplitReads(scheme: string, authority: string, host: string, port: nat)
    requires var a := SplitAuthority(authority);
             a.Some? && a.value.host == host && port == if a.value.port.Some? then a.value.port.value
               else DefaultPort(scheme)
    ensures AuthorityReads(scheme, authority, host, port)
  {
    hide SplitAuthority, PortTail;
    if authority != "" && authority[0] == '[' {
      BracketedReads(scheme, authority, host, port);
    } else {
      PlainReads(scheme, authority, host, port);
    }
  }

  lemma TailReads(scheme: string, host: string, tail: string, a: Authority, port: nat)
    requires if tail == "" then a == Authority(host, None) else tail[0] == ':' && PortOf(host, tail[1..]) == Some(a)
    requires port == if a.port.Some? then a.port.value else DefaultPort(scheme)
    ensures a.host == host && PortTail(scheme, tail, port)
  {
    hide ToNat;
    if tail != "" {
      assert tail == ":" + tail[1..];
    }
  }

  lemma BracketedReads(scheme: string, authority: string, host: string, port: nat)
    requires authority != "" && authority[0] == '['
    requires var a := SplitAuthority(authority);
             a.Some? && a.value.host == host && port == if a.value.port.Some? then a.value.port.value
               else DefaultPort(scheme)
    ensures AuthorityReads(scheme, authority, host, port)
  {
    var closing := FirstOf(authority, "]");
    assert authority[0] !in "]";
    hide FirstOf, PortOf, PortTail;
    var text, tail := authority[1..closing], authority[closing + 1..];
    TailReads(scheme, text, tail, SplitAuthority(authority).value, port);
    assert authority == "[" + host + "]" + tail;
    assert ']' !in host;
  }

  lemma PlainReads(scheme: string, authority: string, host: string, port: nat)
    requires authority == "" || authority[0] != '['
    requires var a := SplitAuthority(authority);
             a.Some? && a.value.host == host && port == if a.value.port.Some? then a.value.port.value
               else DefaultPort(scheme)
    ensures AuthorityReads(scheme, authority, host, port)
  {
    hide FirstOf, PortOf, PortTail;
    var colon := FirstOf(authority, ":");
    var text, tail := authority[..colon], authority[colon..];
    assert text == authority || tail[1..] == authority[colon + 1..];
    TailReads(scheme, text, tail, SplitAuthority(authority).value, port);
    assert authority == host + tail;
    assert ':' !in host;
  }

  lemma SchemePlain(scheme: string, t: string)
    requires Lowered(scheme, t) && (t == "http" || t == "https")
    ensures ':' !in scheme
  {
    forall i | 0 <= i < |scheme| ensures scheme[i] != ':' {
      assert t[i] in "https";
    }
  }

  /** Where the pattern cuts a URL whose parts are given. */
  lemma PartsMatch(scheme: string, authority: string, suffix: string)
    requires ':' !in scheme && (forall c | c in authority :: c != '/' && c != '?') && '#' !in authority + suffix
    requires suffix == "" || suffix[0] == '/' || suffix[0] == '?'
    ensures Match(scheme + "://" + authority + suffix) == Some(Parts(scheme, authority, suffix))
  {
    hide FirstOf;
    var url, rest := scheme + "://" + authority + suffix, authority + suffix;
    assert url == scheme + ("://" + rest);
    FirstOfAt(scheme, "://" + rest, ":");
    assert url[|scheme|..] == "://" + rest && url[|scheme| + 3..] == rest && url[..|scheme|] == scheme;
    assert forall c | c in authority :: c in authority + suffix;
    FirstOfAt(authority, suffix, "/?#");
    assert rest[..|authority|] == authority && rest[|authority|..] == suffix;
    assert forall c | c in suffix :: c in authority + suffix;
  }

  /** What the pattern has cut. */
  lemma MatchedParts(url: string)
    requires Match(url).Some?
    ensures var p := Match(url).value;
            && url == p.scheme + "://" + p.authority + p.suffix && '#' !in p.authority + p.suffix
            && (forall c | c in p.authority :: c != '/' && c != '?')
            && (p.suffix == "" || p.suffix[0] == '/' || p.suffix[0] == '?')
  {
    hide FirstOf;
    var colon := FirstOf(url, ":");
    var rest := url[colon + 3..];
    var end := FirstOf(rest, "/?#");
    assert url == url[..colon] + "://" + rest;
    CutAt(rest, end);
    hide StartsWith;
    assert url == url[..colon] + "://" + rest[..end] + rest[end..];
  }

  lemma CutAt(rest: string, end: nat)
    requires end == FirstOf(rest, "/?#") && '#' !in rest[end..]
    ensures rest == rest[..end] + rest[end..] && '#' !in rest[..end] + rest[end..]
    ensures forall c | c in rest[..end] :: c != '/' && c != '?'
    ensures rest[end..] == "" || rest[end..][0] == '/' || rest[end..][0] == '?'
  {
    hide FirstOf;
    assert forall c | c in rest[..end] :: c !in "/?#";
    if rest[end..] != "" {
      assert rest[end..][0] == rest[end] && rest[end] in rest[end..];
    }
  }

  /** A text normalizes to a URL exactly when it reads as that URL: of scheme HTTP in any case, a host that is
      recognised,
      a port in range, written out or the default, and a path and query kept as they are; no user, no fragment, no
      blank. */
  lemma ReadsExactly(hosts: Hosts, url: string, u: HttpUrl)
    ensures Normalize(hosts, url) == Some(u) <==>
            exists scheme, authority, host :: Reads(hosts, url, u, scheme, authority, host)
  {
    if scheme, authority, host :| Reads(hosts, url, u, scheme, authority, host) {
      ReadNormalizes(hosts, url, u, scheme, authority, host);
    }
    if Normalize(hosts, url) == Some(u) {
      NormalizedReads(hosts, url, u);
    }
  }

  lemma ReadNormalizes(hosts: Hosts, url: string, u: HttpUrl, scheme: string, authority: string, host: string)
    requires Reads(hosts, url, u, scheme, authority, host)
    ensures Normalize(hosts, url) == Some(u)
  {
    SchemePlain(scheme, u.scheme);
    LoweredIs(scheme, u.scheme);
    PartsMatch(scheme, authority, u.suffix);
    AuthorityExactly(u.scheme, authority, host, u.port);
    hide Match, SplitAuthority, AuthorityReads, LowerAll, Lowered;
    assert AllVisible(url) && '@' !in authority;
  }

  lemma NormalizedReads(hosts: Hosts, url: string, u: HttpUrl)
    requires Normalize(hosts, url) == Some(u)
    ensures exists scheme, authority, host :: Reads(hosts, url, u, scheme, authority, host)
  {
    var parts := Match(url).value;
    var host := SplitAuthority(parts.authority).value.host;
    MatchedParts(url);
    LoweredIs(parts.scheme, u.scheme);
    AuthorityExactly(u.scheme, parts.authority, host, u.port);
    hide Match, SplitAuthority, AuthorityReads, LowerAll, Lowered;
    assert Reads(hosts, url, u, parts.scheme, parts.authority, host);
  }

  /** Numbers are shown without leading zeros. */
  lemma {:induction false} ShownPlainly(n: nat)
    ensures |Show(n)| > 1 ==> Show(n)[0] != '0'
    ensures n > 0 ==> Show(n) != "0"
  {
    if n >= 10 {
      ShownPlainly(n / 10);
      var front := Show(n / 10);
      assert Show(n)[0] == front[0] && (|front| == 1 ==> front == [front[0]]);
    } else {
      assert Show(n) == [('0' as int + n) as char];
    }
  }
}
