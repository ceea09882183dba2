/** Reconnaissance knowledge as asset intelligence sees it (domain/host.py, endpoint.py, technology.py). */
module Recon {
  import opened Prelude

  /** The empty string, which precedes every other. */
  const EMPTY: Name := 0

  datatype Host = Host(hostname: Option<Name>, addresses: seq<Name>, details: nat)

  datatype Endpoint = Endpoint(host: Name, details: nat)

  datatype Technology = Technology(
    name: Name, category: Name, version: Option<Name>, vendor: Option<Name>,
    source: Option<Name>, confidence: Option<int>, details: nat)

  /** The string functions the capability calls: alias normalisation, the host of a source URL, and
      whether an alias is an IP address.  They are arbitrary here. */
  datatype Naming = Naming(normalize: Name -> Name, urlHost: Name -> Option<Name>, isAddress: Name -> bool,
                           text: Name -> string) {
    /** `text` writes a name out as the string it stands for. */
    ghost predicate Faithful() {
      forall a, b :: text(a) == text(b) ==> a == b
    }

    function HostAliases(host: Host): set<Name> {
      (set a | a in host.addresses :: normalize(a)) +
      if host.hostname.Some? && host.hostname.value != EMPTY then {normalize(host.hostname.value)} else {}
    }

    function NonEmpty(alias: Name): Option<Name> {
      if alias == EMPTY then None else Some(alias)
    }

    function EndpointAlias(e: Endpoint): Option<Name> {
      NonEmpty(normalize(e.host))
    }

    /** `_source_host`, where an empty alias counts as none. */
    function SourceAlias(t: Technology): Option<Name> {
      if t.source.None? || t.source.value == EMPTY then None
      else match urlHost(t.source.value)
        case None => None
        case Some(host) => if host == EMPTY then None else NonEmpty(normalize(host))
    }

    /** `min(aliases, key=_alias_sort_key)`: names before addresses, then string order. */
    predicate Precedes(a: Name, b: Name) {
      (!isAddress(a) && isAddress(b)) || (isAddress(a) == isAddress(b) && a <= b)
    }
  }
}
