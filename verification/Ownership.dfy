/** Which asset owns what, said of the given hosts, endpoints, subdomains and technologies alone
    (capabilities/asset_intelligence.py:109-221). */
module Ownership {
  import opened Prelude
  import opened Recon
  import opened Linkage
  import opened Assets
  import opened AssetIntelligence

  /** A host goes by its normalized addresses and its normalized hostname, unless that is empty as given. */
  ghost predicate NamesHost(naming: Naming, x: Host, a: Name) {
    || (exists b | b in x.addresses :: a == naming.normalize(b))
    || (x.hostname.Some? && x.hostname.value != EMPTY && a == naming.normalize(x.hostname.value))
  }

  ghost predicate NamesEndpoint(naming: Naming, e: Endpoint, a: Name) {
    a == naming.normalize(e.host) && a != EMPTY
  }

  ghost predicate NamesSubdomain(naming: Naming, s: Name, a: Name) {
    a == naming.normalize(s) && a != EMPTY
  }

  /** The normalized host of the source URL. */
  ghost predicate NamesSource(naming: Naming, t: Technology, a: Name) {
    && t.source.Some? && t.source.value != EMPTY
    && naming.urlHost(t.source.value).Some? && naming.urlHost(t.source.value).value != EMPTY
    && a == naming.normalize(naming.urlHost(t.source.value).value) && a != EMPTY
  }

  /** The technology names a host to belong to. */
  ghost predicate Placed(naming: Naming, t: Technology) {
    exists a: Name :: NamesSource(naming, t, a)
  }

  lemma HostNames(naming: Naming, x: Host)
    ensures forall a :: a in naming.HostAliases(x) <==> NamesHost(naming, x, a)
    ensures naming.HostAliases(x) == {} <==> x.addresses == [] && (x.hostname.None? || x.hostname.value == EMPTY)
  {
    if x.addresses != [] {
      assert naming.normalize(x.addresses[0]) in naming.HostAliases(x);
    }
  }

  lemma EndpointNames(naming: Naming, e: Endpoint)
    ensures forall a: Name :: naming.EndpointAlias(e) == Some(a) <==> NamesEndpoint(naming, e, a)
  {
  }

  lemma SourceNames(naming: Naming, t: Technology)
    ensures forall a: Name :: naming.SourceAlias(t) == Some(a) <==> NamesSource(naming, t, a)
  {
  }

  /** Every host that goes by some name is in exactly one asset, which lists every name the host goes by; whatever
      lists one of them is that asset. */
  lemma HostHeld(naming: Naming, q: Inputs, assets: seq<Asset>, x: Host, a: Name)
    requires Describes(naming, q, assets) && x in q.hosts && NamesHost(naming, x, a)
    ensures exists asset | asset in assets ::
              && x in asset.hosts
              && (forall b | NamesHost(naming, x, b) :: b in asset.aliases)
              && forall other | other in assets && (x in other.hosts || a in other.aliases) :: other == asset
  {
    hide Describes;
    var asset := HostOwner(naming, q, assets, x, a);
    NamesOfHost(naming, q, assets, asset, x);
    hide NamesHost;
    forall other | other in assets && a in other.aliases ensures other == asset {
      OneOwner(naming, q, assets, asset, other, a);
    }
  }

  lemma HostOwner(naming: Naming, q: Inputs, assets: seq<Asset>, x: Host, a: Name) returns (asset: Asset)
    requires Describes(naming, q, assets) && x in q.hosts && NamesHost(naming, x, a)
    ensures asset in assets && x in asset.hosts && forall other | other in assets && x in other.hosts :: other == asset
  {
    HostNames(naming, x);
    hide Describes, NamesHost, Naming.HostAliases;
    EachHostInOneAsset(naming, q, assets, x);
    asset :| asset in assets && x in asset.hosts && forall other | other in assets && x in other.hosts ::
      other == asset;
  }

  lemma NamesOfHost(naming: Naming, q: Inputs, assets: seq<Asset>, asset: Asset, x: Host)
    requires Describes(naming, q, assets) && asset in assets && x in asset.hosts
    ensures x in q.hosts && forall b | NamesHost(naming, x, b) :: b in asset.aliases
  {
    HostNames(naming, x);
    HostSetAdded(naming, q, assets, asset, x);
    hide NamesHost, IsComponent, AssetOf, Inputs.AddedSets, Naming.HostAliases;
    var c := HostAlias(naming, q, asset, x);
    hide Reports;
    forall b | NamesHost(naming, x, b) ensures b in asset.aliases {
      AddedTogether(naming, q, asset, naming.HostAliases(x), c, b);
    }
  }

  lemma HostSetAdded(naming: Naming, q: Inputs, assets: seq<Asset>, asset: Asset, x: Host)
    requires Describes(naming, q, assets) && asset in assets && x in asset.hosts
    ensures x in q.hosts && naming.HostAliases(x) in q.AddedSets(naming)
  {
    hide IsComponent, AssetOf, Naming.HostAliases, HostMeets, EndpointMeets;
    var i :| 0 <= i < |q.hosts| && q.hosts[i] == x;
    assert q.HostSets(naming)[i] == naming.HostAliases(x);
  }

  lemma OneOwner(naming: Naming, q: Inputs, assets: seq<Asset>, x: Asset, y: Asset, a: Name)
    requires Describes(naming, q, assets) && x in assets && y in assets && a in x.aliases && a in y.aliases
    ensures x == y
  {
    hide Reports;
    OneAssetPerAlias(naming, q, x, y, a);
  }

  /** Two hosts that go by one name, be it an address or a hostname, are in one asset. */
  lemma SharedName(naming: Naming, q: Inputs, assets: seq<Asset>, asset: Asset, x: Host, y: Host, a: Name)
    requires Describes(naming, q, assets) && asset in assets && x in asset.hosts && y in q.hosts
    requires NamesHost(naming, x, a) && NamesHost(naming, y, a)
    ensures y in asset.hosts
  {
    hide Describes, NamesHost;
    NamesOfHost(naming, q, assets, asset, x);
    HostHeld(naming, q, assets, y, a);
  }

  /** An endpoint whose host has a name is in exactly one asset, the one that lists the name; any other is in none. */
  lemma EndpointHeld(naming: Naming, q: Inputs, assets: seq<Asset>, e: Endpoint)
    requires Describes(naming, q, assets) && e in q.endpoints
    ensures var a := naming.normalize(e.host);
            if a == EMPTY then forall asset | asset in assets :: e !in asset.endpoints
            else exists asset | asset in assets ::
                   a in asset.aliases && forall other | other in assets :: e in other.endpoints <==> other == asset
  {
    hide Describes;
    var a := naming.normalize(e.host);
    if a == EMPTY {
      forall asset | asset in assets ensures e !in asset.endpoints {
        if e in asset.endpoints {
          EndpointsNamed(naming, q, assets, asset, e);
        }
      }
    } else {
      var asset := EndpointOwner(naming, q, assets, e);
      EndpointsNamed(naming, q, assets, asset, e);
    }
  }

  lemma EndpointOwner(naming: Naming, q: Inputs, assets: seq<Asset>, e: Endpoint) returns (asset: Asset)
    requires Describes(naming, q, assets) && e in q.endpoints && naming.normalize(e.host) != EMPTY
    ensures asset in assets && e in asset.endpoints
    ensures forall other | other in assets && e in other.endpoints :: other == asset
  {
    EndpointNames(naming, e);
    hide Describes;
    EachEndpointInOneAsset(naming, q, assets, e);
    asset :| asset in assets && e in asset.endpoints && forall other | other in assets && e in other.endpoints ::
      other == asset;
  }

  lemma EndpointsNamed(naming: Naming, q: Inputs, assets: seq<Asset>, asset: Asset, e: Endpoint)
    requires Describes(naming, q, assets) && asset in assets && e in asset.endpoints
    ensures e in q.endpoints && NamesEndpoint(naming, e, naming.normalize(e.host)) &&
            naming.normalize(e.host) in asset.aliases
  {
    hide IsComponent, HostMeets, AssetOf, Inputs.AddedSets;
    assert EndpointMeets(naming, e, Elements(asset.aliases));
  }

  /** The name of a subdomain is listed by some asset. */
  lemma SubdomainHeld(naming: Naming, q: Inputs, assets: seq<Asset>, s: Name)
    requires Describes(naming, q, assets) && s in q.subdomains && naming.normalize(s) != EMPTY
    ensures exists asset | asset in assets :: naming.normalize(s) in asset.aliases
  {
    hide IsComponent, AssetOf, HostMeets, EndpointMeets, Naming.HostAliases, Singletons;
    var i :| 0 <= i < |q.subdomains| && q.subdomains[i] == s;
    SingletonAdded(q.SubdomainAliases(naming), i);
    assert {naming.normalize(s)} in q.AddedSets(naming) && naming.normalize(s) in {naming.normalize(s)};
  }

  /** A technology whose source has a host is associated with the asset that lists the host, and with no other; any
      other technology with none. */
  lemma TechnologyAssociated(naming: Naming, q: Inputs, assets: seq<Asset>, associations: set<Association>,
                             t: Technology)
    requires Describes(naming, q, assets) && Associates(naming, q.technologies, assets, associations) &&
             t in q.technologies
    ensures Placed(naming, t) ==>
            exists asset | asset in assets ::
              && NamesSource(naming, t, SourceHost(naming, t)) && SourceHost(naming, t) in asset.aliases
              && forall id :: Association(id, t) in associations <==> id == asset.identifier
    ensures !Placed(naming, t) ==> forall id :: Association(id, t) !in associations
  {
    SourceNames(naming, t);
    hide Describes, Naming.SourceAlias;
    if a :| NamesSource(naming, t, a) {
      var asset :| asset in assets && a in asset.aliases && Association(asset.identifier, t) in associations;
      forall id | Association(id, t) in associations ensures id == asset.identifier {
        var other :| other in assets && a in other.aliases && id == other.identifier;
        OneOwner(naming, q, assets, asset, other, a);
      }
    }
  }

  /** The normalized host of a source URL that has one. */
  function SourceHost(naming: Naming, t: Technology): Name {
    if t.source.Some? && naming.urlHost(t.source.value).Some? then
       naming.normalize(naming.urlHost(t.source.value).value) else EMPTY
  }

  /** The name is that of a given host, endpoint, subdomain or source. */
  ghost predicate Given(naming: Naming, q: Inputs, a: Name) {
    || (exists x | x in q.hosts :: NamesHost(naming, x, a))
    || (exists e | e in q.endpoints :: NamesEndpoint(naming, e, a))
    || (exists s | s in q.subdomains :: NamesSubdomain(naming, s, a))
    || (exists t | t in q.technologies :: NamesSource(naming, t, a))
  }

  /** Two names of one host. */
  ghost predicate OneHost(naming: Naming, q: Inputs, a: Name, b: Name) {
    exists x | x in q.hosts :: NamesHost(naming, x, a) && NamesHost(naming, x, b)
  }

  lemma AddedBy(naming: Naming, q: Inputs, s: set<Name>, a: Name, b: Name)
    requires s in q.AddedSets(naming) && a in s && b in s
    ensures Given(naming, q, a) && (a == b || OneHost(naming, q, a, b))
  {
    hide NamesHost, NamesEndpoint, NamesSubdomain, NamesSource, Naming.HostAliases, Naming.EndpointAlias,
      Naming.SourceAlias, Singletons;
    if s in q.HostSets(naming) {
      var i :| 0 <= i < |q.hosts| && q.HostSets(naming)[i] == s;
      HostNames(naming, q.hosts[i]);
      assert q.hosts[i] in q.hosts;
    } else if s in Singletons(q.SubdomainAliases(naming)) {
      SingletonsFrom(q.SubdomainAliases(naming), s);
      var i :| 0 <= i < |q.subdomains| && q.SubdomainAliases(naming)[i].Some? &&
        s == {q.SubdomainAliases(naming)[i].value};
      assert NamesSubdomain(naming, q.subdomains[i], a) by { SubdomainNames(naming, q.subdomains[i]); }
      assert q.subdomains[i] in q.subdomains;
    } else if s in Singletons(q.EndpointAliases(naming)) {
      SingletonsFrom(q.EndpointAliases(naming), s);
      var i :| 0 <= i < |q.endpoints| && q.EndpointAliases(naming)[i].Some? &&
        s == {q.EndpointAliases(naming)[i].value};
      EndpointNames(naming, q.endpoints[i]);
      assert q.endpoints[i] in q.endpoints;
    } else {
      SingletonsFrom(q.SourceAliases(naming), s);
      var i :| 0 <= i < |q.technologies| && q.SourceAliases(naming)[i].Some? && s == {q.SourceAliases(naming)[i].value};
      SourceNames(naming, q.technologies[i]);
      assert q.technologies[i] in q.technologies;
    }
  }

  lemma SubdomainNames(naming: Naming, s: Name)
    ensures naming.NonEmpty(naming.normalize(s)).Some? ==>
            NamesSubdomain(naming, s, naming.NonEmpty(naming.normalize(s)).value)
  {
  }

  /** A chain of hosts from one name to another: each shares a name with the next. */
  ghost predicate HostChain(naming: Naming, q: Inputs, p: seq<Name>) {
    p != [] && forall i | 0 <= i < |p| - 1 :: p[i] == p[i + 1] || OneHost(naming, q, p[i], p[i + 1])
  }

  /** An asset lists only names it was given, and two names of one asset are connected by hosts: nothing else merges. */
  lemma OnlyHostsMerge(naming: Naming, q: Inputs, assets: seq<Asset>, asset: Asset, a: Name, b: Name)
    requires Describes(naming, q, assets) && asset in assets && a in asset.aliases && b in asset.aliases
    ensures Given(naming, q, a)
    ensures exists p :: HostChain(naming, q, p) && p[0] == a && p[|p| - 1] == b
  {
    hide Given, OneHost, Inputs.AddedSets, Describes, Adjacent;
    var h := q.AddedSets(naming);
    ListedAreLinked(naming, q, assets, asset, a, b);
    var p :| Chain(h, p) && p[0] == a && p[|p| - 1] == b;
    forall i | 0 <= i < |p| - 1 ensures p[i] == p[i + 1] || OneHost(naming, q, p[i], p[i + 1]) {
      assert Adjacent(h, p[i], p[i + 1]);
      var s := AddedWith(h, p[i], p[i + 1]);
      AddedBy(naming, q, s, p[i], p[i + 1]);
    }
    assert HostChain(naming, q, p);
    LinkedIsAdded(h, a, b);
    var s :| s in h && a in s;
    AddedBy(naming, q, s, a, a);
  }

  lemma AddedWith(h: History, a: Name, b: Name) returns (s: set<Name>)
    requires Adjacent(h, a, b)
    ensures s in h && a in s && b in s
  {
    s :| s in h && a in s && b in s;
  }

  lemma ListedAreLinked(naming: Naming, q: Inputs, assets: seq<Asset>, asset: Asset, a: Name, b: Name)
    requires Describes(naming, q, assets) && asset in assets && a in asset.aliases && b in asset.aliases
    ensures Linked(q.AddedSets(naming), a, b)
  {
    hide Linked, Inputs.AddedSets, HostMeets, EndpointMeets, AssetOf;
    assert Reports(naming, q, asset);
  }

  /** How an asset is identified, named, typed and listed. */
  lemma AssetDescribed(naming: Naming, q: Inputs, assets: seq<Asset>, asset: Asset)
    requires Describes(naming, q, assets) && asset in assets
    ensures asset.identifier == "asset:" + naming.text(asset.name) && asset.name in asset.aliases
    ensures forall a | a in asset.aliases :: naming.isAddress(asset.name) ==> naming.isAddress(a)
    ensures forall a | a in asset.aliases && naming.isAddress(a) == naming.isAddress(asset.name) :: asset.name <= a
    ensures forall i, j | 0 <= i < j < |asset.aliases| :: asset.aliases[i] < asset.aliases[j]
    ensures asset.isHost <==> asset.hosts != {} || exists a | a in asset.aliases :: naming.isAddress(a)
    ensures forall x | x in asset.hosts :: x in q.hosts
  {
    hide IsComponent, HostMeets, EndpointMeets, Inputs.AddedSets;
    assert Reports(naming, q, asset);
  }

  /** How many technologies are counted as unassociated: those whose source has no host. */
  lemma {:induction false} UnplacedCounted(naming: Naming, technologies: seq<Technology>)
    ensures Unplaced(naming, technologies) ==
            |set i | 0 <= i < |technologies| && !Placed(naming, technologies[i])|
  {
    var without := set i | 0 <= i < |technologies| && !Placed(naming, technologies[i]);
    if technologies == [] {
      assert without == {};
    } else {
      var n := |technologies| - 1;
      UnplacedCounted(naming, technologies[..n]);
      var front := set i | 0 <= i < |technologies[..n]| && !Placed(naming, technologies[..n][i]);
      SourceNames(naming, technologies[n]);
      assert Placed(naming, technologies[n]) <==> naming.SourceAlias(technologies[n]).Some?;
      hide NamesSource, Naming.SourceAlias, Placed;
      assert without == front + (if Placed(naming, technologies[n]) then {} else {n});
    }
  }
}
