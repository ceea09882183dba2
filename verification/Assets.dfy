/** Assets as values: what the asset read model says about the inputs, and why nothing else fits
    (capabilities/asset_intelligence.py, `_build_identity_index`, `_build_assets`). */
module Assets {
  import opened Prelude
  import opened Ordering
  import opened Recon
  import opened Linkage

  datatype Asset = Asset(identifier: string, isHost: bool, name: Name, aliases: seq<Name>, hosts: set<Host>,
                         endpoints: set<Endpoint>)

  lemma LeastAliasExists(naming: Naming, aliases: set<Name>)
    requires aliases != {}
    ensures exists m :: m in aliases && forall x | x in aliases :: naming.Precedes(m, x)
  {
    var names := set a | a in aliases && !naming.isAddress(a);
    var m := if names != {} then Least(names) else Least(aliases);
    forall x | x in aliases ensures naming.Precedes(m, x) {
      assert naming.isAddress(x) || x in names;
    }
  }

  /** The canonical alias: the least name, or the least address when there are only addresses. */
  function Canonical(naming: Naming, aliases: set<Name>): (m: Name)
    requires aliases != {}
    ensures m in aliases && forall x | x in aliases :: naming.Precedes(m, x)
  {
    LeastAliasExists(naming, aliases);
    var m :| m in aliases && forall x | x in aliases :: naming.Precedes(m, x);
    m
  }

  /** The asset made from one builder's contents. */
  function AssetOf(naming: Naming, aliases: set<Name>, hosts: set<Host>, endpoints: set<Endpoint>): Asset
    requires aliases != {}
  {
    var canonical := Canonical(naming, aliases);
    Asset("asset:" + naming.text(canonical), hosts != {} || exists a | a in aliases :: naming.isAddress(a), canonical,
          Sorted(aliases), hosts, endpoints)
  }

  /** The singleton sets added for optional aliases, in order. */
  function Singletons(aliases: seq<Option<Name>>): History {
    if aliases == [] then []
    else
      var last := aliases[|aliases| - 1];
      Singletons(aliases[..|aliases| - 1]) + if last.Some? then [{last.value}] else []
  }

  datatype Inputs = Inputs(subdomains: seq<Name>, hosts: seq<Host>, endpoints: seq<Endpoint>,
                           technologies: seq<Technology>) {
    function SubdomainAliases(naming: Naming): seq<Option<Name>> {
      seq(|subdomains|, i requires 0 <= i < |subdomains| => naming.NonEmpty(naming.normalize(subdomains[i])))
    }

    function EndpointAliases(naming: Naming): seq<Option<Name>> {
      seq(|endpoints|, i requires 0 <= i < |endpoints| => naming.EndpointAlias(endpoints[i]))
    }

    function SourceAliases(naming: Naming): seq<Option<Name>> {
      seq(|technologies|, i requires 0 <= i < |technologies| => naming.SourceAlias(technologies[i]))
    }

    function HostSets(naming: Naming): History {
      seq(|hosts|, i requires 0 <= i < |hosts| => naming.HostAliases(hosts[i]))
    }

    /** Every alias set the capability adds to its index. */
    function AddedSets(naming: Naming): History {
      HostSets(naming) + Singletons(SubdomainAliases(naming)) + Singletons(EndpointAliases(naming)) +
        Singletons(SourceAliases(naming))
    }

    ghost predicate SameKnowledge(other: Inputs) {
      && (forall x :: x in subdomains <==> x in other.subdomains)
      && (forall x :: x in hosts <==> x in other.hosts)
      && (forall x :: x in endpoints <==> x in other.endpoints)
      && (forall x :: x in technologies <==> x in other.technologies)
    }
  }

  ghost predicate IsComponent(h: History, aliases: seq<Name>) {
    && aliases != []
    && forall a | a in aliases :: forall c :: c in aliases <==> Linked(h, a, c)
  }

  ghost predicate HostMeets(naming: Naming, x: Host, aliases: set<Name>) {
    exists a :: a in naming.HostAliases(x) && a in aliases
  }

  ghost predicate EndpointMeets(naming: Naming, e: Endpoint, aliases: set<Name>) {
    naming.EndpointAlias(e).Some? && naming.EndpointAlias(e).value in aliases
  }

  /** One asset reports exactly one component of the added alias sets, with the hosts and endpoints
      whose aliases are in it. */
  ghost predicate Reports(naming: Naming, q: Inputs, asset: Asset) {
    && IsComponent(q.AddedSets(naming), asset.aliases)
    && (forall x :: x in asset.hosts <==> x in q.hosts && HostMeets(naming, x, Elements(asset.aliases)))
    && (forall e :: e in asset.endpoints <==> e in q.endpoints && EndpointMeets(naming, e, Elements(asset.aliases)))
    && Elements(asset.aliases) != {}
    && asset == AssetOf(naming, Elements(asset.aliases), asset.hosts, asset.endpoints)
  }

  /** The assets are the components, each once, ordered by canonical name. */
  ghost predicate Describes(naming: Naming, q: Inputs, assets: seq<Asset>) {
    && (forall i, j | 0 <= i < j < |assets| :: assets[i].name < assets[j].name)
    && (forall asset | asset in assets :: Reports(naming, q, asset))
    && (forall s, a | s in q.AddedSets(naming) && a in s :: exists asset | asset in assets :: a in asset.aliases)
  }

  lemma LinkedIsAdded(h: History, a: Name, c: Name)
    requires Linked(h, a, c)
    ensures exists s :: s in h && a in s
  {
    var p :| Chain(h, p) && p[0] == a && p[|p| - 1] == c;
    assert Adjacent(h, p[0], p[0 + 1]);
  }

  /** An alias belongs to one asset only. */
  lemma OneAssetPerAlias(naming: Naming, q: Inputs, x: Asset, y: Asset, a: Name)
    requires Reports(naming, q, x) && Reports(naming, q, y) && a in x.aliases && a in y.aliases
    ensures x == y
  {
    hide Linked, Inputs.AddedSets, Naming.HostAliases, AssetOf, Naming.EndpointAlias;
    assert forall c :: c in x.aliases <==> c in y.aliases;
    assert Elements(x.aliases) == Elements(y.aliases);
    assert x.hosts == y.hosts;
    assert x.endpoints == y.endpoints;
  }

  /** Asset identifiers are pairwise distinct. */
  lemma IdentifiersDistinct(naming: Naming, q: Inputs, assets: seq<Asset>, i: nat, j: nat)
    requires naming.Faithful() && Describes(naming, q, assets) && i < j < |assets|
    ensures assets[i].identifier != assets[j].identifier
  {
    hide Inputs.AddedSets, IsComponent, HostMeets, EndpointMeets;
    var a, b := assets[i], assets[j];
    assert a in assets && b in assets;
    assert a.identifier[6..] == naming.text(a.name) && b.identifier[6..] == naming.text(b.name);
  }

  /** Each input host with an alias, and each endpoint with one, appears in exactly one asset. */
  lemma EachHostInOneAsset(naming: Naming, q: Inputs, assets: seq<Asset>, x: Host)
    requires Describes(naming, q, assets) && x in q.hosts && naming.HostAliases(x) != {}
    ensures exists asset | asset in assets ::
            x in asset.hosts && forall other | other in assets && x in other.hosts :: other == asset
  {
    var i :| 0 <= i < |q.hosts| && q.hosts[i] == x;
    var s := naming.HostAliases(x);
    assert q.HostSets(naming)[i] == s && s in q.AddedSets(naming);
    hide Naming.HostAliases, Inputs.AddedSets, Reports, Linked;
    var a :| a in s;
    var asset :| asset in assets && a in asset.aliases;
    HostOf(naming, q, asset, x, a);
    forall other | other in assets && x in other.hosts ensures other == asset {
      var b := HostAlias(naming, q, other, x);
      AddedTogether(naming, q, other, s, b, a);
      OneAssetPerAlias(naming, q, other, asset, a);
    }
  }

  lemma HostOf(naming: Naming, q: Inputs, asset: Asset, x: Host, a: Name)
    requires Reports(naming, q, asset) && x in q.hosts && a in naming.HostAliases(x) && a in asset.aliases
    ensures x in asset.hosts
  {
    assert HostMeets(naming, x, Elements(asset.aliases));
  }

  lemma HostAlias(naming: Naming, q: Inputs, asset: Asset, x: Host) returns (b: Name)
    requires Reports(naming, q, asset) && x in asset.hosts
    ensures b in naming.HostAliases(x) && b in asset.aliases
  {
    assert HostMeets(naming, x, Elements(asset.aliases));
    b :| b in naming.HostAliases(x) && b in Elements(asset.aliases);
  }

  lemma AddedTogether(naming: Naming, q: Inputs, asset: Asset, s: set<Name>, a: Name, b: Name)
    requires Reports(naming, q, asset) && s in q.AddedSets(naming) && a in s && b in s && a in asset.aliases
    ensures b in asset.aliases
  {
    hide Linked;
    assert Adjacent(q.AddedSets(naming), a, b);
    AdjacentLinked(q.AddedSets(naming), a, b);
  }

  lemma EndpointOf(naming: Naming, q: Inputs, asset: Asset, e: Endpoint)
    requires Reports(naming, q, asset) && e in q.endpoints && naming.EndpointAlias(e).Some?
    ensures e in asset.endpoints <==> naming.EndpointAlias(e).value in asset.aliases
  {
    hide IsComponent, HostMeets, AssetOf, Inputs.AddedSets;
    assert e in asset.endpoints <==> EndpointMeets(naming, e, Elements(asset.aliases));
  }

  lemma EachEndpointInOneAsset(naming: Naming, q: Inputs, assets: seq<Asset>, e: Endpoint)
    requires Describes(naming, q, assets) && e in q.endpoints && naming.EndpointAlias(e).Some?
    ensures exists asset | asset in assets ::
            e in asset.endpoints && forall other | other in assets && e in other.endpoints :: other == asset
  {
    var i :| 0 <= i < |q.endpoints| && q.endpoints[i] == e;
    var a := naming.EndpointAlias(e).value;
    assert q.EndpointAliases(naming)[i] == Some(a);
    SingletonAdded(q.EndpointAliases(naming), i);
    assert {a} in q.AddedSets(naming);
    hide Inputs.AddedSets, Reports, Naming.EndpointAlias;
    var asset :| asset in assets && a in asset.aliases;
    EndpointOf(naming, q, asset, e);
    forall other | other in assets && e in other.endpoints ensures other == asset {
      EndpointOf(naming, q, other, e);
      OneAssetPerAlias(naming, q, other, asset, a);
    }
  }

  lemma {:induction false} SingletonAdded(aliases: seq<Option<Name>>, i: nat)
    requires i < |aliases| && aliases[i].Some?
    ensures {aliases[i].value} in Singletons(aliases)
  {
    var n := |aliases| - 1;
    if i < n {
      SingletonAdded(aliases[..n], i);
    }
  }

  lemma {:induction false} SingletonsFrom(aliases: seq<Option<Name>>, s: set<Name>)
    requires s in Singletons(aliases)
    ensures exists i :: 0 <= i < |aliases| && aliases[i].Some? && s == {aliases[i].value}
  {
    var n := |aliases| - 1;
    if s in Singletons(aliases[..n]) {
      SingletonsFrom(aliases[..n], s);
      var i :| 0 <= i < n && aliases[..n][i].Some? && s == {aliases[..n][i].value};
      assert aliases[i].Some?;
    } else {
      assert aliases[n].Some? && s == {aliases[n].value};
    }
  }

  lemma SameSingletons(a: seq<Option<Name>>, b: seq<Option<Name>>, s: set<Name>)
    requires forall x :: x in a <==> x in b
    requires s in Singletons(a)
    ensures s in Singletons(b)
  {
    SingletonsFrom(a, s);
    var i :| 0 <= i < |a| && a[i].Some? && s == {a[i].value};
    assert a[i] in a && a[i] in b;
    var j :| 0 <= j < |b| && b[j] == a[i];
    SingletonAdded(b, j);
  }

  /** Inputs with the same knowledge, in any order and with any repetition, add the same alias sets. */
  lemma SameAddedSets(naming: Naming, q: Inputs, r: Inputs, s: set<Name>)
    requires q.SameKnowledge(r) && s in q.AddedSets(naming)
    ensures s in r.AddedSets(naming)
  {
    hide Singletons, Naming.HostAliases, Naming.EndpointAlias, Naming.SourceAlias, Naming.NonEmpty;
    if s in q.HostSets(naming) {
      var i :| 0 <= i < |q.hosts| && q.HostSets(naming)[i] == s;
      assert q.hosts[i] in r.hosts;
      var j :| 0 <= j < |r.hosts| && r.hosts[j] == q.hosts[i];
      assert r.HostSets(naming)[j] == s;
    } else if s in Singletons(q.SubdomainAliases(naming)) {
      SameMapped(q.subdomains, r.subdomains, x => naming.NonEmpty(naming.normalize(x)), q.SubdomainAliases(naming),
                 r.SubdomainAliases(naming));
      SameSingletons(q.SubdomainAliases(naming), r.SubdomainAliases(naming), s);
    } else if s in Singletons(q.EndpointAliases(naming)) {
      SameMapped(q.endpoints, r.endpoints, x => naming.EndpointAlias(x), q.EndpointAliases(naming),
                 r.EndpointAliases(naming));
      SameSingletons(q.EndpointAliases(naming), r.EndpointAliases(naming), s);
    } else {
      SameMapped(q.technologies, r.technologies, x => naming.SourceAlias(x), q.SourceAliases(naming),
                 r.SourceAliases(naming));
      SameSingletons(q.SourceAliases(naming), r.SourceAliases(naming), s);
    }
  }

  lemma SameMapped<T>(a: seq<T>, b: seq<T>, f: T -> Option<Name>, fa: seq<Option<Name>>, fb: seq<Option<Name>>)
    requires forall x :: x in a <==> x in b
    requires |fa| == |a| && forall i | 0 <= i < |a| :: fa[i] == f(a[i])
    requires |fb| == |b| && forall i | 0 <= i < |b| :: fb[i] == f(b[i])
    ensures forall x :: x in fa <==> x in fb
  {
    forall x | x in fa ensures x in fb {
      var i :| 0 <= i < |a| && fa[i] == x;
      assert a[i] in b;
      var j :| 0 <= j < |b| && b[j] == a[i];
      assert fb[j] == x;
    }
    forall x | x in fb ensures x in fa {
      var i :| 0 <= i < |b| && fb[i] == x;
      assert b[i] in a;
      var j :| 0 <= j < |a| && a[j] == b[i];
      assert fa[j] == x;
    }
  }

  lemma SameReport(naming: Naming, q: Inputs, r: Inputs, x: Asset)
    requires q.SameKnowledge(r) && Reports(naming, q, x)
    ensures Reports(naming, r, x)
  {
    hide Linked, AssetOf, Inputs.AddedSets, Naming.HostAliases, Naming.EndpointAlias;
    forall s ensures s in q.AddedSets(naming) <==> s in r.AddedSets(naming) {
      if s in q.AddedSets(naming) { SameAddedSets(naming, q, r, s); }
      if s in r.AddedSets(naming) { SameAddedSets(naming, r, q, s); }
    }
    forall a, c ensures Linked(q.AddedSets(naming), a, c) <==> Linked(r.AddedSets(naming), a, c) {
      LinkedIgnoresOrder(q.AddedSets(naming), r.AddedSets(naming), a, c);
    }
  }

  lemma ReportedBy(naming: Naming, q: Inputs, assets: seq<Asset>, r: Inputs, x: Asset)
    requires q.SameKnowledge(r) && Describes(naming, q, assets) && Reports(naming, r, x)
    ensures x in assets
  {
    hide AssetOf, Inputs.AddedSets, Naming.HostAliases, Naming.EndpointAlias, Linked;
    SameReport(naming, r, q, x);
    var a := x.aliases[0];
    assert a in x.aliases;
    LinkedIsAdded(q.AddedSets(naming), a, a);
    var y :| y in assets && a in y.aliases;
    OneAssetPerAlias(naming, q, x, y, a);
  }

  /** The read model is a function of the knowledge: neither the order or repetition of the inputs nor
      the order in which sets are iterated can change it. */
  lemma DescriptionUnique(naming: Naming, q: Inputs, a: seq<Asset>, r: Inputs, b: seq<Asset>)
    requires q.SameKnowledge(r)
    requires Describes(naming, q, a) && Describes(naming, r, b)
    ensures a == b
  {
    hide Reports;
    forall x ensures x in a <==> x in b {
      if x in a { ReportedBy(naming, r, b, q, x); }
      if x in b { ReportedBy(naming, q, a, r, x); }
    }
    AscendingUnique(a, b);
  }

  lemma {:induction false} AscendingUnique(a: seq<Asset>, b: seq<Asset>)
    requires forall i, j | 0 <= i < j < |a| :: a[i].name < a[j].name
    requires forall i, j | 0 <= i < j < |b| :: b[i].name < b[j].name
    requires forall x :: x in a <==> x in b
    ensures a == b
  {
    if a != [] || b != [] {
      assert a != [] ==> a[0] in b;
      assert b != [] ==> b[0] in a;
      assert a[0] == b[0];
      forall x ensures x in a[1..] <==> x in b[1..] {
        if x in a[1..] { assert x in b && x != b[0]; }
        if x in b[1..] { assert x in a && x != a[0]; }
      }
      AscendingUnique(a[1..], b[1..]);
      assert a == [a[0]] + a[1..] && b == [b[0]] + b[1..];
    }
  }
}
