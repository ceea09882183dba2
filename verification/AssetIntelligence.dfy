/** The asset intelligence capability (capabilities/asset_intelligence.py:69-221). */
module AssetIntelligence {
  import opened Prelude
  import opened Ordering
  import opened Recon
  import opened Linkage
  import opened Identity
  import opened IdentityIndexes
  import opened Assets

  datatype Association = Association(assetId: string, technology: Technology)

  /** The technologies that some association relates to an asset. */
  ghost function ObservedTechnologies(associations: set<Association>): set<Technology> {
    set p | p in associations :: p.technology
  }

  datatype ReadModel = ReadModel(assets: seq<Asset>, associations: seq<Association>, unassociated: nat)

  /** `_build_identity_index`. */
  method BuildIdentityIndex(naming: Naming, q: Inputs) returns (index: IdentityIndex)
    ensures fresh(index) && index.Valid() && index.naming == naming && fresh(index.Repr())
    ensures index.history == q.AddedSets(naming)
    ensures index.hosts == Elements(q.hosts)
    ensures index.endpoints == set e | e in q.endpoints && naming.EndpointAlias(e).Some?
  {
    hide Naming.HostAliases, Naming.EndpointAlias, Naming.SourceAlias, Naming.NonEmpty, Sound, Distinct, Singletons;
    index := new IdentityIndex(naming);
    assert naming == index.naming;
    for i := 0 to |q.hosts|
      invariant fresh(index) && index.Valid() && fresh(index.Repr())
      invariant index.history == q.HostSets(naming)[..i] && index.endpoints == {}
      invariant index.hosts == Elements(q.hosts[..i])
    {
      assert q.hosts[..i + 1] == q.hosts[..i] + [q.hosts[i]];
      index.AddHost(q.hosts[i]);
    }
    assert q.HostSets(naming)[..|q.hosts|] == q.HostSets(naming) && q.hosts[..|q.hosts|] == q.hosts;
    var subdomains := q.SubdomainAliases(naming);
    AddAliases(index, subdomains);
    AddEndpoints(naming, index, q);
    AddAliases(index, q.SourceAliases(naming));
  }

  method AddAliases(index: IdentityIndex, aliases: seq<Option<Name>>)
    requires index.Valid()
    modifies index.Repr()
    ensures index.Valid() && index.hosts == old(index.hosts) && index.endpoints == old(index.endpoints)
    ensures index.history == old(index.history) + Singletons(aliases)
    ensures fresh(index.Repr() - old(index.Repr()))
  {
    hide Sound, Distinct;
    for i := 0 to |aliases|
      invariant index.Valid() && index.hosts == old(index.hosts) && index.endpoints == old(index.endpoints)
      invariant index.history == old(index.history) + Singletons(aliases[..i])
      invariant fresh(index.Repr() - old(index.Repr()))
    {
      assert aliases[..i + 1][..i] == aliases[..i];
      index.AddAlias(aliases[i]);
    }
    assert aliases[..|aliases|] == aliases;
  }

  method AddEndpoints(naming: Naming, index: IdentityIndex, q: Inputs)
    requires index.Valid() && index.endpoints == {} && index.naming == naming
    modifies index.Repr()
    ensures index.Valid() && index.hosts == old(index.hosts)
    ensures index.history == old(index.history) + Singletons(q.EndpointAliases(naming))
    ensures index.endpoints == set e | e in q.endpoints && naming.EndpointAlias(e).Some?
    ensures fresh(index.Repr() - old(index.Repr()))
  {
    hide Sound, Distinct, Naming.EndpointAlias;
    var aliases := q.EndpointAliases(naming);
    for i := 0 to |q.endpoints|
      invariant index.Valid() && index.hosts == old(index.hosts)
      invariant index.history == old(index.history) + Singletons(aliases[..i])
      invariant index.endpoints == set e | e in q.endpoints[..i] && naming.EndpointAlias(e).Some?
      invariant fresh(index.Repr() - old(index.Repr()))
    {
      assert aliases[..i + 1][..i] == aliases[..i];
      assert q.endpoints[..i + 1] == q.endpoints[..i] + [q.endpoints[i]];
      index.AddEndpoint(q.endpoints[i]);
    }
    assert aliases[..|aliases|] == aliases && q.endpoints[..|q.endpoints|] == q.endpoints;
  }

  /** A builder with aliases becomes an asset that reports its component. */
  lemma BuilderReports(naming: Naming, q: Inputs, hosts: set<Host>, endpoints: set<Endpoint>, table: Table,
                       byAlias: map<Name, AssetBuilder>, b: AssetBuilder)
    requires Sound(naming, q.AddedSets(naming), hosts, endpoints, table, byAlias)
    requires hosts == Elements(q.hosts) && endpoints == set e | e in q.endpoints && naming.EndpointAlias(e).Some?
    requires b in table && table[b].aliases != {}
    requires forall x | x in hosts :: naming.HostAliases(x) != {}
    ensures Reports(naming, q, AssetOf(naming, table[b].aliases, table[b].hosts, table[b].endpoints))
  {
    var g := table[b];
    var asset := AssetOf(naming, g.aliases, g.hosts, g.endpoints);
    AssetParts(naming, g);
    BuilderIsComponent(naming, q.AddedSets(naming), hosts, endpoints, table, byAlias, b, asset.aliases);
    hide Linked, Inputs.AddedSets, Naming.HostAliases, HostMeets, EndpointMeets, AssetOf, Connected, Gathered,
      IsComponent, Housed, Indexed, Elements;
    forall x ensures x in g.hosts <==> x in hosts && HostMeets(naming, x, g.aliases) {
      HostsOfBuilder(naming, hosts, endpoints, table, byAlias, b, x);
    }
    forall e ensures e in g.endpoints <==> e in endpoints && EndpointMeets(naming, e, g.aliases) {
      EndpointsOfBuilder(naming, hosts, endpoints, table, byAlias, b, e);
    }
    ReportsWhen(naming, q, hosts, endpoints, g);
  }

  lemma AssetParts(naming: Naming, g: Group)
    requires g.aliases != {}
    ensures var asset := AssetOf(naming, g.aliases, g.hosts, g.endpoints);
            && Elements(asset.aliases) == g.aliases && asset.hosts == g.hosts && asset.endpoints == g.endpoints
            && (forall a :: a in asset.aliases <==> a in g.aliases)
            && asset.name in g.aliases
  {
    hide Sorted, Canonical;
  }

  lemma ReportsWhen(naming: Naming, q: Inputs, hosts: set<Host>, endpoints: set<Endpoint>, g: Group)
    requires g.aliases != {} && hosts == Elements(q.hosts)
    requires endpoints == set e | e in q.endpoints && naming.EndpointAlias(e).Some?
    requires IsComponent(q.AddedSets(naming), AssetOf(naming, g.aliases, g.hosts, g.endpoints).aliases)
    requires forall x :: x in g.hosts <==> x in hosts && HostMeets(naming, x, g.aliases)
    requires forall e :: e in g.endpoints <==> e in endpoints && EndpointMeets(naming, e, g.aliases)
    ensures Reports(naming, q, AssetOf(naming, g.aliases, g.hosts, g.endpoints))
  {
    hide IsComponent, AssetOf, HostMeets, EndpointMeets, Inputs.AddedSets, Sorted, Canonical;
    AssetParts(naming, g);
    forall e | EndpointMeets(naming, e, g.aliases) ensures e in endpoints <==> e in q.endpoints {
      MeetsByAlias(naming, e, g.aliases);
    }
    hide Elements, Naming.EndpointAlias;
  }

  lemma MeetsByAlias(naming: Naming, e: Endpoint, aliases: set<Name>)
    requires EndpointMeets(naming, e, aliases)
    ensures naming.EndpointAlias(e).Some?
  {
  }

  lemma BuilderIsComponent(naming: Naming, h: History, hosts: set<Host>, endpoints: set<Endpoint>, table: Table,
                           byAlias: map<Name, AssetBuilder>, b: AssetBuilder, aliases: seq<Name>)
    requires Sound(naming, h, hosts, endpoints, table, byAlias) && b in table && table[b].aliases != {}
    requires forall a :: a in aliases <==> a in table[b].aliases
    ensures IsComponent(h, aliases)
  {
    hide Linked, Housed;
    var x :| x in table[b].aliases;
    assert x in aliases;
    forall a, c | a in aliases ensures c in aliases <==> Linked(h, a, c) {
      SameBuilderIffLinked(naming, h, hosts, endpoints, table, byAlias, a, c);
      assert byAlias[a] == b;
      if c in byAlias && byAlias[c] == b { assert c in table[b].aliases; }
      if c in table[b].aliases { assert byAlias[c] == b; }
    }
  }

  lemma EndpointsOfBuilder(naming: Naming, hosts: set<Host>, endpoints: set<Endpoint>, table: Table,
                           byAlias: map<Name, AssetBuilder>, b: AssetBuilder, e: Endpoint)
    requires Indexed(table, byAlias) && Housed(naming, hosts, endpoints, table, byAlias) && b in table
    ensures e in table[b].endpoints <==> e in endpoints && EndpointMeets(naming, e, table[b].aliases)
  {
    hide Naming.HostAliases, Naming.EndpointAlias;
    if e in endpoints && naming.EndpointAlias(e).Some? && naming.EndpointAlias(e).value in table[b].aliases {
      assert byAlias[naming.EndpointAlias(e).value] == b;
    }
  }

  lemma HostsOfBuilder(naming: Naming, hosts: set<Host>, endpoints: set<Endpoint>, table: Table,
                       byAlias: map<Name, AssetBuilder>, b: AssetBuilder, x: Host)
    requires Indexed(table, byAlias) && Housed(naming, hosts, endpoints, table, byAlias) && b in table
    requires forall x | x in hosts :: naming.HostAliases(x) != {}
    ensures x in table[b].hosts <==> x in hosts && HostMeets(naming, x, table[b].aliases)
  {
    hide Naming.HostAliases, Naming.EndpointAlias;
    if x in table[b].hosts {
      var a :| a in naming.HostAliases(x);
      assert a in table[b].aliases;
    }
    if x in hosts && exists a :: a in naming.HostAliases(x) && a in table[b].aliases {
      var a :| a in naming.HostAliases(x) && a in table[b].aliases;
      assert byAlias[a] == b;
    }
  }

  /** What `_build_assets` returns: each live builder's asset, and all of them ordered by identifier. */
  ghost predicate BuiltFrom(naming: Naming, table: Table, assets: seq<Asset>, byBuilder: map<AssetBuilder, Asset>) {
    && Made(naming, table, byBuilder) && byBuilder.Keys == table.Keys
    && (forall i, j | 0 <= i < j < |assets| :: assets[i].name < assets[j].name)
    && (forall b: AssetBuilder | b in byBuilder :: byBuilder[b] in assets)
    && (forall x | x in assets :: exists b: AssetBuilder | b in byBuilder :: byBuilder[b] == x)
  }

  /** Each builder looked at so far has its own asset. */
  ghost predicate Made(naming: Naming, table: Table, byBuilder: map<AssetBuilder, Asset>) {
    forall b: AssetBuilder | b in byBuilder ::
      b in table && table[b].aliases != {} &&
        byBuilder[b] == AssetOf(naming, table[b].aliases, table[b].hosts, table[b].endpoints)
  }

  /** The assets made so far, by name. */
  ghost predicate Named(byBuilder: map<AssetBuilder, Asset>, byName: map<Name, Asset>) {
    && (forall b: AssetBuilder | b in byBuilder ::
        byBuilder[b].name in byName && byName[byBuilder[b].name] == byBuilder[b])
    && (forall n | n in byName ::
        byName[n].name == n && exists b: AssetBuilder | b in byBuilder :: byBuilder[b] == byName[n])
  }

  /** Disjoint builders have different canonical names. */
  lemma NamesDiffer(naming: Naming, table: Table, byAlias: map<Name, AssetBuilder>,
                    byBuilder: map<AssetBuilder, Asset>, b: AssetBuilder)
    requires Indexed(table, byAlias) && Made(naming, table, byBuilder) && b in table && b !in byBuilder &&
             table[b].aliases != {}
    ensures forall c: AssetBuilder | c in byBuilder ::
            byBuilder[c].name != AssetOf(naming, table[b].aliases, table[b].hosts, table[b].endpoints).name
  {
    hide AssetOf, Canonical;
    AssetParts(naming, table[b]);
    forall c: AssetBuilder | c in byBuilder
      ensures byBuilder[c].name != AssetOf(naming, table[b].aliases, table[b].hosts, table[b].endpoints).name
    {
      AssetParts(naming, table[c]);
      assert byAlias[byBuilder[c].name] == c;
    }
  }

  lemma NamedNext(byBuilder: map<AssetBuilder, Asset>, byName: map<Name, Asset>, b: AssetBuilder, asset: Asset)
    requires Named(byBuilder, byName) && b !in byBuilder
    requires forall c: AssetBuilder | c in byBuilder :: byBuilder[c].name != asset.name
    ensures Named(byBuilder[b := asset], byName[asset.name := asset])
  {
    var next := byBuilder[b := asset];
    forall n | n in byName && n != asset.name ensures exists c: AssetBuilder | c in next :: next[c] == byName[n] {
      var c: AssetBuilder :| c in byBuilder && byBuilder[c] == byName[n];
      assert next[c] == byName[n];
    }
    assert next[b] == asset;
  }

  function InNameOrder(byName: map<Name, Asset>): (assets: seq<Asset>)
    ensures |assets| == |byName.Keys|
    ensures forall i | 0 <= i < |assets| :: Sorted(byName.Keys)[i] in byName &&
              assets[i] == byName[Sorted(byName.Keys)[i]]
  {
    var names := Sorted(byName.Keys);
    seq(|names|, i requires 0 <= i < |names| => assert names[i] in byName.Keys; byName[names[i]])
  }

  lemma NamedInOrder(byBuilder: map<AssetBuilder, Asset>, byName: map<Name, Asset>)
    requires Named(byBuilder, byName)
    ensures var assets := InNameOrder(byName);
            && (forall i, j | 0 <= i < j < |assets| :: assets[i].name < assets[j].name)
            && (forall b: AssetBuilder | b in byBuilder :: byBuilder[b] in assets)
            && (forall x | x in assets :: exists b: AssetBuilder | b in byBuilder :: byBuilder[b] == x)
  {
    hide Sorted;
    var assets := InNameOrder(byName);
    var names := Sorted(byName.Keys);
    forall b: AssetBuilder | b in byBuilder ensures byBuilder[b] in assets {
      assert byBuilder[b].name in byName.Keys;
      var i :| 0 <= i < |names| && names[i] == byBuilder[b].name;
      assert assets[i] == byBuilder[b];
    }
    forall i, j | 0 <= i < j < |assets| ensures assets[i].name < assets[j].name {
      assert names[i] in byName && names[j] in byName;
    }
  }

  /** `_build_assets`; None stands for the exception of `min` on a builder without aliases. */
  method BuildAssets(index: IdentityIndex) returns (assets: Option<seq<Asset>>, byBuilder: map<AssetBuilder, Asset>)
    requires index.Valid()
    ensures assets.None? <==> {} in index.history
    ensures assets.Some? ==> BuiltFrom(index.naming, index.Table(), assets.value, byBuilder)
  {
    hide AssetOf, Gathered, Connected, Housed, Named, InNameOrder;
    byBuilder := map[];
    var byName: map<Name, Asset> := map[];
    NamedNothing();
    for i := 0 to |index.builders|
      invariant forall j | 0 <= j < i :: index.builders[j].aliases != {}
      invariant forall b :: b in byBuilder <==> b in index.builders[..i]
      invariant Made(index.naming, index.Table(), byBuilder) && Named(byBuilder, byName)
    {
      var b := index.builders[i];
      assert index.builders[..i + 1] == index.builders[..i] + [b] && b !in index.builders[..i];
      if b.aliases == {} {
        assert b in index.Blanks();
        return None, map[];
      }
      var asset := AssetOf(index.naming, b.aliases, b.hosts, b.endpoints);
      assert index.Table()[b] == b.Contents();
      NamesDiffer(index.naming, index.Table(), index.byAlias, byBuilder, b);
      NamedNext(byBuilder, byName, b, asset);
      byBuilder := byBuilder[b := asset];
      byName := byName[asset.name := asset];
    }
    assert index.builders[..|index.builders|] == index.builders;
    NamedInOrder(byBuilder, byName);
    assets := Some(InNameOrder(byName));
  }

  lemma NamedNothing()
    ensures Named(map[], map[])
  {
  }

  /** Technologies whose source names no host. */
  function Unplaced(naming: Naming, technologies: seq<Technology>): nat {
    if technologies == [] then 0
    else
      Unplaced(naming, technologies[..|technologies| - 1]) +
      if naming.SourceAlias(technologies[|technologies| - 1]).None? then 1 else 0
  }

  /** Every technology with a source host is associated with the asset that owns the host, and with no
      other; nothing else is. */
  ghost predicate Associates(naming: Naming, technologies: seq<Technology>, assets: seq<Asset>,
                             associations: set<Association>) {
    && (forall t | t in technologies && naming.SourceAlias(t).Some? ::
          exists x | x in assets :: naming.SourceAlias(t).value in x.aliases &&
            Association(x.identifier, t) in associations)
    && (forall p | p in associations :: p.technology in technologies && naming.SourceAlias(p.technology).Some? &&
          exists x | x in assets :: naming.SourceAlias(p.technology).value in x.aliases && p.assetId == x.identifier)
  }

  /** The associations of a set, each once, ordered by sort key. */
  ghost predicate InOrder(rank: Association -> nat, associations: seq<Association>) {
    Distinct(associations) &&
      forall i, j | 0 <= i < j < |associations| :: rank(associations[i]) <= rank(associations[j])
  }

  /** `_associate_technologies`. */
  method AssociateTechnologies(naming: Naming, rank: Association -> nat, technologies: seq<Technology>,
                               index: IdentityIndex, assets: seq<Asset>, byBuilder: map<AssetBuilder, Asset>)
    returns (associations: seq<Association>, unassociated: nat)
    requires index.Valid() && BuiltFrom(naming, index.Table(), assets, byBuilder)
    requires forall t | t in technologies && naming.SourceAlias(t).Some? ::
             exists s :: s in index.history && naming.SourceAlias(t).value in s
    ensures unassociated == Unplaced(naming, technologies)
    ensures Associates(naming, technologies, assets, Elements(associations)) && InOrder(rank, associations)
  {
    hide Naming.SourceAlias, Sound, AssetOf, BuiltFrom, Associates, IdentityIndex.Valid;
    var seen: set<Association> := {};
    unassociated := 0;
    NothingAssociated(naming, assets);
    for i := 0 to |technologies|
      invariant unassociated == Unplaced(naming, technologies[..i])
      invariant Associates(naming, technologies[..i], assets, seen)
    {
      var t := technologies[i];
      assert technologies[..i + 1][..i] == technologies[..i] && technologies[..i + 1] == technologies[..i] + [t];
      var alias := naming.SourceAlias(t);
      var builder := None;
      if alias.Some? {
        builder := index.Find(alias.value);
      }
      if builder.None? {
        unassociated := unassociated + 1;
        AssociateNone(naming, technologies[..i], assets, seen, t);
      } else {
        BuiltAsset(naming, index.Table(), assets, byBuilder, builder.value);
        var asset := byBuilder[builder.value];
        AssociateNext(naming, technologies[..i], assets, seen, t, asset);
        seen := seen + {Association(asset.identifier, t)};
      }
    }
    assert technologies[..|technologies|] == technologies;
    associations := SortBy((a: Association, b: Association) => rank(a) <= rank(b), seen);
    assert Elements(associations) == seen;
  }

  lemma BuiltAsset(naming: Naming, table: Table, assets: seq<Asset>, byBuilder: map<AssetBuilder, Asset>,
                   b: AssetBuilder)
    requires BuiltFrom(naming, table, assets, byBuilder) && b in table
    ensures b in byBuilder && byBuilder[b] in assets
    ensures forall a | a in table[b].aliases :: a in byBuilder[b].aliases
  {
    hide AssetOf;
    AssetParts(naming, table[b]);
  }

  lemma NothingAssociated(naming: Naming, assets: seq<Asset>)
    ensures Associates(naming, [], assets, {})
  {
  }

  lemma AssociateNone(naming: Naming, technologies: seq<Technology>, assets: seq<Asset>,
                      associations: set<Association>, t: Technology)
    requires Associates(naming, technologies, assets, associations) && naming.SourceAlias(t).None?
    ensures Associates(naming, technologies + [t], assets, associations)
  {
    hide Naming.SourceAlias;
    assert forall p | p in associations :: p.technology in technologies + [t];
  }

  lemma AssociateNext(naming: Naming, technologies: seq<Technology>, assets: seq<Asset>,
                      associations: set<Association>, t: Technology, asset: Asset)
    requires Associates(naming, technologies, assets, associations)
    requires naming.SourceAlias(t).Some? && asset in assets && naming.SourceAlias(t).value in asset.aliases
    ensures Associates(naming, technologies + [t], assets, associations + {Association(asset.identifier, t)})
  {
    hide Naming.SourceAlias;
    var all, next := technologies + [t], associations + {Association(asset.identifier, t)};
    forall u | u in all && naming.SourceAlias(u).Some?
      ensures exists x | x in assets :: naming.SourceAlias(u).value in x.aliases && Association(x.identifier, u) in next
    {
      if u in technologies {
        var x :| x in assets && naming.SourceAlias(u).value in x.aliases &&
          Association(x.identifier, u) in associations;
        assert Association(x.identifier, u) in next;
      } else {
        assert Association(asset.identifier, u) in next;
      }
    }
  }

  /** `execute`: the whole read model, or None when some host has neither hostname nor address. */
  method Execute(naming: Naming, rank: Association -> nat, q: Inputs) returns (r: Option<ReadModel>)
    ensures r.None? <==> exists x | x in q.hosts :: naming.HostAliases(x) == {}
    ensures r.Some? ==> Describes(naming, q, r.value.assets)
    ensures r.Some? ==> Associates(naming, q.technologies, r.value.assets, Elements(r.value.associations))
    ensures r.Some? ==> InOrder(rank, r.value.associations)
    ensures r.Some? ==> r.value.unassociated == Unplaced(naming, q.technologies)
  {
    var index := BuildIdentityIndex(naming, q);
    hide Naming.HostAliases, Naming.EndpointAlias, Naming.SourceAlias, Sound, Distinct, Reports, Associates, BuiltFrom,
      Inputs.AddedSets;
    EmptyHostSet(naming, q);
    SourcesAdded(naming, q);
    var assets, byBuilder := BuildAssets(index);
    if assets.None? {
      return None;
    }
    var associations, unassociated :=
      AssociateTechnologies(naming, rank, q.technologies, index, assets.value, byBuilder);
    assert forall x :: x in index.hosts <==> x in q.hosts;
    AssetsDescribe(naming, q, index.hosts, index.endpoints, index.Table(), index.byAlias, assets.value, byBuilder);
    return Some(ReadModel(assets.value, associations, unassociated));
  }

  lemma EmptyHostSet(naming: Naming, q: Inputs)
    ensures {} in q.AddedSets(naming) <==> exists x | x in q.hosts :: naming.HostAliases(x) == {}
  {
    hide Naming.HostAliases, Naming.EndpointAlias, Naming.SourceAlias, Naming.NonEmpty, Singletons;
    var none: set<Name> := {};
    NoEmptySingleton(q.SubdomainAliases(naming));
    NoEmptySingleton(q.EndpointAliases(naming));
    NoEmptySingleton(q.SourceAliases(naming));
    if none in q.HostSets(naming) {
      var i :| 0 <= i < |q.hosts| && q.HostSets(naming)[i] == none;
      assert q.hosts[i] in q.hosts;
    }
    if exists x | x in q.hosts :: naming.HostAliases(x) == none {
      var x :| x in q.hosts && naming.HostAliases(x) == none;
      var i :| 0 <= i < |q.hosts| && q.hosts[i] == x;
      assert q.HostSets(naming)[i] == none;
    }
  }

  lemma {:induction false} NoEmptySingleton(aliases: seq<Option<Name>>)
    ensures forall s | s in Singletons(aliases) :: s != {}
  {
    if aliases != [] {
      var last := aliases[|aliases| - 1];
      NoEmptySingleton(aliases[..|aliases| - 1]);
      if last.Some? {
        assert last.value in {last.value};
      }
    }
  }

  lemma SourcesAdded(naming: Naming, q: Inputs)
    ensures forall t | t in q.technologies && naming.SourceAlias(t).Some? ::
              exists s :: s in q.AddedSets(naming) && naming.SourceAlias(t).value in s
  {
    hide Naming.HostAliases, Naming.EndpointAlias, Naming.SourceAlias, Singletons;
    forall t | t in q.technologies && naming.SourceAlias(t).Some?
      ensures exists s :: s in q.AddedSets(naming) && naming.SourceAlias(t).value in s
    {
      var i :| 0 <= i < |q.technologies| && q.technologies[i] == t;
      assert q.SourceAliases(naming)[i] == naming.SourceAlias(t);
      SingletonAdded(q.SourceAliases(naming), i);
      assert {naming.SourceAlias(t).value} in q.AddedSets(naming);
    }
  }

  /** The assets of a sound index describe its inputs. */
  lemma AssetsDescribe(naming: Naming, q: Inputs, hosts: set<Host>, endpoints: set<Endpoint>, table: Table,
                       byAlias: map<Name, AssetBuilder>, assets: seq<Asset>, byBuilder: map<AssetBuilder, Asset>)
    requires Sound(naming, q.AddedSets(naming), hosts, endpoints, table, byAlias)
    requires hosts == Elements(q.hosts) && endpoints == set e | e in q.endpoints && naming.EndpointAlias(e).Some?
    requires BuiltFrom(naming, table, assets, byBuilder)
    requires forall x | x in hosts :: naming.HostAliases(x) != {}
    ensures Describes(naming, q, assets)
  {
    hide Naming.HostAliases, Naming.EndpointAlias, Inputs.AddedSets, Reports, AssetOf, Connected, Housed;
    forall asset | asset in assets ensures Reports(naming, q, asset) {
      var b: AssetBuilder :| b in byBuilder && byBuilder[b] == asset;
      BuilderReports(naming, q, hosts, endpoints, table, byAlias, b);
    }
    forall s, a | s in q.AddedSets(naming) && a in s ensures exists asset | asset in assets :: a in asset.aliases {
      var b := byAlias[a];
      assert b in byBuilder;
      AssetParts(naming, table[b]);
      assert byBuilder[b] in assets && a in byBuilder[b].aliases;
    }
  }
}
