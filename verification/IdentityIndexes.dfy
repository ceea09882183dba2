/** The index object itself (capabilities/asset_intelligence.py:30-67). */
module IdentityIndexes {
  import opened Prelude
  import opened Recon
  import opened Linkage
  import opened Identity

  class IdentityIndex {
    const naming: Naming
    var builders: seq<AssetBuilder>
    var byAlias: map<Name, AssetBuilder>
    ghost var history: History
    ghost var hosts: set<Host>
    ghost var endpoints: set<Endpoint>

    ghost function Table(): Table
      reads this, builders
    {
      map b | b in builders :: b.Contents()
    }

    /** The index and its live builders. */
    ghost function Repr(): set<object>
      reads this
    {
      {this} + set b | b in builders :: b as object
    }

    /** Builders without an alias: an empty alias set leaves one, and nothing ever reaches it again. */
    ghost function Blanks(): set<AssetBuilder>
      reads this, builders
    {
      set b | b in builders && b.aliases == {}
    }

    ghost predicate Valid()
      reads this, builders
    {
      && Distinct(builders) && Sound(naming, history, hosts, endpoints, Table(), byAlias)
      && ({} in history <==> Blanks() != {})
    }

    /** The weaker state in the middle of `add`. */
    ghost predicate Merging(aliases: set<Name>)
      reads this, builders
    {
      Distinct(builders) && Adding(naming, history, hosts, endpoints, Table(), byAlias, aliases)
    }

    constructor (naming: Naming)
      ensures Valid() && this.naming == naming
      ensures builders == [] && history == [] && hosts == {} && endpoints == {}
    {
      this.naming := naming;
      builders, byAlias, history, hosts, endpoints := [], map[], [], {}, {};
    }

    method Find(alias: Name) returns (r: Option<AssetBuilder>)
      requires Valid()
      ensures r.Some? <==> exists s :: s in history && alias in s
      ensures r.Some? ==> r.value in builders && alias in r.value.aliases
    {
      r := if alias in byAlias then Some(byAlias[alias]) else None;
      FindKnows(naming, history, hosts, endpoints, Table(), byAlias, alias);
    }

    /** `builders.remove(source)` looks for the first builder that equals `source` field by field.  No
        other live builder equals a source that has an alias, so it removes exactly that object. */
    method RemoveEqual(source: AssetBuilder)
      requires source in builders && Distinct(builders)
      requires forall b | b in builders && b.Contents() == source.Contents() :: b == source
      modifies this`builders
      ensures Distinct(builders) && forall b :: b in builders <==> b in old(builders) && b != source
    {
      var i := 0;
      while builders[i].Contents() != source.Contents()
        invariant i < |builders| && forall j | 0 <= j < i :: builders[j] != source
        decreases |builders| - i
      {
        i := i + 1;
      }
      assert builders[i] == source;
      RemovedAt(builders, i);
      builders := builders[..i] + builders[i + 1..];
    }

    /** `_merge`: `source` flows into `dest`, its aliases are redirected, and it leaves the list. */
    method Merge(dest: AssetBuilder, source: AssetBuilder, ghost aliases: set<Name>)
      requires Merging(aliases) && dest in builders && source in builders && dest != source
      requires dest.aliases * aliases != {} && source.aliases * aliases != {}
      modifies this`builders, this`byAlias, dest
      ensures Merging(aliases)
      ensures forall b :: b in builders <==> b in old(builders) && b != source
      ensures dest.Contents() == old(dest.Contents()).Join(old(source.Contents()))
      ensures Blanks() == old(Blanks())
    {
      hide Adding, Distinct, Redirected, Sound;
      ghost var table, known := Table(), byAlias;
      MergeKeepsAdding(naming, history, hosts, endpoints, table, known, aliases, dest, source);
      OnlySourceEquals(naming, history, hosts, endpoints, table, known, aliases, dest, source);
      dest.aliases := dest.aliases + source.aliases;
      dest.hosts := dest.hosts + source.hosts;
      dest.endpoints := dest.endpoints + source.endpoints;
      Redirect(source.aliases, dest);
      assert forall b | b in builders && b != dest :: b.Contents() == table[b];
      RemoveEqual(source);
      assert Table() == MergedTable(table, dest, source);
    }

    /** The loop `for alias in ...: by_alias[alias] = dest`, in any order. */
    method Redirect(aliases: set<Name>, dest: AssetBuilder)
      modifies this`byAlias
      ensures byAlias == Redirected(old(byAlias), aliases, dest)
    {
      var todo := aliases;
      while todo != {}
        invariant todo <= aliases && byAlias == Redirected(old(byAlias), aliases - todo, dest)
      {
        var alias :| alias in todo;
        byAlias := byAlias[alias := dest];
        todo := todo - {alias};
      }
      assert aliases - {} == aliases;
    }

    /** The loop collecting, once each, the builders that already hold one of the aliases. */
    method Existing(aliases: set<Name>) returns (existing: seq<AssetBuilder>)
      requires Valid()
      ensures Distinct(existing)
      ensures forall b :: b in existing <==> b in builders && b.aliases * aliases != {}
    {
      existing := [];
      var todo := aliases;
      while todo != {}
        invariant todo <= aliases && Distinct(existing)
        invariant forall b | b in existing :: b in builders && b.aliases * aliases != {}
        invariant forall a | a in aliases - todo && a in byAlias :: byAlias[a] in existing
      {
        var alias :| alias in todo;
        if alias in byAlias && byAlias[alias] !in existing {
          assert alias in byAlias[alias].aliases * aliases;
          existing := existing + [byAlias[alias]];
        }
        todo := todo - {alias};
      }
      forall b | b in builders && b.aliases * aliases != {} ensures b in existing {
        var a :| a in b.aliases * aliases;
        assert a in Table()[b].aliases;
      }
    }

    /** `add`: the builder holding all the given aliases, after merging every builder they touch. */
    method Add(aliases: set<Name>) returns (builder: AssetBuilder)
      requires Valid()
      modifies Repr()
      ensures Valid() && history == old(history) + [aliases] && hosts == old(hosts) && endpoints == old(endpoints)
      ensures builder in builders && aliases <= builder.aliases
      ensures fresh(Repr() - old(Repr()))
    {
      hide Sound, Adding, Distinct;
      var existing := Existing(aliases);
      StartAdding(naming, history, hosts, endpoints, Table(), byAlias, aliases);
      if existing != [] {
        builder := existing[0];
        assert builder in existing;
        MergeAll(builder, existing, aliases);
      } else {
        builder := NewBuilder(aliases);
        forall b | b in builders && b != builder ensures b.aliases !! aliases {
          assert b !in existing;
          NothingShared(b.aliases, aliases);
        }
      }
      Widen(builder, aliases);
    }

    /** Add a host's aliases and put the host with them. */
    method AddHost(host: Host)
      requires Valid()
      modifies Repr()
      ensures Valid() && history == old(history) + [naming.HostAliases(host)]
      ensures hosts == old(hosts) + {host} && endpoints == old(endpoints)
      ensures fresh(Repr() - old(Repr()))
    {
      hide Naming.HostAliases, Naming.EndpointAlias, Sound, Distinct;
      var builder := Add(naming.HostAliases(host));
      HouseHost(builder, host);
    }

    /** `builder.hosts.add(host)`. */
    method HouseHost(builder: AssetBuilder, host: Host)
      requires Valid() && builder in builders && naming.HostAliases(host) <= builder.aliases
      modifies builder`hosts, this`hosts
      ensures Valid() && hosts == old(hosts) + {host}
    {
      hide Naming.HostAliases, Naming.EndpointAlias;
      ghost var table, blanks := Table(), Blanks();
      HostHoused(naming, history, hosts, endpoints, table, byAlias, builder, host);
      hide Sound, Distinct;
      builder.hosts := builder.hosts + {host};
      hosts := hosts + {host};
      assert Table() == table[builder := table[builder].(hosts := table[builder].hosts + {host})];
      assert Blanks() == blanks;
    }

    /** Add an endpoint's alias, if it has one, and put the endpoint with it. */
    method AddEndpoint(endpoint: Endpoint)
      requires Valid()
      modifies Repr()
      ensures Valid() && hosts == old(hosts)
      ensures var alias := naming.EndpointAlias(endpoint);
              && history == old(history) + (if alias.Some? then [{alias.value}] else [])
              && endpoints == old(endpoints) + if alias.Some? then {endpoint} else {}
      ensures fresh(Repr() - old(Repr()))
    {
      hide Naming.HostAliases, Naming.EndpointAlias, Sound, Distinct;
      var alias := naming.EndpointAlias(endpoint);
      if alias.Some? {
        var builder := Add({alias.value});
        HouseEndpoint(builder, endpoint);
      }
    }

    /** `builder.endpoints.add(endpoint)`. */
    method HouseEndpoint(builder: AssetBuilder, endpoint: Endpoint)
      requires Valid() && builder in builders
      requires naming.EndpointAlias(endpoint).Some? && naming.EndpointAlias(endpoint).value in builder.aliases
      modifies builder`endpoints, this`endpoints
      ensures Valid() && endpoints == old(endpoints) + {endpoint}
    {
      hide Naming.HostAliases, Naming.EndpointAlias;
      ghost var table, blanks := Table(), Blanks();
      EndpointHoused(naming, history, hosts, endpoints, table, byAlias, builder, endpoint);
      hide Sound, Distinct;
      builder.endpoints := builder.endpoints + {endpoint};
      endpoints := endpoints + {endpoint};
      assert Table() == table[builder := table[builder].(endpoints := table[builder].endpoints + {endpoint})];
      assert Blanks() == blanks;
    }

    /** Add a single alias, if there is one. */
    method AddAlias(alias: Option<Name>)
      requires Valid()
      modifies Repr()
      ensures Valid() && hosts == old(hosts) && endpoints == old(endpoints)
      ensures history == old(history) + if alias.Some? then [{alias.value}] else []
      ensures fresh(Repr() - old(Repr()))
    {
      if alias.Some? {
        var _ := Add({alias.value});
      }
    }

    /** The end of `add`: the one builder that meets the aliases receives them all. */
    method Widen(builder: AssetBuilder, aliases: set<Name>)
      requires Merging(aliases) && builder in builders
      requires builder.aliases * aliases != {} || builder.aliases == {}
      requires forall b | b in builders && b != builder :: b.aliases !! aliases
      requires {} in history <==> Blanks() - {builder} != {}
      modifies this`byAlias, this`history, builder`aliases
      ensures Valid() && history == old(history) + [aliases]
      ensures builder.aliases == old(builder.aliases) + aliases
    {
      hide Sound, Adding, Distinct;
      FinishAdding(naming, history, hosts, endpoints, Table(), byAlias, aliases, builder);
      hide Redirected;
      ghost var wide, blanks := Table(), Blanks();
      builder.aliases := builder.aliases + aliases;
      Redirect(builder.aliases, builder);
      history := history + [aliases];
      assert Table() == Widened(wide, builder, aliases);
      EmptyAdded(old(history), aliases);
      assert Blanks() == if builder.aliases == {} then blanks else blanks - {builder};
    }

    method NewBuilder(ghost aliases: set<Name>) returns (builder: AssetBuilder)
      requires Merging(aliases)
      modifies this`builders
      ensures Merging(aliases) && fresh(builder) && builder.aliases == {}
      ensures builders == old(builders) + [builder] && Blanks() == old(Blanks()) + {builder}
    {
      hide Adding, Distinct;
      builder := new AssetBuilder();
      NewKeepsAdding(naming, history, hosts, endpoints, Table(), byAlias, aliases, builder);
      DistinctSnoc(builders, builder);
      ghost var table := Table();
      builders := builders + [builder];
      assert Table() == table[builder := Group({}, {}, {})];
    }

    /** The loop `for other in existing[1:]: self._merge(builder, other)`. */
    method MergeAll(builder: AssetBuilder, existing: seq<AssetBuilder>, ghost aliases: set<Name>)
      requires Merging(aliases) && existing != [] && existing[0] == builder && Distinct(existing)
      requires forall b :: b in existing <==> b in builders && b.aliases * aliases != {}
      modifies this`builders, this`byAlias, builder
      ensures Merging(aliases) && builder in builders
      ensures builder.aliases * aliases != {}
      ensures forall b | b in builders && b != builder :: b in old(builders) && b.aliases !! aliases
      ensures Blanks() == old(Blanks())
    {
      hide Adding;
      assert builder in existing;
      for i := 1 to |existing|
        invariant Merging(aliases)
        invariant builder.aliases * aliases != {} && Blanks() == old(Blanks())
        invariant forall b :: b in builders <==> b in old(builders) && b !in existing[1..i]
      {
        assert existing[i] in existing && existing[i] !in existing[1..i] && builder !in existing[1..i];
        assert existing[1..i + 1] == existing[1..i] + [existing[i]];
        assert existing[i].aliases * aliases != {};
        Merge(builder, existing[i], aliases);
      }
      assert existing[1..|existing|] == existing[1..];
      assert existing == [builder] + existing[1..];
      assert builder !in existing[1..];
      forall b | b in builders && b != builder ensures b.aliases !! aliases {
        assert b !in existing;
        NothingShared(b.aliases, aliases);
      }
    }
  }

  lemma FindKnows(naming: Naming, h: History, hosts: set<Host>, endpoints: set<Endpoint>, table: Table,
                  byAlias: map<Name, AssetBuilder>, alias: Name)
    requires Sound(naming, h, hosts, endpoints, table, byAlias)
    ensures alias in byAlias <==> exists s :: s in h && alias in s
  {
    SameBuilderIffLinked(naming, h, hosts, endpoints, table, byAlias, alias, alias);
    if alias in byAlias {
      assert alias in table[byAlias[alias]].aliases;
      var p := LinkWitness(h, alias, alias);
      assert Adjacent(h, p[0], p[0 + 1]);
    }
  }

  lemma RemovedAt(builders: seq<AssetBuilder>, i: nat)
    requires i < |builders| && Distinct(builders)
    ensures Distinct(builders[..i] + builders[i + 1..])
    ensures forall b :: b in builders[..i] + builders[i + 1..] <==> b in builders && b != builders[i]
  {
    var rest := builders[..i] + builders[i + 1..];
    forall b | b in builders && b != builders[i] ensures b in rest {
      var j :| 0 <= j < |builders| && builders[j] == b;
      assert rest[if j < i then j else j - 1] == b;
    }
    assert forall j | 0 <= j < |rest| :: rest[j] == builders[if j < i then j else j + 1];
  }

  lemma DistinctSnoc(builders: seq<AssetBuilder>, b: AssetBuilder)
    requires Distinct(builders) && b !in builders
    ensures Distinct(builders + [b])
  {
  }

  /** Value equality singles out the merged object: the other builders lack its aliases, and the
      destination has one more. */
  lemma OnlySourceEquals(naming: Naming, h: History, hosts: set<Host>, endpoints: set<Endpoint>, table: Table,
                         byAlias: map<Name, AssetBuilder>, aliases: set<Name>, dest: AssetBuilder, source: AssetBuilder)
    requires Adding(naming, h, hosts, endpoints, table, byAlias, aliases)
    requires dest in table && source in table && dest != source
    requires table[dest].aliases != {} && table[source].aliases != {}
    ensures forall b | b in table && b != source && b != dest :: table[b] != table[source]
    ensures table[dest].Join(table[source]) != table[source]
  {
    hide Gathered, Connected, Housed;
    var y :| y in table[source].aliases;
    var x :| x in table[dest].aliases;
    assert byAlias[y] == source && byAlias[x] == dest;
    assert x in table[dest].Join(table[source]).aliases && x !in table[source].aliases;
    forall b | b in table && b != source && b != dest ensures table[b] != table[source] {
      assert y !in table[b].aliases;
    }
  }

  lemma HostHoused(naming: Naming, h: History, hosts: set<Host>, endpoints: set<Endpoint>, table: Table,
                   byAlias: map<Name, AssetBuilder>, b: AssetBuilder, host: Host)
    requires Sound(naming, h, hosts, endpoints, table, byAlias) && b in table &&
             naming.HostAliases(host) <= table[b].aliases
    ensures Sound(naming, h, hosts + {host}, endpoints, table[b := table[b].(hosts := table[b].hosts + {host})],
                  byAlias)
  {
    hide Linked, Naming.HostAliases, Naming.EndpointAlias;
  }

  lemma EndpointHoused(naming: Naming, h: History, hosts: set<Host>, endpoints: set<Endpoint>, table: Table,
                       byAlias: map<Name, AssetBuilder>, b: AssetBuilder, e: Endpoint)
    requires Sound(naming, h, hosts, endpoints, table, byAlias) && b in table
    requires naming.EndpointAlias(e).Some? && naming.EndpointAlias(e).value in table[b].aliases
    ensures Sound(naming, h, hosts, endpoints + {e}, table[b := table[b].(endpoints := table[b].endpoints + {e})],
                  byAlias)
  {
    hide Linked, Naming.HostAliases, Naming.EndpointAlias;
  }

  lemma EmptyAdded(h: History, aliases: set<Name>)
    ensures {} in h + [aliases] <==> {} in h || aliases == {}
  {
    assert (h + [aliases])[|h|] == aliases;
  }
}
