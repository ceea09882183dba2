/** The identity index: mutable builders, an alias table, and merging in place
    (capabilities/asset_intelligence.py, `_IdentityIndex`). */
module Identity {
  import opened Prelude
  import opened Recon
  import opened Linkage

  class AssetBuilder {
    var aliases: set<Name>
    var hosts: set<Host>
    var endpoints: set<Endpoint>

    constructor ()
      ensures aliases == {} && hosts == {} && endpoints == {}
    {
      aliases, hosts, endpoints := {}, {}, {};
    }

    function Contents(): Group
      reads this
    {
      Group(aliases, hosts, endpoints)
    }
  }

  datatype Group = Group(aliases: set<Name>, hosts: set<Host>, endpoints: set<Endpoint>) {
    function Join(other: Group): Group {
      Group(aliases + other.aliases, hosts + other.hosts, endpoints + other.endpoints)
    }
  }

  /** What each live builder contains. */
  type Table = map<AssetBuilder, Group>

  /** `by_alias` maps every alias to the one live builder containing it. */
  ghost predicate Indexed(table: Table, byAlias: map<Name, AssetBuilder>) {
    && (forall a | a in byAlias :: byAlias[a] in table && a in table[byAlias[a]].aliases)
    && (forall b, a | b in table && a in table[b].aliases :: a in byAlias && byAlias[a] == b)
  }

  /** Aliases added together are together ... */
  ghost predicate Gathered(h: History, table: Table, byAlias: map<Name, AssetBuilder>)
    requires Indexed(table, byAlias)
  {
    forall s, a | s in h && a in s :: a in byAlias && s <= table[byAlias[a]].aliases
  }

  /** ... and aliases that are together are linked. */
  ghost predicate Connected(h: History, table: Table) {
    forall b, a, c | b in table && a in table[b].aliases && c in table[b].aliases :: Linked(h, a, c)
  }

  /** Hosts and endpoints sit with their own aliases, and none is lost. */
  ghost predicate Housed(naming: Naming, hosts: set<Host>, endpoints: set<Endpoint>, table: Table,
                         byAlias: map<Name, AssetBuilder>)
    requires Indexed(table, byAlias)
  {
    && (forall b, x | b in table && x in table[b].hosts :: x in hosts && naming.HostAliases(x) <= table[b].aliases)
    && (forall b, e | b in table && e in table[b].endpoints ::
          e in endpoints && naming.EndpointAlias(e).Some? && naming.EndpointAlias(e).value in table[b].aliases)
    && (forall x, a | x in hosts && a in naming.HostAliases(x) :: a in byAlias && x in table[byAlias[a]].hosts)
    && (forall e | e in endpoints && naming.EndpointAlias(e).Some? ::
          naming.EndpointAlias(e).value in byAlias && e in table[byAlias[naming.EndpointAlias(e).value]].endpoints)
  }

  /** The table and the alias map after merging `source` into `dest`. */
  function MergedTable(table: Table, dest: AssetBuilder, source: AssetBuilder): Table
    requires dest in table && source in table
  {
    (table - {source})[dest := table[dest].Join(table[source])]
  }

  function Redirected(byAlias: map<Name, AssetBuilder>, aliases: set<Name>,
                      dest: AssetBuilder): map<Name, AssetBuilder> {
    map a | a in byAlias.Keys + aliases :: if a in aliases then dest else byAlias[a]
  }

  lemma MergeIndexed(table: Table, byAlias: map<Name, AssetBuilder>, dest: AssetBuilder, source: AssetBuilder)
    requires Indexed(table, byAlias) && dest in table && source in table && dest != source
    ensures Indexed(MergedTable(table, dest, source), Redirected(byAlias, table[source].aliases, dest))
  {
  }

  lemma MergeGathered(h: History, table: Table, byAlias: map<Name, AssetBuilder>, dest: AssetBuilder,
                      source: AssetBuilder)
    requires Indexed(table, byAlias) && dest in table && source in table && dest != source &&
             Gathered(h, table, byAlias)
    requires Indexed(MergedTable(table, dest, source), Redirected(byAlias, table[source].aliases, dest))
    ensures Gathered(h, MergedTable(table, dest, source), Redirected(byAlias, table[source].aliases, dest))
  {
  }

  lemma MergeConnected(h: History, table: Table, dest: AssetBuilder, source: AssetBuilder, x: Name, y: Name)
    requires Connected(h, table) && dest in table && source in table && dest != source
    requires x in table[dest].aliases && y in table[source].aliases && Linked(h, x, y)
    ensures Connected(h, MergedTable(table, dest, source))
  {
    hide Linked;
    var merged := MergedTable(table, dest, source);
    forall b, a, c | b in merged && a in merged[b].aliases && c in merged[b].aliases ensures Linked(h, a, c) {
      if b == dest {
        if a in table[dest].aliases && c in table[source].aliases {
          LinkedTransitive(h, a, x, y);
          LinkedTransitive(h, a, y, c);
        } else if a in table[source].aliases && c in table[dest].aliases {
          LinkedTransitive(h, c, x, y);
          LinkedTransitive(h, c, y, a);
          LinkedSymmetric(h, c, a);
        }
      }
    }
  }

  lemma MergeHoused(naming: Naming, hosts: set<Host>, endpoints: set<Endpoint>, table: Table,
                    byAlias: map<Name, AssetBuilder>, dest: AssetBuilder, source: AssetBuilder)
    requires Indexed(table, byAlias) && dest in table && source in table && dest != source
    requires Housed(naming, hosts, endpoints, table, byAlias)
    requires Indexed(MergedTable(table, dest, source), Redirected(byAlias, table[source].aliases, dest))
    ensures Housed(naming, hosts, endpoints, MergedTable(table, dest, source),
                   Redirected(byAlias, table[source].aliases, dest))
  {
    hide Naming.HostAliases, Naming.EndpointAlias;
  }

  /** Everything the index promises about its table. */
  ghost predicate Sound(naming: Naming, h: History, hosts: set<Host>, endpoints: set<Endpoint>, table: Table,
                        byAlias: map<Name, AssetBuilder>) {
    Indexed(table, byAlias) && Gathered(h, table, byAlias) && Connected(h, table) &&
      Housed(naming, hosts, endpoints, table, byAlias)
  }

  /** What holds while `aliases` are being added: linkage already counts them, gathering not yet. */
  ghost predicate Adding(naming: Naming, h: History, hosts: set<Host>, endpoints: set<Endpoint>, table: Table,
                         byAlias: map<Name, AssetBuilder>, aliases: set<Name>) {
    Indexed(table, byAlias) && Gathered(h, table, byAlias) && Connected(h + [aliases], table) &&
      Housed(naming, hosts, endpoints, table, byAlias)
  }

  lemma StartAdding(naming: Naming, h: History, hosts: set<Host>, endpoints: set<Endpoint>, table: Table,
                    byAlias: map<Name, AssetBuilder>, aliases: set<Name>)
    requires Sound(naming, h, hosts, endpoints, table, byAlias)
    ensures Adding(naming, h, hosts, endpoints, table, byAlias, aliases)
  {
    hide Linked, Housed, Gathered, Indexed;
    forall b, a, c | b in table && a in table[b].aliases && c in table[b].aliases ensures Linked(h + [aliases], a, c) {
      LinkedGrows(h, aliases, a, c);
    }
  }

  lemma MergeKeepsAdding(naming: Naming, h: History, hosts: set<Host>, endpoints: set<Endpoint>, table: Table,
                         byAlias: map<Name, AssetBuilder>, aliases: set<Name>, dest: AssetBuilder, source: AssetBuilder)
    requires Adding(naming, h, hosts, endpoints, table, byAlias, aliases)
    requires dest in table && source in table && dest != source
    requires table[dest].aliases * aliases != {} && table[source].aliases * aliases != {}
    ensures Adding(naming, h, hosts, endpoints, MergedTable(table, dest, source),
                   Redirected(byAlias, table[source].aliases, dest), aliases)
  {
    hide Linked, Housed, Gathered, Indexed, Connected, MergedTable, Redirected;
    var x :| x in table[dest].aliases * aliases;
    var y :| y in table[source].aliases * aliases;
    assert aliases in h + [aliases] && Adjacent(h + [aliases], x, y);
    AdjacentLinked(h + [aliases], x, y);
    MergeIndexed(table, byAlias, dest, source);
    MergeGathered(h, table, byAlias, dest, source);
    MergeConnected(h + [aliases], table, dest, source, x, y);
    MergeHoused(naming, hosts, endpoints, table, byAlias, dest, source);
  }

  /** A builder joins the list with nothing in it. */
  lemma NewKeepsAdding(naming: Naming, h: History, hosts: set<Host>, endpoints: set<Endpoint>, table: Table,
                       byAlias: map<Name, AssetBuilder>, aliases: set<Name>, b: AssetBuilder)
    requires Adding(naming, h, hosts, endpoints, table, byAlias, aliases) && b !in table
    ensures Adding(naming, h, hosts, endpoints, table[b := Group({}, {}, {})], byAlias, aliases)
  {
    hide Linked, Naming.HostAliases, Naming.EndpointAlias;
    NewIndexed(table, byAlias, b);
    assert Gathered(h, table[b := Group({}, {}, {})], byAlias) by {
      hide Housed, Connected;
    }
    assert Connected(h + [aliases], table[b := Group({}, {}, {})]) by {
      hide Housed, Gathered, Indexed;
    }
    assert Housed(naming, hosts, endpoints, table[b := Group({}, {}, {})], byAlias) by {
      hide Gathered, Connected;
    }
  }

  lemma NewIndexed(table: Table, byAlias: map<Name, AssetBuilder>, b: AssetBuilder)
    requires Indexed(table, byAlias) && b !in table
    ensures Indexed(table[b := Group({}, {}, {})], byAlias)
  {
  }

  function Widened(table: Table, dest: AssetBuilder, aliases: set<Name>): Table
    requires dest in table
  {
    table[dest := table[dest].(aliases := table[dest].aliases + aliases)]
  }

  /** Once every builder meeting `aliases` is `dest`, giving it all of them finishes the addition. */
  lemma FinishAdding(naming: Naming, h: History, hosts: set<Host>, endpoints: set<Endpoint>, table: Table,
                     byAlias: map<Name, AssetBuilder>, aliases: set<Name>, dest: AssetBuilder)
    requires Adding(naming, h, hosts, endpoints, table, byAlias, aliases)
    requires dest in table && (table[dest].aliases * aliases != {} || table[dest].aliases == {})
    requires forall b | b in table && b != dest :: table[b].aliases !! aliases
    ensures Sound(naming, h + [aliases], hosts, endpoints, Widened(table, dest, aliases),
                  Redirected(byAlias, table[dest].aliases + aliases, dest))
  {
    hide Linked, Naming.HostAliases, Naming.EndpointAlias;
    var wide, redirected := Widened(table, dest, aliases), Redirected(byAlias, table[dest].aliases + aliases, dest);
    WidenIndexed(table, byAlias, aliases, dest);
    WidenConnected(h, table, aliases, dest);
    assert Gathered(h + [aliases], wide, redirected) by {
      forall s, a | s in h + [aliases] && a in s ensures a in redirected && s <= wide[redirected[a]].aliases {
        if s in h {
          assert s <= table[byAlias[a]].aliases;
        }
      }
    }
    WidenHoused(naming, hosts, endpoints, table, byAlias, aliases, dest);
  }

  lemma WidenIndexed(table: Table, byAlias: map<Name, AssetBuilder>, aliases: set<Name>, dest: AssetBuilder)
    requires Indexed(table, byAlias) && dest in table
    requires forall b | b in table && b != dest :: table[b].aliases !! aliases
    ensures Indexed(Widened(table, dest, aliases), Redirected(byAlias, table[dest].aliases + aliases, dest))
  {
  }

  lemma WidenConnected(h: History, table: Table, aliases: set<Name>, dest: AssetBuilder)
    requires Connected(h + [aliases], table) && dest in table
    requires table[dest].aliases * aliases != {} || table[dest].aliases == {}
    ensures Connected(h + [aliases], Widened(table, dest, aliases))
  {
    hide Linked;
    var k := h + [aliases];
    var wide := Widened(table, dest, aliases);
    forall a, c | a in wide[dest].aliases && c in wide[dest].aliases ensures Linked(k, a, c) {
      if a !in table[dest].aliases || c !in table[dest].aliases {
        LinkedThrough(k, table[dest].aliases, aliases, a, c);
      }
    }
  }

  lemma LinkedThrough(k: History, own: set<Name>, aliases: set<Name>, a: Name, c: Name)
    requires aliases in k && (own * aliases != {} || own == {})
    requires forall x, y | x in own && y in own :: Linked(k, x, y)
    requires a in own + aliases && c in own + aliases
    ensures Linked(k, a, c)
  {
    hide Linked;
    if a in aliases && c in aliases {
      assert Adjacent(k, a, c);
      AdjacentLinked(k, a, c);
    } else if a !in own || c !in own {
      var x :| x in own * aliases;
      if a in own {
        assert Adjacent(k, x, c);
        AdjacentLinked(k, x, c);
        LinkedTransitive(k, a, x, c);
      } else {
        assert Adjacent(k, a, x);
        AdjacentLinked(k, a, x);
        LinkedTransitive(k, a, x, c);
      }
    }
  }

  lemma WidenHoused(naming: Naming, hosts: set<Host>, endpoints: set<Endpoint>, table: Table,
                    byAlias: map<Name, AssetBuilder>, aliases: set<Name>, dest: AssetBuilder)
    requires Indexed(table, byAlias) && Housed(naming, hosts, endpoints, table, byAlias) && dest in table
    requires Indexed(Widened(table, dest, aliases), Redirected(byAlias, table[dest].aliases + aliases, dest))
    requires forall b | b in table && b != dest :: table[b].aliases !! aliases
    ensures Housed(naming, hosts, endpoints, Widened(table, dest, aliases),
                   Redirected(byAlias, table[dest].aliases + aliases, dest))
  {
    hide Naming.HostAliases, Naming.EndpointAlias;
  }

  /** The partition theorem: two aliases resolve to the same builder exactly when they are linked. */
  lemma SameBuilderIffLinked(naming: Naming, h: History, hosts: set<Host>, endpoints: set<Endpoint>, table: Table,
                             byAlias: map<Name, AssetBuilder>, a: Name, c: Name)
    requires Sound(naming, h, hosts, endpoints, table, byAlias)
    ensures (a in byAlias && c in byAlias && byAlias[a] == byAlias[c]) <==> (a in byAlias && Linked(h, a, c))
    ensures (exists s :: s in h && a in s) ==> a in byAlias
  {
    if a in byAlias && Linked(h, a, c) {
      hide Linked, Housed, Connected, Adjacent;
      var inside := table[byAlias[a]].aliases;
      var p := LinkWitness(h, a, c);
      forall s | s in h && s * inside != {} ensures s <= inside {
        var x :| x in s * inside;
        assert byAlias[x] == byAlias[a];
      }
      LinkedStaysInside(h, inside, p);
    }
    if exists s :: s in h && a in s {
      var s :| s in h && a in s;
      assert a in byAlias;
    }
  }

  lemma LinkWitness(h: History, a: Name, c: Name) returns (p: seq<Name>)
    requires Linked(h, a, c)
    ensures Chain(h, p) && p[0] == a && p[|p| - 1] == c
  {
    p :| Chain(h, p) && p[0] == a && p[|p| - 1] == c;
  }
}
