/** Capability definitions and the registry that stores them (sdk/capability_definition.py,
    planning/registry.py). */
module Definitions {
  import opened Prelude
  import opened Ordering

  /** `needs` and `offers` are the source fields `requires` and `provides`, reserved words here. */
  datatype Definition = Definition(id: Name, needs: seq<Name>, offers: seq<Name>) {
    /** What the constructor of a definition leaves: ordered, duplicate-free keys, and some output. */
    predicate WellFormed() {
      StrictlyAscending(needs) && StrictlyAscending(offers) && offers != []
    }
  }

  /** The registry's `_by_id` dictionary. */
  type Catalog = map<Name, Definition>

  ghost predicate ValidCatalog(reg: Catalog) {
    forall id | id in reg :: reg[id].id == id && reg[id].WellFormed()
  }

  function Producers(reg: Catalog, key: Name): set<Name> {
    set id | id in reg && key in reg[id].offers
  }

  /** The one definition offering a key, when there is exactly one. */
  function Supplier(reg: Catalog, key: Name): (r: Option<Name>)
    ensures r.Some? ==> Producers(reg, key) == {r.value} && r.value in reg
    ensures r.None? ==> |Producers(reg, key)| != 1
  {
    var all := Producers(reg, key);
    if |all| == 1 then
      var d := Least(all);
      SubsetSize({d}, all);
      Some(d)
    else None
  }

  lemma SupplierIs(reg: Catalog, key: Name, d: Name)
    ensures Supplier(reg, key) == Some(d) <==> Producers(reg, key) == {d}
  {
    if Producers(reg, key) == {d} {
      assert |{d}| == 1;
      assert Supplier(reg, key).value in {d};
    } else if Supplier(reg, key) == Some(d) {
      assert false;
    }
  }

  class CapabilityRegistry {
    var byId: Catalog

    ghost predicate Valid()
      reads this
    {
      ValidCatalog(byId)
    }

    constructor ()
      ensures Valid() && byId == map[]
    {
      byId := map[];
    }

    /** `register`: an identity already present is refused and nothing is replaced. */
    method Register(definition: Definition) returns (ok: bool)
      requires Valid() && definition.WellFormed()
      modifies this
      ensures Valid()
      ensures ok <==> definition.id !in old(byId)
      ensures byId == if ok then old(byId)[definition.id := definition] else old(byId)
    {
      ok := definition.id !in byId;
      if ok {
        byId := byId[definition.id := definition];
      }
    }

    /** `producers_for`: every definition offering the key, ordered by identity. */
    function ProducersFor(key: Name): (r: seq<Definition>)
      requires Valid()
      reads this
      ensures |r| == |Producers(byId, key)|
      ensures forall d :: d in r <==> d.id in byId && byId[d.id] == d && key in d.offers
      ensures forall i, j | 0 <= i < j < |r| :: r[i].id < r[j].id
    {
      assert Producers(byId, key) <= byId.Keys;
      InOrder(byId, Producers(byId, key))
    }
  }

  /** The definitions of some registered identities, ordered by identity. */
  function InOrder(reg: Catalog, ids: set<Name>): (r: seq<Definition>)
    requires ValidCatalog(reg) && ids <= reg.Keys
    ensures |r| == |ids|
    ensures forall d :: d in r <==> d.id in ids && reg[d.id] == d
    ensures forall i, j | 0 <= i < j < |r| :: r[i].id < r[j].id
  {
    if ids == {} then []
    else
      var first := Least(ids);
      [reg[first]] + InOrder(reg, ids - {first})
  }

  /** The catalogue left by registering a tuple of definitions in turn, or None at the first refusal. */
  function Registered(definitions: seq<Definition>): Option<Catalog> {
    if definitions == [] then Some(map[])
    else
      var last := definitions[|definitions| - 1];
      match Registered(definitions[..|definitions| - 1])
      case None => None
      case Some(reg) => if last.id in reg then None else Some(reg[last.id := last])
  }

  /** The registry built by registering the definitions one after the other. */
  method BuildRegistry(definitions: seq<Definition>) returns (r: Option<CapabilityRegistry>)
    requires forall d | d in definitions :: d.WellFormed()
    ensures r.None? <==> Registered(definitions).None?
    ensures r.Some? ==> fresh(r.value) && r.value.Valid() && Registered(definitions) == Some(r.value.byId)
  {
    var registry := new CapabilityRegistry();
    for i := 0 to |definitions|
      invariant registry.Valid() && fresh(registry)
      invariant Registered(definitions[..i]) == Some(registry.byId)
    {
      assert definitions[..i + 1][..i] == definitions[..i];
      var ok := registry.Register(definitions[i]);
      if !ok {
        NoneStaysNone(definitions, i + 1);
        return None;
      }
    }
    assert definitions[..|definitions|] == definitions;
    return Some(registry);
  }

  lemma {:induction false} NoneStaysNone(definitions: seq<Definition>, i: nat)
    requires i <= |definitions| && Registered(definitions[..i]).None?
    ensures Registered(definitions).None?
    decreases |definitions|
  {
    if i == |definitions| {
      assert definitions[..i] == definitions;
    } else {
      var front := definitions[..|definitions| - 1];
      assert front[..i] == definitions[..i];
      NoneStaysNone(front, i);
    }
  }

  /** Registration succeeds exactly on distinct identities, and then holds each definition once. */
  lemma {:induction false} RegisteredExactly(definitions: seq<Definition>)
    ensures Registered(definitions).Some? <==>
            forall i, j | 0 <= i < j < |definitions| :: definitions[i].id != definitions[j].id
    ensures Registered(definitions).Some? ==>
              forall d :: d in definitions <==>
                d.id in Registered(definitions).value && Registered(definitions).value[d.id] == d
    ensures Registered(definitions).Some? ==>
              forall id | id in Registered(definitions).value :: Registered(definitions).value[id].id == id
  {
    if definitions != [] {
      var n := |definitions| - 1;
      var front := definitions[..n];
      var last := definitions[n];
      RegisteredExactly(front);
      assert definitions == front + [last];
      if Registered(front).Some? {
        var reg := Registered(front).value;
        assert last.id in reg <==> exists i :: 0 <= i < n && definitions[i].id == last.id by {
          if last.id in reg {
            assert reg[last.id] in front;
            var i :| 0 <= i < n && front[i] == reg[last.id];
            assert definitions[i].id == last.id;
          }
          if i :| 0 <= i < n && definitions[i].id == last.id {
            assert front[i] in front;
          }
        }
      } else {
        var i, j :| 0 <= i < j < n && front[i].id == front[j].id;
        assert definitions[i].id == definitions[j].id;
      }
    }
  }

  /** The catalogue depends on the definitions as a collection, never on the order they came in. */
  lemma {:induction false} RegistrationOrderIrrelevant(a: seq<Definition>, b: seq<Definition>)
    requires multiset(a) == multiset(b)
    ensures Registered(a) == Registered(b)
  {
    RegisteredExactly(a);
    RegisteredExactly(b);
    assert forall d :: d in a <==> d in multiset(a);
    assert forall d :: d in b <==> d in multiset(b);
    if Registered(a).Some? {
      DistinctUnderPermutation(a, b);
      SameCatalog(Registered(a).value, Registered(b).value);
    } else if Registered(b).Some? {
      DistinctUnderPermutation(b, a);
      assert false;
    }
  }

  lemma {:induction false} SameCatalog(a: Catalog, b: Catalog)
    requires forall id | id in a :: a[id].id == id
    requires forall id | id in b :: b[id].id == id
    requires forall d: Definition :: (d.id in a && a[d.id] == d) <==> (d.id in b && b[d.id] == d)
    ensures a == b
  {
    forall id ensures id in a <==> id in b {
      if id in a { var d := a[id]; assert d.id in b; }
      if id in b { var d := b[id]; assert d.id in a; }
    }
    forall id | id in a ensures a[id] == b[id] {
      var d := a[id];
      assert d.id in b && b[d.id] == d;
    }
  }

  lemma {:induction false} DistinctUnderPermutation(a: seq<Definition>, b: seq<Definition>)
    requires multiset(a) == multiset(b)
    requires forall i, j | 0 <= i < j < |a| :: a[i].id != a[j].id
    ensures forall i, j | 0 <= i < j < |b| :: b[i].id != b[j].id
  {
    forall i, j | 0 <= i < j < |b| ensures b[i].id != b[j].id {
      if b[i].id == b[j].id {
        assert b[i] in multiset(b) && b[j] in multiset(b);
        assert b[i] in a && b[j] in a;
        var x :| 0 <= x < |a| && a[x] == b[i];
        var y :| 0 <= y < |a| && a[y] == b[j];
        assert x == y;
        CountTwice(b, i, j);
        CountOnce(a, x);
      }
    }
  }

  lemma CountTwice<T>(s: seq<T>, i: nat, j: nat)
    requires i < j < |s| && s[i] == s[j]
    ensures multiset(s)[s[i]] >= 2
  {
    assert s == s[..i] + [s[i]] + s[i + 1..j] + [s[j]] + s[j + 1..];
  }

  lemma CountOnce(s: seq<Definition>, i: nat)
    requires i < |s|
    requires forall x, y | 0 <= x < y < |s| :: s[x].id != s[y].id
    ensures multiset(s)[s[i]] == 1
  {
    assert s == s[..i] + [s[i]] + s[i + 1..];
    assert s[i] !in s[..i];
    assert s[i] !in s[i + 1..];
    assert multiset(s) == multiset(s[..i]) + multiset{s[i]} + multiset(s[i + 1..]);
  }
}
