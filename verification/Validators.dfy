/**
 The validator registry and the list the election scans. Every node must scan
 the same list, whichever store holds its registry.
 */
module Validators {
  import opened Types

  type Registry = map<Address, Validator>

  /** `upsert` files a validator under the address its public key derives. */
  ghost predicate KeyedByAddress(registry: Registry) {
    forall a :: a in registry ==> registry[a].address == a && AddressOf(registry[a].pubkey) == a
  }

  predicate Active(v: Validator, slot: U64) {
    v.activeSince <= slot && v.stake > 0
  }

  lemma {:induction false} LeastExists(s: set<Address>)
    requires s != {}
    ensures exists a :: a in s && forall b :: b in s ==> a <= b
  {
    var a :| a in s;
    var rest := s - {a};
    if rest != {} {
      LeastExists(rest);
      var c :| c in rest && forall b :: b in rest ==> c <= b;
      assert forall b :: b in s ==> b == a || b in rest;
      if c < a {
        assert c in s && forall b :: b in s ==> c <= b;
      } else {
        assert a in s && forall b :: b in s ==> a <= b;
      }
    } else {
      assert s == {a};
    }
  }

  function Least(s: set<Address>): (a: Address)
    requires s != {}
    ensures a in s && forall b :: b in s ==> a <= b
  {
    LeastExists(s);
    var a :| a in s && forall b :: b in s ==> a <= b;
    a
  }

  /** The key order of a sled tree. */
  function KeyOrder(s: set<Address>): (r: seq<Address>)
    ensures forall a :: a in r <==> a in s
    ensures forall i, j :: 0 <= i < j < |r| ==> r[i] < r[j]
  {
    if s == {} then [] else [Least(s)] + KeyOrder(s - {Least(s)})
  }

  function ActiveOf(registry: Registry, keys: seq<Address>, slot: U64): (r: seq<Validator>)
    requires forall a :: a in keys ==> a in registry
  {
    if keys == [] then []
    else
      var last := registry[keys[|keys| - 1]];
      ActiveOf(registry, keys[..|keys| - 1], slot) + (if Active(last, slot) then [last] else [])
  }

  function ActiveList(registry: Registry, slot: U64): seq<Validator> {
    ActiveOf(registry, KeyOrder(registry.Keys), slot)
  }

  /** Strictly ascending addresses, and exactly the entries that have a stake and whose time has come. */
  ghost predicate IsActiveList(registry: Registry, slot: U64, list: seq<Validator>) {
    && (forall i, j :: 0 <= i < j < |list| ==> list[i].address < list[j].address)
    && (forall v :: v in list <==>
          v.address in registry && registry[v.address] == v && 0 < v.stake && v.activeSince <= slot)
  }

  lemma {:induction false} ActiveOfKeys(registry: Registry, keys: seq<Address>, slot: U64)
    requires KeyedByAddress(registry)
    requires forall a :: a in keys ==> a in registry
    requires forall i, j :: 0 <= i < j < |keys| ==> keys[i] < keys[j]
    ensures var r := ActiveOf(registry, keys, slot);
            && (forall i, j :: 0 <= i < j < |r| ==> r[i].address < r[j].address)
            && (forall v :: v in r <==> v.address in keys && registry[v.address] == v && Active(v, slot))
  {
    if keys != [] {
      var init, last := keys[..|keys| - 1], keys[|keys| - 1];
      ActiveOfKeys(registry, init, slot);
      assert keys == init + [last];
      var before, r := ActiveOf(registry, init, slot), ActiveOf(registry, keys, slot);
      forall i | 0 <= i < |before| ensures before[i].address < last {
        assert before[i] in before;
      }
      forall v ensures v in r <==> v.address in keys && registry[v.address] == v && Active(v, slot) {
        assert v in r <==> v in before || (Active(registry[last], slot) && v == registry[last]);
        assert v.address in keys <==> v.address in init || v.address == last;
      }
    }
  }

  lemma ActiveListIs(registry: Registry, slot: U64)
    requires KeyedByAddress(registry)
    ensures IsActiveList(registry, slot, ActiveList(registry, slot))
  {
    ActiveOfKeys(registry, KeyOrder(registry.Keys), slot);
  }

  /** Order and membership leave one list only, so the two stores cannot disagree. */
  lemma {:induction false} ActiveListUnique(a: seq<Validator>, b: seq<Validator>)
    requires forall i, j :: 0 <= i < j < |a| ==> a[i].address < a[j].address
    requires forall i, j :: 0 <= i < j < |b| ==> b[i].address < b[j].address
    requires forall v :: v in a <==> v in b
    ensures a == b
  {
    if a != [] { assert a[0] in b; }
    if b != [] { assert b[0] in a; }
    if a != [] {
      assert a[0] == b[0];
      forall v ensures v in a[1..] <==> v in b[1..] {
        assert v in a <==> v == a[0] || v in a[1..];
        assert v in b <==> v == b[0] || v in b[1..];
      }
      ActiveListUnique(a[1..], b[1..]);
      assert a == [a[0]] + a[1..] && b == [b[0]] + b[1..];
    }
  }

  lemma {:induction false} AscendingUnique(a: seq<nat>, b: seq<nat>)
    requires forall i, j :: 0 <= i < j < |a| ==> a[i] < a[j]
    requires forall i, j :: 0 <= i < j < |b| ==> b[i] < b[j]
    requires forall k: nat :: k in a <==> k in b
    ensures a == b
  {
    if a != [] { assert a[0] in b; }
    if b != [] { assert b[0] in a; }
    if a != [] {
      assert a[0] == b[0];
      forall k: nat ensures k in a[1..] <==> k in b[1..] {
        assert k in a <==> k == a[0] || k in a[1..];
        assert k in b <==> k == b[0] || k in b[1..];
      }
      AscendingUnique(a[1..], b[1..]);
      assert a == [a[0]] + a[1..] && b == [b[0]] + b[1..];
    }
  }
}
