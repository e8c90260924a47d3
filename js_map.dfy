/** JavaScript's built-in `Map`: keyed entries that remember the order in
    which their keys were first inserted. */
module JsMaps {

  /** No element occurs twice. */
  ghost predicate Distinct<K>(s: seq<K>) {
    forall i, j | 0 <= i < j < |s| :: s[i] != s[j]
  }

  /** `s` with every occurrence of `k` taken out, the rest in order. */
  function Without<K(==)>(s: seq<K>, k: K): (r: seq<K>)
    ensures forall x | x in r :: x in s && x != k
    ensures forall x | x in s && x != k :: x in r
    ensures |r| <= |s|
    ensures Distinct(s) ==> Distinct(r)
  {
    if s == [] then []
    else if s[0] == k then Without(s[1..], k)
    else
      var rest := Without(s[1..], k);
      assert Distinct(s) ==> s[0] !in s[1..];
      [s[0]] + rest
  }

  /** Removing an element that does not occur changes nothing. */
  lemma {:induction false} WithoutAbsent<K>(s: seq<K>, k: K)
    requires k !in s
    ensures Without(s, k) == s
  {
    if s != [] {
      WithoutAbsent(s[1..], k);
    }
  }

  /** In a list without repetitions, removing the first element leaves the rest. */
  lemma WithoutFirst<K>(s: seq<K>)
    requires |s| > 0 && Distinct(s)
    ensures Without(s, s[0]) == s[1..]
  {
    assert s[0] !in s[1..];
    WithoutAbsent(s[1..], s[0]);
  }

  /** A list without repetitions has as many elements as the set of its elements. */
  lemma {:induction false} DistinctCardinality<K>(s: seq<K>)
    requires Distinct(s)
    ensures |set x | x in s| == |s|
  {
    if s != [] {
      DistinctCardinality(s[1..]);
      assert (set x | x in s) == (set x | x in s[1..]) + {s[0]};
      assert s[0] !in s[1..];
    }
  }

  /** A `Map`: `order` lists the keys oldest first, as the map's key
      iterator yields them; `entries` holds the value under each key. */
  class JsMap<K(==), V> {
    var order: seq<K>
    var entries: map<K, V>

    ghost predicate Valid()
      reads this
    {
      && Distinct(order)
      && (forall k | k in order :: k in entries)
      && (forall k | k in entries :: k in order)
    }

    /** `new Map()` */
    constructor ()
      ensures Valid() && order == [] && entries == map[]
    {
      order := [];
      entries := map[];
    }

    /** `map.size`: the number of entries. */
    function Size(): (n: nat)
      reads this
      requires Valid()
      ensures n == |entries| == |order|
    {
      DistinctCardinality(order);
      assert entries.Keys == set x | x in order;
      |order|
    }

    /** `map.has(k)` */
    function Has(k: K): bool
      reads this
    {
      k in entries
    }

    /** `map.set(k, v)`: a new key goes to the end of the insertion order; an
        existing key keeps its place and gets the new value. */
    method Set(k: K, v: V)
      requires Valid()
      modifies this
      ensures Valid()
      ensures entries == old(entries)[k := v]
      ensures order == if k in old(entries) then old(order) else old(order) + [k]
    {
      if k !in entries {
        order := order + [k];
      }
      entries := entries[k := v];
    }

    /** `map.delete(k)` */
    method Delete(k: K)
      requires Valid()
      modifies this
      ensures Valid()
      ensures entries == old(entries) - {k}
      ensures order == Without(old(order), k)
    {
      order := Without(order, k);
      entries := entries - {k};
    }
  }
}
