/**
 * A JavaScript `Map` with string keys: its entries together with the order in
 * which their keys were first inserted. `set` on a key already present keeps
 * that key's position; `delete` removes the key from the order.
 */
module OrderedMaps {

  datatype OrderedMap<V> = OrderedMap(keys: seq<string>, entries: map<string, V>)

  predicate Distinct(s: seq<string>) {
    forall i, j :: 0 <= i < j < |s| ==> s[i] != s[j]
  }

  /** The order lists every key of the map exactly once. */
  ghost predicate Valid<V>(m: OrderedMap<V>) {
    Distinct(m.keys) && forall k :: k in m.entries <==> k in m.keys
  }

  function Empty<V>(): (r: OrderedMap<V>)
    ensures Valid(r)
  {
    OrderedMap([], map[])
  }

  /** `m.size`. */
  function Size<V>(m: OrderedMap<V>): nat {
    |m.keys|
  }

  /** The number of entries is the length of the order. */
  lemma SizeIsEntryCount<V>(m: OrderedMap<V>)
    requires Valid(m)
    ensures |m.entries| == Size(m)
  {
    DistinctCard(m.keys, m.entries.Keys);
  }

  lemma {:induction false} DistinctCard(s: seq<string>, ks: set<string>)
    requires Distinct(s)
    requires forall k :: k in ks <==> k in s
    ensures |ks| == |s|
    decreases |s|
  {
    if s != [] {
      var x := s[|s| - 1];
      var init := s[..|s| - 1];
      forall k ensures k in ks - {x} <==> k in init {
        assert k in s <==> k in init || k == x;
        if k in init {
          var i :| 0 <= i < |init| && init[i] == k;
          assert s[i] == k;
        }
      }
      DistinctCard(init, ks - {x});
    }
  }

  /** `s` without the element `k`, order kept. */
  function RemoveKey(s: seq<string>, k: string): (r: seq<string>)
    ensures forall x :: x in r <==> x in s && x != k
    ensures Distinct(s) ==> Distinct(r)
    ensures Distinct(s) && k in s ==> |r| == |s| - 1
    ensures k !in s ==> r == s
  {
    if s == [] then []
    else
      var rest := RemoveKey(s[1..], k);
      assert forall x :: x in s <==> x == s[0] || x in s[1..];
      assert Distinct(s) ==> Distinct(s[1..]) && s[0] !in s[1..];
      if s[0] == k then rest else [s[0]] + rest
  }

  /** Removing the first element of a list without repeats drops exactly that element. */
  lemma RemoveFirstKey(s: seq<string>)
    requires Distinct(s) && s != []
    ensures RemoveKey(s, s[0]) == s[1..]
  {
    assert s[0] !in s[1..];
  }

  /** `m.set(k, v)`. */
  function Set<V>(m: OrderedMap<V>, k: string, v: V): (r: OrderedMap<V>)
    requires Valid(m)
    ensures Valid(r)
    ensures r.entries == m.entries[k := v]
    ensures r.keys == if k in m.entries then m.keys else m.keys + [k]
    ensures Size(r) == if k in m.entries then Size(m) else Size(m) + 1
  {
    if k in m.entries then OrderedMap(m.keys, m.entries[k := v])
    else OrderedMap(m.keys + [k], m.entries[k := v])
  }

  /** `m.delete(k)`. */
  function Delete<V>(m: OrderedMap<V>, k: string): (r: OrderedMap<V>)
    requires Valid(m)
    ensures Valid(r)
    ensures r.entries == m.entries - {k}
    ensures r.keys == RemoveKey(m.keys, k)
    ensures Size(r) == if k in m.entries then Size(m) - 1 else Size(m)
  {
    OrderedMap(RemoveKey(m.keys, k), m.entries - {k})
  }
}
