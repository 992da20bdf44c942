/**
 * The insertion-ordered dictionary of JavaScript (`Map`): iteration follows
 * the order in which keys were first inserted; `set` on a present key
 * replaces the value in place, `delete` forgets the key, so that a later
 * `set` appends it at the end again.
 */
module OrderedMaps {
  import opened Wrappers

  function RemoveKey<K(==,!new)>(keys: seq<K>, k: K): (r: seq<K>)
    ensures forall x :: x in r <==> x in keys && x != k
    ensures |r| <= |keys|
  {
    if |keys| == 0 then []
    else if keys[0] == k then RemoveKey(keys[1..], k)
    else [keys[0]] + RemoveKey(keys[1..], k)
  }

  ghost predicate Distinct<K(!new)>(s: seq<K>) {
    forall i, j :: 0 <= i < j < |s| ==> s[i] != s[j]
  }

  /** `before` comes strictly earlier than `after` in `s`. */
  ghost predicate Precedes<K(!new)>(s: seq<K>, before: K, after: K) {
    exists i, j :: 0 <= i < j < |s| && s[i] == before && s[j] == after
  }

  lemma {:induction false} RemoveKeyDistinct<K(!new)>(keys: seq<K>, k: K)
    requires Distinct(keys)
    ensures Distinct(RemoveKey(keys, k))
  {
    if |keys| > 0 {
      RemoveKeyDistinct(keys[1..], k);
      if keys[0] != k {
        var t := RemoveKey(keys[1..], k);
        assert keys[0] !in keys[1..];
        assert keys[0] !in t;
      }
    }
  }

  /** Removing a key keeps the relative order of all other keys. */
  lemma {:induction false} RemoveKeyKeepsOrder<K(!new)>(keys: seq<K>, k: K, a: K, b: K)
    requires Precedes(keys, a, b) && a != k && b != k
    ensures Precedes(RemoveKey(keys, k), a, b)
  {
    var i, j :| 0 <= i < j < |keys| && keys[i] == a && keys[j] == b;
    var t := RemoveKey(keys[1..], k);
    if i == 0 {
      assert b in keys[1..];
      assert b in t;
      var j' :| 0 <= j' < |t| && t[j'] == b;
      assert ([keys[0]] + t)[0] == a && ([keys[0]] + t)[j' + 1] == b;
    } else {
      assert keys[1..][i - 1] == a && keys[1..][j - 1] == b;
      RemoveKeyKeepsOrder(keys[1..], k, a, b);
      var i', j' :| 0 <= i' < j' < |t| && t[i'] == a && t[j'] == b;
      if keys[0] != k {
        assert ([keys[0]] + t)[i' + 1] == a && ([keys[0]] + t)[j' + 1] == b;
      }
    }
  }

  datatype OrderedMap<K(==,!new), V> = OrderedMap(keys: seq<K>, vals: map<K, V>) {

    ghost predicate Valid() {
      Distinct(keys) && (forall k :: k in keys <==> k in vals)
    }

    /** `map.get(k)`, `None` standing for `undefined`. */
    function Get(k: K): Option<V> {
      if k in vals then Some(vals[k]) else None
    }

    /** `map.set(k, v)`. */
    function Set(k: K, v: V): (m: OrderedMap<K, V>)
      requires Valid()
      ensures m.Valid()
      ensures m.vals == vals[k := v]
      ensures k in vals ==> m.keys == keys
      ensures k !in vals ==> m.keys == keys + [k]
    {
      if k in vals then OrderedMap(keys, vals[k := v])
      else OrderedMap(keys + [k], vals[k := v])
    }

    /** `map.delete(k)`. */
    function Delete(k: K): (m: OrderedMap<K, V>)
      requires Valid()
      ensures m.Valid()
      ensures m.vals == vals - {k}
      ensures m.keys == RemoveKey(keys, k)
    {
      RemoveKeyDistinct(keys, k);
      OrderedMap(RemoveKey(keys, k), vals - {k})
    }

    /** `Array.from(map.values())`. */
    function Values(): (r: seq<V>)
      requires Valid()
      ensures |r| == |keys|
      ensures forall i :: 0 <= i < |keys| ==> r[i] == vals[keys[i]]
    {
      ValuesOf(keys, vals)
    }
  }

  function ValuesOf<K(==,!new), V>(keys: seq<K>, vals: map<K, V>): (r: seq<V>)
    requires forall k :: k in keys ==> k in vals
    ensures |r| == |keys|
    ensures forall i :: 0 <= i < |keys| ==> r[i] == vals[keys[i]]
  {
    if |keys| == 0 then [] else [vals[keys[0]]] + ValuesOf(keys[1..], vals)
  }

  function Empty<K(==,!new), V>(): (m: OrderedMap<K, V>)
    ensures m.Valid() && m.keys == []
  {
    OrderedMap([], map[])
  }

  /**
   * `getFallback(k, fallback)` of the host framework's maps: the present value,
   * or `fallback` after storing it under `k`.
   */
  function GetFallback<K(==,!new), V>(m: OrderedMap<K, V>, k: K, fallback: V): (r: (OrderedMap<K, V>, V))
    requires m.Valid()
    ensures r.0.Valid()
    ensures k in m.vals ==> r == (m, m.vals[k])
    ensures k !in m.vals ==> r.1 == fallback && r.0 == m.Set(k, fallback)
  {
    if k in m.vals then (m, m.vals[k]) else (m.Set(k, fallback), fallback)
  }

  /** Replacing the value of a present key does not move it. */
  lemma SetPresentKeepsPosition<K(!new), V>(m: OrderedMap<K, V>, k: K, v: V, i: nat)
    requires m.Valid() && i < |m.keys| && m.keys[i] == k
    ensures m.Set(k, v).keys == m.keys
    ensures m.Set(k, v).Values() == m.Values()[i := v]
  {
  }

  /** A key deleted and then set again moves to the end of the iteration order. */
  lemma {:induction false} DeleteThenSetMovesToEnd<K(!new), V>(m: OrderedMap<K, V>, k: K, v: V)
    requires m.Valid() && k in m.vals
    ensures var m' := m.Delete(k).Set(k, v);
      m'.keys == RemoveKey(m.keys, k) + [k] && m'.keys[|m'.keys| - 1] == k
      && |m'.keys| == |m.keys|
  {
    var d := m.Delete(k);
    assert k !in d.vals;
    RemoveKeyCount(m.keys, k);
  }

  lemma {:induction false} RemoveKeyCount<K(!new)>(keys: seq<K>, k: K)
    requires Distinct(keys) && k in keys
    ensures |RemoveKey(keys, k)| == |keys| - 1
  {
    if keys[0] == k {
      assert k !in keys[1..];
      RemoveKeyAbsent(keys[1..], k);
    } else {
      RemoveKeyCount(keys[1..], k);
    }
  }

  lemma {:induction false} RemoveKeyAbsent<K(!new)>(keys: seq<K>, k: K)
    requires k !in keys
    ensures RemoveKey(keys, k) == keys
  {
    if |keys| > 0 {
      RemoveKeyAbsent(keys[1..], k);
      assert keys == [keys[0]] + keys[1..];
    }
  }
}
