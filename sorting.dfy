/**
 * The stable sort the pipeline relies on (`Array.prototype.sort` with a
 * numeric comparator, stable since ES2019), written as an insertion sort of
 * positions: sorting positions rather than elements lets the result be
 * stated as a permutation of indices, which also expresses stability.
 */
module Sorting {
  import opened Config

  lemma IdxLessTransitive(a: Idx, b: Idx, c: Idx)
    requires IdxLess(a, b) && IdxLess(b, c)
    ensures IdxLess(a, c)
  {}

  lemma IdxLessTotal(a: Idx, b: Idx)
    ensures a == b || IdxLess(a, b) || IdxLess(b, a)
    ensures !(IdxLess(a, b) && IdxLess(b, a))
  {}

  /** Position `p` goes before position `q`: smaller key, or same key and earlier. */
  predicate PosBefore(keys: seq<Idx>, p: nat, q: nat)
    requires p < |keys| && q < |keys|
  {
    IdxLess(keys[p], keys[q]) || (keys[p] == keys[q] && p < q)
  }

  predicate SortedPositions(keys: seq<Idx>, ps: seq<nat>)
  {
    (forall i :: 0 <= i < |ps| ==> ps[i] < |keys|) &&
    (forall i, j :: 0 <= i < j < |ps| ==> PosBefore(keys, ps[i], ps[j]))
  }

  /** Inserts `p` before the first position whose key is strictly greater. */
  function InsertPos(keys: seq<Idx>, ps: seq<nat>, p: nat): (r: seq<nat>)
    requires p < |keys|
    requires SortedPositions(keys, ps)
    requires forall i :: 0 <= i < |ps| ==> ps[i] < p
    ensures |r| == |ps| + 1
    ensures forall x :: x in r <==> x == p || x in ps
    ensures SortedPositions(keys, r)
  {
    if |ps| == 0 then [p]
    else if IdxLess(keys[p], keys[ps[0]]) then
      assert forall j :: 0 <= j < |ps| ==> PosBefore(keys, p, ps[j]) by {
        forall j | 0 <= j < |ps|
          ensures PosBefore(keys, p, ps[j])
        {
          if j > 0 {
            assert PosBefore(keys, ps[0], ps[j]);
            if IdxLess(keys[ps[0]], keys[ps[j]]) {
              IdxLessTransitive(keys[p], keys[ps[0]], keys[ps[j]]);
            }
          }
        }
      }
      [p] + ps
    else
      var rest := InsertPos(keys, ps[1..], p);
      assert PosBefore(keys, ps[0], p) by {
        IdxLessTotal(keys[p], keys[ps[0]]);
      }
      assert forall j :: 0 <= j < |rest| ==> PosBefore(keys, ps[0], rest[j]) by {
        forall j | 0 <= j < |rest|
          ensures PosBefore(keys, ps[0], rest[j])
        {
          assert rest[j] in rest;
          if rest[j] != p {
            assert rest[j] in ps[1..];
            var k :| 1 <= k < |ps| && ps[k] == rest[j];
            assert PosBefore(keys, ps[0], ps[k]);
          }
        }
      }
      [ps[0]] + rest
  }

  /** The positions `0 .. n-1` in stable key order. */
  function SortPositions(keys: seq<Idx>, n: nat): (r: seq<nat>)
    requires n <= |keys|
    ensures |r| == n
    ensures forall x: nat :: x in r <==> x < n
    ensures SortedPositions(keys, r)
  {
    if n == 0 then []
    else
      var ps := SortPositions(keys, n - 1);
      assert forall i :: 0 <= i < |ps| ==> ps[i] in ps;
      InsertPos(keys, ps, n - 1)
  }

  lemma SortedPositionsDistinct(keys: seq<Idx>, ps: seq<nat>)
    requires SortedPositions(keys, ps)
    ensures forall i, j :: 0 <= i < j < |ps| ==> ps[i] != ps[j]
  {
    forall i, j | 0 <= i < j < |ps|
      ensures ps[i] != ps[j]
    {
      assert PosBefore(keys, ps[i], ps[j]);
    }
  }

  function KeysOf<T>(s: seq<T>, key: T -> Idx): (ks: seq<Idx>)
    ensures |ks| == |s|
    ensures forall i :: 0 <= i < |s| ==> ks[i] == key(s[i])
  {
    if |s| == 0 then [] else KeysOf(s[..|s| - 1], key) + [key(s[|s| - 1])]
  }

  function Permute<T>(s: seq<T>, ps: seq<nat>): (r: seq<T>)
    requires forall i :: 0 <= i < |ps| ==> ps[i] < |s|
    ensures |r| == |ps|
    ensures forall i :: 0 <= i < |ps| ==> r[i] == s[ps[i]]
  {
    if |ps| == 0 then [] else [s[ps[0]]] + Permute(s, ps[1..])
  }

  /** The order of a stable sort of `s` by `key`, as positions into `s`. */
  function SortOrder<T>(s: seq<T>, key: T -> Idx): (ps: seq<nat>)
    ensures |ps| == |s|
    ensures forall x: nat :: x in ps <==> x < |s|
    ensures SortedPositions(KeysOf(s, key), ps)
  {
    SortPositions(KeysOf(s, key), |s|)
  }

  /** `s` sorted by `key`, ties kept in their original order. */
  function StableSort<T>(s: seq<T>, key: T -> Idx): (r: seq<T>)
    ensures |r| == |s|
  {
    Permute(s, SortOrder(s, key))
  }

  /**
   * The stable sort is a permutation of its input that is ordered by key and
   * keeps equal-keyed elements in their input order.
   */
  lemma StableSortSpec<T>(s: seq<T>, key: T -> Idx)
    ensures var ps := SortOrder(s, key);
      var r := StableSort(s, key);
      (forall i, j :: 0 <= i < j < |ps| ==> ps[i] != ps[j]) &&
      (forall x: nat :: x in ps <==> x < |s|) &&
      (forall i :: 0 <= i < |r| ==> r[i] == s[ps[i]]) &&
      (forall i, j :: 0 <= i < j < |r| ==> !IdxLess(key(r[j]), key(r[i]))) &&
      (forall i, j :: 0 <= i < j < |r| && key(r[i]) == key(r[j]) ==> ps[i] < ps[j])
  {
    var ps := SortOrder(s, key);
    var ks := KeysOf(s, key);
    var r := StableSort(s, key);
    SortedPositionsDistinct(ks, ps);
    forall i, j | 0 <= i < j < |r|
      ensures !IdxLess(key(r[j]), key(r[i]))
      ensures key(r[i]) == key(r[j]) ==> ps[i] < ps[j]
    {
      assert PosBefore(ks, ps[i], ps[j]);
      IdxLessTotal(ks[ps[i]], ks[ps[j]]);
    }
  }

  /** A sequence whose keys are all equal is left as it is. */
  lemma StableSortSorted<T>(s: seq<T>, key: T -> Idx)
    requires forall i :: 0 <= i < |s| ==> key(s[i]) == key(s[0])
    ensures StableSort(s, key) == s
  {
    var ps := SortOrder(s, key);
    var ks := KeysOf(s, key);
    SortedPositionsDistinct(ks, ps);
    forall i | 0 <= i < |ps|
      ensures ps[i] == i
    {
      // all keys are equal, so positions are strictly increasing and cover 0..n-1
      PositionsIncreasing(ks, ps, i);
    }
  }

  lemma {:induction false} PositionsIncreasing(ks: seq<Idx>, ps: seq<nat>, i: nat)
    requires SortedPositions(ks, ps)
    requires |ps| == |ks|
    requires forall x: nat :: x in ps <==> x < |ks|
    requires forall k :: 0 <= k < |ks| ==> ks[k] == ks[0]
    requires i < |ps|
    ensures ps[i] == i
  {
    // positions before index i are exactly the i smallest ones
    var below := set k | 0 <= k < i :: ps[k];
    var under := Below(ps[i]);
    forall k | 0 <= k < i ensures ps[k] < ps[i] {
      assert PosBefore(ks, ps[k], ps[i]);
    }
    forall k | i < k < |ps| ensures ps[i] < ps[k] {
      assert PosBefore(ks, ps[i], ps[k]);
    }
    forall x: nat | x < ps[i] ensures x in below {
      assert x in ps;
      var k :| 0 <= k < |ps| && ps[k] == x;
      assert k < i;
    }
    assert under <= below;
    SortedPositionsDistinct(ks, ps);
    CardImage(ps, i);
    assert |below| == i;
    forall y | y in below ensures y in under {}
    assert below == under;
  }

  lemma {:induction false} CardImage(ps: seq<nat>, i: nat)
    requires i <= |ps|
    requires forall a, b :: 0 <= a < b < |ps| ==> ps[a] != ps[b]
    ensures |set k | 0 <= k < i :: ps[k]| == i
  {
    if i > 0 {
      CardImage(ps, i - 1);
      var prev := set k | 0 <= k < i - 1 :: ps[k];
      var cur := set k | 0 <= k < i :: ps[k];
      assert cur == prev + {ps[i - 1]};
      assert ps[i - 1] !in prev;
    }
  }
}
