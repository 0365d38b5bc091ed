/**
 * java.util.LinkedHashMap and java.util.LinkedHashSet as values.
 * A map keeps its keys in insertion order; putting an existing key
 * replaces the value and keeps the key where it was.
 */
module LinkedMaps {
  import opened Wrappers

  /** No element occurs twice. */
  predicate Distinct<T(==)>(s: seq<T>) {
    forall i, j :: 0 <= i < j < |s| ==> s[i] != s[j]
  }

  datatype LinkedMap<K(==,!new), V> = LinkedMap(keys: seq<K>, entries: map<K, V>)
  {
    /** The keys are distinct and are exactly the keys of the entries. */
    ghost predicate Valid() {
      Distinct(keys) && forall k :: k in entries <==> k in keys
    }

    /** Map.get: the value under `k`, or null. */
    function Get(k: K): Option<V> {
      if k in entries then Some(entries[k]) else None
    }

    /** Map.values(): the values in key insertion order. */
    function Values(): (vs: seq<V>)
      requires Valid()
      ensures |vs| == |keys|
      ensures forall i :: 0 <= i < |keys| ==> vs[i] == entries[keys[i]]
    {
      seq(|keys|, i requires 0 <= i < |keys| => entries[keys[i]])
    }

    /** Map.put: a new key goes last, an existing key keeps its position. */
    function Put(k: K, v: V): (m: LinkedMap<K, V>)
      requires Valid()
      ensures m.Valid()
      ensures m.entries == entries[k := v]
      ensures k in entries ==> m.keys == keys
      ensures k !in entries ==> m.keys == keys + [k]
    {
      if k in entries then LinkedMap(keys, entries[k := v])
      else LinkedMap(keys + [k], entries[k := v])
    }

    /** Map.remove: the key leaves the order, the other keys keep theirs. */
    function Remove(k: K): (m: LinkedMap<K, V>)
      requires Valid()
      ensures m.Valid()
      ensures m.entries == entries - {k}
      ensures m.keys == RemoveAll(keys, k)
    {
      RemoveAllNotIn(keys, k);
      RemoveAllSubset(keys, k);
      RemoveAllDistinct(keys, k);
      LinkedMap(RemoveAll(keys, k), entries - {k})
    }
  }

  /** The empty map. */
  function EmptyMap<K(==,!new), V>(): (m: LinkedMap<K, V>)
    ensures m.Valid() && m.keys == [] && m.entries == map[]
  {
    LinkedMap([], map[])
  }

  /** `s` without any occurrence of `x`, the rest in order. */
  function RemoveAll<T(==)>(s: seq<T>, x: T): seq<T> {
    if s == [] then []
    else if s[0] == x then RemoveAll(s[1..], x)
    else [s[0]] + RemoveAll(s[1..], x)
  }

  lemma {:induction false} RemoveAllNotIn<T>(s: seq<T>, x: T)
    ensures x !in RemoveAll(s, x)
  {
    if s != [] { RemoveAllNotIn(s[1..], x); }
  }

  lemma {:induction false} RemoveAllSubset<T(!new)>(s: seq<T>, x: T)
    ensures forall y :: y in RemoveAll(s, x) <==> y in s && y != x
  {
    if s != [] {
      RemoveAllSubset(s[1..], x);
      assert forall y :: y in s <==> y == s[0] || y in s[1..];
    }
  }

  lemma {:induction false} RemoveAllDistinct<T(!new)>(s: seq<T>, x: T)
    requires Distinct(s)
    ensures Distinct(RemoveAll(s, x))
  {
    if s != [] {
      RemoveAllDistinct(s[1..], x);
      RemoveAllSubset(s[1..], x);
      if s[0] != x {
        var r := RemoveAll(s[1..], x);
        assert s[0] !in s[1..] by {
          forall j | 0 <= j < |s[1..]| ensures s[1..][j] != s[0] {
            assert s[1..][j] == s[j + 1];
          }
        }
        forall i, j | 0 <= i < j < |[s[0]] + r| ensures ([s[0]] + r)[i] != ([s[0]] + r)[j] {
          assert ([s[0]] + r)[j] == r[j - 1];
          if i > 0 { assert ([s[0]] + r)[i] == r[i - 1]; }
        }
      }
    }
  }

  /** LinkedHashSet.add: an element not yet present goes last. */
  function AddLast<T(==,!new)>(s: seq<T>, x: T): (r: seq<T>)
    requires Distinct(s)
    ensures Distinct(r)
    ensures forall y :: y in r <==> y in s || y == x
    ensures x in s ==> r == s
    ensures x !in s ==> r == s + [x]
  {
    if x in s then s else s + [x]
  }

  /** LinkedHashSet.add of each element of `xs` in turn. */
  function AddAll<T(==,!new)>(s: seq<T>, xs: seq<T>): (r: seq<T>)
    requires Distinct(s)
    ensures Distinct(r)
    decreases |xs|
  {
    if |xs| == 0 then s else AddLast(AddAll(s, xs[..|xs| - 1]), xs[|xs| - 1])
  }

  /** The set starts with what it held, holds exactly the old elements and
    * those of `xs`, and adding a prefix of `xs` gives a prefix of the
    * result: elements stay in the order of their first appearance. */
  lemma {:induction false} AddAllSpec<T(!new)>(s: seq<T>, xs: seq<T>)
    requires Distinct(s)
    ensures |s| <= |AddAll(s, xs)| && AddAll(s, xs)[..|s|] == s
    ensures forall y :: y in AddAll(s, xs) <==> y in s || y in xs
    ensures forall k :: 0 <= k <= |xs| ==>
      |AddAll(s, xs[..k])| <= |AddAll(s, xs)| && AddAll(s, xs)[..|AddAll(s, xs[..k])|] == AddAll(s, xs[..k])
    decreases |xs|
  {
    if |xs| > 0 {
      var init := xs[..|xs| - 1];
      AddAllSpec(s, init);
      assert xs == init + [xs[|xs| - 1]];
      forall k | 0 <= k <= |xs|
        ensures |AddAll(s, xs[..k])| <= |AddAll(s, xs)| && AddAll(s, xs)[..|AddAll(s, xs[..k])|] == AddAll(s, xs[..k])
      {
        if k < |xs| {
          assert xs[..k] == init[..k];
        } else {
          assert xs[..k] == xs;
        }
      }
    }
  }

  /** Map.putAll: the entries of `src`, in its key order, put into `m`. */
  function PutAll<K(==,!new), V>(m: LinkedMap<K, V>, src: LinkedMap<K, V>): (r: LinkedMap<K, V>)
    requires m.Valid() && src.Valid()
    ensures r.Valid()
  {
    PutEach(m, src.entries, src.keys)
  }

  /** Put the entries of `vals` under `ks`, in that order. */
  function PutEach<K(==,!new), V>(m: LinkedMap<K, V>, vals: map<K, V>, ks: seq<K>): (r: LinkedMap<K, V>)
    requires m.Valid() && forall k :: k in ks ==> k in vals
    ensures r.Valid()
    decreases |ks|
  {
    if |ks| == 0 then m else PutEach(m, vals, ks[..|ks| - 1]).Put(ks[|ks| - 1], vals[ks[|ks| - 1]])
  }

  /** Map.putAll as the map does it: each entry of `src` in turn. */
  method PutAllOf<K(==,!new), V>(m: LinkedMap<K, V>, src: LinkedMap<K, V>) returns (r: LinkedMap<K, V>)
    requires m.Valid() && src.Valid()
    ensures r == PutAll(m, src)
  {
    r := m;
    for i := 0 to |src.keys|
      invariant r == PutEach(m, src.entries, src.keys[..i])
    {
      var key := src.keys[i];
      assert src.keys[..i + 1] == src.keys[..i] + [key];
      r := r.Put(key, src.entries[key]);
    }
    assert src.keys[..|src.keys|] == src.keys;
  }

  /** Distinct keys put into an empty map keep their order. */
  lemma {:induction false} PutEachFresh<K(!new), V>(vals: map<K, V>, ks: seq<K>)
    requires Distinct(ks) && forall k :: k in ks ==> k in vals
    ensures PutEach(EmptyMap(), vals, ks).keys == ks
    decreases |ks|
  {
    if |ks| > 0 {
      var init, last := ks[..|ks| - 1], ks[|ks| - 1];
      assert forall i :: 0 <= i < |init| ==> init[i] == ks[i];
      PutEachFresh(vals, init);
      PutEachSpec(EmptyMap(), vals, init);
      assert last !in init;
    }
  }

  /** putAll into a cleared map gives the source map back. */
  lemma PutAllIntoEmpty<K(!new), V>(m: LinkedMap<K, V>)
    requires m.Valid()
    ensures PutAll(EmptyMap(), m) == m
  {
    PutEachFresh(m.entries, m.keys);
    PutEachSpec(EmptyMap(), m.entries, m.keys);
    assert PutAll(EmptyMap(), m).entries == m.entries;
  }

  /** putAll: every key of `src` carries its value from `src` (the source
    * map wins on a shared key), every other key keeps its value, and the
    * keys of `m` keep their places in front. */
  lemma {:induction false} PutEachSpec<K(!new), V>(m: LinkedMap<K, V>, vals: map<K, V>, ks: seq<K>)
    requires m.Valid() && forall k :: k in ks ==> k in vals
    ensures forall k :: k in PutEach(m, vals, ks).entries <==> k in m.entries || k in ks
    ensures forall k :: k in ks ==> PutEach(m, vals, ks).entries[k] == vals[k]
    ensures forall k :: k in m.entries && k !in ks ==> PutEach(m, vals, ks).entries[k] == m.entries[k]
    ensures |m.keys| <= |PutEach(m, vals, ks).keys| && PutEach(m, vals, ks).keys[..|m.keys|] == m.keys
    decreases |ks|
  {
    if |ks| > 0 {
      var init := ks[..|ks| - 1];
      assert forall k :: k in ks <==> k in init || k == ks[|ks| - 1];
      PutEachSpec(m, vals, init);
    }
  }
}
