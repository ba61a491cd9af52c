/**
 * A JavaScript Map or Set: entries keep the order of their first insertion (src/core/collections.ts).
 */
module Ordered {

  datatype OrderedMap<K(==), V> = OrderedMap(keys: seq<K>, values: map<K, V>)

  type OrderedSet<K(==)> = OrderedMap<K, ()>

  function Elements<K>(keys: seq<K>): set<K> {
    set k | k in keys
  }

  /** No key is listed twice. */
  predicate Distinct<K(==)>(keys: seq<K>) {
    keys == [] || (keys[0] !in keys[1..] && Distinct(keys[1..]))
  }

  predicate WellFormed<K, V>(m: OrderedMap<K, V>) {
    Elements(m.keys) == m.values.Keys && Distinct(m.keys)
  }

  function Empty<K, V>(): OrderedMap<K, V> {
    OrderedMap([], map[])
  }

  /** Map.set: an existing key keeps its place. */
  function Enter<K, V>(m: OrderedMap<K, V>, key: K, value: V): (r: OrderedMap<K, V>) {
    OrderedMap(if key in m.values then m.keys else m.keys + [key], m.values[key := value])
  }

  /** Set.add. */
  function Add<K>(m: OrderedSet<K>, key: K): OrderedSet<K> {
    Enter(m, key, ())
  }

  function Without<K(==)>(keys: seq<K>, key: K): seq<K> {
    if keys == [] then []
    else if keys[0] == key then Without(keys[1..], key)
    else [keys[0]] + Without(keys[1..], key)
  }

  /** Map.delete. */
  function Delete<K, V>(m: OrderedMap<K, V>, key: K): (r: OrderedMap<K, V>) {
    OrderedMap(Without(m.keys, key), m.values - {key})
  }

  /** How many of the oldest keys have to go until at most `max` are left. */
  function Excess<K, V>(m: OrderedMap<K, V>, max: nat): (n: nat)
    ensures n <= |m.keys|
  {
    if |m.keys| <= max then 0 else |m.keys| - max
  }

  /** trimOldest. */
  function Trim<K, V>(m: OrderedMap<K, V>, max: nat): (r: OrderedMap<K, V>)
    ensures |r.keys| <= max
  {
    var n := Excess(m, max);
    OrderedMap(m.keys[n..], m.values - Elements(m.keys[..n]))
  }

  // ---- every operation keeps the keys distinct and in step with the values ----

  lemma {:induction false} DistinctSnoc<K>(keys: seq<K>, key: K)
    requires Distinct(keys) && key !in keys
    ensures Distinct(keys + [key])
  {
    if keys != [] {
      DistinctSnoc(keys[1..], key);
      assert (keys + [key])[1..] == keys[1..] + [key];
    }
  }

  lemma EnterWellFormed<K, V>(m: OrderedMap<K, V>, key: K, value: V)
    requires WellFormed(m)
    ensures WellFormed(Enter(m, key, value))
  {
    if key !in m.values {
      assert key !in Elements(m.keys);
      DistinctSnoc(m.keys, key);
    }
  }

  lemma {:induction false} WithoutDistinct<K>(keys: seq<K>, key: K)
    ensures Elements(Without(keys, key)) == Elements(keys) - {key}
    ensures Distinct(keys) ==> Distinct(Without(keys, key))
    ensures key !in keys ==> Without(keys, key) == keys
  {
    if keys != [] {
      WithoutDistinct(keys[1..], key);
      var rest := Without(keys[1..], key);
      assert Elements(keys) == {keys[0]} + Elements(keys[1..]);
      if keys[0] != key {
        assert ([keys[0]] + rest)[1..] == rest;
        assert Elements([keys[0]] + rest) == {keys[0]} + Elements(rest);
        assert keys[0] in rest ==> keys[0] in Elements(keys[1..]);
      }
    }
  }

  lemma DeleteWellFormed<K, V>(m: OrderedMap<K, V>, key: K)
    requires WellFormed(m)
    ensures WellFormed(Delete(m, key))
    ensures key !in m.values ==> Delete(m, key) == m
  {
    WithoutDistinct(m.keys, key);
    assert key in m.keys <==> key in Elements(m.keys);
  }

  lemma {:induction false} DistinctSplit<K>(keys: seq<K>, n: nat)
    requires Distinct(keys) && n <= |keys|
    ensures Distinct(keys[n..]) && Elements(keys[..n]) !! Elements(keys[n..])
    ensures Elements(keys) == Elements(keys[..n]) + Elements(keys[n..])
  {
    if n > 0 {
      DistinctSplit(keys[1..], n - 1);
      assert keys[1..][n - 1..] == keys[n..] && keys[..n] == [keys[0]] + keys[1..][..n - 1];
      assert Elements(keys) == {keys[0]} + Elements(keys[1..]);
      assert keys[0] !in Elements(keys[1..]);
    } else {
      assert keys[n..] == keys;
    }
  }

  lemma TrimWellFormed<K, V>(m: OrderedMap<K, V>, max: nat)
    requires WellFormed(m)
    ensures WellFormed(Trim(m, max))
    ensures |m.keys| <= max ==> Trim(m, max) == m
  {
    DistinctSplit(m.keys, Excess(m, max));
  }

  lemma {:induction false} DistinctCount<K>(keys: seq<K>)
    requires Distinct(keys)
    ensures |Elements(keys)| == |keys|
  {
    if keys != [] {
      DistinctCount(keys[1..]);
      assert Elements(keys) == {keys[0]} + Elements(keys[1..]);
    }
  }

  lemma {:induction false} DistinctInit<K>(keys: seq<K>)
    requires Distinct(keys) && keys != []
    ensures Distinct(keys[..|keys| - 1]) && keys[|keys| - 1] !in keys[..|keys| - 1]
  {
    if |keys| > 1 {
      DistinctInit(keys[1..]);
      assert keys[1..][..|keys| - 2] == keys[..|keys| - 1][1..];
    }
  }

  /** A key is not listed before its own place. */
  lemma NotBefore<K>(keys: seq<K>, i: nat)
    requires Distinct(keys) && i < |keys|
    ensures keys[i] !in keys[..i]
  {
    DistinctSplit(keys, i);
    assert keys[i] in Elements(keys[i..]) by {
      assert keys[i..][0] == keys[i];
    }
    assert keys[i] !in Elements(keys[..i]);
  }
}
