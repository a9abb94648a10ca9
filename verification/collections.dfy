/** Enumerations of finite sets, standing for Go's unordered `for k := range m` loops. */
module Collections {

  /** Two maps with the same keys and the same value under each key are equal. */
  lemma SameEntries<K, V>(m: map<K, V>, m': map<K, V>)
    requires forall k :: k in m' ==> k in m
    requires forall k :: k in m ==> k in m' && m'[k] == m[k]
    ensures m' == m
  {
    assert m'.Keys == m.Keys;
  }

  /** No element occurs twice in `xs`. */
  predicate Distinct<T(==)>(xs: seq<T>) {
    forall i, j :: 0 <= i < j < |xs| ==> xs[i] != xs[j]
  }

  /** `order` lists every element of `s` exactly once, in some order. */
  predicate Enumerates<T(==)>(order: seq<T>, s: set<T>) {
    && Distinct(order)
    && (forall x :: x in order ==> x in s)
    && (forall x :: x in s ==> x in order)
  }

  /** Builds a slice from the keys of a map: every key once, in an order the caller must not rely on. */
  method SetToSeq<T(==)>(s: set<T>) returns (xs: seq<T>)
    ensures Enumerates(xs, s)
    ensures |xs| == |s|
  {
    xs := [];
    var rest := s;
    while rest != {}
      invariant rest <= s
      invariant Distinct(xs)
      invariant forall x :: x in xs <==> x in s && x !in rest
      invariant |xs| + |rest| == |s|
      decreases |rest|
    {
      var x :| x in rest;
      xs := xs + [x];
      rest := rest - {x};
    }
  }

  /** The set of elements of a sequence. */
  function Elements<T(!new)>(xs: seq<T>): (s: set<T>)
    ensures forall x :: x in s <==> x in xs
  {
    set x | x in xs
  }

  lemma ElementsCons<T(!new)>(xs: seq<T>)
    requires |xs| > 0
    ensures Elements(xs) == {xs[0]} + Elements(xs[1..])
  {
    forall x | x in xs ensures x == xs[0] || x in xs[1..] {
      var i :| 0 <= i < |xs| && xs[i] == x;
      if i > 0 {
        assert xs[1..][i - 1] == x;
      }
    }
  }

  // ---------------------------------------------------------------------------
  // Counting the elements of a map of lists

  /** The total length of the lists under the keys of `keys`, in that order. */
  function LengthSum<K, V>(t: map<K, seq<V>>, keys: seq<K>): (n: nat)
    requires forall k :: k in keys ==> k in t
  {
    if |keys| == 0 then 0 else |t[keys[0]]| + LengthSum(t, keys[1..])
  }

  ghost function Pick<K, V>(t: map<K, V>): (k: K)
    requires t != map[]
    ensures k in t
  {
    var k :| k in t; k
  }

  /** The total length of the lists of `t`, independent of any iteration order. */
  ghost function MapSum<K, V>(t: map<K, seq<V>>): nat
    decreases t.Keys
  {
    if t == map[] then 0
    else
      var k := Pick(t);
      |t[k]| + MapSum(t - {k})
  }

  lemma {:induction false} SumOfRemove<K, V>(t: map<K, seq<V>>, key: K)
    requires key in t
    ensures MapSum(t) == |t[key]| + MapSum(t - {key})
    decreases t.Keys
  {
    var k := Pick(t);
    if k != key {
      SumOfRemove(t - {k}, key);
      SumOfRemove(t - {key}, k);
      assert t - {k} - {key} == t - {key} - {k};
    }
  }

  /** Replacing one key's list changes the total by the difference in length. */
  lemma SumOfUpdate<K, V>(t: map<K, seq<V>>, key: K, v: seq<V>)
    ensures key in t ==> MapSum(t[key := v]) + |t[key]| == MapSum(t) + |v|
    ensures key !in t ==> MapSum(t[key := v]) == MapSum(t) + |v|
  {
    SumOfRemove(t[key := v], key);
    assert t[key := v] - {key} == t - {key};
    if key in t {
      SumOfRemove(t, key);
    } else {
      assert t - {key} == t;
    }
  }

  lemma {:induction false} LengthSumAgree<K, V>(t: map<K, seq<V>>, t': map<K, seq<V>>, keys: seq<K>)
    requires forall k :: k in keys ==> k in t && k in t' && t[k] == t'[k]
    ensures LengthSum(t, keys) == LengthSum(t', keys)
    decreases |keys|
  {
    if |keys| > 0 {
      LengthSumAgree(t, t', keys[1..]);
    }
  }

  /** Whatever the iteration order, the lengths add up to the same total. */
  lemma {:induction false} LengthSumTotal<K, V>(t: map<K, seq<V>>, order: seq<K>)
    requires Enumerates(order, t.Keys)
    ensures LengthSum(t, order) == MapSum(t)
    decreases |order|
  {
    if |order| == 0 {
      assert t.Keys == {};
      assert t == map[];
    } else {
      var k := order[0];
      var t1 := t - {k};
      var rest := order[1..];
      assert Distinct(rest) by {
        forall i, j | 0 <= i < j < |rest| ensures rest[i] != rest[j] {
          assert rest[i] == order[i + 1] && rest[j] == order[j + 1];
        }
      }
      forall x | x in rest ensures x in t1.Keys {
        var i :| 0 <= i < |rest| && rest[i] == x;
        assert order[i + 1] == x;
      }
      forall x | x in t1.Keys ensures x in rest {
        var i :| 0 <= i < |order| && order[i] == x;
        assert i != 0;
        assert rest[i - 1] == x;
      }
      LengthSumAgree(t, t1, rest);
      LengthSumTotal(t1, rest);
      SumOfRemove(t, k);
    }
  }
}
