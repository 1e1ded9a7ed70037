/** Ruby's Hash as the core uses it: insertion-ordered, and writing a key
    that is already present replaces its value in its original position. */
module OrderedTables {

  datatype Table<K(!new), V> = Table(keys: seq<K>, values: map<K, V>) {

    /** The keys are listed once each, and exactly the keys of the map. */
    ghost predicate Valid() {
      Distinct(keys) && (forall k :: k in values <==> k in keys)
    }

    /** `hash[k] = v`. */
    function Put(k: K, v: V): (t: Table<K, V>)
      requires Valid()
      ensures t.Valid()
      ensures k in keys ==> t.keys == keys
      ensures k !in keys ==> t.keys == keys + [k]
      ensures k in t.values && t.values[k] == v
      ensures forall j :: j in values && j != k ==> j in t.values && t.values[j] == values[j]
    {
      Table(if k in values then keys else keys + [k], values[k := v])
    }
  }

  /** Two valid tables with the same key order and the same value under
      each key are equal. */
  lemma SameTable<K(!new), V>(a: Table<K, V>, b: Table<K, V>)
    requires a.Valid() && b.Valid() && a.keys == b.keys
    requires forall i :: 0 <= i < |a.keys| ==> a.values[a.keys[i]] == b.values[a.keys[i]]
    ensures a == b
  {
  }

  predicate Distinct<K(==)>(s: seq<K>) {
    forall i, j :: 0 <= i < j < |s| ==> s[i] != s[j]
  }

  function Empty<K(!new), V>(): (t: Table<K, V>)
    ensures t.Valid() && t.keys == []
  {
    Table([], map[])
  }

  /** The values of a table in its key order (`each_value`). */
  function ValuesInOrder<K(!new), V>(t: Table<K, V>): (vs: seq<V>)
    requires t.Valid()
    ensures |vs| == |t.keys|
    ensures forall i :: 0 <= i < |t.keys| ==> vs[i] == t.values[t.keys[i]]
  {
    seq(|t.keys|, i requires 0 <= i < |t.keys| => t.values[t.keys[i]])
  }

  function KeysBy<K, V>(vs: seq<V>, key: V -> K): (ks: seq<K>)
    ensures |ks| == |vs|
    ensures forall i :: 0 <= i < |vs| ==> ks[i] == key(vs[i])
  {
    if vs == [] then [] else KeysBy(vs[..|vs| - 1], key) + [key(vs[|vs| - 1])]
  }

  /** A list without repetitions, extended by one element. */
  lemma DistinctSnoc<K>(s: seq<K>, x: K)
    requires Distinct(s + [x])
    ensures Distinct(s) && x !in s
  {
    var s' := s + [x];
    forall i | 0 <= i < |s| ensures s[i] != x {
      assert s[i] == s'[i] && x == s'[|s|];
    }
    forall i, j | 0 <= i < j < |s| ensures s[i] != s[j] {
      assert s[i] == s'[i] && s[j] == s'[j];
    }
  }

  /** Every value of the table sits under the key `key` gives it. */
  ghost predicate KeyedBy<K(!new), V>(t: Table<K, V>, key: V -> K) {
    forall k :: k in t.values ==> key(t.values[k]) == k
  }

  /** Writing each value in order under the key `key` gives it. */
  function PutAll<K(!new), V>(t: Table<K, V>, vs: seq<V>, key: V -> K): (r: Table<K, V>)
    requires t.Valid()
    ensures r.Valid()
    ensures KeyedBy(t, key) ==> KeyedBy(r, key)
    ensures |t.keys| <= |r.keys| <= |t.keys| + |vs| && r.keys[..|t.keys|] == t.keys
  {
    if vs == [] then t
    else
      var v := vs[|vs| - 1];
      PutAll(t, vs[..|vs| - 1], key).Put(key(v), v)
  }

  /** Values whose keys are new and distinct are appended in order, each
      under its own key. */
  lemma {:induction false} PutAllAppends<K(!new), V>(t: Table<K, V>, vs: seq<V>, key: V -> K)
    requires t.Valid()
    requires Distinct(KeysBy(vs, key))
    requires forall i :: 0 <= i < |vs| ==> key(vs[i]) !in t.keys
    ensures PutAll(t, vs, key).keys == t.keys + KeysBy(vs, key)
  {
    if vs != [] {
      var n := |vs| - 1;
      var init := vs[..n];
      var ks := KeysBy(init, key);
      var k := key(vs[n]);
      KeysBySnoc(vs, key);
      DistinctSnoc(ks, k);
      NewKeysPrefix(t, vs, init, key);
      PutAllAppends(t, init, key);
      PutAllSnoc(t, vs, key);
    }
  }

  /** The keys of a list extended by one value. */
  lemma KeysBySnoc<K, V>(vs: seq<V>, key: V -> K)
    requires vs != []
    ensures KeysBy(vs, key) == KeysBy(vs[..|vs| - 1], key) + [key(vs[|vs| - 1])]
  {
  }

  /** Keys new to a table stay new over a prefix of the values. */
  lemma NewKeysPrefix<K(!new), V>(t: Table<K, V>, vs: seq<V>, init: seq<V>, key: V -> K)
    requires vs != [] && init == vs[..|vs| - 1]
    requires forall i :: 0 <= i < |vs| ==> key(vs[i]) !in t.keys
    ensures forall i :: 0 <= i < |init| ==> key(init[i]) !in t.keys
  {
    forall i | 0 <= i < |init| ensures key(init[i]) !in t.keys {
      assert init[i] == vs[i];
    }
  }

  /** The fold over one more value, when that value's key is new to it. */
  lemma PutAllSnoc<K(!new), V>(t: Table<K, V>, vs: seq<V>, key: V -> K)
    requires t.Valid() && vs != []
    requires PutAll(t, vs[..|vs| - 1], key).keys == t.keys + KeysBy(vs[..|vs| - 1], key)
    requires key(vs[|vs| - 1]) !in t.keys + KeysBy(vs[..|vs| - 1], key)
    ensures PutAll(t, vs, key).keys == t.keys + (KeysBy(vs[..|vs| - 1], key) + [key(vs[|vs| - 1])])
  {
    var r0 := PutAll(t, vs[..|vs| - 1], key);
    var x := vs[|vs| - 1];
    assert PutAll(t, vs, key) == r0.Put(key(x), x);
    assert r0.Put(key(x), x).keys == r0.keys + [key(x)];
  }

  /** A value whose key no later value repeats is the one found under it. */
  lemma {:induction false} PutAllHolds<K(!new), V>(t: Table<K, V>, vs: seq<V>, key: V -> K, i: nat)
    requires t.Valid()
    requires i < |vs|
    requires forall j :: i < j < |vs| ==> key(vs[j]) != key(vs[i])
    ensures key(vs[i]) in PutAll(t, vs, key).values
    ensures PutAll(t, vs, key).values[key(vs[i])] == vs[i]
  {
    var n := |vs| - 1;
    var init := vs[..n];
    var x := vs[n];
    var r0 := PutAll(t, init, key);
    if i < n {
      assert vs[i] == init[i];
      PutAllHolds(t, init, key, i);
      assert key(x) != key(vs[i]);
    }
  }

  lemma {:induction false} PutAllHoldsAll<K(!new), V>(t: Table<K, V>, vs: seq<V>, key: V -> K)
    requires t.Valid()
    requires Distinct(KeysBy(vs, key))
    ensures forall i :: 0 <= i < |vs| ==>
      KeysBy(vs, key)[i] in PutAll(t, vs, key).values && PutAll(t, vs, key).values[KeysBy(vs, key)[i]] == vs[i]
  {
    forall i | 0 <= i < |vs|
      ensures KeysBy(vs, key)[i] in PutAll(t, vs, key).values && PutAll(t, vs, key).values[KeysBy(vs, key)[i]] == vs[i]
    {
      assert forall j :: i < j < |vs| ==> KeysBy(vs, key)[j] != KeysBy(vs, key)[i];
      PutAllHolds(t, vs, key, i);
    }
  }

  /** Values whose keys are all present already replace values and leave
      the key order, and so the size, unchanged. */
  lemma {:induction false} PutAllOverwrites<K(!new), V>(t: Table<K, V>, vs: seq<V>, key: V -> K)
    requires t.Valid()
    requires forall i :: 0 <= i < |vs| ==> key(vs[i]) in t.keys
    ensures PutAll(t, vs, key).keys == t.keys
  {
    if vs != [] {
      PutAllOverwrites(t, vs[..|vs| - 1], key);
    }
  }

  /** The keys a table's values carry, read in its order, are its keys. */
  lemma KeysOfValues<K(!new), V>(src: Table<K, V>, key: V -> K)
    requires src.Valid() && KeyedBy(src, key)
    ensures KeysBy(ValuesInOrder(src), key) == src.keys
  {
  }

  /** Writing a table's values, in its order and under the keys they carry,
      into an empty table rebuilds it exactly. */
  lemma PutAllReproduces<K(!new), V>(src: Table<K, V>, key: V -> K)
    requires src.Valid() && KeyedBy(src, key)
    ensures PutAll(Empty(), ValuesInOrder(src), key) == src
  {
    var vs := ValuesInOrder(src);
    KeysOfValues(src, key);
    var e0: Table<K, V> := Empty();
    PutAllAppends(e0, vs, key);
    PutAllHoldsAll(e0, vs, key);
    SameTable(PutAll(e0, vs, key), src);
  }

  function Firsts<K, V>(pairs: seq<(K, V)>): (ks: seq<K>)
    ensures |ks| == |pairs|
    ensures forall i :: 0 <= i < |pairs| ==> ks[i] == pairs[i].0
  {
    if pairs == [] then [] else Firsts(pairs[..|pairs| - 1]) + [pairs[|pairs| - 1].0]
  }

  /** `Hash[pairs]`: the pairs written in order, a later pair for the same
      key replacing the value of an earlier one. */
  function FromPairs<K(!new), V>(pairs: seq<(K, V)>): (t: Table<K, V>)
    ensures t.Valid()
  {
    if pairs == [] then Empty()
    else
      var last := pairs[|pairs| - 1];
      FromPairs(pairs[..|pairs| - 1]).Put(last.0, last.1)
  }

  /** When the pairs have distinct keys, `Hash[pairs]` lists exactly those
      keys, in that order. */
  lemma {:induction false} FromPairsKeys<K(!new), V>(pairs: seq<(K, V)>)
    requires Distinct(Firsts(pairs))
    ensures FromPairs(pairs).keys == Firsts(pairs)
  {
    if pairs != [] {
      var n := |pairs| - 1;
      DistinctSnoc(Firsts(pairs[..n]), pairs[n].0);
      FromPairsKeys(pairs[..n]);
    }
  }

  /** A pair whose key no later pair repeats gives the value under that key. */
  lemma {:induction false} FromPairsHolds<K(!new), V>(pairs: seq<(K, V)>, i: nat)
    requires i < |pairs|
    requires forall j :: i < j < |pairs| ==> pairs[j].0 != pairs[i].0
    ensures pairs[i].0 in FromPairs(pairs).values
    ensures FromPairs(pairs).values[pairs[i].0] == pairs[i].1
  {
    var n := |pairs| - 1;
    var init := pairs[..n];
    if i < n {
      assert pairs[i] == init[i];
      FromPairsHolds(init, i);
      assert pairs[n].0 != pairs[i].0;
    }
  }

  /** With distinct keys, each key of `Hash[pairs]` maps to its own pair's value. */
  lemma {:induction false} FromPairsDistinct<K(!new), V>(pairs: seq<(K, V)>)
    requires Distinct(Firsts(pairs))
    ensures FromPairs(pairs).keys == Firsts(pairs)
    ensures forall i :: 0 <= i < |pairs| ==>
      pairs[i].0 in FromPairs(pairs).values && FromPairs(pairs).values[pairs[i].0] == pairs[i].1
  {
    FromPairsKeys(pairs);
    forall i | 0 <= i < |pairs|
      ensures pairs[i].0 in FromPairs(pairs).values && FromPairs(pairs).values[pairs[i].0] == pairs[i].1
    {
      forall j | i < j < |pairs| ensures pairs[j].0 != pairs[i].0 {
        assert Firsts(pairs)[i] != Firsts(pairs)[j];
      }
      FromPairsHolds(pairs, i);
    }
  }

  /** Every key of `Hash[pairs]` is the key of some pair. */
  lemma {:induction false} FromPairsKeysIn<K(!new), V>(pairs: seq<(K, V)>, k: K)
    requires k in FromPairs(pairs).keys
    ensures k in Firsts(pairs)
  {
    var n := |pairs| - 1;
    if k != pairs[n].0 {
      FromPairsKeysIn(pairs[..n], k);
    }
  }
}
