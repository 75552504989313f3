/** `java.util.LinkedHashMap`: a map that remembers the order in which keys were
    first inserted. `put` of a present key replaces its value and keeps its
    position. */
module OrderedMap {

  datatype OMap<K(==,!new), V> = OMap(keys: seq<K>, values: map<K, V>)

  /** No element occurs twice: the last one is not among the earlier ones,
      which are themselves distinct. */
  predicate Distinct<K(==)>(s: seq<K>)
    decreases |s|
  {
    |s| == 0 || (s[|s| - 1] !in s[..|s| - 1] && Distinct(s[..|s| - 1]))
  }

  /** Two positions of a distinct sequence hold different elements. */
  lemma {:induction false} DistinctPairwise<K>(s: seq<K>, i: nat, j: nat)
    requires Distinct(s) && i < j < |s|
    ensures s[i] != s[j]
    decreases |s|
  {
    var init := s[..|s| - 1];
    if j < |s| - 1 {
      DistinctPairwise(init, i, j);
    } else {
      assert init[i] == s[i];
    }
  }

  /** The insertion order lists every key of the map exactly once. */
  ghost predicate Valid<K(!new), V>(m: OMap<K, V>)
  {
    Distinct(m.keys) && (forall k :: k in m.values <==> k in m.keys)
  }

  function Empty<K(==,!new), V>(): (m: OMap<K, V>)
    ensures Valid(m) && |m.keys| == 0 && |m.values| == 0
  {
    OMap([], map[])
  }

  /** `put(k, v)`. */
  function Put<K(==,!new), V>(m: OMap<K, V>, k: K, v: V): (r: OMap<K, V>)
    ensures k in r.values && r.values[k] == v
    ensures forall j | j in m.values && j != k :: j in r.values && r.values[j] == m.values[j]
    ensures forall j | j in r.values :: j == k || j in m.values
    ensures |m.keys| <= |r.keys| <= |m.keys| + 1 && r.keys[..|m.keys|] == m.keys
  {
    if k in m.values then OMap(m.keys, m.values[k := v])
    else OMap(m.keys + [k], m.values[k := v])
  }

  /** A map built by `put` of each pair in turn. */
  function FromPairs<K(==,!new), V>(ps: seq<(K, V)>): (m: OMap<K, V>)
    decreases |ps|
  {
    if ps == [] then Empty()
    else Put(FromPairs(ps[..|ps| - 1]), ps[|ps| - 1].0, ps[|ps| - 1].1)
  }

  /** `put` keeps the insertion order a list of the keys, each once. */
  lemma PutValid<K(!new), V>(m: OMap<K, V>, k: K, v: V)
    requires Valid(m)
    ensures Valid(Put(m, k, v))
  {
    if k !in m.values {
      var r := Put(m, k, v);
      assert r.keys[..|r.keys| - 1] == m.keys;
    }
  }

  lemma {:induction false} FromPairsValid<K(!new), V>(ps: seq<(K, V)>)
    ensures Valid(FromPairs(ps))
    decreases |ps|
  {
    if ps != [] {
      FromPairsValid(ps[..|ps| - 1]);
      PutValid(FromPairs(ps[..|ps| - 1]), ps[|ps| - 1].0, ps[|ps| - 1].1);
    }
  }

  function FirstComponents<K, V>(ps: seq<(K, V)>): (ks: seq<K>)
    ensures |ks| == |ps| && forall i :: 0 <= i < |ps| ==> ks[i] == ps[i].0
  {
    seq(|ps|, i requires 0 <= i < |ps| => ps[i].0)
  }

  /** The keys of the built map are exactly the keys of the pairs. */
  lemma {:induction false} FromPairsKeys<K(!new), V>(ps: seq<(K, V)>, k: K)
    ensures k in FromPairs(ps).values <==> exists i :: 0 <= i < |ps| && ps[i].0 == k
    decreases |ps|
  {
    if ps != [] {
      var init := ps[..|ps| - 1];
      FromPairsKeys(init, k);
      if exists i :: 0 <= i < |init| && init[i].0 == k {
        var i :| 0 <= i < |init| && init[i].0 == k;
        assert ps[i].0 == k;
      }
      if exists i :: 0 <= i < |ps| && ps[i].0 == k {
        var i :| 0 <= i < |ps| && ps[i].0 == k;
        if i < |init| {
          assert init[i].0 == k;
        }
      }
    }
  }

  /** The last write wins: the value of a key is that of its last pair. */
  lemma {:induction false} FromPairsLastWins<K(!new), V>(ps: seq<(K, V)>, i: nat)
    requires i < |ps|
    requires forall j :: i < j < |ps| ==> ps[j].0 != ps[i].0
    ensures ps[i].0 in FromPairs(ps).values && FromPairs(ps).values[ps[i].0] == ps[i].1
    decreases |ps|
  {
    if i < |ps| - 1 {
      var init := ps[..|ps| - 1];
      FromPairsLastWins(init, i);
    }
  }

  lemma FirstComponentsPrefix<K, V>(ps: seq<(K, V)>, n: nat)
    requires n <= |ps|
    ensures FirstComponents(ps[..n]) == FirstComponents(ps)[..n]
  {
  }

  lemma {:induction false} DistinctPrefix<K>(s: seq<K>, n: nat)
    requires n <= |s| && Distinct(s)
    ensures Distinct(s[..n])
    decreases |s|
  {
    if n < |s| {
      var init := s[..|s| - 1];
      assert init[..n] == s[..n];
      DistinctPrefix(init, n);
    } else {
      assert s[..n] == s;
    }
  }

  /** With distinct keys the insertion order is the order of the pairs. */
  lemma {:induction false} FromPairsOrder<K(!new), V>(ps: seq<(K, V)>)
    requires Distinct(FirstComponents(ps))
    ensures FromPairs(ps).keys == FirstComponents(ps)
    decreases |ps|
  {
    if ps != [] {
      var n := |ps| - 1;
      var init := ps[..n];
      var fs := FirstComponents(ps);
      FirstComponentsPrefix(ps, n);
      DistinctPrefix(fs, n);
      FromPairsOrder(init);
      var k := ps[n].0;
      FromPairsKeys(init, k);
      assert fs == fs[..n] + [k];
    }
  }
}
