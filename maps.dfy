/** Listing the entries of a map in some order, as iterating a Rust
    `HashMap` does: every key once, in an order nobody may rely on. */
module Maps {

  /** `ks` and `vs` list the entries of `m`: each key exactly once, each next
      to its value. */
  ghost predicate Lists<K, V>(ks: seq<K>, vs: seq<V>, m: map<K, V>)
  {
    && |ks| == |vs| == |m|
    && (forall i :: 0 <= i < |ks| ==> ks[i] in m && m[ks[i]] == vs[i])
    && (forall i, j :: 0 <= i < j < |ks| ==> ks[i] != ks[j])
    && (forall k :: k in m ==> k in ks)
  }

  /** Walk the map, taking keys in an arbitrary order. */
  method Entries<K, V>(m: map<K, V>) returns (ks: seq<K>, vs: seq<V>)
    ensures Lists(ks, vs, m)
  {
    var rest := m.Keys;
    ks, vs := [], [];
    while rest != {}
      invariant rest <= m.Keys
      invariant |ks| == |vs| && |ks| + |rest| == |m.Keys|
      invariant forall i :: 0 <= i < |ks| ==> ks[i] in m && ks[i] !in rest && m[ks[i]] == vs[i]
      invariant forall i, j :: 0 <= i < j < |ks| ==> ks[i] != ks[j]
      invariant forall k :: k in m && k !in rest ==> k in ks
      decreases |rest|
    {
      var k :| k in rest;
      ks, vs := ks + [k], vs + [m[k]];
      rest := rest - {k};
    }
    assert |m.Keys| == |m|;
  }

  /** Every stored value appears in a listing. */
  lemma ListsEveryValue<K, V>(ks: seq<K>, vs: seq<V>, m: map<K, V>, k: K)
    requires Lists(ks, vs, m) && k in m
    ensures m[k] in vs
  {
    var i :| 0 <= i < |ks| && ks[i] == k;
    assert vs[i] == m[k];
  }
}
