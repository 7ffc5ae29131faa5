/** Python's `dict` where its insertion order matters: the tiles and objects of
    a map (saved in that order) and the frontier of the path finder (whose
    `min` takes the first of equal entries in that order). */
module OrderedDict {

  /** The entries of a dict and its keys in insertion order. */
  datatype Dict<K(==,!new), V> = Dict(keys: seq<K>, entries: map<K, V>) {

    /** Every key is listed exactly once, and only the keys are listed. */
    ghost predicate Valid() {
      && (forall i, j :: 0 <= i < j < |keys| ==> keys[i] != keys[j])
      && (forall k :: k in entries <==> k in keys)
    }
  }

  function Empty<K(==,!new), V>(): (d: Dict<K, V>)
    ensures d.Valid() && d.keys == [] && d.entries == map[]
  {
    Dict([], map[])
  }

  /** Every value is stored under the key `key` gives for it. */
  ghost predicate KeyedBy<K(!new), V>(m: map<K, V>, key: V -> K) {
    forall k :: k in m ==> key(m[k]) == k
  }

  /** `d.update({k: v})`: the entry under `k` becomes `v`, every other entry
      stays; a new key goes last, an existing key keeps its place. */
  function Update<K(==,!new), V>(d: Dict<K, V>, k: K, v: V): (r: Dict<K, V>)
    requires d.Valid()
    ensures r.Valid()
    ensures k in r.entries && r.entries[k] == v
    ensures forall j :: j != k ==> (j in r.entries <==> j in d.entries)
    ensures forall j :: j != k && j in d.entries ==> r.entries[j] == d.entries[j]
    ensures k in d.entries ==> r.keys == d.keys
    ensures k !in d.entries ==> r.keys == d.keys + [k]
  {
    Dict(if k in d.entries then d.keys else d.keys + [k], d.entries[k := v])
  }

  /** The place of `k` in `s`. */
  function IndexOf<K(==,!new)>(s: seq<K>, k: K): (i: nat)
    requires k in s
    ensures i < |s| && s[i] == k
    ensures forall j :: 0 <= j < i ==> s[j] != k
  {
    if s[0] == k then 0 else 1 + IndexOf(s[1..], k)
  }

  /** `d.pop(k)` for a key of `d`: that entry goes, the remaining keys keep
      their order. */
  function Pop<K(==,!new), V>(d: Dict<K, V>, k: K): (r: Dict<K, V>)
    requires d.Valid() && k in d.entries
    ensures r.Valid()
    ensures r.entries == d.entries - {k}
    ensures |r.keys| == |d.keys| - 1
    ensures exists i :: 0 <= i < |d.keys| && d.keys[i] == k && r.keys == d.keys[..i] + d.keys[i + 1..]
  {
    var i := IndexOf(d.keys, k);
    var keys := d.keys[..i] + d.keys[i + 1..];
    assert forall j :: 0 <= j < |keys| ==> keys[j] == if j < i then d.keys[j] else d.keys[j + 1];
    Dict(keys, d.entries - {k})
  }

  /** `d.values()`, in insertion order. */
  function Values<K(==,!new), V>(d: Dict<K, V>): (vs: seq<V>)
    requires d.Valid()
    ensures |vs| == |d.keys|
    ensures forall i :: 0 <= i < |d.keys| ==> vs[i] == d.entries[d.keys[i]]
  {
    seq(|d.keys|, i requires 0 <= i < |d.keys| => d.entries[d.keys[i]])
  }

  /** `d.update({key(v): v})` for each `v` of `vs` in turn. */
  function PutAll<K(==,!new), V>(d: Dict<K, V>, vs: seq<V>, key: V -> K): (r: Dict<K, V>)
    requires d.Valid()
    ensures r.Valid()
    ensures KeyedBy(d.entries, key) ==> KeyedBy(r.entries, key)
    decreases |vs|
  {
    if vs == [] then d
    else Update(PutAll(d, vs[..|vs| - 1], key), key(vs[|vs| - 1]), vs[|vs| - 1])
  }

  /** One more value put is one more update. */
  lemma PutAllSnoc<K(!new), V>(d: Dict<K, V>, vs: seq<V>, key: V -> K, v: V)
    requires d.Valid()
    ensures PutAll(d, vs + [v], key) == Update(PutAll(d, vs, key), key(v), v)
  {
    assert (vs + [v])[..|vs|] == vs;
  }

  /** After `PutAll`, a key is present exactly when it was already or some
      value was put under it; a key nothing was put under keeps its value. */
  lemma {:induction false} PutAllKeys<K(!new), V>(d: Dict<K, V>, vs: seq<V>, key: V -> K, k: K)
    requires d.Valid()
    ensures k in PutAll(d, vs, key).entries <==>
            k in d.entries || exists i :: 0 <= i < |vs| && key(vs[i]) == k
    ensures (forall i :: 0 <= i < |vs| ==> key(vs[i]) != k) && k in d.entries ==>
            PutAll(d, vs, key).entries[k] == d.entries[k]
    decreases |vs|
  {
    if vs != [] {
      var init := vs[..|vs| - 1];
      PutAllKeys(d, init, key, k);
      assert forall i :: 0 <= i < |init| ==> init[i] == vs[i];
      if exists i :: 0 <= i < |vs| && key(vs[i]) == k {
        var i :| 0 <= i < |vs| && key(vs[i]) == k;
        if i < |vs| - 1 {
          assert key(init[i]) == k;
        }
      }
    }
  }

  /** The last value put under a key is the one the dict holds. */
  lemma {:induction false} PutAllLastWins<K(!new), V>(d: Dict<K, V>, vs: seq<V>, key: V -> K, i: nat)
    requires d.Valid() && i < |vs|
    requires forall j :: i < j < |vs| ==> key(vs[j]) != key(vs[i])
    ensures key(vs[i]) in PutAll(d, vs, key).entries
    ensures PutAll(d, vs, key).entries[key(vs[i])] == vs[i]
    decreases |vs|
  {
    if i < |vs| - 1 {
      var init := vs[..|vs| - 1];
      assert init[i] == vs[i];
      PutAllLastWins(d, init, key, i);
    }
  }

  /** The first `n` entries of `d`, as a dict of their own. */
  ghost function Prefix<K(!new), V>(d: Dict<K, V>, n: nat): Dict<K, V>
    requires d.Valid() && n <= |d.keys|
  {
    Dict(d.keys[..n], map k | k in d.keys[..n] :: d.entries[k])
  }

  /** One more key of `d` extends its prefix as `Update` would. */
  lemma PrefixStep<K(!new), V>(d: Dict<K, V>, n: nat)
    requires d.Valid() && 0 < n <= |d.keys|
    ensures Prefix(d, n) == Update(Prefix(d, n - 1), d.keys[n - 1], d.entries[d.keys[n - 1]])
  {
    var k := d.keys[n - 1];
    var before := Prefix(d, n - 1);
    assert k !in before.entries by {
      forall j | 0 <= j < n - 1 ensures d.keys[j] != k {
        assert d.keys[j] != d.keys[n - 1];
      }
    }
    assert d.keys[..n] == before.keys + [k];
    assert Prefix(d, n).entries == before.entries[k := d.entries[k]];
  }

  /** Putting the first `n` values of a dict, in order, into an empty dict
      gives its first `n` entries. */
  lemma {:induction false} PutAllPrefix<K(!new), V>(d: Dict<K, V>, key: V -> K, n: nat)
    requires d.Valid() && KeyedBy(d.entries, key) && n <= |d.keys|
    ensures PutAll(Empty(), Values(d)[..n], key) == Prefix(d, n)
  {
    if n > 0 {
      var vs := Values(d);
      var v := vs[n - 1];
      assert vs[..n] == vs[..n - 1] + [v];
      assert key(v) == d.keys[n - 1] && v == d.entries[d.keys[n - 1]];
      PutAllSnoc(Empty(), vs[..n - 1], key, v);
      PutAllPrefix(d, key, n - 1);
      PrefixStep(d, n);
    }
  }

  /** Putting the values of a dict, in its order, into an empty dict rebuilds
      that dict, keys in the same order, when each value knows its own key. */
  lemma PutAllValues<K(!new), V>(d: Dict<K, V>, key: V -> K)
    requires d.Valid() && KeyedBy(d.entries, key)
    ensures PutAll(Empty(), Values(d), key) == d
  {
    PutAllPrefix(d, key, |d.keys|);
    assert Values(d)[..|d.keys|] == Values(d);
    assert d.keys[..|d.keys|] == d.keys;
    assert Prefix(d, |d.keys|).entries == d.entries;
  }
}
