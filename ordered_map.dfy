/** Python's `OrderedDict`: a map whose keys keep the order they were first
    inserted in. Assigning to a present key keeps its place; a new key goes
    to the end; `pop` removes a key and leaves the others in order. */
module OrderedMaps {
  import opened Wrappers

  datatype OrderedMap<K(==,!new), V> = OrderedMap(keys: seq<K>, vals: map<K, V>) {

    /** Keys are distinct and are exactly the keys of the map. */
    ghost predicate Valid() {
      && Distinct(keys)
      && (forall k :: k in keys <==> k in vals)
    }

    /** `d.get(k)` */
    function Get(k: K): (r: Option<V>)
      ensures r.Some? <==> k in vals
      ensures r.Some? ==> r.value == vals[k]
    {
      if k in vals then Some(vals[k]) else None
    }

    /** `d[k] = v` */
    function Put(k: K, v: V): (r: OrderedMap<K, V>)
      requires Valid()
      ensures r.Valid()
      ensures r.Get(k) == Some(v)
      ensures forall j :: j != k ==> r.Get(j) == Get(j)
      ensures k in vals ==> r.keys == keys
      ensures k !in vals ==> r.keys == keys + [k]
    {
      OrderedMap(if k in vals then keys else keys + [k], vals[k := v])
    }

    /** `d.pop(k, None)`: removes `k` if present. */
    function Remove(k: K): (r: OrderedMap<K, V>)
      requires Valid()
      ensures r.Valid()
      ensures r.Get(k) == None
      ensures forall j :: j != k ==> r.Get(j) == Get(j)
      ensures r.keys == Without(keys, k)
    {
      WithoutMembers(keys, k);
      WithoutDistinct(keys, k);
      OrderedMap(Without(keys, k), vals - {k})
    }

    /** `d.update(other)`: puts other's items one by one, in other's order. */
    function PutAll(other: OrderedMap<K, V>): (r: OrderedMap<K, V>)
      requires Valid() && other.Valid()
      ensures r.Valid()
      ensures forall j :: r.Get(j) == if j in other.vals then other.Get(j) else Get(j)
      ensures r.keys == keys + NotIn(other.keys, vals)
    {
      var r := PutKeys(other.keys, other.vals);
      assert forall j :: j in other.keys <==> j in other.vals;
      r
    }

    /** Puts `ks` in order, each with its value in `from`. */
    function PutKeys(ks: seq<K>, from: map<K, V>): (r: OrderedMap<K, V>)
      requires Valid() && Distinct(ks) && forall k :: k in ks ==> k in from
      ensures r.Valid()
      ensures r.keys == keys + NotIn(ks, vals)
      ensures forall j :: r.Get(j) == if j in ks then Some(from[j]) else Get(j)
      decreases |ks|
    {
      if ks == [] then this
      else
        var k0 := ks[0];
        DistinctHead(ks);
        var next := Put(k0, from[k0]);
        var r := next.PutKeys(ks[1..], from);
        NotInSame(ks[1..], vals, k0, from[k0]);
        NotInCons(ks, vals);
        var tail := NotIn(ks[1..], vals);
        assert r.keys == next.keys + tail;
        ConcatAssoc(keys, [k0], tail);
        assert forall j :: j in ks <==> j == k0 || j in ks[1..];
        r
    }

    /** The entries as (key, value) pairs, in key order. */
    function Items(): (r: seq<(K, V)>)
      requires Valid()
      ensures |r| == |keys|
      ensures forall i :: 0 <= i < |r| ==> r[i] == (keys[i], vals[keys[i]])
    {
      seq(|keys|, i requires 0 <= i < |keys| => (keys[i], vals[keys[i]]))
    }
  }

  function Empty<K(==,!new), V>(): (r: OrderedMap<K, V>)
    ensures r.Valid() && r.keys == [] && r.vals == map[]
  {
    OrderedMap([], map[])
  }

  /** Two maps with the same keys in the same order and the same lookups are equal. */
  lemma SameGet<K(!new), V>(a: OrderedMap<K, V>, b: OrderedMap<K, V>)
    requires a.keys == b.keys && forall j :: a.Get(j) == b.Get(j)
    ensures a == b
  {
    forall j ensures j in a.vals <==> j in b.vals {
      assert a.Get(j).Some? <==> b.Get(j).Some?;
    }
    forall j | j in a.vals ensures a.vals[j] == b.vals[j] {
      assert a.Get(j) == b.Get(j);
    }
    assert a.vals == b.vals;
  }

  ghost predicate Distinct<K>(s: seq<K>) {
    forall i, j :: 0 <= i < j < |s| ==> s[i] != s[j]
  }

  /** `s` with every occurrence of `k` left out, order kept. */
  function Without<K(==)>(s: seq<K>, k: K): (r: seq<K>)
    ensures |r| <= |s|
  {
    if s == [] then [] else (if s[0] == k then [] else [s[0]]) + Without(s[1..], k)
  }

  /** The keys of `s` that `m` does not hold, in the order of `s`. */
  function NotIn<K(==), V>(s: seq<K>, m: map<K, V>): (r: seq<K>)
    ensures |r| <= |s|
  {
    if s == [] then [] else (if s[0] in m then [] else [s[0]]) + NotIn(s[1..], m)
  }

  lemma {:induction false} WithoutMembers<K>(s: seq<K>, k: K)
    ensures forall x :: x in Without(s, k) <==> x in s && x != k
  {
    if s != [] {
      WithoutMembers(s[1..], k);
      assert s == [s[0]] + s[1..];
    }
  }

  lemma {:induction false} WithoutDistinct<K>(s: seq<K>, k: K)
    requires Distinct(s)
    ensures Distinct(Without(s, k))
  {
    if s != [] {
      DistinctHead(s);
      WithoutDistinct(s[1..], k);
      WithoutMembers(s[1..], k);
    }
  }

  lemma DistinctHead<K>(s: seq<K>)
    requires s != [] && Distinct(s)
    ensures s[0] !in s[1..] && Distinct(s[1..])
  {
    forall i | 0 <= i < |s[1..]| ensures s[1..][i] != s[0] {
      assert s[1..][i] == s[i + 1];
    }
  }

  lemma ConcatAssoc<K>(a: seq<K>, b: seq<K>, c: seq<K>)
    ensures (a + b) + c == a + (b + c)
  {
  }

  lemma NotInCons<K, V>(s: seq<K>, m: map<K, V>)
    requires s != []
    ensures s[0] in m ==> NotIn(s, m) == NotIn(s[1..], m)
    ensures s[0] !in m ==> NotIn(s, m) == [s[0]] + NotIn(s[1..], m)
  {
  }

  lemma {:induction false} NotInMembers<K, V>(s: seq<K>, m: map<K, V>)
    ensures forall x :: x in NotIn(s, m) <==> x in s && x !in m
  {
    if s != [] {
      NotInMembers(s[1..], m);
      assert s == [s[0]] + s[1..];
    }
  }

  /** Putting a key that does not occur in `s` does not change which keys of `s` are new. */
  lemma {:induction false} NotInSame<K, V>(s: seq<K>, m: map<K, V>, k: K, v: V)
    requires k !in s
    ensures NotIn(s, m[k := v]) == NotIn(s, m)
  {
    if s != [] {
      assert s == [s[0]] + s[1..];
      NotInSame(s[1..], m, k, v);
    }
  }
}
