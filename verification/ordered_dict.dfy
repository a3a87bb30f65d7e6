/**
 * Python's built-in `dict` as used by the diagnostic report: a mapping that
 * remembers the order in which its keys were first inserted. Assigning to a
 * key that is already present replaces its value and leaves the key where it
 * was; assigning to a new key appends it at the end.
 */
module OrderedDict {

  /** `keys` is the iteration order, `items` the key/value mapping. */
  datatype Dict<K, V> = Dict(keys: seq<K>, items: map<K, V>)

  predicate Distinct<K(==)>(s: seq<K>) {
    forall i, j :: 0 <= i < j < |s| ==> s[i] != s[j]
  }

  /** Every key appears exactly once in the order, and nothing else does. */
  predicate Valid<K(==), V>(d: Dict<K, V>) {
    && Distinct(d.keys)
    && (forall i :: 0 <= i < |d.keys| ==> d.keys[i] in d.items)
    && (forall k <- d.items.Keys :: k in d.keys)
  }

  function Empty<K(==), V>(): (d: Dict<K, V>)
    ensures Valid(d) && d.keys == [] && d.items == map[]
  {
    Dict([], map[])
  }

  /** `d[k] = v`. */
  function Put<K(==), V>(d: Dict<K, V>, k: K, v: V): (r: Dict<K, V>)
    requires Valid(d)
    ensures Valid(r)
    ensures r.items == d.items[k := v]
    ensures k in d.items ==> r.keys == d.keys
    ensures k !in d.items ==> r.keys == d.keys + [k]
  {
    if k in d.items then Dict(d.keys, d.items[k := v])
    else Dict(d.keys + [k], d.items[k := v])
  }

  /** The dict literal `{k: v}`. */
  function Single<K(==), V>(k: K, v: V): (d: Dict<K, V>)
    ensures Valid(d) && d.keys == [k] && d.items == map[k := v]
  {
    Put(Empty(), k, v)
  }

  /** `len(d)`: a valid dict has as many entries as its order lists keys. */
  lemma {:induction false} SizeIsKeyCount<K, V>(d: Dict<K, V>)
    requires Valid(d)
    ensures |d.items| == |d.keys|
  {
    DistinctCard(d.keys);
    assert d.items.Keys == (set k | k in d.keys);
  }

  lemma {:induction false} DistinctCard<K>(s: seq<K>)
    requires Distinct(s)
    ensures |set k | k in s| == |s|
  {
    if s != [] {
      var init := s[..|s| - 1];
      assert Distinct(init);
      DistinctCard(init);
      assert (set k | k in s) == (set k | k in init) + {s[|s| - 1]};
    }
  }
}
