/** Python's `dict` as the dashboard uses it: a mapping that also remembers the
    order in which keys were first inserted, which is the order `for k in d` and
    `d.items()` visit them. */
module OrderedDict {

  datatype Dict<K(==), V> = Dict(keys: seq<K>, values: map<K, V>)

  predicate Distinct<K(==)>(s: seq<K>) {
    forall i, j :: 0 <= i < j < |s| ==> s[i] != s[j]
  }

  /** The key sequence lists every key of the mapping exactly once. */
  predicate Valid<K(==), V>(d: Dict<K, V>) {
    && Distinct(d.keys)
    && (forall k | k in d.keys :: k in d.values)
    && (forall k | k in d.values :: k in d.keys)
  }

  function Empty<K(==), V>(): (r: Dict<K, V>)
    ensures Valid(r) && r.values == map[]
  {
    Dict([], map[])
  }

  /** `d[k] = v`: a new key goes to the end of the order, an existing key keeps
      its place. */
  function Put<K(==), V>(d: Dict<K, V>, k: K, v: V): (r: Dict<K, V>)
    requires Valid(d)
    ensures Valid(r)
    ensures r.values == d.values[k := v]
    ensures k in d.values ==> r.keys == d.keys
    ensures k !in d.values ==> r.keys == d.keys + [k]
  {
    if k in d.values then Dict(d.keys, d.values[k := v])
    else Dict(d.keys + [k], d.values[k := v])
  }

  /** `d[k]` on a `defaultdict`: the stored value, or the factory's value. */
  function GetOr<K(==), V>(d: Dict<K, V>, k: K, default: V): V {
    if k in d.values then d.values[k] else default
  }
}
