/**
 * Python's built-in `dict` with string keys, as the downloader uses it: a map whose keys are
 * iterated in the order in which they were first inserted. Assigning to an
 * existing key replaces its value but keeps its place.
 */
module OrderedDicts {

  datatype Dict<V> = Dict(keys: seq<string>, entries: map<string, V>) {

    /** Keys listed once each, and exactly the keys of the map. */
    ghost predicate Valid() {
      && (forall i, j :: 0 <= i < j < |keys| ==> keys[i] != keys[j])
      && (forall k :: k in entries <==> k in keys)
    }

    /** `d[k] = v`. */
    function Put(k: string, v: V): (d: Dict<V>)
      requires Valid()
      ensures d.Valid()
      ensures d.entries == entries[k := v]
      ensures k in entries ==> d.keys == keys
      ensures k !in entries ==> d.keys == keys + [k]
    {
      if k in entries then Dict(keys, entries[k := v]) else Dict(keys + [k], entries[k := v])
    }

    /** `d.values()`, in key order. */
    function Values(): (vs: seq<V>)
      requires Valid()
      ensures |vs| == |keys|
      ensures forall i :: 0 <= i < |keys| ==> vs[i] == entries[keys[i]]
    {
      seq(|keys|, i requires 0 <= i < |keys| => entries[keys[i]])
    }
  }

  function Empty<V>(): (d: Dict<V>)
    ensures d.Valid() && d.keys == [] && d.entries == map[]
  {
    Dict([], map[])
  }

  /**
   * `d[k].append(x)` on a `defaultdict(list)`: a missing key is first bound
   * to an empty list at the end of the key order.
   */
  function Append<X>(d: Dict<seq<X>>, k: string, x: X): (r: Dict<seq<X>>)
    requires d.Valid()
    ensures r.Valid()
    ensures r.entries == d.entries[k := (if k in d.entries then d.entries[k] else []) + [x]]
    ensures k in d.entries ==> r.keys == d.keys
    ensures k !in d.entries ==> r.keys == d.keys + [k]
  {
    d.Put(k, (if k in d.entries then d.entries[k] else []) + [x])
  }
}
