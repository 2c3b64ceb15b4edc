/**
 * Python dictionaries with string keys, as the configuration code uses
 * them: a mapping plus the order in which iteration visits its keys.
 * Python 2 leaves that order unspecified; here a new key goes last and an
 * existing key keeps its place, and properties are stated for whatever
 * order the dictionary has.
 */
module Dicts {
  import opened Outcomes

  datatype Dict<V> = Dict(order: seq<string>, entries: map<string, V>)

  /** Every key is listed once, and exactly the keys are listed. */
  predicate Valid<V>(d: Dict<V>) {
    (forall i, j :: 0 <= i < j < |d.order| ==> d.order[i] != d.order[j]) &&
    (forall k :: k in d.entries ==> k in d.order) &&
    (forall i :: 0 <= i < |d.order| ==> d.order[i] in d.entries)
  }

  function Empty<V>(): (d: Dict<V>)
    ensures Valid(d)
    ensures forall k :: k !in d.entries
  {
    Dict([], map[])
  }

  /** `d.get(k, None)` */
  function Get<V>(d: Dict<V>, k: string): (r: Option<V>)
    ensures r.Some? <==> k in d.entries
    ensures r.Some? ==> r.value == d.entries[k]
  {
    if k in d.entries then Some(d.entries[k]) else None
  }

  /** `d[k] = v`: the value of `k` is replaced, no other key changes, and a
      new key is listed last. */
  function Put<V>(d: Dict<V>, k: string, v: V): (r: Dict<V>)
    ensures Get(r, k) == Some(v)
    ensures forall j :: j != k ==> Get(r, j) == Get(d, j)
    ensures r.order == if k in d.order then d.order else d.order + [k]
    ensures Valid(d) ==> Valid(r)
  {
    Dict(if k in d.order then d.order else d.order + [k], d.entries[k := v])
  }

  /** `d.keys()`, in iteration order. */
  function Keys<V>(d: Dict<V>): (r: seq<string>)
    ensures Valid(d) ==> forall k :: k in r <==> k in d.entries
  {
    d.order
  }
}
