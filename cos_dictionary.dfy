/** The dictionary object of the format, keyed by name. Its class is not part
    of this model; what the model assumes of it is that entries keep their
    insertion order (keySet iterates in that order), that setting an existing
    key keeps its place, and that setting a key to null removes it. */
module CosDictionary {
  import opened Wrappers

  predicate Distinct(s: seq<string>)
  {
    forall i, j :: 0 <= i < j < |s| ==> s[i] != s[j]
  }

  /** `keys` is the iteration order, `items` the entries. */
  datatype Dict<V> = Dict(keys: seq<string>, items: map<string, V>) {

    ghost predicate Valid()
    {
      Distinct(keys) && forall k :: k in items <==> k in keys
    }

    function Get(k: string): Option<V>
    {
      if k in items then Some(items[k]) else None
    }

    /** setItem with a non-null value. */
    function SetItem(k: string, v: V): (d: Dict<V>)
      ensures d.Get(k) == Some(v)
      ensures forall j :: j != k ==> d.Get(j) == Get(j)
      ensures Valid() ==> d.Valid()
      ensures Valid() ==> (k in keys ==> d.keys == keys) && (k !in keys ==> d.keys == keys + [k])
    {
      if k in items then Dict(keys, items[k := v]) else Dict(keys + [k], items[k := v])
    }

    /** setItem with null, that is removeItem. */
    function RemoveItem(k: string): (d: Dict<V>)
      ensures d.Get(k) == None
      ensures forall j :: j != k ==> d.Get(j) == Get(j)
      ensures Valid() ==> d.Valid()
    {
      Dict(Without(keys, k), items - {k})
    }
  }

  function Empty<V>(): (d: Dict<V>)
    ensures d.Valid() && forall k :: d.Get(k) == None
  {
    Dict([], map[])
  }

  /** `s` with every occurrence of `k` taken out, order kept. */
  function Without(s: seq<string>, k: string): (r: seq<string>)
    ensures forall x :: x in r <==> x in s && x != k
    ensures Distinct(s) ==> Distinct(r)
  {
    if s == [] then []
    else if s[0] == k then Without(s[1..], k)
    else
      var r' := Without(s[1..], k);
      assert Distinct(s) ==> s[0] !in s[1..];
      assert Distinct(s) ==> Distinct(s[1..]) by {
        if Distinct(s) {
          forall i, j | 0 <= i < j < |s[1..]| ensures s[1..][i] != s[1..][j] {
            assert s[1..][i] == s[i + 1] && s[1..][j] == s[j + 1];
          }
        }
      }
      [s[0]] + r'
  }
}
