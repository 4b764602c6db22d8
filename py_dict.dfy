/**
  A Python `dict` with string keys, as the report builds it: a mapping that
  remembers the order in which its keys were first inserted. Assigning to a
  key that is already present replaces its value and keeps its place.
 */
module PyDict {
  import opened Seqs

  datatype Dict<V> = Dict(keys: seq<string>, entries: map<string, V>)
  {
    /** The key order lists each key of the mapping exactly once. */
    ghost predicate Valid()
    {
      NoDup(keys) && forall k :: k in entries <==> k in keys
    }

    /** `d[k] = v`. */
    function Set(k: string, v: V): (d: Dict<V>)
      ensures Valid() ==> d.Valid()
      ensures d.entries == entries[k := v]
      ensures k in keys ==> d.keys == keys
      ensures k !in keys ==> d.keys == keys + [k]
    {
      if k in keys then Dict(keys, entries[k := v]) else Dict(keys + [k], entries[k := v])
    }
  }

  /** `{}`. */
  function Empty<V>(): (d: Dict<V>)
    ensures d.Valid() && d.keys == [] && d.entries == map[]
  {
    Dict([], map[])
  }

  /** A valid dictionary has one entry per key in its key order. */
  lemma {:induction false} DictSize<V>(d: Dict<V>)
    requires d.Valid()
    ensures |d.entries| == |d.keys|
  {
    NoDupCard(d.keys);
    assert d.entries.Keys == set k | k in d.keys;
  }

  /** A duplicate-free list has as many distinct elements as it is long. */
  lemma {:induction false} NoDupCard(s: seq<string>)
    requires NoDup(s)
    ensures |set k | k in s| == |s|
  {
    if |s| > 0 {
      var init := s[..|s| - 1];
      NoDupCard(init);
      assert (set k | k in s) == (set k | k in init) + {s[|s| - 1]};
      assert s[|s| - 1] !in init;
    }
  }
}
