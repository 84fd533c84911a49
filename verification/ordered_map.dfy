/**
  A Python `dict`: a finite map that also remembers the order in which keys
  were first inserted (iteration order). Re-assigning an existing key keeps its
  position.
 */
module OrderedMaps {

  datatype OMap<K, V> = OMap(keys: seq<K>, entries: map<K, V>)

  /** Keys are distinct and are exactly the keys of the map. */
  ghost predicate Valid<K, V>(m: OMap<K, V>)
  {
    && (forall i, j :: 0 <= i < j < |m.keys| ==> m.keys[i] != m.keys[j])
    && m.entries.Keys == (set i | 0 <= i < |m.keys| :: m.keys[i])
  }

  function Empty<K, V>(): (m: OMap<K, V>)
    ensures Valid(m)
  {
    OMap([], map[])
  }

  /** `d[k] = v`. */
  function Put<K, V>(m: OMap<K, V>, k: K, v: V): (r: OMap<K, V>)
    requires Valid(m)
    ensures Valid(r)
    ensures r.entries == m.entries[k := v]
    ensures k in m.entries ==> r.keys == m.keys
    ensures k !in m.entries ==> r.keys == m.keys + [k]
  {
    if k in m.entries then OMap(m.keys, m.entries[k := v])
    else
      var ks := m.keys + [k];
      var before := set i | 0 <= i < |m.keys| :: m.keys[i];
      var after := set i | 0 <= i < |ks| :: ks[i];
      assert after == before + {k} by {
        forall x | x in after
          ensures x in before + {k}
        {
          var i :| 0 <= i < |ks| && ks[i] == x;
          if i < |m.keys| { assert m.keys[i] == x; }
        }
        forall x | x in before
          ensures x in after
        {
          var i :| 0 <= i < |m.keys| && m.keys[i] == x;
          assert ks[i] == x;
        }
        assert ks[|m.keys|] == k;
      }
      OMap(ks, m.entries[k := v])
  }

  /** `list(d.values())`, in key order. */
  function Values<K, V>(m: OMap<K, V>): (vs: seq<V>)
    requires Valid(m)
    ensures |vs| == |m.keys|
    ensures forall i :: 0 <= i < |vs| ==> vs[i] == m.entries[m.keys[i]]
  {
    ValuesOf(m.keys, m.entries)
  }

  function ValuesOf<K, V>(ks: seq<K>, entries: map<K, V>): (vs: seq<V>)
    requires forall i :: 0 <= i < |ks| ==> ks[i] in entries
    ensures |vs| == |ks|
    ensures forall i :: 0 <= i < |vs| ==> vs[i] == entries[ks[i]]
    decreases |ks|
  {
    if |ks| == 0 then [] else [entries[ks[0]]] + ValuesOf(ks[1..], entries)
  }
}
