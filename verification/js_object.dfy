/** A plain JavaScript object with string keys, as the pages keep their answer and
    mark tables: the own keys in the order `Object.keys` lists them (insertion
    order, for keys that are not array indices) and the value stored under each. */
module JsObject {

  datatype Dict<V> = Dict(keys: seq<string>, values: map<string, V>) {
    /** The key list has no repetition and lists exactly the keys of the table. */
    ghost predicate Valid() {
      && (forall i, j :: 0 <= i < j < |keys| ==> keys[i] != keys[j])
      && (forall k :: k in values <==> k in keys)
    }
  }

  /** `{}` */
  function Empty<V>(): (d: Dict<V>)
    ensures d.Valid() && d.keys == [] && d.values == map[]
  {
    Dict([], map[])
  }

  /** `{...d, [k]: v}` or `d[k] = v`: an existing key keeps its place in the key
      order, a new key is enumerated last. */
  function Put<V>(d: Dict<V>, k: string, v: V): (r: Dict<V>)
    requires d.Valid()
    ensures r.Valid()
    ensures r.values == d.values[k := v]
    ensures k in d.values ==> r.keys == d.keys
    ensures k !in d.values ==> r.keys == d.keys + [k]
  {
    if k in d.values then Dict(d.keys, d.values[k := v])
    else Dict(d.keys + [k], d.values[k := v])
  }

  /** `Object.keys(d).length` is the number of entries of the table. */
  lemma {:induction false} KeyCount<V>(d: Dict<V>)
    requires d.Valid()
    ensures |d.keys| == |d.values|
    decreases |d.keys|
  {
    if |d.keys| == 0 {
      assert d.values.Keys == {};
    } else {
      var last := d.keys[|d.keys| - 1];
      var rest := Dict(d.keys[..|d.keys| - 1], d.values - {last});
      assert rest.Valid() by {
        forall k ensures k in rest.values <==> k in rest.keys {
          if k in rest.keys {
            var i :| 0 <= i < |rest.keys| && rest.keys[i] == k;
            assert d.keys[i] == k && k != last;
          }
          if k in rest.values {
            assert k in d.keys && k != last;
            var i :| 0 <= i < |d.keys| && d.keys[i] == k;
            assert i != |d.keys| - 1;
            assert rest.keys[i] == k;
          }
        }
      }
      KeyCount(rest);
      assert last in d.values;
      assert d.values.Keys == rest.values.Keys + {last};
    }
  }
}
