/**
 * A plain JavaScript object whose properties hold strings: the records of
 * the application and the rows of an imported or exported table. Own keys
 * are kept in insertion order, which is the order `Object.keys` and
 * `Object.entries` report for the non-numeric keys used here.
 */
module Objects {
  import opened Wrappers
  import opened Seqs

  datatype PlainObject = PlainObject(keys: seq<string>, vals: map<string, string>)

  /**
   * `ks` lists the keys of `m`, each once: peeling keys off the end of `ks`
   * removes them from `m` one at a time and leaves it empty.
   */
  ghost predicate KeysMatch(ks: seq<string>, m: map<string, string>)
    decreases |ks|
  {
    if ks == [] then m == map[]
    else ks[|ks| - 1] in m && KeysMatch(ks[..|ks| - 1], m - {ks[|ks| - 1]})
  }

  ghost predicate WellFormed(o: PlainObject) {
    KeysMatch(o.keys, o.vals)
  }

  type Obj = o: PlainObject | WellFormed(o) witness PlainObject([], map[])

  lemma {:induction false} KeysMatchFacts(ks: seq<string>, m: map<string, string>)
    requires KeysMatch(ks, m)
    ensures Distinct(ks)
    ensures forall k :: k in m <==> k in ks
    decreases |ks|
  {
    if ks != [] {
      var ks', last := ks[..|ks| - 1], ks[|ks| - 1];
      KeysMatchFacts(ks', m - {last});
      assert ks == ks' + [last];
      assert last !in ks';
      DistinctJoin(ks', [last]);
    }
  }

  /** Own keys of a well-formed object: each listed once, and exactly those with a value. */
  lemma Members(o: Obj)
    ensures Distinct(o.keys)
    ensures forall k :: k in o.vals <==> k in o.keys
  {
    KeysMatchFacts(o.keys, o.vals);
  }

  /** A key the object does not list has no value. */
  lemma AbsentKey(o: Obj, k: string)
    requires k !in o.keys
    ensures k !in o.vals
  {
    Members(o);
  }

  lemma {:induction false} KeysMatchUpdate(ks: seq<string>, m: map<string, string>, k: string, v: string)
    requires KeysMatch(ks, m) && k in m
    ensures KeysMatch(ks, m[k := v])
    decreases |ks|
  {
    KeysMatchFacts(ks, m);
    var ks', last := ks[..|ks| - 1], ks[|ks| - 1];
    if last == k {
      assert m[k := v] - {last} == m - {last};
    } else {
      KeysMatchUpdate(ks', m - {last}, k, v);
      assert m[k := v] - {last} == (m - {last})[k := v];
    }
  }

  /** `{}` */
  const Empty: Obj := PlainObject([], map[])

  /** `o[k]`, with `None` for `undefined`. */
  function Get(o: Obj, k: string): Option<string> {
    if k in o.vals then Some(o.vals[k]) else None
  }

  /**
   * `{ ...o, [k]: v }`, and equally `o[k] = v` on an object nobody else
   * holds: an existing key keeps its place, a new key goes last.
   */
  function Set(o: Obj, k: string, v: string): (r: Obj)
    ensures Get(r, k) == Some(v)
    ensures forall k' :: k' != k ==> Get(r, k') == Get(o, k')
    ensures r.keys == if k in o.vals then o.keys else o.keys + [k]
  {
    if k in o.vals then
      KeysMatchUpdate(o.keys, o.vals, k, v);
      PlainObject(o.keys, o.vals[k := v])
    else
      var r := PlainObject(o.keys + [k], o.vals[k := v]);
      assert r.keys[..|o.keys|] == o.keys;
      assert r.vals - {k} == o.vals;
      r
  }
}
