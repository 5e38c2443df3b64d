/**
 * The Python `dict` the operator fills: a map from keys to values together
 * with the order in which the keys were first inserted. Assigning to a
 * present key keeps its place, a new key goes to the end, and `update`
 * assigns the other dict's pairs in its order. The order matters because it
 * is the order of the keys in each JSON line.
 */
module PyDict {
  import opened Wrappers

  datatype Dict = Dict(order: seq<string>, values: map<string, string>)

  /** `{}` */
  const Empty: Dict := Dict([], map[])

  /** No key occurs twice. */
  predicate Distinct(ks: seq<string>)
  {
    forall i, j :: 0 <= i < j < |ks| ==> ks[i] != ks[j]
  }

  /** What a Python dict always is: each key of the map listed once in the order. */
  ghost predicate IsDict(d: Dict)
  {
    && Distinct(d.order)
    && (forall k :: k in d.values <==> k in d.order)
  }

  /** `d.get(k)`: the value stored under `k`, or None when `k` is absent. */
  function Get(d: Dict, k: string): Option<string>
  {
    if k in d.values then Some(d.values[k]) else None
  }

  /** `d[k] = v`: `k` now holds `v`, and the keys already there keep their order, with at most `k` added. */
  function Put(d: Dict, k: string, v: string): (r: Dict)
    ensures k in r.values && r.values[k] == v
    ensures d.order <= r.order && |r.order| <= |d.order| + 1
  {
    Dict(if k in d.values then d.order else d.order + [k], d.values[k := v])
  }

  /** After `d[k] = v`, `k` maps to `v` and every other key to what it mapped to before. */
  lemma GetPut(d: Dict, k: string, v: string, k': string)
    ensures Get(Put(d, k, v), k') == if k' == k then Some(v) else Get(d, k')
  {
  }

  /** Assignment keeps a dict a dict; a present key keeps its place, a new one is appended. */
  lemma PutIsDict(d: Dict, k: string, v: string)
    requires IsDict(d)
    ensures IsDict(Put(d, k, v))
    ensures Put(d, k, v).order == if k in d.order then d.order else d.order + [k]
  {
  }

  /** Assigning `ks[j]` to `values[ks[j]]` in order. */
  function PutAll(d: Dict, ks: seq<string>, values: map<string, string>): (r: Dict)
    requires forall j :: 0 <= j < |ks| ==> ks[j] in values
    ensures d.order <= r.order && |r.order| <= |d.order| + |ks|
    decreases |ks|
  {
    if ks == [] then d
    else
      var n := |ks| - 1;
      Put(PutAll(d, ks[..n], values), ks[n], values[ks[n]])
  }

  /**
   * `d.update(e)`: the pairs of `e` are assigned into `d` in `e`'s order, so
   * the keys of `d` stay first and at most the keys of `e` follow.
   */
  function Update(d: Dict, e: Dict): (r: Dict)
    requires IsDict(e)
    ensures d.order <= r.order && |r.order| <= |d.order| + |e.order|
  {
    PutAll(d, e.order, e.values)
  }

  /** Assigning distinct keys into `{}` lists them in order, each with its value. */
  lemma {:induction false} PutAllFresh(ks: seq<string>, values: map<string, string>)
    requires Distinct(ks) && forall j :: 0 <= j < |ks| ==> ks[j] in values
    ensures var r := PutAll(Empty, ks, values);
            && r.order == ks
            && forall k :: (k in r.values <==> k in ks) && (k in r.values ==> r.values[k] == values[k])
    decreases |ks|
  {
    if ks != [] {
      var n := |ks| - 1;
      assert ks[..n] + [ks[n]] == ks;
      assert ks[n] !in ks[..n];
      PutAllFresh(ks[..n], values);
      GetPut(PutAll(Empty, ks[..n], values), ks[n], values[ks[n]], ks[n]);
      forall k ensures k in ks <==> k in ks[..n] || k == ks[n] {
        if k in ks {
          var i :| 0 <= i < |ks| && ks[i] == k;
          if i < n { assert ks[..n][i] == k; }
        }
      }
    }
  }

  /** `data = {}; data.update(root)` makes an equal copy of `root`. */
  lemma Copy(root: Dict)
    requires IsDict(root)
    ensures Update(Empty, root) == root
  {
    PutAllFresh(root.order, root.values);
    var r := Update(Empty, root);
    assert r.values == root.values;
  }
}
