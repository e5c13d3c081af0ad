/**
 * Python's insertion-ordered `dict` with string keys, as a sequence of
 * key/value pairs in insertion order. Assigning to a present key replaces its
 * value in place; assigning to an absent key appends it.
 */
module OrderedDicts {
  import opened Wrappers

  type Dict<V> = seq<(string, V)>

  /** The keys, in insertion order. */
  function Keys<V>(d: Dict<V>): (ks: seq<string>)
    ensures |ks| == |d|
    ensures forall i :: 0 <= i < |d| ==> ks[i] == d[i].0
  {
    seq(|d|, i requires 0 <= i < |d| => d[i].0)
  }

  /** No key occurs twice: every dict satisfies this. */
  predicate DistinctKeys<V>(d: Dict<V>)
  {
    forall i, j :: 0 <= i < j < |d| ==> d[i].0 != d[j].0
  }

  /** `d.get(k)`: the value stored under the first occurrence of `k`. */
  function Lookup<V>(d: Dict<V>, k: string): (r: Option<V>)
    ensures r.Some? <==> k in Keys(d)
  {
    if d == [] then None
    else if d[0].0 == k then Some(d[0].1)
    else
      assert Keys(d) == [d[0].0] + Keys(d[1..]);
      Lookup(d[1..], k)
  }

  /** In a dict, the value under `d[i].0` is `d[i].1`. */
  lemma LookupAt<V>(d: Dict<V>, i: nat)
    requires DistinctKeys(d) && i < |d|
    ensures Lookup(d, d[i].0) == Some(d[i].1)
  {
    if i > 0 {
      LookupAt(d[1..], i - 1);
    }
  }

  /** `d[k] = v`. */
  function Put<V>(d: Dict<V>, k: string, v: V): Dict<V>
  {
    if d == [] then [(k, v)]
    else if d[0].0 == k then [(k, v)] + d[1..]
    else [d[0]] + Put(d[1..], k, v)
  }

  lemma KeysCons<V>(x: (string, V), rest: Dict<V>)
    ensures Keys([x] + rest) == [x.0] + Keys(rest)
  {
  }

  /** Assigning keeps the key order and appends a new key at the end. */
  lemma {:induction false} PutKeys<V>(d: Dict<V>, k: string, v: V)
    ensures Keys(Put(d, k, v)) == if k in Keys(d) then Keys(d) else Keys(d) + [k]
  {
    if d != [] {
      var rest := d[1..];
      assert d == [d[0]] + rest;
      KeysCons(d[0], rest);
      if d[0].0 != k {
        PutKeys(rest, k, v);
        KeysCons(d[0], Put(rest, k, v));
        assert k in Keys(d) <==> k in Keys(rest);
        if k !in Keys(rest) {
          assert [d[0].0] + (Keys(rest) + [k]) == ([d[0].0] + Keys(rest)) + [k];
        }
      } else {
        KeysCons((k, v), rest);
      }
    }
  }

  /** After `d[k] = v`, `k` maps to `v` and every other key to what it mapped to before. */
  lemma {:induction false} PutLookup<V>(d: Dict<V>, k: string, v: V, k': string)
    ensures Lookup(Put(d, k, v), k') == if k' == k then Some(v) else Lookup(d, k')
  {
    if d != [] && d[0].0 != k {
      PutLookup(d[1..], k, v, k');
      assert Put(d, k, v)[1..] == Put(d[1..], k, v);
    }
  }

  /** Assigning keeps the keys distinct. */
  lemma PutDistinct<V>(d: Dict<V>, k: string, v: V)
    requires DistinctKeys(d)
    ensures DistinctKeys(Put(d, k, v))
  {
    PutKeys(d, k, v);
    var r := Put(d, k, v);
    assert Keys(r) == if k in Keys(d) then Keys(d) else Keys(d) + [k];
    forall i, j | 0 <= i < j < |r| ensures r[i].0 != r[j].0 {
      assert Keys(r)[i] == r[i].0 && Keys(r)[j] == r[j].0;
    }
  }

  /** `d.update(kvs)`: assigns every pair of `kvs`, in order. */
  function PutAll<V>(d: Dict<V>, kvs: Dict<V>): Dict<V>
  {
    if kvs == [] then d
    else Put(PutAll(d, kvs[..|kvs| - 1]), kvs[|kvs| - 1].0, kvs[|kvs| - 1].1)
  }

  /** After `d.update(kvs)` a key has the value `kvs` gives it, and otherwise the value it had. */
  lemma {:induction false} PutAllLookup<V>(d: Dict<V>, kvs: Dict<V>, k: string)
    requires DistinctKeys(kvs)
    ensures Lookup(PutAll(d, kvs), k) == if k in Keys(kvs) then Lookup(kvs, k) else Lookup(d, k)
  {
    if kvs != [] {
      var init := kvs[..|kvs| - 1];
      var last := kvs[|kvs| - 1];
      assert kvs == init + [last];
      PutAllLookup(d, init, k);
      PutLookup(PutAll(d, init), last.0, last.1, k);
      LookupAppend(init, last, k);
      assert Keys(kvs) == Keys(init) + [last.0];
    }
  }

  /** Looking a key up in a dict with one more pair at the end. */
  lemma {:induction false} LookupAppend<V>(init: Dict<V>, last: (string, V), k: string)
    ensures Lookup(init + [last], k) ==
            if k in Keys(init) then Lookup(init, k) else if k == last.0 then Some(last.1) else None
  {
    if init != [] {
      assert (init + [last])[1..] == init[1..] + [last];
      assert Keys(init) == [init[0].0] + Keys(init[1..]);
      LookupAppend(init[1..], last, k);
    }
  }

  /** `d.update(kvs)` keeps the keys distinct. */
  lemma {:induction false} PutAllDistinct<V>(d: Dict<V>, kvs: Dict<V>)
    requires DistinctKeys(d)
    ensures DistinctKeys(PutAll(d, kvs))
  {
    if kvs != [] {
      PutAllDistinct(d, kvs[..|kvs| - 1]);
      PutDistinct(PutAll(d, kvs[..|kvs| - 1]), kvs[|kvs| - 1].0, kvs[|kvs| - 1].1);
    }
  }

  /** The keys after `d.update(kvs)` are those of `d` and those of `kvs`. */
  lemma {:induction false} PutAllKeys<V>(d: Dict<V>, kvs: Dict<V>, k: string)
    ensures k in Keys(PutAll(d, kvs)) <==> k in Keys(d) || k in Keys(kvs)
  {
    if kvs != [] {
      var n := |kvs| - 1;
      PutAllKeys(d, kvs[..n], k);
      PutKeys(PutAll(d, kvs[..n]), kvs[n].0, kvs[n].1);
      assert Keys(kvs) == Keys(kvs[..n]) + [kvs[n].0];
    }
  }
}
