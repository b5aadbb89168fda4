/** tools/funcs.py: the flat key/value list <-> dict codec used by object and
    settings records (`"1,901,2,15"` is split on commas and paired up). A Python
    dict is modelled as its items in insertion order. */
module Funcs {
  import opened Wrappers

  /** A Python dict: its (key, value) items in insertion order. */
  type Dict<K, V> = seq<(K, V)>

  predicate DistinctKeys<K(==), V>(d: Dict<K, V>) {
    forall i, j :: 0 <= i < j < |d| ==> d[i].0 != d[j].0
  }

  /** The value stored under `k`, if any. */
  function Lookup<K(==), V>(d: Dict<K, V>, k: K): Option<V>
    decreases |d|
  {
    if |d| == 0 then None
    else if d[|d| - 1].0 == k then Some(d[|d| - 1].1)
    else Lookup(d[..|d| - 1], k)
  }

  /** `d[k] = v`: an existing key keeps its position and takes the new value,
      a new key goes to the end. */
  function Insert<K(==), V>(d: Dict<K, V>, k: K, v: V): Dict<K, V>
    decreases |d|
  {
    if |d| == 0 then [(k, v)]
    else if d[0].0 == k then [(k, v)] + d[1..]
    else [d[0]] + Insert(d[1..], k, v)
  }

  /** `dict(items)`: the items inserted left to right. */
  function DictOf<K(==), V>(items: seq<(K, V)>): Dict<K, V>
    decreases |items|
  {
    if |items| == 0 then []
    else Insert(DictOf(items[..|items| - 1]), items[|items| - 1].0, items[|items| - 1].1)
  }

  /** `zip(i, i)` over one iterator: element 2i paired with element 2i+1; an
      unpaired last element is dropped. */
  function Zipped<T>(pairs: seq<T>): (z: seq<(T, T)>)
    ensures |z| == |pairs| / 2
  {
    seq(|pairs| / 2, i requires 0 <= i < |pairs| / 2 => (pairs[2 * i], pairs[2 * i + 1]))
  }

  /** `pairs2dict(pairs)`. */
  function Pairs2Dict<T(==)>(pairs: seq<T>): Dict<T, T> {
    DictOf(Zipped(pairs))
  }

  /** `dict2pairs(d)`: key, value, key, value, ... in dict order. */
  function Dict2Pairs<T>(d: Dict<T, T>): seq<T>
    decreases |d|
  {
    if |d| == 0 then [] else [d[0].0, d[0].1] + Dict2Pairs(d[1..])
  }

  lemma InsertShape<K, V>(d: Dict<K, V>, k: K, v: V)
    requires DistinctKeys(d)
    ensures DistinctKeys(Insert(d, k, v))
    ensures (exists i :: 0 <= i < |d| && d[i].0 == k) ==>
      |Insert(d, k, v)| == |d| &&
      forall i :: 0 <= i < |d| ==> Insert(d, k, v)[i] == (if d[i].0 == k then (k, v) else d[i])
    ensures (forall i :: 0 <= i < |d| ==> d[i].0 != k) ==> Insert(d, k, v) == d + [(k, v)]
  {
    InsertKeys(d, k, v);
    if exists i :: 0 <= i < |d| && d[i].0 == k {
      var i :| 0 <= i < |d| && d[i].0 == k;
      InsertPresent(d, k, v, i);
    } else {
      InsertAbsent(d, k, v);
    }
  }

  /** `d[k] = v` for a key `d` holds at `i` replaces that item in place. */
  lemma {:induction false} InsertPresent<K, V>(d: Dict<K, V>, k: K, v: V, i: nat)
    requires DistinctKeys(d) && i < |d| && d[i].0 == k
    ensures Insert(d, k, v) == d[i := (k, v)]
    decreases |d|
  {
    if i > 0 {
      assert DistinctKeys(d[1..]) by {
        forall a, b | 0 <= a < b < |d[1..]|
          ensures d[1..][a].0 != d[1..][b].0
        {
          assert d[1..][a] == d[a + 1] && d[1..][b] == d[b + 1];
        }
      }
      InsertPresent(d[1..], k, v, i - 1);
      assert d[i := (k, v)] == [d[0]] + d[1..][i - 1 := (k, v)];
    }
  }

  /** `d[k] = v` for a key `d` does not hold appends the item. */
  lemma {:induction false} InsertAbsent<K, V>(d: Dict<K, V>, k: K, v: V)
    requires forall i :: 0 <= i < |d| ==> d[i].0 != k
    ensures Insert(d, k, v) == d + [(k, v)]
    decreases |d|
  {
    if |d| > 0 {
      assert forall i :: 0 <= i < |d[1..]| ==> d[1..][i] == d[i + 1];
      InsertAbsent(d[1..], k, v);
      assert d + [(k, v)] == [d[0]] + (d[1..] + [(k, v)]);
    }
  }

  /** `d[k] = v` keeps the keys distinct. */
  lemma InsertKeys<K, V>(d: Dict<K, V>, k: K, v: V)
    requires DistinctKeys(d)
    ensures DistinctKeys(Insert(d, k, v))
  {
    if exists i :: 0 <= i < |d| && d[i].0 == k {
      var i :| 0 <= i < |d| && d[i].0 == k;
      InsertPresent(d, k, v, i);
      var r := Insert(d, k, v);
      forall a, b | 0 <= a < b < |r|
        ensures r[a].0 != r[b].0
      {
        assert r[a].0 == d[a].0 && r[b].0 == d[b].0;
      }
    } else {
      InsertAbsent(d, k, v);
    }
  }

  lemma {:induction false} LookupAppend<K, V>(d: Dict<K, V>, k: K, v: V, q: K)
    ensures Lookup(d + [(k, v)], q) == if q == k then Some(v) else Lookup(d, q)
  {
    assert (d + [(k, v)])[..|d|] == d;
  }

  /** Looking a key up after `d[k] = v` yields `v`; other keys are untouched. */
  lemma {:induction false} LookupInsert<K, V>(d: Dict<K, V>, k: K, v: V, q: K)
    requires DistinctKeys(d)
    ensures Lookup(Insert(d, k, v), q) == if q == k then Some(v) else Lookup(d, q)
    decreases |d|
  {
    if |d| > 0 {
      InsertShape(d, k, v);
      LookupFront(d, q);
      LookupFront(Insert(d, k, v), q);
      if d[0].0 != k {
        LookupInsert(d[1..], k, v, q);
        assert Insert(d, k, v)[1..] == Insert(d[1..], k, v);
      } else {
        assert Insert(d, k, v)[1..] == d[1..];
      }
    }
  }

  /** In a dict with distinct keys, lookups may be read from the front. */
  lemma {:induction false} LookupFront<K, V>(d: Dict<K, V>, q: K)
    requires DistinctKeys(d) && |d| > 0
    ensures Lookup(d, q) == if d[0].0 == q then Some(d[0].1) else Lookup(d[1..], q)
    decreases |d|
  {
    if |d| > 1 {
      LookupFront(d[..|d| - 1], q);
      assert d[..|d| - 1][1..] == d[1..][..|d| - 2];
    }
  }

  /** A key is stored iff it is the key of some item. */
  lemma {:induction false} LookupSome<K, V>(d: Dict<K, V>, q: K)
    requires DistinctKeys(d)
    ensures Lookup(d, q).Some? <==> exists i :: 0 <= i < |d| && d[i].0 == q
    ensures forall i :: 0 <= i < |d| && d[i].0 == q ==> Lookup(d, q) == Some(d[i].1)
    decreases |d|
  {
    if |d| > 0 {
      LookupSome(d[..|d| - 1], q);
      assert forall i :: 0 <= i < |d| - 1 ==> d[..|d| - 1][i] == d[i];
    }
  }

  /** The dict built from a list of pairs has distinct keys, and each key maps to
      the value of its LAST pair: for repeated keys the later value wins. */
  lemma {:induction false} DictOfLaterWins<K, V>(items: seq<(K, V)>, q: K)
    ensures DistinctKeys(DictOf(items))
    ensures Lookup(DictOf(items), q).Some? <==> exists i :: 0 <= i < |items| && items[i].0 == q
    ensures forall i :: (0 <= i < |items| && items[i].0 == q && (forall j :: i < j < |items| ==> items[j].0 != q))
                        ==> Lookup(DictOf(items), q) == Some(items[i].1)
    decreases |items|
  {
    if |items| > 0 {
      var n := |items| - 1;
      var pre := items[..n];
      DictOfLaterWins(pre, q);
      assert DictOf(items) == Insert(DictOf(pre), items[n].0, items[n].1);
      InsertKeys(DictOf(pre), items[n].0, items[n].1);
      LookupInsert(DictOf(pre), items[n].0, items[n].1, q);
      assert forall i :: 0 <= i < n ==> pre[i] == items[i];
      if items[n].0 != q && exists i :: 0 <= i < |items| && items[i].0 == q {
        var i :| 0 <= i < |items| && items[i].0 == q;
        assert pre[i].0 == q;
      }
      forall i | 0 <= i < |items| && items[i].0 == q && (forall j :: i < j < |items| ==> items[j].0 != q)
        ensures Lookup(DictOf(items), q) == Some(items[i].1)
      {
        if i < n {
          assert items[n].0 != q;
          assert pre[i].0 == q;
        }
      }
    }
  }

  /** `pairs2dict`: element 2i is paired with 2i+1 and later pairs win. */
  lemma Pairs2DictLookup<T>(pairs: seq<T>, i: nat)
    requires 2 * i + 1 < |pairs|
    requires forall j :: i < j < |pairs| / 2 ==> pairs[2 * j] != pairs[2 * i]
    ensures DistinctKeys(Pairs2Dict(pairs))
    ensures Lookup(Pairs2Dict(pairs), pairs[2 * i]) == Some(pairs[2 * i + 1])
  {
    var z := Zipped(pairs);
    DictOfLaterWins(z, pairs[2 * i]);
    assert z[i] == (pairs[2 * i], pairs[2 * i + 1]);
  }

  /** `dict2pairs` yields 2|d| elements, key then value, in dict order. */
  lemma {:induction false} Dict2PairsAt<T>(d: Dict<T, T>)
    ensures |Dict2Pairs(d)| == 2 * |d|
    ensures forall i :: 0 <= i < |d| ==> Dict2Pairs(d)[2 * i] == d[i].0 && Dict2Pairs(d)[2 * i + 1] == d[i].1
    decreases |d|
  {
    if |d| > 0 {
      Dict2PairsAt(d[1..]);
      forall i | 0 <= i < |d|
        ensures Dict2Pairs(d)[2 * i] == d[i].0 && Dict2Pairs(d)[2 * i + 1] == d[i].1
      {
        if i > 0 {
          assert Dict2Pairs(d)[2 * i] == Dict2Pairs(d[1..])[2 * (i - 1)];
          assert Dict2Pairs(d)[2 * i + 1] == Dict2Pairs(d[1..])[2 * (i - 1) + 1];
        }
      }
    }
  }

  lemma {:induction false} DictOfDistinct<K, V>(d: Dict<K, V>)
    requires DistinctKeys(d)
    ensures DictOf(d) == d
    decreases |d|
  {
    if |d| > 0 {
      var n := |d| - 1;
      DictOfDistinct(d[..n]);
      InsertShape(d[..n], d[n].0, d[n].1);
      assert d[..n] + [(d[n].0, d[n].1)] == d;
    }
  }

  /** `pairs2dict(dict2pairs(d)) == d`. */
  lemma Pairs2DictRoundTrip<T>(d: Dict<T, T>)
    requires DistinctKeys(d)
    ensures Pairs2Dict(Dict2Pairs(d)) == d
  {
    Dict2PairsAt(d);
    assert Zipped(Dict2Pairs(d)) == d;
    DictOfDistinct(d);
  }
}
