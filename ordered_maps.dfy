/**
 A string-keyed map that remembers the order in which its keys were first
 inserted, as java.util.LinkedHashMap does in its default (insertion-order)
 mode. Re-inserting a key that is already present replaces its value and
 leaves its position alone.
 */
module OrderedMaps {

  /** No key occurs twice. */
  predicate Distinct(ks: seq<string>)
  {
    forall i, j :: 0 <= i < j < |ks| ==> ks[i] != ks[j]
  }

  /** `keys` is the iteration order; `entries` holds the values. */
  datatype OrderedMap<V> = OrderedMap(keys: seq<string>, entries: map<string, V>)
  {
    /** The key order lists every key of `entries` exactly once. */
    ghost predicate Valid()
    {
      Distinct(keys) && forall k :: k in entries <==> k in keys
    }

    function GetOrDefault(k: string, default: V): V
    {
      if k in entries then entries[k] else default
    }

    /** `put`: the value of `k` becomes `v`; a new key goes last, an old key keeps its place. */
    function Put(k: string, v: V): OrderedMap<V>
    {
      if k in entries then OrderedMap(keys, entries[k := v])
      else OrderedMap(keys + [k], entries[k := v])
    }

    /** `computeIfAbsent`: inserts `v` under `k` only when `k` is absent. */
    function ComputeIfAbsent(k: string, v: V): OrderedMap<V>
    {
      if k in entries then this else Put(k, v)
    }
  }

  /** `put` keeps the key order listing every key exactly once, and makes `k` a key. */
  lemma PutValid<V>(m: OrderedMap<V>, k: string, v: V)
    requires m.Valid()
    ensures m.Put(k, v).Valid() && k in m.Put(k, v).keys
  {
  }

  function Empty<V>(): (r: OrderedMap<V>)
    ensures r.Valid() && r.keys == [] && r.entries == map[]
  {
    OrderedMap([], map[])
  }

  /** Looking a key up, then appending to the list found or created there, is one `Put`. */
  lemma {:induction false} AppendViaComputeIfAbsent<T>(g: OrderedMap<seq<T>>, k: string, x: T)
    ensures var h := g.ComputeIfAbsent(k, []);
            k in h.entries && h.Put(k, h.entries[k] + [x]) == g.Put(k, g.GetOrDefault(k, []) + [x])
  {
    if k !in g.entries {
      var h := g.ComputeIfAbsent(k, []);
      assert h.entries[k] + [x] == [x];
      assert h.entries[k := [x]] == g.entries[k := [x]];
    }
  }

  // ---------------------------------------------------------------------------
  // Sum of the values of a count map, taken in key order.

  function CountOf(m: map<string, int>, k: string): int
  {
    if k in m then m[k] else 0
  }

  function SumOver(ks: seq<string>, m: map<string, int>): int
  {
    if ks == [] then 0 else SumOver(ks[..|ks| - 1], m) + CountOf(m, ks[|ks| - 1])
  }

  function Total(d: OrderedMap<int>): int
  {
    SumOver(d.keys, d.entries)
  }

  lemma {:induction false} SumOverOtherKey(ks: seq<string>, m: map<string, int>, k: string, v: int)
    requires k !in ks
    ensures SumOver(ks, m[k := v]) == SumOver(ks, m)
  {
    if ks != [] {
      SumOverOtherKey(ks[..|ks| - 1], m, k, v);
    }
  }

  lemma {:induction false} SumOverUpdate(ks: seq<string>, m: map<string, int>, k: string, v: int)
    requires Distinct(ks) && k in ks
    ensures SumOver(ks, m[k := v]) + CountOf(m, k) == SumOver(ks, m) + v
  {
    var pre := ks[..|ks| - 1];
    if ks[|ks| - 1] == k {
      assert k !in pre by {
        forall i | 0 <= i < |pre| ensures pre[i] != k {
          assert ks[i] != ks[|ks| - 1];
        }
      }
      SumOverOtherKey(pre, m, k, v);
    } else {
      assert k in pre by {
        var i :| 0 <= i < |ks| && ks[i] == k;
        assert pre[i] == k;
      }
      SumOverUpdate(pre, m, k, v);
    }
  }

  /** Putting `v` under `k` changes the total by `v` minus the old count of `k`. */
  lemma {:induction false} PutTotal(d: OrderedMap<int>, k: string, v: int)
    requires d.Valid()
    ensures Total(d.Put(k, v)) + d.GetOrDefault(k, 0) == Total(d) + v
  {
    if k in d.entries {
      SumOverUpdate(d.keys, d.entries, k, v);
    } else {
      SumOverOtherKey(d.keys, d.entries, k, v);
      assert (d.keys + [k])[..|d.keys|] == d.keys;
    }
  }

  /** Adding one to the count of `k`, creating it if needed, adds one to the total. */
  lemma {:induction false} PutIncrementTotal(d: OrderedMap<int>, k: string)
    requires d.Valid()
    ensures Total(d.Put(k, d.GetOrDefault(k, 0) + 1)) == Total(d) + 1
  {
    PutTotal(d, k, d.GetOrDefault(k, 0) + 1);
  }

  // ---------------------------------------------------------------------------
  // All elements held in the lists of a group map, counted with multiplicity.

  function ListOf<T>(m: map<string, seq<T>>, k: string): seq<T>
  {
    if k in m then m[k] else []
  }

  function MembersOver<T>(ks: seq<string>, m: map<string, seq<T>>): multiset<T>
  {
    if ks == [] then multiset{} else MembersOver(ks[..|ks| - 1], m) + multiset(ListOf(m, ks[|ks| - 1]))
  }

  function Members<T>(g: OrderedMap<seq<T>>): multiset<T>
  {
    MembersOver(g.keys, g.entries)
  }

  lemma {:induction false} MembersOverOtherKey<T>(ks: seq<string>, m: map<string, seq<T>>, k: string, v: seq<T>)
    requires k !in ks
    ensures MembersOver(ks, m[k := v]) == MembersOver(ks, m)
  {
    if ks != [] {
      MembersOverOtherKey(ks[..|ks| - 1], m, k, v);
    }
  }

  lemma {:induction false} MembersOverAppend<T>(ks: seq<string>, m: map<string, seq<T>>, k: string, x: T)
    requires Distinct(ks) && k in ks
    ensures MembersOver(ks, m[k := ListOf(m, k) + [x]]) == MembersOver(ks, m) + multiset{x}
  {
    var m' := m[k := ListOf(m, k) + [x]];
    var pre := ks[..|ks| - 1];
    var last := ks[|ks| - 1];
    if last == k {
      assert k !in pre by {
        forall i | 0 <= i < |pre| ensures pre[i] != k {
          assert ks[i] != ks[|ks| - 1];
        }
      }
      MembersOverOtherKey(pre, m, k, ListOf(m, k) + [x]);
    } else {
      assert k in pre by {
        var i :| 0 <= i < |ks| && ks[i] == k;
        assert pre[i] == k;
      }
      MembersOverAppend(pre, m, k, x);
      assert ListOf(m', last) == ListOf(m, last);
    }
  }

  /** Appending `x` to the list of `k`, creating it if needed, adds `x` once to the grouped elements. */
  lemma {:induction false} PutAppendMembers<T>(g: OrderedMap<seq<T>>, k: string, x: T)
    requires g.Valid()
    ensures Members(g.Put(k, g.GetOrDefault(k, []) + [x])) == Members(g) + multiset{x}
  {
    var v := g.GetOrDefault(k, []) + [x];
    if k in g.entries {
      MembersOverAppend(g.keys, g.entries, k, x);
    } else {
      MembersOverOtherKey(g.keys, g.entries, k, v);
      var ks := g.keys + [k];
      assert ks[..|ks| - 1] == g.keys;
    }
  }
}
