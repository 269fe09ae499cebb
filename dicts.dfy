/**
 * Python dictionaries as the league engine uses them: a map that also remembers
 * the order in which its keys were first inserted (`dict`, `defaultdict` and
 * `Counter` all iterate in that order).
 */
module Dicts {

  datatype Dict<K(!new), V> = Dict(keys: seq<K>, vals: map<K, V>) {

    /** Keys are listed once each, and exactly the keys of the map are listed. */
    ghost predicate Valid() {
      && NoDup(keys)
      && (forall k :: k in vals <==> k in keys)
    }

    /** `d[k]` on a defaultdict whose factory yields `dflt`, read without inserting. */
    function Get(k: K, dflt: V): V {
      if k in vals then vals[k] else dflt
    }

    /** `d[k] = v`: a new key goes to the end of the iteration order, an old one keeps its place. */
    function Put(k: K, v: V): (d: Dict<K, V>)
      ensures d.vals == vals[k := v]
    {
      if k in vals then Dict(keys, vals[k := v]) else Dict(keys + [k], vals[k := v])
    }
  }

  /** No element of `s` occurs twice. */
  ghost predicate NoDup<K>(s: seq<K>) {
    s == [] || (NoDup(s[..|s| - 1]) && s[|s| - 1] !in s[..|s| - 1])
  }

  /** A key listed once at most is counted once if listed and not at all otherwise. */
  lemma {:induction false} NoDupCount<K>(s: seq<K>, k: K)
    requires NoDup(s)
    ensures multiset(s)[k] == if k in s then 1 else 0
  {
    if s != [] {
      var init := s[..|s| - 1];
      NoDupCount(init, k);
      assert s == init + [s[|s| - 1]];
    }
  }

  lemma InLast<K>(s: seq<K>, k: K)
    requires s != []
    ensures k in s <==> k in s[..|s| - 1] || k == s[|s| - 1]
  {
    assert s == s[..|s| - 1] + [s[|s| - 1]];
  }

  function Empty<K(!new), V>(): (d: Dict<K, V>)
    ensures d.Valid() && d.keys == [] && d.vals == map[]
  {
    Dict([], map[])
  }

  /** `d[k] += x` on a `defaultdict(int)`. */
  function Add<K(!new)>(d: Dict<K, int>, k: K, x: int): (r: Dict<K, int>)
  {
    d.Put(k, d.Get(k, 0) + x)
  }

  lemma PutValid<K(!new), V>(d: Dict<K, V>, k: K, v: V)
    requires d.Valid()
    ensures d.Put(k, v).Valid()
  {
    if k !in d.vals {
      var ks := d.keys + [k];
      assert ks[..|ks| - 1] == d.keys;
    }
  }

  lemma AddValid<K(!new)>(d: Dict<K, int>, k: K, x: int)
    requires d.Valid()
    ensures Add(d, k, x).Valid()
  {
    PutValid(d, k, d.Get(k, 0) + x);
  }

  /** Where `d[k] += x` puts `k` in the iteration order, and what it stores. */
  lemma AddEntries<K(!new)>(d: Dict<K, int>, k: K, x: int)
    ensures Add(d, k, x).keys == if k in d.vals then d.keys else d.keys + [k]
    ensures Add(d, k, x).vals == d.vals[k := d.Get(k, 0) + x]
  {
  }

  lemma AddTwiceValid<K(!new)>(d: Dict<K, int>, k1: K, x1: int, k2: K, x2: int)
    requires d.Valid()
    ensures Add(Add(d, k1, x1), k2, x2).Valid()
  {
    AddValid(d, k1, x1);
    AddValid(Add(d, k1, x1), k2, x2);
  }

  /** Sum of the values stored under `ks`, taken in the order of `ks`. */
  function SumOver<K(!new)>(ks: seq<K>, m: map<K, int>): int
  {
    if ks == [] then 0 else SumOver(ks[..|ks| - 1], m) + (if ks[|ks| - 1] in m then m[ks[|ks| - 1]] else 0)
  }

  /** `sum(d.values())`. */
  function Total<K(!new)>(d: Dict<K, int>): int
  {
    SumOver(d.keys, d.vals)
  }

  lemma {:induction false} SumOverUpdate<K(!new)>(ks: seq<K>, m: map<K, int>, k: K, v: int)
    requires NoDup(ks)
    requires forall j :: j in ks ==> j in m
    ensures SumOver(ks, m[k := v]) == SumOver(ks, m) + (if k in ks then v - m[k] else 0)
  {
    if ks != [] {
      var init := ks[..|ks| - 1];
      assert forall j :: j in init ==> j in ks;
      SumOverUpdate(init, m, k, v);
      if ks[|ks| - 1] != k {
        assert k in ks <==> k in init by {
          assert ks == init + [ks[|ks| - 1]];
        }
      }
    }
  }

  /** Writing `v` under `k` moves the total by exactly `v` minus what was stored there (0 if nothing). */
  lemma {:induction false} TotalPut<K(!new)>(d: Dict<K, int>, k: K, v: int)
    requires d.Valid()
    ensures Total(d.Put(k, v)) == Total(d) - d.Get(k, 0) + v
  {
    SumOverUpdate(d.keys, d.vals, k, v);
    if k !in d.vals {
      var ks := d.keys + [k];
      assert ks[..|ks| - 1] == d.keys;
    }
  }

  /** `d[k] += x` moves the total by exactly `x`. */
  lemma {:induction false} TotalAdd<K(!new)>(d: Dict<K, int>, k: K, x: int)
    requires d.Valid()
    ensures Total(Add(d, k, x)) == Total(d) + x
  {
    var v := d.Get(k, 0) + x;
    assert Add(d, k, x) == d.Put(k, v);
    TotalPut(d, k, v);
  }

  /** Two increments in a row move the total by their sum. */
  lemma {:induction false} TotalAddTwice<K(!new)>(d: Dict<K, int>, k1: K, x1: int, k2: K, x2: int)
    requires d.Valid()
    ensures Total(Add(Add(d, k1, x1), k2, x2)) == Total(d) + x1 + x2
  {
    TotalAdd(d, k1, x1);
    AddValid(d, k1, x1);
    TotalAdd(Add(d, k1, x1), k2, x2);
  }

  /** With no negative value stored, no single value exceeds the total. */
  lemma {:induction false} EntryAtMostTotal<K(!new)>(ks: seq<K>, m: map<K, int>, k: K)
    requires forall j :: j in ks ==> j in m && m[j] >= 0
    requires k in ks
    ensures 0 <= m[k] <= SumOver(ks, m)
  {
    var init := ks[..|ks| - 1];
    assert ks == init + [ks[|ks| - 1]];
    assert forall j :: j in init ==> j in ks;
    if ks[|ks| - 1] != k {
      EntryAtMostTotal(init, m, k);
    } else {
      SumOverNonNegative(init, m);
    }
  }

  lemma {:induction false} SumOverNonNegative<K(!new)>(ks: seq<K>, m: map<K, int>)
    requires forall j :: j in ks ==> j in m && m[j] >= 0
    ensures SumOver(ks, m) >= 0
  {
    if ks != [] {
      var init := ks[..|ks| - 1];
      assert forall j :: j in init ==> j in ks;
      SumOverNonNegative(init, m);
    }
  }
}
