/** A Python `dict` from group key to int, as the grouped accumulators use it:
    insertion-ordered keys plus the key-to-value map. */
module Dicts {
  import opened Sorting
  import opened Frames

  datatype Dict = Dict(keys: seq<Key>, vals: map<Key, int>)

  /** The key list holds each key of the map exactly once. */
  predicate Valid(d: Dict)
  {
    && Distinct(d.keys)
    && (forall k | k in d.vals :: k in d.keys)
    && (forall k | k in d.keys :: k in d.vals)
  }

  /** `{}` */
  const Empty: Dict := Dict([], map[])

  /** `d.get(k, 0)` */
  function Get(d: Dict, k: Key): int
  {
    if k in d.vals then d.vals[k] else 0
  }

  /** The value map after `d[k] = d.get(k, 0) + x`. */
  function Bump(m: map<Key, int>, k: Key, x: int): map<Key, int>
  {
    m[k := (if k in m then m[k] else 0) + x]
  }

  /** `if k not in d: d[k] = 0` followed by `d[k] += x`: a new key goes to the
      end of the insertion order, an existing key keeps its place. */
  function Add(d: Dict, k: Key, x: int): (r: Dict)
    requires Valid(d)
    ensures Valid(r)
    ensures r.vals.Keys == d.vals.Keys + {k}
    ensures r.vals[k] == Get(d, k) + x
    ensures forall j | j in d.vals && j != k :: r.vals[j] == d.vals[j]
    ensures k in d.vals ==> r.keys == d.keys
    ensures k !in d.vals ==> r.keys == d.keys + [k]
  {
    if k in d.vals then Dict(d.keys, d.vals[k := d.vals[k] + x])
    else
      AppendDistinct(d.keys, k);
      Dict(d.keys + [k], d.vals[k := x])
  }

  /** The loop `for g in groups: d[g] = d.get(g, 0) + delta(g)`, for distinct
      groups: the dict stays well formed and gains exactly the listed groups as
      keys. `AccumulateValues` states what the values become. */
  function Accumulate(d: Dict, groups: seq<Key>, delta: Key -> int): (r: Dict)
    requires Valid(d) && Distinct(groups)
    ensures Valid(r)
    ensures forall k :: k in r.vals <==> k in d.vals || k in groups
    decreases |groups|
  {
    if |groups| == 0 then d
    else
      DistinctTail(groups);
      Accumulate(Add(d, groups[0], delta(groups[0])), groups[1..], delta)
  }

  /** After the loop the listed groups have gained their deltas and every other
      key keeps its value. */
  lemma AccumulateValues(d: Dict, groups: seq<Key>, delta: Key -> int)
    requires Valid(d) && Distinct(groups)
    ensures forall k | k in groups :: Accumulate(d, groups, delta).vals[k] == Get(d, k) + delta(k)
    ensures forall k | k in d.vals && k !in groups :: Accumulate(d, groups, delta).vals[k] == d.vals[k]
  {
    AccumulateVals(d, groups, delta);
    AccumulateMapValues(d.vals, groups, delta);
  }

  /** The value map the loop leaves behind, on the map alone. */
  function AccumulateMap(m: map<Key, int>, groups: seq<Key>, delta: Key -> int): map<Key, int>
    decreases |groups|
  {
    if |groups| == 0 then m
    else
      AccumulateMap(Bump(m, groups[0], delta(groups[0])), groups[1..], delta)
  }

  /** The dict loop leaves behind the same value map as the fold on maps. */
  lemma {:induction false} AccumulateVals(d: Dict, groups: seq<Key>, delta: Key -> int)
    requires Valid(d) && Distinct(groups)
    ensures Accumulate(d, groups, delta).vals == AccumulateMap(d.vals, groups, delta)
    decreases |groups|
  {
    if |groups| > 0 {
      var g := groups[0];
      var d' := Add(d, g, delta(g));
      DistinctTail(groups);
      assert d'.vals == Bump(d.vals, g, delta(g));
      AccumulateVals(d', groups[1..], delta);
    }
  }

  /** For distinct groups, each listed group gains its delta once and every
      other key keeps its value. */
  lemma {:induction false} AccumulateMapValues(m: map<Key, int>, groups: seq<Key>, delta: Key -> int)
    requires Distinct(groups)
    ensures var r := AccumulateMap(m, groups, delta);
      forall k | k in groups :: k in r && r[k] == (if k in m then m[k] else 0) + delta(k)
    ensures var r := AccumulateMap(m, groups, delta);
      forall k | k in m && k !in groups :: k in r && r[k] == m[k]
    decreases |groups|
  {
    if |groups| > 0 {
      var g, rest := groups[0], groups[1..];
      DistinctTail(groups);
      AccumulateMapValues(Bump(m, g, delta(g)), rest, delta);
      assert forall k :: k in groups <==> k == g || k in rest by {
        assert groups == [g] + rest;
      }
    }
  }

  /** `sorted(d.keys())`: every key once, strictly ascending. */
  function SortedKeys(d: Dict): (r: seq<Key>)
    requires Valid(d)
    ensures StrictlyAscending(r)
    ensures forall k :: k in r <==> k in d.vals
  {
    SortDistinct(d.keys);
    Sort(d.keys)
  }

  /** The sorted key list depends on the key set only, not on insertion order. */
  lemma SortedKeysDetermined(d: Dict, e: Dict)
    requires Valid(d) && Valid(e)
    requires d.vals.Keys == e.vals.Keys
    ensures SortedKeys(d) == SortedKeys(e)
  {
    SortDetermined(d.keys, e.keys);
  }

  /** A dict keyed by exactly the groups of some rows lists, sorted, the
      groups `groupby` yields for those rows. */
  lemma SortedKeysAreGroups(d: Dict, rows: Slice)
    requires Valid(d) && d.vals.Keys == KeysOf(rows)
    ensures SortedKeys(d) == SliceGroups(rows)
  {
    var g := Dedup(GroupColumn(rows));
    assert forall k :: k in d.keys <==> k in g;
    SortDetermined(d.keys, g);
  }
}
