/** Rows, slices, and the pandas reductions the accumulators apply to a slice:
    `Series.sum()`, `Series.count()`, the filter mask and `groupby`. */
module Frames {
  import opened Sorting

  datatype Option<+T> = None | Some(value: T)

  /** A group key or filter value. */
  type Key = string

  /** One DataFrame row, projected onto the columns an accumulator was
      configured with: the filter column, the grouping column and the value
      column (`mean_col` or `sum_col`), whose entry may be missing (NaN). */
  datatype Row = Row(filter: Key, group: Key, target: Option<int>)

  /** One `df_slice`: its rows in order. */
  type Slice = seq<Row>

  /** The two lists handed to `update_widget`: bar labels and bar heights. */
  datatype Estimate = Estimate(groups: seq<Key>, values: seq<real>)

  /** What one row adds to `Series.sum()`: nothing when its value is missing. */
  function Value(r: Row): int
  {
    match r.target
    case Some(v) => v
    case None => 0
  }

  /** What one row adds to `Series.count()`. */
  function Present(r: Row): nat
  {
    if r.target.Some? then 1 else 0
  }

  /** `df_slice.count()[col]`: the number of non-missing values in the value column. */
  function ColumnCount(s: Slice): (n: nat)
    ensures n <= |s|
  {
    if |s| == 0 then 0 else Present(s[0]) + ColumnCount(s[1..])
  }

  /** `df_slice.sum()[col]`: the total of the non-missing values in the value
      column, 0 when there are none. */
  function ColumnSum(s: Slice): (t: int)
    ensures ColumnCount(s) == 0 ==> t == 0
  {
    if |s| == 0 then 0 else Value(s[0]) + ColumnSum(s[1..])
  }

  /** `df_slice[df_slice[filter_col] == v]`: the matching rows, in order. */
  function Where(s: Slice, v: Key): (m: Slice)
    ensures |m| <= |s|
    ensures forall i | 0 <= i < |m| :: m[i].filter == v
    ensures (forall i | 0 <= i < |s| :: s[i].filter == v) ==> m == s
  {
    if |s| == 0 then []
    else (if s[0].filter == v then [s[0]] else []) + Where(s[1..], v)
  }

  /** The rows `groupby` puts into group k, in order. */
  function GroupRows(s: Slice, k: Key): (g: Slice)
    ensures |g| <= |s|
    ensures forall i | 0 <= i < |g| :: g[i].group == k
  {
    if |s| == 0 then []
    else (if s[0].group == k then [s[0]] else []) + GroupRows(s[1..], k)
  }

  /** The group keys occurring in s. */
  function KeysOf(s: Slice): set<Key>
  {
    if |s| == 0 then {} else {s[0].group} + KeysOf(s[1..])
  }

  /** `df_slice[groupby_col]` as a list. */
  function GroupColumn(s: Slice): (c: seq<Key>)
    ensures |c| == |s|
    ensures forall k :: k in c <==> k in KeysOf(s)
  {
    if |s| == 0 then [] else [s[0].group] + GroupColumn(s[1..])
  }

  /** The groups `df_slice.groupby(groupby_col)` yields, in the order it yields
      them: each key once, sorted (pandas' default `sort=True`). */
  function SliceGroups(s: Slice): (g: seq<Key>)
    ensures Distinct(g)
    ensures StrictlyAscending(g)
    ensures forall k :: k in g <==> k in KeysOf(s)
  {
    var d := Dedup(GroupColumn(s));
    SortDistinct(d);
    assert multiset(Sort(d)) == multiset(d);
    Sort(d)
  }

  /** `groupby(...)[col].sum()` for one group: a key that does not occur in
      the slice gets nothing. */
  function GroupSum(s: Slice, k: Key): (t: int)
    ensures k !in KeysOf(s) ==> t == 0
  {
    GroupRowsAbsent(s, k);
    ColumnSum(GroupRows(s, k))
  }

  /** `groupby(...)[col].count()` for one group: at most the slice's row
      count, and 0 for a key that does not occur. */
  function GroupCount(s: Slice, k: Key): (n: nat)
    ensures n <= |s|
    ensures k !in KeysOf(s) ==> n == 0
  {
    GroupRowsAbsent(s, k);
    ColumnCount(GroupRows(s, k))
  }

  /** The per-group sums of a whole data set, computed in one pass. */
  function GroupSums(s: Slice): map<Key, int>
  {
    map k | k in KeysOf(s) :: GroupSum(s, k)
  }

  /** The per-group non-missing counts of a whole data set, computed in one pass. */
  function GroupCounts(s: Slice): map<Key, int>
  {
    map k | k in KeysOf(s) :: GroupCount(s, k)
  }

  /** All rows of a sequence of slices, in delivery order. */
  function Flatten(ss: seq<Slice>): Slice
  {
    if |ss| == 0 then [] else Flatten(ss[..|ss| - 1]) + ss[|ss| - 1]
  }

  // Every reduction above is additive over concatenation of row sequences.

  lemma {:induction false} SumAppend(a: Slice, b: Slice)
    ensures ColumnSum(a + b) == ColumnSum(a) + ColumnSum(b)
  {
    if |a| == 0 {
      assert a + b == b;
    } else {
      assert (a + b)[1..] == a[1..] + b;
      SumAppend(a[1..], b);
    }
  }

  lemma {:induction false} CountAppend(a: Slice, b: Slice)
    ensures ColumnCount(a + b) == ColumnCount(a) + ColumnCount(b)
  {
    if |a| == 0 {
      assert a + b == b;
    } else {
      assert (a + b)[1..] == a[1..] + b;
      CountAppend(a[1..], b);
    }
  }

  lemma {:induction false} WhereAppend(a: Slice, b: Slice, v: Key)
    ensures Where(a + b, v) == Where(a, v) + Where(b, v)
  {
    if |a| == 0 {
      assert a + b == b;
    } else {
      assert (a + b)[1..] == a[1..] + b;
      WhereAppend(a[1..], b, v);
    }
  }

  lemma {:induction false} GroupRowsAppend(a: Slice, b: Slice, k: Key)
    ensures GroupRows(a + b, k) == GroupRows(a, k) + GroupRows(b, k)
  {
    if |a| == 0 {
      assert a + b == b;
    } else {
      assert (a + b)[1..] == a[1..] + b;
      GroupRowsAppend(a[1..], b, k);
    }
  }

  lemma {:induction false} KeysOfAppend(a: Slice, b: Slice)
    ensures KeysOf(a + b) == KeysOf(a) + KeysOf(b)
  {
    if |a| == 0 {
      assert a + b == b;
    } else {
      assert (a + b)[1..] == a[1..] + b;
      KeysOfAppend(a[1..], b);
    }
  }

  /** A key that does not occur has no rows. */
  lemma {:induction false} GroupRowsAbsent(s: Slice, k: Key)
    ensures k !in KeysOf(s) ==> GroupRows(s, k) == []
  {
    if |s| > 0 {
      GroupRowsAbsent(s[1..], k);
    }
  }

  /** When every row belongs to group k, group k holds the whole slice. */
  lemma {:induction false} GroupRowsAll(s: Slice, k: Key)
    requires KeysOf(s) <= {k}
    ensures GroupRows(s, k) == s
  {
    if |s| > 0 {
      GroupRowsAll(s[1..], k);
      assert s == [s[0]] + s[1..];
    }
  }

  /** A filter value no row carries selects nothing. */
  lemma {:induction false} WhereNone(s: Slice, v: Key)
    ensures (forall i | 0 <= i < |s| :: s[i].filter != v) ==> Where(s, v) == []
  {
    if |s| > 0 {
      WhereNone(s[1..], v);
      if forall i | 0 <= i < |s| :: s[i].filter != v {
        assert forall i | 0 <= i < |s[1..]| :: s[1..][i].filter != v;
      }
    }
  }

  /** A group's total over a + b is its total over a plus its total over b,
      and a group absent from b gets nothing from it. */
  lemma GroupTotalsAppend(a: Slice, b: Slice, k: Key)
    ensures GroupSum(a + b, k) == GroupSum(a, k) + GroupSum(b, k)
    ensures GroupCount(a + b, k) == GroupCount(a, k) + GroupCount(b, k)
    ensures k !in KeysOf(b) ==> GroupSum(b, k) == 0 && GroupCount(b, k) == 0
  {
    GroupRowsAppend(a, b, k);
    SumAppend(GroupRows(a, k), GroupRows(b, k));
    CountAppend(GroupRows(a, k), GroupRows(b, k));
    if k !in KeysOf(b) {
      GroupRowsAbsent(b, k);
    }
  }
}
