/** `GroupBySumOla`: running per-group sums of one column. */
module GroupBySumOla {
  import opened Sorting
  import opened Frames
  import opened Grouping
  import Dicts

  /** The stored `original_df_num_rows` and `self.group_sums`. */
  datatype State = State(originalRows: int, sums: Dicts.Dict)

  predicate Valid(st: State)
  {
    Dicts.Valid(st.sums)
  }

  /** The constructor: the row count is stored as given, the dict starts empty. */
  function Init(originalRows: int): (st: State)
    ensures Valid(st)
    ensures st.originalRows == originalRows && st.sums.vals == map[]
  {
    State(originalRows, Dicts.Empty)
  }

  /** The bookkeeping half of `process_slice`: the slice's per-group sums are
      added in; the key set grows by the slice's groups and loses nothing, and
      groups absent from the slice keep their sums. */
  function Update(st: State, s: Slice): (r: State)
    requires Valid(st)
    ensures Valid(r)
    ensures r.originalRows == st.originalRows
    ensures forall k :: k in r.sums.vals <==> k in st.sums.vals || k in KeysOf(s)
    ensures forall k | k in st.sums.vals && k !in KeysOf(s) :: r.sums.vals[k] == st.sums.vals[k]
  {
    st.(sums := MergeSums(st.sums, s))
  }

  /** The `update_widget(sorted_groups, sorted_sums)` half: every group seen so
      far, strictly ascending, each with its raw cumulative sum. No scaling is
      applied, so the stored row count plays no part. */
  function Emit(st: State): (e: Estimate)
    requires Valid(st)
    ensures StrictlyAscending(e.groups)
    ensures forall k :: k in e.groups <==> k in st.sums.vals
    ensures |e.values| == |e.groups|
    ensures forall i | 0 <= i < |e.groups| ::
      e.groups[i] in st.sums.vals && e.values[i] == st.sums.vals[e.groups[i]] as real
  {
    var groups := Dicts.SortedKeys(st.sums);
    Estimate(groups, seq(|groups|, i requires 0 <= i < |groups| => st.sums.vals[groups[i]] as real))
  }

  /** `process_slice`: the new state and what the widget is given. */
  function Step(st: State, s: Slice): (r: (State, Estimate))
    requires Valid(st)
    ensures Valid(r.0)
    ensures StrictlyAscending(r.1.groups)
    ensures forall k :: k in r.1.groups <==> k in st.sums.vals || k in KeysOf(s)
    ensures r.0.originalRows == st.originalRows
  {
    var st' := Update(st, s);
    (st', Emit(st'))
  }

  /** The state after the constructor and one `process_slice` per slice: each
      group's sum over all rows delivered so far. */
  function Run(originalRows: int, slices: seq<Slice>): (st: State)
    ensures Valid(st)
    ensures st.originalRows == originalRows
    ensures st.sums.vals == GroupSums(Flatten(slices))
  {
    if |slices| == 0 then Init(originalRows)
    else
      var n := |slices| - 1;
      var prev := Run(originalRows, slices[..n]);
      MergeSumsTotals(prev.sums, Flatten(slices[..n]), slices[n]);
      Update(prev, slices[n])
  }

  /** `rows.groupby(groupby_col)[sum_col].sum()` over a whole data set at once. */
  function Exact(rows: Slice): Estimate
  {
    var groups := SliceGroups(rows);
    Estimate(groups, seq(|groups|, i requires 0 <= i < |groups| => GroupSum(rows, groups[i]) as real))
  }

  /** A state holding the per-group sums of some rows shows exactly those sums. */
  lemma EmitExact(st: State, rows: Slice)
    requires Valid(st) && st.sums.vals == GroupSums(rows)
    ensures Emit(st) == Exact(rows)
  {
    SameGroups(st, rows);
    SameSums(st, rows);
  }

  /** The groups shown are the groups `groupby` yields for the rows. */
  lemma SameGroups(st: State, rows: Slice)
    requires Valid(st) && st.sums.vals == GroupSums(rows)
    ensures Emit(st).groups == SliceGroups(rows)
  {
    assert st.sums.vals.Keys == KeysOf(rows);
    Dicts.SortedKeysAreGroups(st.sums, rows);
  }

  /** With the same groups, the values shown are the exact grouped sums. */
  lemma SameSums(st: State, rows: Slice)
    requires Valid(st) && st.sums.vals == GroupSums(rows)
    ensures Emit(st).values == Exact(rows).values
  {
    SameGroups(st, rows);
    var e, x := Emit(st), Exact(rows);
    forall i | 0 <= i < |e.values| ensures e.values[i] == x.values[i] {
      var k := e.groups[i];
      assert k in KeysOf(rows);
      assert x.values[i] == GroupSum(rows, k) as real;
    }
  }

  /** Convergence: after the last slice the widget shows the exact grouped sums
      of everything delivered, whatever row count was configured. */
  lemma Converges(originalRows: int, slices: seq<Slice>)
    requires |slices| > 0
    ensures Valid(Run(originalRows, slices[..|slices| - 1]))
    ensures Step(Run(originalRows, slices[..|slices| - 1]), slices[|slices| - 1]).1
         == Exact(Flatten(slices))
  {
    var n := |slices| - 1;
    assert Step(Run(originalRows, slices[..n]), slices[n]).0 == Run(originalRows, slices);
    EmitExact(Run(originalRows, slices), Flatten(slices));
  }

  /** `original_df_num_rows` is stored but never read: two instances built with
      different row counts show the same thing on the same slices. */
  lemma OriginalRowsUnused(n: int, m: int, slices: seq<Slice>)
    ensures Emit(Run(n, slices)) == Emit(Run(m, slices))
  {
    Dicts.SortedKeysDetermined(Run(n, slices).sums, Run(m, slices).sums);
  }

  /** Splitting the same rows into slices differently gives the same sums and
      the same widget contents. */
  lemma SliceBoundariesIrrelevant(n: int, a: seq<Slice>, b: seq<Slice>)
    requires Flatten(a) == Flatten(b)
    ensures Run(n, a).sums.vals == Run(n, b).sums.vals
    ensures Emit(Run(n, a)) == Emit(Run(n, b))
  {
    Dicts.SortedKeysDetermined(Run(n, a).sums, Run(n, b).sums);
  }

  /** What the widget shows after the first slice is the slice's grouped sums. */
  lemma FirstSliceExact(originalRows: int, s: Slice)
    ensures Step(Init(originalRows), s).1 == Exact(s)
  {
    var one: seq<Slice> := [s];
    assert one[..0] == [];
    assert Flatten(one) == s;
    Converges(originalRows, one);
  }

  /** The grouped sums of rows that all belong to group k: one bar, the total. */
  lemma ExactSingleGroup(s: Slice, k: Key)
    requires KeysOf(s) == {k}
    ensures Exact(s) == Estimate([k], [ColumnSum(s) as real])
  {
    var g := SliceGroups(s);
    SameElements(g, [k]);
    SortedUnique(g, [k]);
    GroupRowsAll(s, k);
    var x := Exact(s);
    assert |x.values| == 1 && x.values[0] == ColumnSum(s) as real;
  }

  /** A slice whose rows all belong to one group k is shown as that group's
      raw total, whatever `original_df_num_rows` was configured: with 100
      configured rows and a first slice of 10 rows of group "x" summing to 50,
      the widget shows 50, not 500. */
  lemma SingleGroupUnscaled(originalRows: int, s: Slice, k: Key)
    requires KeysOf(s) == {k}
    ensures Step(Init(originalRows), s).1 == Estimate([k], [ColumnSum(s) as real])
  {
    FirstSliceExact(originalRows, s);
    ExactSingleGroup(s, k);
  }
}
