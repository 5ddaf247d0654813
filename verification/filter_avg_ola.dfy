/** `FilterAvgOla`: the running mean of one column over the rows whose filter
    column equals a fixed value. */
module FilterAvgOla {
  import opened Frames

  /** The configured `filter_value`, `self.filtered_sum` and `self.filtered_count`. */
  datatype State = State(filterValue: Key, sum: int, count: nat)

  /** The constructor: the filter value is fixed and nothing has matched yet,
      so the state would show 0. */
  function Init(v: Key): (st: State)
    ensures st.filterValue == v && st.count == 0
    ensures Emit(st) == Estimate([""], [0.0])
  {
    State(v, 0, 0)
  }

  /** The bookkeeping half of `process_slice`: only the rows matching the
      filter value contribute, and of them only the non-missing values. */
  function Update(st: State, s: Slice): (r: State)
    ensures r.filterValue == st.filterValue
    ensures st.count <= r.count <= st.count + |s|
  {
    var m := Where(s, st.filterValue);
    State(st.filterValue, st.sum + ColumnSum(m), st.count + ColumnCount(m))
  }

  /** `filtered_sum / filtered_count if filtered_count else 0`, under the single
      label "": the quotient is the mean, and 0 stands in while nothing matched. */
  function Emit(st: State): (e: Estimate)
    ensures e.groups == [""] && |e.values| == 1
    ensures st.count == 0 ==> e.values[0] == 0.0
    ensures st.count > 0 ==> e.values[0] * st.count as real == st.sum as real
  {
    Estimate([""], [if st.count != 0 then st.sum as real / st.count as real else 0.0])
  }

  /** `process_slice`: the new state and what the widget is given: a single
      bar, 0 while nothing has matched and otherwise the filtered mean. A slice
      without a matching row shows the same as before. */
  function Step(st: State, s: Slice): (r: (State, Estimate))
    ensures r.0.filterValue == st.filterValue
    ensures r.1.groups == [""] && |r.1.values| == 1
    ensures r.0.count == 0 ==> r.1.values[0] == 0.0
    ensures r.0.count > 0 ==> r.1.values[0] * r.0.count as real == r.0.sum as real
    ensures (forall i | 0 <= i < |s| :: s[i].filter != st.filterValue) ==> r.0 == st
  {
    WhereNone(s, st.filterValue);
    var st' := Update(st, s);
    (st', Emit(st'))
  }

  /** The state after the constructor and one `process_slice` per slice: the
      total and count of the non-missing values in the matching rows delivered so far. */
  function Run(v: Key, slices: seq<Slice>): (st: State)
    ensures st.filterValue == v
    ensures st.sum == ColumnSum(Where(Flatten(slices), v))
    ensures st.count == ColumnCount(Where(Flatten(slices), v))
  {
    if |slices| == 0 then Init(v)
    else
      var n := |slices| - 1;
      var p, s := Flatten(slices[..n]), slices[n];
      assert Flatten(slices) == p + s;
      WhereAppend(p, s, v);
      SumAppend(Where(p, v), Where(s, v));
      CountAppend(Where(p, v), Where(s, v));
      Update(Run(v, slices[..n]), s)
  }

  /** A row whose filter column differs from the filter value, inserted
      anywhere in a slice, leaves the filtered sum and count unchanged. */
  lemma NonMatchingRowIgnored(st: State, a: Slice, row: Row, b: Slice)
    requires row.filter != st.filterValue
    ensures Update(st, a + [row] + b) == Update(st, a + b)
  {
    var v := st.filterValue;
    WhereNone([row], v);
    WhereAppend(a, [row], v);
    WhereAppend(a + [row], b, v);
    WhereAppend(a, b, v);
    assert Where(a + [row], v) == Where(a, v);
  }

  /** A slice without a matching row changes nothing. */
  lemma NoMatchNoChange(st: State, s: Slice)
    requires forall i | 0 <= i < |s| :: s[i].filter != st.filterValue
    ensures Update(st, s) == st
  {
    WhereNone(s, st.filterValue);
  }

  /** While no delivered row has matched, the widget shows 0. */
  lemma NoMatchShowsZero(v: Key, slices: seq<Slice>)
    requires |slices| > 0
    requires forall i | 0 <= i < |Flatten(slices)| :: Flatten(slices)[i].filter != v
    ensures Step(Run(v, slices[..|slices| - 1]), slices[|slices| - 1]).1 == Estimate([""], [0.0])
  {
    var n := |slices| - 1;
    assert Step(Run(v, slices[..n]), slices[n]).0 == Run(v, slices);
    WhereNone(Flatten(slices), v);
  }

  /** Splitting the same rows into slices differently gives the same state. */
  lemma SliceBoundariesIrrelevant(v: Key, a: seq<Slice>, b: seq<Slice>)
    requires Flatten(a) == Flatten(b)
    ensures Run(v, a) == Run(v, b)
  {
  }
}
