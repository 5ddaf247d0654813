/** `AvgOla`: the running mean of one column. */
module AvgOla {
  import opened Frames

  /** `self.sum` and `self.count`. */
  datatype State = State(sum: int, count: nat)

  /** The constructor's bookkeeping: `sum = 0`, `count = 0`. */
  const Init: State := State(0, 0)

  /** The bookkeeping half of `process_slice`: add the slice's non-missing
      total and count. The count never decreases and grows by at most the
      number of rows. */
  function Update(st: State, s: Slice): (r: State)
    ensures st.count <= r.count <= st.count + |s|
    ensures r.count == st.count ==> r.sum == st.sum
  {
    State(st.sum + ColumnSum(s), st.count + ColumnCount(s))
  }

  /** The `update_widget([""], [sum / count])` half. The division has no zero
      guard: with no value seen yet numpy yields NaN, modelled here as None. */
  function Emit(st: State): (e: Option<Estimate>)
    ensures e.Some? <==> st.count > 0
    ensures e.Some? ==> e.value.groups == [""] && |e.value.values| == 1
    ensures e.Some? ==> e.value.values[0] * st.count as real == st.sum as real
  {
    if st.count > 0 then Some(Estimate([""], [st.sum as real / st.count as real]))
    else None
  }

  /** `process_slice`: the new state and what the widget is given. The widget
      gets a number as soon as some value has been seen, and NaN (None) only
      while none has; such a slice leaves the state as it was. */
  function Step(st: State, s: Slice): (r: (State, Option<Estimate>))
    ensures r.1.Some? <==> r.0.count > 0
    ensures r.1.Some? ==> r.1.value.groups == [""] && |r.1.value.values| == 1
    ensures r.1.Some? ==> r.1.value.values[0] * r.0.count as real == r.0.sum as real
    ensures r.1.None? ==> r.0 == st
  {
    var st' := Update(st, s);
    (st', Emit(st'))
  }

  /** The state after the constructor and one `process_slice` per slice:
      the total and the number of all non-missing values delivered so far. */
  function Run(slices: seq<Slice>): (st: State)
    ensures st.sum == ColumnSum(Flatten(slices))
    ensures st.count == ColumnCount(Flatten(slices))
  {
    if |slices| == 0 then Init
    else
      var n := |slices| - 1;
      var p, s := Flatten(slices[..n]), slices[n];
      assert Flatten(slices) == p + s;
      SumAppend(p, s);
      CountAppend(p, s);
      Update(Run(slices[..n]), s)
  }

  /** The exact mean of the non-missing values of a whole data set, computed at once. */
  function ExactMean(rows: Slice): (m: Option<real>)
    ensures m.Some? <==> exists i | 0 <= i < |rows| :: rows[i].target.Some?
  {
    CountPositive(rows);
    if ColumnCount(rows) > 0 then Some(ColumnSum(rows) as real / ColumnCount(rows) as real)
    else None
  }

  /** Some value is present exactly when the count is positive. */
  lemma {:induction false} CountPositive(rows: Slice)
    ensures ColumnCount(rows) > 0 <==> exists i | 0 <= i < |rows| :: rows[i].target.Some?
  {
    if |rows| > 0 {
      CountPositive(rows[1..]);
      if rows[0].target.None? && ColumnCount(rows) > 0 {
        var i :| 0 <= i < |rows[1..]| && rows[1..][i].target.Some?;
        assert rows[i + 1].target.Some?;
      }
      if exists i | 0 <= i < |rows| :: rows[i].target.Some? {
        var i :| 0 <= i < |rows| && rows[i].target.Some?;
        if i > 0 {
          assert rows[1..][i - 1].target.Some?;
        }
      }
    }
  }

  /** Convergence: after the last slice the widget shows the exact mean of
      everything delivered, however the rows were cut into slices. */
  lemma Converges(slices: seq<Slice>)
    requires |slices| > 0
    ensures Step(Run(slices[..|slices| - 1]), slices[|slices| - 1]).1
         == (match ExactMean(Flatten(slices))
             case Some(m) => Some(Estimate([""], [m]))
             case None => None)
  {
    var n := |slices| - 1;
    var st := Run(slices);
    assert Update(Run(slices[..n]), slices[n]) == st;
    assert Step(Run(slices[..n]), slices[n]).1 == Emit(st);
    var rows := Flatten(slices);
    assert st.sum == ColumnSum(rows) && st.count == ColumnCount(rows);
  }

  /** Splitting the same rows into slices differently gives the same state. */
  lemma SliceBoundariesIrrelevant(a: seq<Slice>, b: seq<Slice>)
    requires Flatten(a) == Flatten(b)
    ensures Run(a) == Run(b)
  {
  }
}
