/** `GroupByAvgOla`: running per-group means of one column. */
module GroupByAvgOla {
  import opened Sorting
  import Lexicographic
  import opened Frames
  import opened Grouping
  import Dicts

  /** `self.group_sums` and `self.group_counts`. */
  datatype State = State(sums: Dicts.Dict, counts: Dicts.Dict)

  /** Both dicts are well formed, they have the same keys, and no count is negative. */
  predicate Valid(st: State)
  {
    && Dicts.Valid(st.sums)
    && Dicts.Valid(st.counts)
    && st.sums.vals.Keys == st.counts.vals.Keys
    && forall k | k in st.counts.vals :: st.counts.vals[k] >= 0
  }

  /** The constructor: two empty dicts. */
  function Init(): (st: State)
    ensures Valid(st)
    ensures st.sums.vals == map[] && st.counts.vals == map[]
  {
    State(Dicts.Empty, Dicts.Empty)
  }

  /** The bookkeeping half of `process_slice`: the slice's per-group sums and
      counts are added in. The two dicts keep one key set, which grows by the
      slice's groups and loses nothing, and no count decreases. */
  function Update(st: State, s: Slice): (r: State)
    requires Valid(st)
    ensures Valid(r)
    ensures forall k :: k in r.sums.vals <==> k in st.sums.vals || k in KeysOf(s)
    ensures forall k | k in st.counts.vals :: st.counts.vals[k] <= r.counts.vals[k]
  {
    State(MergeSums(st.sums, s), MergeCounts(st.counts, s))
  }

  /** One group's estimate: `sum / count if count > 0 else 0`. */
  function Mean(sum: int, count: int): (m: real)
    ensures count > 0 ==> m * count as real == sum as real
    ensures count <= 0 ==> m == 0.0
  {
    if count > 0 then sum as real / count as real else 0.0
  }

  /** The `update_widget(sorted groups, means)` half: every group seen so far,
      strictly ascending, each with its mean (0 for a group with no value yet). */
  function Emit(st: State): (e: Estimate)
    requires Valid(st)
    ensures StrictlyAscending(e.groups)
    ensures forall k :: k in e.groups <==> k in st.sums.vals
    ensures |e.values| == |e.groups|
    ensures forall i | 0 <= i < |e.groups| ::
      e.groups[i] in st.counts.vals && e.values[i] == Mean(st.sums.vals[e.groups[i]], st.counts.vals[e.groups[i]])
  {
    var groups := Dicts.SortedKeys(st.sums);
    Estimate(groups, Means(groups, st.sums.vals, st.counts.vals))
  }

  /** The means of the listed groups, in their order. */
  function Means(groups: seq<Key>, sums: map<Key, int>, counts: map<Key, int>): (v: seq<real>)
    requires forall k | k in groups :: k in sums && k in counts
    ensures |v| == |groups|
  {
    seq(|groups|, i requires 0 <= i < |groups| => Mean(sums[groups[i]], counts[groups[i]]))
  }

  /** `process_slice`: the new state and what the widget is given. The groups
      shown are those shown before plus the slice's, strictly ascending. */
  function Step(st: State, s: Slice): (r: (State, Estimate))
    requires Valid(st)
    ensures Valid(r.0)
    ensures StrictlyAscending(r.1.groups)
    ensures forall k :: k in r.1.groups <==> k in st.sums.vals || k in KeysOf(s)
  {
    var st' := Update(st, s);
    (st', Emit(st'))
  }

  /** The state after the constructor and one `process_slice` per slice: each
      group's sum and non-missing count over all rows delivered so far. */
  function Run(slices: seq<Slice>): (st: State)
    ensures Valid(st)
    ensures st.sums.vals == GroupSums(Flatten(slices))
    ensures st.counts.vals == GroupCounts(Flatten(slices))
  {
    if |slices| == 0 then Init()
    else
      var n := |slices| - 1;
      var prev := Run(slices[..n]);
      MergeSumsTotals(prev.sums, Flatten(slices[..n]), slices[n]);
      MergeCountsTotals(prev.counts, Flatten(slices[..n]), slices[n]);
      Update(prev, slices[n])
  }

  /** The grouped means of a whole data set, computed at once: its groups in
      `groupby` order, each with its mean (0 when it has no value). */
  function Exact(rows: Slice): Estimate
  {
    var groups := SliceGroups(rows);
    Estimate(groups, seq(|groups|, i requires 0 <= i < |groups| =>
      Mean(GroupSum(rows, groups[i]), GroupCount(rows, groups[i]))))
  }

  /** A state holding the per-group totals of some rows shows exactly the
      grouped means of those rows. */
  lemma EmitExact(st: State, rows: Slice)
    requires Valid(st)
    requires st.sums.vals == GroupSums(rows) && st.counts.vals == GroupCounts(rows)
    ensures Emit(st) == Exact(rows)
  {
    SameGroups(st, rows);
    SameMeans(st, rows);
  }

  /** The groups shown are the groups `groupby` yields for the rows. */
  lemma SameGroups(st: State, rows: Slice)
    requires Valid(st) && st.sums.vals == GroupSums(rows)
    ensures Emit(st).groups == SliceGroups(rows)
  {
    assert st.sums.vals.Keys == KeysOf(rows);
    Dicts.SortedKeysAreGroups(st.sums, rows);
  }

  /** With the same groups, the means shown are the exact grouped means. */
  lemma SameMeans(st: State, rows: Slice)
    requires Valid(st)
    requires st.sums.vals == GroupSums(rows) && st.counts.vals == GroupCounts(rows)
    ensures Emit(st).values == Exact(rows).values
  {
    SameGroups(st, rows);
    var e, x := Emit(st), Exact(rows);
    forall i | 0 <= i < |e.values| ensures e.values[i] == x.values[i] {
      var k := e.groups[i];
      assert k in KeysOf(rows);
      assert x.values[i] == Mean(GroupSum(rows, k), GroupCount(rows, k));
    }
  }

  /** Convergence: after the last slice the widget shows the grouped means of
      everything delivered, including groups absent from the last slice. */
  lemma Converges(slices: seq<Slice>)
    requires |slices| > 0
    ensures Valid(Run(slices[..|slices| - 1]))
    ensures Step(Run(slices[..|slices| - 1]), slices[|slices| - 1]).1 == Exact(Flatten(slices))
  {
    var n := |slices| - 1;
    assert Step(Run(slices[..n]), slices[n]).0 == Run(slices);
    EmitExact(Run(slices), Flatten(slices));
  }

  /** Splitting the same rows into slices differently gives the same totals
      and the same widget contents. */
  lemma SliceBoundariesIrrelevant(a: seq<Slice>, b: seq<Slice>)
    requires Flatten(a) == Flatten(b)
    ensures Run(a).sums.vals == Run(b).sums.vals
    ensures Run(a).counts.vals == Run(b).counts.vals
    ensures Emit(Run(a)) == Emit(Run(b))
  {
    Dicts.SortedKeysDetermined(Run(a).sums, Run(b).sums);
  }

  /** The groups of rows whose keys are "a" and "b" come out as ["a", "b"]. */
  lemma GroupsAB(rows: Slice)
    requires KeysOf(rows) == {"a", "b"}
    ensures SliceGroups(rows) == ["a", "b"]
  {
    var a, b := "a", "b";
    assert a != b by { assert a[0] != b[0]; }
    assert Lexicographic.Below(a, b);
    TwoAscending(SliceGroups(rows), a, b);
  }

  /** The grouped means of rows whose keys are "a" and "b". */
  lemma ExactAB(rows: Slice)
    requires KeysOf(rows) == {"a", "b"}
    ensures Exact(rows) == Estimate(["a", "b"],
      [Mean(GroupSum(rows, "a"), GroupCount(rows, "a")), Mean(GroupSum(rows, "b"), GroupCount(rows, "b"))])
  {
    GroupsAB(rows);
    ExactTwo(rows, "a", "b");
  }

  /** The grouped means of rows with exactly two groups, one per group in order. */
  lemma ExactTwo(rows: Slice, a: Key, b: Key)
    requires SliceGroups(rows) == [a, b]
    ensures Exact(rows).values
         == [Mean(GroupSum(rows, a), GroupCount(rows, a)), Mean(GroupSum(rows, b), GroupCount(rows, b))]
  {
    var x := Exact(rows);
    assert x.values[0] == Mean(GroupSum(rows, a), GroupCount(rows, a));
    assert x.values[1] == Mean(GroupSum(rows, b), GroupCount(rows, b));
  }

  /** A group's sum and count over a three-row slice, row by row. */
  lemma ThreeRows(x: Row, y: Row, z: Row, k: Key)
    ensures GroupSum([x, y, z], k)
         == (if x.group == k then Value(x) else 0) + (if y.group == k then Value(y) else 0)
          + (if z.group == k then Value(z) else 0)
    ensures GroupCount([x, y, z], k)
         == (if x.group == k then Present(x) else 0) + (if y.group == k then Present(y) else 0)
          + (if z.group == k then Present(z) else 0)
    ensures KeysOf([x, y, z]) == {x.group, y.group, z.group}
  {
    var a, b, c := [x], [y], [z];
    var ab := a + b;
    assert [x, y, z] == ab + c;
    OneRow(x, k);
    OneRow(y, k);
    OneRow(z, k);
    GroupTotalsAppend(a, b, k);
    GroupTotalsAppend(ab, c, k);
    KeysOfAppend(a, b);
    KeysOfAppend(ab, c);
  }

  /** A group's sum and count over a single row. */
  lemma OneRow(x: Row, k: Key)
    ensures GroupSum([x], k) == if x.group == k then Value(x) else 0
    ensures GroupCount([x], k) == if x.group == k then Present(x) else 0
    ensures KeysOf([x]) == {x.group}
  {
    assert [x][1..] == [];
  }

  /** Convergence for the first two slices, written as the calls happen. */
  lemma FirstTwoSlices(s1: Slice, s2: Slice)
    ensures Step(Init(), s1).1 == Exact(s1)
    ensures Valid(Step(Init(), s1).0)
    ensures Step(Step(Init(), s1).0, s2).1 == Exact(s1 + s2)
  {
    var two: seq<Slice> := [s1, s2];
    assert two[..1] == [s1] && two[..1][..0] == [];
    assert Flatten(two[..1]) == s1;
    assert Flatten(two) == s1 + s2;
    Converges(two[..1]);
    Converges(two);
  }

  /** The first slice a 10, a 20, b 5 on its own: a: 30 from two values,
      b: 5 from one. */
  lemma FirstSliceTotals(s1: Slice)
    requires s1 == [Row("", "a", Some(10)), Row("", "a", Some(20)), Row("", "b", Some(5))]
    ensures KeysOf(s1) == {"a", "b"}
    ensures GroupSum(s1, "a") == 30 && GroupCount(s1, "a") == 2
    ensures GroupSum(s1, "b") == 5 && GroupCount(s1, "b") == 1
  {
    var a, b := "a", "b";
    assert a != b by { assert a[0] != b[0]; }
    assert s1 == [s1[0], s1[1], s1[2]];
    ThreeRows(s1[0], s1[1], s1[2], a);
    ThreeRows(s1[0], s1[1], s1[2], b);
  }

  /** Rows with these per-group totals have the grouped means a: 15, b: 5. */
  lemma FirstSliceMeans(rows: Slice)
    requires KeysOf(rows) == {"a", "b"}
    requires GroupSum(rows, "a") == 30 && GroupCount(rows, "a") == 2
    requires GroupSum(rows, "b") == 5 && GroupCount(rows, "b") == 1
    ensures Exact(rows) == Estimate(["a", "b"], [15.0, 5.0])
  {
    ExactAB(rows);
    assert Mean(30, 2) == 15.0 && Mean(5, 1) == 5.0;
  }

  /** The second slice b 15, a 30, b 25 on its own: a: 30 from one value,
      b: 40 from two. */
  lemma SecondSliceTotals(s2: Slice)
    requires s2 == [Row("", "b", Some(15)), Row("", "a", Some(30)), Row("", "b", Some(25))]
    ensures KeysOf(s2) == {"a", "b"}
    ensures GroupSum(s2, "a") == 30 && GroupCount(s2, "a") == 1
    ensures GroupSum(s2, "b") == 40 && GroupCount(s2, "b") == 2
  {
    var a, b := "a", "b";
    assert a != b by { assert a[0] != b[0]; }
    assert s2 == [s2[0], s2[1], s2[2]];
    ThreeRows(s2[0], s2[1], s2[2], a);
    ThreeRows(s2[0], s2[1], s2[2], b);
  }

  /** Per-group totals add up across the two slices: a: 60 from three values,
      b: 45 from three. */
  lemma CombinedTotals(s1: Slice, s2: Slice)
    requires KeysOf(s1) == {"a", "b"} && KeysOf(s2) == {"a", "b"}
    requires GroupSum(s1, "a") == 30 && GroupCount(s1, "a") == 2
    requires GroupSum(s1, "b") == 5 && GroupCount(s1, "b") == 1
    requires GroupSum(s2, "a") == 30 && GroupCount(s2, "a") == 1
    requires GroupSum(s2, "b") == 40 && GroupCount(s2, "b") == 2
    ensures KeysOf(s1 + s2) == {"a", "b"}
    ensures GroupSum(s1 + s2, "a") == 60 && GroupCount(s1 + s2, "a") == 3
    ensures GroupSum(s1 + s2, "b") == 45 && GroupCount(s1 + s2, "b") == 3
  {
    GroupTotalsAppend(s1, s2, "a");
    GroupTotalsAppend(s1, s2, "b");
    KeysOfAppend(s1, s2);
  }

  /** Rows with these per-group totals have the grouped means a: 20, b: 15. */
  lemma CombinedMeans(rows: Slice)
    requires KeysOf(rows) == {"a", "b"}
    requires GroupSum(rows, "a") == 60 && GroupCount(rows, "a") == 3
    requires GroupSum(rows, "b") == 45 && GroupCount(rows, "b") == 3
    ensures Exact(rows) == Estimate(["a", "b"], [20.0, 15.0])
  {
    ExactAB(rows);
    assert Mean(60, 3) == 20.0 && Mean(45, 3) == 15.0;
  }

  /** Six rows in two slices of three: a 10, a 20, b 5 | b 15, a 30, b 25.
      After the first slice the widget shows a: 15, b: 5; after the second,
      a: 20, b: 15. */
  lemma TwoSliceScenario(s1: Slice, s2: Slice)
    requires s1 == [Row("", "a", Some(10)), Row("", "a", Some(20)), Row("", "b", Some(5))]
    requires s2 == [Row("", "b", Some(15)), Row("", "a", Some(30)), Row("", "b", Some(25))]
    ensures Step(Init(), s1).1 == Estimate(["a", "b"], [15.0, 5.0])
    ensures Valid(Step(Init(), s1).0)
    ensures Step(Step(Init(), s1).0, s2).1 == Estimate(["a", "b"], [20.0, 15.0])
  {
    FirstTwoSlices(s1, s2);
    FirstSliceTotals(s1);
    FirstSliceMeans(s1);
    SecondSliceTotals(s2);
    CombinedTotals(s1, s2);
    CombinedMeans(s1 + s2);
  }
}
