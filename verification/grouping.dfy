/** Merging one slice's `groupby` result into a running per-group dict, the
    step both grouped accumulators share. */
module Grouping {
  import opened Frames
  import Dicts

  /** `for group, s in df_slice.groupby(groupby_col)[col].sum().items():
          if group not in sums: sums[group] = 0
          sums[group] += s` */
  function MergeSums(d: Dicts.Dict, s: Slice): (r: Dicts.Dict)
    requires Dicts.Valid(d)
    ensures Dicts.Valid(r)
    ensures forall k :: k in r.vals <==> k in d.vals || k in KeysOf(s)
    ensures forall k | k in KeysOf(s) :: r.vals[k] == Dicts.Get(d, k) + GroupSum(s, k)
    ensures forall k | k in d.vals && k !in KeysOf(s) :: r.vals[k] == d.vals[k]
  {
    Dicts.AccumulateValues(d, SliceGroups(s), k => GroupSum(s, k));
    Dicts.Accumulate(d, SliceGroups(s), k => GroupSum(s, k))
  }

  /** The same loop over `groupby(groupby_col)[col].count()`: counts only grow. */
  function MergeCounts(d: Dicts.Dict, s: Slice): (r: Dicts.Dict)
    requires Dicts.Valid(d)
    ensures Dicts.Valid(r)
    ensures forall k :: k in r.vals <==> k in d.vals || k in KeysOf(s)
    ensures forall k | k in d.vals :: d.vals[k] <= r.vals[k]
    ensures forall k | k in KeysOf(s) :: r.vals[k] == Dicts.Get(d, k) + GroupCount(s, k)
    ensures forall k | k in d.vals && k !in KeysOf(s) :: r.vals[k] == d.vals[k]
  {
    Dicts.AccumulateValues(d, SliceGroups(s), k => GroupCount(s, k));
    Dicts.Accumulate(d, SliceGroups(s), k => GroupCount(s, k))
  }

  /** Additivity: merging slice s into the per-group sums of the rows p gives
      the per-group sums of p + s. */
  lemma MergeSumsTotals(d: Dicts.Dict, p: Slice, s: Slice)
    requires Dicts.Valid(d) && d.vals == GroupSums(p)
    ensures MergeSums(d, s).vals == GroupSums(p + s)
  {
    var r := MergeSums(d, s);
    KeysOfAppend(p, s);
    forall k | k in KeysOf(p + s) ensures k in r.vals && r.vals[k] == GroupSum(p + s, k) {
      MergedSumAt(d, p, s, k);
    }
    assert r.vals.Keys == KeysOf(p + s);
  }

  /** One key of `MergeSumsTotals`. */
  lemma MergedSumAt(d: Dicts.Dict, p: Slice, s: Slice, k: Key)
    requires Dicts.Valid(d) && d.vals == GroupSums(p)
    requires k in KeysOf(p) || k in KeysOf(s)
    ensures k in MergeSums(d, s).vals
    ensures MergeSums(d, s).vals[k] == GroupSum(p + s, k)
  {
    var r := MergeSums(d, s);
    GroupTotalsAppend(p, s, k);
    if k !in KeysOf(p) {
      GroupRowsAbsent(p, k);
      assert k in KeysOf(s) && Dicts.Get(d, k) == 0;
    } else if k in KeysOf(s) {
      assert Dicts.Get(d, k) == GroupSum(p, k);
    } else {
      assert r.vals[k] == d.vals[k];
    }
  }

  /** Additivity of the per-group counts. */
  lemma MergeCountsTotals(d: Dicts.Dict, p: Slice, s: Slice)
    requires Dicts.Valid(d) && d.vals == GroupCounts(p)
    ensures MergeCounts(d, s).vals == GroupCounts(p + s)
  {
    var r := MergeCounts(d, s);
    KeysOfAppend(p, s);
    forall k | k in KeysOf(p + s) ensures k in r.vals && r.vals[k] == GroupCount(p + s, k) {
      MergedCountAt(d, p, s, k);
    }
    assert r.vals.Keys == KeysOf(p + s);
  }

  /** One key of `MergeCountsTotals`. */
  lemma MergedCountAt(d: Dicts.Dict, p: Slice, s: Slice, k: Key)
    requires Dicts.Valid(d) && d.vals == GroupCounts(p)
    requires k in KeysOf(p) || k in KeysOf(s)
    ensures k in MergeCounts(d, s).vals
    ensures MergeCounts(d, s).vals[k] == GroupCount(p + s, k)
  {
    var r := MergeCounts(d, s);
    GroupTotalsAppend(p, s, k);
    if k !in KeysOf(p) {
      GroupRowsAbsent(p, k);
      assert k in KeysOf(s) && Dicts.Get(d, k) == 0;
    } else if k in KeysOf(s) {
      assert Dicts.Get(d, k) == GroupCount(p, k);
    } else {
      assert r.vals[k] == d.vals[k];
    }
  }

}
