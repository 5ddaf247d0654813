# Online aggregation accumulators, modelled in Dafny

The repository implements online aggregation (OLA): a data set arrives as a
sequence of DataFrame slices, and after every slice an accumulator updates its
running totals and redraws a bar chart with its current estimate, given as a
list of bar labels (`groups`) and a list of bar heights (`values`).

This project models the four accumulators of `ola.py` that have an
implementation:

- `AvgOla`: a running sum and non-missing count of one column; it shows the
  single bar `""` with `sum / count`.
- `FilterAvgOla`: the same, restricted to rows whose filter column equals a
  fixed value; it shows 0 until a matching value has been seen.
- `GroupByAvgOla`: per-group dicts of sums and counts, merged additively; it
  shows every group seen so far, sorted, with its mean (0 for a group whose
  count is 0).
- `GroupBySumOla`: a per-group dict of cumulative sums, shown sorted. The
  `original_df_num_rows` argument is stored and never read.

Each `process_slice` is a pure state transition. A module per class holds
`State` (the bookkeeping fields), `Init` (the constructor), `Update` (the
bookkeeping half of `process_slice`), `Emit` (the arguments it hands to
`update_widget`), `Step = (Update, Emit of the new state)`, and `Run`, the
fold of `Update` (the state half of `Step`) over a sequence of slices from `Init`.

Shared modules:

- `Frames`: a row is `Row(filter, group, target)`, the DataFrame row projected
  onto the columns the accumulator was built with. The value column may be
  missing (`Option<int>`), and pandas' `sum` and `count` skip missing values.
  The module also holds the filter mask, the rows of one group, and the group
  list `groupby` yields (distinct keys, sorted).
- `Lexicographic` and `Sorting`: Python's order on `str`, proved a total
  order, and an insertion sort standing for `sorted()`. `SortedUnique` shows
  there is only one sorted permutation, so any correct sort gives the same list.
- `Dicts`: a Python dict from key to int, with its insertion-ordered key
  list. `Add` is `if k not in d: d[k] = 0; d[k] += x`.
- `Grouping`: merging one slice's `groupby` result into such a dict.
  `GroupByAvgOla` runs one loop that updates two dicts. The model splits it
  into two folds, one per dict. The dicts are independent, so the result is
  the same.

Sums are `int` and quotients are `real`. The widget, the source of the
slices and pandas itself are not part of the model: each slice is a parameter
of `Step`, and the configured filter value and row count are part of `State`.

## Model

| member | source | states |
|---|---|---|
| AvgOla.Update | ola.py:57-58 | the count never decreases, grows by at most the slice's row count, and when it does not grow the sum does not change either |
| AvgOla.Emit | ola.py:62 | an estimate exists exactly when the count is positive; it is the single bar `""` whose height times the count is the sum (no zero guard; the NaN case is None) |
| AvgOla.Step | ola.py:53-62 | the widget gets a number exactly when the new count is positive, a single bar whose height times the count is the sum; while it gets NaN (None) the state is unchanged |
| AvgOla.Run | ola.py:50-58 | after any sequence of slices, `sum` is the total and `count` the number of all non-missing values delivered, over the concatenated rows |
| AvgOla.ExactMean | ola.py:62 | the mean of a whole data set exists exactly when some row has a value |
| AvgOla.Converges | ola.py:50-62 | after the last slice the widget shows the exact mean of every row delivered, however the rows were sliced |
| AvgOla.SliceBoundariesIrrelevant | ola.py:53-58 | two slicings of the same rows reach the same state |
| FilterAvgOla.Init | ola.py:76-82 | the filter value is stored as given and nothing has matched yet, so the state shows `([""], [0])` |
| FilterAvgOla.Update | ola.py:91-95 | the filter value is kept and the filtered count never decreases and grows by at most the slice's row count |
| FilterAvgOla.Emit | ola.py:97-101 | always the single bar `""`; its height is 0 while the filtered count is 0, and otherwise times the count gives the filtered sum |
| FilterAvgOla.Step | ola.py:84-101 | the filter value is kept; the widget gets one bar, 0 while the filtered count is 0 and otherwise the filtered mean; a slice without a matching row leaves the state unchanged |
| FilterAvgOla.Run | ola.py:81-95 | the filtered sum and count are the total and number of non-missing values among all delivered rows whose filter column equals the filter value |
| FilterAvgOla.NonMatchingRowIgnored | ola.py:91-95 | a row whose filter column differs, inserted anywhere in a slice, leaves the filtered sum and count unchanged |
| FilterAvgOla.NoMatchNoChange | ola.py:91-95 | a slice without a matching row leaves the state unchanged |
| FilterAvgOla.NoMatchShowsZero | ola.py:97-101 | while no delivered row has matched, the widget shows `([""], [0])` |
| FilterAvgOla.SliceBoundariesIrrelevant | ola.py:84-95 | two slicings of the same rows reach the same state |
| GroupByAvgOla.Init | ola.py:121-122 | both dicts start empty and the state invariant holds |
| GroupByAvgOla.Update | ola.py:131-142 | `group_sums` and `group_counts` keep one key set; it becomes the old keys plus the slice's groups, so no key is removed; no group's count decreases |
| GroupByAvgOla.Mean | ola.py:146-147 | a group's estimate times its count is its sum when the count is positive, and 0 otherwise |
| GroupByAvgOla.Emit | ola.py:145-156 | groups are strictly ascending and are exactly the keys held, including groups absent from the latest slice; values are index-aligned, one per group, each that group's mean or 0 |
| GroupByAvgOla.Step | ola.py:124-156 | the groups shown after a slice are the groups held before plus the slice's groups, strictly ascending |
| GroupByAvgOla.Run | ola.py:121-142 | after any sequence of slices, each group's sum and count are its total and non-missing count over all delivered rows, and the invariant holds |
| GroupByAvgOla.EmitExact | ola.py:145-153 | a state holding the per-group totals of some rows shows exactly the grouped means of those rows |
| GroupByAvgOla.Converges | ola.py:131-153 | after the last slice the widget shows the grouped means of every row delivered, computed at once |
| GroupByAvgOla.SliceBoundariesIrrelevant | ola.py:131-153 | two slicings of the same rows give the same sums, counts and widget contents, although the dicts' insertion orders may differ |
| GroupByAvgOla.TwoSliceScenario | ola.py:124-156 | rows a 10, a 20, b 5 then b 15, a 30, b 25: the widget shows a 15, b 5, then a 20, b 15 |
| GroupBySumOla.Init | ola.py:171-177 | the row count is stored as given and the dict starts empty |
| GroupBySumOla.Update | ola.py:184-190 | the key set becomes the old keys plus the slice's groups; groups absent from the slice keep their sums; the stored row count is untouched |
| GroupBySumOla.Emit | ola.py:195-200 | groups are strictly ascending and exactly the keys held; each value is that group's raw cumulative sum, unscaled |
| GroupBySumOla.Step | ola.py:179-200 | the groups shown after a slice are the groups held before plus the slice's groups, strictly ascending; the stored row count is untouched |
| GroupBySumOla.Run | ola.py:172-190 | after any sequence of slices, each group's sum is the total of its rows' values over all delivered rows |
| GroupBySumOla.EmitExact | ola.py:195-200 | a state holding the per-group sums of some rows shows exactly those sums, sorted |
| GroupBySumOla.Converges | ola.py:184-200 | after the last slice the widget shows the grouped sums of every row delivered, computed at once |
| GroupBySumOla.OriginalRowsUnused | ola.py:172 | instances built with different `original_df_num_rows` show the same thing on the same slices |
| GroupBySumOla.SliceBoundariesIrrelevant | ola.py:184-190 | two slicings of the same rows give the same sums and widget contents |
| GroupBySumOla.SingleGroupUnscaled | ola.py:192-200 | a first slice whose rows all belong to one group is shown as that group's raw total, whatever row count was configured |
| Dicts.Add | ola.py:188-190 | an existing key keeps the key list as it was; a new key is appended at the end of the insertion order; the key gains x (from 0 if new) and no other value changes |
| Dicts.Accumulate | ola.py:187-190 | after the merge loop the dict is still well formed and its keys are exactly the old keys plus the listed groups, so no key is lost |
| Dicts.AccumulateValues | ola.py:187-190 | after the merge loop each listed group has gained its delta on top of its old value (0 if new), and every other key keeps its value |
| Dicts.SortedKeys | ola.py:196 | `sorted(d.keys())` lists every key once, strictly ascending |
| Dicts.SortedKeysDetermined | ola.py:196 | the sorted key list depends only on the key set, not on insertion order |
| Grouping.MergeSums | ola.py:184-190 | merging a slice adds its groups to the keys, and groups absent from it keep their sums |
| Grouping.MergeCounts | ola.py:134-142 | merging a slice adds its groups to the keys and no count decreases |
| Grouping.MergeSumsTotals | ola.py:184-190 | merging slice s into the per-group sums of rows p gives the per-group sums of p + s |
| Grouping.MergeCountsTotals | ola.py:134-142 | merging slice s into the per-group counts of rows p gives the per-group counts of p + s |
| Frames.SliceGroups | ola.py:131 | `groupby` yields each key of the slice once, strictly ascending |
| Frames.Where | ola.py:91 | the filter mask keeps only rows whose filter column equals the value, and a slice whose rows all match is kept whole; with `WhereAppend` and `WhereNone` this fixes the result to exactly the matching rows, in order |
| Frames.ColumnCount | ola.py:58 | `df_slice.count()[col]` counts non-missing values, never more than the slice's rows |
| Frames.ColumnSum | ola.py:57 | `df_slice.sum()[col]` is 0 when the column has no value |
| Frames.GroupSum | ola.py:184 | a group's `groupby(...).sum()`, 0 for a key that does not occur in the slice |
| Frames.GroupCount | ola.py:131 | a group's `groupby(...).agg('count')`: at most the slice's rows, and 0 for a key that does not occur |
| Sorting.Sort | ola.py:152 | `sorted()` returns a sorted permutation of its input |
| Sorting.SortedUnique | ola.py:152 | two sorted sequences with the same elements are equal, so the sorted key list is well defined |

## Left out

- `OLA.update_widget` and the Plotly `FigureWidget` (ola.py:27-35) are UI side effects; `Emit` returns the `(groups, values)` pair instead.
- `OLA.process_slice` (ola.py:21-25), `GroupByCountOla.process_slice` (ola.py:224-229) and `FilterDistinctOla.process_slice` (ola.py:256-261) contain only `pass`, so there is no behaviour to model.
- `HyperLogLog` (imported at ola.py:1): the `HLL` module is not part of this model.
- Column names: a row is already projected onto the configured columns, so a missing column (a `KeyError` in pandas) cannot be expressed.
- Filter values and group keys are strings compared as Python compares `str`; numeric keys with numeric order are not modelled. Missing group keys, which `groupby` drops, are not modelled either.
- Floating point: values are `int`, sums are exact integers and quotients are exact `real`s, so rounding is not modelled.
- Integer width: sums and counts are unbounded integers. For int64 columns pandas' `sum` and the numpy scalar `+=` (ola.py:57, 94, 141, 190) wrap around silently past 2^63 - 1; that wrap-around is not modelled.
- AvgOla.Emit: unlike FilterAvgOla (ola.py:97) and GroupByAvgOla (ola.py:147), `AvgOla.process_slice` divides without a zero guard (ola.py:62). With no value seen, numpy yields NaN; the model returns None. The NaN is only shown, never stored: `sum` and `count` (ola.py:57-58) stay numbers, so once a value has been seen the estimate is defined.
- GroupBySumOla.Emit: the constructor's docstring (ola.py:167) speaks of sampling, and ola.py:192-193 says sampled sums would need scaling up. The code scales nothing, and the model follows the code; `OriginalRowsUnused` and `SingleGroupUnscaled` state the consequence.
- `Series.iteritems` (ola.py:187) no longer exists in recent pandas; the model gives it its older meaning, iteration over `(group, sum)` pairs.
