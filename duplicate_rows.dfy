/** The duplicate-rows corruption: the selected rows are appended once more and the result is
    shuffled under a fresh range index. */
module DuplicateRows {
  import opened Wrappers
  import opened Frames
  import opened Reproducibility

  /** `DuplicateRows._apply_corruption`: `concat([data, data.loc[rows]])`, then a shuffle and
      reindex. The columns handed to it are not read. */
  function ApplyCorruption(st: SeedState, data: Table, labels: seq<RowKey>, cols: seq<ColName>): (r: Result<Table>)
    requires st.numpy.Sound() && data.Valid()
    ensures r.Failure? <==> !st.Seeded()
    ensures r.Failure? ==> r.error == st.EnsureReproducibility().error
    ensures r.Success? ==> r.value.Valid() && r.value.columns == data.columns
    ensures r.Success? ==> |r.value.rows| == |data.rows| + |LocRows(data.index, data.rows, labels)|
    ensures r.Success? ==> r.value.index == RangeIndex(|r.value.rows|)
    ensures r.Success? ==>
              multiset(r.value.rows) == multiset(data.rows) + multiset(LocRows(data.index, data.rows, labels))
  {
    ShuffleReindexDataframe(st, Concat(data, Loc(data, labels)))
  }

  /** With a duplicate-free index and labels drawn from it, the output has one extra row per
      label, and each extra row is a copy of the row carrying that label. */
  lemma DuplicatesOfSelected(st: SeedState, data: Table, labels: seq<RowKey>, cols: seq<ColName>)
    requires st.numpy.Sound() && st.Seeded() && data.Valid() && Distinct(data.index)
    requires forall l :: l in labels ==> l in data.index
    ensures ApplyCorruption(st, data, labels, cols).Success?
    ensures |ApplyCorruption(st, data, labels, cols).value.rows| == |data.rows| + |labels|
    ensures multiset(ApplyCorruption(st, data, labels, cols).value.rows)
            == multiset(data.rows) + multiset(seq(|labels|, j requires 0 <= j < |labels| => data.rows[PositionOf(data.index, labels[j])]))
  {
    LocRowsDistinct(data.index, data.rows, labels);
    var copies := seq(|labels|, j requires 0 <= j < |labels| => data.rows[PositionOf(data.index, labels[j])]);
    assert LocRows(data.index, data.rows, labels) == copies;
  }
}
