/** The label-error corruption: a categorical shift forced onto the target column alone. */
module LabelError {
  import opened Wrappers
  import opened Frames
  import opened Reproducibility
  import CS = CategoricalShift

  /** `LabelError._apply_corruption`: reads the `target_feature` keyword (KeyError when it is
      missing, or when it names no column) and shifts that column only. */
  method ApplyCorruption(f: Frame, st: SeedState, labels: seq<RowKey>, target: Option<ColName>) returns (err: Option<Error>)
    requires f.Valid() && st.numpy.Sound() && st.Seeded()
    modifies f
    ensures f.Valid() && f.index == old(f.index)
    ensures err.Some? <==> target.None? || target.value !in f.ColumnNames()
    ensures err.Some? ==> err.value == KeyError && f.rows == old(f.rows)
    ensures err.None? ==>
              && RowsHave(old(f.rows), [target.value])
              && f.rows == CS.Shift(st, f.index, old(f.rows), labels, [target.value])
  {
    if target.None? || target.value !in f.ColumnNames() {
      return Some(KeyError);
    }
    ShapedHave(f.rows, f.ColumnNames(), [target.value]);
    CS.ApplyCorruption(f, st, labels, [target.value]);
    err := None;
  }

  /** Only the target column can change; in it, each labelled cell takes the image of its old
      value under the permutation of the target's distinct values. */
  lemma OnlyTargetChanges(st: SeedState, index: seq<RowKey>, rows: seq<Row>, labels: seq<RowKey>, target: ColName)
    requires st.numpy.Sound() && st.Seeded()
    requires |index| == |rows| && forall i :: 0 <= i < |rows| ==> target in rows[i]
    ensures RowsHave(rows, [target])
    ensures forall i, c :: 0 <= i < |rows| && c in rows[i] && c != target ==>
              CS.Shift(st, index, rows, labels, [target])[i][c] == rows[i][c]
    ensures forall i :: 0 <= i < |rows| && index[i] !in labels ==>
              CS.Shift(st, index, rows, labels, [target])[i][target] == rows[i][target]
    ensures forall i :: 0 <= i < |rows| && index[i] in labels ==>
              CS.Shift(st, index, rows, labels, [target])[i][target] == CS.Image(st, rows, target, rows[i][target], true)
  {
    CS.ShiftUntouched(st, index, rows, labels, [target]);
    CS.ShiftPointwise(st, index, rows, labels, [target]);
    var out := CS.Shift(st, index, rows, labels, [target]);
    forall i | 0 <= i < |rows| && index[i] in labels
      ensures out[i][target] == CS.Image(st, rows, target, rows[i][target], true)
    {
      assert target in rows[i];
      assert Selected(index[i], labels, target, [target]);
    }
  }
}
