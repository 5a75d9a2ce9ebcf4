/** The orphaned-foreign-key corruption: targeted cells are set to pandas' NA. */
module OrphanedForeignKey {
  import opened Frames

  /** `OrphanedForeignKey._apply_corruption`: one `.loc` assignment of NA per column. */
  method ApplyCorruption(f: Frame, labels: seq<RowKey>, cols: seq<ColName>)
    requires f.Valid() && f.HasColumns(cols)
    modifies f
    ensures f.Valid() && f.index == old(f.index)
    ensures f.rows == FillCells(f.index, old(f.rows), labels, cols, Everywhere(NA))
  {
    for k := 0 to |cols|
      invariant f.Valid() && f.index == old(f.index)
      invariant forall c :: c in cols ==> c in f.ColumnNames()
      invariant RowsHave(old(f.rows), cols[..k])
      invariant f.rows == FillCells(f.index, old(f.rows), labels, cols[..k], Everywhere(NA))
    {
      TakeHave(old(f.rows), cols, k + 1);
      f.SetCells(labels, cols[k], NA);
      assert cols[..k + 1][..k] == cols[..k];
    }
    assert cols[..|cols|] == cols;
  }

  /** Targeted cells hold NA, the rest is unchanged, and no row is added or removed: the
      corruption nulls references, it never invents new key values. */
  lemma OrphanedCells(index: seq<RowKey>, rows: seq<Row>, labels: seq<RowKey>, cols: seq<ColName>)
    requires |index| == |rows| && RowsHave(rows, cols)
    ensures |FillCells(index, rows, labels, cols, Everywhere(NA))| == |rows|
    ensures forall i, c :: 0 <= i < |rows| && c in rows[i] && Selected(index[i], labels, c, cols) ==>
              FillCells(index, rows, labels, cols, Everywhere(NA))[i][c] == NA
    ensures forall i, c :: 0 <= i < |rows| && c in rows[i] && !Selected(index[i], labels, c, cols) ==>
              FillCells(index, rows, labels, cols, Everywhere(NA))[i][c] == rows[i][c]
    ensures forall i, c :: 0 <= i < |rows| && c in rows[i] ==>
              FillCells(index, rows, labels, cols, Everywhere(NA))[i][c].IsNull() ||
              FillCells(index, rows, labels, cols, Everywhere(NA))[i][c] == rows[i][c]
  {
    FillCellsPointwise(index, rows, labels, cols, Everywhere(NA));
    var out := FillCells(index, rows, labels, cols, Everywhere(NA));
    forall i, c | 0 <= i < |rows| && c in rows[i]
      ensures out[i][c] == Pick(Selected(index[i], labels, c, cols), NA, rows[i][c])
    {
      assert out[i][c] == Pick(Selected(index[i], labels, c, cols), Everywhere(NA)(c), rows[i][c]);
    }
  }
}
