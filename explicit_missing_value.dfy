/** The explicit-missing-value corruption: targeted cells become NaN. */
module ExplicitMissingValue {
  import opened Frames

  const MissingValue: Value := NaN

  /** `ExplicitMissingValue._apply_corruption`: a single `.loc[rows, cols] = NaN`. */
  method ApplyCorruption(f: Frame, labels: seq<RowKey>, cols: seq<ColName>)
    requires f.Valid() && f.HasColumns(cols)
    modifies f
    ensures f.Valid() && f.index == old(f.index)
    ensures f.rows == FillCells(f.index, old(f.rows), labels, cols, Everywhere(MissingValue))
  {
    f.SetBlock(labels, cols, Everywhere(MissingValue));
  }

  /** Every targeted cell is NaN and every other cell is unchanged. */
  lemma MissingCells(index: seq<RowKey>, rows: seq<Row>, labels: seq<RowKey>, cols: seq<ColName>)
    requires |index| == |rows| && RowsHave(rows, cols)
    ensures forall i, c :: 0 <= i < |rows| && c in rows[i] && Selected(index[i], labels, c, cols) ==>
              FillCells(index, rows, labels, cols, Everywhere(MissingValue))[i][c] == NaN
    ensures forall i, c :: 0 <= i < |rows| && c in rows[i] && !Selected(index[i], labels, c, cols) ==>
              FillCells(index, rows, labels, cols, Everywhere(MissingValue))[i][c] == rows[i][c]
  {
    FillCellsPointwise(index, rows, labels, cols, Everywhere(MissingValue));
    var out := FillCells(index, rows, labels, cols, Everywhere(MissingValue));
    forall i, c | 0 <= i < |rows| && c in rows[i]
      ensures out[i][c] == Pick(Selected(index[i], labels, c, cols), MissingValue, rows[i][c])
    {
      assert out[i][c] == Pick(Selected(index[i], labels, c, cols), Everywhere(MissingValue)(c), rows[i][c]);
    }
  }

  /** Blanking the same cells twice gives the same table as once. */
  lemma MissingIdempotent(index: seq<RowKey>, rows: seq<Row>, labels: seq<RowKey>, cols: seq<ColName>)
    requires |index| == |rows| && RowsHave(rows, cols)
    ensures RowsHave(FillCells(index, rows, labels, cols, Everywhere(MissingValue)), cols)
    ensures var once := FillCells(index, rows, labels, cols, Everywhere(MissingValue));
            FillCells(index, once, labels, cols, Everywhere(MissingValue)) == once
  {
    FillCellsIdempotent(index, rows, labels, cols, Everywhere(MissingValue));
  }
}
