/** The placeholder corruption: targeted cells receive a sentinel, "UNKNOWN" in categorical
    columns and -1 elsewhere. */
module Placeholder {
  import opened Frames

  const CategoricalMissingValue: Value := Str("UNKNOWN")
  const NumericMissingValue: Value := Num(-1.0)

  /** The sentinel written into column `c`. */
  function Sentinel(categorical: seq<ColName>): ColName -> Value
  {
    c => if c in categorical then CategoricalMissingValue else NumericMissingValue
  }

  /** `Placeholder._apply_corruption`: one `.loc` assignment per column. */
  method ApplyCorruption(f: Frame, labels: seq<RowKey>, cols: seq<ColName>, categorical: seq<ColName>)
    requires f.Valid() && f.HasColumns(cols)
    modifies f
    ensures f.Valid() && f.index == old(f.index)
    ensures f.rows == FillCells(f.index, old(f.rows), labels, cols, Sentinel(categorical))
  {
    for k := 0 to |cols|
      invariant f.Valid() && f.index == old(f.index)
      invariant forall c :: c in cols ==> c in f.ColumnNames()
      invariant RowsHave(old(f.rows), cols[..k])
      invariant f.rows == FillCells(f.index, old(f.rows), labels, cols[..k], Sentinel(categorical))
    {
      TakeHave(old(f.rows), cols, k + 1);
      var col := cols[k];
      var missing := if col in categorical then CategoricalMissingValue else NumericMissingValue;
      assert missing == Sentinel(categorical)(col);
      f.SetCells(labels, col, missing);
      assert cols[..k + 1][..k] == cols[..k];
    }
    assert cols[..|cols|] == cols;
  }

  /** Targeted cells of categorical columns hold "UNKNOWN", other targeted cells hold -1, and
      every other cell is unchanged. */
  lemma PlaceholderCells(index: seq<RowKey>, rows: seq<Row>, labels: seq<RowKey>, cols: seq<ColName>, categorical: seq<ColName>)
    requires |index| == |rows| && RowsHave(rows, cols)
    ensures forall i, c :: 0 <= i < |rows| && c in rows[i] && Selected(index[i], labels, c, cols) && c in categorical ==>
              FillCells(index, rows, labels, cols, Sentinel(categorical))[i][c] == Str("UNKNOWN")
    ensures forall i, c :: 0 <= i < |rows| && c in rows[i] && Selected(index[i], labels, c, cols) && c !in categorical ==>
              FillCells(index, rows, labels, cols, Sentinel(categorical))[i][c] == Num(-1.0)
    ensures forall i, c :: 0 <= i < |rows| && c in rows[i] && !Selected(index[i], labels, c, cols) ==>
              FillCells(index, rows, labels, cols, Sentinel(categorical))[i][c] == rows[i][c]
  {
    FillCellsPointwise(index, rows, labels, cols, Sentinel(categorical));
    var out := FillCells(index, rows, labels, cols, Sentinel(categorical));
    forall i, c | 0 <= i < |rows| && c in rows[i]
      ensures Selected(index[i], labels, c, cols) && c in categorical ==> out[i][c] == Str("UNKNOWN")
      ensures Selected(index[i], labels, c, cols) && c !in categorical ==> out[i][c] == Num(-1.0)
    {
      assert out[i][c] == Pick(Selected(index[i], labels, c, cols), Sentinel(categorical)(c), rows[i][c]);
      assert Sentinel(categorical)(c) == if c in categorical then CategoricalMissingValue else NumericMissingValue;
    }
    forall i, c | 0 <= i < |rows| && c in rows[i] && !Selected(index[i], labels, c, cols)
      ensures out[i][c] == rows[i][c]
    {
      assert out[i][c] == Pick(false, Sentinel(categorical)(c), rows[i][c]);
    }
  }

  /** Writing the placeholders a second time changes nothing. */
  lemma PlaceholderIdempotent(index: seq<RowKey>, rows: seq<Row>, labels: seq<RowKey>, cols: seq<ColName>, categorical: seq<ColName>)
    requires |index| == |rows| && RowsHave(rows, cols)
    ensures RowsHave(FillCells(index, rows, labels, cols, Sentinel(categorical)), cols)
    ensures var once := FillCells(index, rows, labels, cols, Sentinel(categorical));
            FillCells(index, once, labels, cols, Sentinel(categorical)) == once
  {
    FillCellsIdempotent(index, rows, labels, cols, Sentinel(categorical));
  }
}
