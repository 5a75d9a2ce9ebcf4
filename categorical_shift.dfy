/** The categorical-shift corruption: in each selected column, the column's distinct values are
    permuted and every selected cell is replaced by the image of its old value. */
module CategoricalShift {
  import opened Wrappers
  import opened Frames
  import opened Reproducibility

  /** The seeded permutation of a column's distinct values. */
  function Permuted(st: SeedState, distinct: seq<Value>): (r: seq<Value>)
    requires st.numpy.Sound() && st.Seeded()
    ensures |r| == |distinct| && multiset(r) == multiset(distinct)
    ensures Distinct(distinct) ==> Distinct(r)
  {
    Permutation(st, distinct).value
  }

  /** One loop iteration: shift column `col` on the rows carrying a label in `labels`. */
  function ShiftColumn(st: SeedState, index: seq<RowKey>, rows: seq<Row>, labels: seq<RowKey>, col: ColName): (r: seq<Row>)
    requires st.numpy.Sound() && st.Seeded()
    requires |index| == |rows| && forall i :: 0 <= i < |rows| ==> col in rows[i]
    ensures |r| == |rows|
    ensures forall i :: 0 <= i < |rows| ==> r[i].Keys == rows[i].Keys
  {
    var distinct := DistinctOf(rows, col);
    MapColumn(index, rows, labels, col, ReplaceWith(distinct, Permuted(st, distinct)))
  }

  /** The whole loop: the columns shifted one after the other. */
  function Shift(st: SeedState, index: seq<RowKey>, rows: seq<Row>, labels: seq<RowKey>, cols: seq<ColName>): (r: seq<Row>)
    requires st.numpy.Sound() && st.Seeded()
    requires |index| == |rows| && RowsHave(rows, cols)
    ensures |r| == |rows|
    ensures forall i :: 0 <= i < |rows| ==> r[i].Keys == rows[i].Keys
  {
    if cols == [] then rows
    else
      var m := |cols| - 1;
      PrefixHave(rows, cols, m);
      ShiftColumn(st, index, Shift(st, index, rows, labels, cols[..m]), labels, cols[m])
  }

  /** `CategoricalShift._apply_corruption` */
  method ApplyCorruption(f: Frame, st: SeedState, labels: seq<RowKey>, cols: seq<ColName>)
    requires f.Valid() && f.HasColumns(cols) && st.numpy.Sound() && st.Seeded()
    modifies f
    ensures f.Valid() && f.index == old(f.index)
    ensures f.rows == Shift(st, old(f.index), old(f.rows), labels, cols)
  {
    for k := 0 to |cols|
      invariant f.Valid() && f.index == old(f.index)
      invariant forall c :: c in cols ==> c in f.ColumnNames()
      invariant RowsHave(old(f.rows), cols[..k])
      invariant f.rows == Shift(st, f.index, old(f.rows), labels, cols[..k])
    {
      TakeHave(old(f.rows), cols, k + 1);
      var col := cols[k];
      ShapedHave(f.rows, f.ColumnNames(), [col]);
      var distinct := DistinctOf(f.rows, col);
      var permuted := Permuted(st, distinct);
      f.MapCells(labels, col, ReplaceWith(distinct, permuted));
      assert cols[..k + 1][..k] == cols[..k];
    }
    assert cols[..|cols|] == cols;
  }

  // ---------------------------------------------------------------------------
  // What the shift does to each cell

  /** Each cell of `out` in a labelled row and a listed column is its old value sent through
      the permutation of its column's original distinct values; every other cell is unchanged. */
  ghost predicate ShiftedFrom(st: SeedState, index: seq<RowKey>, rows: seq<Row>, labels: seq<RowKey>, cols: seq<ColName>, out: seq<Row>)
    requires st.numpy.Sound() && st.Seeded()
    requires |index| == |rows| == |out| && RowsHave(rows, cols)
  {
    && (forall i :: 0 <= i < |rows| ==> out[i].Keys == rows[i].Keys)
    && (forall i, c :: 0 <= i < |rows| && c in rows[i] ==>
          c in out[i] && out[i][c] == Image(st, rows, c, rows[i][c], Selected(index[i], labels, c, cols)))
  }

  /** The value a cell of column `c` holding `v` ends with: its image if the cell is hit. */
  function Image(st: SeedState, rows: seq<Row>, c: ColName, v: Value, hit: bool): Value
    requires st.numpy.Sound() && st.Seeded()
  {
    if hit && (forall i :: 0 <= i < |rows| ==> c in rows[i]) then
      var distinct := DistinctOf(rows, c);
      Replace(v, distinct, Permuted(st, distinct))
    else v
  }

  /** With distinct column names, the shift acts cell by cell as `Image` describes. */
  lemma {:induction false} ShiftPointwise(st: SeedState, index: seq<RowKey>, rows: seq<Row>, labels: seq<RowKey>, cols: seq<ColName>)
    requires st.numpy.Sound() && st.Seeded()
    requires |index| == |rows| && RowsHave(rows, cols) && Distinct(cols)
    ensures ShiftedFrom(st, index, rows, labels, cols, Shift(st, index, rows, labels, cols))
  {
    if cols != [] {
      var m := |cols| - 1;
      PrefixHave(rows, cols, m);
      var c := cols[m];
      assert c !in cols[..m];
      ShiftPointwise(st, index, rows, labels, cols[..m]);
      var before := Shift(st, index, rows, labels, cols[..m]);
      var r := Shift(st, index, rows, labels, cols);
      forall i | 0 <= i < |rows|
        ensures c in before[i] && before[i][c] == rows[i][c]
      {
        assert before[i][c] == Image(st, rows, c, rows[i][c], Selected(index[i], labels, c, cols[..m]));
      }
      SameColumn(before, rows, c);
      var distinct := DistinctOf(rows, c);
      assert r == MapColumn(index, before, labels, c, ReplaceWith(distinct, Permuted(st, distinct)));
      forall i, d | 0 <= i < |rows| && d in rows[i]
        ensures d in r[i] && r[i][d] == Image(st, rows, d, rows[i][d], Selected(index[i], labels, d, cols))
      {
        assert before[i][d] == Image(st, rows, d, rows[i][d], Selected(index[i], labels, d, cols[..m]));
        if d != c {
          assert d in cols <==> d in cols[..m];
        }
      }
    }
  }

  /** Cells outside the targeted rows and columns keep their values. */
  lemma {:induction false} ShiftUntouched(st: SeedState, index: seq<RowKey>, rows: seq<Row>, labels: seq<RowKey>, cols: seq<ColName>)
    requires st.numpy.Sound() && st.Seeded()
    requires |index| == |rows| && RowsHave(rows, cols)
    ensures forall i, c :: 0 <= i < |rows| && c in rows[i] && !Selected(index[i], labels, c, cols) ==>
              Shift(st, index, rows, labels, cols)[i][c] == rows[i][c]
  {
    if cols != [] {
      var m := |cols| - 1;
      PrefixHave(rows, cols, m);
      ShiftUntouched(st, index, rows, labels, cols[..m]);
    }
  }

  /** Every shifted cell still holds one of its column's original values. */
  lemma ShiftStaysInColumn(st: SeedState, index: seq<RowKey>, rows: seq<Row>, labels: seq<RowKey>, cols: seq<ColName>)
    requires st.numpy.Sound() && st.Seeded()
    requires |index| == |rows| && RowsHave(rows, cols) && Distinct(cols)
    ensures forall i, c :: 0 <= i < |rows| && c in cols ==>
              Shift(st, index, rows, labels, cols)[i][c] in ColumnValues(rows, c)
  {
    ShiftPointwise(st, index, rows, labels, cols);
    var out := Shift(st, index, rows, labels, cols);
    forall i, c | 0 <= i < |rows| && c in cols
      ensures out[i][c] in ColumnValues(rows, c)
    {
      var v := rows[i][c];
      assert ColumnValues(rows, c)[i] == v;
      var distinct := DistinctOf(rows, c);
      var permuted := Permuted(st, distinct);
      if Selected(index[i], labels, c, cols) && v in distinct {
        assert out[i][c] in multiset(permuted);
      }
    }
  }

  /** Within a shifted column, two targeted cells end equal exactly when they started equal:
      the new value depends only on the old one, through a one-to-one map. */
  lemma ShiftIsBijection(st: SeedState, index: seq<RowKey>, rows: seq<Row>, labels: seq<RowKey>, cols: seq<ColName>, c: ColName, i: nat, j: nat)
    requires st.numpy.Sound() && st.Seeded()
    requires |index| == |rows| && RowsHave(rows, cols) && Distinct(cols)
    requires c in cols && i < |rows| && j < |rows| && index[i] in labels && index[j] in labels
    ensures (Shift(st, index, rows, labels, cols)[i][c] == Shift(st, index, rows, labels, cols)[j][c])
            <==> (rows[i][c] == rows[j][c])
  {
    ShiftPointwise(st, index, rows, labels, cols);
    var distinct := DistinctOf(rows, c);
    var permuted := Permuted(st, distinct);
    var vi, vj := rows[i][c], rows[j][c];
    assert ColumnValues(rows, c)[i] == vi && ColumnValues(rows, c)[j] == vj;
    assert forall w :: w in permuted ==> w in distinct && !w.IsNull() by {
      forall w | w in permuted
        ensures w in distinct
      {
        assert w in multiset(permuted);
      }
    }
    if vi in distinct && vj in distinct {
      ReplaceInjective(vi, vj, distinct, permuted);
    }
  }

  /** The shift draws a plain permutation, not one without fixed points: under a generator
      that leaves the order as it is, nothing changes. */
  lemma ShiftMayKeepValues(index: seq<RowKey>, rows: seq<Row>, labels: seq<RowKey>, cols: seq<ColName>)
    requires |index| == |rows| && RowsHave(rows, cols) && Distinct(cols)
    ensures IdentityNumpy().Sound()
    ensures Shift(SeedState(Some(1), IdentityNumpy()), index, rows, labels, cols) == rows
  {
    IdentityNumpySound();
    var st := SeedState(Some(1), IdentityNumpy());
    ShiftPointwise(st, index, rows, labels, cols);
    var out := Shift(st, index, rows, labels, cols);
    forall i | 0 <= i < |rows|
      ensures out[i] == rows[i]
    {
      forall c | c in rows[i]
        ensures out[i][c] == rows[i][c]
      {
        if Selected(index[i], labels, c, cols) {
          var distinct := DistinctOf(rows, c);
          ApplyRange(distinct);
          assert Permuted(st, distinct) == distinct;
          ReplaceSelf(rows[i][c], distinct);
        }
      }
    }
  }
}
