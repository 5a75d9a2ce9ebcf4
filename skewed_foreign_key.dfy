/** The skewed-foreign-key corruption: in each selected column, the most frequent non-null
    value is copied into a large, freshly sampled share of the rows. */
module SkewedForeignKey {
  import opened Wrappers
  import opened Frames
  import opened Reproducibility

  /** Whether every cell of a column is null (`dropna()` leaves nothing). */
  predicate AllNull(values: seq<Value>)
  {
    forall i :: 0 <= i < |values| ==> values[i].IsNull()
  }

  /** `max(int((1 - row_fraction) * total_rows), 1)`, the number of rows made equal. */
  function SkewSize(rowFraction: real, n: nat): (r: int)
    requires 0.0 <= rowFraction <= 1.0
    ensures 1 <= r && (n >= 1 ==> r <= n)
  {
    assert (1.0 - rowFraction) * (n as real) <= n as real;
    Max(PyInt((1.0 - rowFraction) * (n as real)), 1)
  }

  /** The row labels drawn by `sample_from(index, max(num_rows_to_skew, 1))`. The draw depends
      on the seed, the index and the fraction only, so every column gets the same rows. */
  function SkewRows(st: SeedState, index: seq<RowKey>, rowFraction: real): (r: seq<RowKey>)
    requires st.numpy.Sound() && st.Seeded() && 0.0 <= rowFraction <= 1.0 && index != []
    ensures |r| == SkewSize(rowFraction, |index|)
    ensures forall l :: l in r ==> l in index
    ensures Distinct(index) ==> Distinct(r)
  {
    var size := SkewSize(rowFraction, |index|);
    var drawn := SampleFrom(st, index, size as real, 1, false);
    assert PyInt(size as real) == size;
    SubMultisetDistinct(drawn.value, index);
    drawn.value
  }

  /** One loop iteration on column `col`. */
  function SkewColumn(st: SeedState, index: seq<RowKey>, rows: seq<Row>, rowFraction: real, col: ColName): (r: seq<Row>)
    requires st.numpy.Sound() && st.Seeded() && 0.0 <= rowFraction <= 1.0
    requires |index| == |rows| && forall i :: 0 <= i < |rows| ==> col in rows[i]
    ensures |r| == |rows|
    ensures forall i :: 0 <= i < |rows| ==> r[i].Keys == rows[i].Keys
  {
    var values := ColumnValues(rows, col);
    if AllNull(values) then rows
    else FillColumn(index, rows, SkewRows(st, index, rowFraction), col, MostFrequent(values))
  }

  /** The whole loop over the selected columns. */
  function Skew(st: SeedState, index: seq<RowKey>, rows: seq<Row>, rowFraction: real, cols: seq<ColName>): (r: seq<Row>)
    requires st.numpy.Sound() && st.Seeded() && 0.0 <= rowFraction <= 1.0
    requires |index| == |rows| && RowsHave(rows, cols)
    ensures |r| == |rows|
    ensures forall i :: 0 <= i < |rows| ==> r[i].Keys == rows[i].Keys
  {
    if cols == [] then rows
    else
      var m := |cols| - 1;
      PrefixHave(rows, cols, m);
      SkewColumn(st, index, Skew(st, index, rows, rowFraction, cols[..m]), rowFraction, cols[m])
  }

  /** `SkewedForeignKey._apply_corruption`. The rows it is handed are not read: the result is
      a function of the seed, the frame, the row fraction and the columns alone. */
  method ApplyCorruption(f: Frame, st: SeedState, rowFraction: real, labels: seq<RowKey>, cols: seq<ColName>)
    requires f.Valid() && f.HasColumns(cols) && st.numpy.Sound() && st.Seeded()
    requires 0.0 <= rowFraction <= 1.0
    modifies f
    ensures f.Valid() && f.index == old(f.index)
    ensures f.rows == Skew(st, f.index, old(f.rows), rowFraction, cols)
  {
    for k := 0 to |cols|
      invariant f.Valid() && f.index == old(f.index)
      invariant forall c :: c in cols ==> c in f.ColumnNames()
      invariant RowsHave(old(f.rows), cols[..k])
      invariant f.rows == Skew(st, f.index, old(f.rows), rowFraction, cols[..k])
    {
      SkewStep(st, f.index, old(f.rows), rowFraction, cols, k);
      var col := cols[k];
      ghost var before := f.rows;
      var values := ColumnValues(f.rows, col);
      if !AllNull(values) {
        var commonValue := MostFrequent(values);
        var rowsToMakeSame := SkewRows(st, f.index, rowFraction);
        f.SetCells(rowsToMakeSame, col, commonValue);
      }
      assert f.rows == SkewColumn(st, f.index, before, rowFraction, col);
    }
    assert cols[..|cols|] == cols;
  }

  /** One more column of the loop is one more `SkewColumn`. */
  lemma SkewStep(st: SeedState, index: seq<RowKey>, rows: seq<Row>, rowFraction: real, cols: seq<ColName>, k: nat)
    requires st.numpy.Sound() && st.Seeded() && 0.0 <= rowFraction <= 1.0
    requires |index| == |rows| && RowsHave(rows, cols) && k < |cols|
    ensures RowsHave(rows, cols[..k]) && RowsHave(rows, cols[..k + 1])
    ensures forall i :: 0 <= i < |rows| ==> cols[k] in Skew(st, index, rows, rowFraction, cols[..k])[i]
    ensures Skew(st, index, rows, rowFraction, cols[..k + 1])
            == SkewColumn(st, index, Skew(st, index, rows, rowFraction, cols[..k]), rowFraction, cols[k])
  {
    TakeHave(rows, cols, k);
    TakeHave(rows, cols, k + 1);
    assert cols[..k + 1][..k] == cols[..k];
    assert cols[k] in cols;
  }

  // ---------------------------------------------------------------------------
  // What the skew does to each cell

  /** The value a cell of column `c` holding `v` ends with: the column's most frequent value if
      the cell is hit and the column has a non-null value. */
  function Skewed(rows: seq<Row>, c: ColName, v: Value, hit: bool): Value
  {
    if hit && (forall j :: 0 <= j < |rows| ==> c in rows[j]) && !AllNull(ColumnValues(rows, c)) then
      MostFrequent(ColumnValues(rows, c))
    else v
  }

  ghost predicate SkewedFrom(st: SeedState, index: seq<RowKey>, rows: seq<Row>, rowFraction: real, cols: seq<ColName>, out: seq<Row>)
    requires st.numpy.Sound() && st.Seeded() && 0.0 <= rowFraction <= 1.0
    requires |index| == |rows| == |out|
  {
    && (forall i :: 0 <= i < |rows| ==> out[i].Keys == rows[i].Keys)
    && (forall i, c :: 0 <= i < |rows| && c in rows[i] ==>
          c in out[i] && out[i][c] == Skewed(rows, c, rows[i][c], Selected(index[i], SkewRows(st, index, rowFraction), c, cols)))
  }

  /** With distinct column names, each cell ends as `Skewed` describes: the sampled rows of a
      selected column with some non-null value hold its most frequent value, the rest keep theirs. */
  lemma {:induction false} SkewPointwise(st: SeedState, index: seq<RowKey>, rows: seq<Row>, rowFraction: real, cols: seq<ColName>)
    requires st.numpy.Sound() && st.Seeded() && 0.0 <= rowFraction <= 1.0
    requires |index| == |rows| && RowsHave(rows, cols) && Distinct(cols)
    ensures SkewedFrom(st, index, rows, rowFraction, cols, Skew(st, index, rows, rowFraction, cols))
  {
    if cols != [] {
      var m := |cols| - 1;
      PrefixHave(rows, cols, m);
      var c := cols[m];
      assert c !in cols[..m];
      SkewPointwise(st, index, rows, rowFraction, cols[..m]);
      var before := Skew(st, index, rows, rowFraction, cols[..m]);
      var r := Skew(st, index, rows, rowFraction, cols);
      forall i | 0 <= i < |rows|
        ensures c in before[i] && before[i][c] == rows[i][c]
      {
        assert before[i][c] == Skewed(rows, c, rows[i][c], Selected(index[i], SkewRows(st, index, rowFraction), c, cols[..m]));
      }
      SameColumn(before, rows, c);
      assert r == SkewColumn(st, index, before, rowFraction, c);
      forall i, d | 0 <= i < |rows| && d in rows[i]
        ensures d in r[i] && r[i][d] == Skewed(rows, d, rows[i][d], Selected(index[i], SkewRows(st, index, rowFraction), d, cols))
      {
        assert before[i][d] == Skewed(rows, d, rows[i][d], Selected(index[i], SkewRows(st, index, rowFraction), d, cols[..m]));
        if d != c {
          assert d in cols <==> d in cols[..m];
        }
      }
    }
  }

  /** Cells outside the selected columns keep their values, and so does every cell of a
      selected column whose values are all null. */
  lemma SkewUntouched(st: SeedState, index: seq<RowKey>, rows: seq<Row>, rowFraction: real, cols: seq<ColName>, c: ColName)
    requires st.numpy.Sound() && st.Seeded() && 0.0 <= rowFraction <= 1.0
    requires |index| == |rows| && RowsHave(rows, cols) && Distinct(cols)
    requires forall i :: 0 <= i < |rows| ==> c in rows[i]
    requires c !in cols || AllNull(ColumnValues(rows, c))
    ensures ColumnValues(Skew(st, index, rows, rowFraction, cols), c) == ColumnValues(rows, c)
  {
    SkewPointwise(st, index, rows, rowFraction, cols);
    var out := Skew(st, index, rows, rowFraction, cols);
    forall i | 0 <= i < |rows|
      ensures c in out[i] && out[i][c] == rows[i][c]
    {
      assert out[i][c] == Skewed(rows, c, rows[i][c], Selected(index[i], SkewRows(st, index, rowFraction), c, cols));
    }
    SameColumn(out, rows, c);
  }

  /** In a selected column with a non-null value, every sampled row now holds the column's
      most frequent non-null value; rows outside the sample keep theirs. */
  lemma SkewSpreadsMostFrequent(st: SeedState, index: seq<RowKey>, rows: seq<Row>, rowFraction: real, cols: seq<ColName>, c: ColName)
    requires st.numpy.Sound() && st.Seeded() && 0.0 <= rowFraction <= 1.0
    requires |index| == |rows| && RowsHave(rows, cols) && Distinct(cols)
    requires c in cols && !AllNull(ColumnValues(rows, c))
    ensures forall i :: 0 <= i < |rows| && index[i] in SkewRows(st, index, rowFraction) ==>
              Skew(st, index, rows, rowFraction, cols)[i][c] == MostFrequent(ColumnValues(rows, c))
    ensures forall i :: 0 <= i < |rows| && index[i] !in SkewRows(st, index, rowFraction) ==>
              Skew(st, index, rows, rowFraction, cols)[i][c] == rows[i][c]
  {
    SkewPointwise(st, index, rows, rowFraction, cols);
    var out := Skew(st, index, rows, rowFraction, cols);
    forall i | 0 <= i < |rows|
      ensures out[i][c] == Skewed(rows, c, rows[i][c], Selected(index[i], SkewRows(st, index, rowFraction), c, cols))
    {
      assert c in rows[i];
    }
  }

  /** With a duplicate-free index, at least `max(int((1 - row_fraction) * n), 1)` rows of a
      selected column with a non-null value end up holding its most frequent value. */
  lemma SkewAtLeast(st: SeedState, index: seq<RowKey>, rows: seq<Row>, rowFraction: real, cols: seq<ColName>, c: ColName)
    requires st.numpy.Sound() && st.Seeded() && 0.0 <= rowFraction <= 1.0
    requires |index| == |rows| && RowsHave(rows, cols) && Distinct(cols) && Distinct(index)
    requires c in cols && !AllNull(ColumnValues(rows, c))
    ensures |PositionsHolding(Skew(st, index, rows, rowFraction, cols), c, MostFrequent(ColumnValues(rows, c)))|
            >= SkewSize(rowFraction, |rows|)
  {
    SkewSpreadsMostFrequent(st, index, rows, rowFraction, cols, c);
    var out := Skew(st, index, rows, rowFraction, cols);
    var drawn := SkewRows(st, index, rowFraction);
    var common := MostFrequent(ColumnValues(rows, c));
    LabelPositions(index, drawn);
    var hit := set i | 0 <= i < |index| && index[i] in drawn;
    assert hit <= PositionsHolding(out, c, common) by {
      forall i | i in hit
        ensures i in PositionsHolding(out, c, common)
      {
        assert c in rows[i] && c in out[i];
      }
    }
    SubsetCardinality(hit, PositionsHolding(out, c, common));
  }

  // ---------------------------------------------------------------------------
  // Counting helpers

  /** The positions of an index holding one of `drawn` number at least `|drawn|` when the
      drawn labels are distinct and all occur in the index. */
  lemma {:induction false} LabelPositions(index: seq<RowKey>, drawn: seq<RowKey>)
    requires Distinct(drawn) && forall l :: l in drawn ==> l in index
    ensures |set i | 0 <= i < |index| && index[i] in drawn| >= |drawn|
  {
    if drawn != [] {
      var m := |drawn| - 1;
      var l := drawn[m];
      LabelPositions(index, drawn[..m]);
      var earlier := set i | 0 <= i < |index| && index[i] in drawn[..m];
      var all := set i | 0 <= i < |index| && index[i] in drawn;
      assert l in drawn && l in index;
      var k :| 0 <= k < |index| && index[k] == l;
      assert l !in drawn[..m];
      assert k !in earlier;
      assert drawn == drawn[..m] + [l];
      assert earlier + {k} <= all;
      SubsetCardinality(earlier + {k}, all);
    }
  }

  lemma SubsetCardinality<T>(a: set<T>, b: set<T>)
    requires a <= b
    ensures |a| <= |b|
  {
    assert b == a + (b - a);
  }
}
