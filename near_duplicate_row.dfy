/** The near-duplicate corruption: the selected rows are copied aside, then edited in place
    (typos in categorical columns, the numeric placeholder elsewhere), and the untouched copies
    are appended back before a shuffle and reindex. */
module NearDuplicateRow {
  import opened Wrappers
  import opened Frames
  import opened Reproducibility
  import RI = RepresentationalInconsistencies
  import Placeholder

  /** One loop iteration: typos for a categorical column, the numeric placeholder otherwise. */
  function EditColumn(st: SeedState, index: seq<RowKey>, rows: seq<Row>, labels: seq<RowKey>, col: ColName, categorical: seq<ColName>): (r: Result<seq<Row>>)
    requires st.numpy.Sound()
    requires |index| == |rows| && forall i :: 0 <= i < |rows| ==> col in rows[i]
    ensures r.Success? ==> |r.value| == |rows|
    ensures r.Success? ==> forall i :: 0 <= i < |rows| ==> r.value[i].Keys == rows[i].Keys
  {
    if col in categorical then RI.TypoColumn(st, index, rows, labels, col)
    else Success(FillColumn(index, rows, labels, col, Placeholder.NumericMissingValue))
  }

  /** The in-place edits of the loop, stopping at the first failure. */
  function Edits(st: SeedState, index: seq<RowKey>, rows: seq<Row>, labels: seq<RowKey>, cols: seq<ColName>, categorical: seq<ColName>): (r: Result<seq<Row>>)
    requires st.numpy.Sound()
    requires |index| == |rows| && RowsHave(rows, cols)
    ensures r.Success? ==> |r.value| == |rows|
    ensures r.Success? ==> forall i :: 0 <= i < |rows| ==> r.value[i].Keys == rows[i].Keys
  {
    if cols == [] then Success(rows)
    else
      var m := |cols| - 1;
      PrefixHave(rows, cols, m);
      var before :- Edits(st, index, rows, labels, cols[..m], categorical);
      EditColumn(st, index, before, labels, cols[m], categorical)
  }

  /** The whole corruption on a table: the edited rows followed by the held-out originals,
      shuffled under a range index. */
  function NearDuplicates(st: SeedState, data: Table, labels: seq<RowKey>, cols: seq<ColName>, categorical: seq<ColName>): (r: Result<Table>)
    requires st.numpy.Sound() && data.Valid() && RowsHave(data.rows, cols)
    ensures r.Success? ==> Edits(st, data.index, data.rows, labels, cols, categorical).Success?
    ensures r.Success? ==> r.value.Valid() && r.value.columns == data.columns
    ensures r.Success? ==> |r.value.rows| == |data.rows| + |LocRows(data.index, data.rows, labels)|
    ensures r.Success? ==> r.value.index == RangeIndex(|r.value.rows|)
    ensures r.Success? ==>
              multiset(r.value.rows)
              == multiset(Edits(st, data.index, data.rows, labels, cols, categorical).value) + multiset(LocRows(data.index, data.rows, labels))
    ensures Edits(st, data.index, data.rows, labels, cols, categorical).Success? ==> (r.Failure? <==> !st.Seeded())
  {
    var held := Loc(data, labels);
    var edited :- Edits(st, data.index, data.rows, labels, cols, categorical);
    ShapedSameKeys(data.rows, edited, Names(data.columns));
    ShuffleReindexDataframe(st, Concat(Table(data.columns, data.index, edited), held))
  }

  /** `NearDuplicateRow._apply_corruption`: the frame is edited in place, then the result is a
      new table built from it and the held-out copies. */
  method ApplyCorruption(f: Frame, st: SeedState, labels: seq<RowKey>, cols: seq<ColName>, categorical: seq<ColName>) returns (r: Result<Table>)
    requires f.Valid() && f.HasColumns(cols) && st.numpy.Sound()
    modifies f
    ensures f.Valid() && f.index == old(f.index)
    ensures r == NearDuplicates(st, old(f.Snapshot()), labels, cols, categorical)
    ensures r.Success? ==> f.rows == Edits(st, f.index, old(f.rows), labels, cols, categorical).value
  {
    var held := Loc(f.Snapshot(), labels);
    for k := 0 to |cols|
      invariant f.Valid() && f.index == old(f.index)
      invariant forall c :: c in cols ==> c in f.ColumnNames()
      invariant RowsHave(old(f.rows), cols[..k])
      invariant Edits(st, f.index, old(f.rows), labels, cols[..k], categorical) == Success(f.rows)
    {
      TakeHave(old(f.rows), cols, k + 1);
      assert cols[..k + 1][..k] == cols[..k];
      var col := cols[k];
      if col in categorical {
        var err := RI.ApplyCorruptionToCategoricalColumn(f, st, labels, col);
        if err.Some? {
          FailureExtends(st, f.index, old(f.rows), labels, cols, categorical, k + 1);
          return Failure(err.value);
        }
      } else {
        f.SetCells(labels, col, Placeholder.NumericMissingValue);
      }
    }
    assert cols[..|cols|] == cols;
    r := ShuffleReindexDataframe(st, Concat(f.Snapshot(), held));
  }

  /** A failure on a prefix of the columns is the failure of the whole loop. */
  lemma {:induction false} FailureExtends(st: SeedState, index: seq<RowKey>, rows: seq<Row>, labels: seq<RowKey>, cols: seq<ColName>, categorical: seq<ColName>, j: nat)
    requires st.numpy.Sound()
    requires |index| == |rows| && RowsHave(rows, cols) && j <= |cols|
    ensures RowsHave(rows, cols[..j])
    ensures Edits(st, index, rows, labels, cols[..j], categorical).Failure? ==>
              Edits(st, index, rows, labels, cols, categorical) == Edits(st, index, rows, labels, cols[..j], categorical)
    decreases |cols| - j
  {
    TakeHave(rows, cols, j);
    if j < |cols| {
      FailureExtends(st, index, rows, labels, cols, categorical, j + 1);
      assert cols[..j + 1][..j] == cols[..j];
    } else {
      assert cols[..j] == cols;
    }
  }

  // ---------------------------------------------------------------------------
  // What the edits do to each cell

  /** The value an edited cell of column `c` holding `v` ends with. */
  function Edited(st: SeedState, rows: seq<Row>, c: ColName, v: Value, hit: bool, categorical: seq<ColName>): Value
    requires st.numpy.Sound()
  {
    if !hit then v
    else if c in categorical then RI.Misspelt(st, rows, c, v, true)
    else Placeholder.NumericMissingValue
  }

  ghost predicate EditedFrom(st: SeedState, index: seq<RowKey>, rows: seq<Row>, labels: seq<RowKey>, cols: seq<ColName>, categorical: seq<ColName>, out: seq<Row>)
    requires st.numpy.Sound()
    requires |index| == |rows| == |out|
  {
    && (forall i :: 0 <= i < |rows| ==> out[i].Keys == rows[i].Keys)
    && (forall i, c :: 0 <= i < |rows| && c in rows[i] ==>
          c in out[i] && out[i][c] == Edited(st, rows, c, rows[i][c], Selected(index[i], labels, c, cols), categorical))
  }

  /** The categorical columns among `cols` all take their typos. */
  ghost predicate CategoricalTypeable(st: SeedState, rows: seq<Row>, cols: seq<ColName>, categorical: seq<ColName>)
    requires st.numpy.Sound() && RowsHave(rows, cols)
  {
    forall c :: c in cols && c in categorical ==> RI.TyposOf(st, DistinctOf(rows, c)).Success?
  }

  /** With distinct column names, the edits succeed exactly when every selected categorical
      column takes its typos, and then each cell ends as `Edited` says. */
  lemma {:induction false} EditsPointwise(st: SeedState, index: seq<RowKey>, rows: seq<Row>, labels: seq<RowKey>, cols: seq<ColName>, categorical: seq<ColName>)
    requires st.numpy.Sound()
    requires |index| == |rows| && RowsHave(rows, cols) && Distinct(cols)
    ensures Edits(st, index, rows, labels, cols, categorical).Success? <==> CategoricalTypeable(st, rows, cols, categorical)
    ensures Edits(st, index, rows, labels, cols, categorical).Success? ==>
              EditedFrom(st, index, rows, labels, cols, categorical, Edits(st, index, rows, labels, cols, categorical).value)
  {
    if cols != [] {
      var m := |cols| - 1;
      PrefixHave(rows, cols, m);
      var c := cols[m];
      assert c !in cols[..m];
      EditsPointwise(st, index, rows, labels, cols[..m], categorical);
      assert CategoricalTypeable(st, rows, cols, categorical) <==>
             CategoricalTypeable(st, rows, cols[..m], categorical) && (c in categorical ==> RI.TyposOf(st, DistinctOf(rows, c)).Success?);
      var prefix := Edits(st, index, rows, labels, cols[..m], categorical);
      if prefix.Success? {
        var before := prefix.value;
        forall i | 0 <= i < |rows|
          ensures c in before[i] && before[i][c] == rows[i][c]
        {
          assert before[i][c] == Edited(st, rows, c, rows[i][c], Selected(index[i], labels, c, cols[..m]), categorical);
        }
        SameColumn(before, rows, c);
        var r := Edits(st, index, rows, labels, cols, categorical);
        assert r == EditColumn(st, index, before, labels, c, categorical);
        if r.Success? {
          var out := r.value;
          forall i, d | 0 <= i < |rows| && d in rows[i]
            ensures d in out[i] && out[i][d] == Edited(st, rows, d, rows[i][d], Selected(index[i], labels, d, cols), categorical)
          {
            assert before[i][d] == Edited(st, rows, d, rows[i][d], Selected(index[i], labels, d, cols[..m]), categorical);
            if d != c {
              assert d in cols <==> d in cols[..m];
            }
          }
        }
      }
    }
  }

  /** After the edits, selected cells of non-categorical columns hold -1 and unselected cells
      keep their values. */
  lemma EditsNumericAndUntouched(st: SeedState, index: seq<RowKey>, rows: seq<Row>, labels: seq<RowKey>, cols: seq<ColName>, categorical: seq<ColName>)
    requires st.numpy.Sound()
    requires |index| == |rows| && RowsHave(rows, cols) && Distinct(cols)
    requires Edits(st, index, rows, labels, cols, categorical).Success?
    ensures forall i, c :: 0 <= i < |rows| && c in rows[i] && Selected(index[i], labels, c, cols) && c !in categorical ==>
              Edits(st, index, rows, labels, cols, categorical).value[i][c] == Num(-1.0)
    ensures forall i, c :: 0 <= i < |rows| && c in rows[i] && !Selected(index[i], labels, c, cols) ==>
              Edits(st, index, rows, labels, cols, categorical).value[i][c] == rows[i][c]
  {
    EditsPointwise(st, index, rows, labels, cols, categorical);
    var out := Edits(st, index, rows, labels, cols, categorical).value;
    forall i, c | 0 <= i < |rows| && c in rows[i]
      ensures out[i][c] == Edited(st, rows, c, rows[i][c], Selected(index[i], labels, c, cols), categorical)
    {
    }
  }

  /** With a duplicate-free index and labels drawn from it, the output has `n + k` rows for `k`
      labels, and among them an unedited copy of every selected row. */
  lemma NearDuplicateCounts(st: SeedState, data: Table, labels: seq<RowKey>, cols: seq<ColName>, categorical: seq<ColName>)
    requires st.numpy.Sound() && data.Valid() && RowsHave(data.rows, cols) && Distinct(data.index)
    requires forall l :: l in labels ==> l in data.index
    requires NearDuplicates(st, data, labels, cols, categorical).Success?
    ensures |NearDuplicates(st, data, labels, cols, categorical).value.rows| == |data.rows| + |labels|
    ensures forall j :: 0 <= j < |labels| ==>
              data.rows[PositionOf(data.index, labels[j])] in NearDuplicates(st, data, labels, cols, categorical).value.rows
  {
    LocRowsDistinct(data.index, data.rows, labels);
    var out := NearDuplicates(st, data, labels, cols, categorical).value;
    var held := LocRows(data.index, data.rows, labels);
    forall j | 0 <= j < |labels|
      ensures data.rows[PositionOf(data.index, labels[j])] in out.rows
    {
      assert held[j] in multiset(held);
      assert held[j] in multiset(out.rows);
    }
  }
}
