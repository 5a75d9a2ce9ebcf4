/** A pandas DataFrame as the corruption engine sees it: named, typed columns, a row index of
    labels, and one map from column name to cell value per row. */
module Frames {
  import opened Wrappers

  type ColName = string
  type RowKey = int

  /** A cell. `NaN` is numpy's `np.nan`, `NA` is pandas' `pd.NA`. */
  datatype Value = Num(x: real) | Str(s: string) | NaN | NA {
    predicate IsNull() { NaN? || NA? }
  }

  /** The column dtypes the library tells apart. */
  datatype Dtype = Int64 | Float64 | Boolean | Category | Object {
    /** `pd.api.types.is_numeric_dtype` (true for booleans too) */
    predicate IsNumeric() { Int64? || Float64? || Boolean? }
    /** `isinstance(dtype, pd.CategoricalDtype)` */
    predicate IsCategorical() { Category? }
    /** `select_dtypes(include=[np.number])` (booleans excluded) */
    predicate IsNpNumber() { Int64? || Float64? }
  }

  datatype Column = Column(name: ColName, dtype: Dtype)

  type Row = map<ColName, Value>

  function Names(columns: seq<Column>): (r: seq<ColName>)
    ensures |r| == |columns|
    ensures forall i :: 0 <= i < |columns| ==> r[i] == columns[i].name
  {
    if columns == [] then [] else Names(columns[..|columns| - 1]) + [columns[|columns| - 1].name]
  }

  /** Every row carries exactly the given column names. */
  ghost predicate RowsShaped(rows: seq<Row>, names: seq<ColName>)
  {
    forall i :: 0 <= i < |rows| ==> forall c :: c in rows[i] <==> c in names
  }

  datatype Table = Table(columns: seq<Column>, index: seq<RowKey>, rows: seq<Row>) {
    ghost predicate Valid()
    {
      |index| == |rows| && RowsShaped(rows, Names(columns))
    }
  }

  predicate Distinct<T(==)>(s: seq<T>)
  {
    forall i, j :: 0 <= i < j < |s| ==> s[i] != s[j]
  }

  /** A sub-multiset of a duplicate-free sequence is duplicate-free. */
  lemma SubMultisetDistinct<T>(s: seq<T>, t: seq<T>)
    requires multiset(s) <= multiset(t)
    ensures Distinct(t) ==> Distinct(s)
  {
    forall i, j | Distinct(t) && 0 <= i < j < |s|
      ensures s[i] != s[j]
    {
      if s[i] == s[j] {
        assert s == s[..i] + [s[i]] + s[i + 1..j] + [s[j]] + s[j + 1..];
        assert multiset(s)[s[i]] >= 2;
        DistinctCount(t, s[i]);
      }
    }
  }

  /** A duplicate-free sequence holds each value at most once. */
  lemma {:induction false} DistinctCount<T>(t: seq<T>, x: T)
    requires Distinct(t)
    ensures multiset(t)[x] <= 1
  {
    if t != [] {
      var m := |t| - 1;
      assert t == t[..m] + [t[m]];
      DistinctCount(t[..m], x);
      if t[m] == x {
        assert x !in t[..m];
      }
    }
  }

  /** `pd.RangeIndex(n)`, what `reset_index(drop=True)` installs. */
  function RangeIndex(n: nat): (r: seq<RowKey>)
    ensures |r| == n && forall i :: 0 <= i < n ==> r[i] == i
  {
    seq(n, i => i)
  }

  // ---------------------------------------------------------------------------
  // Column classification (DataError.find_numerical_categorical_columns)

  /** The names of the categorical-dtype columns, in column order. */
  function CategoricalColumns(columns: seq<Column>): (r: seq<ColName>)
    ensures forall c :: c in r <==> exists k :: 0 <= k < |columns| && columns[k].name == c && columns[k].dtype.IsCategorical()
    ensures |r| <= |columns|
  {
    if columns == [] then []
    else
      var last := columns[|columns| - 1];
      CategoricalColumns(columns[..|columns| - 1]) + (if last.dtype.IsCategorical() then [last.name] else [])
  }

  /** The names of the numeric-dtype columns, in column order. */
  function NumericColumns(columns: seq<Column>): (r: seq<ColName>)
    ensures forall c :: c in r <==> exists k :: 0 <= k < |columns| && columns[k].name == c && columns[k].dtype.IsNumeric()
    ensures |r| <= |columns|
  {
    if columns == [] then []
    else
      var last := columns[|columns| - 1];
      NumericColumns(columns[..|columns| - 1]) + (if last.dtype.IsNumeric() then [last.name] else [])
  }

  // ---------------------------------------------------------------------------
  // Reading and writing cells by label

  /** The values of one column, in row order (`df[col]`). */
  function ColumnValues(rows: seq<Row>, col: ColName): (r: seq<Value>)
    requires forall i :: 0 <= i < |rows| ==> col in rows[i]
    ensures |r| == |rows| && forall i :: 0 <= i < |rows| ==> r[i] == rows[i][col]
  {
    seq(|rows|, i requires 0 <= i < |rows| && col in rows[i] => rows[i][col])
  }

  /** Two tables agreeing on every cell of column `c` have the same column `c`. */
  lemma SameColumn(before: seq<Row>, rows: seq<Row>, c: ColName)
    requires |before| == |rows|
    requires forall i :: 0 <= i < |rows| ==> c in rows[i] && c in before[i] && before[i][c] == rows[i][c]
    ensures ColumnValues(before, c) == ColumnValues(rows, c)
  {
  }

  /** `df.loc[labels, col] = f(df.loc[labels, col])`: every row whose label is among `labels`
      has its `col` cell passed through `f`; nothing else changes. */
  function MapColumn(index: seq<RowKey>, rows: seq<Row>, labels: seq<RowKey>, col: ColName, f: Value -> Value): (r: seq<Row>)
    requires |index| == |rows|
    requires forall i :: 0 <= i < |rows| ==> col in rows[i]
    ensures |r| == |rows|
    ensures forall i :: 0 <= i < |rows| ==> r[i].Keys == rows[i].Keys
    ensures forall i :: 0 <= i < |rows| && index[i] in labels ==> r[i] == rows[i][col := f(rows[i][col])]
    ensures forall i :: 0 <= i < |rows| && index[i] !in labels ==> r[i] == rows[i]
  {
    seq(|rows|, i requires 0 <= i < |rows| =>
      if index[i] in labels then rows[i][col := f(rows[i][col])] else rows[i])
  }

  /** `df.loc[labels, col] = values` where each labelled row's new cell is computed from its
      label and its old cell (pandas aligns the assigned Series by label). */
  function MapColumnAt(index: seq<RowKey>, rows: seq<Row>, labels: seq<RowKey>, col: ColName, f: (RowKey, Value) -> Value): (r: seq<Row>)
    requires |index| == |rows|
    requires forall i :: 0 <= i < |rows| ==> col in rows[i]
    ensures |r| == |rows|
    ensures forall i :: 0 <= i < |rows| ==> r[i].Keys == rows[i].Keys
    ensures forall i :: 0 <= i < |rows| && index[i] in labels ==> r[i] == rows[i][col := f(index[i], rows[i][col])]
    ensures forall i :: 0 <= i < |rows| && index[i] !in labels ==> r[i] == rows[i]
  {
    seq(|rows|, i requires 0 <= i < |rows| =>
      if index[i] in labels then rows[i][col := f(index[i], rows[i][col])] else rows[i])
  }

  /** One cell of `MapColumnAt`'s result. */
  lemma MapColumnAtCell(index: seq<RowKey>, rows: seq<Row>, labels: seq<RowKey>, col: ColName, f: (RowKey, Value) -> Value, i: nat, c: ColName)
    requires |index| == |rows| && forall j :: 0 <= j < |rows| ==> col in rows[j]
    requires i < |rows| && c in rows[i]
    ensures MapColumnAt(index, rows, labels, col, f)[i][c]
            == if index[i] in labels && c == col then f(index[i], rows[i][c]) else rows[i][c]
  {
  }

  /** A row with its cells in `cols` passed through `f`. */
  function MapRow(row: Row, cols: seq<ColName>, f: Value -> Value): (r: Row)
    ensures r.Keys == row.Keys
    ensures forall c :: c in row ==> r[c] == if c in cols then f(row[c]) else row[c]
  {
    map c | c in row :: if c in cols then f(row[c]) else row[c]
  }

  /** `df.loc[labels, cols] = f(df.loc[labels, cols])` in one block operation. */
  function MapBlock(index: seq<RowKey>, rows: seq<Row>, labels: seq<RowKey>, cols: seq<ColName>, f: Value -> Value): (r: seq<Row>)
    requires |index| == |rows|
    ensures |r| == |rows|
    ensures forall i :: 0 <= i < |rows| ==> r[i].Keys == rows[i].Keys
    ensures forall i :: 0 <= i < |rows| ==> r[i] == if index[i] in labels then MapRow(rows[i], cols, f) else rows[i]
  {
    seq(|rows|, i requires 0 <= i < |rows| => if index[i] in labels then MapRow(rows[i], cols, f) else rows[i])
  }

  /** `df.loc[labels, col] = v` */
  function FillColumn(index: seq<RowKey>, rows: seq<Row>, labels: seq<RowKey>, col: ColName, v: Value): (r: seq<Row>)
    requires |index| == |rows|
    requires forall i :: 0 <= i < |rows| ==> col in rows[i]
    ensures |r| == |rows|
    ensures forall i :: 0 <= i < |rows| ==> r[i].Keys == rows[i].Keys
    ensures forall i :: 0 <= i < |rows| ==> r[i] == if index[i] in labels then rows[i][col := v] else rows[i]
  {
    MapColumn(index, rows, labels, col, _ => v)
  }

  /** Every row carries every column of `cols`. */
  ghost predicate RowsHave(rows: seq<Row>, cols: seq<ColName>)
  {
    forall i, c :: 0 <= i < |rows| && c in cols ==> c in rows[i]
  }

  lemma PrefixHave(rows: seq<Row>, cols: seq<ColName>, m: nat)
    requires RowsHave(rows, cols) && m == |cols| - 1
    ensures RowsHave(rows, cols[..m])
    ensures forall i :: 0 <= i < |rows| ==> cols[m] in rows[i]
    ensures forall c :: c in cols <==> c in cols[..m] || c == cols[m]
  {
    assert cols == cols[..m] + [cols[m]];
    forall i, c | 0 <= i < |rows| && c in cols[..m]
      ensures c in rows[i]
    {
      assert c in cols;
    }
    forall i | 0 <= i < |rows|
      ensures cols[m] in rows[i]
    {
      assert cols[m] in cols;
    }
  }

  /** A row shaped by `names` carries every column of `cols` drawn from `names`. */
  lemma ShapedHave(rows: seq<Row>, names: seq<ColName>, cols: seq<ColName>)
    requires RowsShaped(rows, names) && forall c :: c in cols ==> c in names
    ensures RowsHave(rows, cols)
  {
  }

  lemma TakeHave(rows: seq<Row>, cols: seq<ColName>, k: nat)
    requires RowsHave(rows, cols) && k <= |cols|
    ensures RowsHave(rows, cols[..k])
  {
    forall i, c | 0 <= i < |rows| && c in cols[..k]
      ensures c in rows[i]
    {
      assert c in cols;
    }
  }

  /** Whether the cell at (`key`, `c`) is among the targeted rows and columns. */
  predicate Selected(key: RowKey, labels: seq<RowKey>, c: ColName, cols: seq<ColName>)
  {
    key in labels && c in cols
  }

  /** `df.loc[labels, cols] = value(col)`, one column after the other. */
  function FillCells(index: seq<RowKey>, rows: seq<Row>, labels: seq<RowKey>, cols: seq<ColName>, value: ColName -> Value): (r: seq<Row>)
    requires |index| == |rows| && RowsHave(rows, cols)
    ensures |r| == |rows|
    ensures forall i :: 0 <= i < |rows| ==> r[i].Keys == rows[i].Keys
  {
    if cols == [] then rows
    else
      var m := |cols| - 1;
      PrefixHave(rows, cols, m);
      var before := FillCells(index, rows, labels, cols[..m], value);
      FillColumn(index, before, labels, cols[m], value(cols[m]))
  }

  /** Filling one more column: the step of a loop over `cols`. */
  lemma FillCellsSnoc(index: seq<RowKey>, rows: seq<Row>, labels: seq<RowKey>, cols: seq<ColName>, value: ColName -> Value, j: nat)
    requires |index| == |rows| && RowsHave(rows, cols) && j < |cols|
    ensures RowsHave(rows, cols[..j]) && RowsHave(rows, cols[..j + 1])
    ensures var before := FillCells(index, rows, labels, cols[..j], value);
      && (forall i :: 0 <= i < |rows| ==> cols[j] in before[i])
      && FillCells(index, rows, labels, cols[..j + 1], value) == FillColumn(index, before, labels, cols[j], value(cols[j]))
  {
    TakeHave(rows, cols, j);
    TakeHave(rows, cols, j + 1);
    assert cols[..j + 1][..j] == cols[..j];
    assert cols[j] in cols;
  }

  /** In `out`, a cell of `rows` in a labelled row and a listed column holds its column's fill
      value; every other cell is as in `rows`. */
  ghost predicate FilledFrom(index: seq<RowKey>, rows: seq<Row>, labels: seq<RowKey>, cols: seq<ColName>, value: ColName -> Value, out: seq<Row>)
    requires |index| == |rows| == |out|
  {
    && (forall i :: 0 <= i < |rows| ==> out[i].Keys == rows[i].Keys)
    && (forall i, c :: 0 <= i < |rows| && c in rows[i] ==>
         c in out[i] && out[i][c] == Pick(Selected(index[i], labels, c, cols), value(c), rows[i][c]))
  }

  /** The same value for every column. */
  function Everywhere(v: Value): ColName -> Value
  {
    _ => v
  }

  /** `written` when the cell is hit, else `kept`. */
  function Pick(hit: bool, written: Value, kept: Value): Value
  {
    if hit then written else kept
  }

  /** A filled cell holds its column's fill value; every other cell is unchanged. */
  lemma {:induction false} FillCellsPointwise(index: seq<RowKey>, rows: seq<Row>, labels: seq<RowKey>, cols: seq<ColName>, value: ColName -> Value)
    requires |index| == |rows| && RowsHave(rows, cols)
    ensures FilledFrom(index, rows, labels, cols, value, FillCells(index, rows, labels, cols, value))
  {
    if cols != [] {
      var m := |cols| - 1;
      PrefixHave(rows, cols, m);
      FillCellsPointwise(index, rows, labels, cols[..m], value);
      var before := FillCells(index, rows, labels, cols[..m], value);
      var r := FillCells(index, rows, labels, cols, value);
      assert r == FillColumn(index, before, labels, cols[m], value(cols[m]));
      forall i, c | 0 <= i < |rows| && c in rows[i]
        ensures r[i][c] == Pick(Selected(index[i], labels, c, cols), value(c), rows[i][c])
      {
        assert before[i][c] == Pick(Selected(index[i], labels, c, cols[..m]), value(c), rows[i][c]);
        if index[i] in labels {
          assert r[i] == before[i][cols[m] := value(cols[m])];
        } else {
          assert r[i] == before[i];
        }
      }
    }
  }

  /** Filling the same cells twice is the same as filling them once. */
  lemma FillCellsIdempotent(index: seq<RowKey>, rows: seq<Row>, labels: seq<RowKey>, cols: seq<ColName>, value: ColName -> Value)
    requires |index| == |rows| && RowsHave(rows, cols)
    ensures RowsHave(FillCells(index, rows, labels, cols, value), cols)
    ensures FillCells(index, FillCells(index, rows, labels, cols, value), labels, cols, value) == FillCells(index, rows, labels, cols, value)
  {
    var once := FillCells(index, rows, labels, cols, value);
    var twice := FillCells(index, once, labels, cols, value);
    FillCellsPointwise(index, rows, labels, cols, value);
    FillCellsPointwise(index, once, labels, cols, value);
    forall i | 0 <= i < |rows|
      ensures twice[i] == once[i]
    {
      assert twice[i].Keys == once[i].Keys;
      forall c | c in once[i]
        ensures twice[i][c] == once[i][c]
      {
        assert c in rows[i];
        assert once[i][c] == Pick(Selected(index[i], labels, c, cols), value(c), rows[i][c]);
        assert twice[i][c] == Pick(Selected(index[i], labels, c, cols), value(c), once[i][c]);
      }
    }
  }

  /** pandas `Series.replace(from, to)` with lists of equal length: a value equal to `from[k]`
      becomes `to[k]`, all at once; any other value stays. */
  function Replace(v: Value, from: seq<Value>, to: seq<Value>): (r: Value)
    requires |from| == |to|
    ensures v !in from ==> r == v
    ensures v in from ==> r in to
  {
    if from == [] then v
    else if from[0] == v then to[0]
    else Replace(v, from[1..], to[1..])
  }

  /** `Series.replace(from, to)` as a cell function. */
  function ReplaceWith(from: seq<Value>, to: seq<Value>): Value -> Value
    requires |from| == |to|
  {
    v => Replace(v, from, to)
  }

  /** Replacing by the sources themselves changes nothing. */
  lemma {:induction false} ReplaceSelf(v: Value, from: seq<Value>)
    ensures Replace(v, from, from) == v
  {
    if from != [] && from[0] != v {
      ReplaceSelf(v, from[1..]);
    }
  }

  lemma {:induction false} ReplaceAt(v: Value, from: seq<Value>, to: seq<Value>, k: nat)
    requires |from| == |to| && Distinct(from) && k < |from| && from[k] == v
    ensures Replace(v, from, to) == to[k]
  {
    if k > 0 {
      ReplaceAt(v, from[1..], to[1..], k - 1);
    }
  }

  /** With distinct sources and distinct targets, replacing is injective on the sources. */
  lemma ReplaceInjective(v: Value, w: Value, from: seq<Value>, to: seq<Value>)
    requires |from| == |to| && Distinct(from) && Distinct(to)
    requires v in from && w in from
    ensures Replace(v, from, to) == Replace(w, from, to) <==> v == w
  {
    var i :| 0 <= i < |from| && from[i] == v;
    var j :| 0 <= j < |from| && from[j] == w;
    ReplaceAt(v, from, to, i);
    ReplaceAt(w, from, to, j);
  }

  /** The rows carrying label `l`, in index order. */
  function RowsLabelled(index: seq<RowKey>, rows: seq<Row>, l: RowKey): (r: seq<Row>)
    requires |index| == |rows|
    ensures multiset(r) <= multiset(rows)
    ensures forall x :: x in r ==> x in rows
  {
    if rows == [] then []
    else
      var n := |rows| - 1;
      assert rows == rows[..n] + [rows[n]];
      RowsLabelled(index[..n], rows[..n], l) + (if index[n] == l then [rows[n]] else [])
  }

  /** `df.loc[labels]`: for each label in turn, the rows carrying it. */
  function LocRows(index: seq<RowKey>, rows: seq<Row>, labels: seq<RowKey>): (r: seq<Row>)
    requires |index| == |rows|
    ensures forall x :: x in r ==> x in rows
  {
    if labels == [] then []
    else LocRows(index, rows, labels[..|labels| - 1]) + RowsLabelled(index, rows, labels[|labels| - 1])
  }

  lemma {:induction false} RowsLabelledUnique(index: seq<RowKey>, rows: seq<Row>, k: nat)
    requires |index| == |rows| && Distinct(index) && k < |index|
    ensures RowsLabelled(index, rows, index[k]) == [rows[k]]
  {
    var n := |rows| - 1;
    var l := index[k];
    assert RowsLabelled(index, rows, l)
           == RowsLabelled(index[..n], rows[..n], l) + (if index[n] == l then [rows[n]] else []);
    if k == n {
      assert l !in index[..n];
      RowsLabelledAbsent(index[..n], rows[..n], l);
    } else {
      assert index[n] != l;
      assert Distinct(index[..n]);
      assert index[..n][k] == l && rows[..n][k] == rows[k];
      RowsLabelledUnique(index[..n], rows[..n], k);
    }
  }

  lemma {:induction false} RowsLabelledAbsent(index: seq<RowKey>, rows: seq<Row>, l: RowKey)
    requires |index| == |rows| && l !in index
    ensures RowsLabelled(index, rows, l) == []
  {
    if rows != [] {
      var n := |rows| - 1;
      RowsLabelledAbsent(index[..n], rows[..n], l);
    }
  }

  /** The rows at the given positions, in the given order. */
  function RowsAt(rows: seq<Row>, positions: seq<RowKey>): (r: seq<Row>)
    requires forall j :: 0 <= j < |positions| ==> 0 <= positions[j] < |rows|
    ensures |r| == |positions| && forall j :: 0 <= j < |positions| ==> r[j] == rows[positions[j]]
  {
    seq(|positions|, j requires 0 <= j < |positions| => rows[positions[j]])
  }

  lemma RowsAtSnoc(rows: seq<Row>, positions: seq<RowKey>)
    requires positions != []
    requires forall j :: 0 <= j < |positions| ==> 0 <= positions[j] < |rows|
    ensures RowsAt(rows, positions) == RowsAt(rows, positions[..|positions| - 1]) + [rows[positions[|positions| - 1]]]
  {
    var m := |positions| - 1;
    var r := RowsAt(rows, positions);
    var whole := RowsAt(rows, positions[..m]) + [rows[positions[m]]];
    forall j | 0 <= j < |r|
      ensures r[j] == whole[j]
    {
      if j < m {
        assert positions[..m][j] == positions[j];
      }
    }
  }

  /** Under a range index, `df.loc[labels]` returns, for each label in turn, the row at that
      position. */
  lemma {:induction false} LocRowsRange(rows: seq<Row>, labels: seq<RowKey>)
    requires forall j :: 0 <= j < |labels| ==> 0 <= labels[j] < |rows|
    ensures LocRows(RangeIndex(|rows|), rows, labels) == RowsAt(rows, labels)
  {
    if labels != [] {
      var m := |labels| - 1;
      var index := RangeIndex(|rows|);
      LocRowsRange(rows, labels[..m]);
      assert Distinct(index);
      RowsLabelledUnique(index, rows, labels[m]);
      RowsAtSnoc(rows, labels);
    }
  }

  /** The first position holding `x` (a label in an index, a value among distinct values). */
  function PositionOf<T(==)>(s: seq<T>, x: T): (r: nat)
    requires x in s
    ensures r < |s| && s[r] == x
  {
    if s[0] == x then 0 else 1 + PositionOf(s[1..], x)
  }

  /** With a duplicate-free index and labels drawn from it, `df.loc[labels]` holds one row per
      label: the row carrying that label. */
  lemma LocRowsDistinct(index: seq<RowKey>, rows: seq<Row>, labels: seq<RowKey>)
    requires |index| == |rows| && Distinct(index)
    requires forall l :: l in labels ==> l in index
    ensures |LocRows(index, rows, labels)| == |labels|
    ensures forall j :: 0 <= j < |labels| ==> LocRows(index, rows, labels)[j] == rows[PositionOf(index, labels[j])]
  {
    LocRowsLength(index, rows, labels);
    forall j | 0 <= j < |labels|
      ensures LocRows(index, rows, labels)[j] == rows[PositionOf(index, labels[j])]
    {
      LocRowsAt(index, rows, labels, j);
    }
  }

  lemma {:induction false} LocRowsLength(index: seq<RowKey>, rows: seq<Row>, labels: seq<RowKey>)
    requires |index| == |rows| && Distinct(index)
    requires forall l :: l in labels ==> l in index
    ensures |LocRows(index, rows, labels)| == |labels|
  {
    if labels != [] {
      var front := labels[..|labels| - 1];
      FrontIn(labels, index);
      LocRowsLength(index, rows, front);
      LocRowsSnoc(index, rows, labels);
    }
  }

  lemma {:induction false} LocRowsAt(index: seq<RowKey>, rows: seq<Row>, labels: seq<RowKey>, j: nat)
    requires |index| == |rows| && Distinct(index)
    requires forall l :: l in labels ==> l in index
    requires j < |labels|
    ensures |LocRows(index, rows, labels)| == |labels|
    ensures LocRows(index, rows, labels)[j] == rows[PositionOf(index, labels[j])]
  {
    var m := |labels| - 1;
    var front := labels[..m];
    FrontIn(labels, index);
    LocRowsLength(index, rows, labels);
    LocRowsLength(index, rows, front);
    LocRowsSnoc(index, rows, labels);
    if j < m {
      LocRowsAt(index, rows, front, j);
      var before := LocRows(index, rows, front);
      assert LocRows(index, rows, labels)[j] == before[j];
      assert front[j] == labels[j];
    }
  }

  lemma FrontIn(labels: seq<RowKey>, index: seq<RowKey>)
    requires labels != [] && forall l :: l in labels ==> l in index
    ensures labels[|labels| - 1] in index
    ensures forall l :: l in labels[..|labels| - 1] ==> l in index
  {
    var last := labels[|labels| - 1];
    assert last in labels;
    forall l | l in labels[..|labels| - 1]
      ensures l in index
    {
      assert l in labels;
    }
  }

  /** With a duplicate-free index, `df.loc[labels]` adds one row per label asked for. */
  lemma LocRowsSnoc(index: seq<RowKey>, rows: seq<Row>, labels: seq<RowKey>)
    requires |index| == |rows| && Distinct(index)
    requires labels != [] && labels[|labels| - 1] in index
    ensures LocRows(index, rows, labels)
            == LocRows(index, rows, labels[..|labels| - 1]) + [rows[PositionOf(index, labels[|labels| - 1])]]
  {
    RowsLabelledUnique(index, rows, PositionOf(index, labels[|labels| - 1]));
  }

  /** The labels of the rows `LocRows` returns, in the same order. */
  function LocIndex(index: seq<RowKey>, rows: seq<Row>, labels: seq<RowKey>): (r: seq<RowKey>)
    requires |index| == |rows|
    ensures |r| == |LocRows(index, rows, labels)|
  {
    if labels == [] then []
    else
      var l := labels[|labels| - 1];
      LocIndex(index, rows, labels[..|labels| - 1]) + seq(|RowsLabelled(index, rows, l)|, _ => l)
  }

  lemma SplitLast<T>(s: seq<T>)
    requires s != []
    ensures s == s[..|s| - 1] + [s[|s| - 1]]
  {
  }

  /** With a duplicate-free index and labels drawn from it, the labels of `df.loc[labels]` are
      the labels asked for, in the same order. */
  lemma {:induction false} LocIndexDistinct(index: seq<RowKey>, rows: seq<Row>, labels: seq<RowKey>)
    requires |index| == |rows| && Distinct(index)
    requires forall l :: l in labels ==> l in index
    ensures LocIndex(index, rows, labels) == labels
  {
    if labels != [] {
      var m := |labels| - 1;
      var front := labels[..m];
      FrontIn(labels, index);
      LocIndexDistinct(index, rows, front);
      LocIndexSnoc(index, rows, labels);
      SplitLast(labels);
    }
  }

  /** With a duplicate-free index, `df.loc[labels]` adds one label per label asked for. */
  lemma LocIndexSnoc(index: seq<RowKey>, rows: seq<Row>, labels: seq<RowKey>)
    requires |index| == |rows| && Distinct(index)
    requires labels != [] && labels[|labels| - 1] in index
    ensures LocIndex(index, rows, labels) == LocIndex(index, rows, labels[..|labels| - 1]) + [labels[|labels| - 1]]
  {
    var l := labels[|labels| - 1];
    RowsLabelledUnique(index, rows, PositionOf(index, l));
    var tail := seq(|RowsLabelled(index, rows, l)|, _ => l);
    assert tail == [l];
  }

  /** Rows taken from a table keep its shape. */
  lemma ShapedSubset(rows: seq<Row>, picked: seq<Row>, names: seq<ColName>)
    requires RowsShaped(rows, names) && forall x :: x in picked ==> x in rows
    ensures RowsShaped(picked, names)
  {
    forall i | 0 <= i < |picked|
      ensures forall c :: c in picked[i] <==> c in names
    {
      assert picked[i] in rows;
    }
  }

  /** Rows whose keys are those of a shaped table keep its shape. */
  lemma ShapedSameKeys(rows: seq<Row>, out: seq<Row>, names: seq<ColName>)
    requires RowsShaped(rows, names) && |out| == |rows|
    requires forall i :: 0 <= i < |rows| ==> out[i].Keys == rows[i].Keys
    ensures RowsShaped(out, names)
  {
    forall i | 0 <= i < |out|
      ensures forall c :: c in out[i] <==> c in names
    {
      assert forall c :: c in out[i] <==> c in rows[i];
    }
  }

  /** `df.loc[labels]` as a table: the selected rows with their labels. */
  function Loc(t: Table, labels: seq<RowKey>): (r: Table)
    requires t.Valid()
    ensures r.Valid() && r.columns == t.columns
    ensures r.rows == LocRows(t.index, t.rows, labels)
  {
    var picked := LocRows(t.index, t.rows, labels);
    ShapedSubset(t.rows, picked, Names(t.columns));
    Table(t.columns, LocIndex(t.index, t.rows, labels), picked)
  }

  /** `pd.concat([a, b])` of two tables with the same columns. */
  function Concat(a: Table, b: Table): (r: Table)
    requires a.Valid() && b.Valid() && b.columns == a.columns
    ensures r.Valid() && r.columns == a.columns
    ensures r.rows == a.rows + b.rows && r.index == a.index + b.index
  {
    var r := Table(a.columns, a.index + b.index, a.rows + b.rows);
    assert forall i :: 0 <= i < |r.rows| ==> r.rows[i] == if i < |a.rows| then a.rows[i] else b.rows[i - |a.rows|];
    r
  }

  // ---------------------------------------------------------------------------
  // Counting and distinct values (pandas value_counts)

  /** The distinct non-null values, in order of first occurrence (`value_counts().index`). */
  function DistinctNonNull(values: seq<Value>): (r: seq<Value>)
    ensures Distinct(r)
    ensures forall v :: v in r <==> v in values && !v.IsNull()
    ensures |r| <= |values|
  {
    if values == [] then []
    else
      var d := DistinctNonNull(values[..|values| - 1]);
      var v := values[|values| - 1];
      if v.IsNull() || v in d then d else d + [v]
  }

  /** The distinct non-null values of column `col` (`value_counts().index`). */
  function DistinctOf(rows: seq<Row>, col: ColName): (r: seq<Value>)
    requires forall i :: 0 <= i < |rows| ==> col in rows[i]
    ensures Distinct(r)
    ensures forall v :: v in r <==> v in ColumnValues(rows, col) && !v.IsNull()
  {
    DistinctNonNull(ColumnValues(rows, col))
  }

  /** The number of cells equal to `v`. */
  function Count(values: seq<Value>, v: Value): nat
  {
    multiset(values)[v]
  }

  /** The first of `candidates` with the highest count in `values`. */
  function MostCommonOf(candidates: seq<Value>, values: seq<Value>): (r: Value)
    requires candidates != []
    ensures r in candidates
    ensures forall x :: x in candidates ==> Count(values, x) <= Count(values, r)
  {
    if |candidates| == 1 then candidates[0]
    else
      var best := MostCommonOf(candidates[..|candidates| - 1], values);
      var last := candidates[|candidates| - 1];
      if Count(values, last) > Count(values, best) then last else best
  }

  /** `value_counts().index[0]`: a non-null value no other value outnumbers. */
  function MostFrequent(values: seq<Value>): (r: Value)
    requires exists i :: 0 <= i < |values| && !values[i].IsNull()
    ensures r in values && !r.IsNull()
    ensures forall v :: v in values && !v.IsNull() ==> Count(values, v) <= Count(values, r)
  {
    var i :| 0 <= i < |values| && !values[i].IsNull();
    assert values[i] in DistinctNonNull(values);
    MostCommonOf(DistinctNonNull(values), values)
  }

  /** The positions of the rows whose `col` cell equals `v`. */
  function PositionsHolding(rows: seq<Row>, col: ColName, v: Value): set<nat>
  {
    set i | 0 <= i < |rows| && col in rows[i] && rows[i][col] == v
  }

  // ---------------------------------------------------------------------------
  // The mutable frame

  /** A DataFrame object; the corruption strategies write into it in place. */
  class Frame {
    const columns: seq<Column>
    var index: seq<RowKey>
    var rows: seq<Row>

    ghost predicate Valid()
      reads this
    {
      Snapshot().Valid()
    }

    function Snapshot(): Table
      reads this
    {
      Table(columns, index, rows)
    }

    function ColumnNames(): seq<ColName>
    {
      Names(columns)
    }

    /** Every name of `cols` is a column of this frame. */
    ghost predicate HasColumns(cols: seq<ColName>)
      reads this
    {
      (forall c :: c in cols ==> c in ColumnNames()) && RowsHave(rows, cols)
    }

    constructor (t: Table)
      requires t.Valid()
      ensures Valid() && Snapshot() == t
    {
      columns, index, rows := t.columns, t.index, t.rows;
    }

    /** `df.copy(deep=True)`: a fresh frame with the same contents. */
    constructor Copy(other: Frame)
      requires other.Valid()
      ensures Valid() && Snapshot() == other.Snapshot()
    {
      columns, index, rows := other.columns, other.index, other.rows;
    }

    /** `df.loc[labels, col] = v` */
    method SetCells(labels: seq<RowKey>, col: ColName, v: Value)
      requires Valid() && col in ColumnNames()
      modifies this
      ensures Valid() && index == old(index)
      ensures rows == FillColumn(old(index), old(rows), labels, col, v)
    {
      rows := FillColumn(index, rows, labels, col, v);
    }

    /** `df.loc[labels, cols] = value(col)` in one assignment. */
    method SetBlock(labels: seq<RowKey>, cols: seq<ColName>, value: ColName -> Value)
      requires Valid() && HasColumns(cols)
      modifies this
      ensures Valid() && index == old(index)
      ensures rows == FillCells(old(index), old(rows), labels, cols, value)
    {
      rows := FillCells(index, rows, labels, cols, value);
    }

    /** `df.loc[labels, col] = f(df.loc[labels, col])` */
    method MapCells(labels: seq<RowKey>, col: ColName, f: Value -> Value)
      requires Valid() && col in ColumnNames()
      modifies this
      ensures Valid() && index == old(index)
      ensures rows == MapColumn(old(index), old(rows), labels, col, f)
    {
      rows := MapColumn(index, rows, labels, col, f);
    }

    /** `df.loc[labels, col] = values`, each value computed from its row's label and old cell. */
    method MapCellsAt(labels: seq<RowKey>, col: ColName, f: (RowKey, Value) -> Value)
      requires Valid() && col in ColumnNames()
      modifies this
      ensures Valid() && index == old(index)
      ensures rows == MapColumnAt(old(index), old(rows), labels, col, f)
    {
      rows := MapColumnAt(index, rows, labels, col, f);
    }

    /** `df.loc[labels, cols] = f(df.loc[labels, cols])` */
    method MapBlockCells(labels: seq<RowKey>, cols: seq<ColName>, f: Value -> Value)
      requires Valid()
      modifies this
      ensures Valid() && index == old(index)
      ensures rows == MapBlock(old(index), old(rows), labels, cols, f)
    {
      rows := MapBlock(index, rows, labels, cols, f);
    }
  }
}
