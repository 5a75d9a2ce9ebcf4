/** The corruption template (`DataError.corrupt`): validate the fractions, classify the
    columns, sample the rows and the columns, and hand them to the concrete corruption. */
module DataError {
  import opened Wrappers
  import opened Frames
  import opened Reproducibility
  import CS = CategoricalShift
  import LE = LabelError
  import PH = Placeholder
  import EMV = ExplicitMissingValue
  import OFK = OrphanedForeignKey
  import SFK = SkewedForeignKey
  import NDR = NearDuplicateRow
  import DR = DuplicateRows
  import RI = RepresentationalInconsistencies

  /** `DataErrorApplicability`: which columns a corruption may be given. */
  datatype Applicability = AnyColumn | NumericOnly | CategoricalOnly

  /** The concrete corruptions the template dispatches to. */
  datatype Kind =
    | Shift            // CategoricalShift
    | Label            // LabelError
    | Placeholders     // Placeholder
    | ExplicitMissing  // ExplicitMissingValue
    | OrphanedKey      // OrphanedForeignKey
    | SkewedKey        // SkewedForeignKey
    | NearDuplicate    // NearDuplicateRow
    | Duplicates       // DuplicateRows
    | Typos            // RepresentationalInconsistencies
  {
    /** `data_error_applicability()` of each corruption. */
    function Applicability(): Applicability
    {
      match this
      case Shift => CategoricalOnly
      case Label => CategoricalOnly
      case Typos => CategoricalOnly
      case _ => AnyColumn
    }
  }

  const DefaultColumnFraction: real := 0.2

  /** `validate_row_fraction` then `validate_column_fraction`. */
  function CheckFractions(rowFraction: real, columnFraction: real): (r: Outcome)
    ensures r.Pass? <==> 0.0 <= rowFraction <= 1.0 && 0.0 <= columnFraction <= 1.0
    ensures r.Fail? ==> r.error == ValueError
  {
    if !(0.0 <= rowFraction <= 1.0) then Fail(ValueError)
    else if !(0.0 <= columnFraction <= 1.0) then Fail(ValueError)
    else Pass
  }

  function RealMax(a: real, b: real): real
  {
    if a >= b then a else b
  }

  /** `int(max(row_fraction * n, 1))` */
  function RowCount(rowFraction: real, n: nat): (r: int)
    requires 0.0 <= rowFraction <= 1.0
    ensures 1 <= r && (n >= 1 ==> r <= n)
  {
    assert rowFraction * (n as real) <= n as real;
    PyInt(RealMax(rowFraction * (n as real), 1.0))
  }

  /** `identify_rows_to_corrupt`: labels drawn from the index without replacement. */
  function RowsToCorrupt(st: SeedState, index: seq<RowKey>, rowFraction: real): (r: Result<seq<RowKey>>)
    requires st.numpy.Sound() && 0.0 <= rowFraction <= 1.0
    ensures index == [] ==> r == Success([])
    ensures index != [] ==> (r.Success? <==> st.Seeded())
    ensures r.Failure? ==> r.error == st.EnsureReproducibility().error
    ensures r.Success? && index != [] ==> |r.value| == RowCount(rowFraction, |index|)
    ensures r.Success? ==> forall l :: l in r.value ==> l in index
    ensures r.Success? && Distinct(index) ==> Distinct(r.value)
  {
    var count := RowCount(rowFraction, |index|);
    var drawn := SampleFrom(st, index, count as real, 1, false);
    assert PyInt(count as real) == count;
    if drawn.Success? then
      SubMultisetDistinct(drawn.value, index);
      drawn
    else drawn
  }

  /** `int(max(column_fraction * total, 1))`, with `total` the number of numeric and
      categorical columns together, whatever the applicability. */
  function ColumnCount(columnFraction: real, total: nat): int
  {
    PyInt(RealMax(columnFraction * (total as real), 1.0))
  }

  /** The columns a corruption of the given applicability may draw from. */
  function Pool(app: Applicability, numeric: seq<ColName>, categorical: seq<ColName>): (r: seq<ColName>)
    ensures forall c :: c in r ==> c in numeric || c in categorical
    ensures app == CategoricalOnly ==> r == categorical
  {
    match app
    case CategoricalOnly => categorical
    case NumericOnly => numeric
    case AnyColumn => numeric + categorical
  }

  /** `identify_columns_to_corrupt` */
  function ColumnsToCorrupt(st: SeedState, app: Applicability, numeric: seq<ColName>, categorical: seq<ColName>, columnFraction: real): (r: Result<seq<ColName>>)
    requires st.numpy.Sound()
    ensures Pool(app, numeric, categorical) == [] ==> r == Success([])
    ensures Pool(app, numeric, categorical) != [] && st.Seeded() ==>
              (r.Success? <==> ColumnCount(columnFraction, |numeric + categorical|) <= |Pool(app, numeric, categorical)|)
    ensures Pool(app, numeric, categorical) != [] && !st.Seeded() ==> r == Failure(st.EnsureReproducibility().error)
    ensures r.Failure? && st.Seeded() ==> r.error == ValueError
    ensures r.Success? && r.value != [] ==> st.Seeded() && |r.value| == ColumnCount(columnFraction, |numeric + categorical|)
    ensures r.Success? ==> forall c :: c in r.value ==> c in Pool(app, numeric, categorical)
  {
    var count := ColumnCount(columnFraction, |numeric + categorical|);
    assert PyInt(count as real) == count;
    SampleFrom(st, Pool(app, numeric, categorical), count as real, 1, false)
  }

  /** `_apply_corruption` of each kind, on a table: the corrupted table and the columns the
      template reports (LabelError replaces them by the target). */
  function ApplyKind(kind: Kind, st: SeedState, data: Table, labels: seq<RowKey>, cols: seq<ColName>, categorical: seq<ColName>, rowFraction: real, target: Option<ColName>): (r: Result<(Table, seq<ColName>)>)
    requires st.numpy.Sound() && st.Seeded() && 0.0 <= rowFraction <= 1.0
    requires data.Valid() && RowsHave(data.rows, cols)
    ensures r.Success? ==> r.value.0.Valid() && r.value.0.columns == data.columns
    ensures r.Success? && kind == Label ==> target.Some? && r.value.1 == [target.value]
    ensures r.Success? && kind != Label ==> r.value.1 == cols
  {
    var index, rows := data.index, data.rows;
    var names := Names(data.columns);
    match kind
    case Shift =>
      var out := CS.Shift(st, index, rows, labels, cols);
      ShapedSameKeys(rows, out, names);
      Success((Table(data.columns, index, out), cols))
    case Label =>
      if target.None? || target.value !in names then Failure(KeyError)
      else
        ShapedHave(rows, names, [target.value]);
        var out := CS.Shift(st, index, rows, labels, [target.value]);
        ShapedSameKeys(rows, out, names);
        Success((Table(data.columns, index, out), [target.value]))
    case Placeholders =>
      var out := FillCells(index, rows, labels, cols, PH.Sentinel(categorical));
      ShapedSameKeys(rows, out, names);
      Success((Table(data.columns, index, out), cols))
    case ExplicitMissing =>
      var out := FillCells(index, rows, labels, cols, Everywhere(EMV.MissingValue));
      ShapedSameKeys(rows, out, names);
      Success((Table(data.columns, index, out), cols))
    case OrphanedKey =>
      var out := FillCells(index, rows, labels, cols, Everywhere(NA));
      ShapedSameKeys(rows, out, names);
      Success((Table(data.columns, index, out), cols))
    case SkewedKey =>
      var out := SFK.Skew(st, index, rows, rowFraction, cols);
      ShapedSameKeys(rows, out, names);
      Success((Table(data.columns, index, out), cols))
    case NearDuplicate =>
      var out :- NDR.NearDuplicates(st, data, labels, cols, categorical);
      Success((out, cols))
    case Duplicates =>
      Success((DR.ApplyCorruption(st, data, labels, cols).value, cols))
    case Typos =>
      var out :- RI.Typos(st, index, rows, labels, cols);
      ShapedSameKeys(rows, out, names);
      Success((Table(data.columns, index, out), cols))
  }

  /** Python truth of the drawn columns in `if self.columns_to_corrupt:`. `sample_from` returns
      the list `[]` for an empty pool and a numpy array otherwise: an array of one column name
      is as true as that name (true unless empty), and the truth of a longer array is
      ambiguous, so numpy raises ValueError (`Corrupted` fails with it for two or more). */
  predicate ColumnsTrue(cols: seq<ColName>)
    requires |cols| <= 1
  {
    cols != [] && cols[0] != ""
  }

  /** `corrupt(data)` as a function of the seed and the input table: the corrupted table, the
      rows and the columns, or the exception raised on the way. The corruption runs only when
      the drawn columns test true. */
  function Corrupted(kind: Kind, rowFraction: real, columnFraction: real, st: SeedState, data: Table, target: Option<ColName>): (r: Result<(Table, seq<RowKey>, seq<ColName>)>)
    requires st.numpy.Sound() && data.Valid()
    requires CheckFractions(rowFraction, columnFraction).Pass?
    ensures r.Success? ==> r.value.0.Valid() && r.value.0.columns == data.columns
  {
    var categorical := CategoricalColumns(data.columns);
    var numeric := NumericColumns(data.columns);
    var rows :- RowsToCorrupt(st, data.index, rowFraction);
    var cols :- ColumnsToCorrupt(st, kind.Applicability(), numeric, categorical, columnFraction);
    if |cols| >= 2 then Failure(ValueError)
    else if !ColumnsTrue(cols) then Success((data, rows, cols))
    else
      PoolColumnsShaped(data, kind.Applicability(), cols);
      var applied :- ApplyKind(kind, st, data, rows, cols, categorical, rowFraction, target);
      Success((applied.0, rows, applied.1))
  }

  /** `corrupt` as its comment intends: the corruption is skipped only when no column was
      drawn. */
  function CorruptedIntended(kind: Kind, rowFraction: real, columnFraction: real, st: SeedState, data: Table, target: Option<ColName>): (r: Result<(Table, seq<RowKey>, seq<ColName>)>)
    requires st.numpy.Sound() && data.Valid()
    requires CheckFractions(rowFraction, columnFraction).Pass?
    ensures r.Success? ==> r.value.0.Valid() && r.value.0.columns == data.columns
  {
    var categorical := CategoricalColumns(data.columns);
    var numeric := NumericColumns(data.columns);
    var rows :- RowsToCorrupt(st, data.index, rowFraction);
    var cols :- ColumnsToCorrupt(st, kind.Applicability(), numeric, categorical, columnFraction);
    if cols == [] then Success((data, rows, cols))
    else
      PoolColumnsShaped(data, kind.Applicability(), cols);
      var applied :- ApplyKind(kind, st, data, rows, cols, categorical, rowFraction, target);
      Success((applied.0, rows, applied.1))
  }

  /** Once both draws succeed and the drawn columns test true, `corrupt` is the dispatch on
      the drawn rows and columns. */
  lemma CorruptedApplied(kind: Kind, rowFraction: real, columnFraction: real, st: SeedState, data: Table, target: Option<ColName>, rows: seq<RowKey>, cols: seq<ColName>)
    requires st.numpy.Sound() && data.Valid() && CheckFractions(rowFraction, columnFraction).Pass?
    requires RowsToCorrupt(st, data.index, rowFraction) == Success(rows)
    requires ColumnsToCorrupt(st, kind.Applicability(), NumericColumns(data.columns), CategoricalColumns(data.columns), columnFraction) == Success(cols)
    requires |cols| <= 1 && ColumnsTrue(cols)
    ensures st.Seeded() && RowsHave(data.rows, cols) && forall c :: c in cols ==> c in Names(data.columns)
    ensures var a := ApplyKind(kind, st, data, rows, cols, CategoricalColumns(data.columns), rowFraction, target);
            Corrupted(kind, rowFraction, columnFraction, st, data, target)
            == if a.Failure? then Failure(a.error) else Success((a.value.0, rows, a.value.1))
  {
    PoolColumnsShaped(data, kind.Applicability(), cols);
  }

  /** Once both draws succeed with some columns, the intended `corrupt` is the dispatch on all
      the drawn rows and columns. */
  lemma IntendedApplied(kind: Kind, rowFraction: real, columnFraction: real, st: SeedState, data: Table, target: Option<ColName>, rows: seq<RowKey>, cols: seq<ColName>)
    requires st.numpy.Sound() && data.Valid() && CheckFractions(rowFraction, columnFraction).Pass?
    requires RowsToCorrupt(st, data.index, rowFraction) == Success(rows)
    requires ColumnsToCorrupt(st, kind.Applicability(), NumericColumns(data.columns), CategoricalColumns(data.columns), columnFraction) == Success(cols)
    requires cols != []
    ensures st.Seeded() && RowsHave(data.rows, cols) && forall c :: c in cols ==> c in Names(data.columns)
    ensures var a := ApplyKind(kind, st, data, rows, cols, CategoricalColumns(data.columns), rowFraction, target);
            CorruptedIntended(kind, rowFraction, columnFraction, st, data, target)
            == if a.Failure? then Failure(a.error) else Success((a.value.0, rows, a.value.1))
  {
    PoolColumnsShaped(data, kind.Applicability(), cols);
  }

  /** With two or more columns drawn, `corrupt` as written raises ValueError at the truth test,
      where the intended `corrupt` applies the kind to all of them. */
  lemma SeveralColumnsRejected(kind: Kind, rowFraction: real, columnFraction: real, st: SeedState, data: Table, target: Option<ColName>, rows: seq<RowKey>, cols: seq<ColName>)
    requires st.numpy.Sound() && data.Valid() && CheckFractions(rowFraction, columnFraction).Pass?
    requires RowsToCorrupt(st, data.index, rowFraction) == Success(rows)
    requires ColumnsToCorrupt(st, kind.Applicability(), NumericColumns(data.columns), CategoricalColumns(data.columns), columnFraction) == Success(cols)
    requires |cols| >= 2
    ensures Corrupted(kind, rowFraction, columnFraction, st, data, target) == Failure(ValueError)
    ensures var a := ApplyKind(kind, st, data, rows, cols, CategoricalColumns(data.columns), rowFraction, target);
            CorruptedIntended(kind, rowFraction, columnFraction, st, data, target)
            == if a.Failure? then Failure(a.error) else Success((a.value.0, rows, a.value.1))
  {
    IntendedApplied(kind, rowFraction, columnFraction, st, data, target, rows, cols);
  }

  /** Where the drawn columns are none or one named column, `corrupt` as written and as
      intended agree. */
  lemma IntendedAgrees(kind: Kind, rowFraction: real, columnFraction: real, st: SeedState, data: Table, target: Option<ColName>, rows: seq<RowKey>, cols: seq<ColName>)
    requires st.numpy.Sound() && data.Valid() && CheckFractions(rowFraction, columnFraction).Pass?
    requires RowsToCorrupt(st, data.index, rowFraction) == Success(rows)
    requires ColumnsToCorrupt(st, kind.Applicability(), NumericColumns(data.columns), CategoricalColumns(data.columns), columnFraction) == Success(cols)
    requires cols == [] || (|cols| == 1 && ColumnsTrue(cols))
    ensures Corrupted(kind, rowFraction, columnFraction, st, data, target) == CorruptedIntended(kind, rowFraction, columnFraction, st, data, target)
  {
    if cols == [] {
      assert Corrupted(kind, rowFraction, columnFraction, st, data, target) == Success((data, rows, cols));
      assert CorruptedIntended(kind, rowFraction, columnFraction, st, data, target) == Success((data, rows, cols));
    } else {
      CorruptedApplied(kind, rowFraction, columnFraction, st, data, target, rows, cols);
      IntendedApplied(kind, rowFraction, columnFraction, st, data, target, rows, cols);
    }
  }

  /** A table with two numeric columns, corrupted with missing values in every column: as
      written numpy raises ValueError, as intended both columns are filled. */
  lemma TwoColumnsRejected(st: SeedState)
    requires st.numpy.Sound() && st.Seeded()
    ensures var data := Table([Column("a", Float64), Column("b", Float64)], [0], [map["a" := Num(1.0), "b" := Num(2.0)]]);
            && Corrupted(ExplicitMissing, 1.0, 1.0, st, data, None) == Failure(ValueError)
            && CorruptedIntended(ExplicitMissing, 1.0, 1.0, st, data, None).Success?
            && |CorruptedIntended(ExplicitMissing, 1.0, 1.0, st, data, None).value.2| == 2
  {
    var data := Table([Column("a", Float64), Column("b", Float64)], [0], [map["a" := Num(1.0), "b" := Num(2.0)]]);
    assert Names(data.columns) == ["a", "b"];
    assert NumericColumns(data.columns) == ["a", "b"];
    assert CategoricalColumns(data.columns) == [];
    assert data.Valid();
    assert ColumnCount(1.0, 2) == 2;
    var rows := RowsToCorrupt(st, data.index, 1.0);
    var cols := ColumnsToCorrupt(st, AnyColumn, ["a", "b"], [], 1.0);
    assert |cols.value| == 2;
    assert ApplyKind(ExplicitMissing, st, data, rows.value, cols.value, [], 1.0, None).Success?;
    SeveralColumnsRejected(ExplicitMissing, 1.0, 1.0, st, data, None, rows.value, cols.value);
  }

  /** What a successful `corrupt` reports comes from the two draws: at most one column, and the
      input table unchanged when the drawn columns test false. */
  lemma CorruptedReports(kind: Kind, rowFraction: real, columnFraction: real, st: SeedState, data: Table, target: Option<ColName>)
    requires st.numpy.Sound() && data.Valid() && CheckFractions(rowFraction, columnFraction).Pass?
    requires Corrupted(kind, rowFraction, columnFraction, st, data, target).Success?
    ensures var r := Corrupted(kind, rowFraction, columnFraction, st, data, target).value;
            var cols := ColumnsToCorrupt(st, kind.Applicability(), NumericColumns(data.columns), CategoricalColumns(data.columns), columnFraction);
            && RowsToCorrupt(st, data.index, rowFraction) == Success(r.1)
            && cols.Success? && |cols.value| <= 1
            && (!ColumnsTrue(cols.value) ==> r.0 == data && r.2 == cols.value)
            && (kind != Label ==> r.2 == cols.value)
            && (kind == Label && ColumnsTrue(cols.value) ==> target.Some? && r.2 == [target.value])
  {
    var cols := ColumnsToCorrupt(st, kind.Applicability(), NumericColumns(data.columns), CategoricalColumns(data.columns), columnFraction);
    if cols.Success? && |cols.value| <= 1 && ColumnsTrue(cols.value) {
      CorruptedApplied(kind, rowFraction, columnFraction, st, data, target, RowsToCorrupt(st, data.index, rowFraction).value, cols.value);
    }
  }

  /** Columns drawn from a pool are columns of the table, carried by every row. */
  lemma PoolColumnsShaped(data: Table, app: Applicability, cols: seq<ColName>)
    requires data.Valid()
    requires forall c :: c in cols ==> c in Pool(app, NumericColumns(data.columns), CategoricalColumns(data.columns))
    ensures forall c :: c in cols ==> c in Names(data.columns)
    ensures RowsHave(data.rows, cols)
  {
    var names := Names(data.columns);
    forall c | c in cols
      ensures c in names
    {
      var k :| 0 <= k < |data.columns| && data.columns[k].name == c;
      assert names[k] == c;
    }
    ShapedHave(data.rows, names, cols);
  }

  // ---------------------------------------------------------------------------
  // The template object

  class DataError {
    const kind: Kind
    const rowFraction: real
    const columnFraction: real
    var categoricalColumns: seq<ColName>
    var numericColumns: seq<ColName>
    var rowsToCorrupt: seq<RowKey>
    var columnsToCorrupt: seq<ColName>
    var corruptedData: Frame?

    predicate Valid()
    {
      CheckFractions(rowFraction, columnFraction).Pass?
    }

    /** `__init__` once the fractions are validated: the lists start empty and no data is held. */
    constructor (kind: Kind, rowFraction: real, columnFraction: real)
      requires CheckFractions(rowFraction, columnFraction).Pass?
      ensures Valid()
      ensures this.kind == kind && this.rowFraction == rowFraction && this.columnFraction == columnFraction
      ensures categoricalColumns == [] && numericColumns == [] && rowsToCorrupt == [] && columnsToCorrupt == []
      ensures corruptedData == null
    {
      this.kind, this.rowFraction, this.columnFraction := kind, rowFraction, columnFraction;
      categoricalColumns, numericColumns, rowsToCorrupt, columnsToCorrupt := [], [], [], [];
      corruptedData := null;
    }

    /** `DataError(row_fraction, column_fraction)`: ValueError unless both fractions are in
        [0, 1]. */
    static method Create(kind: Kind, rowFraction: real, columnFraction: real) returns (r: Result<DataError>)
      ensures r.Success? <==> CheckFractions(rowFraction, columnFraction).Pass?
      ensures r.Failure? ==> r.error == ValueError
      ensures r.Success? ==> fresh(r.value) && r.value.Valid() && r.value.kind == kind
      ensures r.Success? ==> r.value.rowsToCorrupt == [] && r.value.columnsToCorrupt == [] && r.value.corruptedData == null
    {
      var check := CheckFractions(rowFraction, columnFraction);
      if check.Fail? {
        return Failure(check.error);
      }
      var e := new DataError(kind, rowFraction, columnFraction);
      return Success(e);
    }

    /** The dispatch to the concrete `_apply_corruption`, on the working copy `copy`. */
    method ApplyCorruption(copy: Frame, st: SeedState, target: Option<ColName>, ghost data: Table) returns (r: Result<(Table, seq<ColName>)>)
      requires Valid() && copy.Valid() && st.numpy.Sound() && st.Seeded()
      requires copy.Snapshot() == data && copy.HasColumns(columnsToCorrupt)
      modifies copy
      ensures r == ApplyKind(kind, st, data, rowsToCorrupt, columnsToCorrupt, categoricalColumns, rowFraction, target)
    {
      match kind
      case Shift =>
        CS.ApplyCorruption(copy, st, rowsToCorrupt, columnsToCorrupt);
        r := Success((copy.Snapshot(), columnsToCorrupt));
      case Label =>
        var err := LE.ApplyCorruption(copy, st, rowsToCorrupt, target);
        if err.Some? {
          return Failure(err.value);
        }
        r := Success((copy.Snapshot(), [target.value]));
      case Placeholders =>
        PH.ApplyCorruption(copy, rowsToCorrupt, columnsToCorrupt, categoricalColumns);
        r := Success((copy.Snapshot(), columnsToCorrupt));
      case ExplicitMissing =>
        EMV.ApplyCorruption(copy, rowsToCorrupt, columnsToCorrupt);
        r := Success((copy.Snapshot(), columnsToCorrupt));
      case OrphanedKey =>
        OFK.ApplyCorruption(copy, rowsToCorrupt, columnsToCorrupt);
        r := Success((copy.Snapshot(), columnsToCorrupt));
      case SkewedKey =>
        SFK.ApplyCorruption(copy, st, rowFraction, rowsToCorrupt, columnsToCorrupt);
        r := Success((copy.Snapshot(), columnsToCorrupt));
      case NearDuplicate =>
        var out := NDR.ApplyCorruption(copy, st, rowsToCorrupt, columnsToCorrupt, categoricalColumns);
        if out.Failure? {
          return Failure(out.error);
        }
        r := Success((out.value, columnsToCorrupt));
      case Duplicates =>
        var out := DR.ApplyCorruption(st, copy.Snapshot(), rowsToCorrupt, columnsToCorrupt);
        r := Success((out.value, columnsToCorrupt));
      case Typos =>
        var err := RI.ApplyCorruption(copy, st, rowsToCorrupt, columnsToCorrupt);
        if err.Some? {
          return Failure(err.value);
        }
        r := Success((copy.Snapshot(), columnsToCorrupt));
    }

    /** `corrupt(data)`: works on a deep copy, so the caller's frame is left as it was; on
        success the fields hold what the returned triple holds. */
    method Corrupt(data: Frame, st: SeedState, target: Option<ColName>) returns (r: Result<(Table, seq<RowKey>, seq<ColName>)>)
      requires Valid() && data.Valid() && st.numpy.Sound()
      modifies this
      ensures unchanged(data)
      ensures r == Corrupted(kind, rowFraction, columnFraction, st, data.Snapshot(), target)
      ensures r.Success? ==>
                && corruptedData != null && corruptedData.Snapshot() == r.value.0
                && rowsToCorrupt == r.value.1 && columnsToCorrupt == r.value.2
                && categoricalColumns == CategoricalColumns(data.columns)
                && numericColumns == NumericColumns(data.columns)
    {
      var copy := new Frame.Copy(data);
      corruptedData := copy;
      categoricalColumns := CategoricalColumns(copy.columns);
      numericColumns := NumericColumns(copy.columns);
      r := CorruptCopy(copy, st, target, copy.Snapshot());
    }

    /** `corrupt` from the row draw on, with the copy in place and the columns classified. */
    method CorruptCopy(copy: Frame, st: SeedState, target: Option<ColName>, ghost t: Table) returns (r: Result<(Table, seq<RowKey>, seq<ColName>)>)
      requires Valid() && st.numpy.Sound() && copy.Valid() && copy.Snapshot() == t && corruptedData == copy
      requires categoricalColumns == CategoricalColumns(t.columns) && numericColumns == NumericColumns(t.columns)
      modifies this`corruptedData, this`rowsToCorrupt, this`columnsToCorrupt, copy
      ensures r == Corrupted(kind, rowFraction, columnFraction, st, t, target)
      ensures r.Success? ==>
                && corruptedData != null && corruptedData.Snapshot() == r.value.0
                && rowsToCorrupt == r.value.1 && columnsToCorrupt == r.value.2
    {
      var rows := RowsToCorrupt(st, copy.index, rowFraction);
      if rows.Failure? {
        return Failure(rows.error);
      }
      rowsToCorrupt := rows.value;
      var cols := ColumnsToCorrupt(st, kind.Applicability(), numericColumns, categoricalColumns, columnFraction);
      if cols.Failure? {
        return Failure(cols.error);
      }
      columnsToCorrupt := cols.value;
      r := CorruptDrawn(copy, st, target, t);
    }

    /** The rest of `corrupt` once the rows and columns are drawn: the truth test on the drawn
        columns, `_apply_corruption` on the copy when it passes, then the output triple. */
    method CorruptDrawn(copy: Frame, st: SeedState, target: Option<ColName>, ghost t: Table) returns (r: Result<(Table, seq<RowKey>, seq<ColName>)>)
      requires Valid() && st.numpy.Sound() && copy.Valid() && copy.Snapshot() == t && corruptedData == copy
      requires categoricalColumns == CategoricalColumns(t.columns) && numericColumns == NumericColumns(t.columns)
      requires RowsToCorrupt(st, t.index, rowFraction) == Success(rowsToCorrupt)
      requires ColumnsToCorrupt(st, kind.Applicability(), numericColumns, categoricalColumns, columnFraction) == Success(columnsToCorrupt)
      modifies this`corruptedData, this`columnsToCorrupt, copy
      ensures r == Corrupted(kind, rowFraction, columnFraction, st, t, target)
      ensures r.Success? ==>
                && corruptedData != null && corruptedData.Snapshot() == r.value.0
                && rowsToCorrupt == r.value.1 && columnsToCorrupt == r.value.2
    {
      if |columnsToCorrupt| >= 2 {
        return Failure(ValueError);
      }
      if !ColumnsTrue(columnsToCorrupt) {
        return Success((copy.Snapshot(), rowsToCorrupt, columnsToCorrupt));
      }
      CorruptedApplied(kind, rowFraction, columnFraction, st, t, target, rowsToCorrupt, columnsToCorrupt);
      r := ApplyDrawn(copy, st, target, t);
    }

    /** `_apply_corruption` on the copy with the drawn rows and columns, the corrupted frame
        stored and the output triple built. */
    method ApplyDrawn(copy: Frame, st: SeedState, target: Option<ColName>, ghost t: Table) returns (r: Result<(Table, seq<RowKey>, seq<ColName>)>)
      requires Valid() && st.numpy.Sound() && st.Seeded() && copy.Valid() && copy.Snapshot() == t && corruptedData == copy
      requires categoricalColumns == CategoricalColumns(t.columns) && RowsHave(t.rows, columnsToCorrupt)
      requires forall c :: c in columnsToCorrupt ==> c in Names(t.columns)
      modifies this`corruptedData, this`columnsToCorrupt, copy
      ensures var a := ApplyKind(kind, st, t, old(rowsToCorrupt), old(columnsToCorrupt), categoricalColumns, rowFraction, target);
              r == if a.Failure? then Failure(a.error) else Success((a.value.0, rowsToCorrupt, a.value.1))
      ensures r.Success? ==>
                && corruptedData != null && corruptedData.Snapshot() == r.value.0
                && rowsToCorrupt == r.value.1 && columnsToCorrupt == r.value.2
    {
      var applied := ApplyCorruption(copy, st, target, t);
      if applied.Failure? {
        return Failure(applied.error);
      }
      var out := new Frame(applied.value.0);
      corruptedData := out;
      columnsToCorrupt := applied.value.1;
      r := Success((out.Snapshot(), rowsToCorrupt, columnsToCorrupt));
    }
  }

  // ---------------------------------------------------------------------------
  // Properties of the template

  /** With no column to draw from (a categorical corruption on a table without categorical
      columns, say), the table comes back as it was and no corruption runs. */
  lemma EmptyPoolLeavesData(kind: Kind, rowFraction: real, columnFraction: real, st: SeedState, data: Table, target: Option<ColName>)
    requires st.numpy.Sound() && data.Valid() && CheckFractions(rowFraction, columnFraction).Pass?
    requires Pool(kind.Applicability(), NumericColumns(data.columns), CategoricalColumns(data.columns)) == []
    requires data.index == [] || st.Seeded()
    ensures Corrupted(kind, rowFraction, columnFraction, st, data, target).Success?
    ensures Corrupted(kind, rowFraction, columnFraction, st, data, target).value.0 == data
    ensures Corrupted(kind, rowFraction, columnFraction, st, data, target).value.2 == []
  {
  }

  /** The rows reported are `int(max(row_fraction * n, 1))` labels of the index; with a
      duplicate-free index they are distinct. */
  lemma ReportedRows(kind: Kind, rowFraction: real, columnFraction: real, st: SeedState, data: Table, target: Option<ColName>)
    requires st.numpy.Sound() && data.Valid() && CheckFractions(rowFraction, columnFraction).Pass?
    requires Corrupted(kind, rowFraction, columnFraction, st, data, target).Success? && data.index != []
    ensures |Corrupted(kind, rowFraction, columnFraction, st, data, target).value.1| == RowCount(rowFraction, |data.index|)
    ensures forall l :: l in Corrupted(kind, rowFraction, columnFraction, st, data, target).value.1 ==> l in data.index
    ensures Distinct(data.index) ==> Distinct(Corrupted(kind, rowFraction, columnFraction, st, data, target).value.1)
  {
    CorruptedReports(kind, rowFraction, columnFraction, st, data, target);
  }

  /** The columns reported belong to the kind's pool (or are the target alone for
      LabelError), and there is at most one: a corruption that ran on a drawn column was asked
      for exactly one, since `int(max(column_fraction * total, 1))` columns are drawn. */
  lemma ReportedColumns(kind: Kind, rowFraction: real, columnFraction: real, st: SeedState, data: Table, target: Option<ColName>)
    requires st.numpy.Sound() && data.Valid() && CheckFractions(rowFraction, columnFraction).Pass?
    requires Corrupted(kind, rowFraction, columnFraction, st, data, target).Success?
    ensures var cols := Corrupted(kind, rowFraction, columnFraction, st, data, target).value.2;
            var numeric, categorical := NumericColumns(data.columns), CategoricalColumns(data.columns);
            && |cols| <= 1
            && ((forall c :: c in cols ==> c in Pool(kind.Applicability(), numeric, categorical))
                || (kind == Label && target.Some? && cols == [target.value]))
            && (cols != [] && kind != Label ==> ColumnCount(columnFraction, |numeric + categorical|) == 1)
  {
    CorruptedReports(kind, rowFraction, columnFraction, st, data, target);
  }

  /** The column count comes from all numeric and categorical columns, not from the pool, so a
      categorical corruption on a table with few categorical columns can ask for more columns
      than the pool holds: numpy then raises ValueError. */
  lemma ColumnCountFromTotal(st: SeedState)
    requires st.numpy.Sound() && st.Seeded()
    ensures ColumnsToCorrupt(st, CategoricalOnly, ["a", "b", "c", "d"], ["x"], 0.5) == Failure(ValueError)
  {
    assert ColumnCount(0.5, 5) == 2;
  }

  /** Without a usable seed, any non-empty table makes `corrupt` fail with the seed's error. */
  lemma UnseededFails(kind: Kind, rowFraction: real, columnFraction: real, st: SeedState, data: Table, target: Option<ColName>)
    requires st.numpy.Sound() && data.Valid() && CheckFractions(rowFraction, columnFraction).Pass?
    requires !st.Seeded() && data.index != []
    ensures Corrupted(kind, rowFraction, columnFraction, st, data, target) == Failure(st.EnsureReproducibility().error)
  {
  }
}
