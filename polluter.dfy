/** The legacy `Polluter` enum: MCAR (missing values), SCAR (scaling) and CSCAR (categorical
    shift) pollution after the Jenga library, plus NONE for clean runs. Its `corrupt` validates
    the percents, seeds numpy's global generator, draws rows and columns, and hands the
    selected block to a Jenga transform. */
module Pollution {
  import opened Wrappers
  import opened Frames
  import opened Reproducibility

  datatype Polluter = MCAR | SCAR | CSCAR | NONE

  // ---------------------------------------------------------------------------
  // Compatible percents

  /** `[p for p in candidates if 0 < p <= 100]` */
  function InRangePercents(candidates: seq<real>): (r: seq<real>)
    ensures |r| <= |candidates|
    ensures forall x :: x in r <==> x in candidates && 0.0 < x <= 100.0
  {
    if candidates == [] then []
    else (if 0.0 < candidates[0] <= 100.0 then [candidates[0]] else []) + InRangePercents(candidates[1..])
  }

  /** `get_compatible_corruption_percents_from_candidates` */
  function CompatiblePercents(p: Polluter, candidates: seq<real>): (r: seq<real>)
    ensures p == NONE ==> r == [0.0]
    ensures p != NONE ==> |r| <= |candidates|
    ensures p != NONE ==> forall x :: x in r <==> x in candidates && 0.0 < x <= 100.0
  {
    if p == NONE then [0.0] else InRangePercents(candidates)
  }

  lemma {:induction false} InRangeAppend(a: seq<real>, b: seq<real>)
    ensures InRangePercents(a + b) == InRangePercents(a) + InRangePercents(b)
  {
    if a == [] {
      assert a + b == b;
    } else {
      assert (a + b)[1..] == a[1..] + b;
      InRangeAppend(a[1..], b);
    }
  }

  /** The filter keeps the candidates' order: filtering a concatenation filters each part. */
  lemma CompatibleAppend(p: Polluter, a: seq<real>, b: seq<real>)
    requires p != NONE
    ensures CompatiblePercents(p, a + b) == CompatiblePercents(p, a) + CompatiblePercents(p, b)
  {
    InRangeAppend(a, b);
  }

  lemma {:induction false} InRangeIdempotent(a: seq<real>)
    ensures InRangePercents(InRangePercents(a)) == InRangePercents(a)
  {
    if a != [] {
      InRangeIdempotent(a[1..]);
      var head := if 0.0 < a[0] <= 100.0 then [a[0]] else [];
      InRangeAppend(head, InRangePercents(a[1..]));
      assert InRangePercents(head) == head by {
        if head != [] {
          assert head[1..] == [];
        }
      }
    }
  }

  /** Filtering twice is filtering once, for every polluter (NONE's `[0]` included). */
  lemma CompatibleIdempotent(p: Polluter, candidates: seq<real>)
    ensures CompatiblePercents(p, CompatiblePercents(p, candidates)) == CompatiblePercents(p, candidates)
  {
    InRangeIdempotent(candidates);
  }

  /** Candidates that are all in (0, 100] are kept as they are. */
  lemma {:induction false} CompatibleKeepsValid(p: Polluter, candidates: seq<real>)
    requires p != NONE && forall i :: 0 <= i < |candidates| ==> 0.0 < candidates[i] <= 100.0
    ensures CompatiblePercents(p, candidates) == candidates
  {
    if candidates != [] {
      CompatibleKeepsValid(p, candidates[1..]);
      assert candidates == [candidates[0]] + candidates[1..];
    }
  }

  // ---------------------------------------------------------------------------
  // The draws from numpy's global generator

  /** numpy's global generator after `np.random.seed(seed)`: the `draw`-th call of
      `choice(pool, size, replace=False)` on a pool of `n` takes the first `size` positions of
      a permutation of `0..n-1`. */
  datatype Rng = Rng(permutation: (int, nat, nat) -> seq<nat>) {
    ghost predicate Sound()
    {
      forall seed: int, draw: nat, n: nat :: IsPermutation(permutation(seed, draw, n), n)
    }
  }

  /** A generator that never reorders: it meets the oracle assumption, so it is consistent. */
  function IdentityRng(): (g: Rng)
    ensures forall seed: int, draw: nat, n: nat :: g.permutation(seed, draw, n) == Range(n)
  {
    Rng((seed: int, draw: nat, n: nat) => Range(n))
  }

  lemma IdentityRngSound()
    ensures IdentityRng().Sound()
  {
    var g := IdentityRng();
    forall seed: int, draw: nat, n: nat
      ensures IsPermutation(g.permutation(seed, draw, n), n)
    {
      assert g.permutation(seed, draw, n) == Range(n);
    }
  }

  /** `np.random.choice(pool, size, replace=False)` as the `draw`-th call after seeding. */
  function Choice<T>(g: Rng, seed: int, draw: nat, pool: seq<T>, size: nat): (r: seq<T>)
    requires g.Sound() && size <= |pool|
    ensures |r| == size
    ensures multiset(r) <= multiset(pool)
    ensures forall x :: x in r ==> x in pool
  {
    var p := g.permutation(seed, draw, |pool|);
    ApplyPermutation(pool, p);
    PrefixSubMultiset(Apply(pool, p), size);
    assert Apply(pool, p[..size]) == Apply(pool, p)[..size];
    Apply(pool, p[..size])
  }

  /** `max(int(percent * n / 100), 1)` */
  function SampleCount(percent: real, n: nat): (r: nat)
    requires 0.0 <= percent <= 100.0
    ensures 1 <= r && (n >= 1 ==> r <= n)
  {
    var x := percent * (n as real) / 100.0;
    ShareAtMost(percent, n as real);
    assert 0.0 <= x <= n as real;
    assert PyInt(x) as real <= x;
    Max(PyInt(x), 1)
  }

  lemma ShareAtMost(percent: real, n: real)
    requires 0.0 <= percent <= 100.0 && 0.0 <= n
    ensures 0.0 <= percent * n / 100.0 <= n
  {
    assert 100.0 * n - percent * n == (100.0 - percent) * n;
  }

  /** The rows and the three column lists `corrupt` draws, in the order it draws them. */
  datatype Draws = Draws(rows: seq<RowKey>, generic: seq<ColName>, categorical: seq<ColName>, numeric: seq<ColName>)

  function Draw(g: Rng, seed: int, data: Table, rowPercent: real, columnPercent: real): (d: Draws)
    requires g.Sound() && data.Valid() && |data.rows| > 0 && |data.columns| > 0
    requires 0.0 <= rowPercent <= 100.0 && 0.0 <= columnPercent <= 100.0
    ensures |d.rows| == SampleCount(rowPercent, |data.rows|) && multiset(d.rows) <= multiset(data.index)
    ensures |d.generic| == SampleCount(columnPercent, |data.columns|) && multiset(d.generic) <= multiset(Names(data.columns))
    ensures CategoricalColumns(data.columns) == [] ==> d.categorical == []
    ensures CategoricalColumns(data.columns) != [] ==> |d.categorical| == SampleCount(columnPercent, |CategoricalColumns(data.columns)|)
    ensures multiset(d.categorical) <= multiset(CategoricalColumns(data.columns))
    ensures NumericColumns(data.columns) == [] ==> d.numeric == []
    ensures NumericColumns(data.columns) != [] ==> |d.numeric| == SampleCount(columnPercent, |NumericColumns(data.columns)|)
    ensures multiset(d.numeric) <= multiset(NumericColumns(data.columns))
  {
    var categorical := CategoricalColumns(data.columns);
    var numeric := NumericColumns(data.columns);
    var rows := Choice(g, seed, 0, data.index, SampleCount(rowPercent, |data.index|));
    var generic := Choice(g, seed, 1, Names(data.columns), SampleCount(columnPercent, |data.columns|));
    var cat := if categorical == [] then [] else Choice(g, seed, 2, categorical, SampleCount(columnPercent, |categorical|));
    var next := if categorical == [] then 2 else 3;
    var num := if numeric == [] then [] else Choice(g, seed, next, numeric, SampleCount(columnPercent, |numeric|));
    Draws(rows, generic, cat, num)
  }

  // ---------------------------------------------------------------------------
  // The Jenga transforms

  /** The Jenga transforms (`MissingValues`, `Scaling`, `CategoricalShift`, each with fraction
      1 over the selected block) are foreign code: an oracle giving each cell's new value from
      the polluter, the column, the column's values in the block and the old value. */
  datatype Jenga = Jenga(cell: (Polluter, ColName, seq<Value>, Value) -> Value)

  /** The values of column `c` in the block (a missing cell reads as NA). */
  function BlockColumn(block: seq<Row>, c: ColName): (r: seq<Value>)
    ensures (forall i :: 0 <= i < |block| ==> c in block[i]) ==> r == ColumnValues(block, c)
  {
    seq(|block|, i requires 0 <= i < |block| => if c in block[i] then block[i][c] else NA)
  }

  /** The new value of a cell holding `v` in column `c` of the block. */
  function Polluted(jenga: Jenga, p: Polluter, block: seq<Row>, c: ColName, v: Value): Value
  {
    jenga.cell(p, c, BlockColumn(block, c), v)
  }

  /** The transform of column `c` as a cell function. */
  function Transform(jenga: Jenga, p: Polluter, block: seq<Row>, c: ColName): Value -> Value
  {
    v => Polluted(jenga, p, block, c, v)
  }

  /** The transformed block written back: `corrupted_data.loc[rows, cols] = corrupted_subset`,
      one column after the other. */
  function WriteBack(jenga: Jenga, p: Polluter, block: seq<Row>, index: seq<RowKey>, rows: seq<Row>, labels: seq<RowKey>, cols: seq<ColName>): (r: seq<Row>)
    requires |index| == |rows| && RowsHave(rows, cols)
    ensures |r| == |rows|
    ensures forall i :: 0 <= i < |rows| ==> r[i].Keys == rows[i].Keys
  {
    if cols == [] then rows
    else
      var m := |cols| - 1;
      PrefixHave(rows, cols, m);
      var before := WriteBack(jenga, p, block, index, rows, labels, cols[..m]);
      MapColumn(index, before, labels, cols[m], Transform(jenga, p, block, cols[m]))
  }

  ghost predicate WrittenFrom(jenga: Jenga, p: Polluter, block: seq<Row>, index: seq<RowKey>, rows: seq<Row>, labels: seq<RowKey>, cols: seq<ColName>, out: seq<Row>)
    requires |index| == |rows| == |out|
  {
    && (forall i :: 0 <= i < |rows| ==> out[i].Keys == rows[i].Keys)
    && (forall i, c :: 0 <= i < |rows| && c in rows[i] ==>
          c in out[i] && out[i][c] == Pick(Selected(index[i], labels, c, cols), Polluted(jenga, p, block, c, rows[i][c]), rows[i][c]))
  }

  /** With distinct columns, a written cell holds its transformed value and every other cell
      keeps its own. */
  lemma {:induction false} WriteBackPointwise(jenga: Jenga, p: Polluter, block: seq<Row>, index: seq<RowKey>, rows: seq<Row>, labels: seq<RowKey>, cols: seq<ColName>)
    requires |index| == |rows| && RowsHave(rows, cols) && Distinct(cols)
    ensures WrittenFrom(jenga, p, block, index, rows, labels, cols, WriteBack(jenga, p, block, index, rows, labels, cols))
  {
    if cols != [] {
      var m := |cols| - 1;
      PrefixHave(rows, cols, m);
      var c := cols[m];
      assert c !in cols[..m];
      WriteBackPointwise(jenga, p, block, index, rows, labels, cols[..m]);
      var before := WriteBack(jenga, p, block, index, rows, labels, cols[..m]);
      var out := WriteBack(jenga, p, block, index, rows, labels, cols);
      assert out == MapColumn(index, before, labels, c, Transform(jenga, p, block, c));
      forall i, d | 0 <= i < |rows| && d in rows[i]
        ensures d in out[i] && out[i][d] == Pick(Selected(index[i], labels, d, cols), Polluted(jenga, p, block, d, rows[i][d]), rows[i][d])
      {
        assert before[i][d] == Pick(Selected(index[i], labels, d, cols[..m]), Polluted(jenga, p, block, d, rows[i][d]), rows[i][d]);
        if d == c {
          assert before[i][d] == rows[i][d];
        } else {
          assert d in cols <==> d in cols[..m];
        }
      }
    }
  }

  // ---------------------------------------------------------------------------
  // The rows CSCAR reports

  /** pandas `ne` as written: a missing value (NaN or NA) is unequal to everything, itself
      included. */
  predicate NeAsWritten(a: Value, b: Value)
  {
    a.IsNull() || b.IsNull() || a != b
  }

  /** Some listed cell of the block row `row` compares unequal to its transformed value. */
  predicate Flagged(jenga: Jenga, p: Polluter, block: seq<Row>, row: Row, cols: seq<ColName>, asWritten: bool)
  {
    exists c :: c in cols && c in row && Unequal(row[c], Polluted(jenga, p, block, c, row[c]), asWritten)
  }

  predicate Unequal(a: Value, b: Value, asWritten: bool)
  {
    if asWritten then NeAsWritten(a, b) else a != b
  }

  /** The labels of the first `n` block rows that are flagged, in block order
      (`corrupted_subset[mask].index.to_list()`). */
  function FlaggedLabels(jenga: Jenga, p: Polluter, blockIndex: seq<RowKey>, block: seq<Row>, cols: seq<ColName>, asWritten: bool, n: nat): (r: seq<RowKey>)
    requires |blockIndex| == |block| && n <= |block|
    ensures |r| <= n
    ensures forall l :: l in r ==> exists k :: 0 <= k < n && blockIndex[k] == l && Flagged(jenga, p, block, block[k], cols, asWritten)
    ensures forall k :: 0 <= k < n && Flagged(jenga, p, block, block[k], cols, asWritten) ==> blockIndex[k] in r
  {
    if n == 0 then []
    else
      FlaggedLabels(jenga, p, blockIndex, block, cols, asWritten, n - 1)
      + (if Flagged(jenga, p, block, block[n - 1], cols, asWritten) then [blockIndex[n - 1]] else [])
  }

  /** The rows CSCAR reports, with `ne` as written. */
  function ReportedAsWritten(jenga: Jenga, p: Polluter, blockIndex: seq<RowKey>, block: seq<Row>, cols: seq<ColName>): (r: seq<RowKey>)
    requires |blockIndex| == |block|
    ensures forall k :: 0 <= k < |block| && (exists c :: c in cols && c in block[k] && block[k][c].IsNull()) ==> blockIndex[k] in r
  {
    var r := FlaggedLabels(jenga, p, blockIndex, block, cols, true, |block|);
    assert forall k :: 0 <= k < |block| && (exists c :: c in cols && c in block[k] && block[k][c].IsNull()) ==>
             Flagged(jenga, p, block, block[k], cols, true);
    r
  }

  /** Some listed cell of the block row `row` holds a different value after the transform. */
  predicate Changed(jenga: Jenga, p: Polluter, block: seq<Row>, row: Row, cols: seq<ColName>)
  {
    exists c :: c in cols && c in row && row[c] != Polluted(jenga, p, block, c, row[c])
  }

  /** The rows CSCAR reports when a cell counts as changed only if its value differs: a label
      is reported exactly when some listed cell of its block row changed. */
  function Reported(jenga: Jenga, p: Polluter, blockIndex: seq<RowKey>, block: seq<Row>, cols: seq<ColName>): (r: seq<RowKey>)
    requires |blockIndex| == |block|
    ensures forall l :: l in r ==>
              exists k :: 0 <= k < |block| && blockIndex[k] == l && Changed(jenga, p, block, block[k], cols)
    ensures forall k :: 0 <= k < |block| && Changed(jenga, p, block, block[k], cols) ==> blockIndex[k] in r
  {
    assert forall row :: Flagged(jenga, p, block, row, cols, false) == Changed(jenga, p, block, row, cols);
    FlaggedLabels(jenga, p, blockIndex, block, cols, false, |block|)
  }

  // ---------------------------------------------------------------------------
  // corrupt

  /** The columns a polluter works on. */
  function Targets(p: Polluter, d: Draws): seq<ColName>
    requires p != NONE
  {
    match p
    case MCAR => d.generic
    case SCAR => d.numeric
    case CSCAR => d.categorical
  }

  /** `Polluter.corrupt(data, random_seed, row_percent, column_percent)`: the polluted table,
      the rows reported as corrupted and the corrupted columns, or the ValueError raised. */
  function Corrupted(p: Polluter, g: Rng, jenga: Jenga, data: Table, seed: int, rowPercent: real, columnPercent: real): (r: Result<(Table, seq<RowKey>, seq<ColName>)>)
    requires g.Sound() && data.Valid()
    ensures r.Failure? ==> r.error == ValueError
    ensures !(0.0 <= rowPercent <= 100.0) || !(0.0 <= columnPercent <= 100.0) ==> r.Failure?
    ensures |data.rows| == 0 || |data.columns| == 0 ==> r.Failure?
    ensures 0.0 <= rowPercent <= 100.0 && 0.0 <= columnPercent <= 100.0 && |data.rows| > 0 && |data.columns| > 0 ==>
              if rowPercent == 0.0 || columnPercent == 0.0 || p == NONE then r == Success((data, [], []))
              else r.Success? <==> 0 <= seed < SeedBound
    ensures r.Success? ==> r.value.0.Valid() && r.value.0.columns == data.columns && r.value.0.index == data.index
  {
    match Early(p, data, seed, rowPercent, columnPercent)
    case Some(r) => r
    case None =>
      var d := Draw(g, seed, data, rowPercent, columnPercent);
      TargetsShaped(p, data, d);
      Success(Pollute(p, jenga, data, d))
  }

  /** The checks and early returns of `corrupt` before anything is drawn; None when it goes on
      to draw. */
  function Early(p: Polluter, data: Table, seed: int, rowPercent: real, columnPercent: real): (r: Option<Result<(Table, seq<RowKey>, seq<ColName>)>>)
    ensures r.None? <==>
              && 0.0 < rowPercent <= 100.0 && 0.0 < columnPercent <= 100.0
              && |data.rows| > 0 && |data.columns| > 0 && p != NONE && 0 <= seed < SeedBound
    ensures r.Some? && r.value.Failure? ==> r.value.error == ValueError
    ensures r.Some? && r.value.Success? ==> r.value == Success((data, [], []))
  {
    if !(0.0 <= rowPercent <= 100.0) || !(0.0 <= columnPercent <= 100.0) then Some(Failure(ValueError))
    else if |data.rows| == 0 || |data.columns| == 0 then Some(Failure(ValueError))
    else if rowPercent == 0.0 || columnPercent == 0.0 || p == NONE then Some(Success((data, [], [])))
    else if !(0 <= seed < SeedBound) then Some(Failure(ValueError))
    else None
  }

  /** The rows reported for the drawn block, which are also the rows written back: the drawn
      rows, or for CSCAR those whose cells compare unequal under pandas `ne`. */
  function ReportedRows(p: Polluter, jenga: Jenga, data: Table, d: Draws): seq<RowKey>
    requires p != NONE && data.Valid()
  {
    if p == CSCAR then
      var block := LocRows(data.index, data.rows, d.rows);
      ReportedAsWritten(jenga, p, LocIndex(data.index, data.rows, d.rows), block, Targets(p, d))
    else d.rows
  }

  /** What `corrupt` returns once the draws are made. */
  function Pollute(p: Polluter, jenga: Jenga, data: Table, d: Draws): (r: (Table, seq<RowKey>, seq<ColName>))
    requires p != NONE && data.Valid() && RowsHave(data.rows, Targets(p, d))
    ensures r.0.Valid() && r.0.columns == data.columns && r.0.index == data.index
  {
    var cols := Targets(p, d);
    if p != MCAR && cols == [] then (data, [], [])
    else
      var block := LocRows(data.index, data.rows, d.rows);
      var reported := ReportedRows(p, jenga, data, d);
      var out := WriteBack(jenga, p, block, data.index, data.rows, reported, cols);
      ShapedSameKeys(data.rows, out, Names(data.columns));
      (Table(data.columns, data.index, out), reported, cols)
  }

  /** The drawn columns are columns of the table, carried by every row. */
  lemma TargetsShaped(p: Polluter, data: Table, d: Draws)
    requires p != NONE && data.Valid()
    requires multiset(d.generic) <= multiset(Names(data.columns))
    requires multiset(d.categorical) <= multiset(CategoricalColumns(data.columns))
    requires multiset(d.numeric) <= multiset(NumericColumns(data.columns))
    ensures forall c :: c in Targets(p, d) ==> c in Names(data.columns)
    ensures RowsHave(data.rows, Targets(p, d))
  {
    var names := Names(data.columns);
    var cols := Targets(p, d);
    forall c | c in cols
      ensures c in names
    {
      assert c in multiset(cols);
      if p == CSCAR || p == SCAR {
        var pool := if p == CSCAR then CategoricalColumns(data.columns) else NumericColumns(data.columns);
        assert c in multiset(pool);
        assert c in pool;
        var k :| 0 <= k < |data.columns| && data.columns[k].name == c;
        assert names[k] == c;
      }
    }
    ShapedHave(data.rows, names, cols);
  }

  /** `corrupt` on a frame: the deep copy is polluted in place and returned; the caller's
      frame is not touched. */
  method Corrupt(p: Polluter, g: Rng, jenga: Jenga, data: Frame, seed: int, rowPercent: real, columnPercent: real)
      returns (r: Result<(Table, seq<RowKey>, seq<ColName>)>)
    requires g.Sound() && data.Valid()
    ensures r == Corrupted(p, g, jenga, data.Snapshot(), seed, rowPercent, columnPercent)
  {
    var t := data.Snapshot();
    var early := Early(p, t, seed, rowPercent, columnPercent);
    if early.Some? {
      return early.value;
    }
    Proceeds(p, g, jenga, t, seed, rowPercent, columnPercent);
    var d := Draw(g, seed, t, rowPercent, columnPercent);
    var polluted := PolluteFresh(p, jenga, data, d);
    r := Success(polluted);
  }

  /** `data.copy(deep=True)`, then the pollution of the drawn block on that copy. */
  method PolluteFresh(p: Polluter, jenga: Jenga, data: Frame, d: Draws) returns (r: (Table, seq<RowKey>, seq<ColName>))
    requires p != NONE && data.Valid() && data.HasColumns(Targets(p, d))
    ensures r == Pollute(p, jenga, data.Snapshot(), d)
  {
    var copy := new Frame.Copy(data);
    r := PolluteCopy(p, jenga, copy, d);
  }

  /** Past the early returns, `corrupt` draws and pollutes, and the drawn columns are there. */
  lemma Proceeds(p: Polluter, g: Rng, jenga: Jenga, data: Table, seed: int, rowPercent: real, columnPercent: real)
    requires g.Sound() && data.Valid() && Early(p, data, seed, rowPercent, columnPercent).None?
    ensures p != NONE && |data.rows| > 0 && |data.columns| > 0
    ensures 0.0 <= rowPercent <= 100.0 && 0.0 <= columnPercent <= 100.0
    ensures forall c :: c in Targets(p, Draw(g, seed, data, rowPercent, columnPercent)) ==> c in Names(data.columns)
    ensures RowsHave(data.rows, Targets(p, Draw(g, seed, data, rowPercent, columnPercent)))
    ensures Corrupted(p, g, jenga, data, seed, rowPercent, columnPercent)
            == Success(Pollute(p, jenga, data, Draw(g, seed, data, rowPercent, columnPercent)))
  {
    TargetsShaped(p, data, Draw(g, seed, data, rowPercent, columnPercent));
  }

  /** The block loop and the write-back on the copy, one column after the other. */
  method PolluteCopy(p: Polluter, jenga: Jenga, copy: Frame, d: Draws) returns (r: (Table, seq<RowKey>, seq<ColName>))
    requires p != NONE && copy.Valid() && copy.HasColumns(Targets(p, d))
    modifies copy
    ensures r == Pollute(p, jenga, old(copy.Snapshot()), d)
  {
    var cols := Targets(p, d);
    if p != MCAR && cols == [] {
      return (copy.Snapshot(), [], []);
    }
    ghost var data := copy.Snapshot();
    var block := LocRows(copy.index, copy.rows, d.rows);
    var reported := ReportedRows(p, jenga, copy.Snapshot(), d);
    for k := 0 to |cols|
      invariant copy.Valid() && copy.columns == data.columns && copy.index == data.index
      invariant RowsHave(data.rows, cols[..k])
      invariant copy.rows == WriteBack(jenga, p, block, data.index, data.rows, reported, cols[..k])
    {
      WriteBackStep(jenga, p, block, data.index, data.rows, reported, cols, k);
      copy.MapCells(reported, cols[k], Transform(jenga, p, block, cols[k]));
    }
    assert cols[..|cols|] == cols;
    r := (copy.Snapshot(), reported, cols);
  }

  /** One more column of the write-back is one more `MapColumn`. */
  lemma WriteBackStep(jenga: Jenga, p: Polluter, block: seq<Row>, index: seq<RowKey>, rows: seq<Row>, labels: seq<RowKey>, cols: seq<ColName>, k: nat)
    requires |index| == |rows| && RowsHave(rows, cols) && k < |cols|
    ensures cols[k] in cols
    ensures RowsHave(rows, cols[..k]) && RowsHave(rows, cols[..k + 1])
    ensures forall i :: 0 <= i < |rows| ==> cols[k] in WriteBack(jenga, p, block, index, rows, labels, cols[..k])[i]
    ensures WriteBack(jenga, p, block, index, rows, labels, cols[..k + 1])
            == MapColumn(index, WriteBack(jenga, p, block, index, rows, labels, cols[..k]), labels, cols[k], Transform(jenga, p, block, cols[k]))
  {
    TakeHave(rows, cols, k);
    TakeHave(rows, cols, k + 1);
    assert cols[..k + 1][..k] == cols[..k];
  }

  // ---------------------------------------------------------------------------
  // Properties of corrupt

  /** MCAR and SCAR report every drawn row: `max(int(row_percent * n / 100), 1)` labels of the
      index, distinct when the index is; the columns are `max(int(column_percent * m / 100), 1)`
      of the table's columns (MCAR) or of its numeric columns (SCAR). */
  lemma ReportedCounts(p: Polluter, g: Rng, jenga: Jenga, data: Table, seed: int, rowPercent: real, columnPercent: real)
    requires g.Sound() && data.Valid() && (p == MCAR || p == SCAR)
    requires Corrupted(p, g, jenga, data, seed, rowPercent, columnPercent).Success?
    requires rowPercent != 0.0 && columnPercent != 0.0
    requires p == SCAR ==> NumericColumns(data.columns) != []
    ensures var (_, rows, cols) := Corrupted(p, g, jenga, data, seed, rowPercent, columnPercent).value;
            && |rows| == SampleCount(rowPercent, |data.rows|)
            && (forall l :: l in rows ==> l in data.index)
            && (Distinct(data.index) ==> Distinct(rows))
            && (p == MCAR ==> |cols| == SampleCount(columnPercent, |data.columns|) && forall c :: c in cols ==> c in Names(data.columns))
            && (p == SCAR ==> |cols| == SampleCount(columnPercent, |NumericColumns(data.columns)|) && forall c :: c in cols ==> c in NumericColumns(data.columns))
  {
    assert Early(p, data, seed, rowPercent, columnPercent).None?;
    Proceeds(p, g, jenga, data, seed, rowPercent, columnPercent);
    var d := Draw(g, seed, data, rowPercent, columnPercent);
    PolluteReports(p, jenga, data, d);
    DrawnMembers(p, data, d);
  }

  /** MCAR and SCAR report the drawn rows and the drawn columns. */
  lemma PolluteReports(p: Polluter, jenga: Jenga, data: Table, d: Draws)
    requires (p == MCAR || p == SCAR) && data.Valid() && RowsHave(data.rows, Targets(p, d))
    requires p == SCAR ==> d.numeric != []
    ensures Pollute(p, jenga, data, d).1 == d.rows && Pollute(p, jenga, data, d).2 == Targets(p, d)
  {
  }

  /** What was drawn comes from the index and from the kind's pool. */
  lemma DrawnMembers(p: Polluter, data: Table, d: Draws)
    requires p == MCAR || p == SCAR
    requires multiset(d.rows) <= multiset(data.index)
    requires multiset(d.generic) <= multiset(Names(data.columns))
    requires multiset(d.numeric) <= multiset(NumericColumns(data.columns))
    ensures forall l :: l in d.rows ==> l in data.index
    ensures Distinct(data.index) ==> Distinct(d.rows)
    ensures p == MCAR ==> forall c :: c in Targets(p, d) ==> c in Names(data.columns)
    ensures p == SCAR ==> forall c :: c in Targets(p, d) ==> c in NumericColumns(data.columns)
  {
    SubMultisetDistinct(d.rows, data.index);
    forall l | l in d.rows
      ensures l in data.index
    {
      assert l in multiset(d.rows);
    }
    forall c | c in Targets(p, d)
      ensures p == MCAR ==> c in Names(data.columns)
      ensures p == SCAR ==> c in NumericColumns(data.columns)
    {
      assert c in multiset(Targets(p, d));
    }
  }

  /** SCAR or CSCAR with no column of its kind returns the table untouched and reports
      nothing. */
  lemma NoEligibleColumns(p: Polluter, g: Rng, jenga: Jenga, data: Table, seed: int, rowPercent: real, columnPercent: real)
    requires g.Sound() && data.Valid() && |data.rows| > 0 && |data.columns| > 0
    requires 0.0 <= rowPercent <= 100.0 && 0.0 <= columnPercent <= 100.0 && 0 <= seed < SeedBound
    requires (p == SCAR && NumericColumns(data.columns) == []) || (p == CSCAR && CategoricalColumns(data.columns) == [])
    ensures Corrupted(p, g, jenga, data, seed, rowPercent, columnPercent) == Success((data, [], []))
  {
  }

  /** With distinct column names, every cell of the result is the transformed value in a
      reported row and a corrupted column, and the original value elsewhere. */
  lemma CorruptedCells(p: Polluter, g: Rng, jenga: Jenga, data: Table, seed: int, rowPercent: real, columnPercent: real)
    requires g.Sound() && data.Valid() && Distinct(Names(data.columns))
    requires Corrupted(p, g, jenga, data, seed, rowPercent, columnPercent).Success?
    ensures var (out, rows, cols) := Corrupted(p, g, jenga, data, seed, rowPercent, columnPercent).value;
            var block := LocRows(data.index, data.rows, Draw(g, seed, data, rowPercent, columnPercent).rows);
            cols != [] ==>
              WrittenFrom(jenga, p, block, data.index, data.rows, rows, cols, out.rows)
  {
    if Early(p, data, seed, rowPercent, columnPercent).None? {
      var d := Draw(g, seed, data, rowPercent, columnPercent);
      TargetsShaped(p, data, d);
      var cols := Targets(p, d);
      if cols != [] {
        TargetsDistinct(p, data, d);
        var block := LocRows(data.index, data.rows, d.rows);
        WriteBackPointwise(jenga, p, block, data.index, data.rows, ReportedRows(p, jenga, data, d), cols);
      }
    }
  }

  /** Columns drawn without replacement from distinct names are distinct. */
  lemma TargetsDistinct(p: Polluter, data: Table, d: Draws)
    requires p != NONE && Distinct(Names(data.columns))
    requires multiset(d.generic) <= multiset(Names(data.columns))
    requires multiset(d.categorical) <= multiset(CategoricalColumns(data.columns))
    requires multiset(d.numeric) <= multiset(NumericColumns(data.columns))
    ensures Distinct(Targets(p, d))
  {
    var cols := Targets(p, d);
    if p == CSCAR {
      SubMultisetColumns(data.columns, CategoricalColumns(data.columns), cols);
    } else if p == SCAR {
      SubMultisetColumns(data.columns, NumericColumns(data.columns), cols);
    }
    SubMultisetDistinct(cols, Names(data.columns));
  }

  /** Columns filtered out of a table's column list occur in it at most as often. */
  lemma SubMultisetColumns(columns: seq<Column>, pool: seq<ColName>, cols: seq<ColName>)
    requires pool == CategoricalColumns(columns) || pool == NumericColumns(columns)
    requires multiset(cols) <= multiset(pool)
    ensures multiset(cols) <= multiset(Names(columns))
  {
    if pool == CategoricalColumns(columns) {
      CategoricalSubMultiset(columns);
    } else {
      NumericSubMultiset(columns);
    }
  }

  lemma {:induction false} CategoricalSubMultiset(columns: seq<Column>)
    ensures multiset(CategoricalColumns(columns)) <= multiset(Names(columns))
  {
    if columns != [] {
      CategoricalSubMultiset(columns[..|columns| - 1]);
    }
  }

  lemma {:induction false} NumericSubMultiset(columns: seq<Column>)
    ensures multiset(NumericColumns(columns)) <= multiset(Names(columns))
  {
    if columns != [] {
      NumericSubMultiset(columns[..|columns| - 1]);
    }
  }

  /** With a duplicate-free index and distinct columns, writing back only the rows CSCAR
      reports gives the same table as writing back every drawn row: a row left out had no cell
      changed by the shift. */
  lemma ReportedRowsSuffice(jenga: Jenga, p: Polluter, index: seq<RowKey>, rows: seq<Row>, drawn: seq<RowKey>, cols: seq<ColName>)
    requires |index| == |rows| && Distinct(index) && RowsHave(rows, cols) && Distinct(cols)
    requires forall l :: l in drawn ==> l in index
    ensures LocIndex(index, rows, drawn) == drawn
    ensures var block := LocRows(index, rows, drawn);
            WriteBack(jenga, p, block, index, rows, Reported(jenga, p, LocIndex(index, rows, drawn), block, cols), cols)
            == WriteBack(jenga, p, block, index, rows, drawn, cols)
  {
    LocIndexDistinct(index, rows, drawn);
    var block := LocRows(index, rows, drawn);
    var reported := Reported(jenga, p, LocIndex(index, rows, drawn), block, cols);
    WriteBackPointwise(jenga, p, block, index, rows, reported, cols);
    WriteBackPointwise(jenga, p, block, index, rows, drawn, cols);
    var a := WriteBack(jenga, p, block, index, rows, reported, cols);
    var b := WriteBack(jenga, p, block, index, rows, drawn, cols);
    forall i | 0 <= i < |rows|
      ensures a[i] == b[i]
    {
      forall c | c in rows[i]
        ensures a[i][c] == b[i][c]
      {
        if index[i] in drawn && index[i] !in reported && c in cols {
          UnreportedUnchanged(jenga, p, index, rows, drawn, cols, i, c);
        }
      }
      assert a[i].Keys == b[i].Keys;
    }
  }

  /** Every row the corrected comparison reports is also reported as written. */
  lemma ChangedReportedAsWritten(jenga: Jenga, p: Polluter, blockIndex: seq<RowKey>, block: seq<Row>, cols: seq<ColName>)
    requires |blockIndex| == |block|
    ensures forall l :: l in Reported(jenga, p, blockIndex, block, cols) ==> l in ReportedAsWritten(jenga, p, blockIndex, block, cols)
  {
    forall l | l in Reported(jenga, p, blockIndex, block, cols)
      ensures l in ReportedAsWritten(jenga, p, blockIndex, block, cols)
    {
      var k :| 0 <= k < |block| && blockIndex[k] == l && Changed(jenga, p, block, block[k], cols);
      assert Flagged(jenga, p, block, block[k], cols, true);
    }
  }

  /** The extra rows `ne` reports do not spoil the table: writing back the rows CSCAR reports
      as written gives the same table as writing back every drawn row. */
  lemma AsWrittenWriteBack(jenga: Jenga, p: Polluter, index: seq<RowKey>, rows: seq<Row>, drawn: seq<RowKey>, cols: seq<ColName>)
    requires |index| == |rows| && Distinct(index) && RowsHave(rows, cols) && Distinct(cols)
    requires forall l :: l in drawn ==> l in index
    ensures var block := LocRows(index, rows, drawn);
            WriteBack(jenga, p, block, index, rows, ReportedAsWritten(jenga, p, LocIndex(index, rows, drawn), block, cols), cols)
            == WriteBack(jenga, p, block, index, rows, drawn, cols)
  {
    LocIndexDistinct(index, rows, drawn);
    var block := LocRows(index, rows, drawn);
    var reported := ReportedAsWritten(jenga, p, LocIndex(index, rows, drawn), block, cols);
    ChangedReportedAsWritten(jenga, p, LocIndex(index, rows, drawn), block, cols);
    WriteBackPointwise(jenga, p, block, index, rows, reported, cols);
    WriteBackPointwise(jenga, p, block, index, rows, drawn, cols);
    var a := WriteBack(jenga, p, block, index, rows, reported, cols);
    var b := WriteBack(jenga, p, block, index, rows, drawn, cols);
    forall i | 0 <= i < |rows|
      ensures a[i] == b[i]
    {
      forall c | c in rows[i]
        ensures a[i][c] == b[i][c]
      {
        if index[i] in drawn && index[i] !in reported && c in cols {
          UnreportedUnchanged(jenga, p, index, rows, drawn, cols, i, c);
        }
      }
      assert a[i].Keys == b[i].Keys;
    }
  }

  /** A drawn row CSCAR does not report keeps every listed cell under the transform. */
  lemma UnreportedUnchanged(jenga: Jenga, p: Polluter, index: seq<RowKey>, rows: seq<Row>, drawn: seq<RowKey>, cols: seq<ColName>, i: nat, c: ColName)
    requires |index| == |rows| && Distinct(index)
    requires forall l :: l in drawn ==> l in index
    requires i < |rows| && index[i] in drawn && c in cols && c in rows[i]
    requires index[i] !in Reported(jenga, p, LocIndex(index, rows, drawn), LocRows(index, rows, drawn), cols)
    ensures Polluted(jenga, p, LocRows(index, rows, drawn), c, rows[i][c]) == rows[i][c]
  {
    LocRowsDistinct(index, rows, drawn);
    LocIndexDistinct(index, rows, drawn);
    var block := LocRows(index, rows, drawn);
    var k :| 0 <= k < |drawn| && drawn[k] == index[i];
    assert PositionOf(index, drawn[k]) == i;
    assert block[k] == rows[i];
  }

  /** An oracle that leaves every cell as it is. */
  function IdleJenga(): (j: Jenga)
    ensures forall p, c, column, v :: j.cell(p, c, column, v) == v
  {
    Jenga((p: Polluter, c: ColName, column: seq<Value>, v: Value) => v)
  }

  /** As written, a block row holding a missing value (NaN or NA) in a shifted column is
      reported even when the shift left every cell as it was; the corrected comparison reports
      nothing. */
  lemma MissingRowReported()
    ensures ReportedAsWritten(IdleJenga(), CSCAR, [0], [map["c" := NaN]], ["c"]) == [0]
    ensures Reported(IdleJenga(), CSCAR, [0], [map["c" := NaN]], ["c"]) == []
    ensures ReportedAsWritten(IdleJenga(), CSCAR, [0], [map["c" := NA]], ["c"]) == [0]
    ensures Reported(IdleJenga(), CSCAR, [0], [map["c" := NA]], ["c"]) == []
  {
    var j := IdleJenga();
    var blocks: seq<seq<Row>> := [[map["c" := NaN]], [map["c" := NA]]];
    for b := 0 to 2
      invariant forall i :: 0 <= i < b ==>
                  FlaggedLabels(j, CSCAR, [0], blocks[i], ["c"], true, 1) == [0] &&
                  FlaggedLabels(j, CSCAR, [0], blocks[i], ["c"], false, 1) == []
    {
      var block := blocks[b];
      assert Flagged(j, CSCAR, block, block[0], ["c"], true) by {
        assert "c" in ["c"] && "c" in block[0] && block[0]["c"].IsNull();
      }
      assert !Flagged(j, CSCAR, block, block[0], ["c"], false);
      assert FlaggedLabels(j, CSCAR, [0], block, ["c"], true, 1) == [0];
      assert FlaggedLabels(j, CSCAR, [0], block, ["c"], false, 1) == [];
    }
    assert blocks[0] == [map["c" := NaN]] && blocks[1] == [map["c" := NA]];
  }
}
