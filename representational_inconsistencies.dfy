/** The typo corruption (representational inconsistencies): every distinct value of a selected
    categorical column gets one typo, and the selected rows take the misspelt values. */
module RepresentationalInconsistencies {
  import opened Wrappers
  import opened Frames
  import opened Reproducibility

  // ---------------------------------------------------------------------------
  // The three typos at a given position

  /** `s` with the character at `i` written twice, as in pollution -> poolution. */
  function DoubleAt(s: string, i: nat): (r: string)
    requires i < |s|
    ensures |r| == |s| + 1
    ensures r[..i + 1] == s[..i + 1] && r[i + 1] == s[i] && r[i + 2..] == s[i + 1..]
  {
    s[..i] + [s[i]] + [s[i]] + s[i + 1..]
  }

  /** `s` without the character at `i`, as in pollution -> polution. */
  function DropAt(s: string, i: nat): (r: string)
    requires i < |s|
    ensures |r| == |s| - 1
    ensures r[..i] == s[..i] && r[i..] == s[i + 1..]
  {
    s[..i] + s[i + 1..]
  }

  /** `s` with the neighbours at `i` and `i + 1` exchanged, as in pollution -> pollutoin. */
  function SwapAt(s: string, i: nat): (r: string)
    requires i + 1 < |s|
    ensures |r| == |s|
    ensures r[i] == s[i + 1] && r[i + 1] == s[i]
    ensures forall k :: 0 <= k < |s| && k != i && k != i + 1 ==> r[k] == s[k]
  {
    s[..i] + [s[i + 1]] + [s[i]] + s[i + 2..]
  }

  /** Dropping the doubled character gives the original back. */
  lemma DropAfterDouble(s: string, i: nat)
    requires i < |s|
    ensures DropAt(DoubleAt(s, i), i) == s
  {
    assert s == s[..i + 1] + s[i + 1..];
  }

  /** Swapping the same neighbours twice gives the original back. */
  lemma SwapTwice(s: string, i: nat)
    requires i + 1 < |s|
    ensures SwapAt(SwapAt(s, i), i) == s
  {
  }

  /** The doubled string holds one more copy of the doubled character and nothing else new. */
  lemma DoubleMultiset(s: string, i: nat)
    requires i < |s|
    ensures multiset(DoubleAt(s, i)) == multiset(s) + multiset{s[i]}
  {
    assert s == s[..i] + [s[i]] + s[i + 1..];
  }

  /** The shortened string lacks exactly one copy of the dropped character. */
  lemma DropMultiset(s: string, i: nat)
    requires i < |s|
    ensures multiset(DropAt(s, i)) + multiset{s[i]} == multiset(s)
  {
    assert s == s[..i] + [s[i]] + s[i + 1..];
  }

  /** A swap only reorders the characters. */
  lemma SwapMultiset(s: string, i: nat)
    requires i + 1 < |s|
    ensures multiset(SwapAt(s, i)) == multiset(s)
  {
    assert s == s[..i] + [s[i]] + [s[i + 1]] + s[i + 2..];
  }

  // ---------------------------------------------------------------------------
  // The seeded typo routines

  /** `list(range(n))`, empty when `n <= 0`. */
  function PyRange(n: int): (r: seq<nat>)
    ensures |r| == (if n <= 0 then 0 else n)
    ensures forall i :: 0 <= i < |r| ==> r[i] == i
  {
    if n <= 0 then [] else Range(n)
  }

  /** `sample_from(range(n), how_many=1)[0]`. On an empty range `sample_from` returns `[]`
      without consulting the seed, and indexing it raises IndexError. */
  function DrawPosition(st: SeedState, n: int): (r: Result<nat>)
    requires st.numpy.Sound()
    ensures r.Success? <==> n >= 1 && st.Seeded()
    ensures r.Success? ==> r.value < n
    ensures n <= 0 ==> r == Failure(IndexError)
    ensures n >= 1 && !st.Seeded() ==> r == Failure(st.EnsureReproducibility().error)
  {
    var drawn :- SampleFrom(st, PyRange(n), 1.0, 1, false);
    if drawn == [] then Failure(IndexError)
    else
      assert drawn[0] in PyRange(n);
      Success(drawn[0])
  }

  /** `_apply_typo_extra_letter` */
  function ApplyExtraLetter(st: SeedState, s: string): (r: Result<string>)
    requires st.numpy.Sound()
    ensures r.Success? <==> s != [] && st.Seeded()
    ensures s == [] ==> r == Failure(IndexError)
    ensures r.Success? ==> exists i :: 0 <= i < |s| && r.value == DoubleAt(s, i)
  {
    var i :- DrawPosition(st, |s|);
    Success(DoubleAt(s, i))
  }

  /** `_apply_typo_missing_letter` */
  function ApplyMissingLetter(st: SeedState, s: string): (r: Result<string>)
    requires st.numpy.Sound()
    ensures r.Success? <==> s != [] && st.Seeded()
    ensures s == [] ==> r == Failure(IndexError)
    ensures r.Success? ==> exists i :: 0 <= i < |s| && r.value == DropAt(s, i)
  {
    var i :- DrawPosition(st, |s|);
    Success(DropAt(s, i))
  }

  /** `_apply_typo_swapped_letter`: the left position is drawn from `range(len(s) - 1)`, so a
      string shorter than two characters raises IndexError. */
  function ApplySwappedLetter(st: SeedState, s: string): (r: Result<string>)
    requires st.numpy.Sound()
    ensures r.Success? <==> |s| >= 2 && st.Seeded()
    ensures |s| < 2 ==> r == Failure(IndexError)
    ensures r.Success? ==> exists i :: 0 <= i < |s| - 1 && r.value == SwapAt(s, i)
  {
    var i :- DrawPosition(st, |s| - 1);
    Success(SwapAt(s, i))
  }

  /** The routines `_apply_typo` chooses from, in its order. */
  datatype Typo = ExtraLetter | MissingLetter | SwappedLetter {
    /** The shortest string the routine accepts. */
    function MinLength(): nat
    {
      if SwappedLetter? then 2 else 1
    }

    /** How the routine changes the length. */
    function Delta(): int
    {
      match this
      case ExtraLetter => 1
      case MissingLetter => -1
      case SwappedLetter => 0
    }

    /** `t` is `s` with this typo at some position. */
    ghost predicate Made(s: string, t: string)
    {
      match this
      case ExtraLetter => exists i :: 0 <= i < |s| && t == DoubleAt(s, i)
      case MissingLetter => exists i :: 0 <= i < |s| && t == DropAt(s, i)
      case SwappedLetter => exists i :: 0 <= i < |s| - 1 && t == SwapAt(s, i)
    }
  }

  const Routines: seq<Typo> := [ExtraLetter, MissingLetter, SwappedLetter]

  /** The routine `sample_from(routines, how_many=1)[0]` picks. The draw does not look at the
      value, so one seed gives every value the same kind of typo. */
  function TypoKind(st: SeedState): (r: Typo)
    requires st.numpy.Sound() && st.Seeded()
  {
    SampleFrom(st, Routines, 1.0, 1, false).value[0]
  }

  /** `_apply_typo` on one cell value. The routine is drawn first, so an unset seed fails even
      for a value that is not a string; a non-string then fails on `len` with TypeError. */
  function ApplyTypo(st: SeedState, v: Value): (r: Result<Value>)
    requires st.numpy.Sound()
    ensures !st.Seeded() ==> r == Failure(st.EnsureReproducibility().error)
    ensures st.Seeded() && !v.Str? ==> r == Failure(TypeError)
    ensures st.Seeded() && v.Str? ==> (r.Success? <==> |v.s| >= TypoKind(st).MinLength())
    ensures st.Seeded() && v.Str? && r.Failure? ==> r.error == IndexError
    ensures r.Success? ==> v.Str? && r.value.Str?
    ensures r.Success? ==> |r.value.s| == |v.s| + TypoKind(st).Delta()
    ensures r.Success? ==> TypoKind(st).Made(v.s, r.value.s)
  {
    var picked :- SampleFrom(st, Routines, 1.0, 1, false);
    var typo := picked[0];
    match v
    case Str(s) =>
      var t :- match typo
        case ExtraLetter => ApplyExtraLetter(st, s)
        case MissingLetter => ApplyMissingLetter(st, s)
        case SwappedLetter => ApplySwappedLetter(st, s);
      Success(Str(t))
    case _ => Failure(TypeError)
  }

  // ---------------------------------------------------------------------------
  // Typos in a column

  /** `[self._apply_typo(v) for v in distinct_values]`; the first failure propagates. */
  function TyposOf(st: SeedState, values: seq<Value>): (r: Result<seq<Value>>)
    requires st.numpy.Sound()
    ensures r.Success? ==> |r.value| == |values|
  {
    Collect(seq(|values|, k requires 0 <= k < |values| => ApplyTypo(st, values[k])))
  }

  /** The comprehension succeeds exactly when every value takes the typo, and then holds each
      value's own typo; a failure is the failure of one of the values. */
  lemma TyposOfEach(st: SeedState, values: seq<Value>)
    requires st.numpy.Sound()
    ensures TyposOf(st, values).Success? <==> forall k :: 0 <= k < |values| ==> ApplyTypo(st, values[k]).Success?
    ensures TyposOf(st, values).Success? ==>
              forall k :: 0 <= k < |values| ==> TyposOf(st, values).value[k] == ApplyTypo(st, values[k]).value
    ensures TyposOf(st, values).Failure? ==>
              exists k :: 0 <= k < |values| && ApplyTypo(st, values[k]) == Failure(TyposOf(st, values).error)
  {
    var rs := seq(|values|, k requires 0 <= k < |values| => ApplyTypo(st, values[k]));
    if Collect(rs).Success? {
      forall k | 0 <= k < |values|
        ensures ApplyTypo(st, values[k]).Success? && Collect(rs).value[k] == ApplyTypo(st, values[k]).value
      {
        CollectAt(rs, k);
      }
    } else {
      CollectFails(rs);
      var k :| 0 <= k < |rs| && rs[k] == Failure(Collect(rs).error);
      assert ApplyTypo(st, values[k]) == Failure(TyposOf(st, values).error);
    }
  }

  /** One call of `_apply_corruption_to_categorical_column`. */
  function TypoColumn(st: SeedState, index: seq<RowKey>, rows: seq<Row>, labels: seq<RowKey>, col: ColName): (r: Result<seq<Row>>)
    requires st.numpy.Sound()
    requires |index| == |rows| && forall i :: 0 <= i < |rows| ==> col in rows[i]
    ensures r.Success? ==> |r.value| == |rows|
    ensures r.Success? ==> forall i :: 0 <= i < |rows| ==> r.value[i].Keys == rows[i].Keys
  {
    var distinct := DistinctOf(rows, col);
    var typos :- TyposOf(st, distinct);
    Success(MapColumn(index, rows, labels, col, ReplaceWith(distinct, typos)))
  }

  /** `_apply_corruption`: the columns one after the other, stopping at the first failure. */
  function Typos(st: SeedState, index: seq<RowKey>, rows: seq<Row>, labels: seq<RowKey>, cols: seq<ColName>): (r: Result<seq<Row>>)
    requires st.numpy.Sound()
    requires |index| == |rows| && RowsHave(rows, cols)
    ensures r.Success? ==> |r.value| == |rows|
    ensures r.Success? ==> forall i :: 0 <= i < |rows| ==> r.value[i].Keys == rows[i].Keys
  {
    if cols == [] then Success(rows)
    else
      var m := |cols| - 1;
      PrefixHave(rows, cols, m);
      var before :- Typos(st, index, rows, labels, cols[..m]);
      TypoColumn(st, index, before, labels, cols[m])
  }

  /** `_apply_corruption_to_categorical_column`, in place. */
  method ApplyCorruptionToCategoricalColumn(f: Frame, st: SeedState, labels: seq<RowKey>, col: ColName) returns (err: Option<Error>)
    requires f.Valid() && col in f.ColumnNames() && st.numpy.Sound()
    modifies f
    ensures f.Valid() && f.index == old(f.index)
    ensures err.None? <==> TypoColumn(st, f.index, old(f.rows), labels, col).Success?
    ensures err.None? ==> f.rows == TypoColumn(st, f.index, old(f.rows), labels, col).value
    ensures err.Some? ==> err.value == TypoColumn(st, f.index, old(f.rows), labels, col).error && f.rows == old(f.rows)
  {
    ShapedHave(f.rows, f.ColumnNames(), [col]);
    var distinct := DistinctOf(f.rows, col);
    var typos := TyposOf(st, distinct);
    if typos.Failure? {
      return Some(typos.error);
    }
    f.MapCells(labels, col, ReplaceWith(distinct, typos.value));
    err := None;
  }

  /** `RepresentationalInconsistencies._apply_corruption`. After a failure the columns already
      processed stay written, as the exception leaves them. */
  method ApplyCorruption(f: Frame, st: SeedState, labels: seq<RowKey>, cols: seq<ColName>) returns (err: Option<Error>)
    requires f.Valid() && f.HasColumns(cols) && st.numpy.Sound()
    modifies f
    ensures f.Valid() && f.index == old(f.index)
    ensures err.None? <==> Typos(st, f.index, old(f.rows), labels, cols).Success?
    ensures err.None? ==> f.rows == Typos(st, f.index, old(f.rows), labels, cols).value
    ensures err.Some? ==> err.value == Typos(st, f.index, old(f.rows), labels, cols).error
  {
    for k := 0 to |cols|
      invariant f.Valid() && f.index == old(f.index)
      invariant forall c :: c in cols ==> c in f.ColumnNames()
      invariant RowsHave(old(f.rows), cols[..k])
      invariant Typos(st, f.index, old(f.rows), labels, cols[..k]) == Success(f.rows)
    {
      TakeHave(old(f.rows), cols, k + 1);
      assert cols[..k + 1][..k] == cols[..k];
      err := ApplyCorruptionToCategoricalColumn(f, st, labels, cols[k]);
      if err.Some? {
        FailureExtends(st, f.index, old(f.rows), labels, cols, k + 1);
        return;
      }
    }
    assert cols[..|cols|] == cols;
    err := None;
  }

  /** A failure on a prefix of the columns is the failure of the whole loop. */
  lemma {:induction false} FailureExtends(st: SeedState, index: seq<RowKey>, rows: seq<Row>, labels: seq<RowKey>, cols: seq<ColName>, j: nat)
    requires st.numpy.Sound()
    requires |index| == |rows| && RowsHave(rows, cols) && j <= |cols|
    ensures RowsHave(rows, cols[..j])
    ensures Typos(st, index, rows, labels, cols[..j]).Failure? ==>
              Typos(st, index, rows, labels, cols) == Typos(st, index, rows, labels, cols[..j])
    decreases |cols| - j
  {
    TakeHave(rows, cols, j);
    if j < |cols| {
      FailureExtends(st, index, rows, labels, cols, j + 1);
      assert cols[..j + 1][..j] == cols[..j];
    } else {
      assert cols[..j] == cols;
    }
  }

  // ---------------------------------------------------------------------------
  // What the typos do to each cell

  /** All distinct values of each listed column can take the drawn typo. */
  ghost predicate Typeable(st: SeedState, rows: seq<Row>, cols: seq<ColName>)
    requires st.numpy.Sound() && RowsHave(rows, cols)
  {
    forall c :: c in cols ==> TyposOf(st, DistinctOf(rows, c)).Success?
  }

  /** The value a cell of column `c` holding `v` ends with: its column's misspelling of `v`
      if the cell is hit. */
  function Misspelt(st: SeedState, rows: seq<Row>, c: ColName, v: Value, hit: bool): Value
    requires st.numpy.Sound()
  {
    if hit && (forall j :: 0 <= j < |rows| ==> c in rows[j]) && TyposOf(st, DistinctOf(rows, c)).Success? then
      var distinct := DistinctOf(rows, c);
      Replace(v, distinct, TyposOf(st, distinct).value)
    else v
  }

  ghost predicate MisspeltFrom(st: SeedState, index: seq<RowKey>, rows: seq<Row>, labels: seq<RowKey>, cols: seq<ColName>, out: seq<Row>)
    requires st.numpy.Sound()
    requires |index| == |rows| == |out|
  {
    && (forall i :: 0 <= i < |rows| ==> out[i].Keys == rows[i].Keys)
    && (forall i, c :: 0 <= i < |rows| && c in rows[i] ==>
          c in out[i] && out[i][c] == Misspelt(st, rows, c, rows[i][c], Selected(index[i], labels, c, cols)))
  }

  /** With distinct column names, the loop succeeds exactly when every selected column's
      distinct values can take the typo, and then each cell ends as `Misspelt` says. */
  lemma {:induction false} TyposPointwise(st: SeedState, index: seq<RowKey>, rows: seq<Row>, labels: seq<RowKey>, cols: seq<ColName>)
    requires st.numpy.Sound()
    requires |index| == |rows| && RowsHave(rows, cols) && Distinct(cols)
    ensures Typos(st, index, rows, labels, cols).Success? <==> Typeable(st, rows, cols)
    ensures Typos(st, index, rows, labels, cols).Success? ==>
              MisspeltFrom(st, index, rows, labels, cols, Typos(st, index, rows, labels, cols).value)
  {
    if cols != [] {
      var m := |cols| - 1;
      PrefixHave(rows, cols, m);
      var c := cols[m];
      assert c !in cols[..m];
      TyposPointwise(st, index, rows, labels, cols[..m]);
      assert Typeable(st, rows, cols) <==> Typeable(st, rows, cols[..m]) && TyposOf(st, DistinctOf(rows, c)).Success?;
      var prefix := Typos(st, index, rows, labels, cols[..m]);
      if prefix.Success? {
        var before := prefix.value;
        forall i | 0 <= i < |rows|
          ensures c in before[i] && before[i][c] == rows[i][c]
        {
          assert before[i][c] == Misspelt(st, rows, c, rows[i][c], Selected(index[i], labels, c, cols[..m]));
        }
        SameColumn(before, rows, c);
        var r := Typos(st, index, rows, labels, cols);
        assert r == TypoColumn(st, index, before, labels, c);
        if r.Success? {
          var out := r.value;
          forall i, d | 0 <= i < |rows| && d in rows[i]
            ensures d in out[i] && out[i][d] == Misspelt(st, rows, d, rows[i][d], Selected(index[i], labels, d, cols))
          {
            assert before[i][d] == Misspelt(st, rows, d, rows[i][d], Selected(index[i], labels, d, cols[..m]));
            if d != c {
              assert d in cols <==> d in cols[..m];
            }
          }
        }
      }
    }
  }

  /** On success, a selected cell holding a non-null value now holds `_apply_typo` of that value
      (one typo per distinct value, shared by all its cells); null cells and unselected cells
      keep their values. */
  lemma TypoCells(st: SeedState, index: seq<RowKey>, rows: seq<Row>, labels: seq<RowKey>, cols: seq<ColName>)
    requires st.numpy.Sound()
    requires |index| == |rows| && RowsHave(rows, cols) && Distinct(cols)
    requires Typos(st, index, rows, labels, cols).Success?
    ensures forall i, c :: 0 <= i < |rows| && c in rows[i] && Selected(index[i], labels, c, cols) && !rows[i][c].IsNull() ==>
              ApplyTypo(st, rows[i][c]).Success? &&
              Typos(st, index, rows, labels, cols).value[i][c] == ApplyTypo(st, rows[i][c]).value
    ensures forall i, c :: 0 <= i < |rows| && c in rows[i] && (rows[i][c].IsNull() || !Selected(index[i], labels, c, cols)) ==>
              Typos(st, index, rows, labels, cols).value[i][c] == rows[i][c]
  {
    TyposPointwise(st, index, rows, labels, cols);
    var out := Typos(st, index, rows, labels, cols).value;
    forall i, c | 0 <= i < |rows| && c in rows[i] && Selected(index[i], labels, c, cols) && !rows[i][c].IsNull()
      ensures ApplyTypo(st, rows[i][c]).Success? && out[i][c] == ApplyTypo(st, rows[i][c]).value
    {
      var v := rows[i][c];
      assert out[i][c] == Misspelt(st, rows, c, v, true);
      var distinct := DistinctOf(rows, c);
      assert ColumnValues(rows, c)[i] == v;
      var k :| 0 <= k < |distinct| && distinct[k] == v;
      TyposOfEach(st, distinct);
      ReplaceAt(v, distinct, TyposOf(st, distinct).value, k);
      assert out[i][c] == TyposOf(st, distinct).value[k];
    }
    forall i, c | 0 <= i < |rows| && c in rows[i] && (rows[i][c].IsNull() || !Selected(index[i], labels, c, cols))
      ensures out[i][c] == rows[i][c]
    {
      assert out[i][c] == Misspelt(st, rows, c, rows[i][c], Selected(index[i], labels, c, cols));
    }
  }

  /** Under one seed every value receives the same kind of typo: two misspelt cells differ in
      length from their originals by the same amount. */
  lemma SameKindEverywhere(st: SeedState, v: Value, w: Value)
    requires st.numpy.Sound()
    requires ApplyTypo(st, v).Success? && ApplyTypo(st, w).Success?
    ensures |ApplyTypo(st, v).value.s| - |v.s| == |ApplyTypo(st, w).value.s| - |w.s|
  {
  }
}
