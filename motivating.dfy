/** The data corruptor of the motivating example. When it is built, a seeded generator picks,
    once, which columns and which rows each of five error types will touch. Each request for
    corrupted data then copies the original frame and injects the requested errors into the
    copy, drawing further values from the same generator. */
module Motivating {
  import opened Wrappers
  import opened Frames
  import Reproducibility

  /** The share of rows each error type touches. */
  const ErrorRate: real := 0.1
  /** How many columns each error type touches at most. */
  const ColsToCorrupt: nat := 3
  const DefaultTarget: string := "target"
  const DefaultSeed: int := 42

  // ---------------------------------------------------------------------------
  // The generator

  /** numpy's `Generator` from `default_rng(seed)`, as a stream: the k-th draw made on it
      depends only on the seed and on k, and is constrained by nothing but its range. */
  datatype Generator = Generator(
    /** `choice(population, size, replace=False)` at draw k, as positions */
    choice: (nat, nat, nat) -> seq<nat>,
    /** `permutation(n)` at draw k */
    permutation: (nat, nat) -> seq<nat>,
    /** `integers(low, high)` at draw k */
    integers: (nat, int, int) -> int,
    /** `choice(options)` of one item at draw k, as a position among n options */
    pick: (nat, nat) -> nat,
    /** what `normal(0, uniform(0.1, 2.0) * std, size)`, at draws k and k + 1, adds to the row
        labelled l: a number, or NaN when the column's standard deviation is NaN */
    noise: (nat, RowKey) -> Value,
    /** Python's `str` of a number label, which `choice` uses when it turns a list mixing text
        and numbers into an array of text; it draws nothing */
    numberText: real -> string)
  {
    ghost predicate Sound()
    {
      && (forall k: nat, n: nat, size: nat :: size <= n ==>
            |choice(k, n, size)| == size && Reproducibility.InRange(choice(k, n, size), n) && Distinct(choice(k, n, size)))
      && (forall k: nat, n: nat :: Reproducibility.IsPermutation(permutation(k, n), n))
      && (forall k: nat, lo: int, hi: int :: lo < hi ==> lo <= integers(k, lo, hi) < hi)
      && (forall k: nat, n: nat :: n > 0 ==> pick(k, n) < n)
      && (forall k: nat, l: RowKey :: noise(k, l).Num? || noise(k, l).NaN?)
    }
  }

  /** A generator that always takes the first positions and adds no noise: it meets the
      assumptions, so they are consistent. */
  function FirstsGenerator(): (g: Generator)
    ensures forall k: nat, n: nat :: g.permutation(k, n) == Reproducibility.Range(n)
    ensures forall k: nat, n: nat, size: nat :: g.choice(k, n, size) == Reproducibility.Range(size)
  {
    Generator((k: nat, n: nat, size: nat) => Reproducibility.Range(size),
              (k: nat, n: nat) => Reproducibility.Range(n),
              (k: nat, lo: int, hi: int) => lo,
              (k: nat, n: nat) => 0,
              (k: nat, l: RowKey) => Num(0.0),
              (x: real) => "0.0")
  }

  lemma FirstsGeneratorSound()
    ensures FirstsGenerator().Sound()
  {
    var g := FirstsGenerator();
    forall k: nat, n: nat
      ensures Reproducibility.IsPermutation(g.permutation(k, n), n)
    {
      assert g.permutation(k, n) == Reproducibility.Range(n);
    }
    forall k: nat, n: nat, size: nat | size <= n
      ensures Reproducibility.InRange(g.choice(k, n, size), n) && Distinct(g.choice(k, n, size))
    {
      assert g.choice(k, n, size) == Reproducibility.Range(size);
    }
  }

  /** The result of an injection: the new rows and the next draw of the generator. */
  datatype Corrupted = Corrupted(rows: seq<Row>, draws: nat)

  // ---------------------------------------------------------------------------
  // The error types

  datatype ErrorType = Scale | Shift | Missing | Noise | LabelFlip {
    /** The key naming the error type in `active_errors` and in the corruptor's dictionaries. */
    function Name(): string
    {
      match this
      case Scale => "scale"
      case Shift => "shift"
      case Missing => "missing"
      case Noise => "noise"
      case LabelFlip => "label_flip"
    }

    /** Which slice of the shuffled index the error type takes. */
    function Group(): (r: nat)
      ensures r < 5
    {
      match this
      case Scale => 0
      case Shift => 1
      case Missing => 2
      case Noise => 3
      case LabelFlip => 4
    }
  }


  // ---------------------------------------------------------------------------
  // Choosing the columns

  /** The names of the feature columns (all but `target`) whose dtype is a numpy number
      (`number` true) or is not (`number` false), in column order. */
  function FeatureColumns(columns: seq<Column>, target: ColName, number: bool): (r: seq<ColName>)
    ensures forall c :: c in r <==>
              exists k :: 0 <= k < |columns| && columns[k].name == c && c != target && columns[k].dtype.IsNpNumber() == number
  {
    if columns == [] then []
    else
      var last := columns[|columns| - 1];
      FeatureColumns(columns[..|columns| - 1], target, number)
      + (if last.name != target && last.dtype.IsNpNumber() == number then [last.name] else [])
  }

  /** Python's `<` on strings: code-point lexicographic order. */
  predicate LexLess(a: string, b: string)
  {
    b != [] && (a == [] || a[0] < b[0] || (a[0] == b[0] && LexLess(a[1..], b[1..])))
  }

  lemma {:induction false} LexAsymmetric(a: string, b: string)
    requires LexLess(a, b)
    ensures !LexLess(b, a)
  {
    if a != [] && a[0] == b[0] {
      LexAsymmetric(a[1..], b[1..]);
    }
  }

  lemma {:induction false} LexTotal(a: string, b: string)
    ensures a == b || LexLess(a, b) || LexLess(b, a)
  {
    if a != [] && b != [] && a[0] == b[0] {
      LexTotal(a[1..], b[1..]);
      if a[1..] == b[1..] {
        assert a == [a[0]] + a[1..] && b == [b[0]] + b[1..];
      }
    }
  }

  predicate SortedNames(s: seq<ColName>)
  {
    forall i :: 0 < i < |s| ==> !LexLess(s[i], s[i - 1])
  }

  function Insert(x: ColName, s: seq<ColName>): (r: seq<ColName>)
    requires SortedNames(s)
    ensures SortedNames(r) && multiset(r) == multiset(s) + multiset{x}
    ensures r[0] == x || (s != [] && r[0] == s[0])
  {
    if s == [] || !LexLess(s[0], x) then [x] + s
    else
      assert SortedNames(s[1..]) by {
        forall i | 0 < i < |s[1..]|
          ensures !LexLess(s[1..][i], s[1..][i - 1])
        {
          assert s[1..][i] == s[i + 1] && s[1..][i - 1] == s[i];
        }
      }
      var rest := Insert(x, s[1..]);
      LexAsymmetric(s[0], x);
      assert s == [s[0]] + s[1..];
      assert !LexLess(rest[0], s[0]);
      [s[0]] + rest
  }

  /** `sorted(candidates)` */
  function SortNames(s: seq<ColName>): (r: seq<ColName>)
    ensures SortedNames(r) && multiset(r) == multiset(s)
  {
    if s == [] then []
    else
      assert s == [s[0]] + s[1..];
      Insert(s[0], SortNames(s[1..]))
  }

  function Min(a: nat, b: nat): nat
  {
    if a <= b then a else b
  }

  /** Columns picked, and the next draw of the generator. */
  datatype Picked = Picked(cols: seq<ColName>, next: nat)

  /** `_pick_cols(candidates)` at draw k: no candidates give no columns and take no draw;
      otherwise `min(len, 3)` of the sorted candidates, chosen without replacement. */
  function PickCols(rng: Generator, k: nat, candidates: seq<ColName>): (r: Picked)
    requires rng.Sound()
    ensures candidates == [] ==> r == Picked([], k)
    ensures candidates != [] ==> r.next == k + 1
    ensures |r.cols| == Min(|candidates|, ColsToCorrupt)
    ensures forall c :: c in r.cols ==> c in candidates
    ensures Distinct(candidates) ==> Distinct(r.cols)
  {
    if candidates == [] then Picked([], k)
    else
      var n := Min(|candidates|, ColsToCorrupt);
      var sorted := SortNames(candidates);
      assert |sorted| == |multiset(sorted)| == |candidates|;
      var positions := rng.choice(k, |sorted|, n);
      var picked := Reproducibility.Apply(sorted, positions);
      PickedFrom(sorted, positions, candidates);
      Picked(picked, k + 1)
  }

  /** Names taken at distinct positions of a rearrangement of the candidates are candidates,
      and are distinct when the candidates are. */
  lemma PickedFrom(sorted: seq<ColName>, positions: seq<nat>, candidates: seq<ColName>)
    requires multiset(sorted) == multiset(candidates)
    requires Reproducibility.InRange(positions, |sorted|) && Distinct(positions)
    ensures forall c :: c in Reproducibility.Apply(sorted, positions) ==> c in candidates
    ensures Distinct(candidates) ==> Distinct(Reproducibility.Apply(sorted, positions))
  {
    var picked := Reproducibility.Apply(sorted, positions);
    forall c | c in picked
      ensures c in candidates
    {
      var j :| 0 <= j < |picked| && picked[j] == c;
      assert sorted[positions[j]] in multiset(sorted);
    }
    if Distinct(candidates) {
      SubMultisetDistinct(sorted, candidates);
      forall i, j | 0 <= i < j < |picked|
        ensures picked[i] != picked[j]
      {
        assert positions[i] != positions[j];
      }
    }
  }

  // ---------------------------------------------------------------------------
  // Choosing the rows

  /** `int(n * 0.1)`. The double nearest 0.1 lies just above it, and no product of a row
      count with it rounds below an integer, so this is the exact floor. */
  function ErrorCount(n: nat): (r: nat)
    ensures 5 * r <= n
  {
    var x := Reproducibility.PyInt(n as real * ErrorRate);
    assert 0 <= x;
    x
  }

  lemma MulMono(a: nat, b: nat, m: nat)
    requires a <= b
    ensures a * m <= b * m
  {
  }

  /** `shuffled[g*m:(g+1)*m]` */
  function Slice(shuffled: seq<RowKey>, m: nat, g: nat): (r: seq<RowKey>)
    requires g < 5 && 5 * m <= |shuffled|
    ensures |r| == m && forall j :: 0 <= j < m ==> r[j] == shuffled[g * m + j]
  {
    MulMono(g + 1, 5, m);
    shuffled[g * m..(g + 1) * m]
  }

  /** The five error types are all there are. */
  lemma Listed(e: ErrorType)
    ensures e in {Scale, Shift, Missing, Noise, LabelFlip}
  {
    match e
    case Scale =>
    case Shift =>
    case Missing =>
    case Noise =>
    case LabelFlip =>
  }

  /** The rows of each error type: its slice of the shuffled index. */
  function IndexGroups(shuffled: seq<RowKey>, m: nat): (r: map<ErrorType, seq<RowKey>>)
    requires 5 * m <= |shuffled|
    ensures Scale in r && Shift in r && Missing in r && Noise in r && LabelFlip in r
    ensures forall e :: e in r ==> r[e] == Slice(shuffled, m, e.Group())
  {
    map e | e in {Scale, Shift, Missing, Noise, LabelFlip} :: Slice(shuffled, m, e.Group())
  }

  /** Slices of a duplicate-free sequence share no element. */
  lemma SlicesDisjoint(shuffled: seq<RowKey>, m: nat, g: nat, h: nat)
    requires Distinct(shuffled) && 5 * m <= |shuffled| && g < h < 5
    ensures forall l :: l in Slice(shuffled, m, g) ==> l !in Slice(shuffled, m, h)
  {
    var a := Slice(shuffled, m, g);
    var b := Slice(shuffled, m, h);
    MulMono(g + 1, h, m);
    MulMono(h + 1, 5, m);
    forall l | l in a
      ensures l !in b
    {
      var i :| 0 <= i < m && a[i] == l;
      forall j | 0 <= j < m
        ensures b[j] != l
      {
        assert g * m + i < h * m + j;
      }
    }
  }

  /** Rearranging a duplicate-free index by a permutation keeps it duplicate-free. */
  lemma ShuffledDistinct(index: seq<RowKey>, perm: seq<nat>)
    requires Reproducibility.IsPermutation(perm, |index|) && Distinct(index)
    ensures Distinct(Reproducibility.Apply(index, perm))
  {
    var shuffled := Reproducibility.Apply(index, perm);
    forall i, j | 0 <= i < j < |shuffled|
      ensures shuffled[i] != shuffled[j]
    {
      assert perm[i] != perm[j];
    }
  }

  /** Each error type's rows are `int(0.1 * n)` labels of the index. */
  lemma IndexGroupsSized(index: seq<RowKey>, perm: seq<nat>, e: ErrorType)
    requires Reproducibility.IsPermutation(perm, |index|)
    ensures var groups := IndexGroups(Reproducibility.Apply(index, perm), ErrorCount(|index|));
      && e in groups && |groups[e]| == ErrorCount(|index|)
      && forall l :: l in groups[e] ==> l in index
  {
    var shuffled := Reproducibility.Apply(index, perm);
    var m := ErrorCount(|index|);
    Listed(e);
    var g := Slice(shuffled, m, e.Group());
    forall l | l in g
      ensures l in index
    {
      var j :| 0 <= j < m && g[j] == l;
      assert l == index[perm[e.Group() * m + j]];
    }
  }

  /** With a duplicate-free index, no row is in the groups of two error types. */
  lemma IndexGroupsDisjoint(index: seq<RowKey>, perm: seq<nat>, e: ErrorType, f: ErrorType)
    requires Reproducibility.IsPermutation(perm, |index|) && Distinct(index) && e != f
    ensures var groups := IndexGroups(Reproducibility.Apply(index, perm), ErrorCount(|index|));
      e in groups && f in groups && forall l :: l in groups[e] ==> l !in groups[f]
  {
    IndexGroupsSized(index, perm, e);
    IndexGroupsSized(index, perm, f);
    var shuffled := Reproducibility.Apply(index, perm);
    var m := ErrorCount(|index|);
    ShuffledDistinct(index, perm);
    assert e.Group() != f.Group() by {
      match e {
        case Scale =>
        case Shift =>
        case Missing =>
        case Noise =>
        case LabelFlip =>
      }
    }
    if e.Group() < f.Group() {
      SlicesDisjoint(shuffled, m, e.Group(), f.Group());
    } else {
      SlicesDisjoint(shuffled, m, f.Group(), e.Group());
    }
  }

  /** What `__init__` decides with the generator: the columns of each column error type, then
      the rows of every error type, and the next draw. */
  datatype Plan = Plan(targetCols: map<ErrorType, seq<ColName>>, indices: map<ErrorType, seq<RowKey>>, draws: nat)

  /** The candidates `__init__` gives `_pick_cols` for each column error type: the numeric
      features for scaling and noise, the others for shifting, all features for missing
      values. */
  function Candidates(e: ErrorType, numCols: seq<ColName>, catCols: seq<ColName>): seq<ColName>
  {
    match e
    case Scale => numCols
    case Shift => catCols
    case Missing => numCols + catCols
    case Noise => numCols
    case LabelFlip => []
  }

  /** The g-th of the four `_pick_cols` calls of `__init__` (scale, shift, missing, noise),
      each starting at the draw the previous one left. */
  function PickChain(rng: Generator, numCols: seq<ColName>, catCols: seq<ColName>, e: ErrorType): (r: Picked)
    requires rng.Sound() && e != LabelFlip
    ensures |r.cols| == Min(|Candidates(e, numCols, catCols)|, ColsToCorrupt)
    ensures forall c :: c in r.cols ==> c in Candidates(e, numCols, catCols)
    ensures Distinct(Candidates(e, numCols, catCols)) ==> Distinct(r.cols)
    decreases e.Group()
  {
    var k := match e
      case Scale => 0
      case Shift => PickChain(rng, numCols, catCols, Scale).next
      case Missing => PickChain(rng, numCols, catCols, Shift).next
      case Noise => PickChain(rng, numCols, catCols, Missing).next
      case LabelFlip => 0;
    PickCols(rng, k, Candidates(e, numCols, catCols))
  }

  /** `target_cols_map`: the columns of the four column error types. */
  function TargetCols(rng: Generator, numCols: seq<ColName>, catCols: seq<ColName>): (r: map<ErrorType, seq<ColName>>)
    requires rng.Sound()
    ensures Scale in r && Shift in r && Missing in r && Noise in r && LabelFlip !in r
    ensures forall e :: e in r ==> e != LabelFlip && r[e] == PickChain(rng, numCols, catCols, e).cols
  {
    map e | e in {Scale, Shift, Missing, Noise} :: PickChain(rng, numCols, catCols, e).cols
  }

  /** The plan once the columns are chosen: the index is shuffled with draw `k` and cut into
      five groups of `int(0.1 * n)` rows. */
  function PlanFrom(rng: Generator, index: seq<RowKey>, targetCols: map<ErrorType, seq<ColName>>, k: nat): (p: Plan)
    requires rng.Sound()
    ensures p.targetCols == targetCols && p.draws == k + 1
    ensures p.indices == IndexGroups(Reproducibility.Apply(index, rng.permutation(k, |index|)), ErrorCount(|index|))
  {
    Plan(targetCols, IndexGroups(Reproducibility.Apply(index, rng.permutation(k, |index|)), ErrorCount(|index|)), k + 1)
  }

  /** The sampling of `DataCorruptor.__init__`: columns first, then the row shuffle. */
  function MakePlan(rng: Generator, index: seq<RowKey>, numCols: seq<ColName>, catCols: seq<ColName>): (p: Plan)
    requires rng.Sound()
    ensures p == PlanFrom(rng, index, TargetCols(rng, numCols, catCols), PickChain(rng, numCols, catCols, Noise).next)
  {
    PlanFrom(rng, index, TargetCols(rng, numCols, catCols), PickChain(rng, numCols, catCols, Noise).next)
  }

  /** Each column error type gets `min(len, 3)` of its candidates, distinct when the column
      names are. */
  lemma PlanColumns(rng: Generator, index: seq<RowKey>, numCols: seq<ColName>, catCols: seq<ColName>, e: ErrorType)
    requires rng.Sound() && e != LabelFlip
    ensures var p := MakePlan(rng, index, numCols, catCols);
      && e in p.targetCols
      && |p.targetCols[e]| == Min(|Candidates(e, numCols, catCols)|, ColsToCorrupt)
      && (forall c :: c in p.targetCols[e] ==> c in Candidates(e, numCols, catCols))
      && (Distinct(numCols + catCols) ==> Distinct(p.targetCols[e]))
  {
    Listed(e);
    SubMultisetDistinct(numCols, numCols + catCols);
    SubMultisetDistinct(catCols, numCols + catCols);
  }

  /** Each error type gets `int(0.1 * n)` rows of the index. */
  lemma PlanRows(rng: Generator, index: seq<RowKey>, numCols: seq<ColName>, catCols: seq<ColName>, e: ErrorType)
    requires rng.Sound()
    ensures var p := MakePlan(rng, index, numCols, catCols);
      && e in p.indices && |p.indices[e]| == ErrorCount(|index|)
      && forall l :: l in p.indices[e] ==> l in index
  {
    var k := PickChain(rng, numCols, catCols, Noise).next;
    IndexGroupsSized(index, rng.permutation(k, |index|), e);
  }

  /** With a duplicate-free index, no row is in the groups of two error types. */
  lemma PlanRowsDisjoint(rng: Generator, index: seq<RowKey>, numCols: seq<ColName>, catCols: seq<ColName>, e: ErrorType, f: ErrorType)
    requires rng.Sound() && Distinct(index) && e != f
    ensures var p := MakePlan(rng, index, numCols, catCols);
      && e in p.indices && f in p.indices
      && forall l :: l in p.indices[e] ==> l !in p.indices[f]
  {
    var k := PickChain(rng, numCols, catCols, Noise).next;
    IndexGroupsDisjoint(index, rng.permutation(k, |index|), e, f);
  }

  // ---------------------------------------------------------------------------
  // Scaling

  /** `*= 100` on a numeric cell; NaN and NA stay as they are. */
  function Times100(v: Value): (r: Value)
  {
    if v.Num? then Num(100.0 * v.x) else v
  }

  /** `_inject_scaling`: the picked numeric columns of the given rows are multiplied by 100. */
  function Scaled(index: seq<RowKey>, rows: seq<Row>, labels: seq<RowKey>, cols: seq<ColName>): (r: seq<Row>)
    requires |index| == |rows|
    ensures |r| == |rows| && forall i :: 0 <= i < |rows| ==> r[i].Keys == rows[i].Keys
  {
    if cols == [] then rows else MapBlock(index, rows, labels, cols, Times100)
  }

  /** A scaled cell holds a hundred times its old number; every other cell is unchanged. (The
      method's description says ten.) */
  lemma ScalingMultiplies(index: seq<RowKey>, rows: seq<Row>, labels: seq<RowKey>, cols: seq<ColName>, i: nat, c: ColName)
    requires |index| == |rows| && i < |rows| && c in rows[i]
    ensures var r := Scaled(index, rows, labels, cols);
      && (index[i] in labels && c in cols && rows[i][c].Num? ==> r[i][c] == Num(100.0 * rows[i][c].x))
      && (index[i] !in labels || c !in cols || !rows[i][c].Num? ==> r[i][c] == rows[i][c])
  {
  }

  // ---------------------------------------------------------------------------
  // Shifting

  /** `Series.unique()`: the distinct values, NaN included, in order of first appearance. */
  function Unique(values: seq<Value>): (r: seq<Value>)
    ensures Distinct(r)
    ensures forall v :: v in r <==> v in values
    ensures |r| <= |values|
  {
    if values == [] then []
    else
      var u := Unique(values[..|values| - 1]);
      var v := values[|values| - 1];
      assert values == values[..|values| - 1] + [v];
      if v in u then u else u + [v]
  }

  /** The shifted value: `v`'s position among the distinct values, moved on by `offset`
      modulo their number. */
  function ShiftValue(u: seq<Value>, offset: int, v: Value): (r: Value)
  {
    if v in u then u[(PositionOf(u, v) + offset) % |u|] else v
  }

  function ShiftBy(u: seq<Value>, offset: int): Value -> Value
  {
    v => ShiftValue(u, offset, v)
  }

  /** An offset in [1, k) moves every one of k distinct values to another of them. */
  lemma ShiftChanges(u: seq<Value>, offset: int, v: Value)
    requires Distinct(u) && v in u && 1 <= offset < |u|
    ensures ShiftValue(u, offset, v) != v && ShiftValue(u, offset, v) in u
  {
    var j := PositionOf(u, v);
    Wrap(j + offset, |u|);
    assert (j + offset) % |u| != j;
  }

  /** Below twice the modulus, `%` subtracts it at most once. */
  lemma Wrap(a: int, n: int)
    requires 0 < n && 0 <= a < 2 * n
    ensures a % n == if a < n then a else a - n
  {
    if a >= n {
      assert a == n * 1 + (a - n);
    }
  }

  /** One column of `_inject_shifting`, at draw k: with fewer than two distinct values the
      column is skipped without a draw; otherwise one offset in [1, n) is drawn, n the number of
      distinct values, and every selected cell moves to the value that many places on. */
  function ShiftColumn(rng: Generator, index: seq<RowKey>, rows: seq<Row>, labels: seq<RowKey>, col: ColName, k: nat): (r: Corrupted)
    requires |index| == |rows| && forall i :: 0 <= i < |rows| ==> col in rows[i]
    ensures |r.rows| == |rows| && forall i :: 0 <= i < |rows| ==> r.rows[i].Keys == rows[i].Keys
    ensures k <= r.draws <= k + 1
  {
    var u := Unique(ColumnValues(rows, col));
    if |u| < 2 then Corrupted(rows, k)
    else Corrupted(MapColumn(index, rows, labels, col, ShiftBy(u, rng.integers(k, 1, |u|))), k + 1)
  }

  /** `_inject_shifting` over the columns `cols`, from draw k, one column after the other. */
  function Shifted(rng: Generator, index: seq<RowKey>, rows: seq<Row>, labels: seq<RowKey>, cols: seq<ColName>, k: nat): (r: Corrupted)
    requires rng.Sound() && |index| == |rows| && RowsHave(rows, cols)
    ensures |r.rows| == |rows| && forall i :: 0 <= i < |rows| ==> r.rows[i].Keys == rows[i].Keys
    ensures k <= r.draws <= k + |cols|
    decreases |cols|
  {
    if cols == [] then Corrupted(rows, k)
    else
      var m := |cols| - 1;
      PrefixHave(rows, cols, m);
      var before := Shifted(rng, index, rows, labels, cols[..m], k);
      ShiftColumn(rng, index, before.rows, labels, cols[m], before.draws)
  }

  /** Shifting touches only the selected cells of the picked columns. */
  lemma {:induction false} ShiftedKeeps(rng: Generator, index: seq<RowKey>, rows: seq<Row>, labels: seq<RowKey>, cols: seq<ColName>, k: nat, i: nat, c: ColName)
    requires rng.Sound() && |index| == |rows| && RowsHave(rows, cols)
    requires i < |rows| && c in rows[i] && (index[i] !in labels || c !in cols)
    ensures Shifted(rng, index, rows, labels, cols, k).rows[i][c] == rows[i][c]
  {
    if cols != [] {
      var m := |cols| - 1;
      PrefixHave(rows, cols, m);
      ShiftedKeeps(rng, index, rows, labels, cols[..m], k, i, c);
    }
  }

  /** Shifting one more column: the step of the shifting loop. */
  lemma ShiftedSnoc(rng: Generator, index: seq<RowKey>, rows: seq<Row>, labels: seq<RowKey>, cols: seq<ColName>, k: nat, j: nat)
    requires rng.Sound() && |index| == |rows| && RowsHave(rows, cols) && j < |cols|
    ensures RowsHave(rows, cols[..j]) && RowsHave(rows, cols[..j + 1])
    ensures var before := Shifted(rng, index, rows, labels, cols[..j], k);
      && (forall i :: 0 <= i < |rows| ==> cols[j] in before.rows[i])
      && Shifted(rng, index, rows, labels, cols[..j + 1], k) == ShiftColumn(rng, index, before.rows, labels, cols[j], before.draws)
  {
    TakeHave(rows, cols, j);
    TakeHave(rows, cols, j + 1);
    assert cols[..j + 1][..j] == cols[..j];
    assert cols[j] in cols;
  }

  /** With distinct columns, every selected cell of a shifted column with at least two distinct
      values ends up holding another of the column's values; a column with fewer is left as it
      was. */
  lemma {:induction false} ShiftedCellsDiffer(rng: Generator, index: seq<RowKey>, rows: seq<Row>, labels: seq<RowKey>, cols: seq<ColName>, k: nat)
    requires rng.Sound() && |index| == |rows| && RowsHave(rows, cols) && Distinct(cols)
    ensures forall i, c :: 0 <= i < |rows| && index[i] in labels && c in cols ==>
              var r := Shifted(rng, index, rows, labels, cols, k).rows[i][c];
              var values := ColumnValues(rows, c);
              && (|Unique(values)| < 2 ==> r == rows[i][c])
              && (|Unique(values)| >= 2 ==> r != rows[i][c] && r in values)
  {
    if cols != [] {
      var m := |cols| - 1;
      PrefixHave(rows, cols, m);
      assert Distinct(cols[..m]);
      ShiftedCellsDiffer(rng, index, rows, labels, cols[..m], k);
      var before := Shifted(rng, index, rows, labels, cols[..m], k);
      var last := cols[m];
      assert last !in cols[..m];
      forall i | 0 <= i < |rows|
        ensures last in rows[i] && before.rows[i][last] == rows[i][last]
      {
        ShiftedKeeps(rng, index, rows, labels, cols[..m], k, i, last);
      }
      SameColumn(rows, before.rows, last);
      var u := Unique(ColumnValues(before.rows, last));
      var r := Shifted(rng, index, rows, labels, cols, k);
      forall i, c | 0 <= i < |rows| && index[i] in labels && c in cols
        ensures var values := ColumnValues(rows, c);
          && (|Unique(values)| < 2 ==> r.rows[i][c] == rows[i][c])
          && (|Unique(values)| >= 2 ==> r.rows[i][c] != rows[i][c] && r.rows[i][c] in values)
      {
        if c == last {
          if |u| >= 2 {
            var offset := rng.integers(before.draws, 1, |u|);
            assert rows[i][c] == ColumnValues(rows, c)[i];
            ShiftChanges(u, offset, rows[i][c]);
          }
        } else {
          assert c in cols[..m];
        }
      }
    }
  }

  // ---------------------------------------------------------------------------
  // Missing values

  /** The placeholder `_inject_missing` writes: -1 in a numeric column, "?" in any other. */
  function MissingFor(numCols: seq<ColName>): ColName -> Value
  {
    c => if c in numCols then Num(-1.0) else Str("?")
  }

  /** Every selected cell of a picked column holds -1 when the column is numeric and "?"
      otherwise; every other cell is unchanged. */
  lemma MissingWritten(index: seq<RowKey>, rows: seq<Row>, labels: seq<RowKey>, cols: seq<ColName>, numCols: seq<ColName>, i: nat, c: ColName)
    requires |index| == |rows| && RowsHave(rows, cols) && i < |rows| && c in rows[i]
    ensures var r := FillCells(index, rows, labels, cols, MissingFor(numCols));
      && (index[i] in labels && c in cols && c in numCols ==> r[i][c] == Num(-1.0))
      && (index[i] in labels && c in cols && c !in numCols ==> r[i][c] == Str("?"))
      && (index[i] !in labels || c !in cols ==> r[i][c] == rows[i][c])
  {
    var r := FillCells(index, rows, labels, cols, MissingFor(numCols));
    FillCellsPointwise(index, rows, labels, cols, MissingFor(numCols));
    assert r[i][c] == Pick(Selected(index[i], labels, c, cols), MissingFor(numCols)(c), rows[i][c]);
  }

  // ---------------------------------------------------------------------------
  // Noise

  /** `cell + noise`: a number plus a number; NaN noise turns a number into NaN; NaN and NA
      cells stay as they are. */
  function AddNoise(v: Value, e: Value): (r: Value)
    ensures !v.Num? ==> r == v
  {
    if v.Num? && e.Num? then Num(v.x + e.x)
    else if v.Num? then NaN
    else v
  }

  /** The noise of draw k added to the cell of row l. */
  function NoiseFrom(rng: Generator, k: nat): (RowKey, Value) -> Value
  {
    (l: RowKey, v: Value) => AddNoise(v, rng.noise(k, l))
  }

  /** `_inject_noise` over the columns `cols`, from draw k: each column takes two draws. */
  function Noised(rng: Generator, index: seq<RowKey>, rows: seq<Row>, labels: seq<RowKey>, cols: seq<ColName>, k: nat): (r: seq<Row>)
    requires |index| == |rows| && RowsHave(rows, cols)
    ensures |r| == |rows| && forall i :: 0 <= i < |rows| ==> r[i].Keys == rows[i].Keys
    decreases |cols|
  {
    if cols == [] then rows
    else
      var m := |cols| - 1;
      PrefixHave(rows, cols, m);
      var before := Noised(rng, index, rows, labels, cols[..m], k);
      MapColumnAt(index, before, labels, cols[m], NoiseFrom(rng, k + 2 * m))
  }

  /** Noise reaches only the selected cells of the picked columns, and only those holding a
      number: NaN, NA and text cells keep their value. */
  lemma {:induction false} NoiseKeeps(rng: Generator, index: seq<RowKey>, rows: seq<Row>, labels: seq<RowKey>, cols: seq<ColName>, k: nat, i: nat, c: ColName)
    requires |index| == |rows| && RowsHave(rows, cols)
    requires i < |rows| && c in rows[i] && (index[i] !in labels || c !in cols || !rows[i][c].Num?)
    ensures Noised(rng, index, rows, labels, cols, k)[i][c] == rows[i][c]
  {
    if cols != [] {
      var m := |cols| - 1;
      PrefixHave(rows, cols, m);
      NoiseKeeps(rng, index, rows, labels, cols[..m], k, i, c);
      var before := Noised(rng, index, rows, labels, cols[..m], k);
      var f := NoiseFrom(rng, k + 2 * m);
      assert Noised(rng, index, rows, labels, cols, k) == MapColumnAt(index, before, labels, cols[m], f);
      MapColumnAtCell(index, before, labels, cols[m], f, i, c);
      assert f(index[i], before[i][c]) == AddNoise(before[i][c], rng.noise(k + 2 * m, index[i]));
    }
  }

  /** Adding noise to one more column: the step of the noise loop. */
  lemma NoisedSnoc(rng: Generator, index: seq<RowKey>, rows: seq<Row>, labels: seq<RowKey>, cols: seq<ColName>, k: nat, j: nat)
    requires |index| == |rows| && RowsHave(rows, cols) && j < |cols|
    ensures RowsHave(rows, cols[..j]) && RowsHave(rows, cols[..j + 1])
    ensures var before := Noised(rng, index, rows, labels, cols[..j], k);
      && (forall i :: 0 <= i < |rows| ==> cols[j] in before[i])
      && Noised(rng, index, rows, labels, cols[..j + 1], k) == MapColumnAt(index, before, labels, cols[j], NoiseFrom(rng, k + 2 * j))
  {
    TakeHave(rows, cols, j);
    TakeHave(rows, cols, j + 1);
    assert cols[..j + 1][..j] == cols[..j];
    assert cols[j] in cols;
  }

  /** In the j-th picked column, a selected cell gets the noise of draw k + 2 * j. */
  lemma {:induction false} NoiseAdds(rng: Generator, index: seq<RowKey>, rows: seq<Row>, labels: seq<RowKey>, cols: seq<ColName>, k: nat, i: nat, j: nat)
    requires |index| == |rows| && RowsHave(rows, cols) && Distinct(cols)
    requires i < |rows| && j < |cols| && index[i] in labels
    ensures var c := cols[j];
      c in rows[i] && Noised(rng, index, rows, labels, cols, k)[i][c] == AddNoise(rows[i][c], rng.noise(k + 2 * j, index[i]))
  {
    var m := |cols| - 1;
    var c := cols[j];
    PrefixHave(rows, cols, m);
    var before := Noised(rng, index, rows, labels, cols[..m], k);
    var f := NoiseFrom(rng, k + 2 * m);
    assert c in cols;
    assert c in rows[i] && before[i].Keys == rows[i].Keys;
    assert Noised(rng, index, rows, labels, cols, k) == MapColumnAt(index, before, labels, cols[m], f);
    MapColumnAtCell(index, before, labels, cols[m], f, i, c);
    if j == m {
      assert c !in cols[..m];
      NoiseKeeps(rng, index, rows, labels, cols[..m], k, i, c);
      assert f(index[i], before[i][c]) == AddNoise(before[i][c], rng.noise(k + 2 * m, index[i]));
    } else {
      assert Distinct(cols[..m]) && cols[..m][j] == c && c != cols[m];
      NoiseAdds(rng, index, rows, labels, cols[..m], k, i, j);
    }
  }

  // ---------------------------------------------------------------------------
  // Label flipping

  /** Python's `x != val`, under which NaN differs from everything, itself included. */
  predicate PyNe(x: Value, val: Value)
  {
    x.NaN? || val.NaN? || x != val
  }

  /** `[x for x in unique_labels if x != val]` */
  function Others(u: seq<Value>, val: Value): (r: seq<Value>)
    ensures forall x :: x in r <==> x in u && PyNe(x, val)
  {
    if u == [] then []
    else (if PyNe(u[0], val) then [u[0]] else []) + Others(u[1..], val)
  }

  /** All but at most one of k distinct labels are other than `val`. */
  lemma {:induction false} OthersCount(u: seq<Value>, val: Value)
    requires Distinct(u)
    ensures |Others(u, val)| + 1 >= |u|
    ensures val.NaN? ==> Others(u, val) == u
  {
    if u != [] {
      assert Distinct(u[1..]);
      OthersCount(u[1..], val);
      if !PyNe(u[0], val) {
        assert u[0] == val && val !in u[1..];
        OthersAll(u[1..], val);
      }
    }
  }

  lemma {:induction false} OthersAll(u: seq<Value>, val: Value)
    requires val !in u
    ensures Others(u, val) == u
  {
    if u != [] {
      OthersAll(u[1..], val);
    }
  }

  /** numpy's `choice(options)` first turns the list into an array. A list holding text and
      also numbers or NaN, and no other missing value, becomes an array of text; any other
      list keeps its items (an `NA` or `None` makes it an array of objects). */
  predicate TextMixed(options: seq<Value>)
  {
    HasText(options) && HasNumber(options) && !HasNA(options)
  }

  /** Some item is text. */
  predicate HasText(vs: seq<Value>)
  {
    vs != [] && (vs[0].Str? || HasText(vs[1..]))
  }

  /** Some item is a number or NaN. */
  predicate HasNumber(vs: seq<Value>)
  {
    vs != [] && (vs[0].Num? || vs[0].NaN? || HasNumber(vs[1..]))
  }

  /** Some item is `NA`. */
  predicate HasNA(vs: seq<Value>)
  {
    vs != [] && (vs[0].NA? || HasNA(vs[1..]))
  }

  /** Python's `str` of a label. */
  function TextOf(rng: Generator, v: Value): string
  {
    match v
    case Str(t) => t
    case Num(x) => rng.numberText(x)
    case NaN => "nan"
    case NA => "<NA>"
  }

  /** The items of `options` as an array of text holds them. */
  function Texts(rng: Generator, options: seq<Value>): (r: seq<string>)
    ensures |r| == |options| && forall j :: 0 <= j < |options| ==> r[j] == TextOf(rng, options[j])
  {
    seq(|options|, j requires 0 <= j < |options| => TextOf(rng, options[j]))
  }

  /** The option `v` as `choice` hands it back from the array made of `options`. */
  function Chosen(rng: Generator, options: seq<Value>, v: Value): Value
  {
    if TextMixed(options) then Str(TextOf(rng, v)) else v
  }

  /** `get_other_label(val)` at draw k: one of the other labels, as `choice` returns it. */
  function Flip(rng: Generator, u: seq<Value>, k: nat, val: Value): (r: Value)
  {
    var options := Others(u, val);
    var j := rng.pick(k, |options|);
    // With a sound generator and at least two labels, j is always a position of `options`.
    if j < |options| then Chosen(rng, options, options[j]) else val
  }

  /** Among at least two distinct labels: when the other labels are all text, all numbers or
      NaN, or hold an `NA`, the flip is one of them and differs from any label but NaN; when
      they mix text with numbers or NaN, the flip is the text of one of them, so a number or
      NaN label always changes. */
  lemma FlipOther(rng: Generator, u: seq<Value>, k: nat, val: Value)
    requires rng.Sound() && Distinct(u) && |u| >= 2
    ensures var r := Flip(rng, u, k, val);
      && (!TextMixed(Others(u, val)) ==> r in u && (!val.NaN? ==> r != val))
      && (TextMixed(Others(u, val)) ==> r.Str? && r.s in Texts(rng, Others(u, val)))
  {
    OthersCount(u, val);
    var options := Others(u, val);
    var j := rng.pick(k, |options|);
    assert j < |options| && options[j] in options;
    assert TextMixed(options) ==> Flip(rng, u, k, val).s == Texts(rng, options)[j];
  }

  /** numpy's coercion at work: with labels NaN, "a" and "b", flipping "a" may write the text
      "nan", which is no label of the column. */
  lemma FlipWritesNanText(rng: Generator)
    requires rng.pick(0, 2) == 0
    ensures Flip(rng, [NaN, Str("a"), Str("b")], 0, Str("a")) == Str("nan")
  {
    var u := [NaN, Str("a"), Str("b")];
    assert u[1..] == [Str("a"), Str("b")] && u[1..][1..] == [Str("b")] && [Str("b")][1..] == [];
    assert Others([Str("b")], Str("a")) == [Str("b")];
    assert Others([Str("a"), Str("b")], Str("a")) == [Str("b")];
    assert Others(u, Str("a")) == [NaN] + [Str("b")];
    MixedChoice(rng, Others(u, Str("a")));
  }

  /** With labels "nan", NaN and "b", flipping "nan" may write "nan" back: the label does not
      change. */
  lemma FlipKeepsNanText(rng: Generator)
    requires rng.pick(0, 2) == 0
    ensures Flip(rng, [Str("nan"), NaN, Str("b")], 0, Str("nan")) == Str("nan")
  {
    var u := [Str("nan"), NaN, Str("b")];
    assert u[1..] == [NaN, Str("b")] && u[1..][1..] == [Str("b")] && [Str("b")][1..] == [];
    assert Others([Str("b")], Str("nan")) == [Str("b")];
    assert Others([NaN, Str("b")], Str("nan")) == [NaN, Str("b")];
    MixedChoice(rng, Others(u, Str("nan")));
  }

  /** Drawing position 0 of the options NaN and "b" gives the text "nan". */
  lemma MixedChoice(rng: Generator, options: seq<Value>)
    requires options == [NaN, Str("b")]
    ensures Chosen(rng, options, options[0]) == Str("nan")
  {
    assert options[1..] == [Str("b")] && options[1..][1..] == [];
    assert HasText(options[1..]) && !HasNA(options[1..]);
  }

  /** The row labelled l is the j-th of `labels` and takes draw k + j. */
  function FlipFrom(rng: Generator, u: seq<Value>, k: nat, labels: seq<RowKey>): (RowKey, Value) -> Value
  {
    (l: RowKey, v: Value) => Flip(rng, u, k + (if l in labels then PositionOf(labels, l) else 0), v)
  }

  /** `_inject_label_flipping` on the target column, from draw k: with fewer than two distinct
      labels nothing happens; otherwise each selected row takes one draw. */
  function Flipped(rng: Generator, index: seq<RowKey>, rows: seq<Row>, labels: seq<RowKey>, target: ColName, k: nat): (r: Corrupted)
    requires |index| == |rows| && forall i :: 0 <= i < |rows| ==> target in rows[i]
    ensures |r.rows| == |rows| && forall i :: 0 <= i < |rows| ==> r.rows[i].Keys == rows[i].Keys
  {
    var u := Unique(ColumnValues(rows, target));
    if |u| < 2 then Corrupted(rows, k)
    else Corrupted(MapColumnAt(index, rows, labels, target, FlipFrom(rng, u, k, labels)), k + |labels|)
  }

  /** What flipping the label v among the column's values gives, by `FlipOther`: another label
      (or any label, for NaN) when the other labels do not mix text with numbers or NaN, and
      otherwise the text of one of the other labels. */
  predicate FlippedFrom(rng: Generator, values: seq<Value>, v: Value, r: Value)
  {
    var options := Others(Unique(values), v);
    && (!TextMixed(options) ==> r in values && (!v.NaN? ==> r != v))
    && (TextMixed(options) ==> r.Str? && r.s in Texts(rng, options))
  }

  /** `FlipOther` for the distinct labels of a column, stated on the column's values: the
      selected row labelled l, holding v, becomes r. */
  lemma FlipFromColumn(rng: Generator, values: seq<Value>, k: nat, labels: seq<RowKey>, l: RowKey, v: Value, r: Value)
    requires rng.Sound() && |Unique(values)| >= 2 && l in labels && r == FlipFrom(rng, Unique(values), k, labels)(l, v)
    ensures FlippedFrom(rng, values, v, r)
  {
    FlipFromAt(rng, Unique(values), k, labels, l, v);
    FlipOther(rng, Unique(values), k + PositionOf(labels, l), v);
  }

  /** With at least two distinct labels, every selected label is flipped as `FlippedFrom` says;
      with fewer, and outside the selected rows and the target column, nothing changes. */
  lemma FlippedLabelsDiffer(rng: Generator, index: seq<RowKey>, rows: seq<Row>, labels: seq<RowKey>, target: ColName, k: nat, i: nat, c: ColName)
    requires rng.Sound() && |index| == |rows| && forall j :: 0 <= j < |rows| ==> target in rows[j]
    requires i < |rows| && c in rows[i]
    ensures var r := Flipped(rng, index, rows, labels, target, k).rows[i][c];
      var values := ColumnValues(rows, target);
      && (index[i] !in labels || c != target || |Unique(values)| < 2 ==> r == rows[i][c])
      && (index[i] in labels && c == target && |Unique(values)| >= 2 ==> FlippedFrom(rng, values, rows[i][c], r))
  {
    var values := ColumnValues(rows, target);
    FlippedCell(rng, index, rows, labels, target, k, i, c);
    if index[i] in labels && c == target && |Unique(values)| >= 2 {
      FlipFromColumn(rng, values, k, labels, index[i], rows[i][c], Flipped(rng, index, rows, labels, target, k).rows[i][c]);
    }
  }

  /** The cell of row i and column c after `Flipped`: the flip of its label when the row is
      selected, the column is the target and there are two labels or more. */
  lemma FlippedCell(rng: Generator, index: seq<RowKey>, rows: seq<Row>, labels: seq<RowKey>, target: ColName, k: nat, i: nat, c: ColName)
    requires |index| == |rows| && forall j :: 0 <= j < |rows| ==> target in rows[j]
    requires i < |rows| && c in rows[i]
    ensures var u := Unique(ColumnValues(rows, target));
      Flipped(rng, index, rows, labels, target, k).rows[i][c] ==
        if index[i] in labels && c == target && |u| >= 2 then FlipFrom(rng, u, k, labels)(index[i], rows[i][c])
        else rows[i][c]
  {
    var u := Unique(ColumnValues(rows, target));
    if |u| >= 2 {
      MapColumnAtCell(index, rows, labels, target, FlipFrom(rng, u, k, labels), i, c);
    }
  }

  /** A selected row takes the draw of its position among the labels. */
  lemma FlipFromAt(rng: Generator, u: seq<Value>, k: nat, labels: seq<RowKey>, l: RowKey, v: Value)
    requires l in labels
    ensures FlipFrom(rng, u, k, labels)(l, v) == Flip(rng, u, k + PositionOf(labels, l), v)
  {
  }

  // ---------------------------------------------------------------------------
  // Corrupting

  /** What `__init__` leaves for the injections: the four column error types have columns,
      all drawn from `names`, and all five error types have rows. */
  ghost predicate Fits(targetCols: map<ErrorType, seq<ColName>>, indices: map<ErrorType, seq<RowKey>>, names: seq<ColName>)
  {
    && Scale in targetCols && Shift in targetCols && Missing in targetCols && Noise in targetCols
    && Scale in indices && Shift in indices && Missing in indices && Noise in indices && LabelFlip in indices
    && forall e, c :: e in targetCols && c in targetCols[e] ==> c in names
  }

  /** The plan of `__init__` fits the frame it was made from, and never picks the target. */
  lemma PlanFits(rng: Generator, t: Table, target: ColName)
    requires rng.Sound() && t.Valid()
    ensures var p := MakePlan(rng, t.index, FeatureColumns(t.columns, target, true), FeatureColumns(t.columns, target, false));
      && Fits(p.targetCols, p.indices, Names(t.columns))
      && forall e :: e in p.targetCols ==> target !in p.targetCols[e]
  {
    PlanAvoidsTarget(rng, t, target);
    var numCols := FeatureColumns(t.columns, target, true);
    var catCols := FeatureColumns(t.columns, target, false);
    var p := MakePlan(rng, t.index, numCols, catCols);
    var names := Names(t.columns);
    forall e, c | e in p.targetCols && c in p.targetCols[e]
      ensures c in names
    {
      PlanColumns(rng, t.index, numCols, catCols, e);
      assert c in numCols || c in catCols;
      var k :| 0 <= k < |t.columns| && t.columns[k].name == c;
      assert names[k] == c;
    }
    PlanRows(rng, t.index, numCols, catCols, Scale);
  }

  /** What an injection reads besides the frame itself: the generator, the frame's row labels
      and column names, what `__init__` picked, the numeric features and the target. */
  datatype Setting = Setting(
    rng: Generator,
    index: seq<RowKey>,
    names: seq<ColName>,
    targetCols: map<ErrorType, seq<ColName>>,
    indices: map<ErrorType, seq<RowKey>>,
    numCols: seq<ColName>,
    target: ColName)
  {
    ghost predicate Ok()
    {
      rng.Sound() && Fits(targetCols, indices, names) && target in names
    }

    /** Rows an injection can work on: one per label, each with exactly the frame's columns. */
    ghost predicate Fitted(rows: seq<Row>)
    {
      |rows| == |index| && RowsShaped(rows, names)
    }

    /** The columns error type `e` touches; label flipping touches only the target. */
    function Cols(e: ErrorType): seq<ColName>
    {
      if e in targetCols then targetCols[e] else []
    }
  }

  /** `_inject_<e>(df, indices[e])` on the rows of `c`, the generator at draw `c.draws`. */
  function Inject(s: Setting, e: ErrorType, c: Corrupted): (r: Corrupted)
    requires s.Ok() && s.Fitted(c.rows)
    ensures s.Fitted(r.rows) && c.draws <= r.draws
  {
    var cols := s.Cols(e);
    ShapedHave(c.rows, s.names, cols);
    var r := match e
      case Scale => Corrupted(Scaled(s.index, c.rows, s.indices[Scale], cols), c.draws)
      case Shift => Shifted(s.rng, s.index, c.rows, s.indices[Shift], cols, c.draws)
      case Noise => Corrupted(Noised(s.rng, s.index, c.rows, s.indices[Noise], cols, c.draws), c.draws + 2 * |cols|)
      case Missing => Corrupted(FillCells(s.index, c.rows, s.indices[Missing], cols, MissingFor(s.numCols)), c.draws)
      case LabelFlip => Flipped(s.rng, s.index, c.rows, s.indices[LabelFlip], s.target, c.draws);
    ShapedSameKeys(c.rows, r.rows, s.names);
    r
  }

  /** `if '<e>' in active_errors: df_curr = self._inject_<e>(...)` */
  function Step(s: Setting, e: ErrorType, active: seq<string>, c: Corrupted): (r: Corrupted)
    requires s.Ok() && s.Fitted(c.rows)
    ensures s.Fitted(r.rows) && c.draws <= r.draws
  {
    if e.Name() in active then Inject(s, e, c) else c
  }

  /** The target is never among the picked columns: the candidates are the other features. */
  lemma PlanAvoidsTarget(rng: Generator, t: Table, target: ColName)
    requires rng.Sound()
    ensures var p := MakePlan(rng, t.index, FeatureColumns(t.columns, target, true), FeatureColumns(t.columns, target, false));
      forall e :: e in p.targetCols ==> target !in p.targetCols[e]
  {
    var numCols := FeatureColumns(t.columns, target, true);
    var catCols := FeatureColumns(t.columns, target, false);
    var cols := TargetCols(rng, numCols, catCols);
    assert target !in numCols && target !in catCols;
    forall e | e in cols
      ensures target !in cols[e]
    {
      assert target !in Candidates(e, numCols, catCols);
    }
  }

  /** `get_corrupted_data(active_errors)` on the rows of the original frame, from draw k: the
      requested error types are injected into a copy in the fixed order scale, shift, noise,
      missing, label flip, whatever the order of the request. */
  function Corrupt(s: Setting, rows: seq<Row>, active: seq<string>, k: nat): (r: Corrupted)
    requires s.Ok() && s.Fitted(rows)
    ensures s.Fitted(r.rows) && k <= r.draws
  {
    var scaled := Step(s, Scale, active, Corrupted(rows, k));
    var shifted := Step(s, Shift, active, scaled);
    var noised := Step(s, Noise, active, shifted);
    var filled := Step(s, Missing, active, noised);
    Step(s, LabelFlip, active, filled)
  }

  /** Whether error type `e` may write the cell of row i in column `col`: the row is one of
      its rows and the column one of its columns (the target, for label flipping). */
  predicate Touches(s: Setting, e: ErrorType, i: nat, col: ColName)
  {
    && i < |s.index| && e in s.indices && s.index[i] in s.indices[e]
    && (if e == LabelFlip then col == s.target else col in s.Cols(e))
  }

  /** An injection leaves every cell it does not touch as it was. */
  lemma InjectKeeps(s: Setting, e: ErrorType, c: Corrupted, i: nat, col: ColName)
    requires s.Ok() && s.Fitted(c.rows) && i < |c.rows| && col in c.rows[i]
    requires !Touches(s, e, i, col)
    ensures col in Inject(s, e, c).rows[i] && Inject(s, e, c).rows[i][col] == c.rows[i][col]
  {
    var cols := s.Cols(e);
    ShapedHave(c.rows, s.names, cols);
    match e
    case Scale => ScalingMultiplies(s.index, c.rows, s.indices[Scale], cols, i, col);
    case Shift => ShiftedKeeps(s.rng, s.index, c.rows, s.indices[Shift], cols, c.draws, i, col);
    case Noise => NoiseKeeps(s.rng, s.index, c.rows, s.indices[Noise], cols, c.draws, i, col);
    case Missing => MissingWritten(s.index, c.rows, s.indices[Missing], cols, s.numCols, i, col);
    case LabelFlip => FlippedLabelsDiffer(s.rng, s.index, c.rows, s.indices[LabelFlip], s.target, c.draws, i, col);
  }

  /** A cell that no requested error type touches is the same in the corrupted copy as in the
      original; in particular, with no error type requested the copy equals the original and no
      draw is made. */
  lemma CorruptKeeps(s: Setting, rows: seq<Row>, active: seq<string>, k: nat, i: nat, col: ColName)
    requires s.Ok() && s.Fitted(rows) && i < |rows| && col in rows[i]
    requires forall e: ErrorType :: e.Name() in active ==> !Touches(s, e, i, col)
    ensures col in Corrupt(s, rows, active, k).rows[i] && Corrupt(s, rows, active, k).rows[i][col] == rows[i][col]
  {
    var c0 := Corrupted(rows, k);
    var c1 := Step(s, Scale, active, c0);
    var c2 := Step(s, Shift, active, c1);
    var c3 := Step(s, Noise, active, c2);
    var c4 := Step(s, Missing, active, c3);
    StepKeeps(s, Scale, active, c0, i, col);
    StepKeeps(s, Shift, active, c1, i, col);
    StepKeeps(s, Noise, active, c2, i, col);
    StepKeeps(s, Missing, active, c3, i, col);
    StepKeeps(s, LabelFlip, active, c4, i, col);
  }

  lemma StepKeeps(s: Setting, e: ErrorType, active: seq<string>, c: Corrupted, i: nat, col: ColName)
    requires s.Ok() && s.Fitted(c.rows) && i < |c.rows| && col in c.rows[i]
    requires e.Name() in active ==> !Touches(s, e, i, col)
    ensures col in Step(s, e, active, c).rows[i] && Step(s, e, active, c).rows[i][col] == c.rows[i][col]
  {
    if e.Name() in active {
      InjectKeeps(s, e, c, i, col);
    }
  }

  /** The target column keeps its values through scaling, shifting, noise and missing values
      when none of them picked it. */
  lemma TargetKeptBeforeFlip(s: Setting, rows: seq<Row>, active: seq<string>, k: nat)
    requires s.Ok() && s.Fitted(rows)
    requires forall e :: e in s.targetCols ==> s.target !in s.targetCols[e]
    ensures var c := Step(s, Missing, active, Step(s, Noise, active, Step(s, Shift, active, Step(s, Scale, active, Corrupted(rows, k)))));
      && (forall j :: 0 <= j < |rows| ==> s.target in c.rows[j] && c.rows[j][s.target] == rows[j][s.target])
      && ColumnValues(c.rows, s.target) == ColumnValues(rows, s.target)
  {
    var c0 := Corrupted(rows, k);
    var c1 := Step(s, Scale, active, c0);
    var c2 := Step(s, Shift, active, c1);
    var c3 := Step(s, Noise, active, c2);
    var c4 := Step(s, Missing, active, c3);
    forall j | 0 <= j < |rows|
      ensures s.target in c4.rows[j] && c4.rows[j][s.target] == rows[j][s.target]
    {
      StepKeeps(s, Scale, active, c0, j, s.target);
      StepKeeps(s, Shift, active, c1, j, s.target);
      StepKeeps(s, Noise, active, c2, j, s.target);
      StepKeeps(s, Missing, active, c3, j, s.target);
    }
    SameColumn(rows, c4.rows, s.target);
  }

  lemma NoiseInjected(s: Setting, c: Corrupted)
    requires s.Ok() && s.Fitted(c.rows) && RowsHave(c.rows, s.Cols(Noise))
    ensures Inject(s, Noise, c) == Corrupted(Noised(s.rng, s.index, c.rows, s.indices[Noise], s.Cols(Noise), c.draws), c.draws + 2 * |s.Cols(Noise)|)
  {
  }

  lemma MissingInjected(s: Setting, c: Corrupted)
    requires s.Ok() && s.Fitted(c.rows) && RowsHave(c.rows, s.Cols(Missing))
    ensures Inject(s, Missing, c) == Corrupted(FillCells(s.index, c.rows, s.indices[Missing], s.Cols(Missing), MissingFor(s.numCols)), c.draws)
  {
  }

  lemma FlipInjected(s: Setting, c: Corrupted)
    requires s.Ok() && s.Fitted(c.rows)
    ensures Inject(s, LabelFlip, c) == Flipped(s.rng, s.index, c.rows, s.indices[LabelFlip], s.target, c.draws)
  {
  }

  /** In the corrupted copy, every row chosen for label flipping holds its label flipped as
      `FlippedFrom` says, among the labels of the original target column, when the column has
      at least two distinct labels and no other error type picked the target. */
  lemma CorruptFlipsLabels(s: Setting, rows: seq<Row>, active: seq<string>, k: nat, i: nat)
    requires s.Ok() && s.Fitted(rows) && i < |rows|
    requires forall e :: e in s.targetCols ==> s.target !in s.targetCols[e]
    requires LabelFlip.Name() in active && s.index[i] in s.indices[LabelFlip]
    requires |Unique(ColumnValues(rows, s.target))| >= 2
    ensures s.target in rows[i] && s.target in Corrupt(s, rows, active, k).rows[i]
    ensures var r := Corrupt(s, rows, active, k).rows[i][s.target];
      FlippedFrom(s.rng, ColumnValues(rows, s.target), rows[i][s.target], r)
  {
    var c4 := Step(s, Missing, active, Step(s, Noise, active, Step(s, Shift, active, Step(s, Scale, active, Corrupted(rows, k)))));
    TargetKeptBeforeFlip(s, rows, active, k);
    assert Corrupt(s, rows, active, k) == Step(s, LabelFlip, active, c4) == Inject(s, LabelFlip, c4);
    FlipInjected(s, c4);
    FlippedLabelsDiffer(s.rng, s.index, c4.rows, s.indices[LabelFlip], s.target, c4.draws, i, s.target);
  }

  /** In the corrupted copy, every cell chosen for missing values holds the placeholder: -1 in
      a numeric column, "?" in any other; label flipping, which comes after, does not touch it
      when the target was not picked. */
  lemma CorruptMarksMissing(s: Setting, rows: seq<Row>, active: seq<string>, k: nat, i: nat, col: ColName)
    requires s.Ok() && s.Fitted(rows) && i < |rows|
    requires forall e :: e in s.targetCols ==> s.target !in s.targetCols[e]
    requires Missing.Name() in active && s.index[i] in s.indices[Missing] && col in s.targetCols[Missing]
    ensures col in Corrupt(s, rows, active, k).rows[i]
    ensures Corrupt(s, rows, active, k).rows[i][col] == if col in s.numCols then Num(-1.0) else Str("?")
  {
    var c3 := Step(s, Noise, active, Step(s, Shift, active, Step(s, Scale, active, Corrupted(rows, k))));
    var c4 := Step(s, Missing, active, c3);
    ShapedHave(c3.rows, s.names, s.targetCols[Missing]);
    assert col in c3.rows[i];
    MissingInjected(s, c3);
    MissingWritten(s.index, c3.rows, s.indices[Missing], s.targetCols[Missing], s.numCols, i, col);
    StepKeeps(s, LabelFlip, active, c4, i, col);
  }

  /** With no error type requested, the copy equals the original and no draw is made. */
  lemma CorruptNothing(s: Setting, rows: seq<Row>, active: seq<string>, k: nat)
    requires s.Ok() && s.Fitted(rows)
    requires forall e: ErrorType :: e.Name() !in active
    ensures Corrupt(s, rows, active, k) == Corrupted(rows, k)
  {
  }

  /** `DataCorruptor`: the original frame, the generator and what it picked at construction,
      and how many draws the generator has made since. */
  class DataCorruptor {
    const original: Frame
    const targetCol: ColName
    const seed: int
    /** `default_rng(seed)` */
    const rng: Generator
    const numCols: seq<ColName>
    const catCols: seq<ColName>
    const allCols: seq<ColName>
    const targetColsMap: map<ErrorType, seq<ColName>>
    const indices: map<ErrorType, seq<RowKey>>
    /** The generator's position: the next draw is number `draws`. */
    var draws: nat

    /** What the injections read besides the frame they work on. */
    function Setup(): Setting
      reads original
    {
      Setting(rng, original.index, original.ColumnNames(), targetColsMap, indices, numCols, targetCol)
    }

    ghost predicate Valid()
      reads original
    {
      original.Valid() && Setup().Ok()
    }

    /** The columns and rows were picked by `__init__` from the original frame. */
    ghost predicate Planned()
      reads original
    {
      && rng.Sound()
      && numCols == FeatureColumns(original.columns, targetCol, true)
      && catCols == FeatureColumns(original.columns, targetCol, false)
      && allCols == numCols + catCols
      && targetColsMap == MakePlan(rng, original.index, numCols, catCols).targetCols
      && indices == MakePlan(rng, original.index, numCols, catCols).indices
    }

    /** A frame the injections may work on: a valid copy of the original's shape. */
    ghost predicate Workable(df: Frame)
      reads original, df
    {
      df.Valid() && df != original && df.columns == original.columns && df.index == original.index
    }

    /** `DataCorruptor(df, target_col, seed)`, with `default_rng(seed)` given as `rng`. The
        target column must exist (see `NewDataCorruptor`). */
    constructor (df: Frame, targetCol: ColName, seed: int, rng: Generator)
      requires df.Valid() && rng.Sound() && targetCol in df.ColumnNames()
      ensures Valid() && Planned() && fresh(original) && original.Snapshot() == df.Snapshot()
      ensures this.targetCol == targetCol && this.seed == seed && this.rng == rng
      ensures draws == MakePlan(rng, df.index, numCols, catCols).draws
    {
      var num := FeatureColumns(df.columns, targetCol, true);
      var cat := FeatureColumns(df.columns, targetCol, false);
      var plan := MakePlan(rng, df.index, num, cat);
      PlanFits(rng, df.Snapshot(), targetCol);
      original := new Frame.Copy(df);
      this.targetCol := targetCol;
      this.seed := seed;
      this.rng := rng;
      numCols, catCols, allCols := num, cat, num + cat;
      targetColsMap, indices, draws := plan.targetCols, plan.indices, plan.draws;
      new;
      assert Setup() == Setting(rng, df.index, df.ColumnNames(), plan.targetCols, plan.indices, num, targetCol);
    }

    /** `_inject_scaling(df, indices)` */
    method InjectScaling(df: Frame, labels: seq<RowKey>)
      requires Valid() && Workable(df) && labels == indices[Scale]
      modifies df
      ensures Workable(df)
      ensures df.rows == Inject(Setup(), Scale, Corrupted(old(df.rows), draws)).rows
    {
      var cols := targetColsMap[Scale];
      if cols == [] {
        return;
      }
      df.MapBlockCells(labels, cols, Times100);
    }

    /** `_inject_shifting(df, indices)`: one column after the other. */
    method InjectShifting(df: Frame, labels: seq<RowKey>)
      requires Valid() && Workable(df) && labels == indices[Shift]
      modifies this`draws, df
      ensures Workable(df)
      ensures var r := Inject(Setup(), Shift, Corrupted(old(df.rows), old(draws)));
        df.rows == r.rows && draws == r.draws
    {
      var cols := targetColsMap[Shift];
      ghost var rows0, k0 := df.rows, draws;
      ShapedHave(df.rows, df.ColumnNames(), cols);
      for j := 0 to |cols|
        invariant Workable(df) && RowsHave(rows0, cols[..j])
        invariant var r := Shifted(rng, df.index, rows0, labels, cols[..j], k0);
          df.rows == r.rows && draws == r.draws
      {
        ShiftedSnoc(rng, df.index, rows0, labels, cols, k0, j);
        assert cols[j] in cols;
        ShiftOne(df, labels, cols[j]);
      }
      assert cols[..|cols|] == cols;
    }

    /** The body of the loop of `_inject_shifting`, for the column `col`. */
    method ShiftOne(df: Frame, labels: seq<RowKey>, col: ColName)
      requires Valid() && Workable(df) && col in df.ColumnNames()
      modifies this`draws, df
      ensures Workable(df)
      ensures var r := ShiftColumn(rng, old(df.index), old(df.rows), labels, col, old(draws));
        df.rows == r.rows && draws == r.draws
    {
      var u := Unique(ColumnValues(df.rows, col));
      if |u| < 2 {
        return;
      }
      var offset := rng.integers(draws, 1, |u|);
      draws := draws + 1;
      df.MapCells(labels, col, ShiftBy(u, offset));
    }

    /** `_inject_missing(df, indices)` */
    method InjectMissing(df: Frame, labels: seq<RowKey>)
      requires Valid() && Workable(df) && labels == indices[Missing]
      modifies df
      ensures Workable(df)
      ensures df.rows == Inject(Setup(), Missing, Corrupted(old(df.rows), draws)).rows
    {
      var cols := targetColsMap[Missing];
      ghost var rows0 := df.rows;
      ShapedHave(df.rows, df.ColumnNames(), cols);
      for j := 0 to |cols|
        invariant Workable(df) && RowsHave(rows0, cols[..j])
        invariant df.rows == FillCells(df.index, rows0, labels, cols[..j], MissingFor(numCols))
      {
        FillCellsSnoc(df.index, rows0, labels, cols, MissingFor(numCols), j);
        var col := cols[j];
        if col in numCols {
          df.SetCells(labels, col, Num(-1.0));
        } else {
          df.SetCells(labels, col, Str("?"));
        }
      }
      assert cols[..|cols|] == cols;
    }

    /** `_inject_noise(df, indices)`: each column takes a scale and a sample, two draws. */
    method InjectNoise(df: Frame, labels: seq<RowKey>)
      requires Valid() && Workable(df) && labels == indices[Noise]
      modifies this`draws, df
      ensures Workable(df)
      ensures var r := Inject(Setup(), Noise, Corrupted(old(df.rows), old(draws)));
        df.rows == r.rows && draws == r.draws
    {
      var cols := targetColsMap[Noise];
      ghost var rows0, k0 := df.rows, draws;
      ShapedHave(df.rows, df.ColumnNames(), cols);
      for j := 0 to |cols|
        invariant Workable(df) && RowsHave(rows0, cols[..j])
        invariant df.rows == Noised(rng, df.index, rows0, labels, cols[..j], k0)
        invariant draws == k0 + 2 * j
      {
        NoisedSnoc(rng, df.index, rows0, labels, cols, k0, j);
        var col := cols[j];
        var f := NoiseFrom(rng, draws);
        assert f == NoiseFrom(rng, k0 + 2 * j);
        ghost var before := df.rows;
        df.MapCellsAt(labels, col, f);
        assert df.rows == MapColumnAt(df.index, before, labels, col, f);
        draws := draws + 2;
      }
      assert cols[..|cols|] == cols;
      NoiseInjected(Setup(), Corrupted(rows0, k0));
    }

    /** `_inject_label_flipping(df, indices)`: each selected row draws its new label. */
    method InjectLabelFlipping(df: Frame, labels: seq<RowKey>)
      requires Valid() && Workable(df) && labels == indices[LabelFlip]
      modifies this`draws, df
      ensures Workable(df)
      ensures var r := Inject(Setup(), LabelFlip, Corrupted(old(df.rows), old(draws)));
        df.rows == r.rows && draws == r.draws
    {
      FlipInjected(Setup(), Corrupted(df.rows, draws));
      var u := Unique(ColumnValues(df.rows, targetCol));
      if |u| < 2 {
        return;
      }
      df.MapCellsAt(labels, targetCol, FlipFrom(rng, u, draws, labels));
      draws := draws + |labels|;
    }

    /** `get_corrupted_data(active_errors)`: a fresh copy of the original frame with the
        requested errors injected; the original is left as it was. */
    method GetCorruptedData(active: seq<string>) returns (df: Frame)
      requires Valid()
      modifies this`draws
      ensures fresh(df) && Workable(df)
      ensures var r := Corrupt(Setup(), original.rows, active, old(draws));
        df.rows == r.rows && draws == r.draws
    {
      df := new Frame.Copy(original);
      InjectIfActive(df, Scale, active);
      InjectIfActive(df, Shift, active);
      InjectIfActive(df, Noise, active);
      InjectIfActive(df, Missing, active);
      InjectIfActive(df, LabelFlip, active);
    }

    /** One line of `get_corrupted_data`: `if '<e>' in active_errors: df_curr = self._inject_<e>(df_curr, self.indices['<e>'])`. */
    method InjectIfActive(df: Frame, e: ErrorType, active: seq<string>)
      requires Valid() && Workable(df)
      modifies this`draws, df
      ensures Workable(df)
      ensures var r := Step(Setup(), e, active, Corrupted(old(df.rows), old(draws)));
        df.rows == r.rows && draws == r.draws
    {
      if e.Name() in active {
        match e
        case Scale => InjectScaling(df, indices[Scale]);
        case Shift => InjectShifting(df, indices[Shift]);
        case Noise => InjectNoise(df, indices[Noise]);
        case Missing => InjectMissing(df, indices[Missing]);
        case LabelFlip => InjectLabelFlipping(df, indices[LabelFlip]);
      }
    }
  }

  /** `DataCorruptor(df, target_col, seed)`, raising KeyError when `df` has no column
      `target_col` (the `drop` of the target fails). */
  method NewDataCorruptor(df: Frame, targetCol: ColName, seed: int, rng: Generator) returns (r: Result<DataCorruptor>)
    requires df.Valid() && rng.Sound()
    ensures r.Failure? <==> targetCol !in df.ColumnNames()
    ensures r.Failure? ==> r.error == KeyError
    ensures r.Success? ==> fresh(r.value) && fresh(r.value.original) && r.value.Valid() && r.value.Planned()
    ensures r.Success? ==> r.value.original.Snapshot() == df.Snapshot() && r.value.targetCol == targetCol
  {
    if targetCol !in df.ColumnNames() {
      return Failure(KeyError);
    }
    var c := new DataCorruptor(df, targetCol, seed, rng);
    return Success(c);
  }

  // ---------------------------------------------------------------------------
  // Cleaning

  /** `df.isin(placeholders).any(axis=1)` for one row. */
  predicate HasPlaceholder(row: Row, placeholders: seq<Value>)
  {
    exists c :: c in row && row[c] in placeholders
  }

  /** The positions of the rows without a placeholder, in order. */
  function CleanPositions(rows: seq<Row>, placeholders: seq<Value>): (r: seq<nat>)
    ensures forall j :: 0 <= j < |r| ==> r[j] < |rows|
    ensures forall j, j' :: 0 <= j < j' < |r| ==> r[j] < r[j']
    ensures forall i :: 0 <= i < |rows| ==> (i in r <==> !HasPlaceholder(rows[i], placeholders))
  {
    if rows == [] then []
    else
      var m := |rows| - 1;
      CleanPositions(rows[..m], placeholders) + (if HasPlaceholder(rows[m], placeholders) then [] else [m])
  }

  /** `clean_placeholder_rows(df, placeholders)`: the rows holding no placeholder, with their
      labels, in order. */
  function CleanPlaceholderRows(t: Table, placeholders: seq<Value>): (r: Table)
    requires t.Valid()
    ensures r.Valid() && r.columns == t.columns
    ensures var p := CleanPositions(t.rows, placeholders);
      |r.rows| == |p| && forall j :: 0 <= j < |p| ==> r.rows[j] == t.rows[p[j]] && r.index[j] == t.index[p[j]]
  {
    var p := CleanPositions(t.rows, placeholders);
    var rows := seq(|p|, j requires 0 <= j < |p| => t.rows[p[j]]);
    ShapedSubset(t.rows, rows, Names(t.columns));
    Table(t.columns, seq(|p|, j requires 0 <= j < |p| => t.index[p[j]]), rows)
  }

  /** A row is kept exactly when it holds no placeholder, so no kept row holds one. */
  lemma CleanKeepsExactly(t: Table, placeholders: seq<Value>)
    requires t.Valid()
    ensures forall j :: 0 <= j < |CleanPlaceholderRows(t, placeholders).rows| ==>
              !HasPlaceholder(CleanPlaceholderRows(t, placeholders).rows[j], placeholders)
    ensures forall i :: 0 <= i < |t.rows| ==>
              (!HasPlaceholder(t.rows[i], placeholders) <==> i in CleanPositions(t.rows, placeholders))
  {
  }

  /** Without any placeholder every position is kept. */
  lemma {:induction false} CleanPositionsAll(rows: seq<Row>, placeholders: seq<Value>)
    requires forall i :: 0 <= i < |rows| ==> !HasPlaceholder(rows[i], placeholders)
    ensures CleanPositions(rows, placeholders) == Reproducibility.Range(|rows|)
  {
    if rows != [] {
      var m := |rows| - 1;
      CleanPositionsAll(rows[..m], placeholders);
      assert Reproducibility.Range(|rows|) == Reproducibility.Range(m) + [m];
    }
  }

  /** Cleaning twice is cleaning once. */
  lemma CleanIdempotent(t: Table, placeholders: seq<Value>)
    requires t.Valid()
    ensures CleanPlaceholderRows(CleanPlaceholderRows(t, placeholders), placeholders) == CleanPlaceholderRows(t, placeholders)
  {
    var once := CleanPlaceholderRows(t, placeholders);
    CleanKeepsExactly(t, placeholders);
    CleanPositionsAll(once.rows, placeholders);
  }
}
