/** The seeded random façade (`ReproducibleOperations`): one process-wide seed, re-applied to
    numpy's global generator before every draw, so that a draw is a function of the seed and
    the call's arguments. numpy itself is an oracle constrained only by sizes and membership. */
module Reproducibility {
  import opened Wrappers
  import opened Frames

  /** `0, 1, ..., n-1`: the positions of `RangeIndex(n)`. */
  function Range(n: nat): (r: seq<nat>)
    ensures |r| == n && forall i :: 0 <= i < n ==> r[i] == i
  {
    RangeIndex(n)
  }

  predicate InRange(p: seq<nat>, n: nat)
  {
    forall i :: 0 <= i < |p| ==> p[i] < n
  }

  /** `p` lists every position below `n` exactly once. */
  ghost predicate IsPermutation(p: seq<nat>, n: nat)
  {
    |p| == n && InRange(p, n) && Distinct(p) && multiset(p) == multiset(Range(n))
  }

  /** `s` reordered by the positions `p` (numpy fancy indexing `s[p]`). */
  function Apply<T>(s: seq<T>, p: seq<nat>): (r: seq<T>)
    requires InRange(p, |s|)
    ensures |r| == |p| && forall i :: 0 <= i < |p| ==> r[i] == s[p[i]]
  {
    seq(|p|, i requires 0 <= i < |p| => s[p[i]])
  }

  /** numpy's legacy global generator after `np.random.seed(seed)`: the positions drawn by
      `permutation(n)` and by `randint(0, n, size=k)`. */
  datatype Numpy = Numpy(permutation: (int, nat) -> seq<nat>, randint: (int, nat, nat) -> seq<nat>) {
    ghost predicate Sound()
    {
      && (forall seed: int, n: nat :: IsPermutation(permutation(seed, n), n))
      && (forall seed: int, n: nat, k: nat :: |randint(seed, n, k)| == k)
      && (forall seed: int, n: nat, k: nat :: n > 0 ==> InRange(randint(seed, n, k), n))
    }
  }

  /** A generator that never reorders and always draws position 0: it meets the oracle
      assumptions, so they are consistent. */
  function IdentityNumpy(): (np: Numpy)
    ensures forall seed: int, n: nat :: np.permutation(seed, n) == Range(n)
  {
    Numpy((seed: int, n: nat) => Range(n), (seed: int, n: nat, k: nat) => seq(k, _ => 0))
  }

  lemma IdentityNumpySound()
    ensures IdentityNumpy().Sound()
  {
    var np := IdentityNumpy();
    forall seed: int, n: nat
      ensures IsPermutation(np.permutation(seed, n), n)
    {
      assert np.permutation(seed, n) == Range(n);
    }
  }

  /** numpy accepts seeds in [0, 2^32). */
  const SeedBound: int := 0x1_0000_0000

  /** The class-level seed together with the generator it drives. */
  datatype SeedState = SeedState(seed: Option<int>, numpy: Numpy) {
    /** `_ensure_reproducibility`: a falsy seed (unset or 0) is refused; numpy refuses a seed
        outside its range. On success, the seed the generator was reset to. */
    function EnsureReproducibility(): (r: Result<int>)
      ensures r.Success? ==> seed == Some(r.value) && 0 < r.value < SeedBound
      ensures r.Failure? && (seed.None? || seed == Some(0)) ==> r.error == ReproducibilityError
    {
      if seed.None? || seed.value == 0 then Failure(ReproducibilityError)
      else if seed.value < 0 || seed.value >= SeedBound then Failure(ValueError)
      else Success(seed.value)
    }

    predicate Seeded()
    {
      EnsureReproducibility().Success?
    }
  }

  /** Python's `int(x)` on a float: truncation toward zero. */
  function PyInt(x: real): (r: int)
    ensures x >= 0.0 ==> r as real <= x < r as real + 1.0
    ensures x < 0.0 ==> r as real - 1.0 < x <= r as real
  {
    if x >= 0.0 then x.Floor else -((-x).Floor)
  }

  function Max(a: int, b: int): int
  {
    if a >= b then a else b
  }

  /** `sample_from(elements, how_many, at_least, sampling_with_replacement)`. */
  function SampleFrom<T>(st: SeedState, elements: seq<T>, howMany: real, atLeast: int, replace: bool): (r: Result<seq<T>>)
    requires st.numpy.Sound()
    ensures elements == [] ==> r == Success([])
    ensures elements != [] && !st.Seeded() ==> r == Failure(st.EnsureReproducibility().error)
    ensures elements != [] && st.Seeded() ==>
              (r.Success? <==> 0 <= Max(PyInt(howMany), atLeast) && (replace || Max(PyInt(howMany), atLeast) <= |elements|))
    ensures r.Success? && elements != [] ==> |r.value| == Max(PyInt(howMany), atLeast)
    ensures r.Success? ==> forall x :: x in r.value ==> x in elements
    ensures r.Success? && !replace ==> multiset(r.value) <= multiset(elements)
    ensures r.Failure? && elements != [] && st.Seeded() ==> r.error == ValueError
  {
    if elements == [] then Success([])
    else
      match st.EnsureReproducibility()
      case Failure(e) => Failure(e)
      case Success(seed) =>
        var size := Max(PyInt(howMany), atLeast);
        var n := |elements|;
        if size < 0 then Failure(ValueError)
        else if replace then
          Success(Apply(elements, st.numpy.randint(seed, n, size)))
        else if size > n then Failure(ValueError)
        else
          var p := st.numpy.permutation(seed, n);
          ApplyPermutation(elements, p);
          PrefixSubMultiset(Apply(elements, p), size);
          assert Apply(elements, p[..size]) == Apply(elements, p)[..size];
          Success(Apply(elements, p[..size]))
  }

  /** `permutation(x)`: the same elements in a seed-determined order. */
  function Permutation<T>(st: SeedState, x: seq<T>): (r: Result<seq<T>>)
    requires st.numpy.Sound()
    ensures r.Failure? <==> !st.Seeded()
    ensures r.Failure? ==> r.error == st.EnsureReproducibility().error
    ensures r.Success? ==> |r.value| == |x| && multiset(r.value) == multiset(x)
    ensures r.Success? && Distinct(x) ==> Distinct(r.value)
  {
    match st.EnsureReproducibility()
    case Failure(e) => Failure(e)
    case Success(seed) =>
      var p := st.numpy.permutation(seed, |x|);
      ApplyPermutation(x, p);
      Success(Apply(x, p))
  }

  /** `shuffle_reindex_dataframe(df)`: `df.sample(frac=1)` draws the row order as numpy's
      `choice(n, n, replace=False)`, then `reset_index(drop=True)` installs 0..n-1. */
  function ShuffleReindexDataframe(st: SeedState, df: Table): (r: Result<Table>)
    requires st.numpy.Sound() && df.Valid()
    ensures r.Failure? <==> !st.Seeded()
    ensures r.Failure? ==> r.error == st.EnsureReproducibility().error
    ensures r.Success? ==> r.value.Valid() && r.value.columns == df.columns
    ensures r.Success? ==> r.value.index == RangeIndex(|df.rows|)
    ensures r.Success? ==> multiset(r.value.rows) == multiset(df.rows)
  {
    match Permutation(st, df.rows)
    case Failure(e) => Failure(e)
    case Success(rows) =>
      assert forall i :: 0 <= i < |rows| ==> rows[i] in multiset(df.rows);
      Success(Table(df.columns, RangeIndex(|rows|), rows))
  }

  // ---------------------------------------------------------------------------
  // Multiset facts about reordering

  lemma {:induction false} ApplyRange<T>(s: seq<T>)
    ensures Apply(s, Range(|s|)) == s
  {
  }

  lemma RemoveAt(q: seq<nat>, j: nat)
    requires j < |q|
    ensures multiset(q[..j] + q[j + 1..]) == multiset(q) - multiset{q[j]}
  {
    assert q == q[..j] + [q[j]] + q[j + 1..];
  }

  lemma ApplyConcat<T>(s: seq<T>, p1: seq<nat>, p2: seq<nat>)
    requires InRange(p1, |s|) && InRange(p2, |s|)
    ensures InRange(p1 + p2, |s|)
    ensures Apply(s, p1 + p2) == Apply(s, p1) + Apply(s, p2)
  {
  }

  /** Taking position `j` out of `q` takes one `s[q[j]]` out of what `q` reads. */
  lemma ApplyRemoveAt<T>(s: seq<T>, q: seq<nat>, j: nat)
    requires InRange(q, |s|) && j < |q|
    ensures InRange(q[..j] + q[j + 1..], |s|)
    ensures multiset(Apply(s, q)) == multiset(Apply(s, q[..j] + q[j + 1..])) + multiset{s[q[j]]}
  {
    assert q == q[..j] + [q[j]] + q[j + 1..];
    ApplyConcat(s, q[..j], [q[j]]);
    ApplyConcat(s, q[..j] + [q[j]], q[j + 1..]);
    ApplyConcat(s, q[..j], q[j + 1..]);
  }

  /** Reading `s` at two position lists with the same multiset gives the same multiset. */
  lemma {:induction false} ApplySameMultiset<T>(s: seq<T>, p: seq<nat>, q: seq<nat>)
    requires InRange(p, |s|) && InRange(q, |s|) && multiset(p) == multiset(q)
    ensures multiset(Apply(s, p)) == multiset(Apply(s, q))
    decreases |p|
  {
    if |p| == 0 {
      assert |q| == |multiset(q)| == 0;
    } else {
      var j := MatchFirst(p, q);
      ApplyRemoveAt(s, p, 0);
      ApplyRemoveAt(s, q, j);
      ApplySameMultiset(s, p[..0] + p[1..], q[..j] + q[j + 1..]);
    }
  }

  /** A position of `q` holding the first entry of `p`; removing both keeps the multisets equal. */
  lemma MatchFirst(p: seq<nat>, q: seq<nat>) returns (j: nat)
    requires |p| > 0 && multiset(p) == multiset(q)
    ensures j < |q| && q[j] == p[0]
    ensures multiset(p[..0] + p[1..]) == multiset(q[..j] + q[j + 1..])
  {
    assert p[0] in multiset(q);
    j :| 0 <= j < |q| && q[j] == p[0];
    RemoveAt(q, j);
    RemoveAt(p, 0);
  }

  /** Reordering by a permutation keeps the multiset of elements. */
  lemma ApplyPermutation<T>(s: seq<T>, p: seq<nat>)
    requires IsPermutation(p, |s|)
    ensures multiset(Apply(s, p)) == multiset(s)
  {
    ApplySameMultiset(s, p, Range(|s|));
    ApplyRange(s);
  }

  lemma PrefixSubMultiset<T>(s: seq<T>, k: nat)
    requires k <= |s|
    ensures multiset(s[..k]) <= multiset(s)
  {
    assert s == s[..k] + s[k..];
  }

  // ---------------------------------------------------------------------------
  // The singleton

  /** The class-level seed of `ReproducibleOperations`. */
  class ReproducibleOperations {
    var randomSeed: Option<int>
    const numpy: Numpy

    ghost predicate Valid()
      reads this
    {
      numpy.Sound()
    }

    /** The seed starts unset. */
    constructor (numpy: Numpy)
      requires numpy.Sound()
      ensures Valid() && randomSeed == None && this.numpy == numpy
      ensures !State().Seeded()
    {
      randomSeed := None;
      this.numpy := numpy;
    }

    function State(): SeedState
      reads this
    {
      SeedState(randomSeed, numpy)
    }

    /** `set_random_seed(seed)`: replaces whatever was stored. */
    method SetRandomSeed(seed: int)
      modifies this
      ensures randomSeed == Some(seed)
      ensures GetCurrentRandomSeed() == Some(seed)
      ensures State().Seeded() <==> 0 < seed < SeedBound
    {
      randomSeed := Some(seed);
    }

    /** `get_current_random_seed()` */
    function GetCurrentRandomSeed(): (r: Option<int>)
      reads this
      ensures r == State().seed
    {
      randomSeed
    }
  }
}
