/** The identity of a multi-table experiment: seven '#'-joined parts with a NULL sentinel
    for what is absent, and the '/'-joined storage prefix that leaves the sentinels out. */
module MultiExperiments {
  import opened Wrappers
  import opened Text
  import opened Enums
  import opened Minio
  import Reproducibility

  const Null: string := "NULL"
  const Delimiter: char := '#'

  /** The settings an experiment id is built from. The data error is given by its rendered
      name; the perfectness is the enum member. */
  datatype MultiExperiment = MultiExperiment(
    dataset: string,
    generator: string,
    dropUnknownReferences: bool,
    dataError: Option<string>,
    dataErrorRate: Option<real>,
    dataPerfectness: DataPerfectness)

  /** `str()` of a plain `Enum` member: the class name, a dot and the member name. */
  function PerfectnessStr(p: DataPerfectness): (r: string)
    ensures forall k :: 0 <= k < |r| ==> r[k] != '#' && r[k] != '/'
  {
    "DataPerfectness." + p.Name()
  }

  /** `str(seed)`, where an unset seed prints as None. */
  function SeedStr(seed: Option<int>): (r: string)
    ensures forall k :: 0 <= k < |r| ==> r[k] != '#' && r[k] != '/'
  {
    if seed.None? then "None" else IntToString(seed.value)
  }

  /** Python truthiness of the rate: None and 0.0 are falsy. */
  predicate RateTruthy(rate: Option<real>)
  {
    rate.Some? && rate.value != 0.0
  }

  /** The rate as a whole percentage, `int(rate * 100)`. */
  function Percent(rate: real): int
  {
    Reproducibility.PyInt(rate * 100.0)
  }

  /** The rate part: the whole percentage when the rate is truthy, NULL otherwise. */
  function RateStr(rate: Option<real>): (r: string)
    ensures !RateTruthy(rate) ==> r == Null
    ensures RateTruthy(rate) ==> ParseInt(r) == Some(Percent(rate.value))
    ensures forall k :: 0 <= k < |r| ==> r[k] != '#' && r[k] != '/'
  {
    if RateTruthy(rate) then
      IntToStringRoundTrip(Percent(rate.value));
      IntToString(Percent(rate.value))
    else Null
  }

  /** `_get_experiment_id_parts()`, given the experiment kind's short name and the current seed. */
  function ExperimentIdParts(e: MultiExperiment, shortName: string, seed: Option<int>): (r: seq<string>)
    ensures |r| == 7
    ensures r[0] == shortName && r[1] == e.dataset && r[2] == SeedStr(seed)
    ensures r[3] == PerfectnessStr(e.dataPerfectness) && r[6] == e.generator
    ensures e.dataError.None? ==> r[4] == Null
    ensures e.dataError.Some? ==> r[4] == e.dataError.value
    ensures r[5] == RateStr(e.dataErrorRate)
  {
    [ shortName,
      e.dataset,
      SeedStr(seed),
      PerfectnessStr(e.dataPerfectness),
      if e.dataError.Some? then e.dataError.value else Null,
      RateStr(e.dataErrorRate),
      e.generator ]
  }

  /** `str(experiment)` */
  function ExperimentId(e: MultiExperiment, shortName: string, seed: Option<int>): string
  {
    Join(ExperimentIdParts(e, shortName, seed), Delimiter)
  }

  /** `minio_path()`: the DATA folder, then the parts, with every NULL part dropped. */
  function MinioPath(e: MultiExperiment, shortName: string, seed: Option<int>): string
  {
    CreatePrefix([Folder(DataFolder)] + Plains(ExperimentIdParts(e, shortName, seed)), Some(Plain(Null)))
  }

  function Plains(parts: seq<string>): (r: seq<PathItem>)
    ensures |r| == |parts| && forall i :: 0 <= i < |parts| ==> r[i] == Plain(parts[i])
  {
    seq(|parts|, i requires 0 <= i < |parts| => Plain(parts[i]))
  }

  /** The parts that are not the NULL sentinel, in order. */
  function NonNull(parts: seq<string>): (r: seq<string>)
    ensures forall p :: p in r <==> p in parts && p != Null
  {
    if parts == [] then []
    else (if parts[0] == Null then [] else [parts[0]]) + NonNull(parts[1..])
  }

  /** None of the free-text settings contains `c`. */
  predicate FreeOf(e: MultiExperiment, shortName: string, c: char)
  {
    c !in shortName && c !in e.dataset && c !in e.generator && (e.dataError.Some? ==> c !in e.dataError.value)
  }

  // ---------------------------------------------------------------------------
  // Properties

  /** Splitting the id on '#' gives back the seven parts when no setting contains '#'. */
  lemma ExperimentIdSplits(e: MultiExperiment, shortName: string, seed: Option<int>)
    requires FreeOf(e, shortName, '#')
    ensures Split(ExperimentId(e, shortName, seed), Delimiter) == ExperimentIdParts(e, shortName, seed)
  {
    IdPartsFreeOf(e, shortName, seed, '#');
    SplitJoin(ExperimentIdParts(e, shortName, seed), Delimiter);
  }

  /** The storage prefix is 'data' followed by the non-NULL parts: it splits back into them
      and holds one '/' per non-NULL part. */
  lemma MinioPathParts(e: MultiExperiment, shortName: string, seed: Option<int>)
    requires FreeOf(e, shortName, '/')
    ensures Split(MinioPath(e, shortName, seed), '/') == ["data"] + NonNull(ExperimentIdParts(e, shortName, seed))
    ensures Occurrences(MinioPath(e, shortName, seed), '/') == |NonNull(ExperimentIdParts(e, shortName, seed))|
  {
    var parts := ExperimentIdParts(e, shortName, seed);
    IdPartsFreeOf(e, shortName, seed, '/');
    DataPrefixParts(parts);
  }

  /** The 'data' folder followed by separator-free plain parts, with NULL ignored. */
  lemma DataPrefixParts(parts: seq<string>)
    requires NoneContains(parts, '/')
    ensures var path := CreatePrefix([Folder(DataFolder)] + Plains(parts), Some(Plain(Null)));
      && Split(path, '/') == ["data"] + NonNull(parts)
      && Occurrences(path, '/') == |NonNull(parts)|
  {
    var items := [Folder(DataFolder)] + Plains(parts);
    DataPrefixKept(parts);
    DataPrefixNoSlash(parts);
    CreatePrefixParts(items, Some(Plain(Null)));
    CreatePrefixSeparators(items, Some(Plain(Null)));
  }

  /** What the prefix keeps: 'data', then the non-NULL parts. */
  lemma DataPrefixKept(parts: seq<string>)
    ensures Strs(Kept([Folder(DataFolder)] + Plains(parts), Some(Plain(Null)))) == ["data"] + NonNull(parts)
  {
    WithoutAppend([Folder(DataFolder)], Plains(parts), Plain(Null));
    WithoutPlains(parts);
    var rest := Without(Plains(parts), Plain(Null));
    assert Kept([Folder(DataFolder)] + Plains(parts), Some(Plain(Null))) == [Folder(DataFolder)] + rest;
    assert Strs([Folder(DataFolder)] + rest) == ["data"] + Strs(rest);
  }

  lemma DataPrefixNoSlash(parts: seq<string>)
    requires NoneContains(parts, '/')
    ensures NoSlash([Folder(DataFolder)] + Plains(parts))
  {
    var items := [Folder(DataFolder)] + Plains(parts);
    forall i | 0 <= i < |items|
      ensures '/' !in Strs(items)[i]
    {
      if i > 0 {
        assert items[i] == Plain(parts[i - 1]);
      }
    }
  }

  /** Each part is free of a character the settings are free of ('#' or '/'). */
  lemma IdPartsFreeOf(e: MultiExperiment, shortName: string, seed: Option<int>, c: char)
    requires c == '#' || c == '/'
    requires FreeOf(e, shortName, c)
    ensures NoneContains(ExperimentIdParts(e, shortName, seed), c)
  {
    var parts := ExperimentIdParts(e, shortName, seed);
    assert c !in SeedStr(seed) && c !in PerfectnessStr(e.dataPerfectness);
    assert c !in Null && c !in RateStr(e.dataErrorRate);
  }

  /** Dropping the NULL item from plain strings drops the NULL strings. */
  lemma {:induction false} WithoutPlains(parts: seq<string>)
    ensures Strs(Without(Plains(parts), Plain(Null))) == NonNull(parts)
  {
    if parts != [] {
      WithoutPlains(parts[1..]);
      assert Plains(parts)[1..] == Plains(parts[1..]);
      var tail := Without(Plains(parts[1..]), Plain(Null));
      if parts[0] != Null {
        assert Strs([Plain(parts[0])] + tail) == [parts[0]] + Strs(tail);
      }
    }
  }
}
