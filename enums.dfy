/** The experiment-level enums and their short names (`DataPerfectness.shortname`,
    `ExperimentType.shortname`), which name experiments in ids and storage paths. */
module Enums {
  import opened Wrappers
  import opened Text

  /** How clean the training data of an experiment is. */
  datatype DataPerfectness = Perfect | Imperfect | Semiperfect {
    function Value(): string
    {
      match this
      case Perfect => "perfect"
      case Imperfect => "imperfect"
      case Semiperfect => "semiperfect"
    }

    /** The member name, which is the upper-cased value. */
    function Name(): string
    {
      Upper(Value())
    }

    /** `shortname()`: three capitals for IMPERFECT, four for the others. */
    function ShortName(): (r: string)
      ensures |r| == (if this == Imperfect then 3 else 4)
      ensures r <= Name()
    {
      if this == Imperfect then Name()[..3] else Name()[..4]
    }
  }

  const AllPerfectness: seq<DataPerfectness> := [Perfect, Imperfect, Semiperfect]

  /** Reading a perfectness back from its short name. */
  function PerfectnessFromShortName(s: string): (r: Option<DataPerfectness>)
    ensures r.Some? ==> r.value.ShortName() == s
  {
    if s == Perfect.ShortName() then Some(Perfect)
    else if s == Imperfect.ShortName() then Some(Imperfect)
    else if s == Semiperfect.ShortName() then Some(Semiperfect)
    else None
  }

  /** The three short names are IMP, PERF and SEMI. */
  lemma PerfectnessShortNames()
    ensures Perfect.ShortName() == "PERF"
    ensures Imperfect.ShortName() == "IMP"
    ensures Semiperfect.ShortName() == "SEMI"
  {
    assert Perfect.Name() == "PERFECT";
    assert Imperfect.Name() == "IMPERFECT";
    assert Semiperfect.Name() == "SEMIPERFECT";
  }

  /** The short names tell the members apart, so decoding a short name gives the member back. */
  lemma PerfectnessShortNameRoundTrip(p: DataPerfectness)
    ensures PerfectnessFromShortName(p.ShortName()) == Some(p)
  {
    PerfectnessShortNames();
  }

  /** Pairwise distinct short names. */
  lemma PerfectnessShortNamesDistinct(p: DataPerfectness, q: DataPerfectness)
    requires p.ShortName() == q.ShortName()
    ensures p == q
  {
    PerfectnessShortNameRoundTrip(p);
    PerfectnessShortNameRoundTrip(q);
  }

  /** The kinds of single-table experiment. */
  datatype ExperimentType = Normal | Privacy | Augmentation | Rebalancing {
    function Value(): string
    {
      match this
      case Normal => "normal"
      case Privacy => "privacy"
      case Augmentation => "augmentation"
      case Rebalancing => "rebalancing"
    }

    /** `shortname()`: the first three letters of the value, in capitals. */
    function ShortName(): (r: string)
      ensures |r| == 3
      ensures r <= Upper(Value())
    {
      Upper(Value())[..3]
    }
  }

  function ExperimentTypeFromShortName(s: string): (r: Option<ExperimentType>)
    ensures r.Some? ==> r.value.ShortName() == s
  {
    if s == Normal.ShortName() then Some(Normal)
    else if s == Privacy.ShortName() then Some(Privacy)
    else if s == Augmentation.ShortName() then Some(Augmentation)
    else if s == Rebalancing.ShortName() then Some(Rebalancing)
    else None
  }

  /** The four short names are NOR, PRI, AUG and REB. */
  lemma ExperimentShortNames()
    ensures Normal.ShortName() == "NOR"
    ensures Privacy.ShortName() == "PRI"
    ensures Augmentation.ShortName() == "AUG"
    ensures Rebalancing.ShortName() == "REB"
  {
    assert Upper(Normal.Value())[..3] == "NOR";
    assert Upper(Privacy.Value())[..3] == "PRI";
    assert Upper(Augmentation.Value())[..3] == "AUG";
    assert Upper(Rebalancing.Value())[..3] == "REB";
  }

  lemma ExperimentShortNameRoundTrip(t: ExperimentType)
    ensures ExperimentTypeFromShortName(t.ShortName()) == Some(t)
  {
    ExperimentShortNames();
  }

  lemma ExperimentShortNamesDistinct(t: ExperimentType, u: ExperimentType)
    requires t.ShortName() == u.ShortName()
    ensures t == u
  {
    ExperimentShortNameRoundTrip(t);
    ExperimentShortNameRoundTrip(u);
  }
}
