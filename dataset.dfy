/** How a dataset is prepared for an experiment: the request is validated, then the split,
    pollution and post-processing functions are looked up by experiment type and perfectness.
    The functions themselves are stubs; the model records which ones are applied, in order. */
module Datasets {
  import opened Wrappers
  import opened Enums

  /** A dictionary key as Python sees it: members of the two enums never compare equal to each
      other, nor to anything else a caller might pass. */
  datatype Key = ExperimentKey(t: ExperimentType) | PerfectnessKey(p: DataPerfectness) | OtherKey(name: string)

  /** The post-processing `_get_perfectness_to_functions_mapping` names. */
  datatype PostProcessing = NoPostProcessing | ConstructSemiPerfect

  /** One function application of the preparation. */
  datatype Step = SplitFor(t: ExperimentType) | PolluteFor(t: ExperimentType) | PostProcess(p: PostProcessing)

  /** `_get_experiment_type_to_functions_mapping()`: the prepare and pollute functions of each
      experiment type. */
  function ExperimentTypeFunctions(): (m: map<Key, (Step, Step)>)
    ensures forall k :: k in m ==> k.ExperimentKey?
    ensures forall k :: k in m ==> m[k] == (SplitFor(k.t), PolluteFor(k.t))
  {
    map k | k in [ExperimentKey(Normal), ExperimentKey(Privacy), ExperimentKey(Augmentation), ExperimentKey(Rebalancing)]
      :: (SplitFor(k.t), PolluteFor(k.t))
  }

  /** `_get_perfectness_to_functions_mapping()` */
  function PerfectnessFunctions(): (m: map<Key, PostProcessing>)
    ensures forall k :: k in m ==> k.PerfectnessKey?
    ensures forall k :: k in m ==> m[k] == if k.p == Semiperfect then ConstructSemiPerfect else NoPostProcessing
  {
    map k | k in [PerfectnessKey(Perfect), PerfectnessKey(Imperfect), PerfectnessKey(Semiperfect)]
      :: if k.p == Semiperfect then ConstructSemiPerfect else NoPostProcessing
  }

  /** `_prepare_data_for_experiment` as written: after polluting, the perfectness is looked up
      in the experiment-type mapping, which never holds it. */
  function PrepareAsWritten(experimentType: Key, perfectness: DataPerfectness, hasDataError: bool): (r: Result<seq<Step>>)
    ensures experimentType !in ExperimentTypeFunctions() ==> r == Failure(NotImplementedError)
  {
    var functions := ExperimentTypeFunctions();
    if experimentType !in functions then Failure(NotImplementedError)
    else
      var (split, pollute) := functions[experimentType];
      if !hasDataError || perfectness == Perfect then Success([split])
      else if PerfectnessKey(perfectness) !in functions then Failure(NotImplementedError)
      // Reached only if the lookup succeeded: the value found is a dict, and calling it fails.
      else Failure(TypeError)
  }

  /** `_prepare_data_for_experiment` with the post-processing looked up in the perfectness
      mapping, as the error message and the mapping's existence intend. */
  function Prepare(experimentType: Key, perfectness: DataPerfectness, hasDataError: bool): (r: Result<seq<Step>>)
    ensures experimentType !in ExperimentTypeFunctions() ==> r == Failure(NotImplementedError)
  {
    var functions := ExperimentTypeFunctions();
    if experimentType !in functions then Failure(NotImplementedError)
    else
      var (split, pollute) := functions[experimentType];
      if !hasDataError || perfectness == Perfect then Success([split])
      else
        var post := PerfectnessFunctions();
        if PerfectnessKey(perfectness) !in post then Failure(NotImplementedError)
        else Success([split, pollute, PostProcess(post[PerfectnessKey(perfectness)])])
  }

  /** The request checks of `fetch_split_data_for_experiment`: a missing perfectness means
      PERFECT, and a data error must come with a non-PERFECT perfectness and vice versa. On
      success, the perfectness to prepare. */
  function Validate(perfectness: Option<DataPerfectness>, hasDataError: bool): (r: Result<DataPerfectness>)
    ensures r.Success? <==> (hasDataError <==> perfectness.Some? && perfectness.value != Perfect)
    ensures r.Failure? ==> r.error == ValueError
    ensures r.Success? ==> (perfectness.None? ==> r.value == Perfect) && (perfectness.Some? ==> r.value == perfectness.value)
  {
    var p := if perfectness.None? then Perfect else perfectness.value;
    if !hasDataError && p != Perfect then Failure(ValueError)
    else if hasDataError && p == Perfect then Failure(ValueError)
    else Success(p)
  }

  /** `fetch_split_data_for_experiment`; the fetched frame itself is not modelled. */
  function FetchSplitDataForExperiment(experimentType: Key, perfectness: Option<DataPerfectness>, hasDataError: bool): Result<seq<Step>>
  {
    var p :- Validate(perfectness, hasDataError);
    Prepare(experimentType, p, hasDataError)
  }

  function FetchSplitDataForExperimentAsWritten(experimentType: Key, perfectness: Option<DataPerfectness>, hasDataError: bool): Result<seq<Step>>
  {
    var p :- Validate(perfectness, hasDataError);
    PrepareAsWritten(experimentType, p, hasDataError)
  }

  // ---------------------------------------------------------------------------
  // Properties

  /** As written, every request that passes validation and asks for polluted data ends in
      NotImplementedError, whatever the experiment type. */
  lemma PollutedRequestsRejectedAsWritten(experimentType: Key, perfectness: DataPerfectness)
    requires perfectness != Perfect
    ensures FetchSplitDataForExperimentAsWritten(experimentType, Some(perfectness), true) == Failure(NotImplementedError)
  {
    assert PerfectnessKey(perfectness) !in ExperimentTypeFunctions();
  }

  /** With the perfectness mapping, a polluted request for a known experiment type splits,
      pollutes and post-processes; only SEMIPERFECT is reconstructed afterwards. */
  lemma PollutedRequestsPrepared(t: ExperimentType, perfectness: DataPerfectness)
    requires perfectness != Perfect
    ensures FetchSplitDataForExperiment(ExperimentKey(t), Some(perfectness), true)
            == Success([SplitFor(t), PolluteFor(t),
                        PostProcess(if perfectness == Semiperfect then ConstructSemiPerfect else NoPostProcessing)])
  {
    MappingsComplete(t, perfectness);
  }

  /** Without a data error (and so with PERFECT or no perfectness), the split result is
      returned unpolluted. */
  lemma PerfectRequestsUnpolluted(t: ExperimentType, perfectness: Option<DataPerfectness>)
    requires perfectness.None? || perfectness == Some(Perfect)
    ensures FetchSplitDataForExperiment(ExperimentKey(t), perfectness, false) == Success([SplitFor(t)])
    ensures FetchSplitDataForExperimentAsWritten(ExperimentKey(t), perfectness, false) == Success([SplitFor(t)])
  {
    MappingsComplete(t, Perfect);
  }

  /** A request that passes validation but names no experiment type raises
      NotImplementedError. */
  lemma UnknownTypeRejected(experimentType: Key, perfectness: Option<DataPerfectness>, hasDataError: bool)
    requires !experimentType.ExperimentKey?
    requires Validate(perfectness, hasDataError).Success?
    ensures FetchSplitDataForExperiment(experimentType, perfectness, hasDataError) == Failure(NotImplementedError)
  {
  }

  /** Every experiment type and every perfectness has an entry in its own mapping. */
  lemma MappingsComplete(t: ExperimentType, p: DataPerfectness)
    ensures ExperimentKey(t) in ExperimentTypeFunctions()
    ensures PerfectnessKey(p) in PerfectnessFunctions()
    ensures PerfectnessKey(p) !in ExperimentTypeFunctions()
  {
    match t {
      case Normal =>
      case Privacy =>
      case Augmentation =>
      case Rebalancing =>
    }
    match p {
      case Perfect =>
      case Imperfect =>
      case Semiperfect =>
    }
  }
}
