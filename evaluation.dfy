/** An evaluation of an experiment: its '#'-joined id (method, first target, second target or
    NULL), the decoding of that id, and the `run` state machine that skips work already done
    and redundant baselines before computing. */
module Evaluations {
  import opened Wrappers
  import opened Text

  const Null: string := "NULL"
  const Delimiter: char := '#'

  /** The evaluation methods; each member's value is its own name. */
  datatype EvaluationMethod = DCR | DFD | DPR | HFD | IFO | LOF | APR | ARC | AR2 | EFF | QLT {
    function Value(): (r: string)
      ensures |r| == 3 && Delimiter !in r
    {
      match this
      case DCR => "DCR"
      case DFD => "DFD"
      case DPR => "DPR"
      case HFD => "HFD"
      case IFO => "IFO"
      case LOF => "LOF"
      case APR => "APR"
      case ARC => "ARC"
      case AR2 => "AR2"
      case EFF => "EFF"
      case QLT => "QLT"
    }
  }

  const AllMethods: seq<EvaluationMethod> := [DCR, DFD, DPR, HFD, IFO, LOF, APR, ARC, AR2, EFF, QLT]

  /** `EvaluationMethod(s)`: the member whose value is `s`; None stands for the ValueError. */
  function MethodFromValue(s: string): (r: Option<EvaluationMethod>)
    ensures r.Some? ==> r.value.Value() == s
    ensures (exists m :: m in AllMethods && m.Value() == s) ==> r.Some?
  {
    if |s| != 3 then None else Find(AllMethods, s)
  }

  function Find(ms: seq<EvaluationMethod>, s: string): (r: Option<EvaluationMethod>)
    ensures r.Some? ==> r.value.Value() == s
    ensures (exists m :: m in ms && m.Value() == s) ==> r.Some?
  {
    if ms == [] then None
    else if ms[0].Value() == s then Some(ms[0])
    else Find(ms[1..], s)
  }

  /** `str(method)` as the id code writes it: `EvaluationMethod` is a plain `Enum`, whose
      `str` is the class name, a dot and the member name. */
  function MethodStrAsWritten(m: EvaluationMethod): string
  {
    "EvaluationMethod." + m.Value()
  }

  /** The method and targets an evaluation id names. Targets are the codes of
      `EvaluationTarget` members ('R' for real data, 'S' for synthetic, ...). */
  datatype EvaluationKey = EvaluationKey(evaluator: EvaluationMethod, targets: seq<string>)

  /** `_get_evaluation_id_parts()` as written; no target at all raises IndexError. */
  function IdPartsAsWritten(key: EvaluationKey): (r: Result<seq<string>>)
    ensures r.Success? <==> key.targets != []
    ensures r.Success? ==> |r.value| == 3 && r.value[0] == MethodStrAsWritten(key.evaluator)
  {
    if key.targets == [] then Failure(IndexError)
    else Success([MethodStrAsWritten(key.evaluator), key.targets[0], if |key.targets| > 1 then key.targets[1] else Null])
  }

  /** The id parts with the method written as its value, which is what decoding expects. */
  function IdParts(key: EvaluationKey): (r: Result<seq<string>>)
    ensures r.Success? <==> key.targets != []
    ensures r.Success? ==> |r.value| == 3 && MethodFromValue(r.value[0]) == Some(key.evaluator)
    ensures r.Success? ==> r.value[1] == key.targets[0]
    ensures r.Success? ==> (r.value[2] == Null <==> |key.targets| == 1 || key.targets[1] == Null)
  {
    if key.targets == [] then Failure(IndexError)
    else
      MethodValueRoundTrip(key.evaluator);
      Success([key.evaluator.Value(), key.targets[0], if |key.targets| > 1 then key.targets[1] else Null])
  }

  /** The evaluation id with the method written as its value: the id `str(evaluation)` would
      be if it is to decode again. */
  function EvaluationId(key: EvaluationKey): Result<string>
  {
    var parts :- IdParts(key);
    Success(Join(parts, Delimiter))
  }

  /** `str(evaluation)` as written. */
  function EvaluationIdAsWritten(key: EvaluationKey): Result<string>
  {
    var parts :- IdPartsAsWritten(key);
    Success(Join(parts, Delimiter))
  }

  /** The decoding steps of `from_str_and_experiment`: split on '#', look the method up by
      value (ValueError if unknown), take one target, and a second unless the third part is
      NULL. Fewer than three parts raise IndexError. */
  function FromStr(id: string): (r: Result<EvaluationKey>)
    ensures r.Success? ==> 1 <= |r.value.targets| <= 2
  {
    var parts := Split(id, Delimiter);
    if |parts| < 3 then Failure(IndexError)
    else
      match MethodFromValue(parts[0])
      case None => Failure(ValueError)
      case Some(m) =>
        Success(EvaluationKey(m, [parts[1]] + (if parts[2] != Null then [parts[2]] else [])))
  }

  /** `from_str_and_experiment` as written: the same steps, after which it instantiates the
      abstract base class `Evaluation` itself, which Python refuses with TypeError. */
  function FromStrAsWritten(id: string): (r: Result<EvaluationKey>)
    ensures r.Failure?
    ensures FromStr(id).Failure? ==> r == FromStr(id)
  {
    var key :- FromStr(id);
    Failure(TypeError)
  }

  /** Targets an id can carry: one or two codes, none containing '#' and the second not the
      NULL sentinel. */
  predicate Encodable(key: EvaluationKey)
  {
    && 1 <= |key.targets| <= 2
    && (forall i :: 0 <= i < |key.targets| ==> Delimiter !in key.targets[i])
    && (|key.targets| == 2 ==> key.targets[1] != Null)
  }

  // ---------------------------------------------------------------------------
  // Properties of the codec

  /** As written, no id decodes: its first part is `EvaluationMethod.X`, which is no member's
      value, so the lookup raises ValueError. */
  lemma AsWrittenNeverDecodes(key: EvaluationKey)
    requires Encodable(key)
    ensures EvaluationIdAsWritten(key).Success?
    ensures FromStrAsWritten(EvaluationIdAsWritten(key).value) == Failure(ValueError)
  {
    var parts := IdPartsAsWritten(key).value;
    assert NoneContains(parts, Delimiter) by {
      assert Delimiter !in MethodStrAsWritten(key.evaluator) by {
        assert MethodStrAsWritten(key.evaluator) == "EvaluationMethod." + key.evaluator.Value();
      }
      assert Delimiter !in Null;
    }
    SplitJoin(parts, Delimiter);
    assert |parts[0]| != 3;
  }

  /** With the method written as its value, decoding gives back the method and the targets. */
  lemma IdRoundTrip(key: EvaluationKey)
    requires Encodable(key)
    ensures EvaluationId(key).Success?
    ensures FromStr(EvaluationId(key).value) == Success(key)
  {
    var parts := IdParts(key).value;
    assert NoneContains(parts, Delimiter) by {
      assert Delimiter !in Null;
    }
    SplitJoin(parts, Delimiter);
    var id := EvaluationId(key).value;
    assert Split(id, Delimiter) == parts;
    MethodValueRoundTrip(key.evaluator);
    if |key.targets| == 1 {
      assert parts[2] == Null;
      assert |Split(id, Delimiter)| >= 3;
      assert parts[0] == key.evaluator.Value();
      assert MethodFromValue(Split(id, Delimiter)[0]) == Some(key.evaluator);
      assert [parts[1]] + [] == [parts[1]];
      assert [key.targets[0]] == key.targets;
      assert FromStr(id) == Success(EvaluationKey(key.evaluator, [parts[1]]));
    } else {
      assert [key.targets[0]] + [key.targets[1]] == key.targets;
      assert FromStr(id) == Success(EvaluationKey(key.evaluator, [parts[1]] + [parts[2]]));
    }
  }

  /** Every method's value decodes to that method. */
  lemma MethodValueRoundTrip(m: EvaluationMethod)
    ensures MethodFromValue(m.Value()) == Some(m)
  {
    assert m in AllMethods by {
      match m
      case DCR => assert AllMethods[0] == m;
      case DFD => assert AllMethods[1] == m;
      case DPR => assert AllMethods[2] == m;
      case HFD => assert AllMethods[3] == m;
      case IFO => assert AllMethods[4] == m;
      case LOF => assert AllMethods[5] == m;
      case APR => assert AllMethods[6] == m;
      case ARC => assert AllMethods[7] == m;
      case AR2 => assert AllMethods[8] == m;
      case EFF => assert AllMethods[9] == m;
      case QLT => assert AllMethods[10] == m;
    }
    var r := MethodFromValue(m.Value());
    assert r.Some? && r.value.Value() == m.Value();
    MethodValueInjective(r.value, m);
  }

  lemma MethodValueInjective(m: EvaluationMethod, n: EvaluationMethod)
    requires m.Value() == n.Value()
    ensures m == n
  {
  }

  // ---------------------------------------------------------------------------
  // The run state machine

  /** Why a computation was skipped, as written to the skip ledger. */
  datatype SkipReason = AlreadyExists | BaselineOnlyFor(firstErrorRate: real)

  /** One `write_skipped_computation(computation_id, reason)` call. */
  datatype SkipRecord = SkipRecord(computationId: string, reason: SkipReason)

  /** What an experiment contributes to the decision: its id and its data error settings. */
  datatype ExperimentInfo = ExperimentInfo(id: string, dataError: Option<string>, dataErrorRate: Option<real>)

  /** What `run` does. */
  datatype Decision = SkipExisting | SkipBaseline | Compute

  /** Every target is real or synthetic data, so the evaluation is a perfect-data baseline. */
  predicate IsBaseline(targets: seq<string>)
  {
    forall i :: 0 <= i < |targets| ==> targets[i] == "R" || targets[i] == "S"
  }

  /** The decision `run(force)` takes. */
  function Decide(shouldCompute: bool, force: bool, targets: seq<string>, experiment: ExperimentInfo, firstErrorRate: real): Decision
  {
    if !shouldCompute && !force then SkipExisting
    else if experiment.dataError.Some? && IsBaseline(targets) && experiment.dataErrorRate != Some(firstErrorRate) then SkipBaseline
    else Compute
  }

  /** An evaluation object: the existence check runs once, at construction. */
  class Evaluation {
    const key: EvaluationKey
    const experiment: ExperimentInfo
    /** `not _exists_in_postgres()`, fixed at construction. */
    const shouldCompute: bool
    /** The skip records written so far. */
    var skipped: seq<SkipRecord>
    /** How many times `_run` was called. */
    var runs: nat

    /** The id the skip records carry: `str(self)`, '/', the experiment id. */
    function ComputationId(): string
      requires key.targets != []
    {
      EvaluationIdAsWritten(key).value + "/" + experiment.id
    }

    /** The targets must be non-empty: the constructor's existence check renders the id. */
    constructor (key: EvaluationKey, experiment: ExperimentInfo, existsInPostgres: bool)
      requires key.targets != []
      ensures this.key == key && this.experiment == experiment
      ensures shouldCompute == !existsInPostgres && skipped == [] && runs == 0
    {
      this.key := key;
      this.experiment := experiment;
      shouldCompute := !existsInPostgres;
      skipped := [];
      runs := 0;
    }

    /** `run(force)`: one skip record or one `_run` call, as `Decide` says. */
    method Run(force: bool, firstErrorRate: real)
      requires key.targets != []
      modifies this
      ensures Decide(shouldCompute, force, key.targets, experiment, firstErrorRate) == SkipExisting ==>
                skipped == old(skipped) + [SkipRecord(ComputationId(), AlreadyExists)] && runs == old(runs)
      ensures Decide(shouldCompute, force, key.targets, experiment, firstErrorRate) == SkipBaseline ==>
                skipped == old(skipped) + [SkipRecord(ComputationId(), BaselineOnlyFor(firstErrorRate))] && runs == old(runs)
      ensures Decide(shouldCompute, force, key.targets, experiment, firstErrorRate) == Compute ==>
                skipped == old(skipped) && runs == old(runs) + 1
    {
      if !shouldCompute && !force {
        skipped := skipped + [SkipRecord(ComputationId(), AlreadyExists)];
        return;
      }
      if experiment.dataError.Some? {
        var isBaselineEvaluation := true;
        var i := 0;
        while i < |key.targets|
          invariant 0 <= i <= |key.targets|
          invariant isBaselineEvaluation <==> IsBaseline(key.targets[..i])
          invariant !isBaselineEvaluation ==> !IsBaseline(key.targets)
        {
          var target := key.targets[i];
          if target != "R" && target != "S" {
            isBaselineEvaluation := false;
            break;
          }
          i := i + 1;
        }
        assert isBaselineEvaluation ==> key.targets[..i] == key.targets;
        if isBaselineEvaluation && experiment.dataErrorRate != Some(firstErrorRate) {
          skipped := skipped + [SkipRecord(ComputationId(), BaselineOnlyFor(firstErrorRate))];
          return;
        }
      }
      runs := runs + 1;
    }
  }

  /** `Evaluation(*targets, experiment=..., evaluation_method=...)`: the existence check at the
      end of `__init__` renders `str(self)`, which raises IndexError when there is no target. */
  method NewEvaluation(key: EvaluationKey, experiment: ExperimentInfo, existsInPostgres: bool) returns (r: Result<Evaluation>)
    ensures r.Failure? <==> key.targets == []
    ensures r.Failure? ==> r.error == IndexError
    ensures r.Success? ==> fresh(r.value) && r.value.key == key && r.value.experiment == experiment
    ensures r.Success? ==> r.value.shouldCompute == !existsInPostgres && r.value.skipped == [] && r.value.runs == 0
  {
    var parts := IdPartsAsWritten(key);
    if parts.Failure? {
      return Failure(parts.error);
    }
    var e := new Evaluation(key, experiment, existsInPostgres);
    return Success(e);
  }

  // ---------------------------------------------------------------------------
  // Properties of the decision

  /** An existing result without `force` is always skipped as existing. */
  lemma ExistingIsSkipped(targets: seq<string>, experiment: ExperimentInfo, firstErrorRate: real)
    ensures Decide(false, false, targets, experiment, firstErrorRate) == SkipExisting
  {
  }

  /** `force` bypasses the existence check but not the baseline rule: a forced run decides as
      if the result did not exist. */
  lemma ForceBypassesExistence(shouldCompute: bool, targets: seq<string>, experiment: ExperimentInfo, firstErrorRate: real)
    ensures Decide(shouldCompute, true, targets, experiment, firstErrorRate) == Decide(true, false, targets, experiment, firstErrorRate)
    ensures Decide(shouldCompute, true, targets, experiment, firstErrorRate) != SkipExisting
  {
  }

  /** A perfect experiment (no data error) is never skipped as a baseline. */
  lemma PerfectNeverBaselineSkipped(shouldCompute: bool, force: bool, targets: seq<string>, experiment: ExperimentInfo, firstErrorRate: real)
    requires experiment.dataError.None?
    ensures Decide(shouldCompute, force, targets, experiment, firstErrorRate) != SkipBaseline
  {
  }

  /** A computed-or-forced evaluation is skipped as a baseline exactly when the experiment has
      a data error, every target is R or S, and the rate is not the first one. */
  lemma BaselineRule(force: bool, targets: seq<string>, experiment: ExperimentInfo, firstErrorRate: real)
    ensures Decide(true, force, targets, experiment, firstErrorRate) == SkipBaseline <==>
              experiment.dataError.Some? && IsBaseline(targets) && experiment.dataErrorRate != Some(firstErrorRate)
  {
  }

  /** An evaluation with a target other than R and S is never skipped as a baseline. */
  lemma MixedTargetsComputed(shouldCompute: bool, force: bool, targets: seq<string>, experiment: ExperimentInfo, firstErrorRate: real, i: nat)
    requires i < |targets| && targets[i] != "R" && targets[i] != "S"
    ensures Decide(shouldCompute, force, targets, experiment, firstErrorRate) != SkipBaseline
  {
  }
}
