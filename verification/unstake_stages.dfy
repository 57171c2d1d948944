/** The unstake flow's stage registry: each stage of the process has a
    status, and the flow asks whether one failed or whether all succeeded. */
module UnstakeStages {
  import opened Common

  /** A stage's status: success, error, or any other state such as
      pending (the full list of states is not part of this model). */
  datatype StageStatus = Success | Error | Other(name: string)

  /** A registry in key order (the order `Object.entries` yields). */
  datatype Entry = Entry(key: string, stage: StageStatus)

  predicate StageSucceeded(stage: StageStatus)
  {
    stage == Success
  }

  predicate StageFailed(stage: StageStatus)
  {
    stage == Error
  }

  /** A stage never both succeeds and fails, and one in any other state
      does neither. */
  lemma StageOutcomes(stage: StageStatus)
    ensures !(StageSucceeded(stage) && StageFailed(stage))
    ensures stage.Other? ==> !StageSucceeded(stage) && !StageFailed(stage)
  {
  }

  /** `getFailedStage`: the key of the first failed stage, if any. */
  function GetFailedStage(registry: seq<Entry>): (r: Option<string>)
    ensures r.None? <==> forall i :: 0 <= i < |registry| ==> !StageFailed(registry[i].stage)
    ensures r.Some? ==> exists i :: 0 <= i < |registry| && registry[i].key == r.value && StageFailed(registry[i].stage)
                                    && forall j :: 0 <= j < i ==> !StageFailed(registry[j].stage)
  {
    if |registry| == 0 then None
    else if StageFailed(registry[0].stage) then Some(registry[0].key)
    else
      var r := GetFailedStage(registry[1..]);
      if r.Some? then
        var i :| 0 <= i < |registry[1..]| && registry[1..][i].key == r.value && StageFailed(registry[1..][i].stage)
                 && forall j :: 0 <= j < i ==> !StageFailed(registry[1..][j].stage);
        assert registry[i + 1] == registry[1..][i];
        r
      else r
  }

  /** `allStagesSucceeded`. */
  predicate AllStagesSucceeded(registry: seq<Entry>)
  {
    forall i :: 0 <= i < |registry| ==> StageSucceeded(registry[i].stage)
  }

  /** No failed stage is reported once every stage succeeded. */
  lemma AllSucceededMeansNoneFailed(registry: seq<Entry>)
    requires AllStagesSucceeded(registry)
    ensures GetFailedStage(registry) == None
  {
  }
}
