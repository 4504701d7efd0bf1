/** Stages and the evaluator cascade (libreevolve/core/evaluator.py, `_run_stage`,
    `_run_stage_sample`, `_aggregate_sample_results` and `_run_configured_stages`), run with
    one sample worker, and what their work counters add up to. */
module Cascades {
  import opened Text
  import opened Accounting
  import opened Retries

  /** A configured stage. */
  datatype Stage = Stage(
    samples: nat, retries: nat, timeout: real, external: bool, maxStage: Option<real>, maxSample: Option<real>)

  /** A cascade with its environment: the validator (stage, sample, attempt, timeout, start),
      whether the sequential test stops stage i early after n samples, and whether the
      thresholds and the hypothesis test of stage i pass. */
  datatype Cascade = Cascade(
    stages: seq<Stage>,
    run: (nat, nat, nat, real, real) -> Outcome,
    stopsEarly: (nat, nat) -> bool,
    gate: nat -> bool)
  {
    /** What the configuration loader demands. */
    ghost predicate Valid() {
      && stages != []
      && (forall s <- stages :: s.samples >= 1 && s.timeout > 0.0)
      && (forall s <- stages :: s.maxStage.Some? ==> s.maxStage.value > 0.0)
    }

    /** Stage i with sample n as the retry loop sees it. */
    function SampleOf(i: nat, n: nat, stageDeadline: Deadline, now: real): Sample
      requires i < |stages|
    {
      Sample((attempt: nat, timeout: real, start: real) => run(i, n, attempt, timeout, start),
             stages[i].timeout, stages[i].retries,
             stageDeadline, Deadline(stages[i].maxSample, now))
    }
  }

  /** One sample: refused because the stage deadline had passed, or run with retries. */
  datatype SampleRun = Refused | Ran(trace: Trace)
  {
    predicate Ends() { Ran? ==> trace.end.StageExhausted? || trace.end.SampleExhausted? || trace.attempts != [] }

    function Evaluated(external: bool): Evaluation
      requires Ends()
    {
      match this
      case Refused => Evaluation(false, SampleNode(None, external, StageBudgetExhausted))
      case Ran(trace) => EvaluationOf(trace, external)
    }

    function Attempts(): nat {
      if Refused? then 0 else |trace.attempts|
    }
  }

  type FinishedRun = r: SampleRun | r.Ends() witness Refused

  /** The samples of one stage: at least one. */
  type StageRun = runs: seq<FinishedRun> | runs != [] witness [Refused]

  function RunSample(c: Cascade, i: nat, n: nat, deadline: Deadline, now: real): (FinishedRun, real)
    requires i < |c.stages|
  {
    if deadline.Exhausted(now) then (Refused, now)
    else
      var sample := c.SampleOf(i, n, deadline, now);
      EndsWithAnAttempt(sample, 0, now);
      var trace := Tries(sample, 0, now);
      (Ran(trace), trace.finish)
  }

  // ----- one stage

  /** The samples of stage i after those already done: stop at a sample that exhausted the
      stage budget or when the sequential test says so. */
  function RunSamples(c: Cascade, i: nat, done: nat, deadline: Deadline, now: real): (seq<FinishedRun>, real)
    requires i < |c.stages|
    decreases c.stages[i].samples - done
  {
    if done >= c.stages[i].samples then ([], now)
    else
      var (sample, finish) := RunSample(c, i, done, deadline, now);
      if Stops(c, i, sample, done + 1) then ([sample], finish)
      else
        var (rest, end) := RunSamples(c, i, done + 1, deadline, finish);
        ([sample] + rest, end)
  }

  predicate Stops(c: Cascade, i: nat, sample: FinishedRun, done: nat)
    requires i < |c.stages|
  {
    || sample.Evaluated(c.stages[i].external).Error().StageBudgetExhausted?
    || (done < c.stages[i].samples && c.stopsEarly(i, done))
  }

  function Evaluations(runs: seq<FinishedRun>, external: bool): (es: seq<Evaluation>)
    ensures |es| == |runs|
  {
    if runs == [] then [] else [runs[0].Evaluated(external)] + Evaluations(runs[1..], external)
  }

  function Serialised(es: seq<Evaluation>): (ds: seq<Stored>)
    ensures |ds| == |es|
  {
    if es == [] then [] else [ToDict(es[0].node)] + Serialised(es[1..])
  }

  /** The first error of the samples, for the aggregate. */
  function FirstError(es: seq<Evaluation>): Error {
    if es == [] then OtherError
    else if !es[0].Error().NoError? then es[0].Error()
    else FirstError(es[1..])
  }

  predicate AllValid(es: seq<Evaluation>) {
    forall e <- es :: e.valid
  }

  /** One result is the stage's result; several are serialised into an aggregate. */
  function Aggregate(es: seq<Evaluation>, external: bool): Evaluation
    requires es != []
  {
    if |es| == 1 then es[0]
    else
      var valid := AllValid(es);
      Evaluation(valid, Node(NoRecords, Samples(Serialised(es)),
                             Leaf(None, false, external, if valid then NoError else FirstError(es))))
  }

  function StageDeadline(c: Cascade, i: nat, now: real): Deadline
    requires i < |c.stages|
  {
    Deadline(c.stages[i].maxStage, now)
  }

  function StageRuns(c: Cascade, i: nat, now: real): (seq<FinishedRun>, real)
    requires i < |c.stages|
  {
    RunSamples(c, i, 0, StageDeadline(c, i, now), now)
  }

  // ----- which samples a stage runs

  /** What the samples of a stage look like from number `done` on, without the loop: each is
      run when the one before has finished, and they end at the last configured sample or at
      the first that stops the stage.  `times` holds the start of each and the finish. */
  predicate IsStageRun(c: Cascade, i: nat, done: nat, deadline: Deadline, now: real,
                       runs: seq<FinishedRun>, times: seq<real>)
    requires i < |c.stages|
  {
    && |times| == |runs| + 1 && times[0] == now && done + |runs| <= c.stages[i].samples
    && (forall n :: 0 <= n < |runs| ==> (runs[n], times[n + 1]) == RunSample(c, i, done + n, deadline, times[n]))
    && (forall n :: 0 <= n < |runs| - 1 ==> !Stops(c, i, runs[n], done + n + 1))
    && (done + |runs| == c.stages[i].samples
        || (runs != [] && Stops(c, i, runs[|runs| - 1], done + |runs|)))
  }

  /** The start times of the samples, and the finish. */
  function SampleTimes(c: Cascade, i: nat, done: nat, deadline: Deadline, now: real): (times: seq<real>)
    requires i < |c.stages|
    ensures times != [] && times[0] == now
    decreases c.stages[i].samples - done
  {
    if done >= c.stages[i].samples then [now]
    else
      var (sample, finish) := RunSample(c, i, done, deadline, now);
      if Stops(c, i, sample, done + 1) then [now, finish]
      else [now] + SampleTimes(c, i, done + 1, deadline, finish)
  }

  lemma {:induction false} StageRunIsOne(c: Cascade, i: nat, done: nat, deadline: Deadline, now: real)
    requires i < |c.stages| && done <= c.stages[i].samples
    ensures var (runs, finish) := RunSamples(c, i, done, deadline, now);
            var times := SampleTimes(c, i, done, deadline, now);
            IsStageRun(c, i, done, deadline, now, runs, times) && times[|runs|] == finish
    decreases c.stages[i].samples - done
  {
    hide RunSample, Stops;
    if done < c.stages[i].samples {
      var (sample, finish) := RunSample(c, i, done, deadline, now);
      if !Stops(c, i, sample, done + 1) {
        StageRunIsOne(c, i, done + 1, deadline, finish);
        var (rest, end) := RunSamples(c, i, done + 1, deadline, finish);
        PutInFront(c, i, done, deadline, now, sample, rest, SampleTimes(c, i, done + 1, deadline, finish));
      }
    }
  }

  lemma {:induction false} PutInFront(c: Cascade, i: nat, done: nat, deadline: Deadline, now: real,
                                      sample: FinishedRun, rest: seq<FinishedRun>, times: seq<real>)
    requires i < |c.stages| && times != [] && (sample, times[0]) == RunSample(c, i, done, deadline, now)
    requires !Stops(c, i, sample, done + 1) && IsStageRun(c, i, done + 1, deadline, times[0], rest, times)
    ensures IsStageRun(c, i, done, deadline, now, [sample] + rest, [now] + times)
  {
    hide RunSample, Stops;
    var runs, all := [sample] + rest, [now] + times;
    forall n | 0 <= n < |runs|
      ensures (runs[n], all[n + 1]) == RunSample(c, i, done + n, deadline, all[n])
      ensures n < |runs| - 1 ==> !Stops(c, i, runs[n], done + n + 1)
    {
      assert n > 0 ==> runs[n] == rest[n - 1] && done + n == done + 1 + (n - 1);
    }
    assert rest != [] ==> runs[|runs| - 1] == rest[|rest| - 1] && done + |runs| == done + 1 + |rest|;
  }

  lemma {:induction false} FirstGoesOn(c: Cascade, i: nat, done: nat, deadline: Deadline, now: real,
                                       runs: seq<FinishedRun>, times: seq<real>)
    requires i < |c.stages| && IsStageRun(c, i, done, deadline, now, runs, times) && |runs| > 1
    ensures !Stops(c, i, runs[0], done + 1)
  {
    assert !Stops(c, i, runs[0], done + 0 + 1);
  }

  lemma {:induction false} OnlyOneStageRun(c: Cascade, i: nat, done: nat, deadline: Deadline, now: real,
                                           runs: seq<FinishedRun>, times: seq<real>)
    requires i < |c.stages| && IsStageRun(c, i, done, deadline, now, runs, times)
    ensures RunSamples(c, i, done, deadline, now) == (runs, times[|runs|])
    decreases |runs|
  {
    hide RunSample, Stops;
    if runs != [] {
      assert (runs[0], times[1]) == RunSample(c, i, done + 0, deadline, times[0]);
      if |runs| > 1 { FirstGoesOn(c, i, done, deadline, now, runs, times); }
      if Stops(c, i, runs[0], done + 1) {
        assert runs == [runs[0]];
      } else {
        TakeFromFront(c, i, done, deadline, now, runs, times);
        OnlyOneStageRun(c, i, done + 1, deadline, times[1], runs[1..], times[1..]);
        assert runs == [runs[0]] + runs[1..];
      }
    }
  }

  lemma {:induction false} TakeFromFront(c: Cascade, i: nat, done: nat, deadline: Deadline, now: real,
                                         runs: seq<FinishedRun>, times: seq<real>)
    requires i < |c.stages| && IsStageRun(c, i, done, deadline, now, runs, times)
    requires runs != [] && !Stops(c, i, runs[0], done + 1)
    ensures IsStageRun(c, i, done + 1, deadline, times[1], runs[1..], times[1..])
  {
    hide RunSample, Stops;
    var rest, later := runs[1..], times[1..];
    forall n | 0 <= n < |rest|
      ensures (rest[n], later[n + 1]) == RunSample(c, i, done + 1 + n, deadline, later[n])
      ensures n < |rest| - 1 ==> !Stops(c, i, rest[n], done + 1 + n + 1)
    {
      assert rest[n] == runs[n + 1] && done + 1 + n == done + (n + 1);
    }
    assert rest != [] ==> rest[|rest| - 1] == runs[|runs| - 1];
  }

  /** The loop over the samples and its description agree, in both directions. */
  lemma {:induction false} StageRunMeaning(c: Cascade, i: nat, now: real, runs: seq<FinishedRun>, finish: real)
    requires i < |c.stages|
    ensures StageRuns(c, i, now) == (runs, finish)
            <==> exists times :: IsStageRun(c, i, 0, StageDeadline(c, i, now), now, runs, times)
                                 && times[|runs|] == finish
  {
    hide RunSamples, RunSample, Stops, SampleTimes;
    var deadline := StageDeadline(c, i, now);
    StageRunIsOne(c, i, 0, deadline, now);
    if times :| IsStageRun(c, i, 0, deadline, now, runs, times) && times[|runs|] == finish {
      OnlyOneStageRun(c, i, 0, deadline, now, runs, times);
    }
  }

  method RunStage(c: Cascade, i: nat, start: real) returns (result: Evaluation, finish: real)
    requires i < |c.stages| && c.stages[i].samples >= 1
    ensures StageRuns(c, i, start).0 != []
    ensures result == Aggregate(Evaluations(StageRuns(c, i, start).0, c.stages[i].external), c.stages[i].external)
    ensures finish == StageRuns(c, i, start).1
  {
    hide RunSample, Stops, Aggregate, SampleRun.Evaluated, Evaluations, Evaluation.Error;
    var stage := c.stages[i];
    var deadline := Deadline(stage.maxStage, start);
    ghost var whole := RunSamples(c, i, 0, deadline, start);
    ghost var runs: seq<FinishedRun> := [];
    var results: seq<Evaluation> := [];
    finish := start;
    assert [] + whole.0 == whole.0;
    NoEvaluations(stage.external);
    for n := 0 to stage.samples
      invariant |runs| == n
      invariant results == Evaluations(runs, stage.external)
      invariant var rest := RunSamples(c, i, n, deadline, finish);
                whole == (runs + rest.0, rest.1)
    {
      ghost var before := finish;
      ghost var sample := RunSample(c, i, n, deadline, before).0;
      result, finish := RunStageSample(c, i, n, deadline, finish);
      EvaluationsSnoc(runs, sample, stage.external);
      assert runs + ([sample] + RunSamples(c, i, n + 1, deadline, finish).0)
          == (runs + [sample]) + RunSamples(c, i, n + 1, deadline, finish).0;
      runs := runs + [sample];
      results := results + [result];
      StopsMeans(c, i, sample, n + 1);
      if result.Error().StageBudgetExhausted? { break; }
      if n + 1 < stage.samples && c.stopsEarly(i, n + 1) { break; }
    }
    assert runs + [] == runs;
    return Aggregate(results, stage.external), finish;
  }

  lemma StopsMeans(c: Cascade, i: nat, sample: FinishedRun, done: nat)
    requires i < |c.stages|
    ensures Stops(c, i, sample, done)
       <==> sample.Evaluated(c.stages[i].external).Error().StageBudgetExhausted?
            || (done < c.stages[i].samples && c.stopsEarly(i, done))
  {
  }

  lemma NoEvaluations(external: bool)
    ensures Evaluations([], external) == []
  {
  }

  lemma {:induction false} EvaluationsSnoc(runs: seq<FinishedRun>, last: FinishedRun, external: bool)
    ensures Evaluations(runs + [last], external) == Evaluations(runs, external) + [last.Evaluated(external)]
    decreases |runs|
  {
    hide SampleRun.Evaluated;
    if runs != [] {
      EvaluationsSnoc(runs[1..], last, external);
      assert (runs + [last])[1..] == runs[1..] + [last];
    }
  }

  method RunStageSample(c: Cascade, i: nat, n: nat, deadline: Deadline, now: real)
    returns (result: Evaluation, finish: real)
    requires i < |c.stages|
    ensures result == RunSample(c, i, n, deadline, now).0.Evaluated(c.stages[i].external)
    ensures finish == RunSample(c, i, n, deadline, now).1
  {
    hide Tries, EvaluationOf;
    if deadline.Exhausted(now) {
      return Evaluation(false, SampleNode(None, c.stages[i].external, StageBudgetExhausted)), now;
    }
    result, finish := RunSampleWithRetries(c.SampleOf(i, n, deadline, now), c.stages[i].external, now);
  }

  // ----- the cascade

  function StageEvaluation(c: Cascade, i: nat, runs: StageRun): Evaluation
    requires i < |c.stages|
  {
    Aggregate(Evaluations(runs, c.stages[i].external), c.stages[i].external)
  }

  /** The stages that are run from stage i on, each with its samples: none follows a stage
      that is invalid or fails its gate. */
  function StagesRun(c: Cascade, i: nat, now: real): (seq<StageRun>, real)
    requires c.Valid() && i <= |c.stages|
    ensures |StagesRun(c, i, now).0| <= |c.stages| - i
    ensures i < |c.stages| ==> StagesRun(c, i, now).0 != []
    decreases |c.stages| - i
  {
    if i == |c.stages| then ([], now)
    else
      var (runs, finish) := StageRuns(c, i, now);
      SamplesAreRun(c, i, now);
      if !StagePasses(c, i, runs) then ([runs], finish)
      else
        var (rest, end) := StagesRun(c, i + 1, finish);
        ([runs] + rest, end)
  }

  lemma {:induction false} SamplesAreRun(c: Cascade, i: nat, now: real)
    requires c.Valid() && i < |c.stages|
    ensures StageRuns(c, i, now).0 != []
  {
    assert c.stages[i] in c.stages;
  }

  predicate StagePasses(c: Cascade, i: nat, runs: StageRun)
    requires i < |c.stages|
  {
    StageEvaluation(c, i, runs).valid && c.gate(i)
  }

  function StageNodes(c: Cascade, i: nat, stages: seq<StageRun>): (nodes: seq<Node>)
    requires i + |stages| <= |c.stages|
    ensures |nodes| == |stages|
    decreases |stages|
  {
    if stages == [] then [] else [StageEvaluation(c, i, stages[0]).node] + StageNodes(c, i + 1, stages[1..])
  }

  /** The result of the cascade: that of its last stage, with a record of every stage. */
  function Combined(last: Evaluation, passed: bool, records: seq<Node>): Evaluation {
    var error := if passed || !last.Error().NoError? then last.Error() else OtherError;
    Evaluation(passed, Node(Records(records), last.node.samples, last.node.leaf.(error := error)))
  }

  function CascadeEvaluation(c: Cascade, stages: seq<StageRun>): Evaluation
    requires 0 < |stages| <= |c.stages|
  {
    var k := |stages| - 1;
    Combined(StageEvaluation(c, k, stages[k]), StagePasses(c, k, stages[k]), StageNodes(c, 0, stages))
  }

  method RunConfiguredStages(c: Cascade, start: real) returns (result: Evaluation, finish: real)
    requires c.Valid()
    ensures result == CascadeEvaluation(c, StagesRun(c, 0, start).0)
    ensures finish == StagesRun(c, 0, start).1
  {
    hide StageRuns, StageEvaluation, StagePasses, Combined, StageNodes;
    NoNodes(c);
    ghost var whole := StagesRun(c, 0, start);
    ghost var stages: seq<StageRun> := [];
    var records: seq<Node> := [];
    var last: Evaluation := Evaluation(false, SampleNode(None, false, NoError));
    finish := start;
    assert [] + whole.0 == whole.0;
    for i := 0 to |c.stages|
      invariant |stages| == i
      invariant records == StageNodes(c, 0, stages)
      invariant i > 0 ==> last == StageEvaluation(c, i - 1, stages[i - 1]) && StagePasses(c, i - 1, stages[i - 1])
      invariant var rest := StagesRun(c, i, finish);
                whole == (stages + rest.0, rest.1)
    {
      ghost var runs := StageRuns(c, i, finish).0;
      SamplesAreRun(c, i, finish);
      var passed;
      last, passed, finish := RunOneStage(c, i, finish);
      StageNodesSnoc(c, 0, stages, runs);
      assert stages + ([runs] + StagesRun(c, i + 1, finish).0) == (stages + [runs]) + StagesRun(c, i + 1, finish).0;
      stages := stages + [runs];
      records := records + [last.node];
      if !passed {
        return Combined(last, false, records), finish;
      }
    }
    assert stages + [] == stages;
    return Combined(last, true, records), finish;
  }

  method RunOneStage(c: Cascade, i: nat, start: real) returns (result: Evaluation, passed: bool, finish: real)
    requires c.Valid() && i < |c.stages|
    ensures StageRuns(c, i, start).0 != []
    ensures result == StageEvaluation(c, i, StageRuns(c, i, start).0)
    ensures passed == StagePasses(c, i, StageRuns(c, i, start).0)
    ensures finish == StageRuns(c, i, start).1
  {
    assert c.stages[i] in c.stages;
    result, finish := RunStage(c, i, start);
    passed := result.valid && c.gate(i);
  }

  lemma NoNodes(c: Cascade)
    ensures StageNodes(c, 0, []) == []
  {
  }

  lemma {:induction false} StageNodesSnoc(c: Cascade, i: nat, stages: seq<StageRun>, runs: StageRun)
    requires i + |stages| < |c.stages|
    ensures StageNodes(c, i, stages + [runs])
            == StageNodes(c, i, stages) + [StageEvaluation(c, i + |stages|, runs).node]
    decreases |stages|
  {
    hide StageEvaluation;
    if stages != [] {
      StageNodesSnoc(c, i + 1, stages[1..], runs);
      assert (stages + [runs])[1..] == stages[1..] + [runs];
    }
  }

  // ----- accounting of a whole cascade

  /** Validator processes of one sample as they are counted: every attempt, and one for a
      refused sample of an external validator. */
  function Processes(run: FinishedRun, external: bool): nat {
    if run.Refused? then (if external then 1 else 0) else run.Attempts()
  }

  function Retried(run: FinishedRun): nat {
    if run.Attempts() == 0 then 0 else run.Attempts() - 1
  }

  function SampleLeaves(runs: seq<FinishedRun>, external: bool): seq<Leaf> {
    if runs == [] then [] else [runs[0].Evaluated(external).node.leaf] + SampleLeaves(runs[1..], external)
  }

  function StageLeaves(c: Cascade, i: nat, stages: seq<StageRun>): seq<Leaf>
    requires i + |stages| <= |c.stages|
    decreases |stages|
  {
    if stages == [] then [] else SampleLeaves(stages[0], c.stages[i].external) + StageLeaves(c, i + 1, stages[1..])
  }

  /** A sample's evaluation is a leaf, with no nested lists. */
  lemma SampleIsALeaf(run: FinishedRun, external: bool)
    ensures var n := run.Evaluated(external).node;
            Honest(n) && Leaves(n) == [n.leaf]
  {
  }

  lemma {:induction false} SerialisedLeaves(runs: seq<FinishedRun>, external: bool)
    ensures var ds := Serialised(Evaluations(runs, external));
            && LeavesOfSamples(ds) == SampleLeaves(runs, external)
            && forall d <- ds :: HonestStored(d)
    decreases |runs|
  {
    hide SampleRun.Evaluated, Honest, HonestStored, ToDict;
    if runs != [] {
      var e := runs[0].Evaluated(external);
      SerialisedLeaves(runs[1..], external);
      SampleIsALeaf(runs[0], external);
      ToDictIsHonest(e.node);
      ToDictKeepsLeaves(e.node);
      var rest := Evaluations(runs[1..], external);
      assert Evaluations(runs, external) == [e] + rest;
      assert ([e] + rest)[1..] == rest;
      assert Serialised([e] + rest) == [ToDict(e.node)] + Serialised(rest);
      assert ([ToDict(e.node)] + Serialised(rest))[1..] == Serialised(rest);
    }
  }

  lemma ToDictKeepsLeaves(n: Node)
    ensures LeavesOfStored(ToDict(n)) == Leaves(n)
  {
  }

  lemma {:induction false} StageIsHonest(c: Cascade, i: nat, runs: StageRun)
    requires i < |c.stages|
    ensures var n := StageEvaluation(c, i, runs).node;
            Honest(n) && Leaves(n) == SampleLeaves(runs, c.stages[i].external)
  {
    hide SampleRun.Evaluated, HonestStored, Serialised;
    var external := c.stages[i].external;
    if |runs| == 1 {
      SampleIsALeaf(runs[0], external);
    } else {
      SerialisedLeaves(runs, external);
    }
  }

  lemma {:induction false} RecordsAreHonest(c: Cascade, i: nat, stages: seq<StageRun>)
    requires i + |stages| <= |c.stages|
    ensures var records := StageNodes(c, i, stages);
            && LeavesOfRecords(records) == StageLeaves(c, i, stages)
            && forall n <- records :: Honest(n)
    decreases |stages|
  {
    hide StageEvaluation, Honest, Leaves, SampleLeaves;
    if stages != [] {
      RecordsAreHonest(c, i + 1, stages[1..]);
      StageIsHonest(c, i, stages[0]);
      var n := StageEvaluation(c, i, stages[0]).node;
      var rest := StageNodes(c, i + 1, stages[1..]);
      assert StageNodes(c, i, stages) == [n] + rest;
      assert ([n] + rest)[1..] == rest;
    }
  }

  /** The cascade's totals are the sum over the samples of all its stages, although the
      result also carries the samples or attempts of its last stage. */
  lemma {:induction false} CascadeTotals(c: Cascade, stages: seq<StageRun>)
    requires 0 < |stages| <= |c.stages|
    ensures var n := CascadeEvaluation(c, stages).node;
            && Honest(n)
            && Total(n) == Sum(StageLeaves(c, 0, stages))
  {
    hide StageNodes, StageLeaves, StageEvaluation, StagePasses, Sum, Total;
    RecordsAreHonest(c, 0, stages);
    SubtotalsAgreeWithRecomputation(CascadeEvaluation(c, stages).node);
  }

  function CountSamples(runs: seq<FinishedRun>, external: bool): (nat, nat, nat) {
    if runs == [] then (0, 0, 0)
    else
      var rest := CountSamples(runs[1..], external);
      (Processes(runs[0], external) + rest.0, Retried(runs[0]) + rest.1, (if runs[0].Refused? then 0 else 1) + rest.2)
  }

  function CountStages(c: Cascade, i: nat, stages: seq<StageRun>): (nat, nat, nat)
    requires i + |stages| <= |c.stages|
    decreases |stages|
  {
    if stages == [] then (0, 0, 0)
    else
      var first := CountSamples(stages[0], c.stages[i].external);
      var rest := CountStages(c, i + 1, stages[1..]);
      (first.0 + rest.0, first.1 + rest.1, first.2 + rest.2)
  }

  lemma {:induction false} SampleShape(run: FinishedRun, external: bool)
    ensures var leaf := run.Evaluated(external).node.leaf;
            && leaf.inStage && leaf.spawned == external
            && (run.Refused? ==> leaf.attempts.None?)
            && (run.Ran? ==> leaf.attempts.Some? && |leaf.attempts.value| == run.Attempts())
  {
    hide Errors;
  }

  lemma {:induction false} SampleCost(run: FinishedRun, external: bool)
    ensures var cost := OfLeaf(run.Evaluated(external).node.leaf);
            && cost.subprocess == Processes(run, external)
            && cost.retries == Retried(run)
            && cost.samples == (if run.Refused? then 0 else 1)
  {
    hide SampleRun.Evaluated, OfLeaf;
    SampleShape(run, external);
    LeafCounts(run.Evaluated(external).node.leaf);
  }

  lemma {:induction false} SampleCosts(runs: seq<FinishedRun>, external: bool)
    ensures var sum := Sum(SampleLeaves(runs, external));
            (sum.subprocess, sum.retries, sum.samples) == CountSamples(runs, external)
    decreases |runs|
  {
    hide SampleRun.Evaluated, OfLeaf, Processes, Retried;
    if runs != [] {
      SampleCost(runs[0], external);
      SampleCosts(runs[1..], external);
      var leaf := runs[0].Evaluated(external).node.leaf;
      assert ([leaf] + SampleLeaves(runs[1..], external))[1..] == SampleLeaves(runs[1..], external);
    }
  }

  lemma {:induction false} StageCosts(c: Cascade, i: nat, stages: seq<StageRun>)
    requires i + |stages| <= |c.stages|
    ensures var sum := Sum(StageLeaves(c, i, stages));
            (sum.subprocess, sum.retries, sum.samples) == CountStages(c, i, stages)
    decreases |stages|
  {
    hide SampleLeaves, CountSamples, Sum;
    if stages == [] {
      assert Sum([]) == ZERO by { SumOfNone(); }
    } else {
      SampleCosts(stages[0], c.stages[i].external);
      StageCosts(c, i + 1, stages[1..]);
      SumConcat(SampleLeaves(stages[0], c.stages[i].external), StageLeaves(c, i + 1, stages[1..]));
    }
  }

  lemma SumOfNone()
    ensures Sum([]) == ZERO
  {
  }

  /** What the counters of a finished cascade say: the attempts that were run (and one per
      refused external sample), the retries among them, and the samples that were not
      refused. */
  lemma {:induction false} CascadeCounters(c: Cascade, start: real)
    requires c.Valid()
    ensures var stages := StagesRun(c, 0, start).0;
            var total := Total(CascadeEvaluation(c, stages).node);
            (total.subprocess, total.retries, total.samples) == CountStages(c, 0, stages)
  {
    hide CascadeEvaluation, StageLeaves, CountStages, Total, Sum, StageRuns;
    var stages := StagesRun(c, 0, start).0;
    CascadeTotals(c, stages);
    StageCosts(c, 0, stages);
  }

  // ----- the stage deadline over a whole run

  ghost predicate KeepsItsTimeouts(c: Cascade) {
    forall i: nat, n: nat, k: nat, timeout: real, now: real ::
      timeout > 0.0 ==> 0.0 <= c.run(i, n, k, timeout, now).elapsed <= timeout
  }

  /** Every attempt of the sample keeps the stage deadline. */
  predicate InTime(d: Deadline, run: FinishedRun) {
    run.Ran? ==> forall a <- run.trace.attempts :: WithinDeadline(d, a)
  }

  /** How long one sample of a stage may take without a deadline: all its attempts. */
  function SampleBound(s: Stage): real {
    Times(s.retries + 1, s.timeout)
  }

  lemma {:induction false} SampleBoundIsPositive(s: Stage)
    ensures s.timeout >= 0.0 ==> SampleBound(s) >= 0.0
  {
    if s.timeout >= 0.0 { TimesIsPositive(s.retries + 1, s.timeout); }
  }

  lemma {:induction false} SampleInTime(c: Cascade, i: nat, n: nat, deadline: Deadline, now: real)
    requires c.Valid() && i < |c.stages| && KeepsItsTimeouts(c)
    requires deadline.limit.Some? ==> now <= deadline.started + deadline.limit.value + MIN_TIMEOUT
    ensures var (run, finish) := RunSample(c, i, n, deadline, now);
            && InTime(deadline, run)
            && now <= finish <= now + SampleBound(c.stages[i])
            && (deadline.limit.Some? ==> finish <= deadline.started + deadline.limit.value + MIN_TIMEOUT)
  {
    hide Tries;
    SampleBoundIsPositive(c.stages[i]);
    assert c.stages[i] in c.stages;
    var sample := c.SampleOf(i, n, deadline, now);
    assert KeepsTimeouts(sample.run);
    WorkEndsInTime(sample, 0, now);
  }

  /** No attempt of a stage starts after the stage deadline or outlives it by more than a
      millisecond, whatever the retries and samples; a sample is refused only as the last
      one of its stage.  Without a deadline the stage ends when all attempts of all samples
      must have. */
  lemma {:induction false} StageInTime(c: Cascade, i: nat, n: nat, deadline: Deadline, now: real)
    requires c.Valid() && i < |c.stages| && KeepsItsTimeouts(c)
    requires deadline.limit.Some? ==> now <= deadline.started + deadline.limit.value + MIN_TIMEOUT
    ensures var (runs, finish) := RunSamples(c, i, n, deadline, now);
            && (forall run <- runs :: InTime(deadline, run))
            && (forall k :: 0 <= k < |runs| - 1 ==> runs[k].Ran?)
            && now <= finish
            && (n <= c.stages[i].samples ==> finish <= now + Times(c.stages[i].samples - n, SampleBound(c.stages[i])))
            && (deadline.limit.Some? ==> finish <= deadline.started + deadline.limit.value + MIN_TIMEOUT)
    decreases c.stages[i].samples - n
  {
    hide RunSample, InTime, KeepsItsTimeouts, SampleBound;
    assert c.stages[i] in c.stages;
    SampleBoundIsPositive(c.stages[i]);
    if n < c.stages[i].samples {
      var left, bound := c.stages[i].samples - n - 1, SampleBound(c.stages[i]);
      TimesIsPositive(left, bound);
      assert Times(left + 1, bound) == bound + Times(left, bound);
      var (run, finish) := RunSample(c, i, n, deadline, now);
      SampleInTime(c, i, n, deadline, now);
      if !Stops(c, i, run, n + 1) {
        StageInTime(c, i, n + 1, deadline, finish);
      }
    }
  }

  /** How long a stage may take: all its attempts, or its budget if that is less. */
  function StageBound(s: Stage): real {
    var attempts := Times(s.samples, SampleBound(s));
    if s.maxStage.Some? then Min(attempts, s.maxStage.value + MIN_TIMEOUT) else attempts
  }

  /** How long the stages from i on may take. */
  function BoundFrom(c: Cascade, i: nat): real
    requires i <= |c.stages|
    decreases |c.stages| - i
  {
    if i == |c.stages| then 0.0 else StageBound(c.stages[i]) + BoundFrom(c, i + 1)
  }

  lemma {:induction false} BoundIsPositive(c: Cascade, i: nat)
    requires c.Valid() && i <= |c.stages|
    ensures BoundFrom(c, i) >= 0.0
    decreases |c.stages| - i
  {
    hide SampleBound;
    if i < |c.stages| {
      assert c.stages[i] in c.stages;
      SampleBoundIsPositive(c.stages[i]);
      TimesIsPositive(c.stages[i].samples, SampleBound(c.stages[i]));
      BoundIsPositive(c, i + 1);
    }
  }

  /** Every cascade ends in time: within the sum over its stages of all their attempts, or of
      the stage budget where that is less. */
  lemma {:induction false} CascadeInTime(c: Cascade, i: nat, now: real)
    requires c.Valid() && i <= |c.stages| && KeepsItsTimeouts(c)
    ensures now <= StagesRun(c, i, now).1 <= now + BoundFrom(c, i)
    decreases |c.stages| - i
  {
    hide RunSamples, StagePasses, KeepsItsTimeouts, SampleBound;
    if i < |c.stages| {
      assert c.stages[i] in c.stages;
      var finish := StageRuns(c, i, now).1;
      StageInTime(c, i, 0, StageDeadline(c, i, now), now);
      BoundIsPositive(c, i + 1);
      CascadeInTime(c, i + 1, finish);
    }
  }

  // ----- the gates

  /** Every stage that was run passed, except possibly the last; the cascade is valid
      exactly when all its stages were run and passed. */
  lemma {:induction false} OnlyTheLastStageFails(c: Cascade, i: nat, now: real)
    requires c.Valid() && i < |c.stages|
    ensures var stages := StagesRun(c, i, now).0;
            && (forall k :: 0 <= k < |stages| - 1 ==> StagePasses(c, i + k, stages[k]))
            && (StagePasses(c, i + |stages| - 1, stages[|stages| - 1]) <==>
                |stages| == |c.stages| - i && forall k :: 0 <= k < |stages| ==> StagePasses(c, i + k, stages[k]))
    decreases |c.stages| - i
  {
    hide StageRuns, StagePasses;
    var (runs, finish) := StageRuns(c, i, now);
    SamplesAreRun(c, i, now);
    if StagePasses(c, i, runs) && i + 1 < |c.stages| {
      OnlyTheLastStageFails(c, i + 1, finish);
      var rest := StagesRun(c, i + 1, finish).0;
      var stages := StagesRun(c, i, now).0;
      assert stages == [runs] + rest;
      forall k | 0 <= k < |stages|
        ensures k > 0 ==> StagePasses(c, i + k, stages[k]) == StagePasses(c, i + 1 + (k - 1), rest[k - 1])
      {
      }
    }
  }
}
