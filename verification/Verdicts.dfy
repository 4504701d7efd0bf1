/** The verdicts of the evaluator (libreevolve/core/evaluator.py, lines 663-841 and 1698-1756)
    in terms of the samples and their attempts: when a sample, a stage and a cascade are
    valid, which error they report, and which stages are run. */
module Verdicts {
  import opened Text
  import opened Accounting
  import opened Retries
  import opened Cascades

  // ----- samples

  /** The sample was run, no deadline ended its retries, and its last attempt was valid. */
  predicate Succeeded(r: FinishedRun) {
    r.Ran? && !r.trace.end.StageExhausted? && !r.trace.end.SampleExhausted?
    && r.trace.attempts[|r.trace.attempts| - 1].outcome.valid
  }

  /** The error of a sample: the budget that ended it, else the error of its last attempt. */
  function Reported(r: FinishedRun): Error {
    if r.Refused? || r.trace.end.StageExhausted? then StageBudgetExhausted
    else if r.trace.end.SampleExhausted? then SampleBudgetExhausted
    else r.trace.attempts[|r.trace.attempts| - 1].outcome.error
  }

  /** What the result of one sample says. */
  lemma SampleVerdict(r: FinishedRun, external: bool)
    ensures r.Evaluated(external).valid <==> Succeeded(r)
    ensures r.Evaluated(external).Error() == Reported(r)
  {
  }

  /** How a sample is run: refused when the stage deadline has passed, and otherwise with its
      retries, from now on and with a deadline of its own that starts now. */
  lemma {:induction false} SampleRunMeaning(c: Cascade, i: nat, n: nat, deadline: Deadline, now: real)
    requires i < |c.stages|
    ensures var (r, finish) := RunSample(c, i, n, deadline, now);
            && (r.Refused? <==> deadline.limit.Some? && now >= deadline.started + deadline.limit.value)
            && (r.Refused? ==> finish == now)
            && (r.Ran? ==>
                  && IsRun(c.SampleOf(i, n, deadline, now), 0, now, r.trace) && finish == r.trace.finish
                  && c.SampleOf(i, n, deadline, now).stage == deadline
                  && c.SampleOf(i, n, deadline, now).sample == Deadline(c.stages[i].maxSample, now))
  {
    hide Tries, IsRun;
    ExhaustedMeaning(deadline, now);
    if !deadline.Exhausted(now) { TriesIsARun(c.SampleOf(i, n, deadline, now), 0, now); }
  }

  // ----- stages

  predicate AllSucceed(runs: seq<FinishedRun>) {
    forall n :: 0 <= n < |runs| ==> Succeeded(runs[n])
  }

  /** The first error that a sample reports; when none does, the stage has one of its own. */
  predicate IsFirstReported(runs: seq<FinishedRun>, e: Error) {
    if forall n :: 0 <= n < |runs| ==> Reported(runs[n]).NoError? then e == OtherError
    else exists n :: 0 <= n < |runs| && Reported(runs[n]) == e && !e.NoError?
                     && forall k :: 0 <= k < n ==> Reported(runs[k]).NoError?
  }

  lemma {:induction false} EvaluationAt(runs: seq<FinishedRun>, external: bool, n: nat)
    requires n < |runs|
    ensures Evaluations(runs, external)[n].valid <==> Succeeded(runs[n])
    ensures Evaluations(runs, external)[n].Error() == Reported(runs[n])
    decreases |runs|
  {
    SampleVerdict(runs[0], external);
    hide Succeeded, Reported, SampleRun.Evaluated;
    if n > 0 { EvaluationAt(runs[1..], external, n - 1); }
  }

  lemma {:induction false} FirstErrorMeaning(es: seq<Evaluation>)
    ensures (forall e <- es :: e.Error().NoError?) ==> FirstError(es) == OtherError
    ensures (exists e <- es :: !e.Error().NoError?) ==>
              exists n :: 0 <= n < |es| && es[n].Error() == FirstError(es) && !FirstError(es).NoError?
                          && forall k :: 0 <= k < n ==> es[k].Error().NoError?
    decreases |es|
  {
    if es != [] {
      var rest := es[1..];
      FirstErrorMeaning(rest);
      if es[0].Error().NoError? && exists e <- es :: !e.Error().NoError? {
        assert exists e <- rest :: !e.Error().NoError?;
        var n :| 0 <= n < |rest| && rest[n].Error() == FirstError(rest) && !FirstError(rest).NoError?
                 && forall k :: 0 <= k < n ==> rest[k].Error().NoError?;
        assert es[n + 1].Error() == FirstError(es);
        forall k | 0 <= k < n + 1 ensures es[k].Error().NoError? {
          if k > 0 { assert rest[k - 1].Error().NoError?; }
        }
      }
    }
  }

  /** The result of a stage: valid exactly when every sample that was run succeeded, with the
      error of its only sample, and of several samples none when all succeeded and otherwise
      the first one reported. */
  lemma {:induction false} StageVerdict(runs: StageRun, external: bool)
    ensures var result := Aggregate(Evaluations(runs, external), external);
            && (result.valid <==> AllSucceed(runs))
            && (|runs| == 1 ==> result.Error() == Reported(runs[0]))
            && (|runs| > 1 && result.valid ==> result.Error() == NoError)
            && (|runs| > 1 && !result.valid ==> IsFirstReported(runs, result.Error()))
  {
    hide Succeeded, Reported, Evaluations, Evaluation.Error, FirstError;
    var es := Evaluations(runs, external);
    forall n | 0 <= n < |runs|
      ensures (es[n].valid <==> Succeeded(runs[n])) && es[n].Error() == Reported(runs[n]) && es[n] in es
    {
      EvaluationAt(runs, external, n);
    }
    FirstErrorMeaning(es);
    if |es| > 1 { NodeError(es, external); }
  }

  lemma ReportedIsAnError(runs: seq<FinishedRun>)
    ensures !IsFirstReported(runs, NoError)
  {
  }

  lemma NodeError(es: seq<Evaluation>, external: bool)
    requires |es| > 1
    ensures Aggregate(es, external).Error() == if AllValid(es) then NoError else FirstError(es)
  {
  }

  // ----- cascades

  /** Stage i is passed: all its samples succeeded and its gate is open. */
  predicate Passes(c: Cascade, i: nat, runs: seq<FinishedRun>) {
    AllSucceed(runs) && c.gate(i)
  }

  lemma {:induction false} PassesMeaning(c: Cascade, i: nat, runs: StageRun)
    requires i < |c.stages|
    ensures StagePasses(c, i, runs) <==> Passes(c, i, runs)
  {
    hide Aggregate, Evaluations, AllSucceed;
    StageVerdict(runs, c.stages[i].external);
  }

  /** Which stages a cascade runs from stage i on, without the loop: each starts when the one
      before has finished, none follows a stage that is not passed, and they end with the
      last configured stage or with one that is not passed. */
  predicate IsCascadeRun(c: Cascade, i: nat, now: real, stages: seq<StageRun>, times: seq<real>)
    requires i < |c.stages|
  {
    && stages != [] && i + |stages| <= |c.stages| && |times| == |stages| + 1 && times[0] == now
    && (forall k :: 0 <= k < |stages| ==> StageRuns(c, i + k, times[k]) == (stages[k], times[k + 1]))
    && (forall k :: 0 <= k < |stages| - 1 ==> Passes(c, i + k, stages[k]))
    && (i + |stages| == |c.stages| || !Passes(c, i + |stages| - 1, stages[|stages| - 1]))
  }

  function StageTimes(c: Cascade, i: nat, now: real): (times: seq<real>)
    requires c.Valid() && i <= |c.stages|
    ensures times != [] && times[0] == now
    decreases |c.stages| - i
  {
    if i == |c.stages| then [now]
    else
      var (runs, finish) := StageRuns(c, i, now);
      SamplesAreRun(c, i, now);
      if !StagePasses(c, i, runs) then [now, finish] else [now] + StageTimes(c, i + 1, finish)
  }

  lemma {:induction false} CascadeRunIsOne(c: Cascade, i: nat, now: real)
    requires c.Valid() && i < |c.stages|
    ensures var (stages, finish) := StagesRun(c, i, now);
            var times := StageTimes(c, i, now);
            IsCascadeRun(c, i, now, stages, times) && times[|stages|] == finish
    decreases |c.stages| - i
  {
    hide StageRuns, StagePasses, Passes;
    var (runs, finish) := StageRuns(c, i, now);
    SamplesAreRun(c, i, now);
    PassesMeaning(c, i, runs);
    if StagePasses(c, i, runs) && i + 1 < |c.stages| {
      CascadeRunIsOne(c, i + 1, finish);
      StageInFront(c, i, now, runs, StagesRun(c, i + 1, finish).0, StageTimes(c, i + 1, finish));
    }
  }

  lemma {:induction false} StageInFront(
      c: Cascade, i: nat, now: real, runs: StageRun, rest: seq<StageRun>, times: seq<real>)
    requires i + 1 < |c.stages| && times != [] && StageRuns(c, i, now) == (runs, times[0])
    requires Passes(c, i, runs) && IsCascadeRun(c, i + 1, times[0], rest, times)
    ensures IsCascadeRun(c, i, now, [runs] + rest, [now] + times)
  {
    hide StageRuns, Passes;
    var stages: seq<StageRun>, all := [runs] + rest, [now] + times;
    forall k | 0 <= k < |stages|
      ensures StageRuns(c, i + k, all[k]) == (stages[k], all[k + 1])
      ensures k < |stages| - 1 ==> Passes(c, i + k, stages[k])
    {
      assert k > 0 ==> stages[k] == rest[k - 1] && i + k == i + 1 + (k - 1);
    }
    assert stages[|stages| - 1] == rest[|rest| - 1] && i + |stages| == i + 1 + |rest|;
  }

  lemma {:induction false} OnlyOneCascadeRun(c: Cascade, i: nat, now: real, stages: seq<StageRun>, times: seq<real>)
    requires c.Valid() && i < |c.stages| && IsCascadeRun(c, i, now, stages, times)
    ensures StagesRun(c, i, now) == (stages, times[|stages|])
    decreases |stages|
  {
    hide StageRuns, StagePasses, Passes;
    assert StageRuns(c, i + 0, times[0]) == (stages[0], times[1]);
    PassesMeaning(c, i, stages[0]);
    if |stages| > 1 {
      assert Passes(c, i + 0, stages[0]);
      StageFromFront(c, i, now, stages, times);
      OnlyOneCascadeRun(c, i + 1, times[1], stages[1..], times[1..]);
      assert stages == [stages[0]] + stages[1..];
    } else {
      var none: seq<StageRun> := [];
      assert stages == [stages[0]] && [stages[0]] + none == [stages[0]];
    }
  }

  lemma {:induction false} StageFromFront(c: Cascade, i: nat, now: real, stages: seq<StageRun>, times: seq<real>)
    requires i < |c.stages| && IsCascadeRun(c, i, now, stages, times) && |stages| > 1
    ensures IsCascadeRun(c, i + 1, times[1], stages[1..], times[1..])
  {
    hide StageRuns, Passes;
    var rest, later := stages[1..], times[1..];
    forall k | 0 <= k < |rest|
      ensures StageRuns(c, i + 1 + k, later[k]) == (rest[k], later[k + 1])
      ensures k < |rest| - 1 ==> Passes(c, i + 1 + k, rest[k])
    {
      assert rest[k] == stages[k + 1] && i + 1 + k == i + (k + 1);
    }
    assert rest[|rest| - 1] == stages[|stages| - 1] && i + 1 + |rest| == i + |stages|;
  }

  /** The loop over the stages and its description agree, in both directions. */
  lemma {:induction false} CascadeRunMeaning(c: Cascade, start: real, stages: seq<StageRun>, finish: real)
    requires c.Valid()
    ensures StagesRun(c, 0, start) == (stages, finish)
            <==> exists times :: IsCascadeRun(c, 0, start, stages, times) && times[|stages|] == finish
  {
    hide StageRuns, StagePasses, Passes, StagesRun, StageTimes;
    CascadeRunIsOne(c, 0, start);
    if times :| IsCascadeRun(c, 0, start, stages, times) && times[|stages|] == finish {
      OnlyOneCascadeRun(c, 0, start, stages, times);
    }
  }

  /** The verdict on a candidate, by its samples: valid exactly when every configured stage was
      run, all samples of each succeeded and all gates are open.  Otherwise it fails at its
      last stage, with the error of that stage if it has one and never without an error. */
  lemma {:induction false} CascadeVerdict(c: Cascade, start: real)
    requires c.Valid()
    ensures var stages := StagesRun(c, 0, start).0;
            var result, k := CascadeEvaluation(c, stages), |stages| - 1;
            && (result.valid <==>
                  |stages| == |c.stages| && forall i :: 0 <= i < |stages| ==> AllSucceed(stages[i]) && c.gate(i))
            && (forall i :: 0 <= i < k ==> AllSucceed(stages[i]) && c.gate(i))
            && (!result.valid ==> !result.Error().NoError? && !(AllSucceed(stages[k]) && c.gate(k)))
            && (|stages[k]| == 1 && !Reported(stages[k][0]).NoError? ==> result.Error() == Reported(stages[k][0]))
            && (|stages[k]| > 1 && !AllSucceed(stages[k]) ==> IsFirstReported(stages[k], result.Error()))
  {
    hide StageRuns, StagesRun, AllSucceed, Reported, IsFirstReported, StageNodes, Aggregate, Evaluations;
    var (stages, finish) := StagesRun(c, 0, start);
    CascadeRunIsOne(c, 0, start);
    var k := |stages| - 1;
    assert 0 + |stages| - 1 == k;
    PassesMeaning(c, k, stages[k]);
    StageVerdict(stages[k], c.stages[k].external);
    ReportedIsAnError(stages[k]);
    forall i | 0 <= i < k ensures AllSucceed(stages[i]) && c.gate(i) {
      assert Passes(c, 0 + i, stages[i]);
    }
  }
}
