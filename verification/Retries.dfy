/** One sample with retries under two competing deadlines (libreevolve/core/evaluator.py,
    `_run_sample_with_retries` and `_StageDeadline`).  A subprocess attempt is an outcome
    with an elapsed time; the clock only moves while an attempt runs. */
module Retries {
  import opened Text
  import opened Accounting

  const MIN_TIMEOUT := 0.001

  function Max(a: real, b: real): real {
    if a >= b then a else b
  }

  function Min(a: real, b: real): real {
    if a <= b then a else b
  }

  /** `_StageDeadline`; without a limit it is never exhausted. */
  datatype Deadline = Deadline(limit: Option<real>, started: real) {
    function Remaining(now: real): Option<real> {
      match limit
      case None => None
      case Some(seconds) => Some(Max(0.0, seconds - (now - started)))
    }

    predicate Exhausted(now: real) {
      Remaining(now).Some? && Remaining(now).value <= 0.0
    }
  }

  datatype Outcome = Outcome(valid: bool, meetsThreshold: bool, error: Error, elapsed: real) {
    predicate Passes() { valid && meetsThreshold }
  }

  /** The validator under test: attempt number, timeout and start time to outcome. */
  type Validator = (nat, real, real) -> Outcome

  datatype Sample = Sample(run: Validator, timeout: real, retries: nat, stage: Deadline, sample: Deadline)

  datatype Limit = OwnTimeout | ByStage | BySample

  datatype Attempt = Attempt(start: real, timeout: real, limit: Limit, outcome: Outcome) {
    function Finish(): real { start + outcome.elapsed }
  }

  datatype End = Passed | RetriesSpent | StageExhausted | SampleExhausted

  datatype Trace = Trace(attempts: seq<Attempt>, end: End, finish: real)

  /** A deadline is exhausted exactly from its limit after its start on. */
  lemma ExhaustedMeaning(d: Deadline, now: real)
    ensures d.Exhausted(now) <==> d.limit.Some? && now >= d.started + d.limit.value
  {
  }

  // ----- one attempt

  /** One clipping step: the shorter timeout when the deadline leaves less time. */
  function Clip(timeout: real, limit: Limit, remaining: Option<real>, cause: Limit): (real, Limit) {
    match remaining
    case None => (timeout, limit)
    case Some(left) =>
      var clipped := Max(MIN_TIMEOUT, Min(timeout, left));
      if clipped < timeout then (clipped, cause) else (timeout, limit)
  }

  function AttemptTimeout(s: Sample, now: real): (real, Limit) {
    var (first, limit) := Clip(s.timeout, OwnTimeout, s.stage.Remaining(now), ByStage);
    Clip(first, limit, s.sample.Remaining(now), BySample)
  }

  /** A timeout under a clipped limit is reported as that budget being exhausted. */
  function Relabel(e: Error, limit: Limit): Error {
    if !e.Timeout? then e
    else match limit
      case OwnTimeout => e
      case ByStage => StageBudgetExhausted
      case BySample => SampleBudgetExhausted
  }

  function Try(s: Sample, attempt: nat, now: real): Attempt {
    var (timeout, limit) := AttemptTimeout(s, now);
    var outcome := s.run(attempt, timeout, now);
    Attempt(now, timeout, limit, outcome.(error := Relabel(outcome.error, limit)))
  }

  // ----- the retry loop

  /** What the loop does from attempt number `k` on. */
  function Tries(s: Sample, k: nat, now: real): Trace
    decreases s.retries + 1 - k
  {
    if k > s.retries then Trace([], RetriesSpent, now)
    else if s.stage.Exhausted(now) then Trace([], StageExhausted, now)
    else if s.sample.Exhausted(now) then Trace([], SampleExhausted, now)
    else
      var a := Try(s, k, now);
      if a.outcome.Passes() then Trace([a], Passed, a.Finish())
      else
        var rest := Tries(s, k + 1, a.Finish());
        rest.(attempts := [a] + rest.attempts)
  }

  /** The result the loop returns: its validity and its node in the accounting tree. */
  datatype Evaluation = Evaluation(valid: bool, node: Node) {
    function Error(): Error { node.leaf.error }
  }

  function Errors(attempts: seq<Attempt>): (errors: seq<Error>)
    ensures |errors| == |attempts|
    ensures forall i :: 0 <= i < |errors| ==> errors[i] == attempts[i].outcome.error
  {
    seq(|attempts|, i requires 0 <= i < |attempts| => attempts[i].outcome.error)
  }

  function SampleNode(attempts: Option<seq<Error>>, external: bool, error: Error): Node {
    Node(NoRecords, NoSamples, Leaf(attempts, true, external, error))
  }

  function EvaluationOf(t: Trace, external: bool): Evaluation
    requires t.end.RetriesSpent? || t.end.Passed? ==> t.attempts != []
  {
    var errors := Some(Errors(t.attempts));
    match t.end
    case StageExhausted => Evaluation(false, SampleNode(errors, external, StageBudgetExhausted))
    case SampleExhausted => Evaluation(false, SampleNode(errors, external, SampleBudgetExhausted))
    case _ =>
      var last := t.attempts[|t.attempts| - 1].outcome;
      Evaluation(last.valid, SampleNode(errors, external, last.error))
  }

  /** The loop of the program, attempt by attempt. */
  method RunSampleWithRetries(s: Sample, external: bool, start: real) returns (result: Evaluation, finish: real)
    ensures RunsOut(s, start)
    ensures result == EvaluationOf(Tries(s, 0, start), external)
    ensures finish == Tries(s, 0, start).finish
  {
    EndsWithAnAttempt(s, 0, start);
    hide Try, Errors, Tries, EvaluationOf, Deadline.Exhausted;
    ghost var whole := Tries(s, 0, start);
    var attempts: seq<Attempt> := [];
    var now := start;
    assert attempts + whole.attempts == whole.attempts;
    for k := 0 to s.retries + 1
      invariant k > 0 ==> attempts != []
      invariant var rest := Tries(s, k, now);
                whole == rest.(attempts := attempts + rest.attempts)
    {
      TriesStep(s, k, now);
      assert attempts + [] == attempts;
      EvaluationAtEnd(attempts, now, external);
      if s.stage.Exhausted(now) {
        return Evaluation(false, SampleNode(Some(Errors(attempts)), external, StageBudgetExhausted)), now;
      }
      if s.sample.Exhausted(now) {
        return Evaluation(false, SampleNode(Some(Errors(attempts)), external, SampleBudgetExhausted)), now;
      }
      var a := Try(s, k, now);
      assert attempts + ([a] + Tries(s, k + 1, a.Finish()).attempts)
          == (attempts + [a]) + Tries(s, k + 1, a.Finish()).attempts;
      attempts := attempts + [a];
      now := a.Finish();
      EvaluationAtEnd(attempts, now, external);
      if a.outcome.Passes() {
        return Evaluation(a.outcome.valid, SampleNode(Some(Errors(attempts)), external, a.outcome.error)), now;
      }
    }
    TriesStep(s, s.retries + 1, now);
    EvaluationAtEnd(attempts, now, external);
    assert attempts + [] == attempts;
    var last := attempts[|attempts| - 1].outcome;
    return Evaluation(last.valid, SampleNode(Some(Errors(attempts)), external, last.error)), now;
  }

  /** One step of the specification, for the loop. */
  lemma {:induction false} TriesStep(s: Sample, k: nat, now: real)
    ensures Tries(s, k, now)
         == if k > s.retries then Trace([], RetriesSpent, now)
            else if s.stage.Exhausted(now) then Trace([], StageExhausted, now)
            else if s.sample.Exhausted(now) then Trace([], SampleExhausted, now)
            else
              var a := Try(s, k, now);
              if a.outcome.Passes() then Trace([a], Passed, a.Finish())
              else var rest := Tries(s, k + 1, a.Finish()); rest.(attempts := [a] + rest.attempts)
  {
    hide Try, Deadline.Exhausted;
  }

  /** The result for each way to end. */
  lemma {:induction false} EvaluationAtEnd(attempts: seq<Attempt>, finish: real, external: bool)
    ensures EvaluationOf(Trace(attempts, StageExhausted, finish), external)
         == Evaluation(false, SampleNode(Some(Errors(attempts)), external, StageBudgetExhausted))
    ensures EvaluationOf(Trace(attempts, SampleExhausted, finish), external)
         == Evaluation(false, SampleNode(Some(Errors(attempts)), external, SampleBudgetExhausted))
    ensures attempts != [] ==>
              var last := attempts[|attempts| - 1].outcome;
              var result := Evaluation(last.valid, SampleNode(Some(Errors(attempts)), external, last.error));
              && EvaluationOf(Trace(attempts, Passed, finish), external) == result
              && EvaluationOf(Trace(attempts, RetriesSpent, finish), external) == result
  {
    hide Errors;
  }

  /** A loop that is not cut short by a deadline has made an attempt. */
  predicate RunsOut(s: Sample, start: real) {
    var t := Tries(s, 0, start);
    t.end.RetriesSpent? || t.end.Passed? ==> t.attempts != []
  }

  lemma {:induction false} EndsWithAnAttempt(s: Sample, k: nat, now: real)
    ensures k <= s.retries && (Tries(s, k, now).end.RetriesSpent? || Tries(s, k, now).end.Passed?) ==>
          Tries(s, k, now).attempts != []
  {
  }

  // ----- what a run of the loop means

  /** A trace described without the loop: the attempts follow each other without a gap, each
      starts while both deadlines have time left, has the timeout and the outcome of its
      number, and only the last may pass; and the reason it ended is the right one. */
  predicate IsRun(s: Sample, k: nat, now: real, t: Trace) {
    var n := |t.attempts|;
    && k + n <= s.retries + 1
    && (forall i :: 0 <= i < n ==> IsStep(s, k, now, t.attempts, i))
    && t.finish == Start(t.attempts, now, n)
    && t.end == (if n > 0 && t.attempts[n - 1].outcome.Passes() then Passed
                 else if k + n == s.retries + 1 then RetriesSpent
                 else if s.stage.Exhausted(t.finish) then StageExhausted
                 else SampleExhausted)
    && (t.end.SampleExhausted? ==> s.sample.Exhausted(t.finish))
  }

  predicate IsStep(s: Sample, k: nat, now: real, attempts: seq<Attempt>, i: nat)
    requires i < |attempts|
  {
    var start := Start(attempts, now, i);
    && attempts[i] == Try(s, k + i, start)
    && !s.stage.Exhausted(start) && !s.sample.Exhausted(start)
    && (i < |attempts| - 1 ==> !attempts[i].outcome.Passes())
  }

  /** When attempt i of a trace starts: when the one before it finished. */
  function Start(attempts: seq<Attempt>, now: real, i: nat): real
    requires i <= |attempts|
  {
    if i == 0 then now else attempts[i - 1].Finish()
  }

  lemma {:induction false} TriesIsARun(s: Sample, k: nat, now: real)
    requires k <= s.retries + 1
    ensures IsRun(s, k, now, Tries(s, k, now))
    decreases s.retries + 1 - k
  {
    hide Try, IsRun, Deadline.Exhausted;
    if k > s.retries || s.stage.Exhausted(now) || s.sample.Exhausted(now) {
      NoAttempt(s, k, now);
    } else {
      var a := Try(s, k, now);
      if a.outcome.Passes() {
        OneAttempt(s, k, now);
      } else {
        TriesIsARun(s, k + 1, a.Finish());
        Prepended(s, k, now, Tries(s, k + 1, a.Finish()));
      }
    }
  }

  lemma {:induction false} NoAttempt(s: Sample, k: nat, now: real)
    requires k <= s.retries + 1
    ensures k > s.retries ==> IsRun(s, k, now, Trace([], RetriesSpent, now))
    ensures k <= s.retries && s.stage.Exhausted(now) ==> IsRun(s, k, now, Trace([], StageExhausted, now))
    ensures k <= s.retries && !s.stage.Exhausted(now) && s.sample.Exhausted(now) ==>
          IsRun(s, k, now, Trace([], SampleExhausted, now))
  {
    hide Try, Deadline.Exhausted;
  }

  lemma {:induction false} OneAttempt(s: Sample, k: nat, now: real)
    requires k <= s.retries && !s.stage.Exhausted(now) && !s.sample.Exhausted(now) && Try(s, k, now).outcome.Passes()
    ensures IsRun(s, k, now, Trace([Try(s, k, now)], Passed, Try(s, k, now).Finish()))
  {
    hide Try, Deadline.Exhausted;
  }

  lemma {:induction false} Prepended(s: Sample, k: nat, now: real, rest: Trace)
    requires k <= s.retries && !Try(s, k, now).outcome.Passes()
    requires !s.stage.Exhausted(now) && !s.sample.Exhausted(now)
    requires IsRun(s, k + 1, Try(s, k, now).Finish(), rest)
    ensures IsRun(s, k, now, rest.(attempts := [Try(s, k, now)] + rest.attempts))
  {
    hide Try, Deadline.Exhausted, IsStep;
    var a := Try(s, k, now);
    var attempts := [a] + rest.attempts;
    forall i | 0 <= i < |attempts| ensures IsStep(s, k, now, attempts, i) {
      StepShifts(s, k, now, rest.attempts, i);
    }
  }

  lemma {:induction false} StepShifts(s: Sample, k: nat, now: real, rest: seq<Attempt>, i: nat)
    requires i <= |rest| && !Try(s, k, now).outcome.Passes()
    requires !s.stage.Exhausted(now) && !s.sample.Exhausted(now)
    requires i > 0 ==> IsStep(s, k + 1, Try(s, k, now).Finish(), rest, i - 1)
    ensures IsStep(s, k, now, [Try(s, k, now)] + rest, i)
  {
    hide Try, Deadline.Exhausted;
    assert k + 1 + (i - 1) == k + i;
  }

  lemma {:induction false} StepMeans(s: Sample, k: nat, now: real, attempts: seq<Attempt>, i: nat)
    requires i < |attempts| && IsStep(s, k, now, attempts, i)
    ensures attempts[i] == Try(s, k + i, Start(attempts, now, i))
    ensures !s.stage.Exhausted(Start(attempts, now, i)) && !s.sample.Exhausted(Start(attempts, now, i))
    ensures i < |attempts| - 1 ==> !attempts[i].outcome.Passes()
  {
    hide Try, Deadline.Exhausted;
  }

  /** A run is determined: two traces that satisfy the description are the same. */
  lemma {:induction false} SameAttempts(s: Sample, k: nat, now: real, t: Trace, u: Trace, i: nat)
    requires IsRun(s, k, now, t) && IsRun(s, k, now, u)
    requires i <= |t.attempts| && i <= |u.attempts|
    ensures t.attempts[..i] == u.attempts[..i] && Start(t.attempts, now, i) == Start(u.attempts, now, i)
    ensures i > 0 ==> t.attempts[i - 1] == u.attempts[i - 1]
  {
    hide Try, Deadline.Exhausted, IsStep;
    if i > 0 {
      SameAttempts(s, k, now, t, u, i - 1);
      StepMeans(s, k, now, t.attempts, i - 1);
      StepMeans(s, k, now, u.attempts, i - 1);
      assert t.attempts[..i] == t.attempts[..i - 1] + [t.attempts[i - 1]];
      assert u.attempts[..i] == u.attempts[..i - 1] + [u.attempts[i - 1]];
    }
  }

  lemma {:induction false} NotShorter(s: Sample, k: nat, now: real, t: Trace, u: Trace)
    requires IsRun(s, k, now, t) && IsRun(s, k, now, u)
    ensures |t.attempts| >= |u.attempts|
  {
    hide Try, Deadline.Exhausted, IsStep;
    var n := |t.attempts|;
    if n < |u.attempts| {
      if n > 0 { StepMeans(s, k, now, u.attempts, n - 1); }
      StepMeans(s, k, now, u.attempts, n);
      SameAttempts(s, k, now, t, u, n);
      assert false;
    }
  }

  /** The loop and its description agree, in both directions. */
  lemma {:induction false} RunMeaning(s: Sample, start: real, t: Trace)
    ensures t == Tries(s, 0, start) <==> IsRun(s, 0, start, t)
  {
    hide Try, IsRun, Tries;
    TriesIsARun(s, 0, start);
    if IsRun(s, 0, start, t) {
      var u := Tries(s, 0, start);
      NotShorter(s, 0, start, t, u);
      NotShorter(s, 0, start, u, t);
      SameAttempts(s, 0, start, t, u, |t.attempts|);
      assert t.attempts == t.attempts[..|t.attempts|] == u.attempts[..|u.attempts|] == u.attempts;
      SameEnd(s, 0, start, t, u);
    }
  }

  lemma {:induction false} SameEnd(s: Sample, k: nat, now: real, t: Trace, u: Trace)
    requires IsRun(s, k, now, t) && IsRun(s, k, now, u) && t.attempts == u.attempts
    ensures t == u
  {
    hide Try;
  }

  // ----- the two deadlines

  /** The timeout is the tightest of the stage's own timeout and what the deadlines leave,
      but never cut below a millisecond; the label says which deadline was the tighter. */
  lemma AttemptTimeoutMeaning(s: Sample, now: real)
    ensures var (timeout, limit) := AttemptTimeout(s, now);
            var stage := Room(s.stage, now, s.timeout);
            var sample := Room(s.sample, now, s.timeout);
            && timeout == Min(s.timeout, Min(stage, sample))
            && (limit == BySample <==> sample < Min(s.timeout, stage))
            && (limit == ByStage <==> stage < s.timeout && stage <= sample)
  {
  }

  /** What a deadline leaves for an attempt: no bound without a limit. */
  function Room(d: Deadline, now: real, otherwise: real): real {
    if d.limit.None? then otherwise else Max(MIN_TIMEOUT, d.Remaining(now).value)
  }

  /** The validator keeps to the timeouts it is given. */
  ghost predicate KeepsTimeouts(run: Validator) {
    forall k: nat, timeout: real, now: real :: timeout > 0.0 ==> 0.0 <= run(k, timeout, now).elapsed <= timeout
  }

  /** An attempt starts before the deadline and outlives it by at most a millisecond. */
  predicate WithinDeadline(d: Deadline, a: Attempt) {
    d.limit.Some? ==> a.start < d.started + d.limit.value && a.Finish() <= d.started + d.limit.value + MIN_TIMEOUT
  }

  lemma {:induction false} TryKeepsDeadlines(s: Sample, k: nat, now: real)
    requires KeepsTimeouts(s.run) && s.timeout > 0.0
    requires !s.stage.Exhausted(now) && !s.sample.Exhausted(now)
    ensures var a := Try(s, k, now);
            && WithinDeadline(s.stage, a) && WithinDeadline(s.sample, a)
            && now == a.start <= a.Finish() <= now + s.timeout
  {
    AttemptTimeoutMeaning(s, now);
    var (timeout, _) := AttemptTimeout(s, now);
    assert 0.0 <= s.run(k, timeout, now).elapsed <= timeout;
  }

  /** n times x. */
  function Times(n: nat, x: real): real {
    if n == 0 then 0.0 else x + Times(n - 1, x)
  }

  lemma {:induction false} TimesIsPositive(n: nat, x: real)
    requires x >= 0.0
    ensures Times(n, x) >= 0.0
  {
    if n > 0 { TimesIsPositive(n - 1, x); }
  }

  /** No attempt starts past a deadline, and the work ends at most a millisecond after the
      tighter one; a sample never takes longer than all its attempts together may. */
  lemma {:induction false} WorkEndsInTime(s: Sample, k: nat, now: real)
    requires KeepsTimeouts(s.run) && s.timeout > 0.0 && k <= s.retries + 1
    ensures var t := Tries(s, k, now);
            && (forall a <- t.attempts :: WithinDeadline(s.stage, a) && WithinDeadline(s.sample, a) && now <= a.start)
            && now <= t.finish <= now + Times(s.retries + 1 - k, s.timeout)
            && (s.stage.limit.Some? ==> t.finish <= Max(now, s.stage.started + s.stage.limit.value + MIN_TIMEOUT))
            && (s.sample.limit.Some? ==> t.finish <= Max(now, s.sample.started + s.sample.limit.value + MIN_TIMEOUT))
    decreases s.retries + 1 - k
  {
    hide Try, WithinDeadline, KeepsTimeouts;
    TimesIsPositive(s.retries + 1 - k, s.timeout);
    if k <= s.retries && !s.stage.Exhausted(now) && !s.sample.Exhausted(now) {
      var a := Try(s, k, now);
      TryKeepsDeadlines(s, k, now);
      FinishBound(s.stage, a);
      FinishBound(s.sample, a);
      TimesIsPositive(s.retries - k, s.timeout);
      if !a.outcome.Passes() {
        WorkEndsInTime(s, k + 1, a.Finish());
      }
    }
  }

  lemma FinishBound(d: Deadline, a: Attempt)
    requires WithinDeadline(d, a)
    ensures d.limit.Some? ==> a.Finish() <= d.started + d.limit.value + MIN_TIMEOUT
  {
  }

  /** The result passes exactly when some attempt passes, and that attempt is the last:
      retrying stops at the first success. */
  lemma {:induction false} ResultIsFirstSuccess(s: Sample, start: real)
    ensures var t := Tries(s, 0, start);
            && (t.end == Passed <==> exists a <- t.attempts :: a.outcome.valid && a.outcome.meetsThreshold)
            && (t.end == Passed ==>
                  && t.attempts != []
                  && var last := t.attempts[|t.attempts| - 1].outcome; last.valid && last.meetsThreshold)
            && (forall i :: 0 <= i < |t.attempts| - 1 ==>
                              !(t.attempts[i].outcome.valid && t.attempts[i].outcome.meetsThreshold))
            && |t.attempts| <= s.retries + 1
            && (s.stage.limit.None? && s.sample.limit.None? && t.end != Passed ==> |t.attempts| == s.retries + 1)
  {
    hide Try, Tries, IsStep;
    TriesIsARun(s, 0, start);
    var t := Tries(s, 0, start);
    forall i | 0 <= i < |t.attempts| - 1 ensures !t.attempts[i].outcome.Passes() {
      StepMeans(s, 0, start, t.attempts, i);
    }
  }

  /** The error that the validator itself gave in attempt i of a trace. */
  function OwnError(s: Sample, t: Trace, i: nat): Error
    requires i < |t.attempts|
  {
    s.run(i, t.attempts[i].timeout, t.attempts[i].start).error
  }

  /** When a sample reports that a budget ran out: its deadline had passed before an attempt,
      or the last attempt timed out under a timeout which that deadline had shortened (or
      the validator said so itself). */
  lemma {:induction false} ReportedBudget(s: Sample, start: real, external: bool)
    ensures RunsOut(s, start)
    ensures var t := Tries(s, 0, start);
            var error := EvaluationOf(t, external).Error();
            && (t.end.StageExhausted? ==> error == StageBudgetExhausted)
            && (t.end.SampleExhausted? ==> error == SampleBudgetExhausted)
            && (t.end.RetriesSpent? || t.end.Passed? ==>
                  var last := |t.attempts| - 1;
                  var own, limit := OwnError(s, t, last), t.attempts[last].limit;
                  && (error == StageBudgetExhausted <==>
                        own == StageBudgetExhausted || (own == Timeout && limit == ByStage))
                  && (error == SampleBudgetExhausted <==>
                        own == SampleBudgetExhausted || (own == Timeout && limit == BySample))
                  && (error == Timeout <==> own == Timeout && limit == OwnTimeout))
  {
    hide Tries, IsStep, AttemptTimeout;
    EndsWithAnAttempt(s, 0, start);
    TriesIsARun(s, 0, start);
    var t := Tries(s, 0, start);
    if t.attempts != [] {
      StepMeans(s, 0, start, t.attempts, |t.attempts| - 1);
    }
  }
}
