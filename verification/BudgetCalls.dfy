/** What the calls of a budget record, accept and report (libreevolve/core/budget.py, lines
    94-330 and 567-640), counter by counter: which recordings fail, what each adds, which
    snapshots may be restored, and what a snapshot says about its process. */
module BudgetCalls {
  import opened Text
  import opened BudgetRoles
  import opened Budget
  import Accounting

  // ----- recordings

  predicate AcceptedRole(amount: real, role: Option<string>) {
    amount >= 0.0 && (amount > 0.0 && role.Some? ==> ValidLabel(role.value))
  }

  /** No amount is negative, and the role of a positive amount is a label. */
  predicate Accepted(op: Op) {
    match op
    case ProviderAttempts(n, role) => AcceptedRole(n as real, role)
    case Tokens(n, role) => AcceptedRole(n as real, role)
    case CostMicrousd(n, role) => AcceptedRole(n as real, role)
    case LlmSeconds(x, role) => AcceptedRole(x, role)
    case Evaluation(elapsed, seed, accounting) => elapsed >= 0.0 && forall key <- accounting :: accounting[key] >= 0
    case _ => true
  }

  predicate IsRecording(op: Op) {
    !op.Check? && !op.Finish?
  }

  /** The meter has risen by the amount, as a whole and for that role alone; a negative amount
      and a role that is no label add nothing to it, or to a role. */
  ghost predicate Metered(before: Meter, after: Meter, amount: real, role: Option<string>) {
    var added := if amount < 0.0 then 0.0 else amount;
    && after.total == before.total + added
    && forall r :: Get(after.byRole, r) ==
                   Get(before.byRole, r) + (if role == Some(r) && ValidLabel(r) then added else 0.0)
  }

  function Counted(isOne: bool): nat {
    if isOne then 1 else 0
  }

  /** The evaluator work that an accepted evaluation reports; keys it does not have count
      nothing. */
  function Extra(op: Op, key: Accounting.Key): int {
    if op.Evaluation? && Accepted(op) && key in op.accounting then op.accounting[key] else 0
  }

  /** A recording touches the counters alone, each of them exactly as told: one more call or
      generation, the amount on its own meter, and one more evaluation of its kind with its
      time and its work.  It is refused exactly when it is not `Accepted`. */
  lemma {:induction false} RecordMeaning(b: Ledger, op: Op, now: real)
    requires IsRecording(op)
    ensures var (c, ok) := Step(b, op, now);
            var u, v := b.used, c.used;
            && c == b.(used := v)
            && (ok <==> Accepted(op))
            && v.generationsStarted == u.generationsStarted + Counted(op.GenerationStart?)
            && v.generationsCompleted == u.generationsCompleted + Counted(op.GenerationComplete?)
            && v.llmCalls == u.llmCalls + Counted(op.LlmCall?)
            && v.evaluations == u.evaluations + Counted(op.Evaluation? && ok)
            && v.seedEvaluations == u.seedEvaluations + Counted(op.Evaluation? && ok && op.seed)
            && v.candidateEvaluations == u.candidateEvaluations + Counted(op.Evaluation? && ok && !op.seed)
            && v.evaluatorSeconds == u.evaluatorSeconds + (if op.Evaluation? && ok then op.elapsed else 0.0)
  {
    hide ValidLabel;
    if op.Evaluation? { AccountingMeaning(op.accounting); }
  }

  lemma {:induction false} WorkMeaning(b: Ledger, op: Op, now: real)
    requires IsRecording(op)
    ensures var u, v := b.used.evaluator, Step(b, op, now).0.used.evaluator;
            && v.subprocess == u.subprocess + Extra(op, Accounting.SubprocessAttempts)
            && v.samples == u.samples + Extra(op, Accounting.ConfiguredStageSamples)
            && v.retries == u.retries + Extra(op, Accounting.RetryAttempts)
            && v.timeouts == u.timeouts + Extra(op, Accounting.TimeoutCount)
            && v.sampleStops == u.sampleStops + Extra(op, Accounting.SampleBudgetExhaustions)
            && v.stageStops == u.stageStops + Extra(op, Accounting.StageBudgetExhaustions)
  {
    hide ValidLabel, Meter.Add;
    if op.Evaluation? { AccountingMeaning(op.accounting); }
  }

  lemma {:induction false} MeterMeaning(m: Meter, amount: real, role: Option<string>)
    requires amount >= 0.0
    ensures Metered(m, m.Add(amount, role).0, amount, role)
    ensures m.Add(amount, role).1 <==> AcceptedRole(amount, role)
  {
    hide ValidLabel;
  }

  /** Each of the four meters takes the amounts recorded for it and no others. */
  lemma {:induction false} MetersMeaning(b: Ledger, op: Op, now: real)
    requires IsRecording(op)
    ensures var u, v := b.used, Step(b, op, now).0.used;
            && (if op.ProviderAttempts?
                then Metered(u.providerAttempts, v.providerAttempts, op.amount as real, op.role)
                else v.providerAttempts == u.providerAttempts)
            && (if op.Tokens? then Metered(u.tokens, v.tokens, op.amount as real, op.role) else v.tokens == u.tokens)
            && (if op.CostMicrousd? then Metered(u.cost, v.cost, op.amount as real, op.role) else v.cost == u.cost)
            && (if op.LlmSeconds?
                then Metered(u.llmSeconds, v.llmSeconds, op.seconds, op.role)
                else v.llmSeconds == u.llmSeconds)
  {
    hide Meter.Add, Metered, ValidLabel;
    match op
    case ProviderAttempts(n, role) => Recording(b.used.providerAttempts, n as real, role);
    case Tokens(n, role) => Recording(b.used.tokens, n as real, role);
    case CostMicrousd(n, role) => Recording(b.used.cost, n as real, role);
    case LlmSeconds(x, role) => Recording(b.used.llmSeconds, x, role);
    case _ =>
  }

  lemma {:induction false} Recording(m: Meter, amount: real, role: Option<string>)
    ensures if amount < 0.0 then Metered(m, m, amount, role) else Metered(m, m.Add(amount, role).0, amount, role)
  {
    if amount >= 0.0 { MeterMeaning(m, amount, role); }
  }

  // ----- snapshots

  /** No limit is negative, and a limit by role is for a scope. */
  ghost predicate GoodLimits(l: Limits) {
    && (forall limit <- [l.maxEvaluatorSeconds, l.maxProviderAttempts, l.maxTokens, l.maxCost,
                         l.maxLlmSeconds, l.maxRuntimeSeconds] :: limit == None || limit.value >= 0.0)
    && forall t <- [l.roleProviderAttempts, l.roleTokens, l.roleCost, l.roleSeconds] ::
         forall scope <- t :: ValidScope(scope) && t[scope] >= 0.0
  }

  lemma {:induction false} LimitsMeaning(l: Limits)
    ensures ValidLimits(l) <==> GoodLimits(l)
  {
    hide ValidScope;
    var plain := [l.maxEvaluatorSeconds, l.maxProviderAttempts, l.maxTokens, l.maxCost,
                  l.maxLlmSeconds, l.maxRuntimeSeconds];
    assert plain[0] in plain && plain[1] in plain && plain[2] in plain && plain[3] in plain
           && plain[4] in plain && plain[5] in plain;
    var byRole := [l.roleProviderAttempts, l.roleTokens, l.roleCost, l.roleSeconds];
    assert byRole[0] in byRole && byRole[1] in byRole && byRole[2] in byRole && byRole[3] in byRole;
  }

  /** No amount is negative, and an amount by role is for a label; each evaluation is one of a
      seed or of a candidate, and no more generations are completed than started. */
  ghost predicate GoodCounters(u: Consumed) {
    && (forall m <- [u.providerAttempts, u.tokens, u.cost, u.llmSeconds] ::
          m.total >= 0.0 && forall role <- m.byRole :: ValidLabel(role) && m.byRole[role] >= 0.0)
    && u.evaluatorSeconds >= 0.0
    && u.evaluations == u.seedEvaluations + u.candidateEvaluations
    && u.generationsStarted >= u.generationsCompleted
  }

  lemma {:induction false} CountersMeaning(u: Consumed)
    ensures ValidConsumed(u) <==> GoodCounters(u)
  {
    hide ValidLabel;
    var meters := [u.providerAttempts, u.tokens, u.cost, u.llmSeconds];
    assert meters[0] in meters && meters[1] in meters && meters[2] in meters && meters[3] in meters;
  }

  predicate HasText(s: string) {
    exists c <- s :: !IsSpace(c)
  }

  /** The segments are numbered from 0 and say what they are. */
  ghost predicate GoodSegments(segments: seq<Segment>) {
    forall i :: 0 <= i < |segments| ==> segments[i].index == i && HasText(segments[i].kind)
  }

  lemma {:induction false} TextMeaning(s: string)
    ensures !IsBlank(s) <==> HasText(s)
  {
    hide IsSpace;
    if c :| c in s && !IsSpace(c) {}
  }

  lemma {:induction false} SegmentsMeaning(segments: seq<Segment>)
    ensures ValidSegments(segments) <==> GoodSegments(segments)
  {
    hide IsBlank, HasText;
    forall i | 0 <= i < |segments| ensures !IsBlank(segments[i].kind) <==> HasText(segments[i].kind) {
      TextMeaning(segments[i].kind);
    }
  }

  /** A snapshot may be restored exactly when its limits, its counters and its segments are
      good, there is a segment, the time is not negative, the limits are those of the new
      process, and the clock has not gone below zero. */
  lemma {:induction false} RestoreMeaning(limits: Limits, s: Snapshot, clock: Clock)
    ensures MayRestore(limits, s, clock) <==>
              && GoodLimits(s.limits) && GoodCounters(s.used) && GoodSegments(s.wallClock.segments)
              && |s.wallClock.segments| > 0 && s.runtimeSeconds >= 0.0 && s.limits == limits && clock.now >= 0.0
  {
    hide ValidLimits, GoodLimits, ValidConsumed, GoodCounters, ValidSegments, GoodSegments;
    LimitsMeaning(s.limits);
    CountersMeaning(s.used);
    SegmentsMeaning(s.wallClock.segments);
  }

  /** Only in a valid state does a budget answer. */
  lemma {:induction false} StateMeaning(b: Ledger)
    ensures ValidState(b) <==>
              && GoodLimits(b.limits) && GoodCounters(b.used) && GoodSegments(b.priorSegments)
              && b.startedAt >= 0.0 && b.priorRuntime >= 0.0
  {
    hide ValidLimits, GoodLimits, ValidConsumed, GoodCounters, ValidSegments, GoodSegments;
    LimitsMeaning(b.limits);
    CountersMeaning(b.used);
    SegmentsMeaning(b.priorSegments);
  }

  /** A snapshot that is restored and taken again at once is the same in its limits, counters,
      runtime, first start and segments, with one more segment and without the stop reason. */
  lemma SnapshotRoundTrip(b: Ledger, clock: Clock, again: Clock)
    ensures var s := SnapshotOf(b, clock);
            var t := SnapshotOf(Restored(b.limits, s, again), again);
            && (t.limits, t.used, t.runtimeSeconds, t.stopReason) == (s.limits, s.used, s.runtimeSeconds, None)
            && t.wallClock.startedAt == s.wallClock.startedAt
            && |t.wallClock.segments| == |s.wallClock.segments| + 1
            && t.wallClock.segments[..|s.wallClock.segments|] == s.wallClock.segments
  {
  }

  /** What a snapshot says: the limits, the counters and the stop reason; the time of the
      processes before and of this one, unless the clock has gone back; the segments of the
      processes before and one for this process, which is the first one exactly when there
      are none before; and finished exactly when the run has stopped. */
  lemma SnapshotMeaning(b: Ledger, clock: Clock)
    ensures var s := SnapshotOf(b, clock);
            && (s.limits, s.used, s.stopReason) == (b.limits, b.used, b.stopReason)
            && (clock.now >= b.startedAt ==> s.runtimeSeconds == b.priorRuntime + clock.now - b.startedAt)
            && (clock.now < b.startedAt ==> s.runtimeSeconds == b.priorRuntime)
    ensures var wall := SnapshotOf(b, clock).wallClock;
            var current := wall.segments[|wall.segments| - 1];
            && |wall.segments| == |b.priorSegments| + 1 && wall.segments[..|b.priorSegments|] == b.priorSegments
            && current.index == |b.priorSegments| && current.startedAt == b.startedUtc
            && (current.kind == "initial_process" <==> current.index == 0)
            && (current.kind == "resumed_process" <==> current.index > 0)
            && current.updatedAt == wall.updatedAt == clock.utc
            && current.finishedAt == wall.finishedAt
            && (wall.finishedAt == Some(clock.utc) <==> b.stopReason.Some?)
            && (wall.finishedAt == None <==> b.stopReason.None?)
            && (b.runStarted.None? ==> wall.startedAt == b.startedUtc)
            && (b.runStarted.Some? ==> wall.startedAt == b.runStarted.value)
  {
  }
}
