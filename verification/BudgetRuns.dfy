/** Properties of whole runs of the budget: every sequence of method calls, and every chain
    of processes that restore each other's snapshots (libreevolve/core/budget.py). */
module BudgetRuns {
  import opened Text
  import opened BudgetRoles
  import opened Budget
  import Accounting

  // ----- the invariant of a run

  /** Everything `_validate_budget_state` asks for except the generation counters, and the
      conservation of the per-role meters. */
  ghost predicate Inv(b: Ledger) {
    && ValidLimits(b.limits) && b.startedAt >= 0.0 && b.priorRuntime >= 0.0 && ValidSegments(b.priorSegments)
    && InvUsed(b.used)
  }

  ghost predicate InvUsed(u: Consumed) {
    && u.seedEvaluations + u.candidateEvaluations == u.evaluations && u.evaluatorSeconds >= 0.0
    && u.providerAttempts.Valid() && u.tokens.Valid() && u.cost.Valid() && u.llmSeconds.Valid()
  }

  lemma MeterIsValid(m: Meter)
    requires m.Valid()
    ensures ValidMeter(m)
  {
  }

  /** The state check of a check, a snapshot or `finish` fails in exactly one way: more
      generations completed than started. */
  lemma {:induction false} StateCheck(b: Ledger)
    requires Inv(b)
    ensures ValidState(b) <==> b.used.generationsCompleted <= b.used.generationsStarted
  {
    hide ValidLimits, ValidSegments, ValidMeter, Meter.Valid;
    MeterIsValid(b.used.providerAttempts);
    MeterIsValid(b.used.tokens);
    MeterIsValid(b.used.cost);
    MeterIsValid(b.used.llmSeconds);
  }

  /** No counter has gone down. */
  ghost predicate Later(b: Ledger, c: Ledger) {
    && c.limits == b.limits && c.startedAt == b.startedAt && c.startedUtc == b.startedUtc
    && c.priorRuntime == b.priorRuntime && c.priorSegments == b.priorSegments && c.runStarted == b.runStarted
    && LaterUsed(b.used, c.used)
  }

  ghost predicate LaterUsed(u: Consumed, v: Consumed) {
    && u.evaluations <= v.evaluations && u.seedEvaluations <= v.seedEvaluations
    && u.candidateEvaluations <= v.candidateEvaluations
    && u.evaluatorSeconds <= v.evaluatorSeconds && u.llmCalls <= v.llmCalls
    && u.evaluator.subprocess <= v.evaluator.subprocess && u.evaluator.samples <= v.evaluator.samples
    && u.evaluator.retries <= v.evaluator.retries && u.evaluator.timeouts <= v.evaluator.timeouts
    && u.evaluator.sampleStops <= v.evaluator.sampleStops && u.evaluator.stageStops <= v.evaluator.stageStops
    && u.providerAttempts.Below(v.providerAttempts) && u.tokens.Below(v.tokens)
    && u.cost.Below(v.cost) && u.llmSeconds.Below(v.llmSeconds)
    && u.generationsStarted <= v.generationsStarted && u.generationsCompleted <= v.generationsCompleted
  }

  lemma BelowItself(m: Meter)
    ensures m.Below(m)
  {
  }

  lemma {:induction false} BelowIsTransitive(m: Meter, n: Meter, o: Meter)
    requires m.Below(n) && n.Below(o)
    ensures m.Below(o)
  {
    forall role <- o.byRole ensures Get(m.byRole, role) <= Get(o.byRole, role) {
      if role in n.byRole {}
    }
  }

  lemma {:induction false} LaterIsTransitive(b: Ledger, c: Ledger, d: Ledger)
    requires Later(b, c) && Later(c, d)
    ensures Later(b, d)
  {
    hide Meter.Below;
    BelowIsTransitive(b.used.providerAttempts, c.used.providerAttempts, d.used.providerAttempts);
    BelowIsTransitive(b.used.tokens, c.used.tokens, d.used.tokens);
    BelowIsTransitive(b.used.cost, c.used.cost, d.used.cost);
    BelowIsTransitive(b.used.llmSeconds, c.used.llmSeconds, d.used.llmSeconds);
  }

  lemma {:induction false} LaterThanItself(b: Ledger)
    ensures Later(b, b)
  {
    hide Meter.Below;
    BelowItself(b.used.providerAttempts);
    BelowItself(b.used.tokens);
    BelowItself(b.used.cost);
    BelowItself(b.used.llmSeconds);
  }

  /** Every call, also a refused one, keeps the invariant, takes nothing back and keeps a
      latched stop reason. */
  lemma {:induction false} StepKeeps(b: Ledger, op: Op, now: real)
    requires Inv(b)
    ensures var c := Step(b, op, now).0;
            && Inv(c) && Later(b, c)
            && (b.stopReason.Some? ==> c.stopReason == b.stopReason)
  {
    hide Meter.Below, Meter.Valid, Meter.Add, ValidLimits, ValidSegments, FirstExhausted, RoleRefused;
    hide ValidState, Accounting.Read;
    LaterThanItself(b);
    match op
    case ProviderAttempts(n, role) => if n >= 0 { AddKeepsMeter(b.used.providerAttempts, n as real, role); }
    case Tokens(n, role) => if n >= 0 { AddKeepsMeter(b.used.tokens, n as real, role); }
    case CostMicrousd(n, role) => if n >= 0 { AddKeepsMeter(b.used.cost, n as real, role); }
    case LlmSeconds(x, role) => if x >= 0.0 { AddKeepsMeter(b.used.llmSeconds, x, role); }
    case _ =>
  }

  // ----- runs

  datatype Call = Call(op: Op, now: real)

  ghost function Run(b: Ledger, calls: seq<Call>): Ledger
    decreases |calls|
  {
    if calls == [] then b else Run(Step(b, calls[0].op, calls[0].now).0, calls[1..])
  }

  lemma {:induction false} RunKeeps(b: Ledger, calls: seq<Call>)
    requires Inv(b)
    ensures var c := Run(b, calls);
            && Inv(c) && Later(b, c)
            && (b.stopReason.Some? ==> c.stopReason == b.stopReason)
    decreases |calls|
  {
    hide Inv, Later, Step;
    if calls == [] {
      LaterThanItself(b);
    } else {
      var c := Step(b, calls[0].op, calls[0].now).0;
      StepKeeps(b, calls[0].op, calls[0].now);
      RunKeeps(c, calls[1..]);
      LaterIsTransitive(b, c, Run(c, calls[1..]));
    }
  }

  // ----- exhaustion is permanent

  lemma {:induction false} MeterStays(m: Meter, n: Meter, limits: Tally, limit: Option<real>, role: Option<string>)
    requires m.Below(n) && n.Valid()
    ensures AmountReached(limit, m.total) ==> AmountReached(limit, n.total)
    ensures RoleExhausted(limits, m.byRole, role) ==> RoleExhausted(limits, n.byRole, role)
  {
    hide RoleExhausted;
    if RoleExhausted(limits, m.byRole, role) {
      RoleExhaustedStays(limits, m.byRole, n.byRole, role);
    }
  }

  lemma {:induction false} ReachedStays(
      b: Ledger, c: Ledger, role: Option<string>, now: real, later: real, r: StopReason)
    requires Later(b, c) && Inv(c) && now <= later
    ensures Reached(b, role, now, r) ==> Reached(c, role, later, r)
  {
    hide RoleExhausted, Meter.Below, Meter.Valid, ValidLimits, ValidSegments;
    MeterStays(b.used.providerAttempts, c.used.providerAttempts,
               b.limits.roleProviderAttempts, b.limits.maxProviderAttempts, role);
    MeterStays(b.used.tokens, c.used.tokens, b.limits.roleTokens, b.limits.maxTokens, role);
    MeterStays(b.used.cost, c.used.cost, b.limits.roleCost, b.limits.maxCost, role);
    MeterStays(b.used.llmSeconds, c.used.llmSeconds, b.limits.roleSeconds, b.limits.maxLlmSeconds, role);
  }

  /** Once a question is answered with an exhausted limit, it always is: after any calls and
      at any later time, with the same limit or one that comes before it. */
  lemma {:induction false} ExhaustionIsPermanent(b: Ledger, calls: seq<Call>, q: Query, now: real, later: real)
    requires Inv(b) && now <= later && FirstExhausted(b, q, now).Some?
    ensures var c := Run(b, calls);
            && FirstExhausted(c, q, later).Some?
            && Rank(FirstExhausted(c, q, later).value) <= Rank(FirstExhausted(b, q, now).value)
  {
    hide Reached, Run, FirstExhausted, Rank, Inv, Later;
    var c := Run(b, calls);
    var r := FirstExhausted(b, q, now).value;
    RunKeeps(b, calls);
    FirstIsFirst(b, q, now);
    FirstIsFirst(c, q, later);
    ReachedStays(b, c, q.role, now, later, r);
    assert Stops(c, q, later, r);
  }

  /** A check that reports a reason latches it: every later check, and `finish`, reports the
      same one, whatever else is called in between and whatever limits are reached then. */
  lemma {:induction false} LatchedReasonSurvives(b: Ledger, q: Query, now: real, calls: seq<Call>)
    requires Inv(b)
    requires Step(b, Check(q), now).1 && Step(b, Check(q), now).0.stopReason.Some?
    ensures Run(Step(b, Check(q), now).0, calls).stopReason == Step(b, Check(q), now).0.stopReason
  {
    hide Inv, Later, Run, Step;
    StepKeeps(b, Check(q), now);
    RunKeeps(Step(b, Check(q), now).0, calls);
  }

  /** What is exhausted for one role is exhausted for a check without a role, and what is
      exhausted without the LLM limits is exhausted with them. */
  lemma {:induction false} WiderQueriesStop(b: Ledger, q: Query, wider: Query, now: real)
    requires q.llm ==> wider.llm
    requires wider.role == q.role || wider.role.None?
    requires FirstExhausted(b, q, now).Some?
    ensures FirstExhausted(b, wider, now).Some?
    ensures Rank(FirstExhausted(b, wider, now).value) <= Rank(FirstExhausted(b, q, now).value)
  {
    hide Reached, FirstExhausted, Rank;
    var r := FirstExhausted(b, q, now).value;
    FirstIsFirst(b, q, now);
    FirstIsFirst(b, wider, now);
    ReachedWithoutRole(b, q.role, now, r);
    assert Stops(b, wider, now, r);
  }

  lemma {:induction false} ReachedWithoutRole(b: Ledger, role: Option<string>, now: real, r: StopReason)
    requires Reached(b, role, now, r)
    ensures Reached(b, None, now, r)
  {
    hide RoleExhausted;
    match r
    case RoleProviderAttempts =>
      RoleExhaustedForAll(b.limits.roleProviderAttempts, b.used.providerAttempts.byRole, role);
    case RoleTokens => RoleExhaustedForAll(b.limits.roleTokens, b.used.tokens.byRole, role);
    case RoleCost => RoleExhaustedForAll(b.limits.roleCost, b.used.cost.byRole, role);
    case RoleSeconds => RoleExhaustedForAll(b.limits.roleSeconds, b.used.llmSeconds.byRole, role);
    case _ =>
  }

  // ----- role conservation

  /** In every run from a fresh budget the amounts of the roles, and of any scope of roles,
      stay within the global counter. */
  lemma {:induction false} RolesStayWithinGlobal(limits: Limits, clock: Clock, calls: seq<Call>, scope: string)
    requires ValidLimits(limits) && clock.now >= 0.0
    ensures var u := Run(Fresh(limits, clock), calls).used;
            && RoleWithinGlobal(u.providerAttempts, scope) && RoleWithinGlobal(u.tokens, scope)
            && RoleWithinGlobal(u.cost, scope) && RoleWithinGlobal(u.llmSeconds, scope)
  {
    hide Run, RoleWithinGlobal, Inv, Later, Fresh;
    FreshIsValid(limits, clock);
    RunKeeps(Fresh(limits, clock), calls);
    MetersConserve(Run(Fresh(limits, clock), calls), scope);
  }

  lemma {:induction false} MetersConserve(b: Ledger, scope: string)
    requires Inv(b)
    ensures RoleWithinGlobal(b.used.providerAttempts, scope) && RoleWithinGlobal(b.used.tokens, scope)
    ensures RoleWithinGlobal(b.used.cost, scope) && RoleWithinGlobal(b.used.llmSeconds, scope)
  {
    hide RoleWithinGlobal, Meter.Valid, ValidLimits, ValidSegments;
    ValidMeterConserves(b.used.providerAttempts, scope);
    ValidMeterConserves(b.used.tokens, scope);
    ValidMeterConserves(b.used.cost, scope);
    ValidMeterConserves(b.used.llmSeconds, scope);
  }

  ghost predicate RoleWithinGlobal(m: Meter, scope: string) {
    ScopeConsumed(m.byRole, scope) <= Total(m.byRole) <= m.total
  }

  lemma {:induction false} ValidMeterConserves(m: Meter, scope: string)
    requires m.Valid()
    ensures RoleWithinGlobal(m, scope)
  {
    ScopeWithinTotal(m.byRole, scope);
  }

  lemma {:induction false} FreshIsValid(limits: Limits, clock: Clock)
    requires ValidLimits(limits) && clock.now >= 0.0
    ensures Inv(Fresh(limits, clock))
  {
    hide ValidLimits;
    EmptyIsValid();
  }

  /** The global limit that shadows a role limit, with the role limits of the same family. */
  function Shadow(l: Limits, r: StopReason): (StopReason, Option<real>, Tally) {
    match r
    case RoleProviderAttempts => (MaxProviderAttempts, l.maxProviderAttempts, l.roleProviderAttempts)
    case RoleTokens => (MaxTokens, l.maxTokens, l.roleTokens)
    case RoleCost => (MaxCost, l.maxCost, l.roleCost)
    case RoleSeconds => (MaxLlmSeconds, l.maxLlmSeconds, l.roleSeconds)
    case _ => (r, None, map[])
  }

  /** A role limit is never the reported reason when every role limit of its family is at or
      above the global limit. */
  lemma {:induction false} ShadowedRoleLimit(b: Ledger, q: Query, now: real, r: StopReason)
    requires Inv(b) && FIRST_ROLE <= Rank(r) < RUNTIME
    requires var (_, limit, roles) := Shadow(b.limits, r);
             limit.Some? && forall scope <- roles :: roles[scope] >= limit.value
    ensures FirstExhausted(b, q, now) != Some(r)
  {
    hide FirstExhausted, RoleExhausted, ValidLimits, ValidSegments, Meter.Valid, IsFirst;
    FirstIsFirst(b, q, now);
    if Stops(b, q, now, r) {
      match r
      case RoleProviderAttempts =>
        RoleLimitNeedsGlobal(b.used.providerAttempts, b.limits.roleProviderAttempts, q.role,
                             b.limits.maxProviderAttempts.value);
      case RoleTokens => RoleLimitNeedsGlobal(b.used.tokens, b.limits.roleTokens, q.role, b.limits.maxTokens.value);
      case RoleCost => RoleLimitNeedsGlobal(b.used.cost, b.limits.roleCost, q.role, b.limits.maxCost.value);
      case RoleSeconds =>
        RoleLimitNeedsGlobal(b.used.llmSeconds, b.limits.roleSeconds, q.role, b.limits.maxLlmSeconds.value);
    }
    assert Stops(b, q, now, r) ==> Stops(b, q, now, Shadow(b.limits, r).0);
    FirstIsBefore(b, q, now, r, Shadow(b.limits, r).0);
  }

  lemma {:induction false} FirstIsBefore(b: Ledger, q: Query, now: real, r: StopReason, s: StopReason)
    requires Stops(b, q, now, r) ==> Stops(b, q, now, s)
    requires Rank(s) < Rank(r)
    ensures FirstExhausted(b, q, now) != Some(r)
  {
    hide Stops, FirstExhausted, Rank;
    FirstIsFirst(b, q, now);
  }

  // ----- chains of resumed processes

  /** One process of a run: when it starts, what it calls, and when it takes its snapshot. */
  datatype Process = Process(start: Clock, calls: seq<Call>, end: Clock)

  /** The ledger a process starts with: that of the snapshot before it, carried over
      without asking whether it may be restored. */
  function Begin(limits: Limits, previous: Option<Snapshot>, start: Clock): Ledger {
    match previous
    case None => Fresh(limits, start)
    case Some(s) => Restored(limits, s, start)
  }

  /** The process could take its snapshot, and it is this one. */
  ghost predicate IsLink(limits: Limits, previous: Option<Snapshot>, p: Process, s: Snapshot) {
    var ended := Run(Begin(limits, previous, p.start), p.calls);
    ValidState(ended) && s == SnapshotOf(ended, p.end)
  }

  function Before(snapshots: seq<Snapshot>, i: nat): Option<Snapshot>
    requires i <= |snapshots|
  {
    if i == 0 then None else Some(snapshots[i - 1])
  }

  ghost predicate IsChain(limits: Limits, ps: seq<Process>, snapshots: seq<Snapshot>) {
    && |ps| == |snapshots|
    && ValidLimits(limits)
    && (forall p <- ps :: p.start.now >= 0.0)
    && forall i :: 0 <= i < |ps| ==> IsLink(limits, Before(snapshots, i), ps[i], snapshots[i])
  }

  /** Process time up to and including process i. */
  function ElapsedTo(ps: seq<Process>, i: nat): real
    requires i < |ps|
  {
    (if i == 0 then 0.0 else ElapsedTo(ps, i - 1))
    + (if ps[i].end.now - ps[i].start.now >= 0.0 then ps[i].end.now - ps[i].start.now else 0.0)
  }

  /** The segment that process j leaves in every later snapshot. */
  predicate IsSegmentOf(p: Process, j: nat, segment: Segment) {
    && segment.index == j
    && segment.kind == (if j == 0 then "initial_process" else "resumed_process")
    && segment.startedAt == p.start.utc && segment.updatedAt == p.end.utc
  }

  /** What every snapshot of a chain says. */
  ghost predicate GoodSnapshot(limits: Limits, ps: seq<Process>, i: nat, s: Snapshot)
    requires i < |ps|
  {
    && ValidSnapshot(s) && InvUsed(s.used)
    && s.limits == limits
    && |s.wallClock.segments| == i + 1
    && (forall j :: 0 <= j <= i ==> IsSegmentOf(ps[j], j, s.wallClock.segments[j]))
    && s.wallClock.startedAt == ps[0].start.utc
    && s.runtimeSeconds == ElapsedTo(ps, i)
    && (s.stopReason.Some? <==> s.wallClock.finishedAt.Some?)
  }

  /** The snapshot of a valid ledger is valid. */
  lemma {:induction false} SnapshotIsValid(b: Ledger, clock: Clock)
    requires Inv(b) && ValidState(b)
    ensures ValidSnapshot(SnapshotOf(b, clock)) && InvUsed(SnapshotOf(b, clock).used)
  {
    hide ValidLimits, ValidConsumed, InvUsed;
    hide IsBlank;
    KindIsText(b, clock.utc);
  }

  lemma {:induction false} KindIsText(b: Ledger, utc: Utc)
    ensures !IsBlank(CurrentSegment(b, utc).kind)
  {
    var kind := CurrentSegment(b, utc).kind;
    assert kind[0] in kind && !IsSpace(kind[0]);
  }

  /** A valid snapshot may be restored under the same limits, and the restored ledger starts
      a run that keeps the invariant. */
  lemma {:induction false} RestoreSucceeds(limits: Limits, s: Snapshot, clock: Clock)
    requires ValidSnapshot(s) && s.limits == limits && clock.now >= 0.0
    ensures MayRestore(limits, s, clock)
    ensures InvUsed(s.used) ==> Inv(Restored(limits, s, clock))
  {
    hide ValidLimits, ValidConsumed, ValidSegments, InvUsed;
  }

  /** Along a chain of any length: every snapshot is valid, keeps the limits and the first
      start time, numbers its segments 0..i with only the first an initial process, and has
      the exact process time of all processes so far. */
  lemma {:induction false} ChainSnapshots(limits: Limits, ps: seq<Process>, snapshots: seq<Snapshot>, i: nat)
    requires IsChain(limits, ps, snapshots) && i < |ps|
    ensures GoodSnapshot(limits, ps, i, snapshots[i])
  {
    hide Run, ValidState, InvUsed, ValidSnapshot, GoodSnapshot, MayRestore, Inv, Later, IsLink;
    if i == 0 {
      FirstLink(limits, ps, snapshots[0]);
    } else {
      ChainSnapshots(limits, ps, snapshots, i - 1);
      NextLink(limits, ps, i, snapshots[i - 1], snapshots[i]);
    }
  }

  lemma {:induction false} FirstLink(limits: Limits, ps: seq<Process>, s: Snapshot)
    requires ps != [] && ValidLimits(limits) && ps[0].start.now >= 0.0
    requires IsLink(limits, None, ps[0], s)
    ensures GoodSnapshot(limits, ps, 0, s)
  {
    hide Run, ValidState, InvUsed, ValidSnapshot, Inv, ValidLimits;
    FreshIsValid(limits, ps[0].start);
    RunKeeps(Fresh(limits, ps[0].start), ps[0].calls);
    SnapshotIsValid(Run(Fresh(limits, ps[0].start), ps[0].calls), ps[0].end);
  }

  lemma {:induction false} NextLink(limits: Limits, ps: seq<Process>, i: nat, s: Snapshot, t: Snapshot)
    requires 0 < i < |ps| && ps[i].start.now >= 0.0
    requires GoodSnapshot(limits, ps, i - 1, s)
    requires IsLink(limits, Some(s), ps[i], t)
    ensures GoodSnapshot(limits, ps, i, t)
  {
    hide Run, ValidState, InvUsed, ValidSnapshot, Inv, LaterUsed, IsSegmentOf;
    var b := Restored(limits, s, ps[i].start);
    RestoreSucceeds(limits, s, ps[i].start);
    RunKeeps(b, ps[i].calls);
    var c := Run(b, ps[i].calls);
    SnapshotIsValid(c, ps[i].end);
    SegmentOfProcess(c, ps[i], i);
    assert ElapsedTo(ps, i) == ElapsedTo(ps, i - 1) + (c.Runtime(ps[i].end.now) - c.priorRuntime);
  }

  lemma SegmentOfProcess(b: Ledger, p: Process, i: nat)
    requires |b.priorSegments| == i > 0 && b.startedUtc == p.start.utc
    ensures IsSegmentOf(p, i, CurrentSegment(b, p.end.utc))
  {
  }

  /** Any snapshot of a chain can be restored by a further process, at any time, under the
      limits of the chain and under no others: the guard of the restore never refuses it. */
  lemma {:induction false} ChainCanContinue(
      limits: Limits, ps: seq<Process>, snapshots: seq<Snapshot>, i: nat, other: Limits, clock: Clock)
    requires IsChain(limits, ps, snapshots) && i < |ps| && clock.now >= 0.0
    ensures MayRestore(other, snapshots[i], clock) <==> other == limits
  {
    hide Run, ValidState, InvUsed, ValidSnapshot, Inv, ValidLimits, IsSegmentOf, IsLink;
    ChainSnapshots(limits, ps, snapshots, i);
    RestoreSucceeds(limits, snapshots[i], clock);
  }

  /** From snapshot to snapshot no counter and no process time goes down, and a stop reason
      is never inherited: a process that only records ends without one. */
  lemma {:induction false} ChainCarriesOver(limits: Limits, ps: seq<Process>, snapshots: seq<Snapshot>, i: nat)
    requires IsChain(limits, ps, snapshots) && 0 < i < |ps|
    ensures LaterUsed(snapshots[i - 1].used, snapshots[i].used)
    ensures snapshots[i - 1].runtimeSeconds <= snapshots[i].runtimeSeconds
    ensures OnlyRecords(ps[i].calls) ==> snapshots[i].stopReason == None
  {
    hide Run, GoodSnapshot, LaterUsed, OnlyRecords, IsLink, IsSegmentOf, ValidLimits;
    ChainSnapshots(limits, ps, snapshots, i - 1);
    ChainSnapshots(limits, ps, snapshots, i);
    assert IsLink(limits, Before(snapshots, i), ps[i], snapshots[i]);
    LinkCarriesOver(limits, ps, i, snapshots[i - 1], snapshots[i]);
  }

  lemma {:induction false} LinkCarriesOver(limits: Limits, ps: seq<Process>, i: nat, s: Snapshot, t: Snapshot)
    requires 0 < i < |ps| && ps[i].start.now >= 0.0
    requires GoodSnapshot(limits, ps, i - 1, s) && GoodSnapshot(limits, ps, i, t)
    requires IsLink(limits, Some(s), ps[i], t)
    ensures LaterUsed(s.used, t.used) && s.runtimeSeconds <= t.runtimeSeconds
    ensures OnlyRecords(ps[i].calls) ==> t.stopReason == None
  {
    hide Run, ValidState, InvUsed, ValidSnapshot, Inv, LaterUsed, ValidLimits, IsSegmentOf, OnlyRecords;
    RestoreSucceeds(limits, s, ps[i].start);
    var begin := Restored(limits, s, ps[i].start);
    RunKeeps(begin, ps[i].calls);
    if OnlyRecords(ps[i].calls) { RecordsNeverStop(begin, ps[i].calls); }
  }

  /** No check and no `finish`. */
  predicate OnlyRecords(calls: seq<Call>) {
    forall call <- calls :: !call.op.Check? && !call.op.Finish?
  }

  lemma {:induction false} RecordsNeverStop(b: Ledger, calls: seq<Call>)
    requires OnlyRecords(calls)
    ensures Run(b, calls).stopReason == b.stopReason
    decreases |calls|
  {
    hide Step;
    if calls != [] {
      assert calls[0] in calls && forall call <- calls[1..] :: call in calls;
      RecordKeepsStop(b, calls[0].op, calls[0].now);
      RecordsNeverStop(Step(b, calls[0].op, calls[0].now).0, calls[1..]);
    }
  }

  lemma {:induction false} RecordKeepsStop(b: Ledger, op: Op, now: real)
    requires !op.Check? && !op.Finish?
    ensures Step(b, op, now).0.stopReason == b.stopReason
  {
    hide Meter.Add, ValidAccounting, Accounting.Read;
  }
}
