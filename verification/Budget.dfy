/** The run budget (libreevolve/core/budget.py, class `RunBudget`, and
    libreevolve/core/budget_contract.py): limits, counters, the precedence of the limits and
    the latched stop reason.  `RunBudget` is the object; `Ledger` is its value, and `Step`
    says what one method call does to it. */
module Budget {
  import opened Text
  import opened BudgetRoles
  import Accounting

  /** The reasons a run can end for.  `RoleCalls` is reported by no limit, but a snapshot or a
      stop event may carry it. */
  datatype StopReason =
    | MaxEvaluations | MaxEvaluatorSeconds | MaxSubprocessAttempts | MaxStageSamples | MaxRetryAttempts | MaxTimeouts
    | MaxSampleExhaustions | MaxStageExhaustions
    | MaxLlmCalls | MaxProviderAttempts | MaxTokens | MaxCost | MaxLlmSeconds
    | RoleProviderAttempts | RoleTokens | RoleCost | RoleSeconds
    | MaxRuntimeSeconds
    | Aborted | Completed | MaxGenerations | InvalidInitialPrograms | NoParent | NoValidPrograms | RoleCalls

  datatype Limits = Limits(
    maxGenerations: nat, maxEvaluations: Option<nat>, maxEvaluatorSeconds: Option<real>,
    maxSubprocessAttempts: Option<nat>, maxStageSamples: Option<nat>, maxRetryAttempts: Option<nat>,
    maxTimeouts: Option<nat>, maxSampleExhaustions: Option<nat>, maxStageExhaustions: Option<nat>,
    maxLlmCalls: Option<nat>, maxProviderAttempts: Option<real>, maxTokens: Option<real>, maxCost: Option<real>,
    maxLlmSeconds: Option<real>, roleProviderAttempts: Tally, roleTokens: Tally, roleCost: Tally, roleSeconds: Tally,
    maxRuntimeSeconds: Option<real>)

  datatype Consumed = Consumed(
    evaluations: nat, seedEvaluations: nat, candidateEvaluations: nat, evaluatorSeconds: real,
    evaluator: Accounting.Counters,
    llmCalls: nat, providerAttempts: Meter, tokens: Meter, cost: Meter, llmSeconds: Meter,
    generationsStarted: nat, generationsCompleted: nat)

  const NOTHING := Consumed(0, 0, 0, 0.0, Accounting.ZERO, 0, EMPTY, EMPTY, EMPTY, EMPTY, 0, 0)

  type Utc = nat

  /** The monotonic clock and the wall clock, read together. */
  datatype Clock = Clock(now: real, utc: Utc)

  datatype Segment = Segment(index: nat, kind: string, startedAt: Utc, updatedAt: Utc, finishedAt: Option<Utc>)

  datatype Ledger = Ledger(
    limits: Limits, used: Consumed, stopReason: Option<StopReason>, startedAt: real, startedUtc: Utc,
    priorRuntime: real, priorSegments: seq<Segment>, runStarted: Option<Utc>)
  {
    function Runtime(now: real): real {
      priorRuntime + (if now - startedAt >= 0.0 then now - startedAt else 0.0)
    }
  }

  // ----- which limit comes first

  /** The position of a limit in the order in which the limits are looked at. */
  function Rank(r: StopReason): nat {
    match r
    case MaxEvaluations => 0
    case MaxEvaluatorSeconds => 1
    case MaxSubprocessAttempts => 2
    case MaxStageSamples => 3
    case MaxRetryAttempts => 4
    case MaxTimeouts => 5
    case MaxSampleExhaustions => 6
    case MaxStageExhaustions => 7
    case MaxLlmCalls => 8
    case MaxProviderAttempts => 9
    case MaxTokens => 10
    case MaxCost => 11
    case MaxLlmSeconds => 12
    case RoleProviderAttempts => 13
    case RoleTokens => 14
    case RoleCost => 15
    case RoleSeconds => 16
    case MaxRuntimeSeconds => 17
    case _ => 18
  }

  const ORDER: seq<StopReason> := [
    MaxEvaluations, MaxEvaluatorSeconds, MaxSubprocessAttempts, MaxStageSamples, MaxRetryAttempts, MaxTimeouts,
    MaxSampleExhaustions, MaxStageExhaustions, MaxLlmCalls, MaxProviderAttempts, MaxTokens, MaxCost, MaxLlmSeconds,
    RoleProviderAttempts, RoleTokens, RoleCost, RoleSeconds, MaxRuntimeSeconds]

  const FIRST_LLM := 8
  const FIRST_ROLE := 13
  const RUNTIME := 17

  predicate CountReached(limit: Option<nat>, used: nat) {
    limit.Some? && used >= limit.value
  }

  predicate AmountReached(limit: Option<real>, used: real) {
    limit.Some? && used >= limit.value
  }

  /** The limit behind a stop reason has been reached. */
  ghost predicate Reached(b: Ledger, role: Option<string>, now: real, r: StopReason) {
    match r
    case MaxEvaluations => CountReached(b.limits.maxEvaluations, b.used.evaluations)
    case MaxEvaluatorSeconds => AmountReached(b.limits.maxEvaluatorSeconds, b.used.evaluatorSeconds)
    case MaxSubprocessAttempts => CountReached(b.limits.maxSubprocessAttempts, b.used.evaluator.subprocess)
    case MaxStageSamples => CountReached(b.limits.maxStageSamples, b.used.evaluator.samples)
    case MaxRetryAttempts => CountReached(b.limits.maxRetryAttempts, b.used.evaluator.retries)
    case MaxTimeouts => CountReached(b.limits.maxTimeouts, b.used.evaluator.timeouts)
    case MaxSampleExhaustions => CountReached(b.limits.maxSampleExhaustions, b.used.evaluator.sampleStops)
    case MaxStageExhaustions => CountReached(b.limits.maxStageExhaustions, b.used.evaluator.stageStops)
    case MaxLlmCalls => CountReached(b.limits.maxLlmCalls, b.used.llmCalls)
    case MaxProviderAttempts => AmountReached(b.limits.maxProviderAttempts, b.used.providerAttempts.total)
    case MaxTokens => AmountReached(b.limits.maxTokens, b.used.tokens.total)
    case MaxCost => AmountReached(b.limits.maxCost, b.used.cost.total)
    case MaxLlmSeconds => AmountReached(b.limits.maxLlmSeconds, b.used.llmSeconds.total)
    case RoleProviderAttempts => RoleExhausted(b.limits.roleProviderAttempts, b.used.providerAttempts.byRole, role)
    case RoleTokens => RoleExhausted(b.limits.roleTokens, b.used.tokens.byRole, role)
    case RoleCost => RoleExhausted(b.limits.roleCost, b.used.cost.byRole, role)
    case RoleSeconds => RoleExhausted(b.limits.roleSeconds, b.used.llmSeconds.byRole, role)
    case MaxRuntimeSeconds => AmountReached(b.limits.maxRuntimeSeconds, b.Runtime(now))
    case _ => false
  }

  /** What a limit check asks: with or without the LLM limits, for a role or for all. */
  datatype Query = Query(llm: bool, role: Option<string>)

  ghost predicate Stops(b: Ledger, q: Query, now: real, r: StopReason) {
    Reached(b, q.role, now, r) && (FIRST_LLM <= Rank(r) < RUNTIME ==> q.llm)
  }

  /** The reported reason is the reached limit that comes first, if any is reached. */
  ghost predicate IsFirst(b: Ledger, q: Query, now: real, found: Option<StopReason>) {
    && (found.Some? ==> Stops(b, q, now, found.value))
    && forall r :: Stops(b, q, now, r) ==> found.Some? && Rank(found.value) <= Rank(r)
  }

  lemma RankIsPosition(r: StopReason)
    ensures Rank(r) < |ORDER| ==> ORDER[Rank(r)] == r
    ensures |ORDER| == 18
  {
  }

  lemma OnlyLimitsStop(b: Ledger, q: Query, now: real, r: StopReason)
    requires Stops(b, q, now, r)
    ensures Rank(r) < |ORDER|
  {
  }

  ghost function FirstFrom(b: Ledger, q: Query, now: real, k: nat): Option<StopReason>
    requires k <= |ORDER|
    decreases |ORDER| - k
  {
    if k == |ORDER| then None
    else if Stops(b, q, now, ORDER[k]) then Some(ORDER[k])
    else FirstFrom(b, q, now, k + 1)
  }

  ghost function FirstExhausted(b: Ledger, q: Query, now: real): Option<StopReason> {
    FirstFrom(b, q, now, 0)
  }

  lemma {:induction false} FirstFromIsFirst(b: Ledger, q: Query, now: real, k: nat)
    requires k <= |ORDER|
    requires forall r :: Stops(b, q, now, r) ==> Rank(r) >= k
    ensures IsFirst(b, q, now, FirstFrom(b, q, now, k))
    decreases |ORDER| - k
  {
    hide Stops, Rank;
    if k == |ORDER| {
      forall r ensures !Stops(b, q, now, r) {
        if Stops(b, q, now, r) { OnlyLimitsStop(b, q, now, r); }
      }
    } else {
      RankOfPosition(k);
      if !Stops(b, q, now, ORDER[k]) {
        forall r | Stops(b, q, now, r) ensures Rank(r) >= k + 1 {
          RankIsPosition(r);
          OnlyLimitsStop(b, q, now, r);
        }
        FirstFromIsFirst(b, q, now, k + 1);
      }
    }
  }

  lemma RankOfPosition(k: nat)
    requires k < |ORDER|
    ensures Rank(ORDER[k]) == k
  {
  }

  lemma {:induction false} FirstIsFirst(b: Ledger, q: Query, now: real)
    ensures IsFirst(b, q, now, FirstExhausted(b, q, now))
  {
    hide Stops;
    FirstFromIsFirst(b, q, now, 0);
  }

  /** The report is determined: only one reason can be the first. */
  lemma {:induction false} FirstIsUnique(b: Ledger, q: Query, now: real, found: Option<StopReason>)
    requires IsFirst(b, q, now, found)
    ensures found == FirstExhausted(b, q, now)
  {
    hide Stops, Rank, FirstExhausted;
    FirstIsFirst(b, q, now);
    var other := FirstExhausted(b, q, now);
    if found.Some? && other.Some? {
      RankIsPosition(found.value);
      RankIsPosition(other.value);
      OnlyLimitsStop(b, q, now, found.value);
    }
  }

  /** None of the limits before position k is reached. */
  ghost predicate NoneBefore(b: Ledger, q: Query, now: real, k: nat) {
    forall r :: Rank(r) < k ==> !Stops(b, q, now, r)
  }

  /** Looking at one limit: it is the first, or one more is known not to be reached. */
  lemma {:induction false} Look(b: Ledger, q: Query, now: real, r: StopReason)
    requires NoneBefore(b, q, now, Rank(r)) && Rank(r) < |ORDER|
    ensures Stops(b, q, now, r) ==> IsFirst(b, q, now, Some(r)) && Some(r) == FirstExhausted(b, q, now)
    ensures !Stops(b, q, now, r) ==> NoneBefore(b, q, now, Rank(r) + 1)
  {
    hide Stops, FirstExhausted;
    if Stops(b, q, now, r) {
      FirstIsUnique(b, q, now, Some(r));
    } else {
      RankIsPosition(r);
      forall x | Rank(x) < Rank(r) + 1 ensures !Stops(b, q, now, x) {
        RankIsPosition(x);
      }
    }
  }

  lemma {:induction false} NothingReached(b: Ledger, q: Query, now: real)
    requires NoneBefore(b, q, now, |ORDER|)
    ensures IsFirst(b, q, now, None) && FirstExhausted(b, q, now) == None
  {
    hide Stops, FirstExhausted;
    forall r ensures !Stops(b, q, now, r) {
      if Stops(b, q, now, r) { OnlyLimitsStop(b, q, now, r); }
    }
    FirstIsUnique(b, q, now, None);
  }

  /** With no limit reached before the role limits, an invalid role is refused. */
  lemma {:induction false} RefusedAtRoles(b: Ledger, q: Query, now: real)
    requires NoneBefore(b, q, now, FIRST_ROLE)
    ensures RoleRefused(b, q, now) <==> q.llm && q.role.Some? && !ValidLabel(q.role.value)
  {
    hide Stops, FirstExhausted;
    FirstIsFirst(b, q, now);
  }

  lemma NotRefusedBefore(b: Ledger, q: Query, now: real, r: StopReason)
    requires FirstExhausted(b, q, now) == Some(r) && Rank(r) < FIRST_ROLE
    ensures !RoleRefused(b, q, now)
  {
  }

  /** A check without the LLM limits goes straight from the evaluator limits to the clock. */
  lemma {:induction false} SkipLlm(b: Ledger, q: Query, now: real)
    requires NoneBefore(b, q, now, FIRST_LLM) && !q.llm
    ensures NoneBefore(b, q, now, RUNTIME)
    ensures !RoleRefused(b, q, now)
  {
    hide Reached, Rank, FirstExhausted;
  }

  lemma NoneBeforeTheFirst(b: Ledger, q: Query, now: real)
    ensures NoneBefore(b, q, now, 0)
  {
  }

  // ----- the value of a budget

  predicate ValidScopes(limits: Tally) {
    forall scope <- limits :: ValidScope(scope) && limits[scope] >= 0.0
  }

  predicate OptionNonNegative(limit: Option<real>) {
    limit.Some? ==> limit.value >= 0.0
  }

  predicate ValidLimits(l: Limits) {
    && OptionNonNegative(l.maxEvaluatorSeconds)
    && OptionNonNegative(l.maxProviderAttempts)
    && OptionNonNegative(l.maxTokens)
    && OptionNonNegative(l.maxCost) && OptionNonNegative(l.maxLlmSeconds) && OptionNonNegative(l.maxRuntimeSeconds)
    && ValidScopes(l.roleProviderAttempts) && ValidScopes(l.roleTokens)
    && ValidScopes(l.roleCost) && ValidScopes(l.roleSeconds)
  }

  predicate ValidTally(m: Tally) {
    forall role <- m :: ValidLabel(role) && m[role] >= 0.0
  }

  predicate ValidMeter(m: Meter) {
    m.total >= 0.0 && ValidTally(m.byRole)
  }

  predicate ValidConsumed(u: Consumed) {
    && u.seedEvaluations + u.candidateEvaluations == u.evaluations
    && u.evaluatorSeconds >= 0.0
    && ValidMeter(u.providerAttempts) && ValidMeter(u.tokens) && ValidMeter(u.cost) && ValidMeter(u.llmSeconds)
    && u.generationsCompleted <= u.generationsStarted
  }

  /** `_validate_restored_resume_segment` for every segment. */
  predicate ValidSegments(segments: seq<Segment>) {
    forall i :: 0 <= i < |segments| ==> segments[i].index == i && !IsBlank(segments[i].kind)
  }

  /** `_validate_budget_state`. */
  predicate ValidState(b: Ledger) {
    && ValidLimits(b.limits) && b.startedAt >= 0.0 && ValidConsumed(b.used)
    && b.priorRuntime >= 0.0 && ValidSegments(b.priorSegments)
  }

  // ----- what a method call does

  datatype Op =
    | GenerationStart | GenerationComplete | LlmCall
    | ProviderAttempts(amount: int, role: Option<string>)
    | Tokens(amount: int, role: Option<string>)
    | CostMicrousd(amount: int, role: Option<string>)
    | LlmSeconds(seconds: real, role: Option<string>)
    | Evaluation(elapsed: real, seed: bool, accounting: map<Accounting.Key, int>)
    | Check(query: Query)
    | Finish(bestFound: bool)

  predicate ValidAccounting(accounting: map<Accounting.Key, int>) {
    forall key <- Accounting.ACCOUNTING_KEYS :: key in accounting ==> accounting[key] >= 0
  }

  lemma {:induction false} AccountingMeaning(accounting: map<Accounting.Key, int>)
    ensures ValidAccounting(accounting) <==> forall key <- accounting :: accounting[key] >= 0
  {
    forall key: Accounting.Key ensures key in Accounting.ACCOUNTING_KEYS {
      Accounting.KeysAreAll(key);
    }
  }

  function Evaluated(u: Consumed, elapsed: real, seed: bool, accounting: map<Accounting.Key, int>): Consumed {
    u.(evaluations := u.evaluations + 1,
       seedEvaluations := u.seedEvaluations + (if seed then 1 else 0),
       candidateEvaluations := u.candidateEvaluations + (if seed then 0 else 1),
       evaluatorSeconds := u.evaluatorSeconds + elapsed,
       evaluator := u.evaluator.Plus(Accounting.Read(accounting)))
  }

  /** An invalid role is refused when the check reaches the role limits. */
  ghost predicate RoleRefused(b: Ledger, q: Query, now: real) {
    var first := FirstExhausted(b, q, now);
    q.llm && q.role.Some? && !ValidLabel(q.role.value) && (first.None? || Rank(first.value) >= FIRST_ROLE)
  }

  /** `_check_limits`: the latched reason, or the first exhausted limit, which is latched. */
  ghost function Checked(b: Ledger, q: Query, now: real): (Ledger, bool) {
    if !ValidState(b) then (b, false)
    else if b.stopReason.Some? then (b, true)
    else if RoleRefused(b, q, now) then (b, false)
    else (b.(stopReason := FirstExhausted(b, q, now)), true)
  }

  ghost function Finished(b: Ledger, bestFound: bool, now: real): (Ledger, bool) {
    var (checked, ok) := Checked(b, Query(true, None), now);
    if !ok then (b, false)
    else if checked.stopReason.Some? then (checked, true)
    else (b.(stopReason := Some(if !bestFound then NoValidPrograms
                                else if b.used.generationsCompleted >= b.limits.maxGenerations then MaxGenerations
                                else Completed)), true)
  }

  /** The new state, and whether the call returned without an error. */
  ghost function Step(b: Ledger, op: Op, now: real): (Ledger, bool) {
    var u := b.used;
    match op
    case GenerationStart => (b.(used := u.(generationsStarted := u.generationsStarted + 1)), true)
    case GenerationComplete => (b.(used := u.(generationsCompleted := u.generationsCompleted + 1)), true)
    case LlmCall => (b.(used := u.(llmCalls := u.llmCalls + 1)), true)
    case ProviderAttempts(n, role) =>
      if n < 0 then (b, false)
      else var (m, ok) := u.providerAttempts.Add(n as real, role); (b.(used := u.(providerAttempts := m)), ok)
    case Tokens(n, role) =>
      if n < 0 then (b, false)
      else var (m, ok) := u.tokens.Add(n as real, role); (b.(used := u.(tokens := m)), ok)
    case CostMicrousd(n, role) =>
      if n < 0 then (b, false)
      else var (m, ok) := u.cost.Add(n as real, role); (b.(used := u.(cost := m)), ok)
    case LlmSeconds(x, role) =>
      if x < 0.0 then (b, false)
      else var (m, ok) := u.llmSeconds.Add(x, role); (b.(used := u.(llmSeconds := m)), ok)
    case Evaluation(elapsed, seed, accounting) =>
      if elapsed < 0.0 || !ValidAccounting(accounting) then (b, false)
      else (b.(used := Evaluated(u, elapsed, seed, accounting)), true)
    case Check(q) => Checked(b, q, now)
    case Finish(bestFound) => Finished(b, bestFound, now)
  }

  /** What a check answers.  It fails, without a trace, in an invalid state, and for an invalid
      role when the LLM limits are asked about and no limit before the role limits stops the
      run.  Otherwise a latched reason stays, and without one the first limit that stops the
      run is latched, if there is any. */
  lemma {:induction false} CheckMeaning(b: Ledger, q: Query, now: real)
    ensures var (c, ok) := Step(b, Check(q), now);
            && c == b.(stopReason := c.stopReason)
            && (b.stopReason.Some? || !ok ==> c == b)
            && (ok && b.stopReason.None? ==> IsFirst(b, q, now, c.stopReason))
            && (ok <==>
                  && ValidState(b)
                  && (b.stopReason.Some? || !q.llm || q.role.None? || ValidLabel(q.role.value)
                      || exists r :: Stops(b, q, now, r) && Rank(r) < FIRST_ROLE))
  {
    hide FirstExhausted, ValidState, Stops, ValidLabel;
    FirstIsFirst(b, q, now);
    if r :| Stops(b, q, now, r) && Rank(r) < FIRST_ROLE {
      assert Rank(FirstExhausted(b, q, now).value) <= Rank(r);
    }
  }

  predicate Room(limit: Option<real>, used: real) {
    limit.None? || used < limit.value
  }

  predicate RoomFor(limit: Option<nat>, used: nat) {
    limit.None? || used < limit.value
  }

  /** The limit behind the reason leaves room: it is not set, or strictly more than what has
      been consumed. */
  ghost predicate LeavesRoom(b: Ledger, role: Option<string>, now: real, r: StopReason) {
    match r
    case MaxEvaluations => RoomFor(b.limits.maxEvaluations, b.used.evaluations)
    case MaxEvaluatorSeconds => Room(b.limits.maxEvaluatorSeconds, b.used.evaluatorSeconds)
    case MaxSubprocessAttempts => RoomFor(b.limits.maxSubprocessAttempts, b.used.evaluator.subprocess)
    case MaxStageSamples => RoomFor(b.limits.maxStageSamples, b.used.evaluator.samples)
    case MaxRetryAttempts => RoomFor(b.limits.maxRetryAttempts, b.used.evaluator.retries)
    case MaxTimeouts => RoomFor(b.limits.maxTimeouts, b.used.evaluator.timeouts)
    case MaxSampleExhaustions => RoomFor(b.limits.maxSampleExhaustions, b.used.evaluator.sampleStops)
    case MaxStageExhaustions => RoomFor(b.limits.maxStageExhaustions, b.used.evaluator.stageStops)
    case MaxLlmCalls => RoomFor(b.limits.maxLlmCalls, b.used.llmCalls)
    case MaxProviderAttempts => Room(b.limits.maxProviderAttempts, b.used.providerAttempts.total)
    case MaxTokens => Room(b.limits.maxTokens, b.used.tokens.total)
    case MaxCost => Room(b.limits.maxCost, b.used.cost.total)
    case MaxLlmSeconds => Room(b.limits.maxLlmSeconds, b.used.llmSeconds.total)
    case RoleProviderAttempts => RolesHaveRoom(b.limits.roleProviderAttempts, b.used.providerAttempts.byRole, role)
    case RoleTokens => RolesHaveRoom(b.limits.roleTokens, b.used.tokens.byRole, role)
    case RoleCost => RolesHaveRoom(b.limits.roleCost, b.used.cost.byRole, role)
    case RoleSeconds => RolesHaveRoom(b.limits.roleSeconds, b.used.llmSeconds.byRole, role)
    case MaxRuntimeSeconds => Room(b.limits.maxRuntimeSeconds, b.Runtime(now))
    case _ => true
  }

  /** A reason stops the run exactly when its limit leaves no room, and for the limits on
      language model calls only when those are asked about. */
  lemma {:induction false} StopsMeaning(b: Ledger, q: Query, now: real, r: StopReason)
    ensures Stops(b, q, now, r) <==>
              !LeavesRoom(b, q.role, now, r) && (q.llm || Rank(r) < FIRST_LLM || r == MaxRuntimeSeconds)
  {
    hide RoleExhausted, RolesHaveRoom;
    match r
    case RoleProviderAttempts => RoomMeaning(b.limits.roleProviderAttempts, b.used.providerAttempts.byRole, q.role);
    case RoleTokens => RoomMeaning(b.limits.roleTokens, b.used.tokens.byRole, q.role);
    case RoleCost => RoomMeaning(b.limits.roleCost, b.used.cost.byRole, q.role);
    case RoleSeconds => RoomMeaning(b.limits.roleSeconds, b.used.llmSeconds.byRole, q.role);
    case _ =>
  }

  /** How `finish` ends a run: with the latched reason, else with the first limit that stops
      it, the LLM limits included, and only when no limit does with a regular end: no valid
      program, all generations completed, or completed. */
  lemma {:induction false} FinishMeaning(b: Ledger, bestFound: bool, now: real)
    ensures var (c, ok) := Step(b, Finish(bestFound), now);
            && (ok <==> ValidState(b))
            && c == b.(stopReason := c.stopReason)
            && (b.stopReason.Some? || !ok ==> c == b)
            && (ok && b.stopReason.None? ==>
                  && c.stopReason.Some?
                  && if exists r :: Stops(b, Query(true, None), now, r)
                     then IsFirst(b, Query(true, None), now, c.stopReason)
                     else
                       && (c.stopReason.value.NoValidPrograms? <==> !bestFound)
                       && (c.stopReason.value.MaxGenerations? <==>
                             bestFound && b.used.generationsCompleted >= b.limits.maxGenerations)
                       && (c.stopReason.value.Completed? <==>
                             bestFound && b.used.generationsCompleted < b.limits.maxGenerations))
  {
    hide FirstExhausted, ValidState, Stops, Rank;
    FirstIsFirst(b, Query(true, None), now);
  }

  function Fresh(limits: Limits, clock: Clock): Ledger {
    Ledger(limits, NOTHING, None, clock.now, clock.utc, 0.0, [], None)
  }

  // ----- snapshots

  datatype WallClock = WallClock(startedAt: Utc, updatedAt: Utc, segments: seq<Segment>, finishedAt: Option<Utc>)

  datatype Snapshot = Snapshot(
    wallClock: WallClock, limits: Limits, used: Consumed, runtimeSeconds: real, stopReason: Option<StopReason>)

  function CurrentSegment(b: Ledger, utc: Utc): Segment {
    Segment(|b.priorSegments|, if b.priorSegments == [] then "initial_process" else "resumed_process",
            b.startedUtc, utc, if b.stopReason.Some? then Some(utc) else None)
  }

  function SnapshotOf(b: Ledger, clock: Clock): Snapshot {
    Snapshot(
      WallClock(if b.runStarted.Some? then b.runStarted.value else b.startedUtc, clock.utc,
                b.priorSegments + [CurrentSegment(b, clock.utc)],
                if b.stopReason.Some? then Some(clock.utc) else None),
      b.limits, b.used, b.Runtime(clock.now), b.stopReason)
  }

  /** `validate_restored_budget_snapshot`. */
  predicate ValidSnapshot(s: Snapshot) {
    && s.wallClock.segments != [] && ValidSegments(s.wallClock.segments)
    && ValidLimits(s.limits)
    && ValidConsumed(s.used) && s.runtimeSeconds >= 0.0
  }

  /** `from_restored_snapshot`: the counters carry over, the stop reason does not. */
  function Restored(limits: Limits, s: Snapshot, clock: Clock): Ledger {
    Ledger(limits, s.used, None, clock.now, clock.utc,
           s.runtimeSeconds, s.wallClock.segments, Some(s.wallClock.startedAt))
  }

  predicate MayRestore(limits: Limits, s: Snapshot, clock: Clock) {
    ValidSnapshot(s) && s.limits == limits && ValidState(Restored(limits, s, clock))
  }

  // ----- the object

  class RunBudget {
    const limits: Limits
    const startedAt: real
    const startedUtc: Utc
    var evaluations: nat
    var seedEvaluations: nat
    var candidateEvaluations: nat
    var evaluatorSeconds: real
    var evaluatorSubprocessAttempts: nat
    var evaluatorStageSamples: nat
    var evaluatorRetryAttempts: nat
    var evaluatorTimeouts: nat
    var evaluatorSampleExhaustions: nat
    var evaluatorStageExhaustions: nat
    var llmCalls: nat
    var llmProviderAttempts: Meter
    var llmTokens: Meter
    var llmCostMicrousd: Meter
    var llmSeconds: Meter
    var generationsStarted: nat
    var generationsCompleted: nat
    var stopReason: Option<StopReason>
    const priorRuntime: real
    const priorSegments: seq<Segment>
    const runStarted: Option<Utc>

    function Used(): Consumed
      reads this
    {
      Consumed(evaluations, seedEvaluations, candidateEvaluations, evaluatorSeconds,
               Accounting.Counters(evaluatorSubprocessAttempts, evaluatorStageSamples, evaluatorRetryAttempts,
                                   evaluatorTimeouts, evaluatorSampleExhaustions, evaluatorStageExhaustions),
               llmCalls, llmProviderAttempts, llmTokens, llmCostMicrousd, llmSeconds,
               generationsStarted, generationsCompleted)
    }

    function Value(): Ledger
      reads this
    {
      Ledger(limits, Used(), stopReason, startedAt, startedUtc, priorRuntime, priorSegments, runStarted)
    }

    constructor (limits: Limits, clock: Clock)
      ensures Value() == Fresh(limits, clock)
    {
      this.limits, startedAt, startedUtc := limits, clock.now, clock.utc;
      evaluations, seedEvaluations, candidateEvaluations, evaluatorSeconds := 0, 0, 0, 0.0;
      evaluatorSubprocessAttempts, evaluatorStageSamples, evaluatorRetryAttempts := 0, 0, 0;
      evaluatorTimeouts, evaluatorSampleExhaustions, evaluatorStageExhaustions := 0, 0, 0;
      llmCalls, llmProviderAttempts, llmTokens, llmCostMicrousd, llmSeconds := 0, EMPTY, EMPTY, EMPTY, EMPTY;
      generationsStarted, generationsCompleted, stopReason := 0, 0, None;
      priorRuntime, priorSegments, runStarted := 0.0, [], None;
    }

    constructor FromSnapshot(limits: Limits, s: Snapshot, clock: Clock)
      ensures Value() == Restored(limits, s, clock)
    {
      this.limits, startedAt, startedUtc := limits, clock.now, clock.utc;
      evaluations, seedEvaluations, candidateEvaluations :=
        s.used.evaluations, s.used.seedEvaluations, s.used.candidateEvaluations;
      evaluatorSeconds := s.used.evaluatorSeconds;
      evaluatorSubprocessAttempts, evaluatorStageSamples := s.used.evaluator.subprocess, s.used.evaluator.samples;
      evaluatorRetryAttempts, evaluatorTimeouts := s.used.evaluator.retries, s.used.evaluator.timeouts;
      evaluatorSampleExhaustions, evaluatorStageExhaustions :=
        s.used.evaluator.sampleStops, s.used.evaluator.stageStops;
      llmCalls, llmProviderAttempts, llmTokens := s.used.llmCalls, s.used.providerAttempts, s.used.tokens;
      llmCostMicrousd, llmSeconds := s.used.cost, s.used.llmSeconds;
      generationsStarted, generationsCompleted, stopReason :=
        s.used.generationsStarted, s.used.generationsCompleted, None;
      priorRuntime, priorSegments, runStarted := s.runtimeSeconds, s.wallClock.segments, Some(s.wallClock.startedAt);
    }

    static method Restore(limits: Limits, s: Snapshot, clock: Clock) returns (budget: RunBudget?)
      ensures budget != null <==> MayRestore(limits, s, clock)
      ensures budget != null ==> fresh(budget) && budget.Value() == Restored(limits, s, clock)
    {
      if !ValidSnapshot(s) || s.limits != limits {
        return null;
      }
      budget := new RunBudget.FromSnapshot(limits, s, clock);
      if !ValidState(budget.Value()) {
        return null;
      }
    }

    method RecordGenerationStart()
      modifies this`generationsStarted
      ensures (Value(), true) == Step(old(Value()), GenerationStart, 0.0)
    {
      generationsStarted := generationsStarted + 1;
    }

    method RecordGenerationComplete()
      modifies this`generationsCompleted
      ensures (Value(), true) == Step(old(Value()), GenerationComplete, 0.0)
    {
      generationsCompleted := generationsCompleted + 1;
    }

    method RecordLlmCall()
      modifies this`llmCalls
      ensures (Value(), true) == Step(old(Value()), LlmCall, 0.0)
    {
      llmCalls := llmCalls + 1;
    }

    method RecordLlmProviderAttempts(attempts: int, role: Option<string>) returns (ok: bool)
      modifies this`llmProviderAttempts
      ensures (Value(), ok) == Step(old(Value()), ProviderAttempts(attempts, role), 0.0)
    {
      if attempts < 0 { return false; }
      llmProviderAttempts, ok := Record(llmProviderAttempts, attempts as real, role);
    }

    method RecordLlmTokens(tokens: int, role: Option<string>) returns (ok: bool)
      modifies this`llmTokens
      ensures (Value(), ok) == Step(old(Value()), Tokens(tokens, role), 0.0)
    {
      if tokens < 0 { return false; }
      llmTokens, ok := Record(llmTokens, tokens as real, role);
    }

    method RecordLlmCostMicrousd(cost: int, role: Option<string>) returns (ok: bool)
      modifies this`llmCostMicrousd
      ensures (Value(), ok) == Step(old(Value()), CostMicrousd(cost, role), 0.0)
    {
      if cost < 0 { return false; }
      llmCostMicrousd, ok := Record(llmCostMicrousd, cost as real, role);
    }

    method RecordLlmSeconds(seconds: real, role: Option<string>) returns (ok: bool)
      modifies this`llmSeconds
      ensures (Value(), ok) == Step(old(Value()), LlmSeconds(seconds, role), 0.0)
    {
      if seconds < 0.0 { return false; }
      llmSeconds, ok := Record(llmSeconds, seconds, role);
    }

    /** The global counter first, then the role's (`_increment_role_counter`). */
    static method Record(m: Meter, delta: real, role: Option<string>) returns (n: Meter, ok: bool)
      ensures (n, ok) == m.Add(delta, role)
    {
      n := m.(total := m.total + delta);
      if role.None? || delta <= 0.0 { return n, true; }
      if !ValidLabel(role.value) { return n, false; }
      var before := if role.value in n.byRole then n.byRole[role.value] else 0.0;
      return n.(byRole := n.byRole[role.value := before + delta]), true;
    }

    method AddAccounting(added: Accounting.Counters)
      modifies this`evaluatorSubprocessAttempts, this`evaluatorStageSamples, this`evaluatorRetryAttempts,
               this`evaluatorTimeouts, this`evaluatorSampleExhaustions, this`evaluatorStageExhaustions
      ensures Used() == old(Used()).(evaluator := old(Used()).evaluator.Plus(added))
    {
      evaluatorSubprocessAttempts := evaluatorSubprocessAttempts + added.subprocess;
      evaluatorStageSamples := evaluatorStageSamples + added.samples;
      evaluatorRetryAttempts := evaluatorRetryAttempts + added.retries;
      evaluatorTimeouts := evaluatorTimeouts + added.timeouts;
      evaluatorSampleExhaustions := evaluatorSampleExhaustions + added.sampleStops;
      evaluatorStageExhaustions := evaluatorStageExhaustions + added.stageStops;
    }

    method RecordEvaluation(elapsed: real, seed: bool, accounting: map<Accounting.Key, int>) returns (ok: bool)
      modifies this`evaluations, this`seedEvaluations, this`candidateEvaluations, this`evaluatorSeconds,
               this`evaluatorSubprocessAttempts, this`evaluatorStageSamples, this`evaluatorRetryAttempts,
               this`evaluatorTimeouts, this`evaluatorSampleExhaustions, this`evaluatorStageExhaustions
      ensures (Value(), ok) == Step(old(Value()), Evaluation(elapsed, seed, accounting), 0.0)
    {
      if elapsed < 0.0 || !ValidAccounting(accounting) { return false; }
      hide Accounting.Read;
      evaluations := evaluations + 1;
      if seed {
        seedEvaluations := seedEvaluations + 1;
      } else {
        candidateEvaluations := candidateEvaluations + 1;
      }
      evaluatorSeconds := evaluatorSeconds + elapsed;
      assert Used() == Evaluated(old(Used()), elapsed, seed, accounting).(evaluator := old(Used()).evaluator);
      AddAccounting(Accounting.Read(accounting));
      return true;
    }

    method EvaluatorLimit(ghost q: Query, ghost now: real) returns (found: Option<StopReason>)
      ensures found.Some? ==> FirstExhausted(Value(), q, now) == found && Rank(found.value) < FIRST_LLM
      ensures found.None? ==> NoneBefore(Value(), q, now, FIRST_LLM)
    {
      hide IsFirst, NoneBefore, RoleRefused, FirstExhausted, RoleExhausted, ValidLabel;
      ghost var b := Value();
      NoneBeforeTheFirst(b, q, now);
      Look(b, q, now, MaxEvaluations);
      if limits.maxEvaluations.Some? && evaluations >= limits.maxEvaluations.value {
        return Some(MaxEvaluations);
      }
      Look(b, q, now, MaxEvaluatorSeconds);
      if limits.maxEvaluatorSeconds.Some? && evaluatorSeconds >= limits.maxEvaluatorSeconds.value {
        return Some(MaxEvaluatorSeconds);
      }
      Look(b, q, now, MaxSubprocessAttempts);
      if limits.maxSubprocessAttempts.Some? && evaluatorSubprocessAttempts >= limits.maxSubprocessAttempts.value {
        return Some(MaxSubprocessAttempts);
      }
      Look(b, q, now, MaxStageSamples);
      if limits.maxStageSamples.Some? && evaluatorStageSamples >= limits.maxStageSamples.value {
        return Some(MaxStageSamples);
      }
      Look(b, q, now, MaxRetryAttempts);
      if limits.maxRetryAttempts.Some? && evaluatorRetryAttempts >= limits.maxRetryAttempts.value {
        return Some(MaxRetryAttempts);
      }
      Look(b, q, now, MaxTimeouts);
      if limits.maxTimeouts.Some? && evaluatorTimeouts >= limits.maxTimeouts.value {
        return Some(MaxTimeouts);
      }
      Look(b, q, now, MaxSampleExhaustions);
      if limits.maxSampleExhaustions.Some? && evaluatorSampleExhaustions >= limits.maxSampleExhaustions.value {
        return Some(MaxSampleExhaustions);
      }
      Look(b, q, now, MaxStageExhaustions);
      if limits.maxStageExhaustions.Some? && evaluatorStageExhaustions >= limits.maxStageExhaustions.value {
        return Some(MaxStageExhaustions);
      }
      return None;
    }

    method LlmLimit(ghost q: Query, ghost now: real) returns (found: Option<StopReason>)
      requires NoneBefore(Value(), q, now, FIRST_LLM) && q.llm
      ensures found.Some? ==> FirstExhausted(Value(), q, now) == found && Rank(found.value) < FIRST_ROLE
      ensures found.None? ==> NoneBefore(Value(), q, now, FIRST_ROLE)
    {
      hide IsFirst, NoneBefore, RoleRefused, FirstExhausted, RoleExhausted, ValidLabel;
      ghost var b := Value();
      Look(b, q, now, MaxLlmCalls);
      if limits.maxLlmCalls.Some? && llmCalls >= limits.maxLlmCalls.value {
        return Some(MaxLlmCalls);
      }
      Look(b, q, now, MaxProviderAttempts);
      if limits.maxProviderAttempts.Some? && llmProviderAttempts.total >= limits.maxProviderAttempts.value {
        return Some(MaxProviderAttempts);
      }
      Look(b, q, now, MaxTokens);
      if limits.maxTokens.Some? && llmTokens.total >= limits.maxTokens.value {
        return Some(MaxTokens);
      }
      Look(b, q, now, MaxCost);
      if limits.maxCost.Some? && llmCostMicrousd.total >= limits.maxCost.value {
        return Some(MaxCost);
      }
      Look(b, q, now, MaxLlmSeconds);
      if limits.maxLlmSeconds.Some? && llmSeconds.total >= limits.maxLlmSeconds.value {
        return Some(MaxLlmSeconds);
      }
      return None;
    }

    method RoleLimit(q: Query, ghost now: real) returns (found: Option<StopReason>)
      requires NoneBefore(Value(), q, now, FIRST_ROLE) && q.llm
      ensures found.Some? ==> FirstExhausted(Value(), q, now) == found
      ensures found.None? ==> NoneBefore(Value(), q, now, RUNTIME)
    {
      hide IsFirst, NoneBefore, RoleRefused, FirstExhausted, RoleExhausted, ValidLabel;
      ghost var b := Value();
      var exhausted;
      Look(b, q, now, RoleProviderAttempts);
      exhausted := RoleBudgetExhausted(limits.roleProviderAttempts, llmProviderAttempts.byRole, q.role);
      if exhausted {
        return Some(RoleProviderAttempts);
      }
      Look(b, q, now, RoleTokens);
      exhausted := RoleBudgetExhausted(limits.roleTokens, llmTokens.byRole, q.role);
      if exhausted {
        return Some(RoleTokens);
      }
      Look(b, q, now, RoleCost);
      exhausted := RoleBudgetExhausted(limits.roleCost, llmCostMicrousd.byRole, q.role);
      if exhausted {
        return Some(RoleCost);
      }
      Look(b, q, now, RoleSeconds);
      exhausted := RoleBudgetExhausted(limits.roleSeconds, llmSeconds.byRole, q.role);
      if exhausted {
        return Some(RoleSeconds);
      }
      return None;
    }

    /** `_first_exhausted_budget_limit`: the limits one after the other, the clock last. */
    method FirstExhaustedLimit(q: Query, now: real) returns (found: Option<StopReason>, ok: bool)
      ensures ok ==> found == FirstExhausted(Value(), q, now)
      ensures ok <==> !RoleRefused(Value(), q, now)
    {
      hide IsFirst, NoneBefore, RoleRefused, FirstExhausted, RoleExhausted, ValidLabel;
      ghost var b := Value();
      found := EvaluatorLimit(q, now);
      if found.Some? {
        NotRefusedBefore(b, q, now, found.value);
        return found, true;
      }
      if q.llm {
        found := LlmLimit(q, now);
        if found.Some? {
          NotRefusedBefore(b, q, now, found.value);
          return found, true;
        }
        RefusedAtRoles(b, q, now);
        if q.role.Some? && !ValidLabel(q.role.value) {
          return None, false;
        }
        found := RoleLimit(q, now);
        if found.Some? {
          return found, true;
        }
      } else {
        SkipLlm(b, q, now);
      }
      Look(b, q, now, MaxRuntimeSeconds);
      if limits.maxRuntimeSeconds.Some? && Value().Runtime(now) >= limits.maxRuntimeSeconds.value {
        return Some(MaxRuntimeSeconds), true;
      }
      NothingReached(b, q, now);
      return None, true;
    }

    /** `_check_limits`, behind `check_before_generation`, `check_before_evaluation` and
        `check_before_llm_call`. */
    method CheckLimits(q: Query, now: real) returns (reason: Option<StopReason>, ok: bool)
      modifies this`stopReason
      ensures (Value(), ok) == Step(old(Value()), Check(q), now)
      ensures ok ==> reason == stopReason
    {
      hide FirstExhausted, RoleRefused, ValidState;
      if !ValidState(Value()) { return None, false; }
      if stopReason.Some? { return stopReason, true; }
      reason, ok := FirstExhaustedLimit(q, now);
      if !ok { return None, false; }
      if reason.Some? {
        stopReason := reason;
      }
      return stopReason, true;
    }

    method TakeSnapshot(clock: Clock) returns (s: Option<Snapshot>)
      ensures s == if ValidState(Value()) then Some(SnapshotOf(Value(), clock)) else None
    {
      hide ValidState;
      if !ValidState(Value()) { return None; }
      var segments := priorSegments;
      var kind := if segments != [] then "resumed_process" else "initial_process";
      var current := Segment(|segments|, kind, startedUtc, clock.utc, None);
      if stopReason.Some? {
        current := current.(finishedAt := Some(clock.utc));
      }
      segments := segments + [current];
      var wallClock := WallClock(if runStarted.Some? then runStarted.value else startedUtc, clock.utc, segments, None);
      if stopReason.Some? {
        wallClock := wallClock.(finishedAt := Some(clock.utc));
      }
      return Some(Snapshot(wallClock, limits, Used(), Value().Runtime(clock.now), stopReason));
    }

    method FinishRun(bestFound: bool, clock: Clock) returns (s: Option<Snapshot>)
      modifies this`stopReason
      ensures (Value(), s.Some?) == Step(old(Value()), Finish(bestFound), clock.now)
      ensures s.Some? ==> s.value == SnapshotOf(Value(), clock) && stopReason.Some?
    {
      hide FirstExhausted, ValidState;
      if !ValidState(Value()) { return None; }
      if stopReason.None? {
        var reason, ok := CheckLimits(Query(true, None), clock.now);
        if !ok { return None; }
      }
      if stopReason.None? {
        if !bestFound {
          stopReason := Some(NoValidPrograms);
        } else if generationsCompleted >= limits.maxGenerations {
          stopReason := Some(MaxGenerations);
        } else {
          stopReason := Some(Completed);
        }
      }
      StopReasonIsNotState(Value(), old(Value()));
      s := TakeSnapshot(clock);
    }
  }

  lemma {:induction false} StopReasonIsNotState(b: Ledger, c: Ledger)
    requires b == c.(stopReason := b.stopReason)
    ensures ValidState(b) == ValidState(c)
  {
    hide ValidLimits, ValidConsumed, ValidSegments;
  }
}
