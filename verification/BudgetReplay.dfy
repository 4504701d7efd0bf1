/** Controller budget events: validation, application, the log they are written to, and the
    replay check that a persisted snapshot is the sum of its log
    (libreevolve/core/budget_contract.py, libreevolve/core/budget.py and
    libreevolve/core/database.py). */
module BudgetReplay {
  import opened Text
  import opened BudgetRoles
  import opened Budget
  import opened BudgetRuns
  import Accounting

  datatype Event =
    | SeedEvaluation(elapsed: real, accounting: map<Accounting.Key, int>)
    | CandidateEvaluation(elapsed: real, accounting: map<Accounting.Key, int>)
    | CacheHit(cacheKey: string, workspace: string, sourceProgram: string)
    | ModelCall(role: Option<string>, attempts: int, tokens: int, cost: int, seconds: real)
    | GenerationStarted
    | GenerationCompleted
    | Stop(reason: StopReason)

  datatype Entry = Entry(sequence: int, event: Event)

  predicate IsSha256(s: string) {
    |s| == 64 && forall c <- s :: '0' <= c <= '9' || 'a' <= c <= 'f'
  }

  /** `validate_controller_budget_event`, after the fields have been typed. */
  predicate ValidEvent(e: Event) {
    match e
    case SeedEvaluation(elapsed, accounting) => elapsed >= 0.0 && ValidAccounting(accounting)
    case CandidateEvaluation(elapsed, accounting) => elapsed >= 0.0 && ValidAccounting(accounting)
    case CacheHit(key, workspace, source) => IsSha256(key) && IsSha256(workspace) && 1 <= |source| <= 256
    case ModelCall(role, attempts, tokens, cost, seconds) =>
      (role.Some? ==> ValidLabel(role.value)) && attempts >= 0 && tokens >= 0 && cost >= 0 && seconds >= 0.0
    case _ => true
  }

  const HEX_DIGITS: set<char> := DIGITS + {'a', 'b', 'c', 'd', 'e', 'f'}

  /** Which events may be logged and replayed: those without a negative number, with a label
      for a role, and with digests of 64 lower-case hexadecimal digits and a name of at most
      256 characters for a cache hit. */
  lemma {:induction false} EventMeaning(e: Event)
    ensures ValidEvent(e) <==>
              && (e.SeedEvaluation? || e.CandidateEvaluation? ==>
                    e.elapsed >= 0.0 && forall key <- e.accounting :: e.accounting[key] >= 0)
              && (e.CacheHit? ==>
                    && |e.cacheKey| == |e.workspace| == 64 && 0 < |e.sourceProgram| < 257
                    && (forall c <- e.cacheKey :: c in HEX_DIGITS) && forall c <- e.workspace :: c in HEX_DIGITS)
              && (e.ModelCall? ==>
                    && (e.role == None || ValidLabel(e.role.value))
                    && (forall n <- [e.attempts, e.tokens, e.cost] :: n >= 0) && e.seconds >= 0.0)
  {
    hide ValidLabel, ValidAccounting, HEX_DIGITS;
    match e
    case SeedEvaluation(_, accounting) => AccountingMeaning(accounting);
    case CandidateEvaluation(_, accounting) => AccountingMeaning(accounting);
    case CacheHit(key, workspace, _) => DigestMeaning(key); DigestMeaning(workspace);
    case ModelCall(_, attempts, tokens, cost, _) =>
      var amounts := [attempts, tokens, cost];
      assert amounts[0] in amounts && amounts[1] in amounts && amounts[2] in amounts;
    case _ =>
  }

  lemma {:induction false} DigestMeaning(s: string)
    ensures IsSha256(s) <==> |s| == 64 && forall c <- s :: c in HEX_DIGITS
  {
  }

  // ----- applying events

  ghost function ApplyModelCall(b: Ledger, e: Event): Ledger
    requires e.ModelCall?
  {
    var b1 := Step(b, Op.LlmCall, 0.0).0;
    var b2 := Step(b1, ProviderAttempts(e.attempts, e.role), 0.0).0;
    var b3 := Step(b2, Tokens(e.tokens, e.role), 0.0).0;
    var b4 := Step(b3, CostMicrousd(e.cost, e.role), 0.0).0;
    Step(b4, LlmSeconds(e.seconds, e.role), 0.0).0
  }

  /** `apply_controller_budget_event`: an applied stop overwrites the stop reason, and is
      refused when more generations are completed than started. */
  ghost function Apply(b: Ledger, e: Event): (Ledger, bool) {
    if !ValidEvent(e) then (b, false)
    else match e
      case SeedEvaluation(elapsed, accounting) => (Step(b, Evaluation(elapsed, true, accounting), 0.0).0, true)
      case CandidateEvaluation(elapsed, accounting) => (Step(b, Evaluation(elapsed, false, accounting), 0.0).0, true)
      case CacheHit(_, _, _) => (b, true)
      case ModelCall(_, _, _, _, _) => (ApplyModelCall(b, e), true)
      case GenerationStarted => (Step(b, GenerationStart, 0.0).0, true)
      case GenerationCompleted => (Step(b, GenerationComplete, 0.0).0, true)
      case Stop(reason) => (b.(stopReason := Some(reason)), ValidState(b.(stopReason := Some(reason))))
  }

  ghost function Replay(b: Ledger, events: seq<Event>): Option<Ledger> {
    if events == [] then Some(b)
    else
      match Replay(b, events[..|events| - 1])
      case None => None
      case Some(c) =>
        var (d, ok) := Apply(c, events[|events| - 1]);
        if ok then Some(d) else None
  }

  method ApplyModelCallEvent(budget: RunBudget, e: Event)
    requires e.ModelCall? && ValidEvent(e)
    modifies budget
    ensures budget.Value() == ApplyModelCall(old(budget.Value()), e)
  {
    hide Meter.Add, ValidLabel;
    budget.RecordLlmCall();
    var _ := budget.RecordLlmProviderAttempts(e.attempts, e.role);
    var _ := budget.RecordLlmTokens(e.tokens, e.role);
    var _ := budget.RecordLlmCostMicrousd(e.cost, e.role);
    var _ := budget.RecordLlmSeconds(e.seconds, e.role);
  }

  lemma ValidEventIsRecorded(b: Ledger, e: Event)
    requires ValidEvent(e)
    ensures e.SeedEvaluation? ==> Step(b, Evaluation(e.elapsed, true, e.accounting), 0.0).1
    ensures e.CandidateEvaluation? ==> Step(b, Evaluation(e.elapsed, false, e.accounting), 0.0).1
  {
  }

  method ApplyEvent(budget: RunBudget, e: Event) returns (ok: bool)
    modifies budget
    ensures (budget.Value(), ok) == Apply(old(budget.Value()), e)
  {
    hide ApplyModelCall, ValidAccounting, ValidState, ValidLabel, IsSha256, Step;
    if !ValidEvent(e) { return false; }
    ValidEventIsRecorded(budget.Value(), e);
    match e
    case SeedEvaluation(elapsed, accounting) => ok := budget.RecordEvaluation(elapsed, true, accounting);
    case CandidateEvaluation(elapsed, accounting) => ok := budget.RecordEvaluation(elapsed, false, accounting);
    case CacheHit(_, _, _) => ok := true;
    case ModelCall(_, _, _, _, _) => ApplyModelCallEvent(budget, e); ok := true;
    case GenerationStarted => budget.RecordGenerationStart(); ok := true;
    case GenerationCompleted => budget.RecordGenerationComplete(); ok := true;
    case Stop(reason) => budget.stopReason := Some(reason); ok := ValidState(budget.Value());
  }

  // ----- the replay check

  /** `_validate_controller_budget_events`. */
  predicate ValidLog(entries: seq<Entry>) {
    forall i :: 0 <= i < |entries| ==> entries[i].sequence == i && ValidEvent(entries[i].event)
  }

  function Events(entries: seq<Entry>): (events: seq<Event>)
    ensures |events| == |entries|
    ensures forall i :: 0 <= i < |entries| ==> events[i] == entries[i].event
  {
    seq(|entries|, i requires 0 <= i < |entries| => entries[i].event)
  }

  ghost predicate Accepts(s: Snapshot, entries: seq<Entry>) {
    var replayed := Replay(Fresh(s.limits, Clock(0.0, s.wallClock.startedAt)), Events(entries));
    && ValidSnapshot(s) && ValidLog(entries)
    && replayed.Some? && ValidState(replayed.value)
    && replayed.value.stopReason == s.stopReason && replayed.value.used == s.used
  }

  /** `validate_controller_budget_replay_state`. */
  method ValidateReplay(s: Snapshot, entries: seq<Entry>) returns (ok: bool)
    ensures ok <==> Accepts(s, entries)
  {
    hide ValidSnapshot, ValidEvent, ValidState, Apply;
    if !ValidSnapshot(s) || !ValidLog(entries) { return false; }
    var events := Events(entries);
    var budget := new RunBudget(s.limits, Clock(0.0, s.wallClock.startedAt));
    ghost var start := budget.Value();
    for i := 0 to |events|
      invariant fresh(budget)
      invariant Replay(start, events[..i]) == Some(budget.Value())
    {
      assert events[..i + 1][..i] == events[..i];
      var applied := ApplyEvent(budget, events[i]);
      if !applied {
        ReplayFailsForGood(start, events, i + 1);
        return false;
      }
    }
    assert events[..|events|] == events;
    if !ValidState(budget.Value()) { return false; }
    return budget.stopReason == s.stopReason && budget.Used() == s.used;
  }

  lemma {:induction false} ReplayFailsForGood(b: Ledger, events: seq<Event>, n: nat)
    requires n <= |events| && Replay(b, events[..n]).None?
    ensures Replay(b, events).None?
    decreases |events|
  {
    hide Apply;
    if n == |events| {
      assert events[..n] == events;
    } else {
      assert events[..|events| - 1][..n] == events[..n];
      ReplayFailsForGood(b, events[..|events| - 1], n);
    }
  }

  // ----- the sums of a log

  function CountOf(events: seq<Event>, f: Event -> nat): nat {
    if events == [] then 0 else CountOf(events[..|events| - 1], f) + f(events[|events| - 1])
  }

  function AmountOf(events: seq<Event>, f: Event -> real): real {
    if events == [] then 0.0 else AmountOf(events[..|events| - 1], f) + f(events[|events| - 1])
  }

  function IsSeed(e: Event): nat { if e.SeedEvaluation? then 1 else 0 }

  function IsCandidate(e: Event): nat { if e.CandidateEvaluation? then 1 else 0 }

  function IsModelCall(e: Event): nat { if e.ModelCall? then 1 else 0 }

  function IsStarted(e: Event): nat { if e.GenerationStarted? then 1 else 0 }

  function IsCompleted(e: Event): nat { if e.GenerationCompleted? then 1 else 0 }

  function Elapsed(e: Event): real {
    if e.SeedEvaluation? || e.CandidateEvaluation? then e.elapsed else 0.0
  }

  /** The evaluator work of one event; a cache hit has none. */
  function Work(e: Event, key: Accounting.Key): nat {
    if e.SeedEvaluation? || e.CandidateEvaluation? then Accounting.ReadKey(e.accounting, key) else 0
  }

  /** Evaluator work of one kind, over all evaluations. */
  function WorkOf(events: seq<Event>, key: Accounting.Key): nat {
    if events == [] then 0
    else WorkOf(events[..|events| - 1], key) + Work(events[|events| - 1], key)
  }

  datatype MeterKind = AttemptMeter | TokenMeter | CostMeter | SecondMeter

  function Amount(e: Event, kind: MeterKind): real {
    if !e.ModelCall? then 0.0
    else match kind
      case AttemptMeter => e.attempts as real
      case TokenMeter => e.tokens as real
      case CostMeter => e.cost as real
      case SecondMeter => e.seconds
  }

  function MeterOf(u: Consumed, kind: MeterKind): Meter {
    match kind
    case AttemptMeter => u.providerAttempts
    case TokenMeter => u.tokens
    case CostMeter => u.cost
    case SecondMeter => u.llmSeconds
  }

  function MeterTotal(events: seq<Event>, kind: MeterKind): real {
    if events == [] then 0.0
    else MeterTotal(events[..|events| - 1], kind) + Amount(events[|events| - 1], kind)
  }

  /** What the model calls of one role add up to. */
  function RoleTotal(events: seq<Event>, kind: MeterKind, role: string): real {
    if events == [] then 0.0
    else
      var last := events[|events| - 1];
      RoleTotal(events[..|events| - 1], kind, role)
      + (if last.ModelCall? && last.role == Some(role) then Amount(last, kind) else 0.0)
  }

  /** The meter holds the sums, with a role present exactly when it has used something. */
  ghost predicate MeterMatches(events: seq<Event>, kind: MeterKind, m: Meter) {
    && m.total == MeterTotal(events, kind)
    && (forall role <- m.byRole :: RoleTotal(events, kind, role) > 0.0)
    && RolesMatch(events, kind, m.byRole)
  }

  ghost predicate RolesMatch(events: seq<Event>, kind: MeterKind, byRole: Tally) {
    forall role: string :: Get(byRole, role) == RoleTotal(events, kind, role)
  }

  ghost predicate CountersMatch(events: seq<Event>, u: Consumed) {
    && u.seedEvaluations == CountOf(events, IsSeed)
    && u.candidateEvaluations == CountOf(events, IsCandidate)
    && u.evaluations == u.seedEvaluations + u.candidateEvaluations
    && u.evaluatorSeconds == AmountOf(events, Elapsed)
    && u.llmCalls == CountOf(events, IsModelCall)
    && u.generationsStarted == CountOf(events, IsStarted)
    && u.generationsCompleted == CountOf(events, IsCompleted)
  }

  ghost predicate WorkMatches(events: seq<Event>, u: Consumed) {
    forall key :: u.evaluator.Get(key) == WorkOf(events, key)
  }

  /** Every counter and every per-role entry is the matching sum over the events. */
  ghost predicate Matches(events: seq<Event>, u: Consumed) {
    && CountersMatch(events, u) && WorkMatches(events, u)
    && forall kind :: MeterMatches(events, kind, MeterOf(u, kind))
  }

  function LastStop(events: seq<Event>): Option<StopReason> {
    if events == [] then None
    else if events[|events| - 1].Stop? then Some(events[|events| - 1].reason)
    else LastStop(events[..|events| - 1])
  }

  /** At every stop event, no more generations have been completed than started. */
  predicate StopsInOrder(events: seq<Event>) {
    forall i :: 0 <= i < |events| && events[i].Stop? ==>
                  CountOf(events[..i], IsCompleted) <= CountOf(events[..i], IsStarted)
  }

  predicate AllValid(events: seq<Event>) {
    forall e <- events :: ValidEvent(e)
  }

  // ----- one event adds its own amounts

  lemma {:induction false} CountersAdd(events: seq<Event>, b: Ledger, e: Event)
    requires CountersMatch(events, b.used) && ValidEvent(e)
    ensures CountersMatch(events + [e], Apply(b, e).0.used)
  {
    hide CountOf, AmountOf, Apply, ValidEvent;
    CountAdds(events, e, IsSeed);
    CountAdds(events, e, IsCandidate);
    CountAdds(events, e, IsModelCall);
    CountAdds(events, e, IsStarted);
    CountAdds(events, e, IsCompleted);
    AmountAdds(events, e, Elapsed);
    ApplyCounters(b, e);
  }

  lemma {:induction false} CountAdds(events: seq<Event>, e: Event, f: Event -> nat)
    ensures CountOf(events + [e], f) == CountOf(events, f) + f(e)
  {
    assert (events + [e])[..|events|] == events;
  }

  lemma {:induction false} AmountAdds(events: seq<Event>, e: Event, f: Event -> real)
    ensures AmountOf(events + [e], f) == AmountOf(events, f) + f(e)
  {
    assert (events + [e])[..|events|] == events;
  }

  lemma {:induction false} ApplyCounters(b: Ledger, e: Event)
    requires ValidEvent(e)
    ensures var u, v := b.used, Apply(b, e).0.used;
            && v.seedEvaluations == u.seedEvaluations + IsSeed(e)
            && v.candidateEvaluations == u.candidateEvaluations + IsCandidate(e)
            && v.evaluations == u.evaluations + IsSeed(e) + IsCandidate(e)
            && v.evaluatorSeconds == u.evaluatorSeconds + Elapsed(e)
            && v.llmCalls == u.llmCalls + IsModelCall(e)
            && v.generationsStarted == u.generationsStarted + IsStarted(e)
            && v.generationsCompleted == u.generationsCompleted + IsCompleted(e)
  {
    hide ValidState, ValidAccounting, ValidLabel, IsSha256, Meter.Add, Accounting.Read;
  }

  lemma {:induction false} WorkAdds(events: seq<Event>, b: Ledger, e: Event)
    requires WorkMatches(events, b.used) && ValidEvent(e)
    ensures WorkMatches(events + [e], Apply(b, e).0.used)
  {
    hide WorkOf;
    forall key ensures Apply(b, e).0.used.evaluator.Get(key) == WorkOf(events + [e], key) {
      assert b.used.evaluator.Get(key) == WorkOf(events, key);
      WorkOfAdds(events, e, key);
      ApplyWork(b, e, key);
    }
  }

  lemma {:induction false} WorkOfAdds(events: seq<Event>, e: Event, key: Accounting.Key)
    ensures WorkOf(events + [e], key) == WorkOf(events, key) + Work(e, key)
  {
    assert (events + [e])[..|events|] == events;
  }

  lemma {:induction false} ApplyWork(b: Ledger, e: Event, key: Accounting.Key)
    requires ValidEvent(e)
    ensures Apply(b, e).0.used.evaluator.Get(key) == b.used.evaluator.Get(key) + Work(e, key)
  {
    hide ValidState, ValidAccounting, ValidLabel, IsSha256, Meter.Add;
    if e.SeedEvaluation? || e.CandidateEvaluation? {
      Accounting.GetReads(e.accounting, key);
    }
  }

  lemma {:induction false} RoleTotalAdds(events: seq<Event>, e: Event, kind: MeterKind, role: string)
    ensures RoleTotal(events + [e], kind, role)
         == RoleTotal(events, kind, role) + (if e.ModelCall? && e.role == Some(role) then Amount(e, kind) else 0.0)
    ensures MeterTotal(events + [e], kind) == MeterTotal(events, kind) + Amount(e, kind)
  {
    assert (events + [e])[..|events|] == events;
  }

  lemma {:induction false} MeterAdds(events: seq<Event>, kind: MeterKind, m: Meter, e: Event)
    requires MeterMatches(events, kind, m) && ValidEvent(e)
    ensures MeterMatches(events + [e], kind, if e.ModelCall? then m.Add(Amount(e, kind), e.role).0 else m)
  {
    hide RoleTotal, MeterTotal, ValidAccounting, IsSha256, ValidLabel;
    forall role: string
      ensures RoleTotal(events + [e], kind, role)
           == RoleTotal(events, kind, role) + (if e.ModelCall? && e.role == Some(role) then Amount(e, kind) else 0.0)
      ensures MeterTotal(events + [e], kind) == MeterTotal(events, kind) + Amount(e, kind)
    {
      RoleTotalAdds(events, e, kind, role);
    }
    RoleTotalAdds(events, e, kind, "");
    AmountIsPositive(e, kind);
    hide Amount, ValidEvent;
    var n := if e.ModelCall? then m.Add(Amount(e, kind), e.role).0 else m;
    forall role | role in n.byRole ensures RoleTotal(events + [e], kind, role) > 0.0 {
      RoleIsPositive(events, kind, m, role);
    }
  }

  lemma AmountIsPositive(e: Event, kind: MeterKind)
    requires ValidEvent(e)
    ensures Amount(e, kind) >= 0.0
    ensures e.ModelCall? && e.role.Some? ==> ValidLabel(e.role.value)
  {
  }

  lemma {:induction false} RoleIsPositive(events: seq<Event>, kind: MeterKind, m: Meter, role: string)
    requires MeterMatches(events, kind, m)
    ensures RoleTotal(events, kind, role) >= 0.0
    ensures role in m.byRole ==> RoleTotal(events, kind, role) > 0.0
  {
    assert Get(m.byRole, role) == RoleTotal(events, kind, role);
  }

  lemma {:induction false} ApplyMeters(b: Ledger, e: Event, kind: MeterKind)
    requires ValidEvent(e)
    ensures MeterOf(Apply(b, e).0.used, kind)
         == if e.ModelCall? then MeterOf(b.used, kind).Add(Amount(e, kind), e.role).0 else MeterOf(b.used, kind)
  {
    hide Meter.Add, ValidState, ValidAccounting, ValidLabel, IsSha256, Accounting.Read;
  }

  lemma {:induction false} ApplyAdds(events: seq<Event>, b: Ledger, e: Event)
    requires Matches(events, b.used) && ValidEvent(e)
    ensures Matches(events + [e], Apply(b, e).0.used)
  {
    hide Apply, CountersMatch, WorkMatches, MeterMatches, Meter.Add, ValidEvent;
    CountersAdd(events, b, e);
    WorkAdds(events, b, e);
    forall kind ensures MeterMatches(events + [e], kind, MeterOf(Apply(b, e).0.used, kind)) {
      MeterAdds(events, kind, MeterOf(b.used, kind), e);
      ApplyMeters(b, e, kind);
    }
  }

  lemma {:induction false} ApplyKeepsInv(b: Ledger, e: Event)
    requires Inv(b) && ValidEvent(e)
    ensures Inv(Apply(b, e).0)
    ensures !e.Stop? ==> Apply(b, e).1 && Apply(b, e).0.stopReason == b.stopReason
    ensures e.Stop? ==>
              && Apply(b, e).0.stopReason == Some(e.reason)
              && (Apply(b, e).1 <==> b.used.generationsCompleted <= b.used.generationsStarted)
  {
    hide Inv, Step, Later, ValidState, ValidAccounting, ValidLabel, IsSha256;
    match e
    case SeedEvaluation(elapsed, accounting) =>
      StepKeeps(b, Evaluation(elapsed, true, accounting), 0.0);
      RecordKeepsStop(b, Evaluation(elapsed, true, accounting), 0.0);
    case CandidateEvaluation(elapsed, accounting) =>
      StepKeeps(b, Evaluation(elapsed, false, accounting), 0.0);
      RecordKeepsStop(b, Evaluation(elapsed, false, accounting), 0.0);
    case CacheHit(_, _, _) =>
    case ModelCall(_, _, _, _, _) => ModelCallKeepsInv(b, e);
    case GenerationStarted => StepKeeps(b, GenerationStart, 0.0); RecordKeepsStop(b, GenerationStart, 0.0);
    case GenerationCompleted => StepKeeps(b, GenerationComplete, 0.0); RecordKeepsStop(b, GenerationComplete, 0.0);
    case Stop(reason) => StopKeepsInv(b, reason);
  }

  lemma {:induction false} StopKeepsInv(b: Ledger, reason: StopReason)
    requires Inv(b)
    ensures var c := b.(stopReason := Some(reason));
            Inv(c) && (ValidState(c) <==> b.used.generationsCompleted <= b.used.generationsStarted)
  {
    hide InvUsed, ValidLimits, ValidSegments, ValidState;
    StateCheck(b.(stopReason := Some(reason)));
  }

  lemma {:induction false} ModelCallKeepsInv(b: Ledger, e: Event)
    requires Inv(b) && e.ModelCall?
    ensures Inv(ApplyModelCall(b, e)) && ApplyModelCall(b, e).stopReason == b.stopReason
  {
    hide Inv, Step, Later;
    var b1 := Step(b, Op.LlmCall, 0.0).0;
    var b2 := Step(b1, ProviderAttempts(e.attempts, e.role), 0.0).0;
    var b3 := Step(b2, Tokens(e.tokens, e.role), 0.0).0;
    var b4 := Step(b3, CostMicrousd(e.cost, e.role), 0.0).0;
    StepKeeps(b, Op.LlmCall, 0.0);
    StepKeeps(b1, ProviderAttempts(e.attempts, e.role), 0.0);
    StepKeeps(b2, Tokens(e.tokens, e.role), 0.0);
    StepKeeps(b3, CostMicrousd(e.cost, e.role), 0.0);
    StepKeeps(b4, LlmSeconds(e.seconds, e.role), 0.0);
    RecordKeepsStop(b, Op.LlmCall, 0.0);
    RecordKeepsStop(b1, ProviderAttempts(e.attempts, e.role), 0.0);
    RecordKeepsStop(b2, Tokens(e.tokens, e.role), 0.0);
    RecordKeepsStop(b3, CostMicrousd(e.cost, e.role), 0.0);
    RecordKeepsStop(b4, LlmSeconds(e.seconds, e.role), 0.0);
  }

  // ----- replay is the sum of the log

  lemma {:induction false} NothingMatches()
    ensures Matches([], NOTHING)
  {
    hide CountersMatch, WorkMatches, MeterMatches;
    NoCounters();
    NoWork();
    forall kind ensures MeterMatches([], kind, MeterOf(NOTHING, kind)) { NoMeter(kind); }
  }

  lemma NoCounters()
    ensures CountersMatch([], NOTHING)
  {
  }

  lemma NoWork()
    ensures WorkMatches([], NOTHING)
  {
  }

  lemma NoMeter(kind: MeterKind)
    ensures MeterOf(NOTHING, kind) == EMPTY && MeterMatches([], kind, EMPTY)
  {
  }

  /** Replaying a log from a fresh budget ends with the sums of the log and the reason of
      its last stop event, and fails exactly when some stop event is out of order. */
  lemma {:induction false} ReplayIsTheSum(limits: Limits, clock: Clock, events: seq<Event>)
    requires ValidLimits(limits) && clock.now >= 0.0 && AllValid(events)
    ensures var replayed := Replay(Fresh(limits, clock), events);
            && (replayed.Some? <==> StopsInOrder(events))
            && (replayed.Some? ==>
                  && Inv(replayed.value) && Matches(events, replayed.value.used)
                  && replayed.value.stopReason == LastStop(events))
    decreases |events|
  {
    hide Apply, Inv, Matches, StopsInOrder, ValidEvent, ValidLimits;
    if events == [] {
      NothingMatches();
      FreshIsValid(limits, clock);
      NoStops();
    } else {
      var init, last := events[..|events| - 1], events[|events| - 1];
      assert events == init + [last];
      ReplayIsTheSum(limits, clock, init);
      StopsInOrderSnoc(init, last);
      var replayed := Replay(Fresh(limits, clock), init);
      if replayed.Some? {
        ApplyAdds(init, replayed.value, last);
        ApplyKeepsInv(replayed.value, last);
        GenerationsMatch(init, replayed.value.used);
      }
    }
  }

  lemma NoStops()
    ensures StopsInOrder([])
  {
  }

  lemma GenerationsMatch(events: seq<Event>, u: Consumed)
    requires Matches(events, u)
    ensures u.generationsStarted == CountOf(events, IsStarted) && u.generationsCompleted == CountOf(events, IsCompleted)
  {
  }

  lemma {:induction false} StopsInOrderSnoc(init: seq<Event>, last: Event)
    ensures StopsInOrder(init + [last])
       <==> StopsInOrder(init) && (last.Stop? ==> CountOf(init, IsCompleted) <= CountOf(init, IsStarted))
  {
    hide CountOf;
    var events := init + [last];
    assert events[..|init|] == init;
    assert forall i :: 0 <= i < |init| ==> events[..i] == init[..i] && events[i] == init[i];
    if StopsInOrder(events) {
      assert last.Stop? ==> CountOf(events[..|init|], IsCompleted) <= CountOf(events[..|init|], IsStarted) by {
        assert events[|init|] == last;
      }
    }
  }

  /** The sums of a log determine the counters. */
  lemma {:induction false} MatchesIsUnique(events: seq<Event>, u: Consumed, v: Consumed)
    requires Matches(events, u) && Matches(events, v)
    ensures u == v
  {
    hide CountOf, AmountOf, WorkOf, MeterMatches;
    forall key ensures u.evaluator.Get(key) == v.evaluator.Get(key) {
      assert u.evaluator.Get(key) == WorkOf(events, key);
    }
    Accounting.ByKey(u.evaluator, v.evaluator);
    forall kind ensures MeterOf(u, kind) == MeterOf(v, kind) {
      SameMeter(events, kind, MeterOf(u, kind), MeterOf(v, kind));
    }
    assert MeterOf(u, AttemptMeter) == MeterOf(v, AttemptMeter) && MeterOf(u, TokenMeter) == MeterOf(v, TokenMeter);
    assert MeterOf(u, CostMeter) == MeterOf(v, CostMeter) && MeterOf(u, SecondMeter) == MeterOf(v, SecondMeter);
  }

  lemma {:induction false} SameMeter(events: seq<Event>, kind: MeterKind, m: Meter, n: Meter)
    requires MeterMatches(events, kind, m) && MeterMatches(events, kind, n)
    ensures m == n
  {
    hide RoleTotal, MeterTotal;
    forall role: string
      ensures role in m.byRole <==> role in n.byRole
      ensures role in m.byRole ==> m.byRole[role] == n.byRole[role]
    {
      assert Get(m.byRole, role) == RoleTotal(events, kind, role) == Get(n.byRole, role);
    }
    assert m.byRole == n.byRole;
  }

  /** The replay check accepts a snapshot exactly when the log is numbered 0..n-1 with valid
      events, every stop event is in order, and the snapshot is valid and holds the sums of
      the log and its last stop reason.  The snapshot's runtime is not looked at. */
  lemma {:induction false} AcceptsMeaning(s: Snapshot, entries: seq<Entry>)
    ensures Accepts(s, entries) <==>
              && ValidSnapshot(s) && ValidLog(entries)
              && StopsInOrder(Events(entries))
              && Matches(Events(entries), s.used) && s.stopReason == LastStop(Events(entries))
  {
    hide Replay, StopsInOrder, Matches, LastStop, ValidEvent, ValidLimits, ValidConsumed, ValidSegments, Inv;
    hide Events, ValidState;
    if ValidSnapshot(s) && ValidLog(entries) {
      var clock := Clock(0.0, s.wallClock.startedAt);
      var events := Events(entries);
      assert AllValid(events);
      ReplayIsTheSum(s.limits, clock, events);
      var replayed := Replay(Fresh(s.limits, clock), events);
      if replayed.Some? {
        if Matches(events, s.used) { MatchesIsUnique(events, s.used, replayed.value.used); }
        StateCheck(replayed.value);
        CompletedWithinStarted(s.used);
      }
    }
  }

  lemma {:induction false} CompletedWithinStarted(u: Consumed)
    requires ValidConsumed(u)
    ensures u.generationsCompleted <= u.generationsStarted
  {
    hide ValidMeter;
  }

  // ----- the log

  /** The event log of `ProgramDatabase`: an event is numbered, validated and appended. */
  class EventLog {
    var sequence: nat
    var written: seq<Entry>

    ghost predicate Valid()
      reads this
    {
      sequence == |written| && ValidLog(written)
    }

    constructor ()
      ensures Valid() && written == []
    {
      sequence, written := 0, [];
    }

    /** `appends` says whether the file append goes through; a refused event or a failed
        append leaves the log and the counter as they were. */
    method LogControllerBudgetEvent(e: Event, appends: bool) returns (ok: bool)
      requires Valid()
      modifies this
      ensures Valid()
      ensures ok == (ValidEvent(e) && appends)
      ensures Events(written) == old(Events(written)) + (if ok then [e] else [])
    {
      hide ValidEvent;
      if !ValidEvent(e) || !appends {
        return false;
      }
      written := written + [Entry(sequence, e)];
      sequence := sequence + 1;
      return true;
    }
  }

  function Numbered(events: seq<Event>): (entries: seq<Entry>)
    ensures |entries| == |events|
    ensures forall i :: 0 <= i < |events| ==> entries[i] == Entry(i, events[i])
  {
    seq(|events|, i requires 0 <= i < |events| => Entry(i, events[i]))
  }

  /** A budget that only changed by events it logged produces a snapshot that its log
      accepts, whenever the snapshot can be taken, and whatever the clocks said. */
  lemma {:induction false} OwnLogIsAccepted(limits: Limits, start: Clock, events: seq<Event>, end: Clock)
    requires ValidLimits(limits) && start.now >= 0.0 && AllValid(events)
    requires Replay(Fresh(limits, start), events).Some?
    requires ValidState(Replay(Fresh(limits, start), events).value)
    ensures Accepts(SnapshotOf(Replay(Fresh(limits, start), events).value, end), Numbered(events))
  {
    hide Replay, StopsInOrder, Matches, LastStop, ValidEvent, ValidLimits, ValidSnapshot, Inv, ValidState, Accepts;
    var b := Replay(Fresh(limits, start), events).value;
    ReplayIsTheSum(limits, start, events);
    SnapshotIsValid(b, end);
    assert Events(Numbered(events)) == events;
    AcceptsMeaning(SnapshotOf(b, end), Numbered(events));
  }
}
