/** Evaluator work counters (libreevolve/core/evaluator.py, `evaluation_accounting`): one
    dictionary of counters, filled in place by a walk over the tree of results in which a
    serialised sample may carry a subtotal that is added instead of being walked. */
module Accounting {
  import opened Text

  datatype Error =
    | NoError | Timeout | CandidateBuildTimeout | CandidateRunnerTimeout | CandidateToolchainProbeTimeout
    | SampleBudgetExhausted | StageBudgetExhausted | OtherError
  {
    predicate IsTimeout() {
      Timeout? || CandidateBuildTimeout? || CandidateRunnerTimeout? || CandidateToolchainProbeTimeout?
    }
  }

  datatype Key =
    | SubprocessAttempts | ConfiguredStageSamples | RetryAttempts
    | TimeoutCount | SampleBudgetExhaustions | StageBudgetExhaustions

  const ACCOUNTING_KEYS: seq<Key> :=
    [SubprocessAttempts, ConfiguredStageSamples, RetryAttempts,
     TimeoutCount, SampleBudgetExhaustions, StageBudgetExhaustions]

  lemma {:induction false} KeysAreAll(key: Key)
    ensures key in ACCOUNTING_KEYS
  {
    match key
    case SubprocessAttempts => assert ACCOUNTING_KEYS[0] == key;
    case ConfiguredStageSamples => assert ACCOUNTING_KEYS[1] == key;
    case RetryAttempts => assert ACCOUNTING_KEYS[2] == key;
    case TimeoutCount => assert ACCOUNTING_KEYS[3] == key;
    case SampleBudgetExhaustions => assert ACCOUNTING_KEYS[4] == key;
    case StageBudgetExhaustions => assert ACCOUNTING_KEYS[5] == key;
  }

  /** The value of the counter dictionary. */
  datatype Counters = Counters(
    subprocess: nat, samples: nat, retries: nat, timeouts: nat, sampleStops: nat, stageStops: nat)
  {
    function Plus(that: Counters): Counters {
      Counters(subprocess + that.subprocess, samples + that.samples, retries + that.retries,
               timeouts + that.timeouts, sampleStops + that.sampleStops, stageStops + that.stageStops)
    }

    /** The two dictionaries agree on the three failure counters. */
    predicate SameFailures(that: Counters) {
      timeouts == that.timeouts && sampleStops == that.sampleStops && stageStops == that.stageStops
    }

    function Get(key: Key): nat {
      match key
      case SubprocessAttempts => subprocess
      case ConfiguredStageSamples => samples
      case RetryAttempts => retries
      case TimeoutCount => timeouts
      case SampleBudgetExhaustions => sampleStops
      case StageBudgetExhaustions => stageStops
    }

    function ToMap(): map<Key, int> {
      map[SubprocessAttempts := subprocess, ConfiguredStageSamples := samples, RetryAttempts := retries,
          TimeoutCount := timeouts, SampleBudgetExhaustions := sampleStops, StageBudgetExhaustions := stageStops]
    }
  }

  const ZERO := Counters(0, 0, 0, 0, 0, 0)

  lemma PlusAssociates(a: Counters, b: Counters, c: Counters)
    ensures a.Plus(b).Plus(c) == a.Plus(b.Plus(c))
    ensures ZERO.Plus(a) == a == a.Plus(ZERO)
  {
  }

  /** What a stored counter adds: missing and negative values add nothing. */
  function ReadKey(stored: map<Key, int>, key: Key): nat {
    if key in stored && stored[key] >= 0 then stored[key] else 0
  }

  function Read(stored: map<Key, int>): Counters {
    Counters(ReadKey(stored, SubprocessAttempts), ReadKey(stored, ConfiguredStageSamples),
             ReadKey(stored, RetryAttempts), ReadKey(stored, TimeoutCount),
             ReadKey(stored, SampleBudgetExhaustions), ReadKey(stored, StageBudgetExhaustions))
  }

  // ----- the result tree

  /** What is counted of a result without nested results: its attempt errors when it has an
      attempt list, whether its metadata names a configured stage, whether it names a
      validator path without a materialization error, and its own error. */
  datatype Leaf = Leaf(attempts: Option<seq<Error>>, inStage: bool, spawned: bool, error: Error)

  /** A result. Nested lists are looked at in the order configured, samples, attempts; a
      cascade keeps the metadata of its last stage, so several may be present at once. */
  datatype Node = Node(configured: Records, samples: Samples, leaf: Leaf)

  datatype Records = NoRecords | Records(value: seq<Node>)

  datatype Samples = NoSamples | Samples(value: seq<Stored>)

  /** A serialised result, possibly with its accounting subtotal. */
  datatype Stored = Stored(accounting: Option<map<Key, int>>, node: Node)

  // ----- what the walk adds

  function OfError(e: Error): Counters {
    if e.IsTimeout() then ZERO.(timeouts := 1)
    else if e.SampleBudgetExhausted? then ZERO.(sampleStops := 1)
    else if e.StageBudgetExhausted? then ZERO.(stageStops := 1)
    else ZERO
  }

  function OfErrors(errors: seq<Error>): Counters {
    if errors == [] then ZERO else OfError(errors[0]).Plus(OfErrors(errors[1..]))
  }

  /** An attempt list of n entries: every attempt after the first is a retry. */
  function OfAttempts(n: nat, inStage: bool): Counters {
    Counters(n, if inStage then 1 else 0, if n == 0 then 0 else n - 1, 0, 0, 0)
  }

  function OfLeaf(leaf: Leaf): Counters {
    match leaf.attempts
    case Some(errors) =>
      OfAttempts(|errors|, leaf.inStage).Plus(if errors == [] then OfError(leaf.error) else OfErrors(errors))
    case None =>
      Counters(if leaf.spawned then 1 else 0, 0, 0, 0, 0, 0).Plus(OfError(leaf.error))
  }

  function Total(n: Node): Counters {
    if n.configured.Records? then TotalRecords(n.configured.value)
    else if n.samples.Samples? then TotalSamples(n.samples.value)
    else OfLeaf(n.leaf)
  }

  function TotalRecords(records: seq<Node>): Counters {
    if records == [] then ZERO else Total(records[0]).Plus(TotalRecords(records[1..]))
  }

  function TotalSamples(samples: seq<Stored>): Counters {
    if samples == [] then ZERO else TotalStored(samples[0]).Plus(TotalSamples(samples[1..]))
  }

  function TotalStored(d: Stored): Counters {
    if d.accounting.Some? then Read(d.accounting.value) else Total(d.node)
  }

  /** `EvaluationResult.to_dict`: the result with its subtotal. */
  function ToDict(n: Node): Stored {
    Stored(Some(Total(n).ToMap()), n)
  }

  // ----- the walk itself

  /** The counter dictionary that `_add_evaluation_accounting` changes in place. */
  class Accountant {
    var counts: map<Key, int>

    ghost predicate Valid()
      reads this
    {
      forall key <- ACCOUNTING_KEYS :: key in counts && counts[key] >= 0
    }

    ghost function Value(): Counters
      reads this
    {
      Read(counts)
    }

    constructor ()
      ensures Valid() && Value() == ZERO
    {
      counts := map[SubprocessAttempts := 0, ConfiguredStageSamples := 0, RetryAttempts := 0,
                    TimeoutCount := 0, SampleBudgetExhaustions := 0, StageBudgetExhaustions := 0];
    }

    method Bump(key: Key, n: nat)
      requires Valid()
      modifies this
      ensures Valid()
      ensures forall k :: Value().Get(k) == old(Value()).Get(k) + (if k == key then n else 0)
    {
      hide Read, Counters.Get;
      EveryKeyIsListed(key);
      counts := counts[key := counts[key] + n];
      forall k ensures Value().Get(k) == old(Value()).Get(k) + (if k == key then n else 0) {
        EveryKeyIsListed(k);
        GetReads(counts, k);
        GetReads(old(counts), k);
      }
    }

    method AddError(e: Error)
      requires Valid()
      modifies this
      ensures Valid() && Value() == old(Value()).Plus(OfError(e))
    {
      if e.IsTimeout() {
        Bump(TimeoutCount, 1);
      } else if e.SampleBudgetExhausted? {
        Bump(SampleBudgetExhaustions, 1);
      } else if e.StageBudgetExhausted? {
        Bump(StageBudgetExhaustions, 1);
      }
      ByKey(Value(), old(Value()).Plus(OfError(e)));
    }

    method AddEmbedded(embedded: map<Key, int>)
      requires Valid()
      modifies this
      ensures Valid() && Value() == old(Value()).Plus(Read(embedded))
    {
      for i := 0 to |ACCOUNTING_KEYS|
        invariant Valid()
        invariant forall k ::
                    Value().Get(k)
                    == old(Value()).Get(k) + (if k in ACCOUNTING_KEYS[..i] then ReadKey(embedded, k) else 0)
      {
        var key := ACCOUNTING_KEYS[i];
        var value := if key in embedded then embedded[key] else 0;
        if value >= 0 {
          Bump(key, value);
        }
        KeysAreDistinct(i);
      }
      forall k ensures Value().Get(k) == old(Value()).Plus(Read(embedded)).Get(k) { EveryKeyIsListed(k); }
      ByKey(Value(), old(Value()).Plus(Read(embedded)));
    }

    method AddErrors(errors: seq<Error>)
      requires Valid()
      modifies this
      ensures Valid() && Value() == old(Value()).Plus(OfErrors(errors))
    {
      for i := 0 to |errors|
        invariant Valid()
        invariant Value().Plus(OfErrors(errors[i..])) == old(Value()).Plus(OfErrors(errors))
      {
        AddError(errors[i]);
        assert errors[i..][1..] == errors[i + 1..];
      }
      assert errors[|errors|..] == [];
    }

    method AddAttempts(errors: seq<Error>, inStage: bool)
      requires Valid()
      modifies this
      ensures Valid() && Value() == old(Value()).Plus(OfAttempts(|errors|, inStage)).Plus(OfErrors(errors))
    {
      if inStage {
        Bump(ConfiguredStageSamples, 1);
      }
      Bump(SubprocessAttempts, |errors|);
      Bump(RetryAttempts, if |errors| - 1 > 0 then |errors| - 1 else 0);
      ByKey(Value(), old(Value()).Plus(OfAttempts(|errors|, inStage)));
      AddErrors(errors);
    }

    method AddLeaf(leaf: Leaf)
      requires Valid()
      modifies this
      ensures Valid() && Value() == old(Value()).Plus(OfLeaf(leaf))
    {
      hide OfErrors, OfError, OfAttempts;
      if leaf.attempts.Some? {
        var errors := leaf.attempts.value;
        AddAttempts(errors, leaf.inStage);
        if errors == [] {
          NoErrors();
          AddError(leaf.error);
        }
      } else {
        if leaf.spawned {
          Bump(SubprocessAttempts, 1);
        }
        ByKey(Value(), old(Value()).Plus(Counters(if leaf.spawned then 1 else 0, 0, 0, 0, 0, 0)));
        AddError(leaf.error);
      }
    }

    method AddStored(d: Stored)
      requires Valid()
      modifies this
      ensures Valid() && Value() == old(Value()).Plus(TotalStored(d))
      decreases d
    {
      if d.accounting.Some? {
        AddEmbedded(d.accounting.value);
      } else {
        Add(d.node);
      }
    }

    method Add(n: Node)
      requires Valid()
      modifies this
      ensures Valid() && Value() == old(Value()).Plus(Total(n))
      decreases n
    {
      hide OfLeaf, TotalStored;
      if n.configured.Records? {
        AddRecords(n.configured.value);
      } else if n.samples.Samples? {
        AddSamples(n.samples.value);
      } else {
        AddLeaf(n.leaf);
      }
    }

    method AddRecords(records: seq<Node>)
      requires Valid()
      modifies this
      ensures Valid() && Value() == old(Value()).Plus(TotalRecords(records))
      decreases records
    {
      hide Total;
      for i := 0 to |records|
        invariant Valid()
        invariant Value().Plus(TotalRecords(records[i..])) == old(Value()).Plus(TotalRecords(records))
      {
        Add(records[i]);
        assert records[i..][1..] == records[i + 1..];
      }
      assert records[|records|..] == [];
    }

    method AddSamples(samples: seq<Stored>)
      requires Valid()
      modifies this
      ensures Valid() && Value() == old(Value()).Plus(TotalSamples(samples))
      decreases samples
    {
      hide TotalStored;
      for i := 0 to |samples|
        invariant Valid()
        invariant Value().Plus(TotalSamples(samples[i..])) == old(Value()).Plus(TotalSamples(samples))
      {
        AddStored(samples[i]);
        assert samples[i..][1..] == samples[i + 1..];
      }
      assert samples[|samples|..] == [];
    }
  }

  lemma NoErrors()
    ensures OfErrors([]) == ZERO
  {
  }

  lemma GetReads(stored: map<Key, int>, key: Key)
    ensures Read(stored).Get(key) == ReadKey(stored, key)
  {
  }

  lemma {:induction false} EveryKeyIsListed(key: Key)
    ensures key in ACCOUNTING_KEYS
  {
    assert key == ACCOUNTING_KEYS[match key
                                  case SubprocessAttempts => 0
                                  case ConfiguredStageSamples => 1
                                  case RetryAttempts => 2
                                  case TimeoutCount => 3
                                  case SampleBudgetExhaustions => 4
                                  case StageBudgetExhaustions => 5];
  }

  lemma KeysAreDistinct(i: nat)
    requires i < |ACCOUNTING_KEYS|
    ensures ACCOUNTING_KEYS[i] !in ACCOUNTING_KEYS[..i]
    ensures ACCOUNTING_KEYS[..i + 1] == ACCOUNTING_KEYS[..i] + [ACCOUNTING_KEYS[i]]
  {
  }

  lemma {:induction false} ByKey(a: Counters, b: Counters)
    requires forall k :: a.Get(k) == b.Get(k)
    ensures a == b
  {
    assert a.Get(SubprocessAttempts) == b.Get(SubprocessAttempts);
    assert a.Get(ConfiguredStageSamples) == b.Get(ConfiguredStageSamples);
    assert a.Get(RetryAttempts) == b.Get(RetryAttempts);
    assert a.Get(TimeoutCount) == b.Get(TimeoutCount);
    assert a.Get(SampleBudgetExhaustions) == b.Get(SampleBudgetExhaustions);
    assert a.Get(StageBudgetExhaustions) == b.Get(StageBudgetExhaustions);
  }

  // ----- the flat account: no subtotals, no nesting

  /** The results that were really produced, in order. */
  function Leaves(n: Node): seq<Leaf> {
    if n.configured.Records? then LeavesOfRecords(n.configured.value)
    else if n.samples.Samples? then LeavesOfSamples(n.samples.value)
    else [n.leaf]
  }

  function LeavesOfRecords(records: seq<Node>): seq<Leaf> {
    if records == [] then [] else Leaves(records[0]) + LeavesOfRecords(records[1..])
  }

  function LeavesOfSamples(samples: seq<Stored>): seq<Leaf> {
    if samples == [] then [] else LeavesOfStored(samples[0]) + LeavesOfSamples(samples[1..])
  }

  function LeavesOfStored(d: Stored): seq<Leaf> {
    Leaves(d.node)
  }

  function Sum(leaves: seq<Leaf>): Counters {
    if leaves == [] then ZERO else OfLeaf(leaves[0]).Plus(Sum(leaves[1..]))
  }

  lemma {:induction false} SumConcat(a: seq<Leaf>, b: seq<Leaf>)
    ensures Sum(a + b) == Sum(a).Plus(Sum(b))
    decreases |a|
  {
    hide OfLeaf, Counters.Plus;
    if a == [] {
      assert a + b == b;
      PlusAssociates(Sum(b), ZERO, ZERO);
    } else {
      SumConcat(a[1..], b);
      assert (a + b)[1..] == a[1..] + b;
      PlusAssociates(OfLeaf(a[0]), Sum(a[1..]), Sum(b));
    }
  }

  /** Every subtotal inside the tree is the sum over the results below it. */
  predicate Honest(n: Node) {
    if n.configured.Records? then forall r <- n.configured.value :: Honest(r)
    else if n.samples.Samples? then forall d <- n.samples.value :: HonestStored(d)
    else true
  }

  predicate HonestStored(d: Stored) {
    && Honest(d.node)
    && (d.accounting.Some? ==> Read(d.accounting.value) == Sum(Leaves(d.node)))
  }

  /** Walking the tree with its subtotals gives the same totals as recomputing them all. */
  lemma {:induction false} SubtotalsAgreeWithRecomputation(n: Node)
    requires Honest(n)
    ensures Total(n) == Sum(Leaves(n))
  {
    hide OfLeaf, Counters.Plus;
    if n.configured.Records? {
      RecordsAgree(n.configured.value);
    } else if n.samples.Samples? {
      SamplesAgree(n.samples.value);
    } else {
      assert [n.leaf][1..] == [];
      PlusAssociates(OfLeaf(n.leaf), ZERO, ZERO);
    }
  }

  lemma {:induction false} RecordsAgree(records: seq<Node>)
    requires forall r <- records :: Honest(r)
    ensures TotalRecords(records) == Sum(LeavesOfRecords(records))
  {
    hide OfLeaf, Honest, Counters.Plus;
    if records != [] {
      SubtotalsAgreeWithRecomputation(records[0]);
      RecordsAgree(records[1..]);
      SumConcat(Leaves(records[0]), LeavesOfRecords(records[1..]));
    }
  }

  lemma {:induction false} StoredAgrees(d: Stored)
    requires HonestStored(d)
    ensures TotalStored(d) == Sum(LeavesOfStored(d))
  {
    hide OfLeaf, Honest, Read, Counters.Plus;
    SubtotalsAgreeWithRecomputation(d.node);
  }

  lemma {:induction false} SamplesAgree(samples: seq<Stored>)
    requires forall d <- samples :: HonestStored(d)
    ensures TotalSamples(samples) == Sum(LeavesOfSamples(samples))
  {
    hide OfLeaf, HonestStored, TotalStored, Counters.Plus;
    if samples != [] {
      StoredAgrees(samples[0]);
      SamplesAgree(samples[1..]);
      SumConcat(LeavesOfStored(samples[0]), LeavesOfSamples(samples[1..]));
    }
  }

  /** Serialising a result writes an honest subtotal. */
  lemma {:induction false} ToDictIsHonest(n: Node)
    requires Honest(n)
    ensures HonestStored(ToDict(n))
  {
    hide Total, Honest, Leaves, Sum, Read, Counters.ToMap;
    SubtotalsAgreeWithRecomputation(n);
    ReadBack(Total(n));
  }

  lemma ReadBack(counters: Counters)
    ensures Read(counters.ToMap()) == counters
  {
  }

  // ----- conservation

  /** A result that stands for at least one validator process: it has attempts, or it has
      no attempt list and counts as spawned. */
  predicate Started(leaf: Leaf) {
    if leaf.attempts.Some? then leaf.attempts.value != [] else leaf.spawned
  }

  function StartedCount(leaves: seq<Leaf>): nat {
    if leaves == [] then 0 else (if Started(leaves[0]) then 1 else 0) + StartedCount(leaves[1..])
  }

  /** The errors a result reports: one per attempt, or its own when it has none. */
  function Reported(leaf: Leaf): seq<Error> {
    if leaf.attempts.Some? && leaf.attempts.value != [] then leaf.attempts.value else [leaf.error]
  }

  function AllReported(leaves: seq<Leaf>): seq<Error> {
    if leaves == [] then [] else Reported(leaves[0]) + AllReported(leaves[1..])
  }

  lemma {:induction false} OfErrorsCountsOnlyErrors(errors: seq<Error>)
    ensures OfErrors(errors).subprocess == OfErrors(errors).samples == OfErrors(errors).retries == 0
    ensures OfErrors(errors).sampleStops == multiset(errors)[SampleBudgetExhausted]
    ensures OfErrors(errors).stageStops == multiset(errors)[StageBudgetExhausted]
    ensures OfErrors(errors).timeouts == multiset(errors)[Timeout] + multiset(errors)[CandidateBuildTimeout]
                                         + multiset(errors)[CandidateRunnerTimeout]
                                         + multiset(errors)[CandidateToolchainProbeTimeout]
  {
    if errors != [] {
      OfErrorsCountsOnlyErrors(errors[1..]);
      assert errors == [errors[0]] + errors[1..];
    }
  }

  lemma {:induction false} OfErrorsConcat(a: seq<Error>, b: seq<Error>)
    ensures OfErrors(a + b) == OfErrors(a).Plus(OfErrors(b))
    decreases |a|
  {
    hide OfError, Counters.Plus;
    if a == [] {
      assert a + b == b;
      PlusAssociates(OfErrors(b), ZERO, ZERO);
    } else {
      OfErrorsConcat(a[1..], b);
      assert (a + b)[1..] == a[1..] + b;
      PlusAssociates(OfError(a[0]), OfErrors(a[1..]), OfErrors(b));
    }
  }

  lemma {:induction false} LeafCounts(leaf: Leaf)
    ensures leaf.attempts.Some? ==>
              && OfLeaf(leaf).subprocess == |leaf.attempts.value|
              && OfLeaf(leaf).retries == (if leaf.attempts.value == [] then 0 else |leaf.attempts.value| - 1)
              && OfLeaf(leaf).samples == (if leaf.inStage then 1 else 0)
    ensures leaf.attempts.None? ==>
              && OfLeaf(leaf).subprocess == (if leaf.spawned then 1 else 0)
              && OfLeaf(leaf).retries == OfLeaf(leaf).samples == 0
  {
    hide OfErrors, OfError;
    ErrorsCostNoAttempts(leaf.error, if leaf.attempts.Some? then leaf.attempts.value else []);
  }

  lemma {:induction false} ErrorsCostNoAttempts(e: Error, errors: seq<Error>)
    ensures OfError(e).subprocess == OfError(e).samples == OfError(e).retries == 0
    ensures OfErrors(errors).subprocess == OfErrors(errors).samples == OfErrors(errors).retries == 0
  {
    OfErrorsCountsOnlyErrors(errors);
  }

  lemma {:induction false} LeafConserves(leaf: Leaf)
    ensures OfLeaf(leaf).subprocess - OfLeaf(leaf).retries == if Started(leaf) then 1 else 0
    ensures OfLeaf(leaf).SameFailures(OfErrors(Reported(leaf)))
  {
    if leaf.attempts.Some? { OfErrorsCountsOnlyErrors(leaf.attempts.value); }
    assert [leaf.error][1..] == [];
    OfErrorsCountsOnlyErrors([leaf.error]);
  }

  /** Attempts minus retries counts the results that started a process. */
  lemma {:induction false} AttemptsMinusRetries(leaves: seq<Leaf>)
    ensures Sum(leaves).subprocess - Sum(leaves).retries == StartedCount(leaves)
    decreases |leaves|
  {
    hide OfLeaf, Started, Reported;
    if leaves != [] {
      AttemptsMinusRetries(leaves[1..]);
      LeafConserves(leaves[0]);
    }
  }

  lemma {:induction false} FailuresAreReported(leaves: seq<Leaf>)
    ensures Sum(leaves).SameFailures(OfErrors(AllReported(leaves)))
    decreases |leaves|
  {
    hide OfLeaf, Reported, OfErrors;
    if leaves == [] {
      NoErrors();
    } else {
      FailuresAreReported(leaves[1..]);
      LeafConserves(leaves[0]);
      OfErrorsConcat(Reported(leaves[0]), AllReported(leaves[1..]));
    }
  }

  /** Conservation over a whole tree with honest subtotals: attempts minus retries counts
      the started results, and the failure counters count every reported error once. */
  lemma {:induction false} TreeConserves(n: Node)
    requires Honest(n)
    ensures Total(n).subprocess - Total(n).retries == StartedCount(Leaves(n))
    ensures Total(n).stageStops == multiset(AllReported(Leaves(n)))[StageBudgetExhausted]
    ensures Total(n).sampleStops == multiset(AllReported(Leaves(n)))[SampleBudgetExhausted]
    ensures var reported := multiset(AllReported(Leaves(n)));
            Total(n).timeouts == reported[Timeout] + reported[CandidateBuildTimeout]
                                 + reported[CandidateRunnerTimeout] + reported[CandidateToolchainProbeTimeout]
  {
    hide Leaves, Sum, AllReported, OfErrors, Total, Honest, StartedCount;
    SubtotalsAgreeWithRecomputation(n);
    AttemptsMinusRetries(Leaves(n));
    FailuresAreReported(Leaves(n));
    OfErrorsCountsOnlyErrors(AllReported(Leaves(n)));
  }
}
