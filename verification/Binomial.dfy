/** Exact binomial tails (libreevolve/core/evaluator.py) and what they are the probability
    of, over the reals; and the success-rate test of a stage that uses them. */
module Binomial {
  import opened Text
  import opened RealAlgebra
  import opened Wilson

  // ----- coefficients

  /** `math.comb(n, k)`, by Pascal's rule; zero outside 0..n. */
  function Choose(n: nat, k: int): nat {
    if k < 0 || k > n then 0 else if n == 0 then 1 else Choose(n - 1, k - 1) + Choose(n - 1, k)
  }

  function Factorial(n: nat): nat {
    if n == 0 then 1 else n * Factorial(n - 1)
  }

  lemma {:induction false} ChooseOutside(n: nat)
    ensures Choose(n, n) == 1 && Choose(n, 0) == 1
  {
    if n > 0 { ChooseOutside(n - 1); }
  }

  /** The coefficient is the quotient of factorials that `math.comb` is specified by. */
  lemma {:induction false} ChooseIsQuotient(n: nat, k: nat)
    requires k <= n
    ensures Choose(n, k) * (Factorial(k) * Factorial(n - k)) == Factorial(n)
  {
    ChooseOutside(n);
    if 0 < k < n {
      ChooseIsQuotient(n - 1, k - 1);
      ChooseIsQuotient(n - 1, k);
      var a, b := Choose(n - 1, k - 1), Choose(n - 1, k);
      var f, g := Factorial(k - 1), Factorial(n - k - 1);
      assert Factorial(k) == k * f && Factorial(n - k) == (n - k) * g;
      PascalStep(a, b, f, g, k, n - k, Factorial(n - 1));
      assert k * Factorial(n - 1) + (n - k) * Factorial(n - 1) == n * Factorial(n - 1);
    }
  }

  lemma {:induction false} PascalStep(a: int, b: int, f: int, g: int, k: int, m: int, h: int)
    requires a * (f * (m * g)) == h && b * ((k * f) * g) == h
    ensures (a + b) * ((k * f) * (m * g)) == k * h + m * h
  {
    assert a * ((k * f) * (m * g)) == k * (a * (f * (m * g)));
    assert b * ((k * f) * (m * g)) == m * (b * ((k * f) * g));
    assert (a + b) * ((k * f) * (m * g)) == a * ((k * f) * (m * g)) + b * ((k * f) * (m * g));
  }

  // ----- the distribution

  function Pow(x: real, n: nat): real {
    if n == 0 then 1.0 else Mul(x, Pow(x, n - 1))
  }

  /** Probability of exactly `i` successes. */
  function Term(n: nat, p: real, i: int): real {
    if i < 0 || i > n then 0.0
    else Mul(Mul(Choose(n, i) as real, Pow(p, i)), Pow(1.0 - p, n - i))
  }

  /** Sum of the terms lo..hi. */
  function TermSum(n: nat, p: real, lo: int, hi: int): real
    decreases hi - lo + 1
  {
    if hi < lo then 0.0 else TermSum(n, p, lo, hi - 1) + Term(n, p, hi)
  }

  function ClampAtOne(x: real): real {
    if x < 1.0 then x else 1.0
  }

  /** `_binomial_tail_at_least`. */
  function TailAtLeast(successes: int, trials: nat, probability: real): real {
    if successes <= 0 then 1.0
    else if successes > trials then 0.0
    else ClampAtOne(TermSum(trials, probability, successes, trials))
  }

  /** `_binomial_cdf_at_most`. */
  function CdfAtMost(successes: int, trials: nat, probability: real): real {
    if successes < 0 then 0.0
    else if successes >= trials then 1.0
    else ClampAtOne(TermSum(trials, probability, 0, successes))
  }

  /** Reference definition: the probability that `n` more independent trials, after `j`
      successes, end with a number of successes that satisfies `event`. */
  function Toss(n: nat, p: real, event: int -> bool, j: int): real {
    if n == 0 then (if event(j) then 1.0 else 0.0)
    else Mul(p, Toss(n - 1, p, event, j + 1)) + Mul(1.0 - p, Toss(n - 1, p, event, j))
  }

  // ----- the terms are the distribution of the number of successes

  /** Pascal's rule for probabilities: the last trial succeeds or fails. */
  lemma {:induction false} TermStep(n: nat, p: real, i: int)
    requires n > 0
    ensures Term(n, p, i) == Mul(p, Term(n - 1, p, i - 1)) + Mul(1.0 - p, Term(n - 1, p, i))
  {
    hide Mul;
    Units(p);
    Units(1.0 - p);
    if 0 <= i <= n {
      var q := 1.0 - p;
      var a, b := Choose(n - 1, i - 1) as real, Choose(n - 1, i) as real;
      assert Choose(n, i) as real == a + b;
      assert i > 0 ==> Mul(p, Term(n - 1, p, i - 1)) == Mul(Mul(a, Pow(p, i)), Pow(q, n - i)) by {
        if i > 0 { Regroup(p, a, Pow(p, i - 1), Pow(q, n - i)); }
      }
      assert i < n ==> Mul(q, Term(n - 1, p, i)) == Mul(Mul(b, Pow(p, i)), Pow(q, n - i)) by {
        if i < n { Regroup'(q, b, Pow(p, i), Pow(q, n - 1 - i)); }
      }
      Distributes(Pow(p, i), a, b);
      Distributes(Pow(q, n - i), Mul(a, Pow(p, i)), Mul(b, Pow(p, i)));
      Units(Pow(p, i));
      Units(Pow(q, n - i));
    }
  }

  lemma {:induction false} Regroup(p: real, a: real, x: real, y: real)
    ensures Mul(p, Mul(Mul(a, x), y)) == Mul(Mul(a, Mul(p, x)), y)
  {
    hide Mul;
    Associates(p, Mul(a, x), y);
    Associates(p, a, x);
    Commutes(p, a);
    Associates(a, p, x);
  }

  lemma {:induction false} Regroup'(q: real, b: real, x: real, y: real)
    ensures Mul(q, Mul(Mul(b, x), y)) == Mul(Mul(b, x), Mul(q, y))
  {
    hide Mul;
    Associates(q, Mul(b, x), y);
    Commutes(q, Mul(b, x));
    Associates(Mul(b, x), q, y);
  }

  /** Sum of the terms 0..k whose number of successes, shifted by `j`, is in the event. */
  function EventSum(n: nat, p: real, event: int -> bool, j: int, k: int): real
    decreases k + 1
  {
    if k < 0 then 0.0 else EventSum(n, p, event, j, k - 1) + if event(j + k) then Term(n, p, k) else 0.0
  }

  lemma {:induction false} EventSumStep(n: nat, p: real, event: int -> bool, j: int, k: int)
    requires n > 0
    ensures EventSum(n, p, event, j, k)
            == Mul(p, EventSum(n - 1, p, event, j + 1, k - 1)) + Mul(1.0 - p, EventSum(n - 1, p, event, j, k))
    decreases k + 1
  {
    hide Mul, Term;
    Units(p);
    Units(1.0 - p);
    if k >= 0 {
      EventSumStep(n, p, event, j, k - 1);
      TermStep(n, p, k);
      Distributes(p, EventSum(n - 1, p, event, j + 1, k - 2), Term(n - 1, p, k - 1));
      Distributes(1.0 - p, EventSum(n - 1, p, event, j, k - 1), Term(n - 1, p, k));
      assert k == 0 ==> Term(n - 1, p, k - 1) == 0.0 by { NegativeTerm(n - 1, p, k - 1); }
    }
  }

  lemma NegativeTerm(n: nat, p: real, i: int)
    ensures i < 0 || i > n ==> Term(n, p, i) == 0.0
  {
  }

  /** The sum of the terms of an event is its probability over sequences of trials. */
  lemma {:induction false} EventSumIsToss(n: nat, p: real, event: int -> bool, j: int)
    ensures EventSum(n, p, event, j, n) == Toss(n, p, event, j)
  {
    if n == 0 {
      Units(1.0);
      assert EventSum(0, p, event, j, -1) == 0.0;
    } else {
      hide Mul, Term;
      EventSumStep(n, p, event, j, n);
      EventSumIsToss(n - 1, p, event, j + 1);
      EventSumIsToss(n - 1, p, event, j);
      NegativeTerm(n - 1, p, n);
    }
  }

  function AtLeast(k: int): int -> bool { x => x >= k }
  function AtMost(k: int): int -> bool { x => x <= k }
  function Complement(event: int -> bool): int -> bool { x => !event(x) }

  lemma {:induction false} AtLeastSum(n: nat, p: real, s: nat, k: int)
    ensures EventSum(n, p, AtLeast(s), 0, k) == TermSum(n, p, s, k)
    decreases k + 1
  {
    hide Term;
    if k >= 0 { AtLeastSum(n, p, s, k - 1); }
  }

  lemma {:induction false} AtMostSum(n: nat, p: real, s: int, k: int)
    ensures EventSum(n, p, AtMost(s), 0, k) == TermSum(n, p, 0, if k <= s then k else s)
    decreases k + 1
  {
    hide Term;
    if k >= 0 { AtMostSum(n, p, s, k - 1); }
  }

  /** Probabilities lie between 0 and 1, and those of an event and its complement add up
      to 1 (the binomial theorem). */
  lemma {:induction false} TossRange(n: nat, p: real, event: int -> bool, j: int)
    requires 0.0 <= p <= 1.0
    ensures 0.0 <= Toss(n, p, event, j) <= 1.0
    ensures Toss(n, p, event, j) + Toss(n, p, Complement(event), j) == 1.0
  {
    if n > 0 {
      hide Mul;
      TossRange(n - 1, p, event, j);
      TossRange(n - 1, p, event, j + 1);
      var q := 1.0 - p;
      var a, b := Toss(n - 1, p, event, j + 1), Toss(n - 1, p, event, j);
      var a', b' := Toss(n - 1, p, Complement(event), j + 1), Toss(n - 1, p, Complement(event), j);
      Signs(p, a);
      Signs(q, b);
      Ordered(p, 1.0, a);
      Ordered(q, 1.0, b);
      Units(p);
      Units(q);
      Distributes(p, a, a');
      Distributes(q, b, b');
    }
  }

  /** Events that agree on the possible numbers of successes are equally likely. */
  lemma {:induction false} TossAgrees(n: nat, p: real, event: int -> bool, other: int -> bool, j: int)
    requires forall x :: j <= x <= j + n ==> (event(x) <==> other(x))
    ensures Toss(n, p, event, j) == Toss(n, p, other, j)
  {
    if n > 0 {
      hide Mul;
      TossAgrees(n - 1, p, event, other, j);
      TossAgrees(n - 1, p, event, other, j + 1);
    }
  }

  // ----- main results

  /** The tail is, for every integer bound, the probability of at least that many
      successes; the special cases agree with the sum and the clamp never applies. */
  lemma {:induction false} TailIsProbability(successes: int, trials: nat, p: real)
    requires 0.0 <= p <= 1.0
    ensures TailAtLeast(successes, trials, p) == Toss(trials, p, AtLeast(successes), 0)
  {
    hide Mul;
    TossRange(trials, p, AtLeast(successes), 0);
    if successes <= 0 || successes > trials {
      Constant(trials, p, AtLeast(successes), 0, successes <= 0);
    } else {
      EventSumIsToss(trials, p, AtLeast(successes), 0);
      AtLeastSum(trials, p, successes, trials);
    }
  }

  lemma {:induction false} Constant(n: nat, p: real, event: int -> bool, j: int, value: bool)
    requires forall x :: j <= x <= j + n ==> event(x) == value
    ensures Toss(n, p, event, j) == if value then 1.0 else 0.0
  {
    if n > 0 {
      Constant(n - 1, p, event, j, value);
      Constant(n - 1, p, event, j + 1, value);
      Units(p);
      Units(1.0 - p);
    }
  }

  /** The distribution function is the probability of at most that many successes. */
  lemma {:induction false} CdfIsProbability(successes: int, trials: nat, p: real)
    requires 0.0 <= p <= 1.0
    ensures CdfAtMost(successes, trials, p) == Toss(trials, p, AtMost(successes), 0)
  {
    hide Mul;
    TossRange(trials, p, AtMost(successes), 0);
    if successes < 0 || successes >= trials {
      Constant(trials, p, AtMost(successes), 0, successes >= trials);
    } else {
      EventSumIsToss(trials, p, AtMost(successes), 0);
      AtMostSum(trials, p, successes, trials);
    }
  }

  /** Tail and distribution function are complementary, for every integer. */
  lemma {:induction false} TailAndCdfAreComplementary(k: int, n: nat, p: real)
    requires 0.0 <= p <= 1.0
    ensures TailAtLeast(k, n, p) + CdfAtMost(k - 1, n, p) == 1.0
  {
    TailIsProbability(k, n, p);
    CdfIsProbability(k - 1, n, p);
    TossRange(n, p, AtLeast(k), 0);
    TossAgrees(n, p, Complement(AtLeast(k)), AtMost(k - 1), 0);
  }

  // ----- the success-rate test of a stage

  /** The event that the lower-bound test fails. */
  function Failing(sqrt: real -> real, n: nat, z: real, rate: real): int -> bool {
    x => !Passes(sqrt, x, n, z, rate)
  }

  /** The false-rejection estimate: with the threshold that the search finds, the value of
      the distribution function is exactly the probability, at the alternative rate, that
      the lower-bound test fails. */
  method FalseRejectionRate(sqrt: real -> real, n: nat, rate: real, effect: real, z: real) returns (estimate: real)
    requires IsSqrt(sqrt) && z > 0.0 && 0.0 < rate <= 1.0 && effect >= 0.0
    ensures estimate == Toss(n, ClampAtOne(rate + effect), Failing(sqrt, n, z, rate), 0)
    ensures 0.0 <= estimate <= 1.0
  {
    hide LowerBound, IsSqrt, Toss, CdfAtMost;
    var alternative := ClampAtOne(rate + effect);
    var required := MinimumSuccesses(sqrt, n, rate, z);
    estimate := CdfAtMost(required - 1, n, alternative);
    CdfIsProbability(required - 1, n, alternative);
    TossRange(n, alternative, AtMost(required - 1), 0);
    TossAgrees(n, alternative, AtMost(required - 1), Failing(sqrt, n, z, rate), 0);
  }

  const TOLERANCE := 0.000000000001

  datatype Rejection = MaxRejection(maxRate: real, effect: real)

  datatype ErrorBudget = ErrorBudget(maxFalsePromotion: Option<real>, maxFalseRejection: Option<Rejection>)

  datatype Reason = InsufficientSamples | LowerBoundBelowMin | FalsePromotionBudget | FalseRejectionBudget

  /** 1 - confidence, the approximate chance to promote a candidate at the required rate. */
  function PromotionRate(confidence: real): real {
    if 1.0 - confidence < 0.0 then 0.0 else 1.0 - confidence
  }

  ghost predicate PromotionAllowed(budget: ErrorBudget, confidence: real) {
    budget.maxFalsePromotion.Some? ==> PromotionRate(confidence) <= budget.maxFalsePromotion.value + TOLERANCE
  }

  /** The promotion budget allows a confidence exactly when what is missing to certainty, and
      nothing missing, stay within it, up to the tolerance. */
  lemma PromotionMeaning(budget: ErrorBudget, confidence: real)
    requires budget.maxFalsePromotion.Some?
    ensures PromotionAllowed(budget, confidence) <==>
              && 1.0 - confidence <= budget.maxFalsePromotion.value + TOLERANCE
              && 0.0 <= budget.maxFalsePromotion.value + TOLERANCE
  {
  }

  /** The chance of failing the test at the rate to be detected stays in its budget. */
  ghost predicate RejectionAllowed(sqrt: real -> real, budget: ErrorBudget, n: nat, rate: real, z: real) {
    budget.maxFalseRejection.Some? ==>
      var limit := budget.maxFalseRejection.value;
      Toss(n, ClampAtOne(rate + limit.effect), Failing(sqrt, n, z, rate), 0) <= limit.maxRate + TOLERANCE
  }

  /** `_stage_binomial_success_rate_result`: a stage passes exactly when it has enough
      samples, its observed rate lies far enough above the required one, and both error
      budgets hold; the reason names the first condition that fails, the lower bound
      before the budgets. */
  method SuccessRateTest(sqrt: real -> real, successes: nat, n: nat, minSamples: nat, rate: real, confidence: real,
                         z: real, budget: ErrorBudget)
    returns (passed: bool, reason: Option<Reason>, pValue: Option<real>)
    requires IsSqrt(sqrt) && z > 0.0 && 0.0 < rate <= 1.0 && successes <= n && minSamples >= 1
    requires budget.maxFalseRejection.Some? ==> budget.maxFalseRejection.value.effect >= 0.0
    ensures passed <==>
              && n >= minSamples && rate < 1.0 && FarEnough(successes, n, z, rate)
              && PromotionAllowed(budget, confidence) && RejectionAllowed(sqrt, budget, n, rate, z)
    ensures reason == if passed then None
                      else if n < minSamples then Some(InsufficientSamples)
                      else if rate == 1.0 || !FarEnough(successes, n, z, rate) then Some(LowerBoundBelowMin)
                      else if !PromotionAllowed(budget, confidence) then Some(FalsePromotionBudget)
                      else Some(FalseRejectionBudget)
    ensures pValue == if n < minSamples then None else Some(Toss(n, rate, AtLeast(successes), 0))
  {
    hide LowerBound, IsSqrt, Toss, TailAtLeast, FarEnough;
    if n < minSamples {
      return false, Some(InsufficientSamples), None;
    }
    pValue := Some(TailAtLeast(successes, n, rate));
    TailIsProbability(successes, n, rate);
    passed := LowerBound(sqrt, successes, n, z) >= rate;
    if rate < 1.0 { PassesMeaning(sqrt, successes, n, z, rate); } else { RateOneNeverPasses(sqrt, successes, n, z); }
    var budgetReason: Option<Reason> := None;
    if budget.maxFalsePromotion.Some? {
      if PromotionRate(confidence) > budget.maxFalsePromotion.value + TOLERANCE {
        budgetReason := Some(FalsePromotionBudget);
      }
    }
    if budget.maxFalseRejection.Some? {
      var limit := budget.maxFalseRejection.value;
      var estimate := FalseRejectionRate(sqrt, n, rate, limit.effect, z);
      if estimate > limit.maxRate + TOLERANCE && budgetReason.None? {
        budgetReason := Some(FalseRejectionBudget);
      }
    }
    reason := None;
    if passed && budgetReason.Some? {
      passed, reason := false, budgetReason;
    }
    if !passed && reason.None? {
      reason := Some(LowerBoundBelowMin);
    }
  }
}
