/** The Wilson lower confidence bound of a success rate and the search for the least
    number of successes that passes it (libreevolve/core/evaluator.py), over the reals. */
module Wilson {
  import opened RealAlgebra

  /** `sqrt` is the non-negative square root wherever there is one. */
  ghost predicate IsSqrt(sqrt: real -> real) {
    forall x: real :: x >= 0.0 ==> sqrt(x) >= 0.0 && sqrt(x) * sqrt(x) == x
  }

  function Center(phat: real, z2: real, n: real, denominator: real): real
    requires n > 0.0 && denominator > 0.0
  {
    (phat + z2 / (2.0 * n)) / denominator
  }

  /** What the square root is taken of. */
  function Spread(phat: real, z2: real, n: real): real
    requires n > 0.0
  {
    Signs(n, n);
    phat * (1.0 - phat) / n + z2 / (4.0 * n * n)
  }

  function Margin(z: real, root: real, denominator: real): real
    requires denominator > 0.0
  {
    z * root / denominator
  }

  /** `_wilson_lower_bound`. */
  function LowerBound(sqrt: real -> real, successes: int, trials: int, z: real): real {
    if trials <= 0 then 0.0
    else
      var n := trials as real;
      var phat := successes as real / n;
      var z2 := z * z;
      DenominatorPositive(z, n);
      var denominator := 1.0 + z2 / n;
      var bound := Center(phat, z2, n, denominator) - Margin(z, sqrt(Spread(phat, z2, n)), denominator);
      if bound < 0.0 then 0.0 else bound
  }

  lemma {:induction false} DenominatorPositive(z: real, n: real)
    requires n > 0.0
    ensures 1.0 + z * z / n > 0.0
  {
    Signs(z, z);
    QuotientSigns(Mul(z, z), n);
  }

  /** The comparison made by the success-rate test. */
  predicate Passes(sqrt: real -> real, successes: int, trials: int, z: real, rate: real) {
    LowerBound(sqrt, successes, trials, z) >= rate
  }

  /** The same decision without the square root: the observed rate is at least `rate`, and
      its squared distance from it, times the number of trials, is at least `z` squared
      times the variance of one trial at `rate`. */
  predicate FarEnough(successes: int, trials: int, z: real, rate: real)
    requires trials >= 1
  {
    var n := trials as real;
    var phat := successes as real / n;
    phat >= rate && n * ((phat - rate) * (phat - rate)) >= z * z * (rate * (1.0 - rate))
  }

  // ----- the quantities of the test, with a = z*z/n and w = z times the square root

  function Square(x: real): real { Mul(x, x) }

  /** Variance of one trial at rate `p`. */
  function Variance(p: real): real { Mul(p, 1.0 - p) }

  function Rate(s: int, n: int): real
    requires n >= 1
  {
    Div(s as real, n as real)
  }

  function Shrink(z: real, n: int): real
    requires n >= 1
  {
    Div(Square(z), n as real)
  }

  lemma {:induction false} LowerBoundForm(sqrt: real -> real, s: int, n: int, z: real)
    requires n >= 1
    ensures var p, a, m := Rate(s, n), Shrink(z, n), n as real;
            var w := Mul(z, sqrt(Spread(p, Square(z), m)));
            && a >= 0.0
            && var x := Div(p + Div(a, 2.0), 1.0 + a) - Div(w, 1.0 + a);
               LowerBound(sqrt, s, n, z) == if x < 0.0 then 0.0 else x
  {
    hide Spread;
    var m := n as real;
    Signs(z, z);
    QuotientSigns(Square(z), m);
    HalfQuotient(Square(z), m);
    DenominatorPositive(z, m);
    var p, a, root := Rate(s, n), Shrink(z, n), sqrt(Spread(Rate(s, n), Square(z), m));
    assert Center(p, Square(z), m, 1.0 + a) == Div(p + Div(a, 2.0), 1.0 + a);
    assert Margin(z, root, 1.0 + a) == Div(Mul(z, root), 1.0 + a);
    hide Center, Margin;
    assert LowerBound(sqrt, s, n, z)
           == var x := Center(p, Square(z), m, 1.0 + a) - Margin(z, root, 1.0 + a); if x < 0.0 then 0.0 else x;
  }

  lemma {:induction false} HalfQuotient(x: real, n: real)
    requires n > 0.0
    ensures Div(x, 2.0 * n) == Div(Div(x, n), 2.0)
  {
    var y := Div(x, n);
    Quotient(x, n);
    Quotient(x, 2.0 * n);
    Quotient(y, 2.0);
    Cancels(2.0 * n, Div(x, 2.0 * n), Div(y, 2.0));
    assert 2.0 * n == n + n;
    hide Mul, Div;
    var h := Div(y, 2.0);
    Distributes(h, n, n);
    assert y == h + h by { TwiceHalf(y); }
    Distributes(n, h, h);
    Commutes(n, h);
    Commutes(n, y);
  }

  lemma TwiceHalf(y: real)
    ensures y == Div(y, 2.0) + Div(y, 2.0)
  {
  }

  // ----- the algebra of the comparison

  /** The squared margin, free of divisions by n. */
  lemma {:induction false} SpreadFacts(p: real, z: real, m: real, a: real)
    requires 0.0 <= p <= 1.0 && m > 0.0 && Mul(a, m) == Square(z)
    ensures Spread(p, Square(z), m) >= 0.0
    ensures Mul(Square(z), Spread(p, Square(z), m)) == Mul(a, Variance(p)) + Mul(a, Div(a, 4.0))
  {
    var z2 := Square(z);
    var u, v := SpreadParts(p, z2, m);
    hide Mul, Div, Spread;
    Signs(p, 1.0 - p);
    Signs(z, z);
    QuotientSigns(Variance(p), m);
    Signs(m, m);
    FourTimes(v, m, a);
    Distributes(z2, u, v);
    Associates(a, m, u);
    Associates(a, m, v);
    Commutes(m, u);
    Commutes(m, v);
  }

  /** The two summands of the spread; `v` is z2 / (4 n n). */
  lemma {:induction false} SpreadParts(p: real, z2: real, m: real) returns (u: real, v: real)
    requires m > 0.0 && z2 >= 0.0
    ensures Spread(p, z2, m) == u + v
    ensures Mul(u, m) == Variance(p) && Mul(Mul(v, m + m + m + m), m) == z2
    ensures u == Div(Variance(p), m) && v >= 0.0
  {
    Signs(m, m);
    var k := 4.0 * m * m;
    u, v := Div(Variance(p), m), Div(z2, k);
    Quotient(Variance(p), m);
    Quotient(z2, k);
    assert k == Mul(m + m + m + m, m);
    Associates(v, m + m + m + m, m);
    SignOfMultiple(m, k);
    QuotientSigns(z2, k);
  }

  lemma {:induction false} SignOfMultiple(m: real, k: real)
    requires m > 0.0 && k == Mul(m + m + m + m, m)
    ensures k > 0.0
  {
    Signs(m + m + m + m, m);
  }

  lemma {:induction false} FourTimes(v: real, m: real, a: real)
    requires m > 0.0 && Mul(Mul(v, m + m + m + m), m) == Mul(a, m)
    ensures Mul(v, m) == Div(a, 4.0)
  {
    Commutes(Mul(v, m + m + m + m), m);
    Commutes(a, m);
    Cancels(m, Mul(v, m + m + m + m), a);
    Distributes(v, m + m, m + m);
    Distributes(v, m, m);
  }

  /** The comparison with the denominator multiplied out. */
  lemma {:induction false} Cleared(p: real, a: real, w: real, r: real)
    requires a >= 0.0
    ensures Div(p + Div(a, 2.0), 1.0 + a) - Div(w, 1.0 + a) >= r <==> p - r + Mul(a, 0.5 - r) >= w
  {
    assert Mul(a, 0.5) == Div(a, 2.0);
    hide Mul, Div;
    var d, q := 1.0 + a, p + Div(a, 2.0);
    Quotient(q, d);
    Quotient(w, d);
    Distributes(d, Div(q, d), Div(w, d));
    Distributes(r, 1.0, a);
    Commutes(d, r);
    Commutes(a, r);
    Units(r);
    Cancels(d, Div(q, d) - Div(w, d), r);
    Distributes(a, 0.5, r);
  }

  /** For non-negative w, a number is at least w exactly when it is non-negative and its
      square is at least the square of w. */
  lemma {:induction false} SquareOrder(x: real, w: real)
    requires w >= 0.0
    ensures x >= w <==> x >= 0.0 && Square(x) >= Square(w)
  {
    hide Mul;
    if x >= w {
      Ordered(x, x, w);
      Ordered(w, x, w);
    } else if x >= 0.0 {
      // (w - x) * (w + x) > 0
      Signs(w - x, w + x);
      Distributes(w - x, w, x);
      Distributes(w, w, x);
      Distributes(x, w, x);
      Commutes(w, x);
    }
  }

  lemma {:induction false} SquareOfSum(d: real, a: real, h: real)
    ensures Square(d + Mul(a, h)) == Square(d) + 2.0 * Mul(a, Mul(d, h)) + Mul(Mul(a, a), Square(h))
  {
    var k := Mul(a, h);
    assert Square(d + k) == Square(d) + 2.0 * Mul(d, k) + Square(k);
    hide Mul;
    Associates(a, d, h);
    Commutes(a, d);
    Associates(d, a, h);
    SquareOfProduct(a, h);
  }

  /** The difference of the two squares factors. */
  lemma {:induction false} Factored(p: real, a: real, r: real)
    ensures Square(p - r + Mul(a, 0.5 - r)) - (Mul(a, Variance(p)) + Mul(a, Div(a, 4.0)))
            == Mul(1.0 + a, Square(p - r) - Mul(a, Variance(r)))
  {
    var d, h, v := p - r, 0.5 - r, Variance(r);
    SquareOfSum(d, a, h);
    VarianceShifts(p, r);
    hide Mul, Div, Square, Variance;
    var aa, dd, dh := Mul(a, a), Square(d), Mul(d, h);
    Distributes(a, v + 2.0 * dh, dd);
    Distributes(a, v, 2.0 * dh);
    Doubles(a, dh);
    Distributes(aa, 0.25, v);
    Distributes(dd - Mul(a, v), 1.0, a);
    Commutes(1.0 + a, dd - Mul(a, v));
    Commutes(a, dd - Mul(a, v));
    Distributes(a, dd, Mul(a, v));
    Units(dd - Mul(a, v));
    Associates(a, a, v);
    Quarter(a);
  }

  lemma Doubles(a: real, x: real)
    ensures Mul(a, 2.0 * x) == 2.0 * Mul(a, x)
  {
  }

  lemma Quarter(a: real)
    ensures Mul(a, Div(a, 4.0)) == Mul(Mul(a, a), 0.25)
  {
  }

  /** The variances at two rates, by their distance. */
  lemma VarianceShifts(p: real, r: real)
    ensures Variance(p) == Variance(r) + 2.0 * Mul(p - r, 0.5 - r) - Square(p - r)
    ensures Square(0.5 - r) == 0.25 - Variance(r)
  {
  }

  /** The side condition of the squared comparison says that the observed rate is not
      below the required one. */
  lemma {:induction false} SideCondition(p: real, a: real, r: real)
    requires 0.0 < r < 1.0 && 0.0 <= p <= 1.0 && a > 0.0
    requires Square(p - r) >= Mul(a, Variance(r))
    ensures p - r + Mul(a, 0.5 - r) >= 0.0 <==> p >= r
  {
    hide Mul;
    var k := Mul(a, r);
    Signs(a, r);
    Associates(a, r, 1.0 - r);
    Distributes(a, 0.5, r);
    Signs(a, 0.5);
    if p >= r {
      // (p-r)*(1-r) >= (p-r)^2 >= k*(1-r), so p-r >= k
      Ordered(p - r, 1.0 - r, p - r);
      Commutes(p - r, 1.0 - r);
      Commutes(k, 1.0 - r);
      Cancels(1.0 - r, p - r, k);
    } else {
      // r-p <= r and r-p <= a*(1/2-r) would give (r-p)^2 <= k*(1/2-r) < k*(1-r)
      var e := r - p;
      Negates(e, e);
      assert Square(e) == Square(p - r);
      Ordered(e, r, e);
      Distributes(k, 0.5 - r, 0.5);
      Signs(k, 0.5);
      Associates(a, r, 0.5 - r);
      Commutes(r, 0.5 - r);
      Associates(a, 0.5 - r, r);
      Commutes(r, e);
      if Mul(a, 0.5 - r) >= e { Ordered(r, Mul(a, 0.5 - r), e); Commutes(r, Mul(a, 0.5 - r)); }
    }
  }

  lemma {:induction false} RateRange(s: int, n: int)
    requires 0 <= s <= n && n >= 1
    ensures 0.0 <= Rate(s, n) <= 1.0
  {
    hide Mul, Div;
    var m := n as real;
    Quotient(s as real, m);
    QuotientSigns(s as real, m);
    Units(m);
    Cancels(m, 1.0, Rate(s, n));
  }

  /** The comparison of the lower bound, with its square root, as one with squares. */
  lemma {:induction false} PassesBySquares(sqrt: real -> real, s: int, n: int, z: real, r: real)
    requires IsSqrt(sqrt) && 0 <= s <= n && n >= 1 && z > 0.0 && r > 0.0
    ensures var p, a := Rate(s, n), Shrink(z, n);
            && a > 0.0 && Mul(a, n as real) == Square(z)
            && (Passes(sqrt, s, n, z, r) <==>
                  p - r + Mul(a, 0.5 - r) >= 0.0 && Square(p - r) >= Mul(a, Variance(r)))
  {
    var m := n as real;
    var p, a := Rate(s, n), Shrink(z, n);
    var x := Spread(p, Square(z), m);
    RateRange(s, n);
    Signs(z, z);
    Quotient(Square(z), m);
    QuotientSigns(Square(z), m);
    SpreadFacts(p, z, m, a);
    var root := sqrt(x);
    assert root >= 0.0 && Square(root) == x;
    var w := Mul(z, root);
    LowerBoundForm(sqrt, s, n, z);
    hide Mul, Div, Spread, LowerBound, IsSqrt, Variance;
    SquareOfProduct(z, root);
    Signs(z, root);
    Cleared(p, a, w, r);
    var l := p - r + Mul(a, 0.5 - r);
    SquareOrder(l, w);
    Factored(p, a, r);
    Signs(1.0 + a, Square(p - r) - Mul(a, Variance(r)));
  }

  lemma {:induction false} SquareOfProduct(x: real, y: real)
    ensures Square(Mul(x, y)) == Mul(Square(x), Square(y))
  {
    hide Mul;
    Associates(x, y, Mul(x, y));
    Associates(y, x, y);
    Commutes(x, y);
    Associates(x, y, y);
    Commutes(y, Mul(x, y));
    Associates(x, x, Square(y));
  }

  // ----- main results

  /** For a required rate strictly between 0 and 1, the test passes exactly when the
      observed rate lies far enough above it. */
  lemma {:induction false} PassesMeaning(sqrt: real -> real, s: int, n: int, z: real, r: real)
    requires IsSqrt(sqrt) && 0 <= s <= n && n >= 1 && z > 0.0 && 0.0 < r < 1.0
    ensures Passes(sqrt, s, n, z, r) <==> FarEnough(s, n, z, r)
  {
    var m := n as real;
    var p, a := Rate(s, n), Shrink(z, n);
    FarEnoughForm(s, n, z, r);
    PassesBySquares(sqrt, s, n, z, r);
    RateRange(s, n);
    hide Mul, Div, Square, Variance, Passes, FarEnough, IsSqrt;
    var d2, v := Square(p - r), Variance(r);
    if d2 >= Mul(a, v) { SideCondition(p, a, r); }
    Associates(m, a, v);
    Commutes(m, a);
    Cancels(m, d2, Mul(a, v));
  }

  lemma FarEnoughForm(s: int, n: int, z: real, r: real)
    requires n >= 1
    ensures FarEnough(s, n, z, r)
            <==> Rate(s, n) >= r && Mul(n as real, Square(Rate(s, n) - r)) >= Mul(Square(z), Variance(r))
  {
  }

  /** A required rate of 1 is never reached, whatever the observations. */
  lemma {:induction false} RateOneNeverPasses(sqrt: real -> real, s: int, n: int, z: real)
    requires IsSqrt(sqrt) && 0 <= s <= n && z > 0.0
    ensures !Passes(sqrt, s, n, z, 1.0)
  {
    if n >= 1 {
      PassesBySquares(sqrt, s, n, z, 1.0);
      RateRange(s, n);
      hide *;
      Signs(Shrink(z, n), 0.5);
      Negates(Shrink(z, n), 0.5);
    }
  }

  lemma {:induction false} LargerRate(s: int, t: int, n: int)
    requires s <= t && n >= 1
    ensures Rate(s, n) <= Rate(t, n)
  {
    hide Mul, Div;
    Quotient(s as real, n as real);
    Quotient(t as real, n as real);
    Cancels(n as real, Rate(t, n), Rate(s, n));
  }

  /** More successes never make the test fail. */
  lemma {:induction false} PassesIsMonotone(sqrt: real -> real, s: int, t: int, n: int, z: real, r: real)
    requires IsSqrt(sqrt) && 0 <= s <= t <= n && z > 0.0 && 0.0 < r <= 1.0
    requires Passes(sqrt, s, n, z, r)
    ensures Passes(sqrt, t, n, z, r)
  {
    if n >= 1 {
      if r == 1.0 { RateOneNeverPasses(sqrt, s, n, z); }
      PassesMeaning(sqrt, s, n, z, r);
      PassesMeaning(sqrt, t, n, z, r);
      FarEnoughForm(s, n, z, r);
      FarEnoughForm(t, n, z, r);
      LargerRate(s, t, n);
      hide Mul, Div, Variance, FarEnough, IsSqrt, Passes;
      SquareOrder(Rate(t, n) - r, Rate(s, n) - r);
      Ordered(n as real, Square(Rate(t, n) - r), Square(Rate(s, n) - r));
    }
  }

  /** `k` is where the test starts to pass: for every number of successes among 0..n the
      test passes exactly from `k` on, and `k` is n + 1 if it never does. */
  ghost predicate IsThreshold(sqrt: real -> real, k: int, n: nat, z: real, r: real) {
    && 0 <= k <= n + 1
    && forall s :: 0 <= s <= n ==> (Passes(sqrt, s, n, z, r) <==> s >= k)
  }

  lemma {:induction false} ThresholdIsUnique(sqrt: real -> real, j: int, k: int, n: nat, z: real, r: real)
    requires IsThreshold(sqrt, j, n, z, r) && IsThreshold(sqrt, k, n, z, r)
    ensures j == k
  {
    hide Passes;
    var low := if j < k then j else k;
    assert low <= n ==> (Passes(sqrt, low, n, z, r) <==> low >= j) && (Passes(sqrt, low, n, z, r) <==> low >= k);
  }

  /** `_minimum_wilson_successes_for_rate`: the search loop finds the threshold, so its
      answer decides the test for every number of successes. */
  method MinimumSuccesses(sqrt: real -> real, trials: nat, rate: real, z: real) returns (k: int)
    requires IsSqrt(sqrt) && z > 0.0 && 0.0 < rate <= 1.0
    ensures IsThreshold(sqrt, k, trials, z, rate)
    ensures rate == 1.0 ==> k == trials + 1
  {
    hide LowerBound, IsSqrt;
    for successes := 0 to trials + 1
      invariant forall s :: 0 <= s < successes ==> !Passes(sqrt, s, trials, z, rate)
    {
      if LowerBound(sqrt, successes, trials, z) >= rate {
        forall s | successes <= s <= trials
          ensures Passes(sqrt, s, trials, z, rate)
        {
          PassesIsMonotone(sqrt, successes, s, trials, z, rate);
        }
        if rate == 1.0 { RateOneNeverPasses(sqrt, successes, trials, z); }
        return successes;
      }
    }
    return trials + 1;
  }
}
