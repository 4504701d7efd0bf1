/** Products and quotients of reals with the laws used by the statistics proofs. Working
    with named operations keeps the proofs independent of nonlinear heuristics. */
module RealAlgebra {

  function Mul(x: real, y: real): real { x * y }

  function Div(x: real, y: real): real
    requires y != 0.0
  {
    x / y
  }

  lemma Commutes(x: real, y: real)
    ensures Mul(x, y) == Mul(y, x)
  {
  }

  lemma Associates(x: real, y: real, z: real)
    ensures Mul(Mul(x, y), z) == Mul(x, Mul(y, z))
  {
  }

  lemma Distributes(x: real, y: real, z: real)
    ensures Mul(x, y + z) == Mul(x, y) + Mul(x, z)
    ensures Mul(x, y - z) == Mul(x, y) - Mul(x, z)
    ensures Mul(y + z, x) == Mul(y, x) + Mul(z, x)
    ensures Mul(y - z, x) == Mul(y, x) - Mul(z, x)
  {
  }

  lemma Units(x: real)
    ensures Mul(x, 0.0) == 0.0 == Mul(0.0, x) && Mul(x, 1.0) == x == Mul(1.0, x)
  {
  }

  lemma Negates(x: real, y: real)
    ensures Mul(-x, y) == -Mul(x, y) == Mul(x, -y) && Mul(-x, -y) == Mul(x, y)
  {
  }

  lemma Signs(x: real, y: real)
    ensures x >= 0.0 && y >= 0.0 ==> Mul(x, y) >= 0.0
    ensures x > 0.0 && y > 0.0 ==> Mul(x, y) > 0.0
    ensures x > 0.0 ==> (Mul(x, y) >= 0.0 <==> y >= 0.0) && (Mul(x, y) > 0.0 <==> y > 0.0)
    ensures Mul(x, x) >= 0.0
  {
  }

  lemma {:induction false} Ordered(k: real, x: real, y: real)
    requires k >= 0.0 && x >= y
    ensures Mul(k, x) >= Mul(k, y) && Mul(x, k) >= Mul(y, k)
  {
    hide Mul;
    Signs(k, x - y);
    Distributes(k, x, y);
    Commutes(k, x);
    Commutes(k, y);
  }

  lemma {:induction false} Cancels(k: real, x: real, y: real)
    requires k > 0.0
    ensures Mul(k, x) >= Mul(k, y) <==> x >= y
    ensures Mul(k, x) == Mul(k, y) <==> x == y
  {
    hide Mul;
    Signs(k, x - y);
    Signs(k, y - x);
    Distributes(k, x, y);
    Distributes(k, y, x);
  }

  lemma Quotient(x: real, y: real)
    requires y != 0.0
    ensures Mul(Div(x, y), y) == x && Mul(y, Div(x, y)) == x
  {
  }

  lemma {:induction false} QuotientSigns(x: real, y: real)
    requires y > 0.0 && x >= 0.0
    ensures Div(x, y) >= 0.0 && (x > 0.0 ==> Div(x, y) > 0.0)
  {
    hide Mul, Div;
    Quotient(x, y);
    Signs(y, Div(x, y));
  }
}
