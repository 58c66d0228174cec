module Products {
  /** Products and quotients of two variables, so that a proof can name them without expanding them. */
  function Mul(a: nat, b: nat): nat {
    a * b
  }

  function Div(x: nat, d: nat): nat
    requires d > 0
  {
    x / d
  }

  lemma MulMonotone(a: nat, b: nat, d: nat)
    requires a <= b
    ensures Mul(a, d) <= Mul(b, d)
  {
    assert b * d == a * d + (b - a) * d;
  }

  lemma MulCommutes(a: nat, b: nat)
    ensures Mul(a, b) == Mul(b, a)
  {
  }

  lemma MulBoth(a: nat, b: nat, c: nat, d: nat)
    requires a <= b && c <= d
    ensures Mul(a, c) <= Mul(b, d)
  {
    hide Mul;
    MulMonotone(a, b, c);
    MulCommutes(b, c);
    MulMonotone(c, d, b);
    MulCommutes(d, b);
  }

  lemma MulSucc(a: nat, d: nat)
    ensures Mul(a + 1, d) == Mul(a, d) + d && Mul(0, d) == 0 && Mul(1, d) == d
  {
  }

  lemma MulMove(k: nat, a: nat, b: nat)
    ensures Mul(a, k * b) == Mul(k * a, b)
  {
    assert a * (k * b) == k * a * b;
  }

  lemma DivBounds(x: nat, d: nat)
    requires d > 0
    ensures Mul(Div(x, d), d) <= x < Mul(Div(x, d) + 1, d)
  {
    assert x == d * (x / d) + x % d;
    MulSucc(x / d, d);
  }

  lemma DivAtLeast(x: nat, d: nat, q: nat)
    requires d > 0 && Mul(q, d) <= x
    ensures Div(x, d) >= q
  {
    hide Mul, Div;
    DivBounds(x, d);
    if Div(x, d) < q {
      MulMonotone(Div(x, d) + 1, q, d);
    }
  }

  lemma DivAtMost(x: nat, d: nat, q: nat)
    requires d > 0 && x < Mul(q + 1, d)
    ensures Div(x, d) <= q
  {
    hide Mul, Div;
    DivBounds(x, d);
    if Div(x, d) > q {
      MulMonotone(q + 1, Div(x, d), d);
    }
  }

  lemma DivMonotone(x: nat, y: nat, d: nat)
    requires d > 0 && x <= y
    ensures Div(x, d) <= Div(y, d)
  {
    hide Mul, Div;
    DivBounds(x, d);
    DivAtLeast(y, d, Div(x, d));
  }

  lemma DivSmaller(x: nat, d: nat)
    requires d > 0
    ensures Div(x, d) <= x
  {
    hide Mul, Div;
    DivBounds(x, d);
    MulCommutes(Div(x, d), d);
    MulMonotone(1, d, Div(x, d));
    MulSucc(0, Div(x, d));
  }

  lemma DivExact(q: nat, d: nat)
    requires d > 0
    ensures Div(Mul(q, d), d) == q
  {
    hide Mul, Div;
    DivAtLeast(Mul(q, d), d, q);
    MulSucc(q, d);
    DivAtMost(Mul(q, d), d, q);
  }
}
