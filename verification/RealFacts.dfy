/** The few facts about real multiplication, division and rounding the ledgers rest on.
    C++ doubles and Python floats are modelled as mathematical reals throughout. */
module RealFacts {

  function Max(a: real, b: real): (m: real)
    ensures m >= a && m >= b && (m == a || m == b)
  {
    if a >= b then a else b
  }

  function Min(a: real, b: real): (m: real)
    ensures m <= a && m <= b && (m == a || m == b)
  {
    if a <= b then a else b
  }

  lemma MulMonotone(a: real, b: real, k: real)
    requires a <= b && k >= 0.0
    ensures a * k <= b * k
  {
  }

  lemma MulPositive(a: real, b: real)
    requires a > 0.0 && b > 0.0
    ensures a * b > 0.0
  {
  }

  lemma DivCancel(a: real, b: real)
    requires b != 0.0
    ensures (a / b) * b == a
  {
  }

  /** A ratio is pinned by the product it stands for. */
  lemma DivUnique(q: real, a: real, b: real)
    requires b != 0.0 && q * b == a
    ensures a / b == q
  {
    DivCancel(a, b);
    assert (a / b - q) * b == 0.0;
  }

  lemma DivBounds(a: real, b: real, lo: real, hi: real)
    requires b > 0.0 && lo * b <= a <= hi * b
    ensures lo <= a / b <= hi
  {
    DivCancel(a, b);
  }
}
