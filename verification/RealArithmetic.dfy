/** Quotients of reals against a bound, without division. */
module RealArithmetic {

  lemma {:induction false} QuotientAbove(a: real, b: real, bound: real)
    requires b > 0.0
    ensures a / b > bound <==> a > bound * b
  {
    var q := a / b;
    assert a == q * b;
    if q > bound {
      assert (q - bound) * b > 0.0;
    } else {
      assert (bound - q) * b >= 0.0;
    }
  }

  lemma {:induction false} QuotientAtLeast(a: real, b: real, bound: real)
    requires b > 0.0
    ensures a / b >= bound <==> a >= bound * b
  {
    var q := a / b;
    assert a == q * b;
    if q >= bound {
      assert (q - bound) * b >= 0.0;
    } else {
      assert (bound - q) * b > 0.0;
    }
  }
}
