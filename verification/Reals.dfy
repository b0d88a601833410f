/** Products and quotients of reals under names, so that proofs treat them as units. */
module Reals {
  function Times(a: real, b: real): real {
    a * b
  }

  function Over(a: real, b: real): real
    requires b != 0.0
  {
    a / b
  }

  lemma {:induction false} TimesAdds(c: real, a: real, b: real)
    ensures Times(c, a + b) == Times(c, a) + Times(c, b)
  {}

  lemma {:induction false} Square(x: real)
    ensures Times(x, x) >= 0.0
  {}

  /** A product with a positive number has the sign of the other. */
  lemma {:induction false} TimesSign(a: real, b: real)
    ensures a >= 0.0 && b >= 0.0 ==> Times(a, b) >= 0.0
    ensures a > 0.0 ==> (Times(a, b) > 0.0 <==> b > 0.0) && (Times(a, b) < 0.0 <==> b < 0.0)
  {}

  lemma {:induction false} TimesMinus(a: real, b: real, c: real)
    ensures Times(a - b, c) == Times(a, c) - Times(b, c)
  {}

  /** Multiplying by a positive number keeps an order, by a negative one turns it round. */
  lemma {:induction false} TimesOrdered(a: real, b: real, c: real)
    ensures c > 0.0 ==> (a <= b <==> Times(a, c) <= Times(b, c))
    ensures c < 0.0 ==> (a <= b <==> Times(a, c) >= Times(b, c))
  {
    TimesMinus(a, b, c);
    TimesMinus(b, a, c);
    if a > b {
      TimesSign(a - b, c);
    } else if a < b {
      TimesSign(b - a, c);
    }
  }

  lemma {:induction false} OverTimes(a: real, b: real)
    requires b != 0.0
    ensures Times(Over(a, b), b) == a
  {}

  /** Dividing by a positive number keeps a sign and an order. */
  lemma {:induction false} OverOrdered(a: real, b: real, c: real)
    requires c > 0.0
    ensures a >= 0.0 ==> Over(a, c) >= 0.0
    ensures a < b ==> Over(a, c) < Over(b, c)
  {
    OverTimes(a, c);
    OverTimes(b, c);
    TimesOrdered(Over(b, c), Over(a, c), c);
    TimesOrdered(0.0, Over(a, c), c);
    assert Times(0.0, c) == 0.0;
  }
}
