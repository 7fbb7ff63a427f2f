/** The few facts about products and quotients of variables that the proofs need. */
module Arithmetic {

  lemma MulIsMonotone(a: nat, b: nat, c: nat)
    requires a <= b
    ensures a * c <= b * c
  {
    assert b * c == a * c + (b - a) * c;
  }

  lemma MulSucc(a: nat, b: nat)
    ensures a * (b + 1) == a * b + a
  {
  }

  lemma QuotientIs(x: nat, c: nat, q: nat)
    requires c > 0 && q * c <= x < (q + 1) * c
    ensures x / c == q
  {
    var d := x / c;
    assert x == d * c + x % c && 0 <= x % c < c;
    if d < q {
      assert (d + 1) * c == d * c + c;
      MulIsMonotone(d + 1, q, c);
    } else if d > q {
      MulIsMonotone(q + 1, d, c);
    }
  }

  lemma QuotientBounds(x: nat, c: nat)
    requires c > 0
    ensures x / c * c <= x < (x / c + 1) * c
  {
    assert x == x / c * c + x % c;
    assert (x / c + 1) * c == x / c * c + c;
  }

  lemma QuotientOfSum(x: nat, c: nat)
    requires c > 0
    ensures (x + c) / c == x / c + 1
  {
    QuotientBounds(x, c);
    var q := x / c;
    assert (q + 1) * c == q * c + c && (q + 2) * c == (q + 1) * c + c;
    QuotientIs(x + c, c, q + 1);
  }

  lemma QuotientIsMonotone(x: nat, y: nat, c: nat)
    requires c > 0 && x <= y
    ensures x / c <= y / c
  {
    QuotientBounds(x, c);
    QuotientBounds(y, c);
    if x / c > y / c {
      MulIsMonotone(y / c + 1, x / c, c);
    }
  }
}
