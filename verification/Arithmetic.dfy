/** The few facts about division that the solver does not find by itself. */
module Arithmetic {

  lemma MulMonotone(c: nat, a: int, b: int)
    requires a <= b
    ensures c * a <= c * b
  {
    assert c * (b - a) >= 0;
  }

  lemma MulCancel(c: nat, a: int, b: int)
    requires c > 0 && c * a < c * b
    ensures a < b
  {
    if b <= a {
      MulMonotone(c, b, a);
    }
  }

  lemma DivModUnique(a: int, c: nat, q: int, r: int)
    requires c > 0 && a == c * q + r && 0 <= r < c
    ensures a / c == q && a % c == r
  {
    assert a == c * (a / c) + a % c;
    assert c * (a / c - q) == c * (a / c) - c * q;
    if a / c > q {
      MulMonotone(c, 1, a / c - q);
    } else if a / c < q {
      MulMonotone(c, a / c - q, -1);
    }
  }

  /** A quotient is at least `k` exactly when `k` divisors fit. */
  lemma DivAtLeast(a: int, c: nat, k: int)
    requires c > 0
    ensures a / c >= k <==> a >= c * k
  {
    assert a == c * (a / c) + a % c;
    if a / c >= k {
      MulMonotone(c, k, a / c);
    } else {
      MulMonotone(c, a / c + 1, k);
      assert c * (a / c + 1) == c * (a / c) + c;
    }
  }

  lemma DivAddMultiple(a: int, c: nat, k: int)
    requires c > 0
    ensures (a + c * k) / c == a / c + k && (a + c * k) % c == a % c
  {
    assert a == c * (a / c) + a % c;
    assert c * (a / c + k) == c * (a / c) + c * k;
    DivModUnique(a + c * k, c, a / c + k, a % c);
  }

  /** Numbers in the same position of a ring are whole turns apart. */
  lemma CongruentAreFarApart(a: nat, b: nat, c: nat)
    requires c > 0 && a % c == b % c && a < b
    ensures b - a >= c
  {
    assert a == c * (a / c) + a % c;
    assert b == c * (b / c) + b % c;
    assert b - a == c * (b / c - a / c);
    MulCancel(c, 0, b / c - a / c);
    MulMonotone(c, 1, b / c - a / c);
  }

  lemma NestedDivision(a: nat, b: nat, c: nat)
    requires b > 0 && c > 0
    ensures b * c > 0 && a / b / c == a / (b * c)
  {
    var q := a / b / c;
    assert a == b * (a / b) + a % b;
    assert a / b == c * q + (a / b) % c;
    assert b * (c * q) == (b * c) * q;
    assert b * (a / b) == b * (c * q) + b * ((a / b) % c);
    MulMonotone(b, (a / b) % c, c - 1);
    assert b * (c - 1) == b * c - b;
    MulMonotone(b, 0, (a / b) % c);
    MulMonotone(b, 1, c);
    DivModUnique(a, b * c, q, b * ((a / b) % c) + a % b);
  }
}
