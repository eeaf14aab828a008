/** Facts about Euclidean division and multiplication of natural numbers. */
module Arithmetic {

  /** The quotient and remainder are the only ones with 0 <= r < m. */
  lemma DivModUnique(x: nat, m: nat, k: nat, r: nat)
    requires 0 <= r < m && x == m * k + r
    ensures x / m == k && x % m == r
  {
    var k', r' := x / m, x % m;
    assert x == m * k' + r';
    assert k' < k ==> m * (k' + 1) <= m * k;
    assert k < k' ==> m * (k + 1) <= m * k';
  }

  lemma {:induction false} MulMonotone(a: nat, x: nat, y: nat)
    requires x <= y
    ensures a * x <= a * y
    decreases y - x
  {
    if x < y {
      MulMonotone(a, x, y - 1);
      assert a * y == a * (y - 1) + a;
    }
  }

  lemma DivDivDigits(x: nat, a: nat, b: nat, q1: nat, r1: nat, q2: nat, r2: nat)
    requires r1 < a && r2 < b && x == a * q1 + r1 && q1 == b * q2 + r2
    ensures x / (a * b) == q2
  {
    assert x == (a * b) * q2 + (a * r2 + r1) by {
      assert a * q1 == a * (b * q2) + a * r2;
    }
    assert a * r2 + r1 < a * b by {
      MulMonotone(a, r2 + 1, b);
      assert a * (r2 + 1) == a * r2 + a;
    }
    DivModUnique(x, a * b, q2, a * r2 + r1);
  }

  /** Dividing by a, then by b, is dividing by a * b. */
  lemma DivDiv(x: nat, a: nat, b: nat)
    requires a >= 1 && b >= 1
    ensures x / a / b == x / (a * b)
  {
    DivDivDigits(x, a, b, x / a, x % a, x / a / b, x / a % b);
  }

  /** x / m holds at least P whole units exactly when x holds m * P. */
  lemma DivAtLeast(x: nat, m: nat, P: nat)
    requires m >= 1
    ensures P <= x / m <==> m * P <= x
  {
    assert x == m * (x / m) + x % m;
    if P <= x / m {
      assert m * P <= m * (x / m);
    } else {
      assert m * (x / m + 1) <= m * P;
    }
  }

  lemma MulStrict(a: nat, x: nat, y: nat)
    requires a >= 1 && x < y
    ensures x * a < y * a
  {
    MulMonotone(a, x + 1, y);
    assert a * (x + 1) == a * x + a;
  }

  lemma DivLe(x: nat, d: nat)
    requires d >= 1
    ensures x / d <= x
  {
    assert x == d * (x / d) + x % d;
    MulMonotone(x / d, 1, d);
  }

  /** Taking one whole m away from n lowers the quotient by one and keeps the remainder. */
  lemma SubDivMod(n: nat, m: nat)
    requires 1 <= m <= n
    ensures (n - m) / m + 1 == n / m && (n - m) % m == n % m
  {
    assert n - m == m * ((n - m) / m) + (n - m) % m;
    DivModUnique(n, m, (n - m) / m + 1, (n - m) % m);
  }
}
