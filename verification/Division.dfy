/**
 Integer division with a variable divisor.
 */
module Division {
  // Multiples other than zero are at least one divisor away from it.
  lemma {:induction false} NotNearZero(q: int, n: int)
    requires n > 0 && q != 0
    ensures q > 0 ==> q * n >= n
    ensures q < 0 ==> q * n <= -n
    decreases if q > 0 then q else -q
  {
    if q > 1 {
      NotNearZero(q - 1, n);
      assert q * n == (q - 1) * n + n;
    } else if q < -1 {
      NotNearZero(q + 1, n);
      assert q * n == (q + 1) * n - n;
    } else if q == 1 {
      assert q * n == n;
    } else {
      assert q * n == -n;
    }
  }

  // More multiples are not less.
  lemma {:induction false} MoreMultiples(a: nat, b: nat, n: nat)
    requires a <= b
    ensures a * n <= b * n
    decreases b
  {
    if a < b {
      MoreMultiples(a, b - 1, n);
      assert b * n == (b - 1) * n + n;
    }
  }

  lemma Remainder(x: int, n: int)
    requires n > 0
    ensures x == (x / n) * n + x % n && 0 <= x % n < n
  {
  }

  // Quotient and remainder are unique.
  lemma Quotient(q: int, n: int, r: int)
    requires 0 <= r < n
    ensures (q * n + r) / n == q && (q * n + r) % n == r
  {
    var x := q * n + r;
    Remainder(x, n);
    var d := x / n - q;
    assert d * n == (x / n) * n - q * n;
    if d != 0 {
      NotNearZero(d, n);
    }
  }

  // A divisor more or less leaves the remainder.
  lemma SameRemainder(a: int, n: int, k: int)
    requires n > 0
    ensures (a + k * n) % n == a % n
  {
    Remainder(a, n);
    assert a + k * n == (a / n + k) * n + a % n;
    Quotient(a / n + k, n, a % n);
  }
}
