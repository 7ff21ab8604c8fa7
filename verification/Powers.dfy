/** Powers of two and the few division facts that the other modules share. */
module Powers {

  function Pow2(n: nat): (p: nat)
    ensures p >= 1
  {
    if n == 0 then 1 else 2 * Pow2(n - 1)
  }

  lemma {:induction false} Pow2Add(a: nat, b: nat)
    ensures Pow2(a + b) == Pow2(a) * Pow2(b)
  {
    if a > 0 {
      Pow2Add(a - 1, b);
      Twice(Pow2(a - 1), Pow2(b));
    }
  }

  lemma Twice(p: int, q: int)
    ensures 2 * (p * q) == 2 * p * q
  {
  }

  lemma {:induction false} Pow2Monotone(a: nat, b: nat)
    requires a <= b
    ensures Pow2(a) <= Pow2(b)
  {
    if a < b {
      Pow2Monotone(a, b - 1);
    }
  }

  /** Quotient and remainder are determined by the division equation. */
  lemma DivModUnique(a: int, m: int, q: int, r: int)
    requires m > 0 && a == q * m + r && 0 <= r < m
    ensures a / m == q && a % m == r
  {
    var e := a / m - q;
    assert a == m * (a / m) + a % m;
    assert e * m == r - a % m by {
      assert e * m == (a / m) * m - q * m;
    }
    assert e >= 1 ==> e * m >= m;
    assert e <= -1 ==> e * m <= -m;
  }

  /** Two numbers less than one modulus apart that agree modulo it are equal. */
  lemma CloseAndCongruent(a: int, b: int, m: int)
    requires m > 0 && a % m == b % m && -m < a - b < m
    ensures a == b
  {
    var q := a / m - b / m;
    assert a - b == q * m by {
      assert a == m * (a / m) + a % m;
      assert b == m * (b / m) + b % m;
      assert q * m == m * (a / m) - m * (b / m);
    }
    assert q >= 1 ==> q * m >= m;
    assert q <= -1 ==> q * m <= -m;
  }

  lemma ModShift(a: int, k: int, m: int)
    requires m > 0
    ensures (a + k * m) % m == a % m
  {
    assert a == m * (a / m) + a % m;
    assert a + k * m == (a / m + k) * m + a % m by {
      assert (a / m + k) * m == (a / m) * m + k * m;
    }
    DivModUnique(a + k * m, m, a / m + k, a % m);
  }

  /** Dividing by 2p in two stages. */
  lemma Halve(n: nat, p: nat)
    requires p > 0
    ensures n / (2 * p) == n / 2 / p && n % (2 * p) == n % 2 + 2 * (n / 2 % p)
  {
    var q, r := n / 2 / p, n / 2 % p;
    assert q * (2 * p) == 2 * (q * p);
    DivModUnique(n, 2 * p, q, n % 2 + 2 * r);
  }

  // ----- products ----------------------------------------------------------

  function Abs(a: int): nat {
    if a < 0 then -a else a
  }

  /** A product of naturals is one, without arithmetic where it is used. */
  function Times(a: nat, b: nat): nat {
    a * b
  }

  lemma Distribute(a: int, b: int, p: int)
    ensures (a + b) * p == a * p + b * p && p * (a + b) == p * a + p * b
  {
  }

  lemma MulMonotone(a: int, b: int, c: int)
    requires a <= b && c >= 0
    ensures a * c <= b * c && c * a <= c * b
  {
    assert (b - a) * c >= 0;
  }

  lemma MulBounds(p: int, q: int)
    requires p >= 1
    ensures q <= -1 ==> p * q <= -p
    ensures q >= 0 ==> p * q >= q
    ensures q < 0 ==> p * q + p <= q + 1
  {
    if q >= 0 {
      MulMonotone(1, p, q);
    } else {
      MulMonotone(1, p, -(q + 1));
      Distribute(q, 1, p);
    }
  }

  /** A product of bounded factors. */
  lemma AbsProduct(d: int, c: int, p: nat, m: nat)
    requires Abs(d) <= p && Abs(c) <= m
    ensures Abs(d * c) <= p * m
  {
    MulMonotone(Abs(d), p, Abs(c));
    MulMonotone(Abs(c), m, p);
    assert d * c == Abs(d) * Abs(c) || d * c == -(Abs(d) * Abs(c));
  }
}
