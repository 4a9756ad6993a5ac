/** Slot arithmetic of rings addressed by wrapping counters. */
module Arithmetic {

  /** `is_power_of_two`. */
  predicate PowerOfTwo(n: nat) {
    n == 1 || (n > 1 && n % 2 == 0 && PowerOfTwo(n / 2))
  }

  /** `n` divides `m`, with the quotient at hand. */
  ghost predicate Divides(n: int, m: int) {
    exists q: int :: m == q * n
  }

  lemma {:induction false} PowerOfTwoDivides(n: nat, m: nat)
    requires PowerOfTwo(n) && PowerOfTwo(m) && n <= m
    ensures Divides(n, m)
  {
    if n == 1 {
      assert m == m * n;
    } else {
      PowerOfTwoDivides(n / 2, m / 2);
      var q: int :| m / 2 == q * (n / 2);
      assert m == q * n;
    }
  }

  /** The powers of two below 2^16. */
  lemma {:induction false} SmallPowers(n: nat)
    requires n < 0x1_0000
    ensures PowerOfTwo(n) <==>
      n in {1, 2, 4, 8, 0x10, 0x20, 0x40, 0x80, 0x100, 0x200, 0x400, 0x800, 0x1000, 0x2000, 0x4000, 0x8000}
  {
    if n > 1 && n % 2 == 0 {
      SmallPowers(n / 2);
    }
  }

  lemma PowerOfTwoDouble(n: nat)
    requires PowerOfTwo(n)
    ensures PowerOfTwo(2 * n)
  {
    assert (2 * n) / 2 == n;
  }

  lemma {:induction false} PowerOfTwoTimes(n: nat, m: nat)
    requires PowerOfTwo(n) && PowerOfTwo(m)
    ensures PowerOfTwo(n * m)
  {
    if n == 1 {
      assert n * m == m;
    } else {
      var half := n / 2;
      assert n == half + half;
      PowerOfTwoTimes(half, m);
      PowerOfTwoDouble(half * m);
      Distribute(half, half, m);
    }
  }

  /** The moduli of 16-bit and 64-bit counters are powers of two. */
  lemma CounterModuli()
    ensures PowerOfTwo(0x1_0000) && PowerOfTwo(0x1_0000_0000_0000_0000)
  {
    PowerOfTwoDouble(1);
    PowerOfTwoTimes(2, 2);
    PowerOfTwoTimes(4, 4);
    PowerOfTwoTimes(0x10, 0x10);
    PowerOfTwoTimes(0x100, 0x100);
    PowerOfTwoTimes(0x1_0000, 0x1_0000);
    PowerOfTwoTimes(0x1_0000_0000, 0x1_0000_0000);
  }

  lemma Distribute(a: int, b: int, n: int)
    ensures (a + b) * n == a * n + b * n
    ensures (a - b) * n == a * n - b * n
  {
  }

  /** A multiple of `n` strictly between `-n` and `n` is zero. */
  lemma SmallMultiple(d: int, n: int)
    requires 0 < n && -n < d * n < n
    ensures d == 0
  {
    assert d >= 1 ==> d * n >= n by { if d >= 1 { Distribute(d - 1, 1, n); } }
    assert d <= -1 ==> d * n <= -n by { if d <= -1 { Distribute(d + 1, 1, n); } }
  }

  /** The quotient and remainder of a division are the only ones in range. */
  lemma DivModUnique(x: int, n: int, q: int, r: int)
    requires 0 <= r < n && x == q * n + r
    ensures x / n == q && x % n == r
  {
    Distribute(x / n, q, n);
    SmallMultiple(x / n - q, n);
  }

  /** Reducing modulo a multiple of `n` first changes nothing modulo `n`. */
  lemma ModOfMod(x: int, n: int, m: int)
    requires 0 < n && 0 < m && Divides(n, m)
    ensures (x % m) % n == x % n
  {
    var q: int :| m == q * n;
    var r := x % m;
    var k := (x / m) * q + r / n;
    assert x == k * n + r % n by {
      assert (x / m) * m == ((x / m) * q) * n;
      Distribute((x / m) * q, r / n, n);
    }
    DivModUnique(x, n, k, r % n);
  }

  /** Two counters less than a ring apart address the same slot only if equal. */
  lemma SlotsDistinct(i: int, j: int, n: int)
    requires 0 < n && i <= j < i + n
    ensures i % n == j % n <==> i == j
  {
    Distribute(j / n, i / n, n);
    assert j - i == (j / n - i / n) * n + (j % n - i % n);
    assert i % n == j % n ==> i == j by {
      if i % n == j % n {
        SmallMultiple(j / n - i / n, n);
      }
    }
  }

  /** A wrapping difference is the true one while that stays below the modulus. */
  lemma WrappingDifference(a: int, b: int, m: int)
    requires 0 < m && b <= a < b + m
    ensures (a % m - b % m) % m == a - b
    ensures a % m == b % m <==> a == b
  {
    Distribute(b / m, a / m, m);
    DivModUnique(a % m - b % m, m, b / m - a / m, a - b);
    SlotsDistinct(b, a, m);
  }

  /** Adding to a wrapped counter wraps to the same value as adding to the true one. */
  lemma WrappingSum(k: int, d: int, m: int)
    requires 0 < m
    ensures (k % m + d) % m == (k + d) % m
  {
    var r := k % m + d;
    var q, e := r / m, r % m;
    assert k == (k / m) * m + k % m;
    assert r == q * m + e;
    Distribute(k / m, q, m);
    assert k + d == (k / m + q) * m + e;
    DivModUnique(k + d, m, k / m + q, e);
  }

  lemma WrappingIncrement(k: int, m: int)
    requires 0 < m
    ensures (k % m + 1) % m == (k + 1) % m
  {
    WrappingSum(k, 1, m);
  }
}
