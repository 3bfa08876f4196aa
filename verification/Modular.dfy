/** Remainders with a variable modulus: the few facts the ring proofs need. */
module Modular {

  lemma ModUnique(x: int, q: int, r: int, n: int)
    requires 0 <= r < n
    requires x == q * n + r
    ensures x % n == r
  {
    var k := x / n - q;
    assert k * n == r - x % n by { Distribute(x / n, q, n); }
    AtLeastOneStep(k, n);
  }

  lemma Distribute(a: int, b: int, n: int)
    ensures (a - b) * n == a * n - b * n
  {
  }

  /** A non-zero multiple of `n` is at least `n` away from zero. */
  lemma AtLeastOneStep(k: int, n: int)
    requires n > 0
    ensures k >= 1 ==> k * n >= n
    ensures k <= -1 ==> k * n <= -n
    ensures k == 0 ==> k * n == 0
  {
  }

  lemma ModAddMultiple(x: int, k: int, n: int)
    requires n > 0
    ensures (x + k * n) % n == x % n
  {
    var q, r := x / n, x % n;
    assert x + k * n == (q + k) * n + r;
    ModUnique(x + k * n, q + k, r, n);
  }

  /** Reducing a number first does not change a sum modulo `n`; nor do multiples of `n`. */
  lemma ModShift(a: int, b: int, k: int, n: int)
    requires n > 0
    ensures (a % n + b) % n == (a + b + k * n) % n
  {
    Distribute(a / n, -k, n);
    ModAddMultiple(a % n + b, a / n + k, n);
  }

  /** Reducing both terms first does not change a difference modulo `n`. */
  lemma ModDifference(a: int, b: int, n: int)
    requires n > 0
    ensures (a % n - b % n) % n == (a - b) % n
  {
    var k := b / n - a / n;
    assert a % n - b % n == (a - b) + k * n;
    ModAddMultiple(a - b, k, n);
  }

  /** A number in [-n, n) is at most one step away from its remainder. */
  lemma ModNearZero(d: int, n: int)
    requires -n <= d < n
    ensures d % n == if d < 0 then d + n else d
  {
    ModUnique(d, if d < 0 then -1 else 0, if d < 0 then d + n else d, n);
  }

  /** Two numbers less than `n` apart have the same remainder only when they are equal. */
  lemma ModInjective(a: int, b: int, n: int)
    requires -n < a - b < n
    requires a % n == b % n
    ensures a == b
  {
    ModDifference(a, b, n);
    ModNearZero(a - b, n);
    assert (a % n - b % n) % n == 0 by { ModNearZero(0, n); }
  }
}
