/** Facts about remainders used wherever an index or a pointer wraps around. */
module Wrapping {

  lemma Multiple(n: int, k: int)
    requires n > 0
    ensures k >= 1 ==> n * k >= n
    ensures k <= -1 ==> n * k <= -n
    ensures k == 0 ==> n * k == 0
  {
  }

  /** A quotient and remainder pair is unique. */
  lemma Remainder(x: int, n: int, q: int, r: int)
    requires 0 <= r < n && x == n * q + r
    ensures x % n == r && x / n == q
  {
    assert n * (q - x / n) == x % n - r;
    Multiple(n, q - x / n);
  }

  lemma Shift(x: int, n: int, q: int)
    requires n > 0
    ensures (x + n * q) % n == x % n
  {
    assert x + n * q == n * (x / n + q) + x % n;
    Remainder(x + n * q, n, x / n + q, x % n);
  }

  /** Reducing a summand first changes nothing. */
  lemma AddReduced(a: int, b: int, n: int)
    requires n > 0
    ensures (a % n + b) % n == (a + b) % n
  {
    Shift(a % n + b, n, a / n);
    assert a + b == a % n + b + n * (a / n);
  }

  /** The remainder by repeated subtraction; unlike `%` it keeps products out of proofs. */
  function Mod(x: nat, n: nat): (r: nat)
    requires n > 0
    ensures r < n && r <= x && (x >= n ==> r + n <= x)
    decreases x
  {
    if x < n then x else Mod(x - n, n)
  }

  lemma {:induction false} ModIsRemainder(x: nat, n: nat)
    requires n > 0
    ensures Mod(x, n) == x % n
    decreases x
  {
    if x < n {
      Remainder(x, n, 0, x);
    } else {
      ModIsRemainder(x - n, n);
      Shift(x - n, n, 1);
    }
  }

  lemma {:induction false} ModAdd(a: nat, b: nat, n: nat)
    requires n > 0
    ensures Mod(Mod(a, n) + b, n) == Mod(a + b, n)
    decreases a
  {
    if a >= n {
      ModAdd(a - n, b, n);
      assert a + b - n == a - n + b;
    }
  }

  lemma {:induction false} ModDistinct(a: nat, b: nat, n: nat)
    requires a < b < a + n
    ensures Mod(a, n) != Mod(b, n)
    decreases a
  {
    if a >= n {
      ModDistinct(a - n, b - n, n);
    } else if b >= n {
      assert Mod(b, n) == b - n;
    }
  }
}
