/** The source language's integer division. */
module Truncation {
  import opened Common

  function Abs(a: int): nat {
    if a < 0 then -a else a
  }

  /** Division that truncates towards zero. */
  function Quotient(a: int, b: int): int
    requires b != 0
  {
    if (a < 0) == (b < 0) then Abs(a) / Abs(b) else -(Abs(a) / Abs(b))
  }

  /** The quotient is the integer nearest to the exact one on the side of zero. */
  lemma Truncates(a: int, b: int)
    requires b > 0
    ensures Abs(a - Quotient(a, b) * b) <= b - 1
    ensures a >= 0 ==> 0 <= Quotient(a, b) * b <= a
    ensures a <= 0 ==> a <= Quotient(a, b) * b <= 0
  {
    var n := Abs(a);
    assert n == n / b * b + n % b;
    if a < 0 {
      assert -(n / b) * b == -(n / b * b);
    }
  }

  /** q is the quotient of a and b: what is left is smaller than b, and nothing or of the sign of a. */
  predicate Truncated(a: int, b: int, q: int) {
    Abs(a - q * b) < Abs(b) && (a >= 0 ==> a - q * b >= 0) && (a <= 0 ==> a - q * b <= 0)
  }

  /** It is for divisors of either sign, and no other number is. */
  lemma QuotientExactly(a: int, b: int, q: int)
    requires b != 0
    ensures Truncated(a, b, q) <==> q == Quotient(a, b)
  {
    QuotientTruncates(a, b);
    if Truncated(a, b, q) {
      OneTruncated(a, b, q, Quotient(a, b));
    }
  }

  lemma QuotientTruncates(a: int, b: int)
    requires b != 0
    ensures Truncated(a, b, Quotient(a, b))
  {
    var n: int, d: int := Abs(a), Abs(b);
    assert n == n / d * d + n % d;
    SignedTruncates(a, b, n / d, n % d);
  }

  lemma SignedTruncates(a: int, b: int, m: int, r: nat)
    requires b != 0 && Abs(a) == m * Abs(b) + r && r < Abs(b)
    ensures Truncated(a, b, if (a < 0) == (b < 0) then m else -m)
  {
    var d: int := Abs(b);
    assert (0 - m) * d == 0 - m * d && m * (0 - d) == 0 - m * d && (0 - m) * (0 - d) == m * d;
  }

  lemma OneTruncated(a: int, b: int, q: int, p: int)
    requires b != 0 && Truncated(a, b, q) && Truncated(a, b, p)
    ensures q == p
  {
    assert (a - p * b) - (a - q * b) == (q - p) * b;
    SmallMultiple(q - p, b, a - p * b, a - q * b);
  }

  /** Two numbers on the same side of zero, both smaller than b, do not differ by a multiple of b. */
  lemma SmallMultiple(k: int, b: int, r: int, s: int)
    requires b != 0 && r - s == k * b && Abs(r) < Abs(b) && Abs(s) < Abs(b)
    requires (r >= 0 && s >= 0) || (r <= 0 && s <= 0)
    ensures k == 0
  {
    assert Abs(k * b) < Abs(b);
    AbsTimes(k, b);
    if k != 0 {
      assert Abs(k) * Abs(b) == Abs(b) + (Abs(k) - 1) * Abs(b);
      ProductOfNats(Abs(k) - 1, Abs(b));
    }
  }

  lemma AbsTimes(k: int, b: int)
    ensures Abs(k * b) == Abs(k) * Abs(b)
  {
    ProductOfNats(Abs(k), Abs(b));
    var m: int, d: int := Abs(k), Abs(b);
    assert (0 - m) * d == 0 - m * d && m * (0 - d) == 0 - m * d && (0 - m) * (0 - d) == m * d;
  }

}
