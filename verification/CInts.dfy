/** Integer division as C defines it, and the few facts about quotients that the sample arithmetic needs. */
module CInts {

  /** C's `/` for a positive divisor: the quotient is truncated toward zero. */
  function CDiv(a: int, b: int): int
    requires 0 < b
  {
    if 0 <= a then a / b else -((-a) / b)
  }

  /** C's `%` for a positive divisor: the remainder has the sign of the dividend. */
  function CRem(a: int, b: int): int
    requires 0 < b
  {
    if 0 <= a then a % b else -((-a) % b)
  }

  function Min(a: int, b: int): int {
    if a < b then a else b
  }

  function Max(a: int, b: int): int {
    if a < b then b else a
  }

  /** Quotient and remainder are the only pair with the remainder in range. */
  lemma DivModUnique(q: int, r: int, b: int)
    requires 0 <= r < b
    ensures (q * b + r) / b == q
    ensures (q * b + r) % b == r
  {
    var x := q * b + r;
    assert x == (x / b) * b + x % b;
    if q < x / b {
      MulLe(q + 1, x / b, b);
    } else if x / b < q {
      MulLe(x / b + 1, q, b);
    }
  }

  /** Quotient and remainder of a natural number. */
  lemma DivMod(a: nat, b: nat) returns (q: nat, r: nat)
    requires 0 < b
    ensures q == a / b && r == a % b < b && a == q * b + r
  {
    q, r := a / b, a % b;
  }

  lemma MulLe(x: int, y: int, b: int)
    requires x <= y && 0 <= b
    ensures x * b <= y * b
  {
  }

  /** Adding a multiple of the divisor adds to the quotient and leaves the remainder. */
  lemma DivModShift(a: int, k: int, b: int)
    requires 0 < b
    ensures (a + k * b) / b == a / b + k
    ensures (a + k * b) % b == a % b
  {
    DivModUnique(a / b + k, a % b, b);
    assert a + k * b == (a / b + k) * b + a % b;
  }

  /** A term may be reduced before another is added. */
  lemma ModOfSum(a: int, k: int, b: int)
    requires 0 < b
    ensures (a % b + k) % b == (a + k) % b
  {
    DivModShift(a % b + k, a / b, b);
    assert a + k == (a % b + k) + (a / b) * b;
  }

  lemma OneMore(n: int, d: int)
    ensures (n + 1) * d == n * d + d
  {
  }

  /** Equal remainders mean a difference that is a multiple of the divisor. */
  lemma CongruentDifference(a: int, c: int, b: int)
    requires 0 < b && a % b == c % b
    ensures c - a == (c / b - a / b) * b
  {
  }

  /** Two congruent numbers less than one divisor apart are equal. */
  lemma CongruentAndClose(a: int, c: int, b: int)
    requires 0 < b && a % b == c % b && -b < c - a < b
    ensures a == c
  {
    CongruentDifference(a, c, b);
    var q := c / b - a / b;
    if 1 <= q {
      MulLe(1, q, b);
    } else if q <= -1 {
      MulLe(q, -1, b);
    }
  }

  /** One more than a number either stays in the same block or starts the next one. */
  lemma DivModSucc(a: int, b: int)
    requires 0 < b
    ensures a % b < b - 1 ==> (a + 1) / b == a / b && (a + 1) % b == a % b + 1
    ensures a % b == b - 1 ==> (a + 1) / b == a / b + 1 && (a + 1) % b == 0
  {
    var q, r := a / b, a % b;
    assert a == q * b + r;
    if r < b - 1 {
      assert a + 1 == q * b + (r + 1);
      DivModUnique(q, r + 1, b);
    } else {
      assert a + 1 == (q + 1) * b + 0 by {
        assert (q + 1) * b == q * b + b;
      }
      DivModUnique(q + 1, 0, b);
    }
  }

  /** The next number within a block of `b`, from the number within the block. */
  lemma NextInBlock(a: int, b: int)
    requires 0 < b
    ensures (a % b + 1) % b == (a + 1) % b
    ensures a % b < b - 1 ==> (a + 1) % b == a % b + 1
    ensures a % b == b - 1 ==> (a + 1) % b == 0
  {
    DivModSucc(a, b);
    ModOfSum(a, 1, b);
  }

  /** The first number from `from` on in the residue class of `a`. */
  lemma FirstCongruent(from: int, a: int, b: int, other: int)
    requires 0 < b
    ensures var r := from + (a - from) % b;
      && from <= r < from + b && r % b == a % b
      && (from <= other && other % b == a % b ==> r <= other)
      && (r == a <==> from <= a < from + b)
  {
    var r, q := from + (a - from) % b, (a - from) / b;
    assert r == a + (-q) * b;
    DivModShift(a, -q, b);
    if from <= other < r && other % b == r % b {
      CongruentAndClose(other, r, b);
    }
    if from <= a < from + b {
      CongruentAndClose(a, r, b);
    }
  }

  /** Adding multiples of `b` to a number off the multiples of `b` never reaches a multiple of `b` or of `2 * b`. */
  lemma StaysOff(x: int, y: int, b: int)
    requires 0 < b && x % b != 0
    ensures (x + y * b) % b != 0 && (x + y * b) % (2 * b) != 0
  {
    DivModShift(x, y, b);
    EvenMultiple(x + y * b, b);
  }

  lemma EvenMultiple(a: int, b: int)
    requires 0 < b && a % b != 0
    ensures a % (2 * b) != 0
  {
    var q := a / (2 * b);
    if a % (2 * b) == 0 {
      assert a == q * (2 * b) == (2 * q) * b + 0;
      DivModUnique(2 * q, 0, b);
    }
  }
}
