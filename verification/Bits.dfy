/** Machine integers as bounded naturals, with the bitwise operators the codecs use.

    `&`, `|` and `^` are defined bit by bit; the lemmas say what they come to for the
    operands that occur (masks of ones, disjoint bit ranges, all-ones words).
 */
module Bits {

  type u8 = x: int | 0 <= x < 256

  function Min(a: nat, b: nat): nat { if a < b then a else b }

  function Max(a: nat, b: nat): nat { if a < b then b else a }

  function Pow2(k: nat): (p: nat)
    ensures p >= 1
  {
    if k == 0 then 1 else 2 * Pow2(k - 1)
  }

  /** x converted to an unsigned integer of w bits: the remainder modulo 2^w, also for negative x. */
  function Wrap(w: nat, x: int): (u: nat)
    ensures u < Pow2(w)
  {
    x % Pow2(w)
  }

  /** The two's-complement reading of a w-bit pattern. */
  function ToSigned(w: nat, u: nat): int
    requires w > 0
  {
    if u < Pow2(w - 1) then u else u - Pow2(w)
  }

  /** The values of a w-bit integer type. */
  predicate Fits(w: nat, signed: bool, v: int)
    requires w > 0
  {
    if signed then -(Pow2(w - 1) as int) <= v < Pow2(w - 1) else 0 <= v < Pow2(w)
  }

  function And(a: nat, b: nat): nat {
    if a == 0 || b == 0 then 0 else (a % 2) * (b % 2) + 2 * And(a / 2, b / 2)
  }

  function Or(a: nat, b: nat): nat {
    if a == 0 then b else if b == 0 then a
    else (if a % 2 == 1 || b % 2 == 1 then 1 else 0) + 2 * Or(a / 2, b / 2)
  }

  function Xor(a: nat, b: nat): nat
    decreases a + b
  {
    if a == 0 then b else if b == 0 then a
    else (if a % 2 != b % 2 then 1 else 0) + 2 * Xor(a / 2, b / 2)
  }

  lemma {:induction false} Pow2Add(j: nat, k: nat)
    ensures Pow2(j + k) == Pow2(j) * Pow2(k)
  {
    if j != 0 {
      Pow2Add(j - 1, k);
      assert j - 1 + k == j + k - 1;
      assert 2 * (Pow2(j - 1) * Pow2(k)) == (2 * Pow2(j - 1)) * Pow2(k);
    }
  }

  lemma {:induction false} Pow2Monotonic(j: nat, k: nat)
    requires j <= k
    ensures Pow2(j) <= Pow2(k)
  {
    if j < k {
      Pow2Monotonic(j, k - 1);
    }
  }

  lemma MulAtLeast(d: int, b: int)
    requires d >= 1 && b >= 0
    ensures d * b >= b
  {
    assert d * b == (d - 1) * b + b;
  }

  /** A multiple of b that is smaller than b in absolute value is zero. */
  lemma SmallMultipleIsZero(d: int, b: int, e: int)
    requires d * b == e && -b < e < b
    ensures d == 0
  {
    if d > 0 {
      MulAtLeast(d, b);
    } else if d < 0 {
      MulAtLeast(-d, b);
    }
  }

  /** A number is its quotient and remainder; the only ones with the remainder in range. */
  lemma DivModUnique(x: int, q: int, r: int, b: int)
    requires 0 <= r < b && x == q * b + r
    ensures x / b == q && x % b == r
  {
    var q', r' := x / b, x % b;
    assert x == q' * b + r';
    assert (q' - q) * b == r - r' by {
      assert (q' - q) * b == q' * b - q * b;
    }
    SmallMultipleIsZero(q' - q, b, r - r');
  }

  lemma Euclid(x: int, b: int)
    requires b > 0
    ensures x == (x / b) * b + x % b && 0 <= x % b < b
  {
  }

  /** Dividing twice is dividing by the product. */
  lemma DivTwice(x: int, a: nat, b: nat)
    requires a > 0 && b > 0
    ensures a * b > 0 && (x / a) / b == x / (a * b)
  {
    var q, r := x / a, x % a;
    var q', r' := q / b, q % b;
    Euclid(x, a);
    Euclid(q, b);
    MulAtLeast(b - r', a);
    assert (b - r') * a == a * b - r' * a;
    assert (q' * b + r') * a == q' * (a * b) + r' * a;
    MulAtLeast(a, b);
    DivModUnique(x, q', r' * a + r, a * b);
  }

  /** Halving a number and its modulus. */
  lemma ModDouble(a: nat, m: nat)
    requires m > 0
    ensures a % (2 * m) == 2 * (a / 2 % m) + a % 2
  {
    var q, r := a / 2 / m, a / 2 % m;
    assert a / 2 == q * m + r;
    assert q * (2 * m) == 2 * (q * m);
    DivModUnique(a, q, 2 * r + a % 2, 2 * m);
  }

  lemma AndStep(a: nat, m: nat)
    requires m > 0
    ensures And(a, 2 * m - 1) == a % 2 + 2 * And(a / 2, m - 1)
  {
    var b := 2 * m - 1;
    assert b / 2 == m - 1 && b % 2 == 1;
  }

  /** Masking with k ones keeps the low k bits. */
  lemma {:induction false} AndMask(a: nat, k: nat)
    ensures And(a, Pow2(k) - 1) == a % Pow2(k)
    decreases k
  {
    if k > 0 {
      var m := Pow2(k - 1);
      AndMask(a / 2, k - 1);
      AndStep(a, m);
      ModDouble(a, m);
      assert Pow2(k) == 2 * m;
    }
  }

  /** Or-ing bit ranges that do not overlap adds them. */
  lemma {:induction false} OrDisjoint(a: nat, b: nat, k: nat)
    requires a < Pow2(k)
    ensures b * Pow2(k) >= 0 && Or(a, b * Pow2(k)) == a + b * Pow2(k)
    decreases k
  {
    var m := b * Pow2(k);
    assert m >= 0;
    if k == 0 || a == 0 || m == 0 {
    } else {
      assert m == 2 * (b * Pow2(k - 1)) by {
        assert b * (2 * Pow2(k - 1)) == 2 * (b * Pow2(k - 1));
      }
      OrDisjoint(a / 2, b, k - 1);
    }
  }

  /** Xor with a word of ones complements it. */
  lemma {:induction false} XorOnes(a: nat, k: nat)
    requires a < Pow2(k)
    ensures Xor(a, Pow2(k) - 1) == Pow2(k) - 1 - a
    decreases k
  {
    if k == 0 || a == 0 {
    } else {
      var m := Pow2(k - 1);
      XorOnes(a / 2, k - 1);
      assert (2 * m - 1) % 2 == 1 && (2 * m - 1) / 2 == m - 1;
      if m == 1 {
        assert a == 1;
      }
    }
  }
}
