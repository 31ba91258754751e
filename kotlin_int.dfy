/** Kotlin's `Int` arithmetic, where it differs from Dafny's unbounded, Euclidean `int`. */
module KotlinInt {

  /** Kotlin's `Int`: a 32-bit two's-complement integer. */
  type Int32 = x: int | -0x8000_0000 <= x <= 0x7fff_ffff

  function Abs(x: int): (r: nat)
    ensures r == x || r == -x
  {
    if x < 0 then -x else x
  }

  /**
   * Kotlin's `a / b` on integers: the quotient rounded toward zero.  Its remainder
   * is smaller than the divisor in magnitude and never has the opposite sign of
   * the dividend (Dafny's own `/` is Euclidean and differs for a negative `a`).
   */
  function TruncDiv(a: int, b: int): (q: int)
    requires b != 0
    ensures Abs(a - q * b) < Abs(b)
    ensures 0 <= a ==> 0 <= a - q * b
    ensures a <= 0 ==> a - q * b <= 0
    ensures Abs(q * b) <= Abs(a)
  {
    var n := Abs(a) / Abs(b);
    TruncDivFacts(a, b, n);
    if (a < 0) == (b < 0) then n as int else -(n as int)
  }

  /** The arithmetic behind TruncDiv's contract, stated for the unsigned quotient `n`. */
  lemma TruncDivFacts(a: int, b: int, n: nat)
    requires b != 0 && n == Abs(a) / Abs(b)
    ensures var q: int := if (a < 0) == (b < 0) then n as int else -(n as int);
      && Abs(a - q * b) < Abs(b)
      && (0 <= a ==> 0 <= a - q * b)
      && (a <= 0 ==> a - q * b <= 0)
      && Abs(q * b) <= Abs(a)
  {
    var A, B := Abs(a), Abs(b);
    var q: int := if (a < 0) == (b < 0) then n as int else -(n as int);
    var m := n * B;
    QuotientTimesDivisorBounds(A, B);
    SignedQuotientTimesDivisor(a, b, n);
    TruncDivFactsLinear(a, B, m, q * b);
  }

  /** `(A / B) * B` is the largest multiple of `B` not above `A`. */
  lemma QuotientTimesDivisorBounds(A: nat, B: nat)
    requires B > 0
    ensures 0 <= (A / B) * B <= A < (A / B) * B + B
  {
    var n, r := A / B, A % B;
    assert A == n * B + r;
  }

  /** The signed quotient times the divisor is plus or minus `n * |b|`, with the sign of `a`. */
  lemma SignedQuotientTimesDivisor(a: int, b: int, n: nat)
    requires b != 0
    ensures var q: int := if (a < 0) == (b < 0) then n as int else -(n as int);
      q * b == if 0 <= a then n * Abs(b) else -(n * Abs(b))
  {
    var q: int := if (a < 0) == (b < 0) then n as int else -(n as int);
    if b > 0 {
      if a < 0 {
        assert q * b == -(n * b);
      }
    } else {
      assert n * b == -(n * Abs(b));
      if 0 <= a {
        assert q * b == -(n * b);
      }
    }
  }

  /** The linear part of TruncDivFacts, with `m` standing for `n * |b|` and `qb` for `q * b`. */
  lemma TruncDivFactsLinear(a: int, B: int, m: int, qb: int)
    requires 0 <= m <= Abs(a) < m + B
    requires qb == if 0 <= a then m else -m
    ensures Abs(a - qb) < B
    ensures (0 <= a ==> 0 <= a - qb) && (a <= 0 ==> a - qb <= 0)
    ensures Abs(qb) <= Abs(a)
  {
  }

  /** Truncating division is the only division whose remainder obeys TruncDiv's contract. */
  lemma {:induction false} TruncDivUnique(a: int, b: int, q: int)
    requires b != 0
    requires Abs(a - q * b) < Abs(b)
    requires 0 <= a ==> 0 <= a - q * b
    requires a <= 0 ==> a - q * b <= 0
    ensures q == TruncDiv(a, b)
  {
    var p := TruncDiv(a, b);
    var r, s := a - q * b, a - p * b;
    assert r - s == (p - q) * b;
    SameSignRemaindersEqual(r, s, b, p - q);
  }

  /**
   * Two remainders of the same sign, both smaller than `b` in magnitude, that
   * differ by a multiple of `b` are equal.
   */
  lemma SameSignRemaindersEqual(r: int, s: int, b: int, k: int)
    requires b != 0 && Abs(r) < Abs(b) && Abs(s) < Abs(b)
    requires (0 <= r && 0 <= s) || (r <= 0 && s <= 0)
    requires r - s == k * b
    ensures k == 0
  {
    if k != 0 {
      MultipleAtLeastDivisor(k, b);
    }
  }

  lemma MultipleAtLeastDivisor(k: int, b: int)
    requires k != 0 && b != 0
    ensures Abs(k * b) >= Abs(b)
  {
    AbsOfProduct(k, b);
    var K, B := Abs(k), Abs(b);
    assert K * B == (K - 1) * B + B;
    assert (K - 1) * B >= 0;
  }

  lemma AbsOfProduct(k: int, b: int)
    ensures Abs(k * b) == Abs(k) * Abs(b)
  {
    if k < 0 && b < 0 {
      assert k * b == (-k) * (-b);
    } else if k < 0 {
      assert k * b == -((-k) * b);
    } else if b < 0 {
      assert k * b == -(k * (-b));
    }
  }
}
