// Integer facts shared by the models: Euclidean remainders, C++ division
// (which truncates toward zero) and powers of two.
module Arith {
  /** Euclidean remainders are unique. */
  lemma ModUnique(x: int, m: int, q: int, r: int)
    requires m > 0 && 0 <= r < m && x == q * m + r
    ensures x % m == r
  {
    var d := x / m - q;
    assert x == (x / m) * m + x % m;
    assert d * m == r - x % m;
  }

  function Abs(x: int): nat {
    if x < 0 then -x else x
  }

  /** C++ `a / b` on integers: the quotient rounded toward zero. */
  function TruncDiv(a: int, b: int): int
    requires b != 0
  {
    var q := Abs(a) / Abs(b);
    if (a < 0) == (b < 0) then q else -q
  }

  /** The truncated quotient leaves a remainder with the sign of the dividend and smaller than the divisor. */
  lemma TruncDivBounds(a: int, b: int)
    requires b != 0
    ensures var r := a - TruncDiv(a, b) * b;
      Abs(r) < Abs(b) && (r == 0 || (r < 0) == (a < 0))
  {
    var A, B := Abs(a), Abs(b);
    var q, m := A / B, A % B;
    var P: int := q * B;
    DivModOf(A, B, q, m, P);
    TruncProduct(a, b, q, B, P);
    RemainderOfProduct(a, B, P, m, TruncDiv(a, b) * b);
  }

  lemma DivModOf(A: nat, B: nat, q: int, m: int, P: int)
    requires B > 0 && q == A / B && m == A % B && P == q * B
    ensures A == P + m && 0 <= m < B
  {
  }

  /** The linear step: subtracting the signed product leaves the signed remainder. */
  lemma RemainderOfProduct(a: int, B: nat, P: int, m: int, t: int)
    requires Abs(a) == P + m && 0 <= m < B && t == (if a < 0 then -P else P)
    ensures Abs(a - t) < B && (a - t == 0 || (a - t < 0) == (a < 0))
  {
  }

  lemma TruncProduct(a: int, b: int, q: int, B: int, P: int)
    requires b != 0 && B == Abs(b) && q == Abs(a) / B && P == q * B
    ensures TruncDiv(a, b) * b == if a < 0 then -P else P
  {
    if b < 0 {
      assert q * b == -P;
    }
  }

  /** Non-negative operands divide as in Dafny. */
  lemma TruncDivNatural(a: nat, b: nat)
    requires b > 0
    ensures TruncDiv(a, b) == a / b
  {
  }

  function Pow2(n: nat): (p: nat)
    ensures p >= 1
  {
    if n == 0 then 1 else 2 * Pow2(n - 1)
  }

  /** Euclidean quotients are unique. */
  lemma DivUnique(x: int, m: int, q: int, r: int)
    requires m > 0 && 0 <= r < m && x == q * m + r
    ensures x / m == q
  {
    ModUnique(x, m, q, r);
    assert x == (x / m) * m + x % m;
    assert (x / m - q) * m == 0;
  }

  /** Floor division by a positive divisor is monotone. */
  lemma DivMonotone(x: int, y: int, m: int)
    requires m > 0 && x <= y
    ensures x / m <= y / m
  {
    var qx, rx, qy, ry := x / m, x % m, y / m, y % m;
    assert x == qx * m + rx && 0 <= rx < m;
    assert y == qy * m + ry && 0 <= ry < m;
    if qx > qy {
      var d := qx - qy;
      MulAtLeast(d, m);
    }
  }

  lemma MulAtLeast(d: int, m: int)
    requires d >= 1 && m > 0
    ensures d * m >= m
  {
  }

  lemma Pow2Add(a: nat, b: nat)
    ensures Pow2(a) * Pow2(b) == Pow2(a + b)
    decreases a
  {
    if a > 0 {
      Pow2Add(a - 1, b);
      DoubleLeft(Pow2(a - 1), Pow2(b));
    }
  }

  lemma DoubleLeft(x: int, y: int)
    ensures (2 * x) * y == 2 * (x * y)
  {
  }
}
