// Q-format fixed-point numbers: a raw integer `m_value` that stands for
// `m_value / 2^fb`, `fb` being the number of fractional bits. The raw
// arithmetic is unbounded here; the source performs no overflow checks.
module FixedPointType {
  import opened Arith

  /** A fixed-point value by its raw representation. */
  datatype Fixed = Fixed(raw: int)

  /** The default constructor: raw 0. */
  function Zero(): Fixed {
    Fixed(0)
  }

  /** `FixedPoint(int)`: the integer becomes the raw value as it is, without a shift. */
  function FromInt(v: int): (x: Fixed)
    ensures x.raw == v
  {
    Fixed(v)
  }

  /** The raw representation of one, `1 << fb`. */
  function One(fb: nat): Fixed {
    Fixed(Pow2(fb))
  }

  /** The raw sum; subtracting the addend again gives the other operand back. */
  function Add(x: Fixed, y: Fixed): (r: Fixed)
    ensures Sub(r, y) == x
  {
    Fixed(x.raw + y.raw)
  }

  /** The raw difference: below the minuend exactly when the subtrahend is positive. */
  function Sub(x: Fixed, y: Fixed): (r: Fixed)
    ensures Less(r, x) <==> Less(Zero(), y)
  {
    Fixed(x.raw - y.raw)
  }

  /** `(a * b + (1 << (fb - 1))) >> fb`: the arithmetic shift of a signed value is a floor division. */
  function Mul(x: Fixed, y: Fixed, fb: nat): (r: Fixed)
    requires fb >= 1
    ensures x == Zero() || y == Zero() ==> r == Zero()
  {
    Fixed((x.raw * y.raw + Pow2(fb - 1)) / Pow2(fb))
  }

  /** `(a << fb) / b` with C++'s truncating division; a zero divisor is undefined behaviour. */
  function Div(x: Fixed, y: Fixed, fb: nat): (r: Fixed)
    requires y.raw != 0
    ensures x == Zero() ==> r == Zero()
    ensures Less(r, Zero()) ==> (x.raw < 0) != (y.raw < 0)
  {
    Fixed(TruncDiv(x.raw * Pow2(fb), y.raw))
  }

  /** The defaulted `operator<=>`: the order of the raw values. */
  predicate Less(x: Fixed, y: Fixed) {
    x.raw < y.raw
  }

  predicate LessEq(x: Fixed, y: Fixed) {
    x.raw <= y.raw
  }

  /** `maximum_value`: 2^(8·sizeof(T) − fb − 1). */
  function MaximumValue(bytes: nat, fb: nat): nat
    requires fb < 8 * bytes
  {
    Pow2(8 * bytes - fb - 1)
  }

  /** Addition and subtraction undo each other exactly on raw values. */
  lemma AddSubInverse(x: Fixed, y: Fixed)
    ensures Sub(Add(x, y), y) == x && Add(Sub(x, y), y) == x
  {
  }

  /** Adding the same value on both sides keeps the order. */
  lemma AddMonotone(x: Fixed, y: Fixed, z: Fixed)
    ensures Less(x, y) <==> Less(Add(x, z), Add(y, z))
  {
  }

  /** The product is the exact product rounded to the nearest multiple of 2^-fb, halves rounded up. */
  lemma MulRoundsToNearest(x: Fixed, y: Fixed, fb: nat)
    requires fb >= 1
    ensures var s, h, r := Pow2(fb) as int, Pow2(fb - 1) as int, Mul(x, y, fb).raw;
      -h <= x.raw * y.raw - r * s < h
  {
    var s, h := Pow2(fb), Pow2(fb - 1);
    assert s == 2 * h;
    var n := x.raw * y.raw + h;
    var r := n / s;
    assert n == r * s + n % s && 0 <= n % s < s;
  }

  /** Multiplying by the raw representation of one, on either side, returns the other operand. */
  lemma MulOne(x: Fixed, fb: nat)
    requires fb >= 1
    ensures Mul(x, One(fb), fb) == x && Mul(One(fb), x, fb) == x
  {
    var s, h := Pow2(fb), Pow2(fb - 1);
    assert s == 2 * h;
    DivUnique(x.raw * s + h, s, x.raw, h);
    assert One(fb).raw * x.raw == x.raw * s;
  }

  /** Dividing by one returns the dividend. */
  lemma DivOne(x: Fixed, fb: nat)
    ensures Div(x, One(fb), fb) == x
  {
    var s := Pow2(fb);
    var a := x.raw * s;
    if x.raw >= 0 {
      DivUnique(a, s, x.raw, 0);
    } else {
      assert Abs(a) == (-x.raw) * s;
      DivUnique(Abs(a), s, -x.raw, 0);
    }
  }

  /** The quotient is truncated: the remainder has the dividend's sign and is smaller than the divisor. */
  lemma DivTruncates(x: Fixed, y: Fixed, fb: nat)
    requires y.raw != 0
    ensures var a, q := x.raw * Pow2(fb), Div(x, y, fb).raw;
      var r := a - q * y.raw;
      Abs(r) < Abs(y.raw) && (r == 0 || (r < 0) == (a < 0))
  {
    TruncDivBounds(x.raw * Pow2(fb), y.raw);
  }

  /** Multiplication by a non-negative value is monotone. */
  lemma MulMonotone(x: Fixed, y: Fixed, c: Fixed, fb: nat)
    requires fb >= 1 && LessEq(x, y) && c.raw >= 0
    ensures LessEq(Mul(x, c, fb), Mul(y, c, fb))
  {
    assert x.raw * c.raw <= y.raw * c.raw by {
      assert (y.raw - x.raw) * c.raw >= 0;
    }
    DivMonotone(x.raw * c.raw + Pow2(fb - 1), y.raw * c.raw + Pow2(fb - 1), Pow2(fb));
  }

  /** In raw units the maximum value is exactly the bound of the signed representation, 2^(8·sizeof(T) − 1). */
  lemma MaximumInRawUnits(bytes: nat, fb: nat)
    requires fb < 8 * bytes
    ensures MaximumValue(bytes, fb) * Pow2(fb) == Pow2(8 * bytes - 1)
  {
    Pow2Add(8 * bytes - fb - 1, fb);
  }

  /** A `FixedPoint` variable: the compound operators overwrite its raw value in place. */
  class FixedPointVar {
    const fb: nat
    var value: Fixed

    /** The default constructor stores zero. */
    constructor(fb: nat)
      ensures this.fb == fb && value == Zero()
    {
      this.fb := fb;
      value := Fixed(0);
    }

    method AddAssign(other: Fixed)
      modifies this
      ensures value == Add(old(value), other)
    {
      value := Fixed(value.raw + other.raw);
    }

    method SubAssign(other: Fixed)
      modifies this
      ensures value == Sub(old(value), other)
    {
      value := Fixed(value.raw - other.raw);
    }

    method MulAssign(other: Fixed)
      requires fb >= 1
      modifies this
      ensures value == Mul(old(value), other, fb)
    {
      value := Fixed((value.raw * other.raw + Pow2(fb - 1)) / Pow2(fb));
    }

    method DivAssign(other: Fixed)
      requires other.raw != 0
      modifies this
      ensures value == Div(old(value), other, fb)
    {
      value := Fixed(TruncDiv(value.raw * Pow2(fb), other.raw));
    }
  }
}
