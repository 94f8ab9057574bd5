// The C++ value types a settable parameter can hold, the type categories the
// templates dispatch on, the values of those types, and the library's
// implicit conversion from a JSON value to a C++ value.
module CppTypes {
  import opened Wrappers
  import opened Arith
  import opened Json

  /** The widths of the fixed-width integer types. */
  datatype Width = W8 | W16 | W32 | W64

  function Bits(w: Width): nat {
    match w
    case W8 => 8
    case W16 => 16
    case W32 => 32
    case W64 => 64
  }

  /**
   * `bool`, the eight fixed-width integers, `float`, `double`, an enumeration
   * (its enumerators' names, the k-th having the underlying value k),
   * `std::string` and `std::array<elem, size>`.
   */
  datatype Ty =
    | BoolT
    | IntT(width: Width, signed: bool)
    | Float32T
    | Float64T
    | EnumT(names: seq<string>)
    | StringT
    | ArrayT(elem: Ty, size: nat)

  // The concepts of the type-traits header.

  /** `std::is_integral`, which includes `bool`. */
  predicate Integral(t: Ty) {
    t.BoolT? || t.IntT?
  }

  predicate Floating(t: Ty) {
    t.Float32T? || t.Float64T?
  }

  predicate NumericScalar(t: Ty) {
    Floating(t) || Integral(t)
  }

  predicate StdArray(t: Ty) {
    t.ArrayT?
  }

  predicate NumericArray(t: Ty) {
    t.ArrayT? && NumericScalar(t.elem)
  }

  predicate Numeric(t: Ty) {
    NumericScalar(t) || NumericArray(t)
  }

  predicate Enumeration(t: Ty) {
    t.EnumT?
  }

  predicate NonNumeric(t: Ty) {
    Enumeration(t) || !Numeric(t)
  }

  /** `std::is_same<T, bool>`. */
  predicate BooleanType(t: Ty) {
    t.BoolT?
  }

  /** `std::is_unsigned`, which holds for `bool` as well. */
  predicate Unsigned(t: Ty) {
    t.BoolT? || (t.IntT? && !t.signed)
  }

  /** The element type `std::array` contributes to the limits, or the type itself. */
  function LimitType(t: Ty): Ty {
    if t.ArrayT? then t.elem else t
  }

  /** A value held by a parameter; numbers that the limits compare are reals. */
  datatype Value =
    | BoolV(b: bool)
    | IntV(i: int)
    | FloatV(x: real)
    | StrV(s: string)
    | EnumV(e: nat)
    | ArrayV(elems: seq<Value>)

  /** 2 to the number of bits of the width. */
  function Modulus(w: Width): nat {
    match w
    case W8 => 0x100
    case W16 => 0x1_0000
    case W32 => 0x1_0000_0000
    case W64 => 0x1_0000_0000_0000_0000
  }

  /** The least value of a `width`-bit integer type of the given signedness. */
  function IntMin(w: Width, signed: bool): int {
    if signed then -(Modulus(w) / 2) else 0
  }

  /** The greatest value of a `width`-bit integer type of the given signedness. */
  function IntMax(w: Width, signed: bool): int {
    if signed then Modulus(w) / 2 - 1 else Modulus(w) - 1
  }

  /** The greatest finite value of a binary floating-point format with `mantissa` fraction bits. */
  function FloatMax(mantissa: nat, maxExponent: nat): real
    requires mantissa <= maxExponent
  {
    ((Pow2(mantissa + 1) - 1) * Pow2(maxExponent - mantissa)) as real
  }

  /** The greatest finite value of every binary format is at least one. */
  lemma FloatMaxAtLeastOne(mantissa: nat, maxExponent: nat)
    requires mantissa <= maxExponent
    ensures FloatMax(mantissa, maxExponent) >= 1.0
  {
    var a, b := Pow2(mantissa + 1), Pow2(maxExponent - mantissa);
    assert a >= 2;
    assert (a - 1) * b >= b;
  }

  /** Whether `v` is a value of type `t`. */
  predicate HasType(v: Value, t: Ty) {
    match t
    case BoolT => v.BoolV?
    case IntT(w, s) => v.IntV? && IntMin(w, s) <= v.i <= IntMax(w, s)
    case Float32T => v.FloatV?
    case Float64T => v.FloatV?
    case EnumT(_) => v.EnumV?
    case StringT => v.StrV?
    case ArrayT(e, n) => v.ArrayV? && |v.elems| == n && forall k :: 0 <= k < n ==> HasType(v.elems[k], e)
  }

  /** The zero of value-initialisation: false, 0, 0.0, the first enumerator, "", or an array of zeros. */
  predicate IsZero(v: Value) {
    match v
    case BoolV(b) => !b
    case IntV(i) => i == 0
    case FloatV(x) => x == 0.0
    case StrV(s) => s == []
    case EnumV(e) => e == 0
    case ArrayV(es) => forall k :: 0 <= k < |es| ==> IsZero(es[k])
  }

  /** `T{}`: false, zero, the enumerator with underlying value 0, the empty string, or an array of those. */
  function Default(t: Ty): (v: Value)
    ensures HasType(v, t) && IsZero(v)
  {
    match t
    case BoolT => BoolV(false)
    case IntT(w, s) =>
      assert IntMin(w, s) <= 0 <= IntMax(w, s);
      IntV(0)
    case Float32T => FloatV(0.0)
    case Float64T => FloatV(0.0)
    case EnumT(_) => EnumV(0)
    case StringT => StrV("")
    case ArrayT(e, n) => ArrayV(seq(n, _ => Default(e)))
  }

  /** A type has one zero: `T{}` is the only zero value of type `T`. */
  lemma {:induction false} ZeroUnique(t: Ty, v: Value)
    requires HasType(v, t) && IsZero(v)
    ensures v == Default(t)
  {
    match t
    case ArrayT(e, n) =>
      var d := Default(t);
      forall k | 0 <= k < n
        ensures v.elems[k] == d.elems[k]
      {
        ZeroUnique(e, v.elems[k]);
      }
      assert v.elems == d.elems;
    case _ =>
  }

  /** The number a numeric scalar value stands for; `true` is 1. */
  function NumOf(v: Value): real {
    match v
    case BoolV(b) => if b then 1.0 else 0.0
    case IntV(i) => i as real
    case FloatV(x) => x
    case _ => 0.0
  }

  /** An integer brought into a `width`-bit type by two's-complement wrap-around. */
  function ToWidth(i: int, w: Width, signed: bool): (r: int)
    ensures IntMin(w, signed) <= r <= IntMax(w, signed)
    ensures (r - i) % Modulus(w) == 0
  {
    var m := Modulus(w);
    var u := i % m;
    assert (u - i) % m == 0 by {
      ModUnique(u - i, m, -(i / m), 0);
    }
    if signed && u > IntMax(w, signed) then
      assert (u - m - i) % m == 0 by {
        ModUnique(u - m - i, m, -(i / m) - 1, 0);
      }
      u - m
    else
      u
  }

  /** A value already in range is kept. */
  lemma ToWidthKeeps(i: int, w: Width, signed: bool)
    requires IntMin(w, signed) <= i <= IntMax(w, signed)
    ensures ToWidth(i, w, signed) == i
  {
    var m := Modulus(w);
    var r := ToWidth(i, w, signed);
    var d := (r - i) / m;
    assert r - i == d * m;
    assert -m < r - i < m;
  }

  /** A real truncated toward zero. */
  function Truncate(x: real): (r: int)
    ensures x >= 0.0 ==> r as real <= x < r as real + 1.0
    ensures x < 0.0 ==> r as real - 1.0 < x <= r as real
  {
    if x >= 0.0 then x.Floor else -((-x).Floor)
  }

  /**
   * The JSON library's own number types, `double`, `int64_t` and
   * `uint64_t`: their conversion reads only the three number kinds and
   * throws on a boolean, where the generic arithmetic conversion used for
   * the other numeric types turns `true` into 1.
   */
  predicate LibraryNumberType(t: Ty) {
    t == Float64T || (t.IntT? && t.width == W64)
  }

  /**
   * The library's implicit conversion of a JSON value to a (non-enumeration)
   * C++ type, `None` where it throws: a `bool` needs a JSON boolean, a
   * number accepts any number, and a boolean too unless the number type is
   * one of the library's own, a string needs a JSON string, and a
   * `std::array` of size n needs a JSON array of at least n elements, of
   * which the first n are converted.
   */
  function Cast(t: Ty, j: Json): (r: Option<Value>)
    requires !t.EnumT?
    ensures r.Some? ==> HasType(r.value, t)
    decreases t, 0
  {
    match t
    case BoolT => if j.Boolean? then Some(BoolV(j.b)) else None
    case IntT(w, s) =>
      if j.NumberInteger? then Some(IntV(ToWidth(j.i, w, s)))
      else if j.NumberUnsigned? then Some(IntV(ToWidth(j.n, w, s)))
      else if j.NumberFloat? then Some(IntV(ToWidth(Truncate(j.x), w, s)))
      else if j.Boolean? && w != W64 then Some(IntV(if j.b then 1 else 0))
      else None
    case Float32T => CastFloat(j, true)
    case Float64T => CastFloat(j, false)
    case StringT => if j.String? then Some(StrV(j.s)) else None
    case ArrayT(e, n) =>
      if !j.Array? || |j.elems| < n || e.EnumT? then None
      else CastElements(e, j.elems[..n])
  }

  /** Conversion to `float` (`fromBoolean`) or `double`: any number kind, and a boolean only for `float`. */
  function CastFloat(j: Json, fromBoolean: bool): (r: Option<Value>)
    ensures r.Some? ==> r.value.FloatV?
  {
    if j.NumberInteger? then Some(FloatV(j.i as real))
    else if j.NumberUnsigned? then Some(FloatV(j.n as real))
    else if j.NumberFloat? then Some(FloatV(j.x))
    else if j.Boolean? && fromBoolean then Some(FloatV(if j.b then 1.0 else 0.0))
    else None
  }

  /** The elements converted one by one; `None` as soon as one throws. */
  function CastElements(e: Ty, js: seq<Json>): (r: Option<Value>)
    requires !e.EnumT?
    ensures r.Some? ==> HasType(r.value, ArrayT(e, |js|))
    decreases e, 1, |js|
  {
    if |js| == 0 then Some(ArrayV([]))
    else
      match Cast(e, js[0])
      case None => None
      case Some(first) =>
        match CastElements(e, js[1..])
        case None => None
        case Some(rest) => Some(ArrayV([first] + rest.elems))
  }

  /** A type with no enumeration in it, at any depth of `std::array`. */
  predicate NoEnum(t: Ty) {
    match t
    case EnumT(_) => false
    case ArrayT(e, _) => NoEnum(e)
    case _ => true
  }

  /**
   * The library's `to_json` of a C++ value: a boolean, a signed integer as
   * the signed kind, an unsigned one as the unsigned kind, a floating value
   * as the floating kind, a string, and a `std::array` element by element.
   */
  function ToJson(t: Ty, v: Value): Json
    requires HasType(v, t) && NoEnum(t)
    decreases t
  {
    match t
    case BoolT => Boolean(v.b)
    case IntT(_, s) => if s then NumberInteger(v.i) else NumberUnsigned(v.i)
    case Float32T => NumberFloat(v.x)
    case Float64T => NumberFloat(v.x)
    case StringT => String(v.s)
    case ArrayT(e, n) => Array(seq(n, k requires 0 <= k < n => ToJson(e, v.elems[k])))
  }

  /** Converting back the JSON a value of type `t` serialises to gives the value itself. */
  lemma {:induction false} CastOfToJson(t: Ty, v: Value)
    requires HasType(v, t) && NoEnum(t)
    ensures Cast(t, ToJson(t, v)) == Some(v)
    decreases t, 0
  {
    match t
    case IntT(w, s) => ToWidthKeeps(v.i, w, s);
    case ArrayT(e, n) =>
      var js := ToJson(t, v).elems;
      assert js[..n] == js;
      CastElementsOfToJson(e, v.elems);
      assert ArrayV(v.elems) == v;
    case _ =>
  }

  lemma {:induction false} CastElementsOfToJson(e: Ty, vs: seq<Value>)
    requires NoEnum(e) && forall k :: 0 <= k < |vs| ==> HasType(vs[k], e)
    ensures CastElements(e, seq(|vs|, k requires 0 <= k < |vs| => ToJson(e, vs[k]))) == Some(ArrayV(vs))
    decreases e, 1, |vs|
  {
    var js := seq(|vs|, k requires 0 <= k < |vs| => ToJson(e, vs[k]));
    if |vs| > 0 {
      CastOfToJson(e, vs[0]);
      CastElementsOfToJson(e, vs[1..]);
      var tail := seq(|vs[1..]|, k requires 0 <= k < |vs[1..]| => ToJson(e, vs[1..][k]));
      forall k | 0 <= k < |tail|
        ensures js[1..][k] == tail[k]
      {
        assert vs[1..][k] == vs[k + 1];
      }
      assert js[1..] == tail;
      assert [vs[0]] + vs[1..] == vs;
    }
  }

  /** A JSON boolean is refused exactly by the library's own number types among the numeric scalars. */
  lemma BooleanRefusedByLibraryNumbers(t: Ty, b: bool)
    requires NumericScalar(t)
    ensures Cast(t, Boolean(b)).None? <==> LibraryNumberType(t)
  {
  }

  /** A JSON boolean converts to `float` and to a narrower integer, but `double`, `int64_t` and `uint64_t` refuse it. */
  lemma BooleanForLibraryNumbers(b: bool)
    ensures Cast(Float32T, Boolean(b)) == Some(FloatV(if b then 1.0 else 0.0))
    ensures Cast(IntT(W32, true), Boolean(b)) == Some(IntV(if b then 1 else 0))
    ensures Cast(Float64T, Boolean(b)).None?
    ensures Cast(IntT(W64, true), Boolean(b)).None? && Cast(IntT(W64, false), Boolean(b)).None?
    ensures Cast(ArrayT(Float64T, 1), Array([Boolean(b)])).None?
  {
    assert CastElements(Float64T, [Boolean(b)]).None?;
  }
}
