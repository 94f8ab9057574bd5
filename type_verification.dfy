// The checks that a JSON command value agrees with a parameter's C++ type in
// more detail than the library's conversion does: integral types need a JSON
// integer, unsigned types an unsigned JSON integer and `bool` a JSON
// boolean, element by element for `std::array`.
module TypeVerification {
  import opened Wrappers
  import opened Json
  import opened CppTypes

  /** The JSON kind a check demands. */
  datatype Requirement = UnsignedInteger | Integer | Bool

  predicate Meets(j: Json, req: Requirement) {
    match req
    case UnsignedInteger => IsNumberUnsigned(j)
    case Integer => IsNumberInteger(j)
    case Bool => j.Boolean?
  }

  /** A failed check: a scalar of the wrong kind, a non-array, or the first array element of the wrong kind. */
  datatype TypeWarning =
    | NotScalar(req: Requirement)
    | NotArray(req: Requirement)
    | BadElement(req: Requirement, index: nat)

  /** The index of the first element not meeting `req`. */
  function FirstFailing(elems: seq<Json>, req: Requirement): (r: Option<nat>)
    ensures r.None? <==> forall k :: 0 <= k < |elems| ==> Meets(elems[k], req)
    ensures r.Some? ==> r.value < |elems| && !Meets(elems[r.value], req)
    ensures r.Some? ==> forall k :: 0 <= k < r.value ==> Meets(elems[k], req)
  {
    if |elems| == 0 then None
    else if !Meets(elems[0], req) then Some(0)
    else
      match FirstFailing(elems[1..], req)
      case None => None
      case Some(i) => Some(i + 1)
  }

  /** The array loop shared by the three array overloads. */
  function CheckElements(v: Json, req: Requirement): (r: Option<TypeWarning>)
    ensures r.None? <==> v.Array? && forall k :: 0 <= k < |v.elems| ==> Meets(v.elems[k], req)
    ensures r == Some(NotArray(req)) <==> !v.Array?
    ensures r.Some? && v.Array? ==>
      && r.value.BadElement? && r.value.req == req
      && r.value.index < |v.elems| && !Meets(v.elems[r.value.index], req)
      && forall k :: 0 <= k < r.value.index ==> Meets(v.elems[k], req)
  {
    if !v.Array? then Some(NotArray(req))
    else
      match FirstFailing(v.elems, req)
      case None => None
      case Some(i) => Some(BadElement(req, i))
  }

  /** The types the unsigned check applies to: unsigned and not `bool`. */
  predicate UnsignedNonBool(t: Ty) {
    Unsigned(t) && !BooleanType(t)
  }

  /** The types the integral check applies to: integral and not `bool`. */
  predicate IntegralNonBool(t: Ty) {
    Integral(t) && !BooleanType(t)
  }

  /**
   * `checkIfUnsigned<T>`: an unsigned non-`bool` scalar type passes iff the
   * value is an unsigned JSON integer; an array of such elements passes iff
   * the value is an array of unsigned JSON integers; every other type passes.
   */
  function CheckIfUnsigned(t: Ty, v: Json): (r: Option<TypeWarning>)
    requires Numeric(t)
    ensures !NumericArray(t) ==> (r.None? <==> !UnsignedNonBool(t) || IsNumberUnsigned(v))
    ensures NumericArray(t) ==> (r.None? <==> !UnsignedNonBool(t.elem) || (v.Array? && forall k :: 0 <= k < |v.elems| ==> IsNumberUnsigned(v.elems[k])))
    ensures r.Some? ==> r.value.req == UnsignedInteger && (r.value.NotScalar? <==> !NumericArray(t))
  {
    if NumericArray(t) then
      if UnsignedNonBool(t.elem) then CheckElements(v, UnsignedInteger) else None
    else if UnsignedNonBool(t) && !IsNumberUnsigned(v) then Some(NotScalar(UnsignedInteger))
    else None
  }

  /**
   * `checkIfBoolean<T>`, defined for every type: `bool` passes iff the value is
   * a JSON boolean, an array of `bool` iff the value is an array of JSON
   * booleans; every other type passes.
   */
  function CheckIfBoolean(t: Ty, v: Json): (r: Option<TypeWarning>)
    ensures !StdArray(t) ==> (r.None? <==> !BooleanType(t) || v.Boolean?)
    ensures StdArray(t) ==> (r.None? <==> !BooleanType(t.elem) || (v.Array? && forall k :: 0 <= k < |v.elems| ==> v.elems[k].Boolean?))
    ensures r.Some? ==> r.value.req == Bool && (r.value.NotScalar? <==> !StdArray(t))
  {
    if StdArray(t) then
      if BooleanType(t.elem) then CheckElements(v, Bool) else None
    else if BooleanType(t) && !v.Boolean? then Some(NotScalar(Bool))
    else None
  }

  /**
   * `checkIfIntegral<T>`: an integral non-`bool` scalar type passes iff the
   * value is a JSON integer of either signedness; an array of such elements
   * iff every element is one; every other type passes.
   */
  function CheckIfIntegral(t: Ty, v: Json): (r: Option<TypeWarning>)
    requires Numeric(t)
    ensures !NumericArray(t) ==> (r.None? <==> !IntegralNonBool(t) || IsNumberInteger(v))
    ensures NumericArray(t) ==> (r.None? <==> !IntegralNonBool(t.elem) || (v.Array? && forall k :: 0 <= k < |v.elems| ==> IsNumberInteger(v.elems[k])))
    ensures r.Some? ==> r.value.req == Integer && (r.value.NotScalar? <==> !NumericArray(t))
  {
    if NumericArray(t) then
      if IntegralNonBool(t.elem) then CheckElements(v, Integer) else None
    else if IntegralNonBool(t) && !IsNumberInteger(v) then Some(NotScalar(Integer))
    else None
  }

  /** The decimal digits of `n`, as `fmt::format` prints an index. */
  function Decimal(n: nat): (s: string)
    ensures |s| > 0
    ensures forall k :: 0 <= k < |s| ==> '0' <= s[k] <= '9'
  {
    var digit := ['0' + (n % 10) as char];
    if n < 10 then digit else Decimal(n / 10) + digit
  }

  /** The reading of a decimal string; `Decimal` is its inverse. */
  function DecimalValue(s: string): int {
    if |s| == 0 then 0 else 10 * DecimalValue(s[..|s| - 1]) + (s[|s| - 1] as int - '0' as int)
  }

  lemma {:induction false} DecimalRoundTrip(n: nat)
    ensures DecimalValue(Decimal(n)) == n
  {
    var s := Decimal(n);
    if n >= 10 {
      DecimalRoundTrip(n / 10);
      assert s[..|s| - 1] == Decimal(n / 10);
    }
  }

  /** The wording of an array warning for each requirement. */
  function ArrayNoun(req: Requirement): string {
    match req
    case UnsignedInteger => "unsigned integers"
    case Integer => "integers"
    case Bool => "bool"
  }

  /**
   * The warning text, with `dump` standing for the library's serialisation
   * of the value. The scalar Boolean check uses the unsigned wording.
   */
  function Message(w: TypeWarning, dump: string): string {
    match w
    case NotScalar(Integer) =>
      "The provided command value: " + dump + " is not an integer, while Parameter type is an integer.\n"
    case NotScalar(_) =>
      "The provided command value: " + dump + " is not an unsigned integer, while Parameter type is an unsigned integer.\n"
    case NotArray(req) =>
      "The provided command value: " + dump + " is not an array, while Parameter type is an array of " + ArrayNoun(req) + ".\n"
    case BadElement(req, i) =>
      "The provided command value: " + dump + " is not an array of " + ArrayNoun(req) + " with an issue at index "
      + Decimal(i) + ", while Parameter type is an array of " + ArrayNoun(req) + ".\n"
  }

  /** The Boolean scalar warning cannot be told from the unsigned one. */
  lemma BooleanWordingReused(dump: string)
    ensures Message(NotScalar(Bool), dump) == Message(NotScalar(UnsignedInteger), dump)
  {
  }

  /** No check compares the JSON array's length with the array type's size. */
  lemma SizeNeverCompared(e: Ty, n: nat, m: nat, v: Json)
    requires NumericScalar(e)
    ensures CheckIfUnsigned(ArrayT(e, n), v) == CheckIfUnsigned(ArrayT(e, m), v)
    ensures CheckIfIntegral(ArrayT(e, n), v) == CheckIfIntegral(ArrayT(e, m), v)
    ensures CheckIfBoolean(ArrayT(e, n), v) == CheckIfBoolean(ArrayT(e, m), v)
  {
  }

  /** A check whose category the type lacks passes whatever the value. */
  lemma CategoryMismatchPasses(t: Ty, v: Json)
    requires Numeric(t)
    ensures Floating(LimitType(t)) ==> CheckIfUnsigned(t, v).None? && CheckIfIntegral(t, v).None?
    ensures !BooleanType(LimitType(t)) ==> CheckIfBoolean(t, v).None?
    ensures (t.IntT? && t.signed) ==> CheckIfUnsigned(t, v).None?
  {
  }

  /** An `int16_t` 25 is a signed JSON integer and fails the unsigned check for `uint16_t`, though not the integral one. */
  lemma SignedTwentyFiveFails()
    ensures CheckIfUnsigned(IntT(W16, false), NumberInteger(25)) == Some(NotScalar(UnsignedInteger))
    ensures CheckIfIntegral(IntT(W16, false), NumberInteger(25)).None?
  {
  }

  /** An array of unsigned integers with a string at index 2 fails there. */
  lemma HeterogeneousArrayFailsAtString()
    ensures CheckIfUnsigned(ArrayT(IntT(W32, false), 12),
                            Array([NumberUnsigned(3), NumberUnsigned(0), String("string_not_uint"), NumberUnsigned(0), NumberUnsigned(0)]))
            == Some(BadElement(UnsignedInteger, 2))
  {
    var elems := [NumberUnsigned(3), NumberUnsigned(0), String("string_not_uint"), NumberUnsigned(0), NumberUnsigned(0)];
    assert !Meets(elems[2], UnsignedInteger);
    assert elems[1..][1..][0] == elems[2];
  }
}
