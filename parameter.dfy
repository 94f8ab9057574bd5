// A settable, double-buffered parameter: two slots of the parameter's type,
// one read by the real-time side and one written by incoming commands,
// optional numeric limits, and the conversion of a JSON command value into a
// new write-slot value.
module Parameter {
  import opened Wrappers
  import opened Json
  import opened CppTypes
  import opened TypeVerification

  /** Why a value was not set. */
  datatype SetWarning =
    /** The library's conversion threw. */
    | CastFailed
    /** One of the type-agreement checks failed. */
    | TypeMismatch(w: TypeWarning)
    /** The value, or the first array element, that is outside the limits. */
    | OutOfLimits(value: real)
    /** The JSON value is not one of the enumerators' names. */
    | UnknownEnumerator(given: Json)
    /**
     * The JSON value given for an enumeration is not a string: the string
     * conversion throws, and nothing in the setter catches it.
     */
    | NotAString(given: Json)
    /** An array of enumerators with more names than the array has elements. */
    | TooManyElements(size: nat)

  /** The out-of-range access of `operator[]`. */
  datatype AccessError = OutOfRange(index: nat, size: nat)

  /** `std::numeric_limits<LimitType<T>>::lowest()`, as a real. */
  function Lowest(t: Ty): (r: real)
    requires NumericScalar(t)
    ensures r <= 0.0
  {
    match t
    case BoolT => 0.0
    case IntT(w, s) => IntMin(w, s) as real
    case Float32T => FloatMaxAtLeastOne(23, 127); -FloatMax(23, 127)
    case Float64T => FloatMaxAtLeastOne(52, 1023); -FloatMax(52, 1023)
  }

  /** `std::numeric_limits<LimitType<T>>::max()`, as a real. */
  function Highest(t: Ty): (r: real)
    requires NumericScalar(t)
    ensures r >= 1.0
  {
    match t
    case BoolT => 1.0
    case IntT(w, s) => IntMax(w, s) as real
    case Float32T => FloatMaxAtLeastOne(23, 127); FloatMax(23, 127)
    case Float64T => FloatMaxAtLeastOne(52, 1023); FloatMax(52, 1023)
  }


  /**
   * `verifyTypeAgrees`: the integral check, then the unsigned one, then the
   * Boolean one; the first warning is returned.
   */
  function VerifyTypeAgrees(t: Ty, v: Json): (r: Option<TypeWarning>)
    requires Numeric(t)
    ensures r.None? <==> CheckIfIntegral(t, v).None? && CheckIfUnsigned(t, v).None? && CheckIfBoolean(t, v).None?
    ensures CheckIfIntegral(t, v).Some? ==> r == CheckIfIntegral(t, v)
    ensures CheckIfIntegral(t, v).None? && CheckIfUnsigned(t, v).Some? ==> r == CheckIfUnsigned(t, v)
    ensures r.Some? && r.value.req == Bool ==> CheckIfIntegral(t, v).None? && CheckIfUnsigned(t, v).None?
  {
    var integral := CheckIfIntegral(t, v);
    if integral.Some? then integral
    else
      var unsigned := CheckIfUnsigned(t, v);
      if unsigned.Some? then unsigned
      else CheckIfBoolean(t, v)
  }

  /** The index of the first array element outside `[min, max]`. */
  function FirstOutside(elems: seq<Value>, min: real, max: real): (r: Option<nat>)
    ensures r.None? <==> forall k :: 0 <= k < |elems| ==> min <= NumOf(elems[k]) <= max
    ensures r.Some? ==> r.value < |elems| && !(min <= NumOf(elems[r.value]) <= max)
    ensures r.Some? ==> forall k :: 0 <= k < r.value ==> min <= NumOf(elems[k]) <= max
  {
    if |elems| == 0 then None
    else if min > NumOf(elems[0]) || NumOf(elems[0]) > max then Some(0)
    else
      match FirstOutside(elems[1..], min, max)
      case None => None
      case Some(i) => Some(i + 1)
  }

  /**
   * `checkLimits`: a numeric scalar must lie in `[min, max]`, every element
   * of a numeric array as well (the first one outside is reported), and
   * values of other types are not checked.
   */
  function CheckLimits(t: Ty, min: real, max: real, v: Value): (r: Option<SetWarning>)
    requires HasType(v, t)
    ensures NumericArray(t) ==> (r.None? <==> forall k :: 0 <= k < |v.elems| ==> min <= NumOf(v.elems[k]) <= max)
    ensures NumericArray(t) && r.Some? ==> exists k :: 0 <= k < |v.elems| && r == Some(OutOfLimits(NumOf(v.elems[k])))
    ensures NumericScalar(t) ==> (r.None? <==> min <= NumOf(v) <= max)
    ensures NumericScalar(t) && r.Some? ==> r == Some(OutOfLimits(NumOf(v)))
    ensures !Numeric(t) ==> r.None?
  {
    if NumericArray(t) then
      match FirstOutside(v.elems, min, max)
      case None => None
      case Some(i) => Some(OutOfLimits(NumOf(v.elems[i])))
    else if NumericScalar(t) then
      if NumOf(v) < min || NumOf(v) > max then Some(OutOfLimits(NumOf(v))) else None
    else None
  }

  /** `magic_enum::enum_cast` from a name: the index of the first enumerator with that name. */
  function EnumCast(names: seq<string>, name: string): (r: Option<nat>)
    ensures r.None? <==> forall k :: 0 <= k < |names| ==> names[k] != name
    ensures r.Some? ==> r.value < |names| && names[r.value] == name
  {
    if |names| == 0 then None
    else if names[0] == name then Some(0)
    else
      match EnumCast(names[1..], name)
      case None => None
      case Some(i) => Some(i + 1)
  }

  /** An enumerator from a JSON value: it must be a string naming one of them. */
  function DecodeEnumerator(names: seq<string>, j: Json): (r: Result<Value, SetWarning>)
    ensures r.Ok? <==> j.String? && exists k :: 0 <= k < |names| && names[k] == j.s
    ensures r.Ok? ==> r.value.EnumV? && r.value.e < |names| && names[r.value.e] == j.s
    ensures r.Err? ==> r.error == (if j.String? then UnknownEnumerator(j) else NotAString(j))
  {
    if !j.String? then Err(NotAString(j))
    else
      match EnumCast(names, j.s)
      case None => Err(UnknownEnumerator(j))
      case Some(k) => Ok(EnumV(k))
  }

  /** Whether `t` is set through the enumerator-array setter. */
  predicate EnumArray(t: Ty) {
    t.ArrayT? && t.elem.EnumT?
  }

  /**
   * `setJsonValueImpl` for every type but arrays of enumerators: an
   * enumeration takes the named enumerator; any other type is converted,
   * then (for numeric and Boolean types) checked for type agreement, then
   * checked against the limits.
   */
  function Decode(t: Ty, min: real, max: real, j: Json): (r: Result<Value, SetWarning>)
    requires !EnumArray(t)
    ensures r.Ok? ==> HasType(r.value, t)
    ensures r.Ok? && !t.EnumT? ==> Cast(t, j) == Some(r.value) && CheckLimits(t, min, max, r.value).None?
    ensures r.Ok? && Numeric(t) ==> VerifyTypeAgrees(t, j).None?
    ensures !t.EnumT? && Cast(t, j).None? ==> r == Err(CastFailed)
    ensures r.Err? && r.error.OutOfLimits? ==> Numeric(t) && VerifyTypeAgrees(t, j).None?
  {
    if t.EnumT? then DecodeEnumerator(t.names, j)
    else
      match Cast(t, j)
      case None => Err(CastFailed)
      case Some(v) =>
        var agreement := if Numeric(t) then VerifyTypeAgrees(t, j) else None;
        if agreement.Some? then Err(TypeMismatch(agreement.value))
        else
          match CheckLimits(t, min, max, v)
          case Some(w) => Err(w)
          case None => Ok(v)
  }

  /**
   * The enumerator-array setter as a function of the array being written:
   * from `counter` on, each name overwrites the next element; the first name
   * that is not an enumerator stops it with the elements before it already
   * overwritten. A name with no element left to write stops it as well.
   */
  function EnumArrayWrite(current: seq<Value>, names: seq<string>, js: seq<Json>, counter: nat): (r: (seq<Value>, Option<SetWarning>))
    requires counter <= |current|
    ensures |r.0| == |current|
    ensures forall k :: 0 <= k < counter ==> r.0[k] == current[k]
    decreases |js|
  {
    if |js| == 0 then (current, None)
    else
      match DecodeEnumerator(names, js[0])
      case Err(w) => (current, Some(w))
      case Ok(v) =>
        if counter == |current| then (current, Some(TooManyElements(|current|)))
        else EnumArrayWrite(current[counter := v], names, js[1..], counter + 1)
  }

  /** The number of leading JSON values that name an enumerator. */
  function KnownPrefix(names: seq<string>, js: seq<Json>): (n: nat)
    ensures n <= |js|
    ensures forall k :: 0 <= k < n ==> DecodeEnumerator(names, js[k]).Ok?
    ensures n < |js| ==> DecodeEnumerator(names, js[n]).Err?
  {
    if |js| == 0 || DecodeEnumerator(names, js[0]).Err? then 0
    else 1 + KnownPrefix(names, js[1..])
  }

  /**
   * The elements written are the decoded leading names, in order, and the
   * others keep their value; the setter succeeds iff every name is known
   * and fits.
   */
  lemma {:induction false} EnumArrayPartialWrite(current: seq<Value>, names: seq<string>, js: seq<Json>, counter: nat)
    requires counter <= |current|
    ensures var n := KnownPrefix(names, js);
      var written := if n < |current| - counter then n else |current| - counter;
      && (forall k :: 0 <= k < written ==> EnumArrayWrite(current, names, js, counter).0[counter + k] == DecodeEnumerator(names, js[k]).value)
      && (forall k :: counter + written <= k < |current| ==> EnumArrayWrite(current, names, js, counter).0[k] == current[k])
      && (EnumArrayWrite(current, names, js, counter).1.None? <==> n == |js| && |js| <= |current| - counter)
    decreases |js|
  {
    if |js| > 0 && DecodeEnumerator(names, js[0]).Ok? && counter < |current| {
      var v := DecodeEnumerator(names, js[0]).value;
      EnumArrayPartialWrite(current[counter := v], names, js[1..], counter + 1);
      var n := KnownPrefix(names, js);
      assert n == 1 + KnownPrefix(names, js[1..]);
      forall k | 1 <= k < n
        ensures js[k] == js[1..][k - 1]
      {
      }
    }
  }

  /**
   * The enumerator-array setter meets a value that is not a string, whose
   * conversion throws, exactly when one follows a run of known names that
   * all found an element to overwrite.
   */
  lemma {:induction false} EnumArrayMeetsNonString(current: seq<Value>, names: seq<string>, js: seq<Json>, counter: nat)
    requires counter <= |current|
    ensures var n := KnownPrefix(names, js);
      var w := EnumArrayWrite(current, names, js, counter).1;
      (w.Some? && w.value.NotAString?) <==> n < |js| && n <= |current| - counter && !js[n].String?
    decreases |js|
  {
    if |js| > 0 && DecodeEnumerator(names, js[0]).Ok? && counter < |current| {
      var v := DecodeEnumerator(names, js[0]).value;
      EnumArrayMeetsNonString(current[counter := v], names, js[1..], counter + 1);
      var n := KnownPrefix(names, js);
      assert n == 1 + KnownPrefix(names, js[1..]);
      if n < |js| {
        assert js[n] == js[1..][n - 1];
      }
    }
  }

  /**
   * The element indices the source's enumerator-array loop writes, in order:
   * one per leading known name, whatever the array's size.
   */
  function WrittenIndicesAsWritten(names: seq<string>, js: seq<Json>, counter: nat): (r: seq<nat>)
    ensures |r| == KnownPrefix(names, js)
    ensures forall k :: 0 <= k < |r| ==> r[k] == counter + k
    decreases |js|
  {
    if |js| == 0 || DecodeEnumerator(names, js[0]).Err? then []
    else [counter] + WrittenIndicesAsWritten(names, js[1..], counter + 1)
  }

  /** Three known names for an array of two enumerators: the source writes index 2, past the end. */
  lemma EnumArrayOverrunAsWritten()
    ensures var js := [String("On"), String("On"), String("On")];
      WrittenIndicesAsWritten(["Off", "On"], js, 0) == [0, 1, 2]
  {
    var js := [String("On"), String("On"), String("On")];
    assert DecodeEnumerator(["Off", "On"], js[0]).Ok?;
    assert js[1..][1..][1..] == [];
  }

  /** The same input with the size respected: both elements are written and the third name is refused. */
  lemma EnumArrayOverrunRefused()
    ensures var js := [String("On"), String("On"), String("On")];
      EnumArrayWrite([EnumV(0), EnumV(0)], ["Off", "On"], js, 0) == ([EnumV(1), EnumV(1)], Some(TooManyElements(2)))
  {
    var js := [String("On"), String("On"), String("On")];
    var names := ["Off", "On"];
    assert DecodeEnumerator(names, String("On")) == Ok(EnumV(1));
    assert js[1..] == [String("On"), String("On")] && js[1..][1..] == [String("On")];
    assert EnumArrayWrite([EnumV(1), EnumV(1)], names, [String("On")], 2) == ([EnumV(1), EnumV(1)], Some(TooManyElements(2)));
    assert [EnumV(1), EnumV(0)][1 := EnumV(1)] == [EnumV(1), EnumV(1)];
    assert [EnumV(0), EnumV(0)][0 := EnumV(1)] == [EnumV(1), EnumV(0)];
    assert EnumArrayWrite([EnumV(1), EnumV(0)], names, js[1..], 1) == ([EnumV(1), EnumV(1)], Some(TooManyElements(2)));
  }

  /** A `uint8_t` parameter limited to [0, 10] given -5: the unsigned check refuses it before the limits are looked at. */
  lemma TypeCheckBeforeLimits()
    ensures Decode(IntT(W8, false), 0.0, 10.0, NumberInteger(-5)) == Err(TypeMismatch(NotScalar(UnsignedInteger)))
  {
  }

  /** An `int16_t` parameter given 2.5 is converted, then refused by the integral check. */
  lemma FloatForIntegerRefused()
    ensures Cast(IntT(W16, true), NumberFloat(2.5)) == Some(IntV(2))
    ensures Decode(IntT(W16, true), -100.0, 100.0, NumberFloat(2.5)) == Err(TypeMismatch(NotScalar(Integer)))
  {
    ToWidthKeeps(2, W16, true);
  }

  /** A `double` array limited to [0, 1]: the first element outside is reported. */
  lemma ArrayLimitReportsFirstOutside()
    ensures Decode(ArrayT(Float64T, 3), 0.0, 1.0, Array([NumberFloat(0.5), NumberFloat(2.0), NumberFloat(-1.0)]))
            == Err(OutOfLimits(2.0))
  {
    var t := ArrayT(Float64T, 3);
    var j := Array([NumberFloat(0.5), NumberFloat(2.0), NumberFloat(-1.0)]);
    var vs := [FloatV(0.5), FloatV(2.0), FloatV(-1.0)];
    assert VerifyTypeAgrees(t, j).None?;
    ThreeFloatsCast();
    ThreeFloatsOutside();
    assert CheckLimits(t, 0.0, 1.0, ArrayV(vs)) == Some(OutOfLimits(2.0));
  }

  lemma ThreeFloatsCast()
    ensures Cast(ArrayT(Float64T, 3), Array([NumberFloat(0.5), NumberFloat(2.0), NumberFloat(-1.0)]))
            == Some(ArrayV([FloatV(0.5), FloatV(2.0), FloatV(-1.0)]))
  {
    var js := [NumberFloat(0.5), NumberFloat(2.0), NumberFloat(-1.0)];
    var vs := [FloatV(0.5), FloatV(2.0), FloatV(-1.0)];
    assert js[..3] == js;
    assert js[1..][1..] == [NumberFloat(-1.0)];
    assert js[1..][1..][1..] == [] && [FloatV(-1.0)] + [] == [FloatV(-1.0)];
    assert CastElements(Float64T, js[1..][1..]) == Some(ArrayV([FloatV(-1.0)]));
    assert [FloatV(2.0)] + [FloatV(-1.0)] == vs[1..];
    assert CastElements(Float64T, js[1..]) == Some(ArrayV(vs[1..]));
    assert [FloatV(0.5)] + vs[1..] == vs;
  }

  lemma ThreeFloatsOutside()
    ensures FirstOutside([FloatV(0.5), FloatV(2.0), FloatV(-1.0)], 0.0, 1.0) == Some(1)
  {
    var vs := [FloatV(0.5), FloatV(2.0), FloatV(-1.0)];
    assert vs[1..][0] == FloatV(2.0);
  }

  /**
   * A parameter of C++ type `ty`. `slots` is `m_value`; `readIndex` and
   * `writeIndex` stand for the pointers `m_read_buffer` and `m_write_buffer`.
   */
  class Parameter {
    const name: string
    const ty: Ty
    const slots: array<Value>
    var readIndex: nat
    var writeIndex: nat
    const limitMin: real
    const limitMax: real
    const limitMinDefined: bool
    const limitMaxDefined: bool
    var initialized: bool
    var validated: bool

    /** Two slots, the two indices pointing at different ones, both holding a value of `ty`. */
    ghost predicate Valid()
      reads this, slots
    {
      && slots.Length == 2
      && readIndex < 2 && writeIndex < 2 && readIndex != writeIndex
      && HasType(slots[0], ty) && HasType(slots[1], ty)
    }

    /** The constructor for numeric types: limits default to the type's range, and count as defined when they differ from it. */
    constructor WithLimits(name: string, ty: Ty, limitMin: real, limitMax: real)
      requires Numeric(ty)
      ensures Valid() && fresh(slots)
      ensures slots[0] == Default(ty) && slots[1] == Default(ty) && readIndex == 0 && writeIndex == 1
      ensures this.name == name && this.ty == ty && this.limitMin == limitMin && this.limitMax == limitMax
      ensures limitMinDefined <==> limitMin != Lowest(LimitType(ty))
      ensures limitMaxDefined <==> limitMax != Highest(LimitType(ty))
      ensures !initialized && !validated
    {
      this.name := name;
      this.ty := ty;
      this.limitMin := limitMin;
      this.limitMax := limitMax;
      limitMinDefined := limitMin != Lowest(LimitType(ty));
      limitMaxDefined := limitMax != Highest(LimitType(ty));
      slots := new Value[2](_ => Default(ty));
      readIndex, writeIndex := 0, 1;
      initialized, validated := false, false;
    }

    /** The constructor for non-numeric types, which have no limits. */
    constructor Plain(name: string, ty: Ty)
      requires NonNumeric(ty)
      ensures Valid() && fresh(slots)
      ensures slots[0] == Default(ty) && slots[1] == Default(ty) && readIndex == 0 && writeIndex == 1
      ensures this.name == name && this.ty == ty && !limitMinDefined && !limitMaxDefined
      ensures !initialized && !validated
    {
      this.name := name;
      this.ty := ty;
      limitMin, limitMax := 0.0, 0.0;
      limitMinDefined, limitMaxDefined := false, false;
      slots := new Value[2](_ => Default(ty));
      readIndex, writeIndex := 0, 1;
      initialized, validated := false, false;
    }

    /** `value()`: the read slot. */
    function Value(): Value
      requires Valid()
      reads this, slots
    {
      slots[readIndex]
    }

    /** `toValidate()`: the write slot. */
    function ToValidate(): Value
      requires Valid()
      reads this, slots
    {
      slots[writeIndex]
    }

    /** `operator[]`: an element of the read slot, or out-of-range for an index at or past the size. */
    method Element(index: nat) returns (r: Result<Value, AccessError>)
      requires Valid() && StdArray(ty)
      ensures r.Err? <==> index >= ty.size
      ensures r.Err? ==> r.error == OutOfRange(index, ty.size)
      ensures r.Ok? ==> r.value == Value().elems[index]
    {
      if index >= ty.size {
        return Err(OutOfRange(index, ty.size));
      }
      return Ok(slots[readIndex].elems[index]);
    }

    /** `swapBuffers`: the two indices are exchanged, so the slots keep their contents and change roles. */
    method SwapBuffers()
      requires Valid()
      modifies this`readIndex, this`writeIndex
      ensures Valid()
      ensures readIndex == old(writeIndex) && writeIndex == old(readIndex)
      ensures Value() == old(ToValidate()) && ToValidate() == old(Value())
    {
      readIndex, writeIndex := writeIndex, readIndex;
    }

    /** `syncWriteBuffer`: the read slot is copied into the write slot, the read slot does not change. */
    method SyncWriteBuffer()
      requires Valid()
      modifies slots
      ensures Valid()
      ensures ToValidate() == old(Value()) && Value() == old(Value())
    {
      slots[writeIndex] := slots[readIndex];
    }

    method SetValidated(value: bool)
      modifies this`validated
      ensures validated == value
    {
      validated := value;
    }

    method SetInitialized(value: bool)
      modifies this`initialized
      ensures initialized == value
    {
      initialized := value;
    }

    /**
     * `setJsonValue`: a value decoded without warning is stored in the write
     * slot and marks the parameter initialized; otherwise the warning is
     * returned and the flag and slots are unchanged, except that an array
     * of enumerators keeps the elements written before the failing name.
     */
    method SetJsonValue(j: Json) returns (warning: Option<SetWarning>)
      requires Valid()
      modifies slots, this`initialized
      ensures Valid()
      ensures initialized == (old(initialized) || warning.None?)
      ensures Value() == old(Value())
      ensures !EnumArray(ty) ==> match Decode(ty, limitMin, limitMax, j)
        case Ok(v) => warning.None? && ToValidate() == v
        case Err(w) => warning == Some(w) && ToValidate() == old(ToValidate())
      ensures EnumArray(ty) ==>
        var (elems, w) := EnumArrayWrite(old(ToValidate()).elems, ty.elem.names, Elements(j), 0);
        warning == w && ToValidate() == ArrayV(elems)
    {
      if EnumArray(ty) {
        warning := SetEnumArray(j);
      } else {
        var decoded := Decode(ty, limitMin, limitMax, j);
        if decoded.Ok? {
          slots[writeIndex] := decoded.value;
          warning := None;
        } else {
          warning := Some(decoded.error);
        }
      }
      if warning.None? {
        initialized := true;
      }
    }

    /**
     * The enumerator-array `setJsonValueImpl`, name by name into the write
     * slot, stopping at the first name that is not an enumerator or has no
     * element left.
     */
    method SetEnumArray(j: Json) returns (warning: Option<SetWarning>)
      requires Valid() && EnumArray(ty)
      modifies slots
      ensures Valid() && Value() == old(Value())
      ensures var (elems, w) := EnumArrayWrite(old(ToValidate()).elems, ty.elem.names, Elements(j), 0);
        warning == w && ToValidate() == ArrayV(elems)
    {
      var js := Elements(j);
      var names := ty.elem.names;
      ghost var start := slots[writeIndex].elems;
      var counter := 0;
      var i := 0;
      while i < |js|
        invariant Valid() && Value() == old(Value())
        invariant 0 <= i <= |js| && counter == i <= ty.size
        invariant slots[writeIndex].ArrayV? && |slots[writeIndex].elems| == ty.size
        invariant EnumArrayWrite(start, names, js, 0) == EnumArrayWrite(slots[writeIndex].elems, names, js[i..], counter)
      {
        var decoded := DecodeEnumerator(names, js[i]);
        assert js[i..][1..] == js[i + 1..];
        if decoded.Err? {
          return Some(decoded.error);
        }
        if counter == ty.size {
          return Some(TooManyElements(ty.size));
        }
        var elems := slots[writeIndex].elems;
        slots[writeIndex] := ArrayV(elems[counter := decoded.value]);
        counter := counter + 1;
        i := i + 1;
      }
      return None;
    }
  }

  /** Swapping twice gives each slot its original role back. */
  method SwapTwice(p: Parameter)
    requires p.Valid()
    modifies p
    ensures p.Valid() && p.readIndex == old(p.readIndex) && p.writeIndex == old(p.writeIndex)
    ensures p.Value() == old(p.Value()) && p.ToValidate() == old(p.ToValidate())
  {
    p.SwapBuffers();
    p.SwapBuffers();
  }
}
