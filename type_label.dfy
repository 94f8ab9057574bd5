// The type labels under which parameters are published to the configurator:
// one constant per supported scalar type, and "Array" followed by the
// element's label for `std::array`.
module TypeLabel {
  import opened CppTypes

  const BoolLabel := "Bool"
  const Float32Label := "Float32"
  const Float64Label := "Float64"
  const EnumLabel := "Enum"
  const Int64Label := "Int64"
  const UInt64Label := "UInt64"
  const Int32Label := "Int32"
  const UInt32Label := "UInt32"
  const Int16Label := "Int16"
  const UInt16Label := "UInt16"
  const Int8Label := "Int8"
  const UInt8Label := "UInt8"
  const StringLabel := "String"
  const ArrayPrefix := "Array"

  function IntLabel(w: Width, signed: bool): (r: string)
    ensures |r| > 0 && r[0] != ArrayPrefix[0]
  {
    match w
    case W64 => if signed then Int64Label else UInt64Label
    case W32 => if signed then Int32Label else UInt32Label
    case W16 => if signed then Int16Label else UInt16Label
    case W8 => if signed then Int8Label else UInt8Label
  }

  /**
   * `getTypeLabel<T>()`: `bool` has its own overload ahead of the integral
   * one, and an array's label is the prefix and its element's label.
   */
  function GetTypeLabel(t: Ty): (r: string)
    ensures |r| > 0
    ensures t.ArrayT? <==> r[0] == ArrayPrefix[0]
    ensures t.ArrayT? ==> |r| > |ArrayPrefix| && r[..|ArrayPrefix|] == ArrayPrefix
  {
    match t
    case BoolT => BoolLabel
    case IntT(w, s) => IntLabel(w, s)
    case Float32T => Float32Label
    case Float64T => Float64Label
    case EnumT(_) => EnumLabel
    case StringT => StringLabel
    case ArrayT(e, _) => ArrayPrefix + GetTypeLabel(e)
  }

  /** A type with its array sizes and enumerator names forgotten: what a label can tell apart. */
  function Shape(t: Ty): Ty {
    match t
    case EnumT(_) => EnumT([])
    case ArrayT(e, _) => ArrayT(Shape(e), 0)
    case _ => t
  }

  /** An array's label is the prefix and its element's label, whatever the size. */
  lemma ArrayLabel(e: Ty, n: nat, m: nat)
    ensures GetTypeLabel(ArrayT(e, n)) == ArrayPrefix + GetTypeLabel(e)
    ensures GetTypeLabel(ArrayT(e, n)) == GetTypeLabel(ArrayT(e, m))
  {
  }

  /** Only array labels start with the array prefix. */
  lemma ScalarLabelNotPrefixed(t: Ty)
    requires !t.ArrayT?
    ensures |GetTypeLabel(t)| > 0 && GetTypeLabel(t)[0] != ArrayPrefix[0]
  {
  }

  /** Two types have the same label iff they have the same shape. */
  lemma {:induction false} LabelsIdentifyShape(a: Ty, b: Ty)
    ensures GetTypeLabel(a) == GetTypeLabel(b) <==> Shape(a) == Shape(b)
  {
    if a.ArrayT? && b.ArrayT? {
      LabelsIdentifyShape(a.elem, b.elem);
      var la, lb := GetTypeLabel(a.elem), GetTypeLabel(b.elem);
      assert (ArrayPrefix + la)[|ArrayPrefix|..] == la;
      assert (ArrayPrefix + lb)[|ArrayPrefix|..] == lb;
    } else if a.ArrayT? {
      ScalarLabelNotPrefixed(b);
      assert GetTypeLabel(a)[0] == ArrayPrefix[0];
    } else if b.ArrayT? {
      ScalarLabelNotPrefixed(a);
      assert GetTypeLabel(b)[0] == ArrayPrefix[0];
    }
  }
}
