// An abstract JSON value in the shape of the JSON library the system uses:
// numbers keep the kind they were built or parsed with (signed integer,
// unsigned integer or floating point), and an object is a sequence of
// key/value pairs looked up by key.
module Json {
  import opened Wrappers

  datatype Json =
    | Null
    | Boolean(b: bool)
    | NumberInteger(i: int)
    | NumberUnsigned(n: nat)
    | NumberFloat(x: real)
    | String(s: string)
    | Array(elems: seq<Json>)
    | Object(fields: seq<(string, Json)>)

  /** `is_number_unsigned`: only the unsigned kind. */
  predicate IsNumberUnsigned(j: Json) {
    j.NumberUnsigned?
  }

  /** `is_number_integer`: either integer kind, whatever its sign. */
  predicate IsNumberInteger(j: Json) {
    j.NumberInteger? || j.NumberUnsigned?
  }

  /** `is_number`: any of the three number kinds. */
  predicate IsNumber(j: Json) {
    IsNumberInteger(j) || j.NumberFloat?
  }

  /** `contains(key)` on an object; false on anything else. */
  predicate Contains(j: Json, key: string) {
    j.Object? && exists k :: 0 <= k < |j.fields| && j.fields[k].0 == key
  }

  /** The value under `key` in an object: the first pair with that key. */
  function Lookup(fields: seq<(string, Json)>, key: string): (r: Option<Json>)
    ensures r.None? <==> forall k :: 0 <= k < |fields| ==> fields[k].0 != key
    ensures r.Some? ==> exists k :: 0 <= k < |fields| && fields[k] == (key, r.value)
  {
    if |fields| == 0 then None
    else if fields[0].0 == key then Some(fields[0].1)
    else
      var r := Lookup(fields[1..], key);
      assert r.Some? ==> exists k :: 1 <= k < |fields| && fields[k] == (key, r.value) by {
        if r.Some? {
          var k :| 0 <= k < |fields[1..]| && fields[1..][k] == (key, r.value);
          assert fields[k + 1] == (key, r.value);
        }
      }
      r
  }

  /** The member `key` of an object, if it has one. */
  function Get(j: Json, key: string): (r: Option<Json>)
    ensures r.Some? <==> Contains(j, key)
  {
    if j.Object? then Lookup(j.fields, key) else None
  }

  /** An object with `key` bound to `v` (appended, or replacing the first binding). */
  function Put(fields: seq<(string, Json)>, key: string, v: Json): (r: seq<(string, Json)>)
    ensures Lookup(r, key) == Some(v)
    ensures forall other :: other != key ==> Lookup(r, other) == Lookup(fields, other)
  {
    if |fields| == 0 then [(key, v)]
    else if fields[0].0 == key then [(key, v)] + fields[1..]
    else [fields[0]] + Put(fields[1..], key, v)
  }

  /** The values `for (value : json)` visits: an array's elements, an object's values, nothing for null, else the value itself. */
  function Elements(j: Json): (r: seq<Json>)
    ensures |r| == 0 <==> j.Null? || j == Array([]) || j == Object([])
  {
    match j
    case Null => []
    case Array(elems) => elems
    case Object(fields) => seq(|fields|, k requires 0 <= k < |fields| => fields[k].1)
    case _ => [j]
  }

  /**
   * What iterating over a member of an object visits is smaller than the
   * object: the recursion of a walk over nested members terminates.
   */
  lemma MemberElementsSmaller(j: Json, key: string)
    ensures Get(j, key).Some? ==> forall k :: 0 <= k < |Elements(Get(j, key).value)| ==> Elements(Get(j, key).value)[k] < j
  {
    if Get(j, key).Some? {
      var v := Get(j, key).value;
      var i :| 0 <= i < |j.fields| && j.fields[i] == (key, v);
      assert v < j;
      if v.Array? {
        assert forall k :: 0 <= k < |v.elems| ==> v.elems[k] < v;
      } else if v.Object? {
        assert forall k :: 0 <= k < |v.fields| ==> v.fields[k].1 < v;
      }
    }
  }
}
