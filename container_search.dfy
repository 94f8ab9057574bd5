// Table look-ups used by the interpolation code: given a table of (x, y)
// points, find the adjacent pair of points whose section holds an input x.
// The x-axis is modelled on integers (the `int` instantiation of the C++
// templates); all three searches only read the table.
module ContainerSearch {
  import opened Arith

  /** The lower and the upper edge of one section of the table. */
  datatype Section<Y> = Section(x1: int, y1: Y, x2: int, y2: Y)

  /** The section between the points at `p - 1` and `p`. */
  function SectionAt<Y>(values: seq<(int, Y)>, p: int): Section<Y>
    requires 1 <= p < |values|
  {
    Section(values[p - 1].0, values[p - 1].1, values[p].0, values[p].1)
  }

  /** The x values of `values[lo..hi]` never decrease. */
  ghost predicate SortedX<Y>(values: seq<(int, Y)>, lo: int, hi: int)
    requires 0 <= lo <= hi <= |values|
  {
    forall i, j :: lo <= i < j < hi ==> values[i].0 <= values[j].0
  }

  // ---------------------------------------------------------------------
  // indexSearch: equally spaced bins

  /** The unclamped position: C++ integer division truncates toward zero. */
  function RawPosition(input: int, lower: int, bin: int): int
    requires bin != 0
  {
    bin + TruncDiv(input - lower, bin)
  }

  /** The position clamped into the table: never below 1, never past the last point. */
  function Position(size: int, input: int, lower: int, bin: int): (p: int)
    requires bin != 0 && size >= 2
    ensures 1 <= p <= size - 1
  {
    var raw := RawPosition(input, lower, bin);
    if raw >= size then size - 1 else if raw <= 0 then 1 else raw
  }

  /** indexSearch: the section at the clamped position. The table needs
      two points, so that both edges exist, and the bin a non-zero width. */
  function IndexSearch<Y>(values: seq<(int, Y)>, input: int, lower: int, bin: int): (r: Section<Y>)
    requires bin != 0 && |values| >= 2
    ensures exists p :: 1 <= p < |values| && r == SectionAt(values, p)
  {
    var p := Position(|values|, input, lower, bin);
    SectionAt(values, p)
  }

  /** An input at least `bin * bin` below the lower edge (for unit bins:
      any input below it) yields the first section. */
  lemma IndexBelowTable<Y>(values: seq<(int, Y)>, input: int, lower: int, bin: int)
    requires bin >= 1 && |values| >= 2
    requires input - lower <= -(bin * bin)
    ensures IndexSearch(values, input, lower, bin) == SectionAt(values, 1)
  {
    var a := input - lower;
    assert Abs(a) == -a;
    DivMonotone(bin * bin, -a, bin);
    assert (bin * bin) / bin == bin by { DivUnique(bin * bin, bin, bin, 0); }
    assert TruncDiv(a, bin) == -((-a) / bin);
    assert RawPosition(input, lower, bin) <= 0;
  }

  /** An input at or beyond the last tabulated point `lower + (size - 1) * bin`
      yields the last section. */
  lemma IndexAboveTable<Y>(values: seq<(int, Y)>, input: int, lower: int, bin: int)
    requires bin >= 1 && |values| >= 2
    requires input >= lower + (|values| - 1) * bin
    ensures IndexSearch(values, input, lower, bin) == SectionAt(values, |values| - 1)
  {
    var a := input - lower;
    TruncDivNatural(a, bin);
    DivMonotone((|values| - 1) * bin, a, bin);
    assert ((|values| - 1) * bin) / bin == |values| - 1 by {
      DivUnique((|values| - 1) * bin, bin, |values| - 1, 0);
    }
    assert RawPosition(input, lower, bin) >= |values|;
  }

  /** For a table of unit bins `x_k = lower + k`, an input inside the table
      lies on the lower edge of the section returned. */
  lemma IndexUnitBins<Y>(values: seq<(int, Y)>, input: int, lower: int)
    requires |values| >= 2
    requires forall k :: 0 <= k < |values| ==> values[k].0 == lower + k
    requires lower <= input < lower + |values| - 1
    ensures var r := IndexSearch(values, input, lower, 1);
      r.x1 == input && r.x2 == input + 1
  {
    TruncDivNatural(input - lower, 1);
    assert Position(|values|, input, lower, 1) == input - lower + 1;
  }

  // ---------------------------------------------------------------------
  // linearSearch: std::find_if over the inner points

  /** std::find_if over `[i, last)`: the first index whose x reaches `input`, or `last`. */
  function FindFrom<Y>(values: seq<(int, Y)>, input: int, i: int, last: int): (idx: int)
    requires 0 <= i <= last <= |values|
    ensures i <= idx <= last
    ensures idx < last ==> values[idx].0 >= input
    ensures forall k :: i <= k < idx ==> values[k].0 < input
    decreases last - i
  {
    if i == last then last
    else if values[i].0 >= input then i
    else FindFrom(values, input, i + 1, last)
  }

  /** linearSearch: scans `[start + 1, size - 1)`, so the returned index has
      a predecessor and never points past the last point. The search range
      must not be empty. Returns the index and its section. */
  function LinearSearch<Y>(values: seq<(int, Y)>, input: int, start: nat): (r: (int, Section<Y>))
    requires start + 2 <= |values|
    ensures start + 1 <= r.0 <= |values| - 1
    ensures r.1 == SectionAt(values, r.0)
    ensures r.0 < |values| - 1 ==> values[r.0].0 >= input
    ensures forall k :: start + 1 <= k < r.0 ==> values[k].0 < input
  {
    var idx := FindFrom(values, input, start + 1, |values| - 1);
    (idx, SectionAt(values, idx))
  }

  /** With the search started at the beginning, an input strictly above the
      first point and not above the last one is bracketed by its section. */
  lemma LinearBrackets<Y>(values: seq<(int, Y)>, input: int)
    requires |values| >= 2
    requires values[0].0 < input <= values[|values| - 1].0
    ensures var r := LinearSearch(values, input, 0).1;
      r.x1 < input <= r.x2
  {
  }

  // ---------------------------------------------------------------------
  // binarySearch: std::upper_bound with `value <= point.first`

  /** std::upper_bound over `[first, first + len)` with the comparison
      `input <= x`, halving the range as the standard library does. */
  function UpperBound<Y>(values: seq<(int, Y)>, input: int, first: int, len: int): (idx: int)
    requires 0 <= first && 0 <= len && first + len <= |values|
    ensures first <= idx <= first + len
    decreases len
  {
    if len == 0 then first
    else
      var half := len / 2;
      var middle := first + half;
      if input <= values[middle].0 then UpperBound(values, input, first, half)
      else UpperBound(values, input, middle + 1, len - half - 1)
  }

  /** On a range sorted by x, upper_bound stops at the first x reaching `input`. */
  lemma {:induction false} UpperBoundIsFirst<Y>(values: seq<(int, Y)>, input: int, first: int, len: int)
    requires 0 <= first && 0 <= len && first + len <= |values|
    requires SortedX(values, first, first + len)
    ensures var idx := UpperBound(values, input, first, len);
      (idx < first + len ==> input <= values[idx].0) &&
      forall k :: first <= k < idx ==> values[k].0 < input
    decreases len
  {
    if len > 0 {
      var half := len / 2;
      var middle := first + half;
      if input <= values[middle].0 {
        UpperBoundIsFirst(values, input, first, half);
      } else {
        assert forall k :: first <= k <= middle ==> values[k].0 < input by {
          forall k | first <= k <= middle ensures values[k].0 < input {
            assert k == middle || values[k].0 <= values[middle].0;
          }
        }
        UpperBoundIsFirst(values, input, middle + 1, len - half - 1);
      }
    }
  }

  /** binarySearch: upper_bound over the same range linearSearch scans. */
  function BinarySearch<Y>(values: seq<(int, Y)>, input: int, start: nat): (r: (int, Section<Y>))
    requires start + 2 <= |values|
    ensures start + 1 <= r.0 <= |values| - 1
    ensures r.1 == SectionAt(values, r.0)
  {
    var idx := UpperBound(values, input, start + 1, |values| - start - 2);
    (idx, SectionAt(values, idx))
  }

  /** On a table sorted by x, binary and linear search agree. */
  lemma BinaryMatchesLinear<Y>(values: seq<(int, Y)>, input: int, start: nat)
    requires start + 2 <= |values|
    requires SortedX(values, 0, |values|)
    ensures BinarySearch(values, input, start) == LinearSearch(values, input, start)
  {
    UpperBoundIsFirst(values, input, start + 1, |values| - start - 2);
  }
}
