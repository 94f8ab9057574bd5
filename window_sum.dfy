// Sums of the integral-limit window buffers.
module WindowSum {
  function Sum(s: seq<int>): int
    decreases |s|
  {
    if |s| == 0 then 0 else s[0] + Sum(s[1..])
  }

  /** Overwriting one slot changes the sum by the difference of the values. */
  lemma {:induction false} SumUpdate(s: seq<int>, i: int, v: int)
    requires 0 <= i < |s|
    ensures Sum(s[i := v]) == Sum(s) - s[i] + v
    decreases |s|
  {
    if i > 0 {
      assert s[i := v][1..] == s[1..][i - 1 := v];
      SumUpdate(s[1..], i - 1, v);
    } else {
      assert s[i := v][1..] == s[1..];
    }
  }

  /** A buffer of zeros sums to zero. */
  lemma {:induction false} SumZeros(s: seq<int>)
    requires forall k :: 0 <= k < |s| ==> s[k] == 0
    ensures Sum(s) == 0
    decreases |s|
  {
    if |s| > 0 {
      SumZeros(s[1..]);
    }
  }

  /**
   * The head after a stored input as evidently intended: it goes back to the
   * first slot as soon as it reaches the window length or the end of the
   * buffer, so that it never leaves the buffer.
   */
  function IntendedHead(head: nat, windowLength: nat, bufferLength: nat): (h: nat)
    ensures head < bufferLength ==> h < bufferLength
    ensures h == 0 || (h == head + 1 && h < windowLength)
  {
    if head + 1 >= windowLength || head + 1 >= bufferLength then 0 else head + 1
  }

  /** `std::fill` with zero over a whole buffer. */
  method ZeroFill(a: array<int>)
    modifies a
    ensures forall k :: 0 <= k < a.Length ==> a[k] == 0
    ensures Sum(a[..]) == 0
  {
    for i := 0 to a.Length
      invariant forall k :: 0 <= k < i ==> a[k] == 0
    {
      a[i] := 0;
    }
    SumZeros(a[..]);
  }
}
