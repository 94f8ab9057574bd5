// The clamping integral limit: like the rejecting variant it keeps a sliding
// window of inputs and their running sum, but an input that would push the
// sum above `integral_limit` is replaced by the largest value that does not,
// and a non-real-time variant stores every input and reports an overflow.
// The element type is an integer type, taken as unbounded.
module LimitIntegralClamp {
  import opened Wrappers
  import opened WindowSum

  /** The head after a stored input: once it reaches the window length it is brought back by it. */
  function Wrap(head: nat, windowLength: nat): (h: nat)
    ensures head < windowLength ==> h < windowLength
    ensures windowLength == 0 ==> h == head + 1
  {
    if head + 1 >= windowLength then head + 1 - windowLength else head + 1
  }

  /** The head after `k` stored inputs, the window length unchanged. */
  function WrapTimes(head: nat, windowLength: nat, k: nat): nat
    decreases k
  {
    if k == 0 then head else WrapTimes(Wrap(head, windowLength), windowLength, k - 1)
  }

  /**
   * With the default window length of zero the head never wraps: it moves
   * one slot per stored input, past the end of the buffer.
   */
  lemma {:induction false} ZeroWindowRunsOff(head: nat, k: nat)
    ensures WrapTimes(head, 0, k) == head + k
    decreases k
  {
    if k > 0 {
      ZeroWindowRunsOff(head + 1, k - 1);
    }
  }

  /** Inside a window no longer than the buffer, the intended head is the source's. */
  lemma IntendedHeadAgrees(head: nat, windowLength: nat, bufferLength: nat)
    requires head < windowLength <= bufferLength
    ensures IntendedHead(head, windowLength, bufferLength) == Wrap(head, windowLength)
  {
  }

  /** The warning of `limitNonRT`: the input stored and the limit it overflows. */
  datatype Overflow = Overflow(value: int, limit: int)

  class LimitIntegral {
    /** `m_integral_buffer`, of the template's `TimeWindowLength` slots. */
    const buffer: array<int>
    /** `m_head`: where the oldest input is. */
    var head: nat
    /** `m_cumulative`. */
    var cumulative: int
    /** The `integral_limit` parameter. */
    var integralLimit: int
    /** The `integral_limit_time_window` parameter. */
    var windowLength: nat

    /** The running sum is the sum of the buffer. */
    ghost predicate Consistent()
      reads this, buffer
    {
      cumulative == Sum(buffer[..])
    }

    constructor(timeWindowLength: nat)
      ensures buffer.Length == timeWindowLength && fresh(buffer)
      ensures forall k :: 0 <= k < buffer.Length ==> buffer[k] == 0
      ensures head == 0 && cumulative == 0 && integralLimit == 0 && windowLength == 0
      ensures Consistent()
    {
      buffer := new int[timeWindowLength](_ => 0);
      head, cumulative, integralLimit, windowLength := 0, 0, 0, 0;
      new;
      SumZeros(buffer[..]);
    }

    /** The limit parameter has no bounds. */
    method SetIntegralLimit(value: int)
      modifies this`integralLimit
      ensures integralLimit == value
    {
      integralLimit := value;
    }

    /** The window-length parameter is bounded by `[0, TimeWindowLength]`; a value outside is refused. */
    method SetWindowLength(value: nat) returns (accepted: bool)
      modifies this`windowLength
      ensures accepted <==> value <= buffer.Length
      ensures windowLength == if accepted then value else old(windowLength)
    {
      accepted := value <= buffer.Length;
      if accepted {
        windowLength := value;
      }
    }

    /**
     * `limit`: the input, or the largest value keeping the windowed sum at
     * the limit, is stored and returned; afterwards the sum never exceeds
     * the limit and still matches the buffer.
     */
    method Limit(input: int) returns (output: int)
      requires head < buffer.Length
      modifies this`cumulative, this`head, buffer
      ensures output == input <==> old(cumulative) - old(buffer[head]) + input <= integralLimit
      ensures output <= input
      ensures output != input ==> cumulative == integralLimit
      ensures cumulative <= integralLimit
      ensures cumulative == old(cumulative) - old(buffer[head]) + output
      ensures buffer[..] == old(buffer[..])[old(head) := output] && head == Wrap(old(head), windowLength)
      ensures old(Consistent()) ==> Consistent()
    {
      output := input;
      if cumulative + output - buffer[head] > integralLimit {
        output := integralLimit - (cumulative - buffer[head]);
      }
      cumulative := cumulative + (output - buffer[head]);
      SumUpdate(buffer[..], head, output);
      buffer[head] := output;
      head := Wrap(head, windowLength);
    }

    /**
     * `limitNonRT`: the input is always stored; the warning is raised iff the
     * updated sum reaches the limit.
     */
    method LimitNonRT(input: int) returns (warning: Option<Overflow>)
      requires head < buffer.Length
      modifies this`cumulative, this`head, buffer
      ensures cumulative == old(cumulative) - old(buffer[head]) + input
      ensures buffer[..] == old(buffer[..])[old(head) := input] && head == Wrap(old(head), windowLength)
      ensures warning.Some? <==> cumulative >= integralLimit
      ensures warning.Some? ==> warning.value == Overflow(input, integralLimit)
      ensures old(Consistent()) ==> Consistent()
    {
      cumulative := cumulative + (input - buffer[head]);
      SumUpdate(buffer[..], head, input);
      buffer[head] := input;
      head := Wrap(head, windowLength);
      if cumulative >= integralLimit {
        return Some(Overflow(input, integralLimit));
      }
      return None;
    }

    /** `reset`: head, sum and buffer back to zero. */
    method Reset()
      modifies this`head, this`cumulative, buffer
      ensures head == 0 && cumulative == 0
      ensures forall k :: 0 <= k < buffer.Length ==> buffer[k] == 0
      ensures Consistent()
    {
      head := 0;
      cumulative := 0;
      ZeroFill(buffer);
    }
  }

  /**
   * Window 4, limit 100: five inputs of 10 raise no warning (the fifth
   * replaces the first), and 71 then raises one with the sum at 101.
   */
  method WrapAroundScenario() returns (quiet: bool, last: Option<Overflow>, total: int)
    ensures quiet && last == Some(Overflow(71, 100)) && total == 101
  {
    var l := new LimitIntegral(16);
    l.SetIntegralLimit(100);
    var ok := l.SetWindowLength(4);
    var w1 := l.LimitNonRT(10);
    var w2 := l.LimitNonRT(10);
    var w3 := l.LimitNonRT(10);
    var w4 := l.LimitNonRT(10);
    var w5 := l.LimitNonRT(10);
    quiet := w1.None? && w2.None? && w3.None? && w4.None? && w5.None?;
    last := l.LimitNonRT(71);
    total := l.cumulative;
  }

  /**
   * With the default window length of zero, two stored inputs leave the head
   * of a two-slot buffer at 2, past its last slot: the next `limit` or
   * `limitNonRT` reads and writes `m_integral_buffer[2]`.
   */
  method ZeroWindowOverrun() returns (head: nat, length: nat)
    ensures head == length == 2
  {
    var l := new LimitIntegral(2);
    var w1 := l.LimitNonRT(1);
    var w2 := l.LimitNonRT(1);
    head, length := l.head, l.buffer.Length;
  }
}
