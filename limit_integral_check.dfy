// The accepting/rejecting integral limit: a sliding window of the last
// inputs, a running sum over it, and a threshold `integral_limit`. The
// element type is an integer type, taken as unbounded.
module LimitIntegralCheck {
  import opened WindowSum

  /** The head after an accepted input: it wraps only when it lands exactly on the window length. */
  function Advance(head: nat, windowLength: nat): (h: nat)
    ensures head < windowLength ==> h < windowLength
    ensures windowLength <= head ==> h == head + 1
  {
    if head + 1 == windowLength then 0 else head + 1
  }

  /** The head after `k` accepted inputs, the window length unchanged. */
  function AdvanceTimes(head: nat, windowLength: nat, k: nat): nat
    decreases k
  {
    if k == 0 then head else AdvanceTimes(Advance(head, windowLength), windowLength, k - 1)
  }

  /**
   * A head at or past the window length (the default window of zero, or a
   * window shrunk below the head) never wraps: it moves one slot per
   * accepted input, past the end of the buffer.
   */
  lemma {:induction false} HeadRunsOff(head: nat, windowLength: nat, k: nat)
    requires windowLength <= head
    ensures AdvanceTimes(head, windowLength, k) == head + k
    decreases k
  {
    if k > 0 {
      HeadRunsOff(head + 1, windowLength, k - 1);
    }
  }

  /** Inside a window no longer than the buffer, the intended head is the source's. */
  lemma IntendedHeadAgrees(head: nat, windowLength: nat, bufferLength: nat)
    requires head < windowLength <= bufferLength
    ensures IntendedHead(head, windowLength, bufferLength) == Advance(head, windowLength)
  {
  }

  class LimitIntegral {
    /** `m_integral_buffer`, of the template's `time_window_length` slots. */
    const buffer: array<int>
    /** `m_head`: where the oldest input is. */
    var head: nat
    /** `m_cumulative`. */
    var cumulative: int
    /** The `integral_limit` parameter. */
    var integralLimit: int
    /** The `integral_limit_time_window` parameter. */
    var windowLength: nat

    /** The running sum is the sum of the buffer. */
    ghost predicate Consistent()
      reads this, buffer
    {
      cumulative == Sum(buffer[..])
    }

    constructor(timeWindowLength: nat)
      ensures buffer.Length == timeWindowLength && fresh(buffer)
      ensures forall k :: 0 <= k < buffer.Length ==> buffer[k] == 0
      ensures head == 0 && cumulative == 0 && integralLimit == 0 && windowLength == 0
      ensures Consistent()
    {
      buffer := new int[timeWindowLength](_ => 0);
      head, cumulative, integralLimit, windowLength := 0, 0, 0, 0;
      new;
      SumZeros(buffer[..]);
    }

    /** The limit parameter has no bounds. */
    method SetIntegralLimit(value: int)
      modifies this`integralLimit
      ensures integralLimit == value
    {
      integralLimit := value;
    }

    /** The window-length parameter is bounded by `[0, time_window_length]`; a value outside is refused. */
    method SetWindowLength(value: nat) returns (accepted: bool)
      modifies this`windowLength
      ensures accepted <==> value <= buffer.Length
      ensures windowLength == if accepted then value else old(windowLength)
    {
      accepted := value <= buffer.Length;
      if accepted {
        windowLength := value;
      }
    }

    /**
     * `limit`: the oldest input leaves the running sum and the new one enters
     * it; the input is accepted iff the sum stays within the limit, and only
     * an accepted input is stored. A rejected input stays in the sum, so the
     * sum then no longer matches the buffer.
     */
    method Limit(input: int) returns (accepted: bool)
      requires head < buffer.Length
      modifies this`cumulative, this`head, buffer
      ensures cumulative == old(cumulative) + input - old(buffer[head])
      ensures accepted <==> cumulative <= integralLimit
      ensures accepted ==> buffer[..] == old(buffer[..])[old(head) := input] && head == Advance(old(head), windowLength)
      ensures !accepted ==> buffer[..] == old(buffer[..]) && head == old(head)
      ensures old(Consistent()) ==> (Consistent() <==> accepted || input == buffer[head])
    {
      cumulative := cumulative + input - buffer[head];
      if cumulative > integralLimit {
        return false;
      }
      SumUpdate(buffer[..], head, input);
      buffer[head] := input;
      head := Advance(head, windowLength);
      return true;
    }

    /**
     * The evidently intended `limit`: the sum is only updated when the input
     * is accepted, so the sum always matches the buffer, and the head is
     * brought back before it leaves the buffer.
     */
    method LimitKeepingSum(input: int) returns (accepted: bool)
      requires head < buffer.Length
      modifies this`cumulative, this`head, buffer
      ensures accepted <==> old(cumulative) + input - old(buffer[head]) <= integralLimit
      ensures accepted ==> cumulative == old(cumulative) + input - old(buffer[head])
      ensures accepted ==> buffer[..] == old(buffer[..])[old(head) := input] && head == IntendedHead(old(head), windowLength, buffer.Length)
      ensures !accepted ==> cumulative == old(cumulative) && buffer[..] == old(buffer[..]) && head == old(head)
      ensures head < buffer.Length
      ensures old(Consistent()) ==> Consistent()
    {
      var candidate := cumulative + input - buffer[head];
      if candidate > integralLimit {
        return false;
      }
      SumUpdate(buffer[..], head, input);
      cumulative := candidate;
      buffer[head] := input;
      head := IntendedHead(head, windowLength, buffer.Length);
      return true;
    }

    /** `reset`: head, sum and buffer back to zero. */
    method Reset()
      modifies this`head, this`cumulative, buffer
      ensures head == 0 && cumulative == 0
      ensures forall k :: 0 <= k < buffer.Length ==> buffer[k] == 0
      ensures Consistent()
    {
      head := 0;
      cumulative := 0;
      ZeroFill(buffer);
    }
  }

  /**
   * Window 2, limit 5: after 10 is rejected, 1 is rejected as well although
   * the window is still empty.
   */
  method RejectionPoisonsSum() returns (first: bool, second: bool, windowSum: int)
    ensures !first && !second && windowSum == 0
  {
    var l := new LimitIntegral(2);
    l.SetIntegralLimit(5);
    var ok := l.SetWindowLength(2);
    first := l.Limit(10);
    second := l.Limit(1);
    windowSum := Sum(l.buffer[..]);
    SumZeros(l.buffer[..]);
  }

  /** The same inputs with the sum kept: 10 is rejected and 1 accepted. */
  method KeptSumAcceptsNext() returns (first: bool, second: bool, windowSum: int)
    ensures !first && second && windowSum == 1
  {
    var l := new LimitIntegral(2);
    l.SetIntegralLimit(5);
    var ok := l.SetWindowLength(2);
    first := l.LimitKeepingSum(10);
    second := l.LimitKeepingSum(1);
    windowSum := Sum(l.buffer[..]);
  }

  /**
   * With the default window length of zero, two accepted inputs leave the
   * head of a two-slot buffer at 2, past its last slot: the next `limit`
   * reads and writes `m_integral_buffer[2]`.
   */
  method ZeroWindowOverrun() returns (first: bool, second: bool, head: nat, length: nat)
    ensures first && second && head == length == 2
  {
    var l := new LimitIntegral(2);
    l.SetIntegralLimit(100);
    first := l.Limit(1);
    second := l.Limit(1);
    head, length := l.head, l.buffer.Length;
  }

  /** The same inputs with the intended head: it wraps to 0 and stays in the buffer. */
  method ZeroWindowWraps() returns (first: bool, second: bool, head: nat)
    ensures first && second && head == 0
  {
    var l := new LimitIntegral(2);
    l.SetIntegralLimit(100);
    first := l.LimitKeepingSum(1);
    second := l.LimitKeepingSum(1);
    head := l.head;
  }
}
