// The range limit: clamps an input into `[min, max]`, except that an input
// strictly inside a defined dead zone is moved to the nearer edge of the
// zone. The element type is an integer type, taken as unbounded.
module LimitRange {
  import opened Wrappers
  import opened Arith

  /** The two warnings of `verifyParameters`. */
  datatype RangeWarning = DeadZoneInverted | LimitsInverted

  function Message(w: RangeWarning): string {
    match w
    case DeadZoneInverted => "Upper edge of the dead_zone is below the lower edge.\n"
    case LimitsInverted => "Attempted to set the lower limit below the upper limit.\n"
  }

  /** The edge of the zone nearer to the input; the lower edge on a tie. */
  function NearestEdge(input: int, lowEdge: int, highEdge: int): (r: int)
    ensures r == lowEdge || r == highEdge
    ensures Abs(r - input) <= Abs(lowEdge - input) && Abs(r - input) <= Abs(highEdge - input)
  {
    if Abs(lowEdge - input) > Abs(highEdge - input) then highEdge else lowEdge
  }

  /** For unsigned types the edges are compared by differences; inside the zone that picks the same edge. */
  lemma UnsignedEdgeAgrees(input: int, lowEdge: int, highEdge: int)
    requires lowEdge < input < highEdge
    ensures (if input - lowEdge > highEdge - input then highEdge else lowEdge) == NearestEdge(input, lowEdge, highEdge)
  {
  }

  class LimitRange {
    /** The `lower_threshold` parameter. */
    var min: int
    /** The `upper_threshold` parameter. */
    var max: int
    /** The two edges of the `dead_zone` parameter. */
    var deadZone: (int, int)
    /** `m_dead_zone_defined`, as last set by `VerifyParameters`. */
    var deadZoneDefined: bool

    constructor()
      ensures min == 0 && max == 0 && deadZone == (0, 0) && !deadZoneDefined
    {
      min, max, deadZone, deadZoneDefined := 0, 0, (0, 0), false;
    }

    predicate InDeadZone(input: int)
      reads this
    {
      deadZoneDefined && deadZone.0 < input < deadZone.1
    }

    /**
     * `limit`: inside the dead zone the nearer edge (the lower one on a tie),
     * returned without clamping; elsewhere `min` below `min`, `max` above
     * `max`, and the input itself otherwise, bounds included.
     */
    function Limit(input: int): (r: int)
      reads this
    {
      if InDeadZone(input) then NearestEdge(input, deadZone.0, deadZone.1)
      else if input < min then min
      else if input > max then max
      else input
    }

    /** Outside the dead zone the result is the input clamped into `[min, max]`. */
    lemma LimitClamps(input: int)
      requires !InDeadZone(input) && min <= max
      ensures min <= Limit(input) <= max
      ensures min <= input <= max ==> Limit(input) == input
      ensures input < min ==> Limit(input) == min
      ensures input > max ==> Limit(input) == max
    {
    }

    /** Inside the dead zone the result is the edge at least as close as the other one, with ties going down. */
    lemma LimitMovesToEdge(input: int)
      requires InDeadZone(input)
      ensures Limit(input) == deadZone.0 || Limit(input) == deadZone.1
      ensures Limit(input) == deadZone.0 <==> input - deadZone.0 <= deadZone.1 - input
    {
    }

    /** With the dead zone inside `[min, max]`, every result is in range and never strictly inside the zone. */
    lemma LimitAvoidsZone(input: int)
      requires min <= max && min <= deadZone.0 && deadZone.1 <= max
      ensures min <= Limit(input) <= max
      ensures deadZoneDefined ==> !(deadZone.0 < Limit(input) < deadZone.1)
    {
    }

    /**
     * `verifyParameters` on the values about to be committed: the zone is
     * defined iff its edges differ; an inverted zone, and then limits with
     * `min >= max`, are reported.
     */
    method VerifyParameters(pendingMin: int, pendingMax: int, pendingZone: (int, int)) returns (warning: Option<RangeWarning>)
      modifies this`deadZoneDefined
      ensures deadZoneDefined <==> pendingZone.0 != pendingZone.1
      ensures warning.None? <==> pendingZone.0 <= pendingZone.1 && pendingMin < pendingMax
      ensures warning == Some(DeadZoneInverted) <==> pendingZone.0 > pendingZone.1
      ensures warning == Some(LimitsInverted) <==> pendingZone.0 <= pendingZone.1 && pendingMin >= pendingMax
    {
      deadZoneDefined := pendingZone.0 != pendingZone.1;
      if deadZoneDefined && pendingZone.0 > pendingZone.1 {
        return Some(DeadZoneInverted);
      }
      if pendingMin >= pendingMax {
        return Some(LimitsInverted);
      }
      return None;
    }
  }
}
