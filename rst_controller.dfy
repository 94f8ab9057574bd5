// The RST controller's history bookkeeping: three circular histories
// (measurements, references, actuations) indexed by a head, the readiness
// flag, and the R, S and T coefficient arrays. Doubles are modelled as reals;
// controllers of length 3 use a specialised implementation that shifts the
// histories so that index 0 holds the newest entry.
module RstController {
  /** The head after a `control` step: it advances modulo the length. */
  function Next(head: nat, length: nat): (h: nat)
    ensures head < length ==> h < length
  {
    if head + 1 == length then 0 else head + 1
  }

  /** The slot written last, one behind the head (the last slot when the head is 0). */
  function Prev(head: nat, length: nat): (h: nat)
    requires length >= 1
    ensures head <= length ==> h < length
  {
    if head == 0 then length - 1 else head - 1
  }

  lemma PrevOfNext(head: nat, length: nat)
    requires head < length
    ensures Prev(Next(head, length), length) == head
  {
  }

  /** The slot `i` places behind `head` in a circular history of `length` slots. */
  function Back(head: nat, i: nat, length: nat): (k: nat)
    requires head < length && 1 <= i < length
    ensures k < length && k != head
  {
    if head < i then head + length - i else head - i
  }

  /** `sum of a[i] * x[head - i]` for `i` in `[1, n)`, going back through the history. */
  function Conv(a: seq<real>, x: seq<real>, head: nat, n: nat): real
    requires head < |x| && 1 <= n <= |x| && |a| == |x|
  {
    if n == 1 then 0.0 else Conv(a, x, head, n - 1) + a[n - 1] * x[Back(head, n - 1, |x|)]
  }

  /** A history that is zero away from `head` contributes nothing. */
  lemma {:induction false} ConvOfRest(a: seq<real>, x: seq<real>, head: nat, n: nat)
    requires head < |x| && 1 <= n <= |x| && |a| == |x|
    requires forall k :: 0 <= k < |x| && k != head ==> x[k] == 0.0
    ensures Conv(a, x, head, n) == 0.0
  {
    if n > 1 {
      ConvOfRest(a, x, head, n - 1);
    }
  }

  /** Only the slots behind the head enter the sum, so the head slot can be overwritten. */
  lemma {:induction false} ConvIgnoresHead(a: seq<real>, x: seq<real>, head: nat, n: nat, v: real)
    requires head < |x| && 1 <= n <= |x| && |a| == |x|
    ensures Conv(a, x[head := v], head, n) == Conv(a, x, head, n)
  {
    if n > 1 {
      ConvIgnoresHead(a, x, head, n - 1, v);
    }
  }

  /**
   * The actuation of the generic `control`, from the histories with the new
   * reference and measurement already at `head`: the current terms plus the
   * weighted past, divided by `s[0]`.
   */
  function Actuation(r: seq<real>, s: seq<real>, t: seq<real>, refs: seq<real>, meas: seq<real>, acts: seq<real>, head: nat): real
    requires |r| == |s| == |t| == |refs| == |meas| == |acts| && head < |refs|
    requires s[0] != 0.0
  {
    (t[0] * refs[head] - r[0] * meas[head] + Conv(t, refs, head, |refs|) - Conv(r, meas, head, |refs|) - Conv(s, acts, head, |refs|)) / s[0]
  }

  /** From zero histories the first actuation only sees the current reference and measurement. */
  lemma ActuationFromRest(r: seq<real>, s: seq<real>, t: seq<real>, refs: seq<real>, meas: seq<real>, acts: seq<real>, head: nat)
    requires |r| == |s| == |t| == |refs| == |meas| == |acts| && head < |refs|
    requires s[0] != 0.0
    requires forall k :: 0 <= k < |refs| && k != head ==> refs[k] == 0.0 && meas[k] == 0.0 && acts[k] == 0.0
    ensures Actuation(r, s, t, refs, meas, acts, head) == (t[0] * refs[head] - r[0] * meas[head]) / s[0]
  {
    ConvOfRest(t, refs, head, |refs|);
    ConvOfRest(r, meas, head, |refs|);
    ConvOfRest(s, acts, head, |refs|);
  }

  /**
   * The actuation of the length-3 `control`, from the shifted reference and
   * measurement histories (newest at index 0) and the actuations before the shift.
   */
  function Actuation3(r: seq<real>, s: seq<real>, t: seq<real>, refs: seq<real>, meas: seq<real>, acts: seq<real>): real
    requires |r| == |s| == |t| == |refs| == |meas| == |acts| == 3
    requires s[0] != 0.0
  {
    (t[0] * refs[0] - r[0] * meas[0] + t[1] * refs[1] - r[1] * meas[1] + t[2] * refs[2] - r[2] * meas[2]
     - (s[1] * acts[0] + s[2] * acts[1])) / s[0]
  }

  /** The reference that reproduces an imposed actuation, as `updateReferenceOpenLoop` back-computes it. */
  function OpenLoopReference(r: seq<real>, s: seq<real>, t: seq<real>, refs: seq<real>, meas: seq<real>, acts: seq<real>, prev: nat, actuation: real): real
    requires |r| == |s| == |t| == |refs| == |meas| == |acts| && prev < |refs|
    requires t[0] != 0.0
  {
    (s[0] * actuation + r[0] * meas[prev] + Conv(s, acts, prev, |refs|) + Conv(r, meas, prev, |refs|) - Conv(t, refs, prev, |refs|)) / t[0]
  }

  /** `updateReferenceOpenLoop` of the length-3 controller, whose index 0 is the newest slot. */
  function OpenLoopReference3(r: seq<real>, s: seq<real>, t: seq<real>, refs: seq<real>, meas: seq<real>, acts: seq<real>, actuation: real): real
    requires |r| == |s| == |t| == |refs| == |meas| == |acts| == 3
    requires t[0] != 0.0
  {
    (s[0] * actuation + r[0] * meas[0] + s[1] * acts[1] + r[1] * meas[1] - t[1] * refs[1]
     + s[2] * acts[2] + r[2] * meas[2] - t[2] * refs[2]) / t[0]
  }

  /** With the imposed actuation applied, the actuation formula gives it back from the back-computed reference. */
  lemma OpenLoopInverts(r: seq<real>, s: seq<real>, t: seq<real>, refs: seq<real>, meas: seq<real>, acts: seq<real>, prev: nat, actuation: real)
    requires |r| == |s| == |t| == |refs| == |meas| == |acts| && prev < |refs|
    requires t[0] != 0.0 && s[0] != 0.0
    ensures var ref := OpenLoopReference(r, s, t, refs, meas, acts, prev, actuation);
      Actuation(r, s, t, refs[prev := ref], meas, acts, prev) == actuation
  {
    var ref := OpenLoopReference(r, s, t, refs, meas, acts, prev, actuation);
    ConvIgnoresHead(t, refs, prev, |refs|, ref);
    var rest := Conv(s, acts, prev, |refs|) + Conv(r, meas, prev, |refs|) - Conv(t, refs, prev, |refs|);
    assert t[0] * ref == s[0] * actuation + r[0] * meas[prev] + rest;
  }

  /**
   * The length-3 back-computation inverts `control`: with the reference put
   * at index 0 and the actuations shifted as `control` shifts them, the
   * actuation formula gives back the imposed actuation.
   */
  lemma OpenLoopInverts3(r: seq<real>, s: seq<real>, t: seq<real>, refs: seq<real>, meas: seq<real>, acts: seq<real>, actuation: real)
    requires |r| == |s| == |t| == |refs| == |meas| == |acts| == 3
    requires t[0] != 0.0 && s[0] != 0.0
    ensures var ref := OpenLoopReference3(r, s, t, refs, meas, acts, actuation);
      Actuation3(r, s, t, refs[0 := ref], meas, acts[1..] + [0.0]) == actuation
  {
    var ref := OpenLoopReference3(r, s, t, refs, meas, acts, actuation);
    var shifted := acts[1..] + [0.0];
    assert shifted[0] == acts[1] && shifted[1] == acts[2];
    assert t[0] * ref == s[0] * actuation + r[0] * meas[0] + s[1] * acts[1] + r[1] * meas[1] - t[1] * refs[1]
      + s[2] * acts[2] + r[2] * meas[2] - t[2] * refs[2];
  }

  /** The head and readiness after `updateInputHistories`: ready once the head reaches `length - 1`. */
  function HistoryStep(head: nat, ready: bool, length: nat): (nat, bool) {
    if head + 1 == length - 1 then (0, true) else (head + 1, ready)
  }

  /** `n` calls of `updateInputHistories` from a reset controller. */
  function WarmUp(n: nat, length: nat): (nat, bool) {
    if n == 0 then (0, false) else var p := WarmUp(n - 1, length); HistoryStep(p.0, p.1, length)
  }

  /** The controller becomes ready after exactly `length - 1` history updates. */
  lemma {:induction false} ReadyAfterWarmUp(n: nat, length: nat)
    requires length >= 2 && n <= length - 1
    ensures WarmUp(n, length) == if n == length - 1 then (0, true) else (n, false)
  {
    if n > 0 {
      ReadyAfterWarmUp(n - 1, length);
    }
  }

  /** Shifts a three-slot history and puts `v` at index 0. */
  method ShiftIn(a: array<real>, v: real)
    requires a.Length == 3
    modifies a
    ensures a[..] == [v, old(a[0]), old(a[1])]
  {
    a[2] := a[1];
    a[1] := a[0];
    a[0] := v;
  }

  method ZeroFill(a: array<real>)
    modifies a
    ensures forall k :: 0 <= k < a.Length ==> a[k] == 0.0
  {
    for i := 0 to a.Length
      invariant forall k :: 0 <= k < i ==> a[k] == 0.0
    {
      a[i] := 0.0;
    }
  }

  class RSTController {
    /** The template's `ControllerLength`. */
    const length: nat
    /** `m_head`: the index of the oldest entry. */
    var head: nat
    /** `m_history_ready`. */
    var ready: bool
    var r: seq<real>
    var s: seq<real>
    var t: seq<real>
    const measurements: array<real>
    const references: array<real>
    const actuations: array<real>

    ghost predicate Valid()
      reads this
    {
      length >= 1 && |r| == |s| == |t| == length
      && measurements.Length == references.Length == actuations.Length == length
      && measurements != references && references != actuations && measurements != actuations
    }

    /** A new controller: zero coefficients, zero histories, not ready. */
    constructor(length: nat)
      requires length >= 1
      ensures Valid() && this.length == length
      ensures fresh(measurements) && fresh(references) && fresh(actuations)
      ensures head == 0 && !ready
      ensures r == s == t == seq(length, _ => 0.0)
      ensures measurements[..] == references[..] == actuations[..] == seq(length, _ => 0.0)
    {
      this.length := length;
      head, ready := 0, false;
      r, s, t := seq(length, _ => 0.0), seq(length, _ => 0.0), seq(length, _ => 0.0);
      measurements := new real[length](_ => 0.0);
      references := new real[length](_ => 0.0);
      actuations := new real[length](_ => 0.0);
    }

    predicate IsReady()
      reads this
    {
      ready
    }

    function GetR(): seq<real>
      reads this
    {
      r
    }

    function GetS(): seq<real>
      reads this
    {
      s
    }

    function GetT(): seq<real>
      reads this
    {
      t
    }

    /** `setR`: the whole array is replaced; nothing else changes. */
    method SetR(value: seq<real>)
      requires Valid() && |value| == length
      modifies this`r
      ensures Valid() && GetR() == value
    {
      r := value;
    }

    method SetS(value: seq<real>)
      requires Valid() && |value| == length
      modifies this`s
      ensures Valid() && GetS() == value
    {
      s := value;
    }

    method SetT(value: seq<real>)
      requires Valid() && |value| == length
      modifies this`t
      ensures Valid() && GetT() == value
    {
      t := value;
    }

    /**
     * `updateInputHistories`: the reference and measurement go to the head
     * slot (or, for length 3, are shifted in at index 0); the head advances
     * and the controller becomes ready when it reaches `length - 1`.
     */
    method UpdateInputHistories(reference: real, measurement: real)
      requires Valid() && head < length
      modifies this`head, this`ready, references, measurements
      ensures Valid()
      ensures (head, ready) == HistoryStep(old(head), old(ready), length)
      ensures length == 3 ==>
        && references[..] == [reference, old(references[0]), old(references[1])]
        && measurements[..] == [measurement, old(measurements[0]), old(measurements[1])]
      ensures length != 3 ==>
        && references[..] == old(references[..])[old(head) := reference]
        && measurements[..] == old(measurements[..])[old(head) := measurement]
    {
      if length == 3 {
        ShiftIn(references, reference);
        ShiftIn(measurements, measurement);
      } else {
        references[head] := reference;
        measurements[head] := measurement;
      }
      head := head + 1;
      if head == length - 1 {
        ready := true;
        head := 0;
      }
    }

    /** The loop of the generic `control` over the past entries. */
    method PastTerms() returns (sum: real)
      requires Valid() && head < length
      ensures sum == Conv(t, references[..], head, length) - Conv(r, measurements[..], head, length) - Conv(s, actuations[..], head, length)
    {
      sum := 0.0;
      for index := 1 to length
        invariant sum == Conv(t, references[..], head, index) - Conv(r, measurements[..], head, index) - Conv(s, actuations[..], head, index)
      {
        var k := if head < index then head + length - index else head - index;
        sum := sum + t[index] * references[k] - r[index] * measurements[k] - s[index] * actuations[k];
      }
    }

    /** `control` of the length-3 controller: all three histories shift by one and the head stays. */
    method ControlShifted(reference: real, measurement: real) returns (actuation: real)
      requires Valid() && length == 3 && s[0] != 0.0
      modifies references, measurements, actuations
      ensures references[..] == [reference, old(references[0]), old(references[1])]
      ensures measurements[..] == [measurement, old(measurements[0]), old(measurements[1])]
      ensures actuation == Actuation3(r, s, t, references[..], measurements[..], old(actuations[..]))
      ensures actuations[..] == [actuation, old(actuations[0]), old(actuations[1])]
    {
      ghost var acts := actuations[..];
      ShiftIn(references, reference);
      ShiftIn(measurements, measurement);
      actuation := (t[0] * reference - r[0] * measurement + t[1] * references[1]
                    - r[1] * measurements[1] + t[2] * references[2] - r[2] * measurements[2]
                    - (s[1] * actuations[0] + s[2] * actuations[1])) / s[0];
      assert actuations[..] == acts;
      ShiftIn(actuations, actuation);
    }

    /** `control` of the generic controller, over the circular histories. */
    method ControlCircular(reference: real, measurement: real) returns (actuation: real)
      requires Valid() && head < length && s[0] != 0.0
      modifies this`head, references, measurements, actuations
      ensures references[..] == old(references[..])[old(head) := reference]
      ensures measurements[..] == old(measurements[..])[old(head) := measurement]
      ensures actuation == Actuation(r, s, t, references[..], measurements[..], old(actuations[..]), old(head))
      ensures actuations[..] == old(actuations[..])[old(head) := actuation]
      ensures head == Next(old(head), length)
    {
      references[head] := reference;
      measurements[head] := measurement;
      var past := PastTerms();
      actuation := (t[0] * references[head] - r[0] * measurements[head] + past) / s[0];
      actuations[head] := actuation;
      head := Next(head, length);
    }

    /**
     * `control`: the generic controller writes the inputs at the head,
     * stores the actuation of `Actuation` there and advances the head modulo
     * the length; the length-3 controller shifts all three histories and
     * keeps its head.
     */
    method Control(reference: real, measurement: real) returns (actuation: real)
      requires Valid() && head < length && s[0] != 0.0
      modifies this`head, references, measurements, actuations
      ensures Valid()
      ensures length == 3 ==>
        && references[..] == [reference, old(references[0]), old(references[1])]
        && measurements[..] == [measurement, old(measurements[0]), old(measurements[1])]
        && actuation == Actuation3(r, s, t, references[..], measurements[..], old(actuations[..]))
        && actuations[..] == [actuation, old(actuations[0]), old(actuations[1])]
        && head == old(head)
      ensures length != 3 ==>
        && references[..] == old(references[..])[old(head) := reference]
        && measurements[..] == old(measurements[..])[old(head) := measurement]
        && actuation == Actuation(r, s, t, references[..], measurements[..], old(actuations[..]), old(head))
        && actuations[..] == old(actuations[..])[old(head) := actuation]
        && head == Next(old(head), length)
    {
      if length == 3 {
        actuation := ControlShifted(reference, measurement);
      } else {
        actuation := ControlCircular(reference, measurement);
      }
    }

    /**
     * `updateReference`: the most recently written slot takes the imposed
     * actuation, and its reference moves by the actuation change scaled by
     * `s[0] / t[0]`; the measurements are untouched.
     */
    method UpdateReference(updated: real)
      requires Valid() && head < length && t[0] != 0.0
      modifies references, actuations
      ensures var k := if length == 3 then 0 else Prev(old(head), length);
        && actuations[..] == old(actuations[..])[k := updated]
        && references[..] == old(references[..])[k := old(references[k]) + (updated - old(actuations[k])) * s[0] / t[0]]
    {
      var index := if length == 3 then 0 else Prev(head, length);
      var moved := references[index] + (updated - actuations[index]) * s[0] / t[0];
      actuations[index] := updated;
      assert references[..] == old(references[..]);
      references[index] := moved;
      assert actuations[..] == old(actuations[..])[index := updated];
    }

    /** The loop of the generic `updateReferenceOpenLoop` over the past entries. */
    method OpenLoopPastTerms(prev: nat) returns (sum: real)
      requires Valid() && prev < length
      ensures sum == Conv(s, actuations[..], prev, length) + Conv(r, measurements[..], prev, length) - Conv(t, references[..], prev, length)
    {
      sum := 0.0;
      for index := 1 to length
        invariant sum == Conv(s, actuations[..], prev, index) + Conv(r, measurements[..], prev, index) - Conv(t, references[..], prev, index)
      {
        var k := if prev < index then prev + length - index else prev - index;
        sum := sum + s[index] * actuations[k] + r[index] * measurements[k] - t[index] * references[k];
      }
    }

    /**
     * `updateReferenceOpenLoop`: the most recently written slot takes the
     * imposed actuation and the reference that reproduces it.
     */
    method UpdateReferenceOpenLoop(updated: real)
      requires Valid() && head < length && t[0] != 0.0
      modifies references, actuations
      ensures length == 3 ==>
        && actuations[..] == old(actuations[..])[0 := updated]
        && references[..] == old(references[..])[0 := OpenLoopReference3(r, s, t, old(references[..]), old(measurements[..]), old(actuations[..]), updated)]
      ensures length != 3 ==> var k := Prev(old(head), length);
        && actuations[..] == old(actuations[..])[k := updated]
        && references[..] == old(references[..])[k := OpenLoopReference(r, s, t, old(references[..]), old(measurements[..]), actuations[..], k, updated)]
    {
      if length == 3 {
        var reference := OpenLoopReference3(r, s, t, references[..], measurements[..], actuations[..], updated);
        actuations[0] := updated;
        references[0] := reference;
      } else {
        var prev := Prev(head, length);
        actuations[prev] := updated;
        var past := OpenLoopPastTerms(prev);
        var reference := (s[0] * updated + r[0] * measurements[prev] + past) / t[0];
        assert references[..] == old(references[..]) && measurements[..] == old(measurements[..]);
        assert reference == OpenLoopReference(r, s, t, references[..], measurements[..], actuations[..], prev, updated);
        references[prev] := reference;
      }
    }

    /** `reset`: all histories zero, head 0, not ready; the coefficients stay. */
    method Reset()
      requires Valid()
      modifies this`head, this`ready, measurements, references, actuations
      ensures Valid() && head == 0 && !ready
      ensures forall k :: 0 <= k < length ==> measurements[k] == 0.0 && references[k] == 0.0 && actuations[k] == 0.0
    {
      ZeroFill(measurements);
      ZeroFill(references);
      ZeroFill(actuations);
      head := 0;
      ready := false;
    }
  }

  /**
   * A length-3 controller with R = {0.1, 0.2, 0.3}, S = {0.5, 0.6, 0.7},
   * T = {0.15, 0.25, 0.35}: the first actuation is `(t0 ref - r0 meas) / s0`
   * and each history holds the new entry followed by zeros; imposing a
   * clipped actuation then moves the newest reference by the scaled change.
   */
  method FirstActuationScenario(reference: real, measurement: real, clip: real)
    returns (actuation: real, refs: seq<real>, meas: seq<real>, acts: seq<real>)
    ensures actuation == (0.15 * reference - 0.1 * measurement) / 0.5
    ensures meas == [measurement, 0.0, 0.0]
    ensures acts == [actuation - clip, 0.0, 0.0]
    ensures refs == [reference + (actuation - clip - actuation) * 0.5 / 0.15, 0.0, 0.0]
  {
    var c := new RSTController(3);
    c.SetR([0.1, 0.2, 0.3]);
    c.SetS([0.5, 0.6, 0.7]);
    c.SetT([0.15, 0.25, 0.35]);
    actuation := c.Control(reference, measurement);
    c.UpdateReference(actuation - clip);
    refs, meas, acts := c.references[..], c.measurements[..], c.actuations[..];
  }

  /** A length-5 controller is ready after its fourth history update and not before. */
  method WarmUpScenario() returns (before: seq<bool>, after: bool)
    ensures before == [false, false, false, false] && after
  {
    var c := new RSTController(5);
    before := [];
    for i := 0 to 4
      invariant c.Valid() && c.length == 5 && |before| == i
      invariant (c.head, c.ready) == WarmUp(i, 5)
      invariant forall k :: 0 <= k < i ==> !before[k]
    {
      ReadyAfterWarmUp(i, 5);
      before := before + [c.IsReady()];
      c.UpdateInputHistories(i as real + 1.0, i as real);
    }
    ReadyAfterWarmUp(4, 5);
    after := c.IsReady();
  }
}
