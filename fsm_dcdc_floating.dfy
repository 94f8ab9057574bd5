// The Vloop state machine of a floating DCDC converter
// (`DCDCFloatingStateMachine`), built on the generic engine. The guards read
// the converter through `Inputs`; those that consult `getState()` receive the
// state whose transitions are being evaluated.
module FsmDcdcFloating {
  import opened Wrappers
  import opened Fsm
  import P = PopsStates

  datatype FloatingStates = FO | FS | OF | SP | ST | BK | CH | CD | DT

  // ------------------------------------------------------------ guards

  function ToFaultOff(s: FloatingStates, i: P.Inputs): (r: TransitionResult<FloatingStates>)
    ensures r.Transition? ==> r == To(FO)
  {
    if i.vdc < i.limits.vdcMin then To(FO) else NoTransition
  }

  function ToFaultStopping(s: FloatingStates, i: P.Inputs): (r: TransitionResult<FloatingStates>)
    ensures r.Transition? ==> r == To(FS)
  {
    if P.CommonFault(i) then To(FS) else NoTransition
  }

  function ToOff(s: FloatingStates, i: P.Inputs): (r: TransitionResult<FloatingStates>)
    ensures r.Transition? ==> r == To(OF)
  {
    if i.iLoopState == P.ILoopStates.OF then To(OF) else NoTransition
  }

  function ToStopping(s: FloatingStates, i: P.Inputs): (r: TransitionResult<FloatingStates>)
    ensures r.Transition? ==> (r == To(SP) || r == To(FS))
  {
    if i.iLoopState == P.ILoopStates.SP then To(SP)
    else if i.hmiRequestStop then (if s == CH || s == CD || s == DT then To(SP) else To(FS))
    else NoTransition
  }

  function ToStarting(s: FloatingStates, i: P.Inputs): (r: TransitionResult<FloatingStates>)
    ensures r.Transition? ==> r == To(ST)
  {
    if i.vsRunReceived then To(ST) else NoTransition
  }

  function ToBlocking(s: FloatingStates, i: P.Inputs): (r: TransitionResult<FloatingStates>)
    ensures r.Transition? ==> r == To(BK)
  {
    if i.outputsReady && i.vout < i.limits.voutThreshold then To(BK) else NoTransition
  }

  function ToCharging(s: FloatingStates, i: P.Inputs): (r: TransitionResult<FloatingStates>)
    ensures r.Transition? ==> r == To(CH)
  {
    if i.unblockReceived then To(CH) else NoTransition
  }

  function ToCharged(s: FloatingStates, i: P.Inputs): (r: TransitionResult<FloatingStates>)
    ensures r.Transition? ==> r == To(CD)
  {
    if s == CH && i.vdc >= i.limits.vdcFloatingsCharged then To(CD)
    else if s == DT && i.vloopMask == 0 then To(CD)
    else NoTransition
  }

  function ToDirect(s: FloatingStates, i: P.Inputs): (r: TransitionResult<FloatingStates>)
    ensures r.Transition? ==> r == To(DT)
  {
    if i.vloopMask == 1 then To(DT) else NoTransition
  }

  /** The entry each `addState` call of the constructor registers, transitions in their registration order. */
  function Entry(s: FloatingStates): StateObj<FloatingStates, P.Inputs> {
    match s
    case FO => StateObj(Some(P.Unchanged), [ToOff])
    case FS => StateObj(Some(P.Unchanged), [ToFaultOff])
    case OF => StateObj(Some(P.Unchanged), [ToFaultStopping, ToStarting])
    case SP => StateObj(Some(P.Unchanged), [ToFaultStopping, ToOff])
    case ST => StateObj(Some(P.Unchanged), [ToFaultStopping, ToStopping, ToBlocking])
    case BK => StateObj(Some(P.Unchanged), [ToFaultStopping, ToStopping, ToCharging])
    case CH => StateObj(Some(P.Unchanged), [ToFaultStopping, ToStopping, ToCharged])
    case CD => StateObj(Some(P.Unchanged), [ToFaultStopping, ToStopping, ToDirect])
    case DT => StateObj(Some(P.Unchanged), [ToFaultStopping, ToStopping, ToCharged])
  }

  /** The states in the order the constructor registers them. */
  const Order: seq<FloatingStates> := [FO, FS, OF, SP, ST, BK, CH, CD, DT]

  /** The registered states after the constructor. */
  function Table(): (r: map<FloatingStates, StateObj<FloatingStates, P.Inputs>>)
    ensures forall s :: s in r && r[s] == Entry(s)
  {
    assert forall s :: s in Order by {
      forall s { Listed(s); }
    }
    Registered(Order, Entry)
  }

  /** One `update` of the machine in state `s`, with at most `fuel` cascaded passes. */
  function Step(s: FloatingStates, i: P.Inputs, fuel: nat): Machine<FloatingStates, P.Inputs> {
    Run(Machine(s, Table(), i), false, fuel)
  }

  /** Where the stop request leads: SP from CH, CD and DT, FS from the other states. */
  function StopTarget(s: FloatingStates): FloatingStates {
    if s in {CH, CD, DT} then SP else FS
  }

  /** The next state, state by state: a reference for what one `update` does. */
  function NextState(s: FloatingStates, i: P.Inputs): FloatingStates {
    var stop := i.iLoopState == P.ILoopStates.SP || i.hmiRequestStop;
    var stopTo := if i.iLoopState == P.ILoopStates.SP then SP else StopTarget(s);
    match s
    case FO => if i.iLoopState == P.ILoopStates.OF then OF else FO
    case FS => if i.vdc < i.limits.vdcMin then FO else FS
    case OF => if P.CommonFault(i) then FS else if i.vsRunReceived then ST else OF
    case SP => if P.CommonFault(i) then FS else if i.iLoopState == P.ILoopStates.OF then OF else SP
    case ST => if P.CommonFault(i) then FS else if stop then stopTo
      else if i.outputsReady && i.vout < i.limits.voutThreshold then BK else ST
    case BK => if P.CommonFault(i) then FS else if stop then stopTo else if i.unblockReceived then CH else BK
    case CH => if P.CommonFault(i) then FS else if stop then stopTo
      else if i.vdc >= i.limits.vdcFloatingsCharged then CD else CH
    case CD => if P.CommonFault(i) then FS else if stop then stopTo else if i.vloopMask == 1 then DT else CD
    case DT => if P.CommonFault(i) then FS else if stop then stopTo else if i.vloopMask == 0 then CD else DT
  }

  // ------------------------------------------------------------ the machine

  class DCDCFloatingStateMachine {
    const fsm: Engine<FloatingStates, P.Inputs>

    constructor(inputs: P.Inputs)
      ensures fresh(fsm) && !fsm.stateFirst
      ensures fsm.Snapshot() == Machine(FO, Table(), inputs)
    {
      fsm := new Engine(inputs, FO, false);
      new;
      fsm.AddAll(Order, Entry);
    }

    /** `update` on the converter's current readings. */
    method Update(inputs: P.Inputs)
      requires !fsm.stateFirst && fsm.states == Table()
      modifies fsm
      ensures fsm.state == NextState(old(fsm.state), inputs) && fsm.states == Table() && fsm.env == inputs
    {
      fsm.env := inputs;
      UpdateIsNextState(fsm.state, inputs, 0);
      fsm.Update(0);
    }

    function GetState(): FloatingStates
      reads this, fsm
    {
      fsm.state
    }
  }

  // ------------------------------------------------------------ properties

  /** The engine running the table computes the reference next state, whatever the fuel, and no guard requests a cascade. */
  lemma UpdateIsNextState(s: FloatingStates, i: P.Inputs, fuel: nat)
    ensures Step(s, i, fuel) == Machine(NextState(s, i), Table(), i)
  {
    EvaluatesToNextState(s, i);
    Listed(s);
    Listed(NextState(s, i));
    forall t | t in Order
      ensures Entry(t).stateFunc == Some(P.Unchanged)
    {
      Listed(t);
    }
    QuietTableUpdate(Order, Entry, P.Unchanged, s, i, fuel);
  }

  /** Every state is registered, each with the state function that does nothing. */
  lemma Listed(s: FloatingStates)
    ensures s in Order && Entry(s).stateFunc == Some(P.Unchanged)
  {
  }

  /** The first decisive guard of each state names the reference next state, and none cascades. */
  lemma EvaluatesToNextState(s: FloatingStates, i: P.Inputs)
    ensures var r := Evaluate(Entry(s).transitions, s, i);
      !r.Cascade() && (if Changes(r, s) then r.target else s) == NextState(s, i)
  {
    EvaluateShort(Entry(s).transitions, s, i);
  }

  /** From FO the only move is to OF, taken iff the I-loop is OF; from FS the only move is to FO, iff Vdc is below the minimum. */
  lemma FaultStatesExits(i: P.Inputs)
    ensures NextState(FO, i) in {FO, OF} && (NextState(FO, i) == OF <==> i.iLoopState == P.ILoopStates.OF)
    ensures NextState(FS, i) in {FS, FO} && (NextState(FS, i) == FO <==> i.vdc < i.limits.vdcMin)
  {
  }

  /** Outside FO and FS a fault condition leads to FS before any other guard is consulted. */
  lemma FaultHasPriority(s: FloatingStates, i: P.Inputs)
    requires s != FO && s != FS && P.CommonFault(i)
    ensures NextState(s, i) == FS
  {
  }

  /** Stop requests, in the states that register `toStopping`. */
  lemma StopRequests(s: FloatingStates, i: P.Inputs)
    requires s in {ST, BK, CH, CD, DT} && !P.CommonFault(i)
    ensures i.iLoopState == P.ILoopStates.SP ==> NextState(s, i) == SP
    ensures i.iLoopState != P.ILoopStates.SP && i.hmiRequestStop ==> NextState(s, i) == (if s in {CH, CD, DT} then SP else FS)
  {
  }

  /** The forward transitions and their guards, in a quiet plant (no fault, no stop request). */
  lemma ForwardTransitions(i: P.Inputs)
    requires !P.CommonFault(i) && i.iLoopState != P.ILoopStates.SP && !i.hmiRequestStop
    ensures NextState(ST, i) == BK <==> i.outputsReady && i.vout < i.limits.voutThreshold
    ensures NextState(BK, i) == CH <==> i.unblockReceived
    ensures NextState(CH, i) == CD <==> i.vdc >= i.limits.vdcFloatingsCharged
    ensures NextState(DT, i) == CD <==> i.vloopMask == 0
    ensures NextState(CD, i) == DT <==> i.vloopMask == 1
  {
  }
}
