// The Vloop state machine of the DCDC charger (`DCDCChargerStateMachine`),
// built on the generic engine. The guards read the converter through
// `Inputs`; `toBlocking` also reads the state whose transitions are being
// evaluated.
module FsmDcdcCharging {
  import opened Wrappers
  import opened Fsm
  import P = PopsStates

  datatype ChargerStates = FO | FS | OF | SP | ST | BK | DT

  // ------------------------------------------------------------ guards

  function ToFaultOff(s: ChargerStates, i: P.Inputs): (r: TransitionResult<ChargerStates>)
    ensures r.Transition? ==> r == To(FO)
  {
    if i.vdc < i.limits.vdcMin then To(FO) else NoTransition
  }

  function ToFaultStopping(s: ChargerStates, i: P.Inputs): (r: TransitionResult<ChargerStates>)
    ensures r.Transition? ==> r == To(FS)
  {
    if P.CommonFault(i) then To(FS) else NoTransition
  }

  function ToOff(s: ChargerStates, i: P.Inputs): (r: TransitionResult<ChargerStates>)
    ensures r.Transition? ==> r == To(OF)
  {
    if i.iLoopState == P.ILoopStates.OF then To(OF) else NoTransition
  }

  function ToStopping(s: ChargerStates, i: P.Inputs): (r: TransitionResult<ChargerStates>)
    ensures r.Transition? ==> r == To(SP)
  {
    if i.iLoopState == P.ILoopStates.SP || i.hmiRequestStop then To(SP) else NoTransition
  }

  function ToStarting(s: ChargerStates, i: P.Inputs): (r: TransitionResult<ChargerStates>)
    ensures r.Transition? ==> r == To(ST)
  {
    if i.vsRunReceived then To(ST) else NoTransition
  }

  function ToBlocking(s: ChargerStates, i: P.Inputs): (r: TransitionResult<ChargerStates>)
    ensures r.Transition? ==> r == To(BK)
  {
    if s == ST && i.outputsReady && i.vout <= i.limits.voutThreshold then To(BK)
    else if s == DT && i.allFloatingInBK && i.vdcFloatings < i.limits.vdcMin then To(BK)
    else NoTransition
  }

  function ToDirect(s: ChargerStates, i: P.Inputs): (r: TransitionResult<ChargerStates>)
    ensures r.Transition? ==> r == To(DT)
  {
    if i.unblockReceived && i.vloopMask == 1 then To(DT) else NoTransition
  }

  /** The entry each `addState` call of the constructor registers, transitions in their registration order. */
  function Entry(s: ChargerStates): StateObj<ChargerStates, P.Inputs> {
    match s
    case FO => StateObj(Some(P.Unchanged), [ToOff])
    case FS => StateObj(Some(P.Unchanged), [ToFaultOff])
    case OF => StateObj(Some(P.Unchanged), [ToFaultStopping, ToStarting])
    case SP => StateObj(Some(P.Unchanged), [ToFaultStopping, ToOff])
    case ST => StateObj(Some(P.Unchanged), [ToFaultStopping, ToStopping, ToBlocking])
    case BK => StateObj(Some(P.Unchanged), [ToFaultStopping, ToStopping, ToDirect])
    case DT => StateObj(Some(P.Unchanged), [ToFaultStopping, ToStopping, ToBlocking])
  }

  /** The states in the order the constructor registers them. */
  const Order: seq<ChargerStates> := [FO, FS, OF, SP, ST, BK, DT]

  /** The registered states after the constructor. */
  function Table(): (r: map<ChargerStates, StateObj<ChargerStates, P.Inputs>>)
    ensures forall s :: s in r && r[s] == Entry(s)
  {
    assert forall s :: s in Order by {
      forall s { Listed(s); }
    }
    Registered(Order, Entry)
  }

  /** One `update` of the machine in state `s`, with at most `fuel` cascaded passes. */
  function Step(s: ChargerStates, i: P.Inputs, fuel: nat): Machine<ChargerStates, P.Inputs> {
    Run(Machine(s, Table(), i), false, fuel)
  }

  /** The next state, state by state: a reference for what one `update` does. */
  function NextState(s: ChargerStates, i: P.Inputs): ChargerStates {
    var stop := i.iLoopState == P.ILoopStates.SP || i.hmiRequestStop;
    match s
    case FO => if i.iLoopState == P.ILoopStates.OF then OF else FO
    case FS => if i.vdc < i.limits.vdcMin then FO else FS
    case OF => if P.CommonFault(i) then FS else if i.vsRunReceived then ST else OF
    case SP => if P.CommonFault(i) then FS else if i.iLoopState == P.ILoopStates.OF then OF else SP
    case ST => if P.CommonFault(i) then FS else if stop then SP
      else if i.outputsReady && i.vout <= i.limits.voutThreshold then BK else ST
    case BK => if P.CommonFault(i) then FS else if stop then SP
      else if i.unblockReceived && i.vloopMask == 1 then DT else BK
    case DT => if P.CommonFault(i) then FS else if stop then SP
      else if i.allFloatingInBK && i.vdcFloatings < i.limits.vdcMin then BK else DT
  }

  // ------------------------------------------------------------ the machine

  class DCDCChargerStateMachine {
    const fsm: Engine<ChargerStates, P.Inputs>

    constructor(inputs: P.Inputs)
      ensures fresh(fsm) && !fsm.stateFirst
      ensures fsm.Snapshot() == Machine(FO, Table(), inputs)
    {
      fsm := new Engine(inputs, FO, false);
      new;
      fsm.AddAll(Order, Entry);
    }

    /** `update` on the converter's current readings. */
    method Update(inputs: P.Inputs)
      requires !fsm.stateFirst && fsm.states == Table()
      modifies fsm
      ensures fsm.state == NextState(old(fsm.state), inputs) && fsm.states == Table() && fsm.env == inputs
    {
      fsm.env := inputs;
      UpdateIsNextState(fsm.state, inputs, 0);
      fsm.Update(0);
    }

    function GetState(): ChargerStates
      reads this, fsm
    {
      fsm.state
    }
  }

  // ------------------------------------------------------------ properties

  /** The engine running the table computes the reference next state, whatever the fuel. */
  lemma UpdateIsNextState(s: ChargerStates, i: P.Inputs, fuel: nat)
    ensures Step(s, i, fuel) == Machine(NextState(s, i), Table(), i)
  {
    EvaluatesToNextState(s, i);
    Listed(s);
    Listed(NextState(s, i));
    forall t | t in Order
      ensures Entry(t).stateFunc == Some(P.Unchanged)
    {
      Listed(t);
    }
    QuietTableUpdate(Order, Entry, P.Unchanged, s, i, fuel);
  }

  /** Every state is registered, each with the state function that does nothing. */
  lemma Listed(s: ChargerStates)
    ensures s in Order && Entry(s).stateFunc == Some(P.Unchanged)
  {
  }

  /** The first decisive guard of each state names the reference next state, and none cascades. */
  lemma EvaluatesToNextState(s: ChargerStates, i: P.Inputs)
    ensures var r := Evaluate(Entry(s).transitions, s, i);
      !r.Cascade() && (if Changes(r, s) then r.target else s) == NextState(s, i)
  {
    EvaluateShort(Entry(s).transitions, s, i);
  }

  /** FO can only go to OF, iff the I-loop is OF; FS can only go to FO, iff Vdc is below the minimum. */
  lemma FaultStatesExits(i: P.Inputs)
    ensures NextState(FO, i) in {FO, OF} && (NextState(FO, i) == OF <==> i.iLoopState == P.ILoopStates.OF)
    ensures NextState(FS, i) in {FS, FO} && (NextState(FS, i) == FO <==> i.vdc < i.limits.vdcMin)
  {
  }

  /** In OF, SP, ST, BK and DT a fault condition leads to FS before any other guard is consulted. */
  lemma FaultHasPriority(s: ChargerStates, i: P.Inputs)
    requires s != FO && s != FS && P.CommonFault(i)
    ensures NextState(s, i) == FS
  {
  }

  /** An I-loop SP or an HMI stop leads to SP from ST, BK and DT when there is no fault. */
  lemma StopRequests(s: ChargerStates, i: P.Inputs)
    requires s in {ST, BK, DT} && !P.CommonFault(i)
    ensures i.iLoopState == P.ILoopStates.SP || i.hmiRequestStop ==> NextState(s, i) == SP
  {
  }

  /** The forward transitions and their guards, in a quiet plant (no fault, no stop request). */
  lemma ForwardTransitions(i: P.Inputs)
    requires !P.CommonFault(i) && i.iLoopState != P.ILoopStates.SP && !i.hmiRequestStop
    ensures NextState(ST, i) == BK <==> i.outputsReady && i.vout <= i.limits.voutThreshold
    ensures NextState(DT, i) == BK <==> i.allFloatingInBK && i.vdcFloatings < i.limits.vdcMin
    ensures NextState(BK, i) == DT <==> i.unblockReceived && i.vloopMask == 1
  {
  }
}
