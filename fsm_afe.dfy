// The Vloop state machine of the active front end (`AFEStateMachine`),
// built on the generic engine. `toFaultStopping` also reads the state whose
// transitions are being evaluated.
module FsmAfe {
  import opened Wrappers
  import opened Fsm
  import P = PopsStates

  datatype AFEStates = FO | FS | OF | SP | PH | PD | ON

  // ------------------------------------------------------------ guards

  function ToFaultOff(s: AFEStates, i: P.Inputs): (r: TransitionResult<AFEStates>)
    ensures r.Transition? ==> r == To(FO)
  {
    if i.vdc < i.limits.vdcMin && i.cbOpen && i.k1Open && i.k2Open then To(FO) else NoTransition
  }

  function ToFaultStopping(s: AFEStates, i: P.Inputs): (r: TransitionResult<AFEStates>)
    ensures r.Transition? ==> r == To(FS)
  {
    if P.CommonFault(i) || (s == PD && i.iLoopState == P.ILoopStates.SP) then To(FS) else NoTransition
  }

  function ToOff(s: AFEStates, i: P.Inputs): (r: TransitionResult<AFEStates>)
    ensures r.Transition? ==> r == To(OF)
  {
    if i.iLoopState == P.ILoopStates.OF then To(OF) else NoTransition
  }

  function ToStopping(s: AFEStates, i: P.Inputs): (r: TransitionResult<AFEStates>)
    ensures r.Transition? ==> r == To(SP)
  {
    if i.iLoopState == P.ILoopStates.SP then To(SP) else NoTransition
  }

  function ToPrecharging(s: AFEStates, i: P.Inputs): (r: TransitionResult<AFEStates>)
    ensures r.Transition? ==> r == To(PH)
  {
    if i.vsRunReceived then To(PH) else NoTransition
  }

  function ToPrecharged(s: AFEStates, i: P.Inputs): (r: TransitionResult<AFEStates>)
    ensures r.Transition? ==> r == To(PD)
  {
    if !i.cbOpen && i.k1Open && i.k3Open && i.vdc >= i.limits.vdcChargerMin then To(PD) else NoTransition
  }

  function ToOn(s: AFEStates, i: P.Inputs): (r: TransitionResult<AFEStates>)
    ensures r.Transition? ==> r == To(ON)
  {
    if i.unblockReceived then To(ON) else NoTransition
  }

  /** The entry each `addState` call of the constructor registers, transitions in their registration order. */
  function Entry(s: AFEStates): StateObj<AFEStates, P.Inputs> {
    match s
    case FO => StateObj(Some(P.Unchanged), [ToOff])
    case FS => StateObj(Some(P.Unchanged), [ToFaultOff])
    case OF => StateObj(Some(P.Unchanged), [ToFaultStopping, ToPrecharging])
    case SP => StateObj(Some(P.Unchanged), [ToFaultStopping, ToOff])
    case PH => StateObj(Some(P.Unchanged), [ToFaultStopping, ToPrecharged])
    case PD => StateObj(Some(P.Unchanged), [ToFaultStopping, ToOn])
    case ON => StateObj(Some(P.Unchanged), [ToFaultStopping, ToStopping])
  }

  /** The states in the order the constructor registers them. */
  const Order: seq<AFEStates> := [FO, FS, OF, SP, PH, PD, ON]

  /** The registered states after the constructor. */
  function Table(): (r: map<AFEStates, StateObj<AFEStates, P.Inputs>>)
    ensures forall s :: s in r && r[s] == Entry(s)
  {
    assert forall s :: s in Order by {
      forall s { Listed(s); }
    }
    Registered(Order, Entry)
  }

  /** One `update` of the machine in state `s`, with at most `fuel` cascaded passes. */
  function Step(s: AFEStates, i: P.Inputs, fuel: nat): Machine<AFEStates, P.Inputs> {
    Run(Machine(s, Table(), i), false, fuel)
  }

  /** The fault condition of the AFE: the common one, or the I-loop stopping while precharged. */
  predicate Fault(s: AFEStates, i: P.Inputs) {
    P.CommonFault(i) || (s == PD && i.iLoopState == P.ILoopStates.SP)
  }

  /** The next state, state by state: a reference for what one `update` does. */
  function NextState(s: AFEStates, i: P.Inputs): AFEStates {
    match s
    case FO => if i.iLoopState == P.ILoopStates.OF then OF else FO
    case FS => if i.vdc < i.limits.vdcMin && i.cbOpen && i.k1Open && i.k2Open then FO else FS
    case OF => if Fault(s, i) then FS else if i.vsRunReceived then PH else OF
    case SP => if Fault(s, i) then FS else if i.iLoopState == P.ILoopStates.OF then OF else SP
    case PH => if Fault(s, i) then FS
      else if !i.cbOpen && i.k1Open && i.k3Open && i.vdc >= i.limits.vdcChargerMin then PD else PH
    case PD => if Fault(s, i) then FS else if i.unblockReceived then ON else PD
    case ON => if Fault(s, i) then FS else if i.iLoopState == P.ILoopStates.SP then SP else ON
  }

  // ------------------------------------------------------------ the machine

  class AFEStateMachine {
    const fsm: Engine<AFEStates, P.Inputs>

    constructor(inputs: P.Inputs)
      ensures fresh(fsm) && !fsm.stateFirst
      ensures fsm.Snapshot() == Machine(FO, Table(), inputs)
    {
      fsm := new Engine(inputs, FO, false);
      new;
      fsm.AddAll(Order, Entry);
    }

    /** `update` on the converter's current readings. */
    method Update(inputs: P.Inputs)
      requires !fsm.stateFirst && fsm.states == Table()
      modifies fsm
      ensures fsm.state == NextState(old(fsm.state), inputs) && fsm.states == Table() && fsm.env == inputs
    {
      fsm.env := inputs;
      UpdateIsNextState(fsm.state, inputs, 0);
      fsm.Update(0);
    }

    function GetState(): AFEStates
      reads this, fsm
    {
      fsm.state
    }
  }

  // ------------------------------------------------------------ properties

  /** The engine running the table computes the reference next state, whatever the fuel. */
  lemma UpdateIsNextState(s: AFEStates, i: P.Inputs, fuel: nat)
    ensures Step(s, i, fuel) == Machine(NextState(s, i), Table(), i)
  {
    EvaluatesToNextState(s, i);
    Listed(s);
    Listed(NextState(s, i));
    forall t | t in Order
      ensures Entry(t).stateFunc == Some(P.Unchanged)
    {
      Listed(t);
    }
    QuietTableUpdate(Order, Entry, P.Unchanged, s, i, fuel);
  }

  /** Every state is registered, each with the state function that does nothing. */
  lemma Listed(s: AFEStates)
    ensures s in Order && Entry(s).stateFunc == Some(P.Unchanged)
  {
  }

  /** The first decisive guard of each state names the reference next state, and none cascades. */
  lemma EvaluatesToNextState(s: AFEStates, i: P.Inputs)
    ensures var r := Evaluate(Entry(s).transitions, s, i);
      !r.Cascade() && (if Changes(r, s) then r.target else s) == NextState(s, i)
  {
    EvaluateShort(Entry(s).transitions, s, i);
  }

  /** The only way from OF to ON is OF, PH, PD, ON: each of these states is entered only from its predecessor (or itself). */
  lemma PowerUpPath(s: AFEStates, i: P.Inputs)
    ensures NextState(s, i) == PH ==> s in {OF, PH}
    ensures NextState(s, i) == PD ==> s in {PH, PD}
    ensures NextState(s, i) == ON ==> s in {PD, ON}
    ensures s == OF ==> NextState(s, i) in {OF, FS, PH}
  {
  }

  /** FS goes to FO iff Vdc is below the minimum with CB, K1 and K2 open. */
  lemma FaultOffGuard(i: P.Inputs)
    ensures NextState(FS, i) in {FS, FO}
    ensures NextState(FS, i) == FO <==> i.vdc < i.limits.vdcMin && i.cbOpen && i.k1Open && i.k2Open
  {
  }

  /** Outside FO and FS a fault leads to FS first; in PD an I-loop SP is a fault, elsewhere it is not. */
  lemma FaultHasPriority(s: AFEStates, i: P.Inputs)
    requires s != FO && s != FS
    ensures Fault(s, i) ==> NextState(s, i) == FS
    ensures s == PD && i.iLoopState == P.ILoopStates.SP ==> NextState(s, i) == FS
  {
  }

  /** The forward guards, without fault. */
  lemma ForwardTransitions(i: P.Inputs)
    requires !P.CommonFault(i)
    ensures NextState(PH, i) == PD <==> !i.cbOpen && i.k1Open && i.k3Open && i.vdc >= i.limits.vdcChargerMin
    ensures i.iLoopState != P.ILoopStates.SP ==> (NextState(PD, i) == ON <==> i.unblockReceived)
    ensures NextState(ON, i) == SP <==> i.iLoopState == P.ILoopStates.SP
  {
  }
}
