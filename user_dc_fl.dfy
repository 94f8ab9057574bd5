// The floating DCDC converter of the POPS Vloop (`user::Converter` in
// user_dc_fl.hpp): the integer codes exchanged with the I-loop, the checks on
// the communication word, and the real-time task that decodes the incoming
// frame, advances the Vloop machine and answers with the new state code.
module UserDcFl {
  import opened Wrappers
  import opened Fsm
  import P = PopsStates
  import F = FsmDcdcFloating

  /** The number of frame slots (`num_data`). */
  const NumData := 20

  /** `setIloopState`'s switch: codes 1 to 9 name an I-loop state, other codes none. */
  function DecodeILoopState(code: int): (r: Option<P.ILoopStates>)
    ensures r.Some? <==> 1 <= code <= 9
  {
    match code
    case 1 => Some(P.ILoopStates.FO)
    case 2 => Some(P.ILoopStates.FS)
    case 3 => Some(P.ILoopStates.OF)
    case 4 => Some(P.ILoopStates.SP)
    case 5 => Some(P.ILoopStates.ST)
    case 6 => Some(P.ILoopStates.BK)
    case 7 => Some(P.ILoopStates.TS)
    case 8 => Some(P.ILoopStates.SB)
    case 9 => Some(P.ILoopStates.DT)
    case _ => None
  }

  /** `getFsmStateAsInt`: the code of a Vloop state. */
  function FsmStateAsInt(s: F.FloatingStates): (r: int)
    ensures 1 <= r <= 9 && FsmStateOf(r) == Some(s)
  {
    match s
    case FO => 1
    case FS => 2
    case OF => 3
    case SP => 4
    case ST => 5
    case BK => 6
    case CH => 7
    case CD => 8
    case DT => 9
  }

  /** The Vloop state whose code is `code`, inverting `getFsmStateAsInt`. */
  function FsmStateOf(code: int): (r: Option<F.FloatingStates>)
    ensures r.Some? <==> 1 <= code <= 9
  {
    match code
    case 1 => Some(F.FO)
    case 2 => Some(F.FS)
    case 3 => Some(F.OF)
    case 4 => Some(F.SP)
    case 5 => Some(F.ST)
    case 6 => Some(F.BK)
    case 7 => Some(F.CH)
    case 8 => Some(F.CD)
    case 9 => Some(F.DT)
    case _ => None
  }

  /** The spelling of a state name, to compare the states of the two enumerations. */
  function FloatingName(s: F.FloatingStates): string {
    match s
    case FO => "FO" case FS => "FS" case OF => "OF" case SP => "SP" case ST => "ST"
    case BK => "BK" case CH => "CH" case CD => "CD" case DT => "DT"
  }

  function ILoopName(s: P.ILoopStates): string {
    match s
    case FO => "FO" case FS => "FS" case SA => "SA" case SP => "SP" case RN => "RN"
    case AB => "AB" case AR => "AR" case IL => "IL" case EC => "EC" case PD => "PD"
    case PL => "PL" case TC => "TC" case OF => "OF" case ST => "ST" case TS => "TS"
    case SB => "SB" case BK => "BK" case DT => "DT" case CY => "CY"
  }

  /** `checkVSRunReceived` and `checkUnblockReceived`. */
  predicate VSRunReceived(communication: int) {
    communication == 1
  }

  predicate UnblockReceived(communication: int) {
    communication == 2
  }

  /** C++'s conversion of a double to `int`: truncation toward zero (the value is assumed to fit). */
  function TruncToInt(x: real): (n: int)
    ensures -1.0 < x - n as real < 1.0
    ensures x >= 0.0 ==> 0 <= n && n as real <= x
    ensures x < 0.0 ==> n <= 0 && x <= n as real
  {
    if x >= 0.0 then x.Floor else -((-x).Floor)
  }

  // ------------------------------------------------------------ properties

  /** The state codes are distinct and lie in 1 to 9, and decoding them gives the state back. */
  lemma StateCodes(s: F.FloatingStates, t: F.FloatingStates)
    ensures 1 <= FsmStateAsInt(s) <= 9
    ensures FsmStateAsInt(s) == FsmStateAsInt(t) <==> s == t
    ensures FsmStateOf(FsmStateAsInt(s)) == Some(s)
  {
  }

  /** A Vloop code read back as an I-loop code names the same state except for codes 7 and 8 (CH and CD are read as TS and SB). */
  lemma CodesAcrossEnumerations(s: F.FloatingStates)
    ensures DecodeILoopState(FsmStateAsInt(s)).Some?
    ensures ILoopName(DecodeILoopState(FsmStateAsInt(s)).value) == FloatingName(s) <==> s != F.CH && s != F.CD
  {
  }

  /** VS_RUN and unblock are never signalled together. */
  lemma RunAndUnblockExclusive(communication: int)
    ensures !(VSRunReceived(communication) && UnblockReceived(communication))
  {
  }

  // ------------------------------------------------------------ the converter

  class Converter {
    const data: array<real>
    const vsState: F.DCDCFloatingStateMachine
    var iLoopState: P.ILoopStates
    var iLoopCommunication: int
    var plcCommunication: int
    var vloopMask: int
    var fault: int
    var vdcMeas: real
    var counter: int

    /** The machine-side state the real-time task relies on. */
    ghost predicate Valid()
      reads this, vsState, vsState.fsm
    {
      data.Length == NumData && !vsState.fsm.stateFirst && vsState.fsm.states == F.Table()
    }

    constructor(plant: P.Inputs)
      ensures Valid() && fresh(data) && fresh(vsState) && fresh(vsState.fsm)
      ensures iLoopState == P.ILoopStates.FO && iLoopCommunication == 0 && fault == 0 && plcCommunication == 0
      ensures counter == 0 && vsState.fsm.state == F.FO
    {
      data := new real[NumData];
      vsState := new F.DCDCFloatingStateMachine(plant);
      iLoopState := P.ILoopStates.FO;
      iLoopCommunication := 0;
      fault := 0;
      plcCommunication := 0;
      vloopMask := 0;
      vdcMeas := 0.0;
      counter := 0;
    }

    /** `setIloopState`: a known code sets the I-loop state, any other code leaves it. */
    method SetIloopState(code: int)
      modifies this
      ensures iLoopState == (match DecodeILoopState(code) case Some(s) => s case None => old(iLoopState))
      ensures unchanged(this`iLoopCommunication, this`plcCommunication, this`vloopMask, this`fault, this`vdcMeas, this`counter)
    {
      match code {
        case 1 => iLoopState := P.ILoopStates.FO;
        case 2 => iLoopState := P.ILoopStates.FS;
        case 3 => iLoopState := P.ILoopStates.OF;
        case 4 => iLoopState := P.ILoopStates.SP;
        case 5 => iLoopState := P.ILoopStates.ST;
        case 6 => iLoopState := P.ILoopStates.BK;
        case 7 => iLoopState := P.ILoopStates.TS;
        case 8 => iLoopState := P.ILoopStates.SB;
        case 9 => iLoopState := P.ILoopStates.DT;
        case _ =>
      }
    }

    /**
     * What the Vloop machine reads from this converter: the decoded frame,
     * `getVout` (always 0.0) and `getPFMState` (always ON); the machine's own
     * checks and the thresholds come from `plant`.
     */
    function Readings(plant: P.Inputs): P.Inputs
      reads this
    {
      plant.(iLoopState := iLoopState, vdc := vdcMeas, vout := 0.0, vloopMask := vloopMask,
        vsRunReceived := VSRunReceived(iLoopCommunication), unblockReceived := UnblockReceived(iLoopCommunication),
        fault := fault, pfmState := P.PfmON)
    }

    /**
     * `RTTask`: read the 20 slots, decode slots 0 to 5, update the Vloop
     * machine, put the new state's code in slot 0 and send all slots.
     */
    method RTTask(frame: seq<real>, plant: P.Inputs) returns (sent: seq<real>)
      requires Valid() && |frame| == NumData
      modifies this, data, vsState.fsm
      ensures Valid()
      ensures vdcMeas == frame[0] && iLoopCommunication == TruncToInt(frame[2])
      ensures plcCommunication == TruncToInt(frame[3]) && vloopMask == TruncToInt(frame[4]) && fault == TruncToInt(frame[5])
      ensures iLoopState == (match DecodeILoopState(TruncToInt(frame[1])) case Some(s) => s case None => old(iLoopState))
      ensures vsState.fsm.state == F.NextState(old(vsState.fsm.state), Readings(plant))
      ensures |sent| == NumData && sent[0] == FsmStateAsInt(vsState.fsm.state) as real
      ensures sent[1..] == frame[1..] && data[..] == sent
      ensures counter == old(counter) + 1
    {
      ReadFrame(frame);
      vdcMeas := data[0];
      SetIloopState(TruncToInt(data[1]));
      iLoopCommunication := TruncToInt(data[2]);
      plcCommunication := TruncToInt(data[3]);
      vloopMask := TruncToInt(data[4]);
      fault := TruncToInt(data[5]);
      vsState.Update(Readings(plant));
      data[0] := FsmStateAsInt(vsState.fsm.state) as real;
      sent := SendFrame();
      counter := counter + 1;
    }

    /** The input loop of `RTTask`: copy every slot of the incoming frame. */
    method ReadFrame(frame: seq<real>)
      requires data.Length == |frame|
      modifies data
      ensures data[..] == frame
    {
      var index := 0;
      while index < data.Length
        invariant 0 <= index <= data.Length
        invariant data[..index] == frame[..index]
      {
        data[index] := frame[index];
        index := index + 1;
      }
    }

    /** The output loop of `RTTask`: write every slot out, in order. */
    method SendFrame() returns (sent: seq<real>)
      ensures sent == data[..]
    {
      sent := [];
      var index := 0;
      while index < data.Length
        invariant 0 <= index <= data.Length
        invariant sent == data[..index]
      {
        sent := sent + [data[index]];
        index := index + 1;
      }
    }
  }
}
