// What the POPS Vloop state machines read from their converter. Each guard
// of a Vloop machine is a predicate over one `Inputs` value: the getters of
// the converter object at the time of the `update`, and the thresholds of the
// POPS constants, whose values are not part of this model.
module PopsStates {
  /** The I-loop states, in the order of the `ILoopStates` enumeration. */
  datatype ILoopStates = FO | FS | SA | SP | RN | AB | AR | IL | EC | PD | PL | TC | OF | ST | TS | SB | BK | DT | CY

  /** The PFM states the machines compare against; the enumeration itself is not part of this model. */
  datatype PFMStates = PfmFO | PfmON

  /** The thresholds of the POPS constants the guards compare measurements with. */
  datatype Thresholds = Thresholds(vdcMin: real, voutThreshold: real, vdcFloatingsCharged: real, vdcChargerMin: real)

  /** The converter getters the guards read, and the machine-local checks (gateware fault, interlock, HMI request, outputs ready). */
  datatype Inputs = Inputs(
    iLoopState: ILoopStates,
    vdc: real,
    vout: real,
    vdcFloatings: real,
    vloopMask: int,
    vsRunReceived: bool,
    unblockReceived: bool,
    fault: int,
    pfmState: PFMStates,
    gatewareFault: bool,
    interlock: bool,
    hmiRequestStop: bool,
    outputsReady: bool,
    cbOpen: bool,
    k1Open: bool,
    k2Open: bool,
    k3Open: bool,
    allFloatingInBK: bool,
    limits: Thresholds)

  /** The condition every `toFaultStopping` guard starts with: gateware fault, interlock, I-loop in FS or PFM in FO. */
  predicate CommonFault(i: Inputs) {
    i.gatewareFault || i.interlock || i.iLoopState == FS || i.pfmState == PfmFO
  }

  /** The state functions of the Vloop machines do nothing the guards can observe. */
  function Unchanged(i: Inputs): Inputs {
    i
  }
}
