// The VSlib configuration state machine (`VSMachine`), built on the generic
// engine. The owner's data the state functions touch is the record `VSEnv`:
// the members the state functions set, counters for the calls into the rest
// of the library, the parameter registry's answer and the command queue.
module VsMachine {
  import opened Wrappers
  import opened Fsm

  datatype VSStates = Initialization | Unconfigured | Configuring | Configured

  /**
   * The members of `VSMachine` the state functions set, counters for the
   * library calls they make, whether every registered parameter is
   * initialised (`parametersInitialized`, read by the transitions), and the
   * messages waiting in the command queue. A message is recorded by whether
   * processing it initialises every parameter still uninitialised; a
   * parameter, once initialised, stays so.
   */
  datatype VSEnv = VSEnv(
    initDone: bool,
    userCodeInitialised: bool,
    payloadNotifications: nat,
    mapUploads: nat,
    commandReceptions: nat,
    userInits: nat,
    backgroundRuns: nat,
    parametersInitialized: bool,
    pending: seq<bool>)

  /** `checkNewSettingsAvailable`: a message is waiting in the command queue. */
  predicate NewSettings(e: VSEnv) {
    |e.pending| > 0
  }

  /** The members as the constructor leaves them, with the given registry answer and queue. */
  function InitialEnv(parametersInitialized: bool, pending: seq<bool>): VSEnv {
    VSEnv(false, false, 0, 0, 0, 0, 0, parametersInitialized, pending)
  }

  // ------------------------------------------------------------ state functions

  /** `onInitialization`: notify that the payload started, then record that initialisation is done. */
  function OnInitialization(e: VSEnv): (r: VSEnv)
    ensures r.initDone && r.payloadNotifications == e.payloadNotifications + 1
    ensures r.(initDone := e.initDone, payloadNotifications := e.payloadNotifications) == e
  {
    e.(initDone := true, payloadNotifications := e.payloadNotifications + 1)
  }

  /** `onUnconfigured`: upload the parameter map. */
  function OnUnconfigured(e: VSEnv): (r: VSEnv)
    ensures r.mapUploads == e.mapUploads + 1 && r.(mapUploads := e.mapUploads) == e
  {
    e.(mapUploads := e.mapUploads + 1)
  }

  /**
   * `onConfiguring`: `receiveJsonCommand` reads one message, if there is
   * one, and processes it, which may initialise the remaining parameters;
   * without a message it does nothing.
   */
  function OnConfiguring(e: VSEnv): (r: VSEnv)
    ensures r.commandReceptions == e.commandReceptions + 1
    ensures NewSettings(e) ==> r.pending == e.pending[1..]
    ensures NewSettings(e) ==> (r.parametersInitialized <==> e.parametersInitialized || e.pending[0])
    ensures !NewSettings(e) ==> r.pending == [] && r.parametersInitialized == e.parametersInitialized
    ensures r.(commandReceptions := e.commandReceptions, pending := e.pending, parametersInitialized := e.parametersInitialized) == e
  {
    var e1 := e.(commandReceptions := e.commandReceptions + 1);
    if |e.pending| == 0 then e1
    else e1.(pending := e.pending[1..], parametersInitialized := e.parametersInitialized || e.pending[0])
  }

  /** `onConfigured`: the user `init()` the first time only, then the user background task. */
  function OnConfigured(e: VSEnv): (r: VSEnv)
    ensures r.userCodeInitialised && r.backgroundRuns == e.backgroundRuns + 1
    ensures r.userInits == if e.userCodeInitialised then e.userInits else e.userInits + 1
    ensures r.(userCodeInitialised := e.userCodeInitialised, userInits := e.userInits, backgroundRuns := e.backgroundRuns) == e
  {
    var e1 := if !e.userCodeInitialised then e.(userInits := e.userInits + 1, userCodeInitialised := true) else e;
    e1.(backgroundRuns := e1.backgroundRuns + 1)
  }

  // ------------------------------------------------------------ transitions

  function ToConfiguring(s: VSStates, e: VSEnv): (r: TransitionResult<VSStates>)
    ensures r.Transition? ==> r == To(Configuring, true)
  {
    if NewSettings(e) then To(Configuring, true) else NoTransition
  }

  /** `toInitialization` is declared but registered for no state. */
  function ToInitialization(s: VSStates, e: VSEnv): TransitionResult<VSStates> {
    To(Initialization)
  }

  function ToUnconfiguredFromInit(s: VSStates, e: VSEnv): (r: TransitionResult<VSStates>)
    ensures r == To(Unconfigured) || r == To(Initialization)
  {
    if e.initDone then To(Unconfigured) else To(Initialization)
  }

  function ToUnconfigured(s: VSStates, e: VSEnv): (r: TransitionResult<VSStates>)
    ensures r == To(Configured) || r == To(Unconfigured, true)
  {
    if e.parametersInitialized then To(Configured) else To(Unconfigured, true)
  }

  function ToConfigured(s: VSStates, e: VSEnv): (r: TransitionResult<VSStates>)
    ensures r == To(Configured) || r == To(Unconfigured, true)
  {
    if e.parametersInitialized then To(Configured) else To(Unconfigured, true)
  }

  /** The four `addState` calls of the constructor, transitions in their registration order. */
  function Table(): (r: map<VSStates, StateObj<VSStates, VSEnv>>)
    ensures forall s :: s in r && r[s].stateFunc.Some? && |r[s].transitions| > 0
  {
    var r := map[
      Initialization := StateObj(Some(OnInitialization), [ToUnconfiguredFromInit]),
      Unconfigured := StateObj(Some(OnUnconfigured), [ToConfiguring, ToConfigured]),
      Configuring := StateObj(Some(OnConfiguring), [ToUnconfigured, ToConfigured]),
      Configured := StateObj(Some(OnConfigured), [ToConfiguring])
    ];
    assert forall s :: s in r && r[s].stateFunc.Some? && |r[s].transitions| > 0 by {
      forall s ensures s in r && r[s].stateFunc.Some? && |r[s].transitions| > 0 {
        if s == Initialization { } else if s == Unconfigured { } else if s == Configuring { } else { assert s == Configured; }
      }
    }
    r
  }

  /** Every state is registered, so `operator[]` never adds an entry. */
  lemma TableComplete(s: VSStates)
    ensures s in Table() && Touch(Table(), s) == Table()
  {
  }

  /** The engine's state function ordering for this machine (`state_first == false`). */
  const StateFirst := false

  function Step(state: VSStates, e: VSEnv, fuel: nat): Machine<VSStates, VSEnv> {
    Run(Machine(state, Table(), e), StateFirst, fuel)
  }

  // ------------------------------------------------------------ the machine

  class VSMachine {
    const fsm: Engine<VSStates, VSEnv>

    constructor(parametersInitialized: bool, pending: seq<bool>)
      ensures fresh(fsm) && !fsm.stateFirst
      ensures fsm.Snapshot() == Machine(Initialization, Table(), InitialEnv(parametersInitialized, pending))
    {
      fsm := new Engine(InitialEnv(parametersInitialized, pending), Initialization, false);
      new;
      fsm.AddState(Initialization, Some(OnInitialization), [ToUnconfiguredFromInit]);
      fsm.AddState(Unconfigured, Some(OnUnconfigured), [ToConfiguring, ToConfigured]);
      fsm.AddState(Configuring, Some(OnConfiguring), [ToUnconfigured, ToConfigured]);
      fsm.AddState(Configured, Some(OnConfigured), [ToConfiguring]);
    }

    /** Messages arriving in the command queue, behind those already waiting. */
    method Arrive(messages: seq<bool>)
      modifies fsm
      ensures fsm.Snapshot() == old(fsm.Snapshot()).(env := old(fsm.env).(pending := old(fsm.env.pending) + messages))
    {
      fsm.env := fsm.env.(pending := fsm.env.pending + messages);
    }

    /** `update`, with at most `fuel` cascaded passes. */
    method Update(fuel: nat)
      requires !fsm.stateFirst
      modifies fsm
      ensures fsm.Snapshot() == Run(old(fsm.Snapshot()), StateFirst, fuel)
    {
      fsm.Update(fuel);
    }

    function GetState(): VSStates
      reads this, fsm
    {
      fsm.state
    }
  }

  // ------------------------------------------------------------ properties

  /** The first `update` stays in initialisation and runs `onInitialization`; the second moves to unconfigured. */
  lemma FirstTwoUpdates(e: VSEnv, fuel1: nat, fuel2: nat)
    requires !e.initDone
    ensures var m1 := Step(Initialization, e, fuel1);
      m1.state == Initialization && m1.env == OnInitialization(e) && m1.states == Table()
      && var m2 := Step(m1.state, m1.env, fuel2);
      m2.state == Unconfigured && m2.env == OnUnconfigured(m1.env)
  {
  }

  /** `toUnconfigured` and `toConfigured` agree: configured iff every parameter is initialised, else unconfigured with cascade. */
  lemma ConfigurationVerdict(s: VSStates, e: VSEnv)
    ensures ToUnconfigured(s, e) == ToConfigured(s, e)
    ensures !ToConfigured(s, e).IsDefault()
    ensures ToConfigured(s, e).target == Configured <==> e.parametersInitialized
    ensures ToConfigured(s, e).Cascade() <==> !e.parametersInitialized
  {
  }

  /** In `configuring` the first transition always decides, so `toConfigured` is never consulted. */
  lemma ConfiguringFirstDecides(e: VSEnv)
    ensures Evaluate(Table()[Configuring].transitions, Configuring, e) == ToUnconfigured(Configuring, e)
  {
  }

  /** `toConfiguring` fires, with cascade, iff new settings are available. */
  lemma ConfiguringOnNewSettings(s: VSStates, e: VSEnv)
    ensures !ToConfiguring(s, e).IsDefault() <==> NewSettings(e)
    ensures !ToConfiguring(s, e).IsDefault() ==> ToConfiguring(s, e) == Transition(Configuring, true)
  {
  }

  /** Leaving `unconfigured` on new settings runs `onConfiguring` in the same update, as a cascade. */
  lemma UnconfiguredCascades(e: VSEnv)
    requires NewSettings(e)
    ensures Cycle(Machine(Unconfigured, Table(), e), StateFirst) == (Machine(Configuring, Table(), OnConfiguring(e)), true)
  {
  }

  /** From `configured` one pass either stays or moves to `configuring`. */
  lemma ConfiguredOnlyToConfiguring(e: VSEnv)
    ensures Cycle(Machine(Configured, Table(), e), StateFirst).0.state in {Configured, Configuring}
    ensures Cycle(Machine(Configured, Table(), e), StateFirst).0.state == Configuring <==> NewSettings(e)
  {
    EvaluateShort(Table()[Configured].transitions, Configured, e);
  }

  /** New settings in `configured` with every parameter initialised: commands are processed and the machine is back in `configured` in the same update. */
  lemma Reconfigure(e: VSEnv, fuel: nat)
    requires NewSettings(e) && e.parametersInitialized && fuel >= 1
    ensures Step(Configured, e, fuel) == Machine(Configured, Table(), OnConfigured(OnConfiguring(e)))
  {
    var m1 := Machine(Configuring, Table(), OnConfiguring(e));
    assert Cycle(Machine(Configured, Table(), e), StateFirst) == (m1, true);
    assert Cycle(m1, StateFirst) == (Machine(Configured, Table(), OnConfigured(OnConfiguring(e))), false);
    assert Run(m1, StateFirst, fuel - 1) == Cycle(m1, StateFirst).0;
  }

  /**
   * The first configuration: in `unconfigured`, with parameters still
   * uninitialised and one message waiting, an `update` receives the message
   * once. If it initialises the remaining parameters the machine lands in
   * `configured` and runs the user `init()`; otherwise it returns to
   * `unconfigured`, where the self-transition ends the update.
   */
  lemma FirstConfiguration(e: VSEnv, fuel: nat)
    requires e.initDone && !e.parametersInitialized && |e.pending| == 1 && fuel >= 2
    ensures var m := Step(Unconfigured, e, fuel);
      m.states == Table() && m.env.pending == []
      && m.env.commandReceptions == e.commandReceptions + 1
      && (m.state == Configured <==> e.pending[0])
      && (m.state != Configured ==> m.state == Unconfigured)
      && m.env.userInits == e.userInits + (if e.pending[0] && !e.userCodeInitialised then 1 else 0)
      && m.env.mapUploads == e.mapUploads + (if e.pending[0] then 0 else 2)
  {
    var e1 := OnConfiguring(e);
    var m1 := Machine(Configuring, Table(), e1);
    assert Cycle(Machine(Unconfigured, Table(), e), StateFirst) == (m1, true);
    if e.pending[0] {
      assert Cycle(m1, StateFirst) == (Machine(Configured, Table(), OnConfigured(e1)), false);
      assert Run(m1, StateFirst, fuel - 1) == Machine(Configured, Table(), OnConfigured(e1));
    } else {
      var m2 := Machine(Unconfigured, Table(), OnUnconfigured(e1));
      assert Cycle(m1, StateFirst) == (m2, true);
      EvaluateShort(Table()[Unconfigured].transitions, Unconfigured, m2.env);
      assert Cycle(m2, StateFirst) == (Machine(Unconfigured, Table(), OnUnconfigured(m2.env)), false);
      assert Run(m1, StateFirst, fuel - 1) == Machine(Unconfigured, Table(), OnUnconfigured(m2.env));
    }
  }

  /**
   * From construction with one message waiting, three updates: the first
   * initialises, the second uploads the parameter map in `unconfigured`,
   * the third performs the first configuration.
   */
  lemma ConstructedMachineConfigures(completes: bool)
    ensures var m0 := Step(Initialization, InitialEnv(false, [completes]), 0);
      var m1 := Step(m0.state, m0.env, 0);
      var m2 := Step(m1.state, m1.env, 2);
      m0.state == Initialization && m1.state == Unconfigured
      && (m2.state == Configured <==> completes)
      && m2.env.commandReceptions == 1 && m2.env.userInits == (if completes then 1 else 0)
  {
    var e0 := InitialEnv(false, [completes]);
    FirstTwoUpdates(e0, 0, 0);
    var m1 := Step(Step(Initialization, e0, 0).state, Step(Initialization, e0, 0).env, 0);
    FirstConfiguration(m1.env, 2);
  }

  /** The user `init()` has run once exactly when it is marked as run. */
  predicate InitOnce(e: VSEnv) {
    e.userInits == if e.userCodeInitialised then 1 else 0
  }

  lemma StateFunctionsKeepInitOnce(m: Machine<VSStates, VSEnv>)
    requires m.states == Table() && InitOnce(m.env)
    ensures InitOnce(ExecuteState(m).env) && ExecuteState(m).states == Table()
  {
    TableComplete(m.state);
  }

  lemma CycleKeepsInitOnce(m: Machine<VSStates, VSEnv>)
    requires m.states == Table() && InitOnce(m.env)
    ensures InitOnce(Cycle(m, StateFirst).0.env) && Cycle(m, StateFirst).0.states == Table()
  {
    TableComplete(m.state);
    var result := Evaluate(Table()[m.state].transitions, m.state, m.env);
    var m2 := if Changes(result, m.state) then m.(state := result.target) else m;
    StateFunctionsKeepInitOnce(m2);
  }

  /** Whatever the inputs and however often `update` runs, the user `init()` runs at most once. */
  lemma {:induction false} UserInitAtMostOnce(m: Machine<VSStates, VSEnv>, fuel: nat)
    requires m.states == Table() && InitOnce(m.env)
    ensures InitOnce(Run(m, StateFirst, fuel).env) && Run(m, StateFirst, fuel).states == Table()
    ensures Run(m, StateFirst, fuel).env.userInits <= 1
    decreases fuel
  {
    CycleKeepsInitOnce(m);
    var (m', again) := Cycle(m, StateFirst);
    if again && fuel > 0 {
      UserInitAtMostOnce(m', fuel - 1);
    }
  }
}
