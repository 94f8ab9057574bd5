// The background task that applies configuration commands. A message holds
// one command object or an array of them; each command is validated, then
// its value is set into the named parameter's write buffer and copied to the
// background buffer the real-time side does not read. After a message, every
// modified component checks its parameters; the buffer switch then decides
// which of the two read buffers the real-time side uses.
module ParameterSetting {
  import opened Wrappers
  import opened Json
  import opened CppTypes
  import opened Parameter

  // Three-buffer parameters.

  /** `write_buffer_id`: the last of the three buffers, the one commands write. */
  const WriteBuffer: nat := 2

  /** `vslib::version::json_command.major`, the major version commands must carry. */
  const Major: int := 0

  /**
   * A settable parameter as the setting task sees it: its type and limits,
   * `m_value` (two read buffers selected by the buffer switch, then the write
   * buffer) and `m_initialized`.
   */
  datatype Buffered = Buffered(ty: Ty, limitMin: real, limitMax: real, buffers: seq<Value>, initialized: bool)

  /** Three buffers; an array of enumerators is written element by element, so its write buffer is an array. */
  predicate Good(p: Buffered) {
    |p.buffers| == 3 && (EnumArray(p.ty) ==> p.buffers[WriteBuffer].ArrayV?)
  }

  /** `buffer_switch ^ 1` for a switch that is 0 or 1. */
  function Other(sw: nat): (o: nat)
    requires sw < 2
    ensures o < 2 && o != sw
  {
    1 - sw
  }

  /** The buffer the real-time side reads. */
  function Active(p: Buffered, sw: nat): Value
    requires Good(p) && sw < 2
  {
    p.buffers[sw]
  }

  /** The read buffer the real-time side does not read. */
  function Background(p: Buffered, sw: nat): Value
    requires Good(p) && sw < 2
  {
    p.buffers[Other(sw)]
  }

  /**
   * `setJsonValue`: the value is decoded into the write buffer, and a success
   * marks the parameter initialized. Only the write buffer can change.
   */
  function SetJsonValue(p: Buffered, j: Json): (r: (Buffered, Option<SetWarning>))
    requires Good(p)
    ensures Good(r.0) && r.0.ty == p.ty && r.0.limitMin == p.limitMin && r.0.limitMax == p.limitMax
    ensures r.0.buffers[0] == p.buffers[0] && r.0.buffers[1] == p.buffers[1]
    ensures r.0.initialized == (p.initialized || r.1.None?)
  {
    if EnumArray(p.ty) then
      var (elems, w) := EnumArrayWrite(p.buffers[WriteBuffer].elems, p.ty.elem.names, Elements(j), 0);
      (p.(buffers := p.buffers[WriteBuffer := ArrayV(elems)], initialized := p.initialized || w.None?), w)
    else
      match Decode(p.ty, p.limitMin, p.limitMax, j)
      case Ok(v) => (p.(buffers := p.buffers[WriteBuffer := v], initialized := true), None)
      case Err(w) => (p, Some(w))
  }

  /**
   * Except for an array of enumerators, the write buffer takes the decoded
   * value, and a value that does not decode changes nothing and is refused
   * with the decoder's warning.
   */
  lemma SetJsonValueDecodes(p: Buffered, j: Json)
    requires Good(p) && !EnumArray(p.ty)
    ensures var r := SetJsonValue(p, j);
      match Decode(p.ty, p.limitMin, p.limitMax, j)
      case Ok(v) => r.1.None? && r.0.buffers[WriteBuffer] == v
      case Err(w) => r.1 == Some(w) && r.0 == p
  {
  }

  /** `synchroniseWriteBuffer`: the background buffer takes the write buffer's value; the active one keeps its own. */
  function SyncWrite(p: Buffered, sw: nat): (r: Buffered)
    requires Good(p) && sw < 2
    ensures Good(r) && r.ty == p.ty
    ensures Background(r, sw) == p.buffers[WriteBuffer] && Active(r, sw) == Active(p, sw)
    ensures r.buffers[WriteBuffer] == p.buffers[WriteBuffer] && r.initialized == p.initialized
  {
    p.(buffers := p.buffers[Other(sw) := p.buffers[WriteBuffer]])
  }

  /** `synchroniseReadBuffers`: the background buffer takes the active buffer's value. */
  function SyncRead(p: Buffered, sw: nat): (r: Buffered)
    requires Good(p) && sw < 2
    ensures Good(r) && r.ty == p.ty
    ensures Background(r, sw) == Active(p, sw) && Active(r, sw) == Active(p, sw)
    ensures r.buffers[WriteBuffer] == p.buffers[WriteBuffer] && r.initialized == p.initialized
  {
    p.(buffers := p.buffers[Other(sw) := p.buffers[sw]])
  }

  /** Reading back into the background twice is reading back once. */
  lemma SyncReadIdempotent(p: Buffered, sw: nat)
    requires Good(p) && sw < 2
    ensures SyncRead(SyncRead(p, sw), sw) == SyncRead(p, sw)
  {
    var once := SyncRead(p, sw);
    assert SyncRead(once, sw).buffers == once.buffers;
  }

  predicate RegistryGood(reg: map<string, Buffered>) {
    forall k :: k in reg ==> Good(reg[k])
  }

  // Commands.

  /** What the command schema refuses: not an object, a required property missing, or one of the wrong type. */
  datatype SchemaError = NotAnObject | MissingProperty(property: string) | WrongType(property: string)

  /**
   * The command schema: an object with the properties "name", "value" and
   * "version" (the first one missing is reported), a string name and an
   * array version.
   */
  function SchemaCheck(c: Json): Option<SchemaError> {
    if !c.Object? then Some(NotAnObject)
    else if !Contains(c, "name") then Some(MissingProperty("name"))
    else if !Contains(c, "value") then Some(MissingProperty("value"))
    else if !Contains(c, "version") then Some(MissingProperty("version"))
    else if !Get(c, "version").value.Array? then Some(WrongType("version"))
    else if !Get(c, "name").value.String? then Some(WrongType("name"))
    else None
  }

  /** The one status message each command leads to. */
  datatype Status =
    /** "Command invalid: " and the schema's complaint. */
    | CommandInvalid(reason: SchemaError)
    /** "Command invalid: " and the library's complaint about `version[0]`. */
    | VersionUnreadable
    /** "Inconsistent major version of the communication interface! ..." */
    | InconsistentMajor(provided: Json, expected: int)
    /** "Parameter ID: <name> not found. Command ignored." */
    | NotFound(name: string)
    /** "Parameter value updated successfully." */
    | Updated
    /** The warning the setter returned. */
    | Rejected(warning: SetWarning)

  /** The library's `==` between a JSON number and an integer; anything else is unequal. */
  predicate NumberEquals(j: Json, n: int)
    ensures NumberEquals(j, n) ==> j.NumberInteger? || j.NumberUnsigned? || j.NumberFloat?
  {
    (j.NumberInteger? && j.i == n) || (j.NumberUnsigned? && j.n == n) || (j.NumberFloat? && j.x == n as real)
  }

  /**
   * `validateJsonCommand`: `None` when the command passes the schema and its
   * `version[0]` equals the major version, otherwise the status it writes.
   * An empty version array stands for the throwing access.
   */
  function Validate(c: Json): (r: Option<Status>)
    ensures r.Some? ==> !r.value.NotFound? && !r.value.Updated? && !r.value.Rejected?
  {
    match SchemaCheck(c)
    case Some(e) => Some(CommandInvalid(e))
    case None =>
      var version := Get(c, "version").value.elems;
      if |version| == 0 then Some(VersionUnreadable)
      else if NumberEquals(version[0], Major) then None
      else Some(InconsistentMajor(version[0], Major))
  }

  /** A command the background task accepts, described member by member. */
  predicate WellFormedCommand(c: Json) {
    && c.Object?
    && Get(c, "name").Some? && Get(c, "name").value.String?
    && Contains(c, "value")
    && Get(c, "version").Some? && Get(c, "version").value.Array?
    && |Get(c, "version").value.elems| > 0
    && NumberEquals(Get(c, "version").value.elems[0], Major)
  }

  /** Validation accepts exactly the well-formed commands. */
  lemma ValidateAccepts(c: Json)
    ensures Validate(c).None? <==> WellFormedCommand(c)
  {
  }

  /** The parameter a valid command names. */
  function CommandName(c: Json): string
    requires Validate(c).None?
  {
    Get(c, "name").value.s
  }

  /**
   * A valid command for a registered parameter whose setter meets a value
   * that is not a string where an enumerator's name is expected. The string
   * conversion throws, and nothing from the setter up to the background task's loop
   * catches it.
   */
  predicate Throws(reg: map<string, Buffered>, c: Json)
    requires RegistryGood(reg)
    ensures Throws(reg, c) ==> Validate(c).None? && CommandName(c) in reg
    ensures Throws(reg, c) ==> reg[CommandName(c)].ty.EnumT? || EnumArray(reg[CommandName(c)].ty)
  {
    && Validate(c).None? && CommandName(c) in reg
    && var w := SetJsonValue(reg[CommandName(c)], Get(c, "value").value).1;
       w.Some? && w.value.NotAString?
  }

  /**
   * `executeJsonCommand`: an invalid command or an unknown name changes
   * nothing; a value the setter accepts is copied to the background buffer;
   * one it refuses stays where the setter left it. Each of these writes one
   * status. A command whose setter throws writes none (`None`): the write
   * buffer keeps what the setter wrote before the exception.
   */
  function Execute(reg: map<string, Buffered>, sw: nat, c: Json): (r: (map<string, Buffered>, Option<Status>))
    requires RegistryGood(reg) && sw < 2
    ensures RegistryGood(r.0) && r.0.Keys == reg.Keys
    ensures r.1.None? <==> Throws(reg, c)
  {
    match Validate(c)
    case Some(s) => (reg, Some(s))
    case None =>
      var name := CommandName(c);
      if name !in reg then (reg, Some(NotFound(name)))
      else
        var (p, w) := SetJsonValue(reg[name], Get(c, "value").value);
        if w.None? then (reg[name := SyncWrite(p, sw)], Some(Updated))
        else if w.value.NotAString? then (reg[name := p], None)
        else (reg[name := p], Some(Rejected(w.value)))
  }

  /**
   * A valid command giving an enumeration parameter anything but a string
   * throws, and leaves the registry as it was.
   */
  lemma NonStringEnumeratorThrows(reg: map<string, Buffered>, sw: nat, c: Json)
    requires RegistryGood(reg) && sw < 2 && Validate(c).None? && CommandName(c) in reg
    requires reg[CommandName(c)].ty.EnumT? && !Get(c, "value").value.String?
    ensures Throws(reg, c) && Execute(reg, sw, c) == (reg, None)
  {
    var name := CommandName(c);
    assert reg[name := reg[name]] == reg;
  }

  /**
   * A valid command for an array of enumerators throws exactly when its
   * elements hold a run of known names, no longer than the array, followed
   * by a value that is not a string.
   */
  lemma EnumArrayCommandThrows(reg: map<string, Buffered>, c: Json)
    requires RegistryGood(reg) && Validate(c).None? && CommandName(c) in reg && EnumArray(reg[CommandName(c)].ty)
    ensures var p := reg[CommandName(c)];
      var js := Elements(Get(c, "value").value);
      var n := KnownPrefix(p.ty.elem.names, js);
      Throws(reg, c) <==> n < |js| && n <= |p.buffers[WriteBuffer].elems| && !js[n].String?
  {
    var p := reg[CommandName(c)];
    EnumArrayMeetsNonString(p.buffers[WriteBuffer].elems, p.ty.elem.names, Elements(Get(c, "value").value), 0);
  }

  /** The commands a message holds: an object is one, an array its elements in order, anything else none. */
  function Commands(j: Json): (r: seq<Json>)
    ensures r == [] <==> !j.Object? && (!j.Array? || j.elems == [])
  {
    if j.Object? then [j] else if j.Array? then j.elems else []
  }

  /**
   * The commands executed in order: the registry they leave, the statuses
   * they write, and whether one of them threw. A command that throws ends
   * the background task: it writes no status and the commands after it never run.
   */
  function ExecuteAll(reg: map<string, Buffered>, sw: nat, cs: seq<Json>): (r: (map<string, Buffered>, seq<Status>, bool))
    requires RegistryGood(reg) && sw < 2
    ensures RegistryGood(r.0) && r.0.Keys == reg.Keys
    ensures r.2 ==> |r.1| < |cs|
    ensures !r.2 ==> |r.1| == |cs|
  {
    if |cs| == 0 then (reg, [], false)
    else Continue(ExecuteAll(reg, sw, cs[..|cs| - 1]), sw, cs[|cs| - 1])
  }

  /** The run of the first `i + 1` commands when the first `i` have not thrown: command `i` is executed. */
  lemma ExecuteAllNext(reg: map<string, Buffered>, sw: nat, cs: seq<Json>, i: nat, first: seq<Status>,
                       run: (map<string, Buffered>, seq<Status>, bool), e: (map<string, Buffered>, Option<Status>))
    requires RegistryGood(reg) && sw < 2 && i < |cs|
    requires run == ExecuteAll(reg, sw, cs[..i]) && !run.2 && e == Execute(run.0, sw, cs[i])
    ensures var next := ExecuteAll(reg, sw, cs[..i + 1]);
      && next.0 == e.0 && next.2 == e.1.None?
      && first + next.1 == first + run.1 + (if e.1.Some? then [e.1.value] else [])
  {
    assert cs[..i + 1][..i] == cs[..i] && cs[..i + 1][i] == cs[i];
    assert ExecuteAll(reg, sw, cs[..i + 1]) == Continue(run, sw, cs[i]);
    if e.1.Some? {
      assert first + (run.1 + [e.1.value]) == first + run.1 + [e.1.value];
    }
  }

  /** One more command after a run: nothing happens once the run has thrown. */
  function Continue(run: (map<string, Buffered>, seq<Status>, bool), sw: nat, c: Json): (r: (map<string, Buffered>, seq<Status>, bool))
    requires RegistryGood(run.0) && sw < 2
    ensures RegistryGood(r.0) && r.0.Keys == run.0.Keys
    ensures run.2 ==> r == run
    ensures !run.2 ==> r.0 == Execute(run.0, sw, c).0 && (r.2 <==> Throws(run.0, c))
    ensures !run.2 ==> r.1 == run.1 + (if r.2 then [] else [Execute(run.0, sw, c).1.value])
  {
    if run.2 then run
    else
      var (after, s) := Execute(run.0, sw, c);
      if s.None? then (after, run.1, true) else (after, run.1 + [s.value], false)
  }

  /** Statuses written before a run do not change what one more command does. */
  lemma ContinueAfter(first: seq<Status>, run: (map<string, Buffered>, seq<Status>, bool), sw: nat, c: Json)
    requires RegistryGood(run.0) && sw < 2
    ensures var r := Continue(run, sw, c);
      Continue((run.0, first + run.1, run.2), sw, c) == (r.0, first + r.1, r.2)
  {
    if !run.2 && !Throws(run.0, c) {
      var s := Execute(run.0, sw, c).1.value;
      assert (first + run.1) + [s] == first + (run.1 + [s]);
    }
  }

  /**
   * A run of commands that halts stops at its first throwing command: the
   * commands before it ran without throwing and wrote the statuses, and
   * the registry is what that command's setter left.
   */
  lemma {:induction false} HaltsAtFirstThrow(reg: map<string, Buffered>, sw: nat, cs: seq<Json>)
    requires RegistryGood(reg) && sw < 2 && ExecuteAll(reg, sw, cs).2
    ensures var (after, statuses, _) := ExecuteAll(reg, sw, cs);
      var k := |statuses|;
      var (before, earlier, halted) := ExecuteAll(reg, sw, cs[..k]);
      && earlier == statuses && !halted
      && Throws(before, cs[k]) && after == Execute(before, sw, cs[k]).0
  {
    var front := cs[..|cs| - 1];
    var run := ExecuteAll(reg, sw, front);
    assert ExecuteAll(reg, sw, cs) == Continue(run, sw, cs[|cs| - 1]);
    if run.2 {
      HaltsAtFirstThrow(reg, sw, front);
      var k := |run.1|;
      assert cs[..k] == front[..k] && cs[k] == front[k];
    } else {
      assert ExecuteAll(reg, sw, cs).1 == run.1;
      assert cs[..|run.1|] == front;
    }
  }

  /** No command changes what the real-time side reads. */
  lemma ExecuteKeepsActive(reg: map<string, Buffered>, sw: nat, c: Json)
    requires RegistryGood(reg) && sw < 2
    ensures forall k :: k in reg ==> Active(Execute(reg, sw, c).0[k], sw) == Active(reg[k], sw)
  {
  }

  /** A valid command touches at most the parameter it names. */
  lemma ExecuteKeepsOthers(reg: map<string, Buffered>, sw: nat, c: Json, k: string)
    requires RegistryGood(reg) && sw < 2 && k in reg
    requires Validate(c).None? ==> k != CommandName(c)
    ensures Execute(reg, sw, c).0[k] == reg[k]
  {
  }

  /** An invalid command or an unknown name changes nothing. */
  lemma IgnoredCommandChangesNothing(reg: map<string, Buffered>, sw: nat, c: Json)
    requires RegistryGood(reg) && sw < 2
    requires Validate(c).Some? || CommandName(c) !in reg
    ensures Execute(reg, sw, c) == (reg, Some(if Validate(c).Some? then Validate(c).value else NotFound(CommandName(c))))
  {
  }

  /**
   * A value the setter accepts is what the named parameter's background
   * buffer holds afterwards, and the parameter is initialized.
   */
  lemma UpdatedValueInBackground(reg: map<string, Buffered>, sw: nat, c: Json)
    requires RegistryGood(reg) && sw < 2
    ensures Execute(reg, sw, c).1 == Some(Updated) <==>
      Validate(c).None? && CommandName(c) in reg && SetJsonValue(reg[CommandName(c)], Get(c, "value").value).1.None?
    ensures Execute(reg, sw, c).1 == Some(Updated) ==>
      var p := reg[CommandName(c)];
      var r := Execute(reg, sw, c).0[CommandName(c)];
      && r.initialized
      && (!EnumArray(p.ty) ==> Decode(p.ty, p.limitMin, p.limitMax, Get(c, "value").value) == Ok(Background(r, sw)))
  {
    if Execute(reg, sw, c).1 == Some(Updated) {
      var p := reg[CommandName(c)];
      if !EnumArray(p.ty) {
        SetJsonValueDecodes(p, Get(c, "value").value);
      }
    }
  }

  /**
   * A valid command for a registered parameter (not an array of
   * enumerators) whose value decodes: the decoded value goes to the write
   * buffer and on to the background buffer, and the parameter is initialized.
   */
  lemma AcceptedCommandExecutes(reg: map<string, Buffered>, sw: nat, c: Json, v: Value)
    requires RegistryGood(reg) && sw < 2 && Validate(c).None? && CommandName(c) in reg
    requires var p := reg[CommandName(c)];
      !EnumArray(p.ty) && Decode(p.ty, p.limitMin, p.limitMax, Get(c, "value").value) == Ok(v)
    ensures var p := reg[CommandName(c)];
      Execute(reg, sw, c) ==
        (reg[CommandName(c) := SyncWrite(p.(buffers := p.buffers[WriteBuffer := v], initialized := true), sw)], Some(Updated))
  {
    var p := reg[CommandName(c)];
    SetJsonValueDecodes(p, Get(c, "value").value);
  }

  /** Executing a whole message never changes what the real-time side reads. */
  lemma {:induction false} ExecuteAllKeepsActive(reg: map<string, Buffered>, sw: nat, cs: seq<Json>)
    requires RegistryGood(reg) && sw < 2
    ensures forall k :: k in reg ==> Active(ExecuteAll(reg, sw, cs).0[k], sw) == Active(reg[k], sw)
  {
    if |cs| > 0 {
      var before := ExecuteAll(reg, sw, cs[..|cs| - 1]).0;
      ExecuteAllKeepsActive(reg, sw, cs[..|cs| - 1]);
      ExecuteKeepsActive(before, sw, cs[|cs| - 1]);
    }
  }

  /**
   * A command that fails validation leaves the registry as the commands
   * before it left it and adds its status, unless one of those threw.
   */
  lemma InvalidCommandSkipped(reg: map<string, Buffered>, sw: nat, cs: seq<Json>, c: Json)
    requires RegistryGood(reg) && sw < 2 && Validate(c).Some?
    ensures var (before, statuses, halted) := ExecuteAll(reg, sw, cs);
      ExecuteAll(reg, sw, cs + [c]) ==
        if halted then (before, statuses, true) else (before, statuses + [Validate(c).value], false)
  {
    assert (cs + [c])[..|cs|] == cs;
  }

  /**
   * Executing two runs of commands one after the other is executing them
   * joined; once the first run has thrown, the second never runs.
   */
  lemma {:induction false} ExecuteAllAppend(reg: map<string, Buffered>, sw: nat, cs: seq<Json>, later: seq<Json>)
    requires RegistryGood(reg) && sw < 2
    ensures var (mid, first, h1) := ExecuteAll(reg, sw, cs);
      var (after, second, h2) := ExecuteAll(mid, sw, later);
      ExecuteAll(reg, sw, cs + later) == if h1 then (mid, first, true) else (after, first + second, h2)
    decreases |later|
  {
    var (mid, first, h1) := ExecuteAll(reg, sw, cs);
    if |later| == 0 {
      assert cs + later == cs;
      assert first + [] == first;
    } else {
      var front := later[..|later| - 1];
      ExecuteAllAppend(reg, sw, cs, front);
      assert (cs + later)[..|cs + later| - 1] == cs + front;
      assert (cs + later)[|cs + later| - 1] == later[|later| - 1];
      if !h1 {
        ContinueAfter(first, ExecuteAll(mid, sw, front), sw, later[|later| - 1]);
      }
    }
  }

  /** A run of commands that threw is not changed by the commands after it. */
  lemma HaltIgnoresLater(reg: map<string, Buffered>, sw: nat, cs: seq<Json>, later: seq<Json>)
    requires RegistryGood(reg) && sw < 2 && ExecuteAll(reg, sw, cs).2
    ensures ExecuteAll(reg, sw, cs + later) == ExecuteAll(reg, sw, cs)
  {
    ExecuteAllAppend(reg, sw, cs, later);
  }

  /** Commands that do not validly name a parameter leave it as it was. */
  lemma {:induction false} LaterCommandsKeep(reg: map<string, Buffered>, sw: nat, later: seq<Json>, name: string)
    requires RegistryGood(reg) && sw < 2 && name in reg
    requires forall k :: 0 <= k < |later| ==> Validate(later[k]).Some? || CommandName(later[k]) != name
    ensures ExecuteAll(reg, sw, later).0[name] == reg[name]
  {
    if |later| > 0 {
      var front := later[..|later| - 1];
      LaterCommandsKeep(reg, sw, front, name);
      ExecuteKeepsOthers(ExecuteAll(reg, sw, front).0, sw, later[|later| - 1], name);
    }
  }

  /**
   * The last command of a message that the setter accepts for a parameter
   * decides its background buffer, when no later command names it.
   */
  lemma LastAcceptedWins(reg: map<string, Buffered>, sw: nat, cs: seq<Json>, later: seq<Json>, name: string)
    requires RegistryGood(reg) && sw < 2 && |cs| > 0 && |ExecuteAll(reg, sw, cs).1| == |cs|
    requires ExecuteAll(reg, sw, cs).1[|cs| - 1].Updated? && CommandName(cs[|cs| - 1]) == name
    requires forall k :: 0 <= k < |later| ==> Validate(later[k]).Some? || CommandName(later[k]) != name
    ensures name in reg
    ensures ExecuteAll(reg, sw, cs + later).0[name] == ExecuteAll(reg, sw, cs).0[name]
  {
    var (before, statuses, halted) := ExecuteAll(reg, sw, cs[..|cs| - 1]);
    assert !halted && Execute(before, sw, cs[|cs| - 1]).1 == Some(ExecuteAll(reg, sw, cs).1[|cs| - 1]);
    UpdatedValueInBackground(before, sw, cs[|cs| - 1]);
    ExecuteAllAppend(reg, sw, cs, later);
    LaterCommandsKeep(ExecuteAll(reg, sw, cs).0, sw, later, name);
  }

  // Components and the buffer switch.

  /**
   * A registered component as validation sees it: the registry keys of its
   * parameters, whether they were modified, and what its `verifyParameters`
   * answers (a warning text, or nothing).
   */
  datatype ComponentEntry = ComponentEntry(name: string, parameters: seq<string>, modified: bool, verdict: Option<string>)

  /** A modified component whose check warns. */
  predicate Fails(e: ComponentEntry) {
    e.modified && e.verdict.Some?
  }

  /** The first component, in registry order, that fails its check. */
  function FirstFailing(comps: seq<ComponentEntry>): (r: Option<nat>)
    ensures r.Some? ==> r.value < |comps| && Fails(comps[r.value]) && forall k :: 0 <= k < r.value ==> !Fails(comps[k])
    ensures r.None? ==> forall k :: 0 <= k < |comps| ==> !Fails(comps[k])
  {
    if |comps| == 0 then None
    else if Fails(comps[0]) then Some(0)
    else
      match FirstFailing(comps[1..])
      case None => None
      case Some(i) => Some(i + 1)
  }

  /** The components with the modified flag of the first `n` cleared. */
  function ClearedBefore(comps: seq<ComponentEntry>, n: nat): seq<ComponentEntry> {
    seq(|comps|, k requires 0 <= k < |comps| => if k < n then comps[k].(modified := false) else comps[k])
  }

  /** `synchroniseReadBuffers` on each named parameter. */
  function SyncReadAll(reg: map<string, Buffered>, sw: nat, names: seq<string>): (r: map<string, Buffered>)
    requires RegistryGood(reg) && sw < 2
    requires forall k :: 0 <= k < |names| ==> names[k] in reg
    ensures RegistryGood(r) && r.Keys == reg.Keys
    ensures forall k :: k in reg ==> r[k] == if k in names then SyncRead(reg[k], sw) else reg[k]
  {
    if |names| == 0 then reg
    else
      var front := names[..|names| - 1];
      var last := names[|names| - 1];
      var before := SyncReadAll(reg, sw, front);
      assert forall k :: k in names <==> k in front || k == last;
      SyncReadIdempotent(reg[last], sw);
      before[last := SyncRead(before[last], sw)]
  }

  /**
   * The background task's state: the buffer switch, the parameter
   * registry, the component registry, the status queue, and whether an
   * uncaught exception has ended the background task.
   */
  datatype Setting = Setting(bufferSwitch: nat, registry: map<string, Buffered>, components: seq<ComponentEntry>, status: seq<Status>, halted: bool)

  /** A switch of 0 or 1, three buffers everywhere, and every component's parameters registered. */
  predicate SettingGood(st: Setting) {
    && st.bufferSwitch < 2
    && RegistryGood(st.registry)
    && forall i, k :: 0 <= i < |st.components| && 0 <= k < |st.components[i].parameters| ==>
         st.components[i].parameters[k] in st.registry
  }

  /**
   * `processJsonCommands` on a running task: the commands of the message in
   * order, each status queued, up to a command that throws, which ends the
   * task.
   */
  function Process(st: Setting, message: Json): (r: Setting)
    requires SettingGood(st) && !st.halted
    ensures SettingGood(r) && r.bufferSwitch == st.bufferSwitch && r.components == st.components
  {
    var (reg, statuses, halted) := ExecuteAll(st.registry, st.bufferSwitch, Commands(message));
    st.(registry := reg, status := st.status + statuses, halted := halted)
  }

  /** A run of the message's commands that has thrown, or has reached the end, is the whole of `Process`. */
  lemma ProcessedUpTo(st: Setting, message: Json, i: nat)
    requires SettingGood(st) && !st.halted && i <= |Commands(message)|
    requires i == |Commands(message)| || ExecuteAll(st.registry, st.bufferSwitch, Commands(message)[..i]).2
    ensures var run := ExecuteAll(st.registry, st.bufferSwitch, Commands(message)[..i]);
      Process(st, message) == st.(registry := run.0, status := st.status + run.1, halted := run.2)
  {
    var cs := Commands(message);
    if i < |cs| {
      HaltIgnoresLater(st.registry, st.bufferSwitch, cs[..i], cs[i..]);
      assert cs[..i] + cs[i..] == cs;
    } else {
      assert cs[..|cs|] == cs;
    }
  }

  /**
   * `validateModifiedComponents`: the components are checked in order; the
   * first one that fails has its parameters read back from the active
   * buffers and its warning returned, and every modified component before
   * it loses its flag. Without a failure every flag is cleared.
   */
  function ValidateComponents(st: Setting): (r: (Setting, Option<string>))
    requires SettingGood(st)
    ensures SettingGood(r.0) && r.0.bufferSwitch == st.bufferSwitch && r.0.status == st.status
    ensures r.0.registry.Keys == st.registry.Keys && |r.0.components| == |st.components|
  {
    match FirstFailing(st.components)
    case Some(i) =>
      var reg := SyncReadAll(st.registry, st.bufferSwitch, st.components[i].parameters);
      (st.(registry := reg, components := ClearedBefore(st.components, i)), st.components[i].verdict)
    case None => (st.(components := ClearedBefore(st.components, |st.components|)), None)
  }

  /** `triggerReadBufferSynchronisation`: every parameter's background takes its active value. */
  function Trigger(st: Setting): (r: Setting)
    requires SettingGood(st)
    ensures SettingGood(r) && r.registry.Keys == st.registry.Keys
  {
    st.(registry := map k | k in st.registry :: SyncRead(st.registry[k], st.bufferSwitch))
  }

  /** `BufferSwitch::flipState`: the real-time side turns to the other read buffer. */
  function Flip(st: Setting): (r: Setting)
    requires SettingGood(st)
    ensures SettingGood(r)
    ensures r.bufferSwitch != st.bufferSwitch && r.(bufferSwitch := st.bufferSwitch) == st
  {
    st.(bufferSwitch := Other(st.bufferSwitch))
  }

  /**
   * `receiveJsonCommand` as written: after a message and the component
   * checks, the switch flips and the buffers are read back only when a
   * check returned a warning. A message that ends the background task skips the checks.
   */
  function ReceiveAsWritten(st: Setting, message: Option<Json>): (r: Setting)
    requires SettingGood(st)
    ensures SettingGood(r)
    ensures st.halted ==> r == st
  {
    if st.halted || message.None? then st
    else
      var processed := Process(st, message.value);
      if processed.halted then processed
      else
        var (checked, warning) := ValidateComponents(processed);
        if warning.Some? then Trigger(Flip(checked)) else checked
  }

  /**
   * `receiveJsonCommand` as evidently intended: the switch flips and the
   * buffers are read back when every check passed; after a warning the
   * state stays as the check left it. A message that ends the background task skips
   * the checks.
   */
  function Receive(st: Setting, message: Option<Json>): (r: Setting)
    requires SettingGood(st)
    ensures SettingGood(r)
    ensures st.halted ==> r == st
  {
    if st.halted || message.None? then st
    else
      var processed := Process(st, message.value);
      if processed.halted then processed
      else
        var (checked, warning) := ValidateComponents(processed);
        if warning.None? then Trigger(Flip(checked)) else checked
  }

  /**
   * The checks warn exactly when some modified component fails; they never
   * change what the real-time side reads; and when none fails, the registry
   * is untouched and no component is left marked modified.
   */
  lemma ValidateComponentsOutcome(st: Setting)
    requires SettingGood(st)
    ensures var (r, w) := ValidateComponents(st);
      && (w.Some? <==> exists k :: 0 <= k < |st.components| && Fails(st.components[k]))
      && (forall n :: n in st.registry ==> Active(r.registry[n], st.bufferSwitch) == Active(st.registry[n], st.bufferSwitch))
      && (w.None? ==> r.registry == st.registry && forall k :: 0 <= k < |r.components| ==> !r.components[k].modified)
  {
    var first := FirstFailing(st.components);
    if first.Some? {
      assert Fails(st.components[first.value]);
    }
  }

  /**
   * The first failing component's warning is returned, and its parameters'
   * background buffers are rolled back to the active values; every other
   * parameter is untouched. The components before it lose their flag, the
   * others keep theirs.
   */
  lemma FailingComponentRolledBack(st: Setting)
    requires SettingGood(st) && FirstFailing(st.components).Some?
    ensures var i := FirstFailing(st.components).value;
      var own := st.components[i].parameters;
      var (r, w) := ValidateComponents(st);
      && w == st.components[i].verdict
      && (forall n :: n in st.registry && n in own ==>
            Background(r.registry[n], st.bufferSwitch) == Active(st.registry[n], st.bufferSwitch))
      && (forall n :: n in st.registry && n !in own ==> r.registry[n] == st.registry[n])
      && (forall k :: 0 <= k < i ==> !r.components[k].modified)
      && (forall k :: i <= k < |st.components| ==> r.components[k] == st.components[k])
  {
  }

  /** After the read-back every background buffer holds its active value; nothing else changes. */
  lemma TriggerSynchronises(st: Setting)
    requires SettingGood(st)
    ensures var r := Trigger(st);
      forall n :: n in st.registry ==>
        && Active(r.registry[n], st.bufferSwitch) == Active(st.registry[n], st.bufferSwitch)
        && Background(r.registry[n], st.bufferSwitch) == Active(st.registry[n], st.bufferSwitch)
        && r.registry[n].buffers[WriteBuffer] == st.registry[n].buffers[WriteBuffer]
  {
  }

  /**
   * As written, a message whose changes pass every check leaves the switch
   * where it was, so the real-time side keeps reading the values it read
   * before: accepted values are never activated.
   */
  lemma AcceptedNotActivatedAsWritten(st: Setting, message: Json)
    requires SettingGood(st) && !st.halted && ValidateComponents(Process(st, message)).1.None?
    ensures var r := ReceiveAsWritten(st, Some(message));
      && r.bufferSwitch == st.bufferSwitch
      && forall n :: n in st.registry ==> Active(r.registry[n], r.bufferSwitch) == Active(st.registry[n], st.bufferSwitch)
  {
    var processed := Process(st, message);
    ExecuteAllKeepsActive(st.registry, st.bufferSwitch, Commands(message));
    ValidateComponentsOutcome(processed);
  }

  /**
   * As intended, the same message, unless it ends the background task, turns the
   * real-time side to the buffers the commands filled, and the other read
   * buffer then holds the same values.
   */
  lemma AcceptedActivated(st: Setting, message: Json)
    requires SettingGood(st) && !st.halted && ValidateComponents(Process(st, message)).1.None?
    ensures var processed := Process(st, message);
      var r := Receive(st, Some(message));
      !processed.halted ==>
        && r.bufferSwitch == Other(st.bufferSwitch)
        && forall n :: n in st.registry ==>
             && Active(r.registry[n], r.bufferSwitch) == Background(processed.registry[n], st.bufferSwitch)
             && Background(r.registry[n], r.bufferSwitch) == Active(r.registry[n], r.bufferSwitch)
  {
    var processed := Process(st, message);
    ValidateComponentsOutcome(processed);
    var checked := ValidateComponents(processed).0;
    TriggerSynchronises(Flip(checked));
  }

  /**
   * As intended, a message some check refuses leaves the switch, and so
   * what the real-time side reads, as it was.
   */
  lemma RefusedNotActivated(st: Setting, message: Json)
    requires SettingGood(st) && !st.halted && ValidateComponents(Process(st, message)).1.Some?
    ensures var r := Receive(st, Some(message));
      && r.bufferSwitch == st.bufferSwitch
      && forall n :: n in st.registry ==> Active(r.registry[n], r.bufferSwitch) == Active(st.registry[n], st.bufferSwitch)
  {
    ExecuteAllKeepsActive(st.registry, st.bufferSwitch, Commands(message));
    ValidateComponentsOutcome(Process(st, message));
  }

  /**
   * A message that throws ends the background task on both versions of
   * `receiveJsonCommand`: the checks never run, the switch stays and what
   * the real-time side reads is unchanged.
   */
  lemma ThrowingMessageHalts(st: Setting, message: Json)
    requires SettingGood(st) && !st.halted && Process(st, message).halted
    ensures var r := Receive(st, Some(message));
      && r == ReceiveAsWritten(st, Some(message)) == Process(st, message)
      && r.bufferSwitch == st.bufferSwitch && r.components == st.components
      && forall n :: n in st.registry ==> Active(r.registry[n], r.bufferSwitch) == Active(st.registry[n], st.bufferSwitch)
  {
    ExecuteAllKeepsActive(st.registry, st.bufferSwitch, Commands(message));
  }

  // Commands as the unit tests write them.

  function Command(name: string, v: int, version: Json): Json {
    Object([("name", String(name)), ("value", NumberInteger(v)), ("version", version)])
  }

  /** A command carrying version [0, 1] passes validation and names its parameter. */
  lemma CurrentVersionCommand(name: string, v: int)
    ensures var c := Command(name, v, Array([NumberInteger(0), NumberInteger(1)]));
      && Validate(c).None? && CommandName(c) == name && Get(c, "value") == Some(NumberInteger(v))
  {
    var c := Command(name, v, Array([NumberInteger(0), NumberInteger(1)]));
    var fs := c.fields;
    assert fs[1..][0] == fs[1] && fs[1..][1..][0] == fs[2];
    assert Get(c, "name") == Some(String(name));
    assert Get(c, "value") == Some(NumberInteger(v));
    assert Get(c, "version") == Some(Array([NumberInteger(0), NumberInteger(1)]));
  }

  /** A command whose version is a string fails the schema at "version". */
  lemma StringVersionCommand(name: string, v: int)
    ensures Validate(Command(name, v, String(""))) == Some(CommandInvalid(WrongType("version")))
  {
    var c := Command(name, v, String(""));
    var fs := c.fields;
    assert fs[1..][0] == fs[1] && fs[1..][1..][0] == fs[2];
    assert Get(c, "name") == Some(String(name));
    assert Get(c, "value") == Some(NumberInteger(v));
    assert Get(c, "version") == Some(String(""));
  }

  /** A command whose major version is 99 is refused for its version. */
  lemma UnsupportedVersionCommand(name: string, v: int)
    ensures Validate(Command(name, v, Array([NumberInteger(99), NumberInteger(0)]))) == Some(InconsistentMajor(NumberInteger(99), 0))
  {
    var c := Command(name, v, Array([NumberInteger(99), NumberInteger(0)]));
    var fs := c.fields;
    assert fs[1..][0] == fs[1] && fs[1..][1..][0] == fs[2];
    assert Get(c, "name") == Some(String(name));
    assert Get(c, "value") == Some(NumberInteger(v));
    assert Get(c, "version") == Some(Array([NumberInteger(99), NumberInteger(0)]));
  }

  // One accepted command, on both versions of `receiveJsonCommand`.

  /** A message holding one command is that command executed; it ends the background task iff the command throws. */
  lemma SingleCommandProcessed(st: Setting, c: Json)
    requires SettingGood(st) && !st.halted && c.Object?
    ensures Process(st, c).registry == Execute(st.registry, st.bufferSwitch, c).0
    ensures Process(st, c).halted <==> Throws(st.registry, c)
  {
    assert Commands(c) == [c] && [c][..0] == [];
    assert ExecuteAll(st.registry, st.bufferSwitch, []) == (st.registry, [], false);
    assert ExecuteAll(st.registry, st.bufferSwitch, [c]).0 == Execute(st.registry, st.bufferSwitch, c).0;
  }

  /**
   * As written: a command sets a new value, no check warns, and yet the
   * real-time side does not read the new value after the message.
   */
  lemma AcceptedValueNotReadAsWritten(st: Setting, c: Json, v: Value)
    requires SettingGood(st) && !st.halted && Validate(c).None? && CommandName(c) in st.registry
    requires var p := st.registry[CommandName(c)];
      && !EnumArray(p.ty) && Decode(p.ty, p.limitMin, p.limitMax, Get(c, "value").value) == Ok(v)
      && v != Active(p, st.bufferSwitch)
    requires ValidateComponents(Process(st, c)).1.None?
    ensures Background(Process(st, c).registry[CommandName(c)], st.bufferSwitch) == v
    ensures var r := ReceiveAsWritten(st, Some(c));
      Active(r.registry[CommandName(c)], r.bufferSwitch) != v
  {
    SingleCommandProcessed(st, c);
    AcceptedCommandExecutes(st.registry, st.bufferSwitch, c, v);
    AcceptedNotActivatedAsWritten(st, c);
  }

  /** As intended: the same command's value is what the real-time side reads after the message. */
  lemma AcceptedValueRead(st: Setting, c: Json, v: Value)
    requires SettingGood(st) && !st.halted && Validate(c).None? && CommandName(c) in st.registry
    requires var p := st.registry[CommandName(c)];
      !EnumArray(p.ty) && Decode(p.ty, p.limitMin, p.limitMax, Get(c, "value").value) == Ok(v)
    requires ValidateComponents(Process(st, c)).1.None?
    ensures var r := Receive(st, Some(c));
      Active(r.registry[CommandName(c)], r.bufferSwitch) == v
  {
    SingleCommandProcessed(st, c);
    AcceptedCommandExecutes(st.registry, st.bufferSwitch, c, v);
    AcceptedActivated(st, c);
  }

  /** The first failing component is the one that fails with none failing before it. */
  lemma FirstFailingIs(comps: seq<ComponentEntry>, i: nat)
    requires i < |comps| && Fails(comps[i]) && forall k :: 0 <= k < i ==> !Fails(comps[k])
    ensures FirstFailing(comps) == Some(i)
  {
    var r := FirstFailing(comps);
    assert r.Some?;
    assert !(r.value < i) && !(i < r.value);
  }

  /** Clearing one more flag changes that entry only, and nothing when it was clear. */
  lemma ClearedStep(comps: seq<ComponentEntry>, i: nat)
    requires i < |comps|
    ensures ClearedBefore(comps, i + 1) == ClearedBefore(comps, i)[i := comps[i].(modified := false)]
    ensures ClearedBefore(comps, i)[i] == comps[i]
    ensures forall k :: 0 <= k < |comps| ==> ClearedBefore(comps, i)[k].parameters == comps[k].parameters
  {
  }

  /** A registry with the same names and good parameters keeps a setting good. */
  lemma SameKeysGood(st: Setting, reg: map<string, Buffered>)
    requires SettingGood(st) && RegistryGood(reg) && reg.Keys == st.registry.Keys
    ensures SettingGood(st.(registry := reg))
  {
  }

  /** A setting whose registry is replaced by a good one with the same names is still good, whatever its status. */
  lemma RegistryReplaced(st: Setting, st': Setting)
    requires SettingGood(st) && RegistryGood(st'.registry) && st'.registry.Keys == st.registry.Keys
    requires st'.bufferSwitch == st.bufferSwitch && st'.components == st.components
    ensures SettingGood(st')
  {
  }

  /** One turn of the loop in `synchroniseReadBuffers`: parameter `j` read back after the first `j`. */
  lemma SyncReadNext(base: map<string, Buffered>, sw: nat, names: seq<string>, j: nat, reg: map<string, Buffered>)
    requires RegistryGood(base) && sw < 2 && j < |names|
    requires forall k :: 0 <= k < |names| ==> names[k] in base
    requires reg == SyncReadAll(base, sw, names[..j])
    ensures names[j] in reg && SyncReadAll(base, sw, names[..j + 1]) == reg[names[j] := SyncRead(reg[names[j]], sw)]
  {
    assert names[..j + 1][..j] == names[..j];
  }

  /** `reg` is `base` with every parameter outside `todo` read back. */
  predicate SyncedExcept(base: map<string, Buffered>, sw: nat, todo: set<string>, reg: map<string, Buffered>)
    requires RegistryGood(base) && sw < 2
  {
    && reg.Keys == base.Keys && todo <= reg.Keys
    && forall k :: k in reg ==> reg[k] == if k in todo then base[k] else SyncRead(base[k], sw)
  }

  lemma SyncedStep(base: map<string, Buffered>, sw: nat, todo: set<string>, reg: map<string, Buffered>, k: string)
    requires RegistryGood(base) && sw < 2 && SyncedExcept(base, sw, todo, reg) && k in todo
    ensures k in reg && Good(reg[k])
    ensures SyncedExcept(base, sw, todo - {k}, reg[k := SyncRead(reg[k], sw)])
  {
  }

  lemma SyncedAll(st: Setting, reg: map<string, Buffered>)
    requires SettingGood(st) && SyncedExcept(st.registry, st.bufferSwitch, {}, reg)
    ensures reg == Trigger(st).registry
  {
  }

  /**
   * The part of `executeJsonCommand` after validation: look the name up,
   * let the parameter's setter decide, and copy an accepted value. The
   * status is `None` when the setter throws.
   */
  method ExecuteValid(reg: map<string, Buffered>, sw: nat, command: Json) returns (after: map<string, Buffered>, s: Option<Status>)
    requires RegistryGood(reg) && sw < 2 && Validate(command).None?
    ensures (after, s) == Execute(reg, sw, command)
  {
    var name := Get(command, "name").value.s;
    if name !in reg {
      return reg, Some(NotFound(name));
    }
    var (p, warning) := SetJsonValue(reg[name], Get(command, "value").value);
    if warning.None? {
      after, s := reg[name := SyncWrite(p, sw)], Some(Updated);
    } else if warning.value.NotAString? {
      after, s := reg[name := p], None;
    } else {
      after, s := reg[name := p], Some(Rejected(warning.value));
    }
  }

  /** The loop over the registry: every parameter's read buffer synchronised, in some order. */
  method ReadBackAll(base: map<string, Buffered>, sw: nat) returns (reg: map<string, Buffered>)
    requires RegistryGood(base) && sw < 2
    ensures SyncedExcept(base, sw, {}, reg)
  {
    var todo := base.Keys;
    reg := base;
    while todo != {}
      invariant SyncedExcept(base, sw, todo, reg)
      decreases |todo|
    {
      var k :| k in todo;
      SyncedStep(base, sw, todo, reg, k);
      reg := reg[k := SyncRead(reg[k], sw)];
      todo := todo - {k};
    }
  }

  // The background task object.

  /**
   * `ParameterSetting`, with the buffer switch, the two registries and the
   * status queue held as its own state. `halted` records that an uncaught
   * exception has left the background task; a method that would throw sets it and
   * returns, and every caller returns at once.
   */
  class ParameterSetting {
    var bufferSwitch: nat
    var registry: map<string, Buffered>
    var components: seq<ComponentEntry>
    var status: seq<Status>
    var halted: bool

    function State(): Setting
      reads this
    {
      Setting(bufferSwitch, registry, components, status, halted)
    }

    ghost predicate Valid()
      reads this
    {
      SettingGood(State())
    }

    constructor(registry: map<string, Buffered>, components: seq<ComponentEntry>)
      requires SettingGood(Setting(0, registry, components, [], false))
      ensures Valid() && State() == Setting(0, registry, components, [], false)
    {
      bufferSwitch := 0;
      this.registry := registry;
      this.components := components;
      status := [];
      halted := false;
    }

    /** `validateJsonCommand`: the verdict, and the one status written when it is false. */
    method ValidateJsonCommand(command: Json) returns (valid: bool)
      requires Valid()
      modifies this`status
      ensures Valid()
      ensures valid <==> Validate(command).None?
      ensures State() == old(State()).(status := old(status) + if valid then [] else [Validate(command).value])
    {
      var schema := SchemaCheck(command);
      if schema.Some? {
        status := status + [CommandInvalid(schema.value)];
        return false;
      }
      var version := Get(command, "version").value.elems;
      if |version| == 0 {
        status := status + [VersionUnreadable];
        return false;
      }
      valid := NumberEquals(version[0], Major);
      if !valid {
        status := status + [InconsistentMajor(version[0], Major)];
      }
    }

    /** `executeJsonCommand`: the status it writes, or the halt when the setter throws. */
    method ExecuteJsonCommand(command: Json)
      requires Valid() && !halted
      modifies this`registry, this`status, this`halted
      ensures Valid()
      ensures var r := Execute(old(registry), bufferSwitch, command);
        State() == old(State()).(registry := r.0, status := old(status) + (if r.1.Some? then [r.1.value] else []), halted := r.1.None?)
    {
      var valid := ValidateJsonCommand(command);
      if !valid {
        IgnoredCommandChangesNothing(registry, bufferSwitch, command);
        return;
      }
      var reg, s := ExecuteValid(registry, bufferSwitch, command);
      registry := reg;
      if s.None? {
        halted := true;
      } else {
        status := status + [s.value];
      }
      RegistryReplaced(old(State()), State());
    }

    /**
     * `processJsonCommands`: an object once, an array element by element,
     * anything else not at all; a command that throws ends the loop.
     */
    method ProcessJsonCommands(commands: Json)
      requires Valid() && !halted
      modifies this`registry, this`status, this`halted
      ensures Valid()
      ensures State() == Process(old(State()), commands)
    {
      var cs := Commands(commands);
      ghost var st0 := State();
      ghost var run := ExecuteAll(st0.registry, st0.bufferSwitch, cs[..0]);
      assert cs[..0] == [] && st0.status + [] == st0.status;
      var i := 0;
      while i < |cs| && !halted
        invariant 0 <= i <= |cs|
        invariant Valid() && bufferSwitch == st0.bufferSwitch && components == st0.components
        invariant run == ExecuteAll(st0.registry, st0.bufferSwitch, cs[..i])
        invariant registry == run.0 && status == st0.status + run.1 && halted == run.2
      {
        ExecuteNext(cs, i, st0.registry, st0.status);
        i := i + 1;
        run := ExecuteAll(st0.registry, st0.bufferSwitch, cs[..i]);
      }
      ProcessedUpTo(st0, commands, i);
    }

    /** One turn of the loop in `processJsonCommands`: command `i` executed after the first `i`, none of which threw. */
    method ExecuteNext(cs: seq<Json>, i: nat, ghost reg0: map<string, Buffered>, ghost status0: seq<Status>)
      requires Valid() && i < |cs| && RegistryGood(reg0)
      requires var run := ExecuteAll(reg0, bufferSwitch, cs[..i]);
        registry == run.0 && status == status0 + run.1 && halted == run.2 && !halted
      modifies this`registry, this`status, this`halted
      ensures Valid()
      ensures var run := ExecuteAll(reg0, bufferSwitch, cs[..i + 1]);
        registry == run.0 && status == status0 + run.1 && halted == run.2
    {
      ghost var run := ExecuteAll(reg0, bufferSwitch, cs[..i]);
      ghost var e := Execute(registry, bufferSwitch, cs[i]);
      ExecuteJsonCommand(cs[i]);
      ExecuteAllNext(reg0, bufferSwitch, cs, i, status0, run, e);
    }

    /** `synchroniseReadBuffers` on each of the named parameters in turn. */
    method SynchroniseReadBuffers(names: seq<string>)
      requires Valid() && forall k :: 0 <= k < |names| ==> names[k] in registry
      modifies this`registry
      ensures Valid() && registry == SyncReadAll(old(registry), bufferSwitch, names)
    {
      ghost var st0 := State();
      var base, sw := registry, bufferSwitch;
      var reg := base;
      assert names[..0] == [];
      for j := 0 to |names|
        invariant reg == SyncReadAll(base, sw, names[..j])
      {
        SyncReadNext(base, sw, names, j, reg);
        reg := reg[names[j] := SyncRead(reg[names[j]], sw)];
      }
      assert names[..|names|] == names;
      registry := reg;
      RegistryReplaced(st0, State());
    }

    /** `validateModifiedComponents`. */
    method ValidateModifiedComponents() returns (warning: Option<string>)
      requires Valid()
      modifies this`registry, this`components
      ensures Valid()
      ensures (State(), warning) == ValidateComponents(old(State()))
    {
      ghost var comps0 := components;
      for i := 0 to |components|
        invariant Valid() && registry == old(registry) && |components| == |comps0|
        invariant components == ClearedBefore(comps0, i)
        invariant forall k :: 0 <= k < i ==> !Fails(comps0[k])
      {
        ClearedStep(comps0, i);
        if components[i].modified {
          if components[i].verdict.Some? {
            FirstFailingIs(comps0, i);
            SynchroniseReadBuffers(components[i].parameters);
            return components[i].verdict;
          }
          components := components[i := components[i].(modified := false)];
        }
      }
      return None;
    }

    /** `triggerReadBufferSynchronisation`: every registered parameter reads back its active buffer. */
    method TriggerReadBufferSynchronisation()
      requires Valid()
      modifies this`registry
      ensures Valid()
      ensures State() == Trigger(old(State()))
    {
      ghost var st0 := State();
      var reg := ReadBackAll(registry, bufferSwitch);
      SyncedAll(st0, reg);
      registry := reg;
    }

    /** `BufferSwitch::flipState`. */
    method FlipState()
      requires Valid()
      modifies this`bufferSwitch
      ensures Valid()
      ensures State() == Flip(old(State()))
    {
      bufferSwitch := Other(bufferSwitch);
    }

    /** `receiveJsonCommand` as written: the switch flips when a check warns. */
    method ReceiveJsonCommandAsWritten(message: Option<Json>)
      requires Valid()
      modifies this
      ensures Valid()
      ensures State() == ReceiveAsWritten(old(State()), message)
    {
      if message.Some? && !halted {
        ProcessJsonCommands(message.value);
        if halted {
          return;
        }
        var warning := ValidateModifiedComponents();
        if warning.Some? {
          FlipState();
          TriggerReadBufferSynchronisation();
        }
      }
    }

    /** `receiveJsonCommand` as evidently intended: the switch flips when every check passes. */
    method ReceiveJsonCommand(message: Option<Json>)
      requires Valid()
      modifies this
      ensures Valid()
      ensures State() == Receive(old(State()), message)
    {
      if message.Some? && !halted {
        ProcessJsonCommands(message.value);
        if halted {
          return;
        }
        var warning := ValidateModifiedComponents();
        if warning.None? {
          FlipState();
          TriggerReadBufferSynchronisation();
        }
      }
    }
  }
}
