// The configurator side of parameter setting: walking a manifest of
// serialised components to list every settable parameter with its type
// label, and turning that list into one JSON command per parameter whose
// value is looked up in a fixed table. The remote and the loader tools walk
// the manifest the same way and differ only in their tables.
module Manifest {
  import opened Wrappers
  import opened Json

  /** A settable parameter: its dotted name and its type label. */
  type Entry = (string, string)

  /** The string a member holds; `None` where the conversion to `std::string` throws or the member is missing. */
  function StringOf(m: Option<Json>): (r: Option<string>)
    ensures r.Some? <==> m.Some? && m.value.String?
    ensures r.Some? ==> m.value.s == r.value
  {
    if m.Some? && m.value.String? then Some(m.value.s) else None
  }

  /** A parameter description the walk can read: an object with a string name and a string type. */
  predicate Described(p: Json) {
    StringOf(Get(p, "name")).Some? && StringOf(Get(p, "type")).Some?
  }

  /** The entries of one component's parameters, in order, each under `full`. */
  function ParameterEntries(ps: seq<Json>, full: string): (r: Option<seq<Entry>>)
    ensures r.Some? <==> forall k :: 0 <= k < |ps| ==> Described(ps[k])
    ensures r.Some? ==> |r.value| == |ps|
    ensures r.Some? ==> forall k :: 0 <= k < |ps| ==>
      r.value[k] == (full + "." + StringOf(Get(ps[k], "name")).value, StringOf(Get(ps[k], "type")).value)
  {
    if |ps| == 0 then Some([])
    else
      assert forall k :: 1 <= k < |ps| ==> ps[k] == ps[1..][k - 1];
      match (StringOf(Get(ps[0], "name")), StringOf(Get(ps[0], "type")))
      case (Some(name), Some(ty)) =>
        (match ParameterEntries(ps[1..], full)
         case None => None
         case Some(rest) => Some([(full + "." + name, ty)] + rest))
      case _ => None
  }

  /**
   * `parseComponent`: a component without "parameters" contributes nothing
   * and its children are not visited. Otherwise its full name is the base,
   * a dot and its name; its own parameters come first, then those of its
   * children in order. `None` where the walk throws.
   */
  function ParseComponent(c: Json, base: string): (r: Option<seq<Entry>>)
    decreases c, 1
  {
    if !Contains(c, "parameters") then Some([])
    else
      match StringOf(Get(c, "name"))
      case None => None
      case Some(name) =>
        var full := base + "." + name;
        match ParameterEntries(Elements(Get(c, "parameters").value), full)
        case None => None
        case Some(own) =>
          if !Contains(c, "components") then Some(own)
          else
            match ChildEntries(c, full)
            case None => None
            case Some(rest) => Some(own + rest)
  }

  /** The children of a component with "components", walked under the component's full name. */
  function ChildEntries(c: Json, full: string): (r: Option<seq<Entry>>)
    requires Contains(c, "components")
    ensures var cs := Elements(Get(c, "components").value);
      r.Some? <==> forall k :: 0 <= k < |cs| ==> ParseComponent(cs[k], full).Some?
    decreases c, 0
  {
    MemberElementsSmaller(c, "components");
    ParseChildren(Elements(Get(c, "components").value), full, c)
  }

  /** The children in order, each walked with the same base. */
  function ParseChildren(cs: seq<Json>, base: string, ghost parent: Json): (r: Option<seq<Entry>>)
    requires forall k :: 0 <= k < |cs| ==> cs[k] < parent
    ensures r.Some? <==> forall k :: 0 <= k < |cs| ==> ParseComponent(cs[k], base).Some?
    decreases parent, 0, |cs|
  {
    if |cs| == 0 then Some([])
    else
      match ParseComponent(cs[0], base)
      case None => None
      case Some(first) =>
        match ParseChildren(cs[1..], base, parent)
        case None => None
        case Some(rest) => Some(first + rest)
  }

  /**
   * One element of the manifest: skipped without "components"; otherwise its
   * components are walked with its name as the base. The name is converted
   * once per component, so an element with no components never converts it.
   */
  function ElementEntries(e: Json): (r: Option<seq<Entry>>)
    ensures r.None? ==> Contains(e, "components") && |Elements(Get(e, "components").value)| > 0
  {
    if !Contains(e, "components") then Some([])
    else
      var cs := Elements(Get(e, "components").value);
      MemberElementsSmaller(e, "components");
      if |cs| == 0 then Some([])
      else
        match StringOf(Get(e, "name"))
        case None => None
        case Some(base) => ParseChildren(cs, base, e)
  }

  /** The manifest's elements in order, the last one last. */
  function ManifestEntries(es: seq<Json>): (r: Option<seq<Entry>>)
    ensures r.Some? <==> forall k :: 0 <= k < |es| ==> ElementEntries(es[k]).Some?
  {
    if |es| == 0 then Some([])
    else
      match ManifestEntries(es[..|es| - 1])
      case None => None
      case Some(before) =>
        match ElementEntries(es[|es| - 1])
        case None => None
        case Some(last) => Some(before + last)
  }

  /** `parseManifest`: the loop over the manifest's elements. */
  method ParseManifest(manifest: Json) returns (r: Option<seq<Entry>>)
    ensures r == ManifestEntries(Elements(manifest))
  {
    var es := Elements(manifest);
    var entries: seq<Entry> := [];
    var i := 0;
    while i < |es|
      invariant 0 <= i <= |es|
      invariant ManifestEntries(es[..i]) == Some(entries)
    {
      assert es[..i + 1][..i] == es[..i];
      var next := ElementEntries(es[i]);
      if next.None? {
        assert ManifestEntries(es[..i + 1]).None?;
        FailureSticks(es, i + 1);
        return None;
      }
      entries := entries + next.value;
      i := i + 1;
    }
    assert es[..i] == es;
    return Some(entries);
  }

  /** Once a prefix of the elements fails, the whole walk fails. */
  lemma {:induction false} FailureSticks(es: seq<Json>, n: nat)
    requires n <= |es| && ManifestEntries(es[..n]).None?
    ensures ManifestEntries(es).None?
    decreases |es| - n
  {
    if n < |es| {
      assert es[..n + 1][..n] == es[..n];
      FailureSticks(es, n + 1);
    } else {
      assert es[..n] == es;
    }
  }

  /** A component without a "parameters" member contributes nothing, whatever its children. */
  lemma NoParametersNoEntries(c: Json, base: string)
    requires !Contains(c, "parameters")
    ensures ParseComponent(c, base) == Some([])
  {
  }

  /**
   * Pre-order: a component's own parameters, named under its full name,
   * precede the entries of its children, which are walked with that full
   * name as their base.
   */
  lemma PreOrder(c: Json, base: string)
    requires Contains(c, "parameters") && Contains(c, "components")
    requires ParseComponent(c, base).Some?
    ensures var full := base + "." + StringOf(Get(c, "name")).value;
      var own := ParameterEntries(Elements(Get(c, "parameters").value), full);
      && own.Some? && ChildEntries(c, full).Some?
      && ParseComponent(c, base).value == own.value + ChildEntries(c, full).value
  {
  }

  // The command step.

  /** The index of the last '.', `None` standing for `std::string::npos`. */
  function LastDot(s: string): (r: Option<nat>)
    ensures r.None? <==> forall k :: 0 <= k < |s| ==> s[k] != '.'
    ensures r.Some? ==> r.value < |s| && s[r.value] == '.' && forall k :: r.value < k < |s| ==> s[k] != '.'
  {
    if |s| == 0 then None
    else if s[|s| - 1] == '.' then Some(|s| - 1)
    else LastDot(s[..|s| - 1])
  }

  /** `s.substr(s.find_last_of(".") + 1)`: `npos + 1` wraps to 0, so without a dot it is all of `s`. */
  function AfterLastDot(s: string): string {
    match LastDot(s)
    case None => s
    case Some(i) => s[i + 1..]
  }

  /** `s.substr(0, s.find_last_of("."))`: all of `s` without a dot. */
  function BeforeLastDot(s: string): string {
    match LastDot(s)
    case None => s
    case Some(i) => s[..i]
  }

  /** The table key of a parameter name: its last two dot-separated segments. */
  function ValueKey(name: string): string {
    AfterLastDot(BeforeLastDot(name)) + "." + AfterLastDot(name)
  }

  /** The key keeps the name's own segment after its last dot, and the segment before that one before it. */
  lemma ValueKeySegments(name: string)
    ensures AfterLastDot(ValueKey(name)) == AfterLastDot(name)
    ensures BeforeLastDot(ValueKey(name)) == AfterLastDot(BeforeLastDot(name))
  {
    AfterLastDotHasNoDot(name);
    SplitAtLastDot(AfterLastDot(BeforeLastDot(name)), AfterLastDot(name));
  }

  /** What follows the last dot holds no dot. */
  lemma AfterLastDotHasNoDot(s: string)
    ensures NoDot(AfterLastDot(s))
  {
  }

  predicate NoDot(s: string) {
    forall k :: 0 <= k < |s| ==> s[k] != '.'
  }

  lemma {:induction false} SplitAtLastDot(a: string, b: string)
    requires NoDot(b)
    ensures LastDot(a + "." + b) == Some(|a|)
    ensures AfterLastDot(a + "." + b) == b && BeforeLastDot(a + "." + b) == a
  {
    var s := a + "." + b;
    assert s[|a|] == '.';
    var r := LastDot(s);
    assert r.Some?;
    assert r.value <= |a| by {
      assert forall k :: |a| < k < |s| ==> s[k] == b[k - |a| - 1];
    }
    assert s[|a| + 1..] == b;
    assert s[..|a|] == a;
  }

  /** The key of "prefix.component.parameter" is "component.parameter", whatever the prefix holds. */
  lemma {:induction false} ValueKeyOfDottedName(prefix: string, component: string, parameter: string)
    requires NoDot(component) && NoDot(parameter)
    ensures ValueKey(prefix + "." + component + "." + parameter) == component + "." + parameter
  {
    SplitAtLastDot(prefix + "." + component, parameter);
    SplitAtLastDot(prefix, component);
  }

  /** Without a dot the name is both segments: the key of "abc" is "abc.abc". */
  lemma ValueKeyWithoutDot(name: string)
    requires NoDot(name)
    ensures ValueKey(name) == name + "." + name
  {
  }

  /** The version every command carries. */
  const CommandVersion := Array([NumberInteger(0), NumberInteger(1)])

  /** The value for a key: `operator[]` on the table inserts and yields null for a key it lacks. */
  function TableValue(table: map<string, Json>, key: string): (r: Json)
    ensures r != Null ==> key in table && table[key] == r
  {
    if key in table then table[key] else Null
  }

  /** A command for a parameter, its members in the library's key order. */
  function Command(name: string, value: Json): Json {
    Object([("name", String(name)), ("value", value), ("version", CommandVersion)])
  }

  /** A command carries the parameter's name, the value and the version [0, 1]. */
  lemma CommandFields(name: string, value: Json)
    ensures Get(Command(name, value), "name") == Some(String(name))
    ensures Get(Command(name, value), "value") == Some(value)
    ensures Get(Command(name, value), "version") == Some(CommandVersion)
  {
    var fs := Command(name, value).fields;
    assert fs[1..][0] == fs[1] && fs[1..][1..][0] == fs[2];
  }

  /**
   * `prepareCommands`: one command per parameter, in order, named as the
   * parameter and carrying the table's value for the name's last two
   * segments (null when the table has none).
   */
  method PrepareCommands(parameters: seq<Entry>, table: map<string, Json>) returns (commands: seq<Json>)
    ensures |commands| == |parameters|
    ensures forall k :: 0 <= k < |parameters| ==>
      commands[k] == Command(parameters[k].0, TableValue(table, ValueKey(parameters[k].0)))
  {
    commands := [];
    for i := 0 to |parameters|
      invariant |commands| == i
      invariant forall k :: 0 <= k < i ==>
        commands[k] == Command(parameters[k].0, TableValue(table, ValueKey(parameters[k].0)))
    {
      var name := parameters[i].0;
      var command := Command(name, TableValue(table, ValueKey(name)));
      commands := commands + [command];
    }
  }

  /** The remote tool's table. */
  const RemoteValues: map<string, Json> := map[
    "example.control_period" := NumberFloat(0.001),
    "dispatcher.magnets_r" := NumberFloat(0.32),
    "dispatcher.magnets_l" := NumberFloat(0.97),
    "dispatcher.operating_mode" := String("degraded_2")
  ]

  /** The loader tool's table. */
  const LoaderValues: map<string, Json> := map[
    "pll.f_rated" := NumberFloat(50.0),
    "pll.angle_offset" := NumberFloat(0.0),
    "pi.kp" := NumberFloat(400.0),
    "pi.ki" := NumberFloat(35000.0),
    "pi.kd" := NumberFloat(0.0),
    "pi.kff" := NumberFloat(0.0),
    "pi.proportional_scaling" := NumberFloat(1.0),
    "pi.derivative_scaling" := NumberFloat(1.0),
    "pi.derivative_filter_order" := NumberFloat(1.0),
    "pi.control_period" := NumberFloat(0.0001),
    "pi.pre_warping_frequency" := NumberFloat(0.000000000001),
    "actuation_limits.lower_threshold" := NumberFloat(-1000000000000.0),
    "actuation_limits.upper_threshold" := NumberFloat(1000000000000.0),
    "actuation_limits.dead_zone" := Array([NumberFloat(0.0), NumberFloat(0.0)])
  ]
}
