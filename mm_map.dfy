// The memory-map resolver of the memory-map tool: every section of the
// input configuration becomes a region, placed either at an explicit start
// or after the space its parent has already handed out.
module MmMap {
  import opened Wrappers
  import opened MmLiterals

  /** One configuration section after reading: its name and its key/value options. */
  datatype Section = Section(name: string, options: map<string, string>)

  /**
   * A resolved region. The regions form an arena (a sequence in declaration
   * order) and `parent` is the index of the enclosing region in it.
   */
  datatype Region = Region(name: string, parent: Option<nat>, start: int, size: int, alignment: int, used: int)

  datatype MapError =
    | DuplicateSection(name: string)                 // rejected while the configuration is read
    | BadNumber(section: string, cause: LiteralError) // ValueError / ZeroDivisionError
    | UnknownParent(section: string, parent: string)  // KeyError on `in`
    | StartInsideParent(section: string)              // `start` together with `in`
    | StartWithAlign(section: string)                 // `start` together with `align`
    | NoAnchor(section: string)                       // neither `in` nor `start`
    | EndBeforeStart(section: string)                 // `end` below the start
    | NoExtent(section: string)                       // neither `size` nor `end`
    | Overflow(parent: string, child: string, used: int, size: int)

  /** The first region called `name`. */
  function Find(rs: seq<Region>, name: string): (r: Option<nat>)
    ensures r.None? <==> forall k :: 0 <= k < |rs| ==> rs[k].name != name
    ensures r.Some? ==> r.value < |rs| && rs[r.value].name == name
    decreases |rs|
  {
    if rs == [] then None
    else if rs[0].name == name then Some(0)
    else match Find(rs[1..], name)
      case Some(i) => Some(i + 1)
      case None => None
  }

  predicate DistinctNames(secs: seq<Section>) {
    forall i, j :: 0 <= i < j < |secs| ==> secs[i].name != secs[j].name
  }

  /** The first section whose name was already used (by `seen` or an earlier section). */
  function FirstDuplicate(secs: seq<Section>, seen: set<string>): (r: Option<string>)
    ensures r.None? <==> DistinctNames(secs) && forall i :: 0 <= i < |secs| ==> secs[i].name !in seen
    ensures r.Some? ==> exists i :: 0 <= i < |secs| && secs[i].name == r.value
    decreases |secs|
  {
    if secs == [] then None
    else if secs[0].name in seen then Some(secs[0].name)
    else
      var r := FirstDuplicate(secs[1..], seen + {secs[0].name});
      assert r.Some? ==> exists i :: 1 <= i < |secs| && secs[i].name == r.value by {
        if r.Some? {
          var i :| 0 <= i < |secs[1..]| && secs[1..][i].name == r.value;
          assert secs[i + 1].name == r.value;
        }
      }
      assert r.None? ==> DistinctNames(secs) by {
        if r.None? {
          forall i, j | 0 <= i < j < |secs| ensures secs[i].name != secs[j].name {
            if i > 0 { assert secs[1..][i - 1] == secs[i] && secs[1..][j - 1] == secs[j]; }
            else { assert secs[1..][j - 1] == secs[j]; }
          }
        }
      }
      assert !DistinctNames(secs[1..]) ==> !DistinctNames(secs) by {
        if !DistinctNames(secs[1..]) {
          var i, j :| 0 <= i < j < |secs[1..]| && secs[1..][i].name == secs[1..][j].name;
          assert secs[i + 1].name == secs[j + 1].name;
        }
      }
      r
  }

  /** The option text, or a default when the key is absent (`section.get`). */
  function Get(sec: Section, key: string, default: string): string {
    if key in sec.options then sec.options[key] else default
  }

  /** The start of a new region: explicit, or aligned after what its parent has used. */
  function Placement(rs: seq<Region>, sec: Section, parent: Option<nat>, alignment: int): (r: Result<int, MapError>)
    requires parent.Some? ==> parent.value < |rs|
    ensures r.Ok? && parent.None? ==> "start" in sec.options && ParseAddress(sec.options["start"]) == Ok(r.value)
    ensures r.Ok? && parent.Some? ==>
      "start" !in sec.options && Align(rs[parent.value].start + rs[parent.value].used, alignment) == Ok(r.value)
    ensures r == Err(StartInsideParent(sec.name)) <==> "start" in sec.options && parent.Some?
    ensures r == Err(StartWithAlign(sec.name)) <==> "start" in sec.options && parent.None? && "align" in sec.options
    ensures r == Err(NoAnchor(sec.name)) <==> "start" !in sec.options && parent.None?
    ensures r == Err(BadNumber(sec.name, ZeroDivision)) <==> "start" !in sec.options && parent.Some? && alignment == 0
    ensures (r.Err? && r.error.BadNumber? && r.error.cause.InvalidLiteral?) <==>
      "start" in sec.options && parent.None? && "align" !in sec.options && ParseAddress(sec.options["start"]).Err?
    ensures r.Err? ==> !r.error.UnknownParent? && !r.error.Overflow? && !r.error.DuplicateSection? && r.error.section == sec.name
  {
    if "start" in sec.options then
      if parent.Some? then Err(StartInsideParent(sec.name))
      else if "align" in sec.options then Err(StartWithAlign(sec.name))
      else match ParseAddress(sec.options["start"])
        case Ok(v) => Ok(v)
        case Err(e) => Err(BadNumber(sec.name, e))
    else if parent.None? then Err(NoAnchor(sec.name))
    else match Align(rs[parent.value].start + rs[parent.value].used, alignment)
      case Ok(v) => Ok(v)
      case Err(e) => Err(BadNumber(sec.name, e))
  }

  /** The size of a new region: `size`, else `end` minus the start. */
  function Extent(sec: Section, start: int): (r: Result<int, MapError>)
    ensures r.Ok? && "size" in sec.options ==> ParseSize(sec.options["size"]) == Ok(r.value)
    ensures r.Ok? && "size" !in sec.options ==>
      "end" in sec.options && ParseAddress(sec.options["end"]) == Ok(start + r.value) && r.value >= 0
    ensures r == Err(EndBeforeStart(sec.name)) <==>
      "size" !in sec.options && "end" in sec.options && ParseAddress(sec.options["end"]).Ok?
      && ParseAddress(sec.options["end"]).value < start
    ensures r == Err(NoExtent(sec.name)) <==> "size" !in sec.options && "end" !in sec.options
    ensures (r.Err? && r.error.BadNumber?) <==>
      if "size" in sec.options then ParseSize(sec.options["size"]).Err?
      else "end" in sec.options && ParseAddress(sec.options["end"]).Err?
    ensures r.Err? ==> !r.error.UnknownParent? && !r.error.Overflow? && !r.error.DuplicateSection? && r.error.section == sec.name
  {
    if "size" in sec.options then
      match ParseSize(sec.options["size"])
      case Ok(v) => Ok(v)
      case Err(e) => Err(BadNumber(sec.name, e))
    else if "end" in sec.options then
      match ParseAddress(sec.options["end"])
      case Err(e) => Err(BadNumber(sec.name, e))
      case Ok(end) => if end >= start then Ok(end - start) else Err(EndBeforeStart(sec.name))
    else Err(NoExtent(sec.name))
  }

  /** A nested region starts where its parent's use ends, rounded up to the region's alignment. */
  predicate AlignedAfter(parent: Region, n: Region) {
    Align(parent.start + parent.used, n.alignment) == Ok(n.start)
  }

  /** The fields of a region that never change once it is placed. */
  predicate SamePlacement(a: Region, b: Region) {
    a.name == b.name && a.parent == b.parent && a.start == b.start && a.size == b.size && a.alignment == b.alignment
  }

  /**
   * The region a section describes, before it is attached: its parent is
   * looked up (an unknown name is Python's KeyError), then the alignment is
   * read, the start placed and the size determined, in that order.
   */
  function NewRegion(rs: seq<Region>, sec: Section): (r: Result<Region, MapError>)
    ensures r.Ok? ==> r.value.name == sec.name && r.value.used == 0
    ensures r.Ok? ==> (r.value.parent.None? <==> "in" !in sec.options)
    ensures r.Ok? && r.value.parent.Some? ==>
      var p := r.value.parent.value;
      p < |rs| && rs[p].name == sec.options["in"] && AlignedAfter(rs[p], r.value)
    ensures (r == Err(UnknownParent(sec.name, Get(sec, "in", "")))) <==> "in" in sec.options && Find(rs, sec.options["in"]).None?
    ensures r.Ok? ==> FromSection(sec, r.value)
    ensures !("in" in sec.options && Find(rs, sec.options["in"]).None?) ==>
      r == Located(rs, sec, if "in" in sec.options then Find(rs, sec.options["in"]) else None)
  {
    var parent := if "in" in sec.options then Find(rs, sec.options["in"]) else None;
    if "in" in sec.options && parent.None? then Err(UnknownParent(sec.name, sec.options["in"]))
    else
      var r := Located(rs, sec, parent);
      assert r.Err? ==> !r.error.UnknownParent?;
      r
  }

  /**
   * The values a region takes from its section: the alignment is the `align`
   * option (default 1), a top-level region starts at its `start`, and the size
   * is the `size` option or else reaches the `end` address.
   */
  predicate FromSection(sec: Section, n: Region) {
    && ParseSize(Get(sec, "align", "1")) == Ok(n.alignment)
    && (n.parent.None? ==> "start" in sec.options && ParseAddress(sec.options["start"]) == Ok(n.start))
    && ("size" in sec.options ==> ParseSize(sec.options["size"]) == Ok(n.size))
    && ("size" !in sec.options ==>
          "end" in sec.options && ParseAddress(sec.options["end"]) == Ok(n.start + n.size) && n.size >= 0)
  }

  /**
   * The region of a section whose parent (if any) is known: alignment, start
   * and size, in that order, each refusal at the first step that fails.
   */
  function Located(rs: seq<Region>, sec: Section, parent: Option<nat>): (r: Result<Region, MapError>)
    requires parent.Some? ==> parent.value < |rs|
    ensures r.Ok? ==> r.value.name == sec.name && r.value.used == 0 && r.value.parent == parent
    ensures r.Ok? ==> FromSection(sec, r.value)
    ensures r.Ok? && parent.Some? ==>
      Align(rs[parent.value].start + rs[parent.value].used, r.value.alignment) == Ok(r.value.start)
    ensures r.Err? ==> !r.error.UnknownParent? && !r.error.Overflow? && !r.error.DuplicateSection?
  {
    var alignment := ParseSize(Get(sec, "align", "1"));
    if alignment.Err? then Err(BadNumber(sec.name, alignment.error))
    else
      var start := Placement(rs, sec, parent, alignment.value);
      if start.Err? then Err(start.error)
      else
        var size := Extent(sec, start.value);
        if size.Err? then Err(size.error)
        else Ok(Region(sec.name, parent, start.value, size.value, alignment.value, 0))
  }

  /**
   * Why a section is refused once its parent is known: a malformed `align`
   * first, then the start (`start` with `in` or with `align`, neither `start`
   * nor `in`), then the extent (an `end` below the start, neither `size` nor
   * `end`).
   */
  lemma LocatedRefusals(rs: seq<Region>, sec: Section, parent: Option<nat>)
    requires parent.Some? ==> parent.value < |rs|
    ensures var a := ParseSize(Get(sec, "align", "1"));
      a.Err? ==> Located(rs, sec, parent) == Err(BadNumber(sec.name, a.error))
    ensures var a := ParseSize(Get(sec, "align", "1")); var r := Located(rs, sec, parent);
      && (r == Err(StartInsideParent(sec.name)) <==> a.Ok? && "start" in sec.options && parent.Some?)
      && (r == Err(StartWithAlign(sec.name)) <==>
            a.Ok? && "start" in sec.options && parent.None? && "align" in sec.options)
      && (r == Err(NoAnchor(sec.name)) <==> a.Ok? && "start" !in sec.options && parent.None?)
    ensures var a := ParseSize(Get(sec, "align", "1")); var r := Located(rs, sec, parent);
      var start := if a.Ok? then Placement(rs, sec, parent, a.value) else Err(NoAnchor(sec.name));
      && (r == Err(EndBeforeStart(sec.name)) <==>
            start.Ok? && "size" !in sec.options && "end" in sec.options
            && ParseAddress(sec.options["end"]).Ok? && ParseAddress(sec.options["end"]).value < start.value)
      && (r == Err(NoExtent(sec.name)) <==> start.Ok? && "size" !in sec.options && "end" !in sec.options)
  {
  }

  /**
   * Attach a new region as the last one: its parent's `used` becomes the
   * distance from the parent's start to the new region's end, which must not
   * exceed the parent's size.
   */
  function Attach(rs: seq<Region>, n: Region): (r: Result<seq<Region>, MapError>)
    requires n.parent.Some? ==> n.parent.value < |rs|
    ensures r.Ok? ==> |r.value| == |rs| + 1 && r.value[|rs|] == n
    ensures r.Ok? ==> forall k :: 0 <= k < |rs| ==> SamePlacement(r.value[k], rs[k])
    ensures r.Ok? ==> forall k :: 0 <= k < |rs| && n.parent != Some(k) ==> r.value[k] == rs[k]
    ensures r.Ok? && n.parent.Some? ==>
      var p := n.parent.value;
      r.value[p].used == n.start + n.size - rs[p].start <= rs[p].size
    ensures r.Err? <==> n.parent.Some? && n.start + n.size - rs[n.parent.value].start > rs[n.parent.value].size
    ensures r.Err? ==> r.error == Overflow(rs[n.parent.value].name, n.name, n.start + n.size - rs[n.parent.value].start, rs[n.parent.value].size)
  {
    if n.parent.None? then Ok(rs + [n])
    else
      var p := n.parent.value;
      var used := n.start + n.size - rs[p].start;
      if used > rs[p].size then Err(Overflow(rs[p].name, n.name, used, rs[p].size))
      else Ok(rs[p := rs[p].(used := used)] + [n])
  }

  /** One iteration of the resolver loop. */
  function ResolveStep(rs: seq<Region>, sec: Section): (r: Result<seq<Region>, MapError>)
    requires Find(rs, sec.name).None?
    ensures r.Ok? ==> |r.value| == |rs| + 1 && r.value[|rs|].name == sec.name
    ensures r.Ok? ==> forall k :: 0 <= k < |rs| ==> SamePlacement(r.value[k], rs[k])
  {
    match NewRegion(rs, sec)
    case Err(e) => Err(e)
    case Ok(n) => Attach(rs, n)
  }

  /** `parse_memory_map` over distinct sections, as a fold of `ResolveStep`. */
  function Resolve(secs: seq<Section>): (r: Result<seq<Region>, MapError>)
    requires DistinctNames(secs)
    ensures r.Ok? ==> |r.value| == |secs| && forall k :: 0 <= k < |secs| ==> r.value[k].name == secs[k].name
    decreases |secs|
  {
    if secs == [] then Ok([])
    else
      var init := secs[..|secs| - 1];
      DistinctInit(secs);
      match Resolve(init)
      case Err(e) => Err(e)
      case Ok(rs) =>
        LastIsFresh(secs, rs);
        var r := ResolveStep(rs, secs[|secs| - 1]);
        if r.Err? then r else NamesKept(secs, rs, r.value); r
  }

  /** Appending the last section's region keeps the regions named after the sections. */
  lemma NamesKept(secs: seq<Section>, rs: seq<Region>, out: seq<Region>)
    requires secs != [] && |rs| == |secs| - 1
    requires forall k :: 0 <= k < |rs| ==> rs[k].name == secs[..|secs| - 1][k].name
    requires |out| == |rs| + 1 && out[|rs|].name == secs[|secs| - 1].name
    requires forall k :: 0 <= k < |rs| ==> SamePlacement(out[k], rs[k])
    ensures forall k :: 0 <= k < |secs| ==> out[k].name == secs[k].name
  {
    forall k | 0 <= k < |secs| ensures out[k].name == secs[k].name {
      if k < |rs| {
        assert SamePlacement(out[k], rs[k]) && secs[..|secs| - 1][k] == secs[k];
      }
    }
  }

  lemma DistinctInit(secs: seq<Section>)
    requires secs != [] && DistinctNames(secs)
    ensures DistinctNames(secs[..|secs| - 1])
  {
  }

  /** The last section's name is not among the regions of the sections before it. */
  lemma LastIsFresh(secs: seq<Section>, rs: seq<Region>)
    requires secs != [] && DistinctNames(secs) && |rs| == |secs| - 1
    requires forall k :: 0 <= k < |rs| ==> rs[k].name == secs[..|secs| - 1][k].name
    ensures Find(rs, secs[|secs| - 1].name).None?
  {
    forall k | 0 <= k < |rs| ensures rs[k].name != secs[|secs| - 1].name {
      assert rs[k].name == secs[k].name;
    }
  }

  /** `parse_memory_map`: duplicate section names are refused, then the sections are resolved in order. */
  function ParseMemoryMapSpec(secs: seq<Section>): Result<seq<Region>, MapError> {
    match FirstDuplicate(secs, {})
    case Some(n) => Err(DuplicateSection(n))
    case None => Resolve(secs)
  }

  /** Once a prefix of the sections fails, the whole resolution fails with that error. */
  lemma {:induction false} ResolveErrorSticks(secs: seq<Section>, i: nat, e: MapError)
    requires DistinctNames(secs) && i <= |secs|
    requires DistinctNames(secs[..i]) && Resolve(secs[..i]) == Err(e)
    ensures Resolve(secs) == Err(e)
    decreases |secs| - i
  {
    if i < |secs| {
      var next := secs[..i + 1];
      assert next[..i] == secs[..i];
      assert DistinctNames(next);
      assert Resolve(next) == Err(e);
      ResolveErrorSticks(secs, i + 1, e);
    } else {
      assert secs[..i] == secs;
    }
  }

  /**
   * The body of the resolver loop for one section: look up the parent, place
   * and size the region, grow the parent's `used` in place (an overflow
   * aborts) and append the region.
   */
  method PlaceSection(regions: seq<Region>, sec: Section) returns (r: Result<seq<Region>, MapError>)
    requires Find(regions, sec.name).None?
    ensures r == ResolveStep(regions, sec)
  {
    var parent: Option<nat> := None;
    if "in" in sec.options {
      parent := Find(regions, sec.options["in"]);
      if parent.None? {
        return Err(UnknownParent(sec.name, sec.options["in"]));
      }
    }
    var alignment := ParseSize(Get(sec, "align", "1"));
    if alignment.Err? {
      return Err(BadNumber(sec.name, alignment.error));
    }
    var start := Placement(regions, sec, parent, alignment.value);
    if start.Err? {
      return Err(start.error);
    }
    var size := Extent(sec, start.value);
    if size.Err? {
      return Err(size.error);
    }
    var rs := regions;
    if parent.Some? {
      var p := parent.value;
      var used := start.value + size.value - rs[p].start;
      rs := rs[p := rs[p].(used := used)];
      if used > rs[p].size {
        return Err(Overflow(rs[p].name, sec.name, used, rs[p].size));
      }
    }
    r := Ok(rs + [Region(sec.name, parent, start.value, size.value, alignment.value, 0)]);
  }

  /** The resolver loop (`parse_memory_map`): sections are placed in order and the first failure aborts. */
  method ParseMemoryMap(secs: seq<Section>) returns (r: Result<seq<Region>, MapError>)
    ensures r == ParseMemoryMapSpec(secs)
  {
    var dup := FirstDuplicate(secs, {});
    if dup.Some? {
      return Err(DuplicateSection(dup.value));
    }
    var regions: seq<Region> := [];
    var i := 0;
    while i < |secs|
      invariant 0 <= i <= |secs|
      invariant DistinctNames(secs[..i])
      invariant Resolve(secs[..i]) == Ok(regions)
    {
      var sec := secs[i];
      assert secs[..i + 1][..i] == secs[..i];
      assert DistinctNames(secs[..i + 1]);
      assert Find(regions, sec.name).None? by {
        forall k | 0 <= k < |regions| ensures regions[k].name != sec.name {
          assert regions[k].name == secs[k].name;
        }
      }
      var step := PlaceSection(regions, sec);
      assert Resolve(secs[..i + 1]) == step;
      if step.Err? {
        ResolveErrorSticks(secs, i + 1, step.error);
        return step;
      }
      regions := step.value;
      i := i + 1;
    }
    assert secs[..i] == secs;
    r := Ok(regions);
  }

  // ------------------------------------------------------------ layout

  /**
   * How resolved regions nest: a parent precedes its children, every child
   * lies inside its parent and within what the parent has used, siblings are
   * laid out in declaration order without overlapping, and `used` never
   * exceeds the size of a region that has children.
   */
  predicate Nested(rs: seq<Region>) {
    && (forall i :: 0 <= i < |rs| && rs[i].parent.Some? ==> rs[i].parent.value < i)
    && (forall i :: 0 <= i < |rs| ==> rs[i].used >= 0)
    && (forall i :: 0 <= i < |rs| && rs[i].parent.Some? ==>
          var p := rs[rs[i].parent.value];
          p.start <= rs[i].start && rs[i].start + rs[i].size <= p.start + p.used <= p.start + p.size)
    && (forall i, j :: 0 <= i < j < |rs| && rs[i].parent.Some? && rs[j].parent == rs[i].parent ==>
          rs[i].start + rs[i].size <= rs[j].start)
  }

  /** The sizes are non-negative and the alignments positive (`parse_size` itself accepts any sign). */
  predicate PositiveExtents(rs: seq<Region>) {
    forall i :: 0 <= i < |rs| ==> rs[i].size >= 0 && rs[i].alignment >= 1
  }

  /** Appending a child after what its parent has used keeps the arena nested. */
  lemma AppendChildNested(rs: seq<Region>, n: Region, out: seq<Region>)
    requires Nested(rs) && n.parent.Some? && n.parent.value < |rs|
    requires var p := rs[n.parent.value];
      n.size >= 0 && n.used == 0 && n.start >= p.start + p.used && n.start + n.size - p.start <= p.size
    requires var p := n.parent.value;
      out == rs[p := rs[p].(used := n.start + n.size - rs[p].start)] + [n]
    ensures Nested(out)
  {
    var p := n.parent.value;
    var u := n.start + n.size - rs[p].start;
    assert u >= rs[p].used;
    forall i | 0 <= i < |out| && out[i].parent.Some?
      ensures var q := out[out[i].parent.value];
        q.start <= out[i].start && out[i].start + out[i].size <= q.start + q.used <= q.start + q.size
    {
      if i < |rs| { assert out[i].parent == rs[i].parent && out[i].start == rs[i].start && out[i].size == rs[i].size; }
    }
    forall i, j | 0 <= i < j < |out| && out[i].parent.Some? && out[j].parent == out[i].parent
      ensures out[i].start + out[i].size <= out[j].start
    {
      assert out[i].start == rs[i].start && out[i].size == rs[i].size && out[i].parent == rs[i].parent;
      if j < |rs| { assert out[j].start == rs[j].start && out[j].parent == rs[j].parent; }
    }
  }

  /** A successful step is the attachment of the section's new region. */
  lemma StepFacts(rs: seq<Region>, sec: Section)
    requires Find(rs, sec.name).None? && ResolveStep(rs, sec).Ok?
    ensures NewRegion(rs, sec).Ok? && Attach(rs, NewRegion(rs, sec).value).Ok?
    ensures ResolveStep(rs, sec).value == Attach(rs, NewRegion(rs, sec).value).value
  {
    StepSucceedsOnRegion(rs, sec);
    StepIsAttach(rs, sec);
  }

  lemma StepSucceedsOnRegion(rs: seq<Region>, sec: Section)
    requires Find(rs, sec.name).None? && ResolveStep(rs, sec).Ok?
    ensures NewRegion(rs, sec).Ok?
  {
  }

  lemma StepIsAttach(rs: seq<Region>, sec: Section)
    requires Find(rs, sec.name).None? && NewRegion(rs, sec).Ok?
    ensures ResolveStep(rs, sec) == Attach(rs, NewRegion(rs, sec).value)
  {
  }

  /** With a positive alignment a child starts no lower than what its parent has used. */
  lemma RegionAfterUsed(rs: seq<Region>, sec: Section)
    requires NewRegion(rs, sec).Ok? && NewRegion(rs, sec).value.alignment >= 1
    ensures var n := NewRegion(rs, sec).value;
      n.parent.Some? ==> var p := n.parent.value; p < |rs| && n.start >= rs[p].start + rs[p].used
  {
    var n := NewRegion(rs, sec).value;
    if n.parent.Some? {
      var p := n.parent.value;
      AlignUp(rs[p].start + rs[p].used, n.alignment);
    }
  }

  lemma AttachNested(rs: seq<Region>, n: Region)
    requires Nested(rs) && (n.parent.Some? ==> n.parent.value < |rs|) && Attach(rs, n).Ok?
    requires n.size >= 0 && n.alignment >= 1 && n.used == 0
    requires n.parent.Some? ==> var p := n.parent.value; n.start >= rs[p].start + rs[p].used
    ensures Nested(Attach(rs, n).value)
  {
    var out := Attach(rs, n).value;
    if n.parent.Some? {
      var p := n.parent.value;
      assert out == rs[p := rs[p].(used := n.start + n.size - rs[p].start)] + [n];
      AppendChildNested(rs, n, out);
    } else {
      assert out == rs + [n];
    }
  }

  /** The last section is resolved against the regions of the ones before it. */
  lemma ResolveLast(secs: seq<Section>)
    requires DistinctNames(secs) && secs != [] && Resolve(secs).Ok?
    ensures DistinctNames(secs[..|secs| - 1]) && Resolve(secs[..|secs| - 1]).Ok?
    ensures var rs := Resolve(secs[..|secs| - 1]).value;
      Find(rs, secs[|secs| - 1].name).None? && Resolve(secs) == ResolveStep(rs, secs[|secs| - 1])
  {
    var init := secs[..|secs| - 1];
    LastNameFresh(secs);
    NamesAbsent(Resolve(init).value, init, secs[|secs| - 1].name);
  }

  /** In distinct sections, the last name is not used before it. */
  lemma LastNameFresh(secs: seq<Section>)
    requires DistinctNames(secs) && secs != []
    ensures var init := secs[..|secs| - 1];
      DistinctNames(init) && forall k :: 0 <= k < |init| ==> init[k].name != secs[|secs| - 1].name
  {
    var init := secs[..|secs| - 1];
    forall k | 0 <= k < |init| ensures init[k].name != secs[|secs| - 1].name {
      assert init[k] == secs[k];
    }
  }

  /** Regions named after sections that avoid `name` have no region of that name. */
  lemma NamesAbsent(rs: seq<Region>, secs: seq<Section>, name: string)
    requires |rs| == |secs| && forall k :: 0 <= k < |secs| ==> rs[k].name == secs[k].name && secs[k].name != name
    ensures Find(rs, name).None?
  {
  }

  /** The earlier regions and the new one inherit the size and alignment hypotheses from the result. */
  lemma StepExtents(rs: seq<Region>, sec: Section)
    requires Find(rs, sec.name).None? && ResolveStep(rs, sec).Ok?
    requires PositiveExtents(ResolveStep(rs, sec).value)
    ensures PositiveExtents(rs)
    ensures NewRegion(rs, sec).Ok? && NewRegion(rs, sec).value.size >= 0 && NewRegion(rs, sec).value.alignment >= 1
  {
    StepFacts(rs, sec);
    var out := ResolveStep(rs, sec).value;
    assert out[|rs|] == NewRegion(rs, sec).value;
    forall k | 0 <= k < |rs| ensures rs[k].size >= 0 && rs[k].alignment >= 1 {
      assert SamePlacement(out[k], rs[k]);
    }
  }

  /** Sections that resolve, with non-negative sizes and positive alignments, nest properly. */
  lemma {:induction false} ResolvedNested(secs: seq<Section>)
    requires DistinctNames(secs)
    requires Resolve(secs).Ok? && PositiveExtents(Resolve(secs).value)
    ensures Nested(Resolve(secs).value)
    decreases |secs|
  {
    if secs != [] {
      ResolveLast(secs);
      var init := secs[..|secs| - 1];
      var rs := Resolve(init).value;
      var last := secs[|secs| - 1];
      StepExtents(rs, last);
      ResolvedNested(init);
      StepFacts(rs, last);
      var n := NewRegion(rs, last).value;
      RegionAfterUsed(rs, last);
      AttachNested(rs, n);
    }
  }

  /** The region a section resolves to and its parent link, as the section says. */
  predicate ResolvedAs(rs: seq<Region>, sec: Section, k: nat)
    requires k < |rs|
  {
    && FromSection(sec, rs[k])
    && (rs[k].parent.None? <==> "in" !in sec.options)
    && (rs[k].parent.Some? ==> rs[k].parent.value < |rs| && rs[rs[k].parent.value].name == sec.options["in"])
  }

  /**
   * Every region of a resolved map has the alignment, top-level start and
   * size its section gives, and the parent its `in` option names.
   */
  lemma {:induction false} ResolvedFromSections(secs: seq<Section>)
    requires DistinctNames(secs) && Resolve(secs).Ok?
    ensures forall k :: 0 <= k < |secs| ==> ResolvedAs(Resolve(secs).value, secs[k], k)
    decreases |secs|
  {
    if secs != [] {
      ResolveLast(secs);
      var init := secs[..|secs| - 1];
      ResolvedFromSections(init);
      StepResolvedAs(Resolve(init).value, init, secs[|secs| - 1]);
      LastResolvedAs(Resolve(secs).value, init, secs);
    }
  }

  /** The regions of the sections before the last and of the last one are the regions of all sections. */
  lemma LastResolvedAs(out: seq<Region>, init: seq<Section>, secs: seq<Section>)
    requires secs != [] && init == secs[..|secs| - 1]
    requires |out| == |secs| && ResolvedAs(out, secs[|secs| - 1], |secs| - 1)
    requires forall k :: 0 <= k < |init| ==> ResolvedAs(out, init[k], k)
    ensures forall k :: 0 <= k < |secs| ==> ResolvedAs(out, secs[k], k)
  {
    forall k | 0 <= k < |secs| ensures ResolvedAs(out, secs[k], k) {
      if k < |init| {
        assert init[k] == secs[k];
      }
    }
  }

  /** One resolution step keeps the earlier regions resolved as their sections say and adds the new one. */
  lemma StepResolvedAs(rs: seq<Region>, init: seq<Section>, last: Section)
    requires |rs| == |init| && forall k :: 0 <= k < |init| ==> ResolvedAs(rs, init[k], k)
    requires Find(rs, last.name).None? && ResolveStep(rs, last).Ok?
    ensures var out := ResolveStep(rs, last).value;
      |out| == |rs| + 1 && ResolvedAs(out, last, |rs|) && forall k :: 0 <= k < |init| ==> ResolvedAs(out, init[k], k)
  {
    StepFacts(rs, last);
    var n := NewRegion(rs, last).value;
    var out := ResolveStep(rs, last).value;
    assert out[|rs|] == n;
    if n.parent.Some? {
      assert SamePlacement(out[n.parent.value], rs[n.parent.value]);
    }
    forall k | 0 <= k < |init| ensures ResolvedAs(out, init[k], k) {
      KeptPlacement(rs, out, init[k], k);
    }
  }

  /** A region whose placement is kept, in an arena whose earlier regions keep theirs, is still resolved as before. */
  lemma KeptPlacement(rs: seq<Region>, out: seq<Region>, sec: Section, k: nat)
    requires k < |rs| <= |out| && ResolvedAs(rs, sec, k)
    requires forall i :: 0 <= i < |rs| ==> SamePlacement(out[i], rs[i])
    ensures ResolvedAs(out, sec, k)
  {
    assert SamePlacement(out[k], rs[k]);
    if rs[k].parent.Some? {
      assert SamePlacement(out[rs[k].parent.value], rs[rs[k].parent.value]);
    }
  }

  /**
   * With a negative alignment the first child is placed below its parent's
   * start: the resolver does not reject it.
   */
  lemma NegativeAlignmentEscapesParent()
    ensures var rs := [Region("a", None, 16, 16, 1, 0)];
      var sec := Section("b", map["in" := "a", "align" := "-32", "size" := "1"]);
      ResolveStep(rs, sec).Ok? && ResolveStep(rs, sec).value[1].start == 0
  {
    var rs := [Region("a", None, 16, 16, 1, 0)];
    var sec := Section("b", map["in" := "a", "align" := "-32", "size" := "1"]);
    assert Find(rs, "a") == Some(0);
    assert Find(rs, "b").None?;
    MinusThirtyTwo();
    assert Align(16, -32) == Ok(0);
    One();
    assert Extent(sec, 0) == Ok(1);
    var n := Region("b", Some(0), 0, 1, -32, 0);
    assert Get(sec, "align", "1") == "-32";
    assert Placement(rs, sec, Some(0), -32) == Ok(0);
    assert Located(rs, sec, Some(0)) == Ok(n);
    assert NewRegion(rs, sec) == Ok(n);
    assert Attach(rs, n).Ok?;
  }

  /**
   * The alignment as evidently intended: the `align` option (default 1) read
   * as a size, and refused unless it is at least one.
   */
  function IntendedAlignment(sec: Section): (r: Option<int>)
    ensures r.Some? ==> r.value >= 1 && ParseSize(Get(sec, "align", "1")) == Ok(r.value)
    ensures r.None? ==> ParseSize(Get(sec, "align", "1")).Err? || ParseSize(Get(sec, "align", "1")).value < 1
  {
    match ParseSize(Get(sec, "align", "1"))
    case Ok(a) => if a >= 1 then Some(a) else None
    case Err(_) => None
  }

  /** With an alignment the intended check accepts, a child never starts below its parent's cursor. */
  lemma IntendedAlignmentKeepsChildInside(rs: seq<Region>, sec: Section)
    requires NewRegion(rs, sec).Ok? && IntendedAlignment(sec).Some?
    ensures var n := NewRegion(rs, sec).value;
      n.parent.Some? ==> var p := n.parent.value; p < |rs| && n.start >= rs[p].start + rs[p].used
  {
    RegionAfterUsed(rs, sec);
  }

  /** The intended check refuses the alignment of the section that escapes its parent. */
  lemma NegativeAlignmentRefused()
    ensures IntendedAlignment(Section("b", map["in" := "a", "align" := "-32", "size" := "1"])).None?
  {
    var sec := Section("b", map["in" := "a", "align" := "-32", "size" := "1"]);
    assert Get(sec, "align", "1") == "-32";
    MinusThirtyTwo();
  }

  /**
   * With a negative size (which `parse_size` accepts) the parent's `used`
   * goes below zero, and the next child is placed below its parent's start:
   * `a` at 0 of size 64, then `b in a` of size -100, then `c in a` of size 1.
   */
  lemma NegativeSizeEscapesParent()
    ensures var rs := [Region("a", None, 0, 64, 1, 0)];
      var b := Section("b", map["in" := "a", "size" := "-100"]);
      var c := Section("c", map["in" := "a", "size" := "1"]);
      && ResolveStep(rs, b).Ok?
      && ResolveStep(rs, b).value[0].used == -100
      && Find(ResolveStep(rs, b).value, "c").None?
      && ResolveStep(ResolveStep(rs, b).value, c).Ok?
      && ResolveStep(ResolveStep(rs, b).value, c).value[2].start == -100
  {
    var rs := [Region("a", None, 0, 64, 1, 0)];
    var b := Section("b", map["in" := "a", "size" := "-100"]);
    NegativeSizeStep(rs, b);
    EscapingStep(ResolveStep(rs, b).value);
  }

  /** `b in a` of size -100 is accepted and sets the `used` of `a` to -100. */
  lemma NegativeSizeStep(rs: seq<Region>, b: Section)
    requires rs == [Region("a", None, 0, 64, 1, 0)]
    requires b == Section("b", map["in" := "a", "size" := "-100"])
    ensures var r := ResolveStep(rs, b);
      r.Ok? && |r.value| == 2 && r.value[0] == Region("a", None, 0, 64, 1, -100) && r.value[1].name == "b"
  {
    var nb := Region("b", Some(0), 0, -100, 1, 0);
    assert ResolveStep(rs, b) == Attach(rs, nb) by {
      assert Find(rs, "b").None?;
      assert NewRegion(rs, b) == Ok(nb) by {
        assert Find(rs, "a") == Some(0);
        One();
        MinusHundred();
        AlignUp(0, 1);
        assert Get(b, "align", "1") == "1";
        assert Placement(rs, b, Some(0), 1) == Ok(0);
        assert Extent(b, 0) == Ok(-100);
        assert Located(rs, b, Some(0)) == Ok(nb);
      }
      StepIsAttach(rs, b);
    }
    AttachFirstChild(rs, nb);
  }

  /** Attaching a child of the only region: the parent keeps its placement and has used up to the child's end. */
  lemma AttachFirstChild(rs: seq<Region>, n: Region)
    requires |rs| == 1 && n.parent == Some(0) && n.start + n.size - rs[0].start <= rs[0].size
    ensures Attach(rs, n).Ok? && |Attach(rs, n).value| == 2 && Attach(rs, n).value[1] == n
    ensures Attach(rs, n).value[0] == rs[0].(used := n.start + n.size - rs[0].start)
  {
  }

  /** After it, `c in a` of size 1 is accepted and placed at -100, below the start of `a`. */
  lemma EscapingStep(rs: seq<Region>)
    requires |rs| == 2 && rs[0] == Region("a", None, 0, 64, 1, -100) && rs[1].name == "b"
    ensures var c := Section("c", map["in" := "a", "size" := "1"]);
      Find(rs, "c").None? && ResolveStep(rs, c).Ok? && ResolveStep(rs, c).value[2].start == -100
  {
    var c := Section("c", map["in" := "a", "size" := "1"]);
    assert Find(rs, "a") == Some(0);
    assert Find(rs, "c").None? by {
      assert rs[1].name != "c";
    }
    One();
    AlignUp(-100, 1);
    assert Get(c, "align", "1") == "1";
    assert Placement(rs, c, Some(0), 1) == Ok(-100);
    assert Extent(c, -100) == Ok(1);
    var nc := Region("c", Some(0), -100, 1, 1, 0);
    assert Located(rs, c, Some(0)) == Ok(nc);
    assert NewRegion(rs, c) == Ok(nc);
    assert Attach(rs, nc).Ok?;
  }

  /**
   * The `size` option as evidently intended: read as a size, and refused
   * when it is negative (an `end` below the start is refused already).
   */
  function IntendedSize(text: string): (r: Option<int>)
    ensures r.Some? <==> ParseSize(text).Ok? && ParseSize(text).value >= 0
    ensures r.Some? ==> ParseSize(text) == Ok(r.value)
  {
    match ParseSize(text)
    case Ok(v) => if v >= 0 then Some(v) else None
    case Err(_) => None
  }

  /** A section the intended checks accept: alignment at least one, and a `size`, if given, not negative. */
  predicate IntendedSection(sec: Section) {
    IntendedAlignment(sec).Some? && ("size" in sec.options ==> IntendedSize(sec.options["size"]).Some?)
  }

  /** Sections that resolve and pass the intended checks nest: every child lies inside its parent. */
  lemma IntendedSectionsNest(secs: seq<Section>)
    requires DistinctNames(secs) && Resolve(secs).Ok?
    requires forall k :: 0 <= k < |secs| ==> IntendedSection(secs[k])
    ensures Nested(Resolve(secs).value)
  {
    var rs := Resolve(secs).value;
    ResolvedFromSections(secs);
    forall k | 0 <= k < |rs| ensures rs[k].size >= 0 && rs[k].alignment >= 1 {
      assert ResolvedAs(rs, secs[k], k);
      assert FromSection(secs[k], rs[k]);
    }
    ResolvedNested(secs);
  }

  /** The intended check refuses the size of the section that lets its sibling escape. */
  lemma NegativeSizeRefused()
    ensures IntendedSize("-100").None?
  {
    MinusHundred();
  }

  lemma MinusHundred()
    ensures ParseSize("-100") == Ok(-100)
  {
    var t := "-100";
    assert Strip(t) == t;
    assert t[1..] == "100";
    assert RunValue("100", 10) == 100 by {
      assert "100"[..2] == "10";
      assert "10"[..1] == "1";
      assert "1"[..0] == "";
    }
  }

  lemma MinusThirtyTwo()
    ensures ParseSize("-32") == Ok(-32)
  {
    var t := "-32";
    assert Strip(t) == t;
    assert t[1..] == "32";
    assert RunValue("32", 10) == 32 by {
      assert "32"[..1] == "3";
      assert "3"[..0] == "";
    }
  }

  lemma One()
    ensures ParseSize("1") == Ok(1)
  {
    var one := "1";
    assert Strip(one) == one;
    assert one[..0] == "";
  }
}
