// The two ends of the manifest: what a component hierarchy serialises is
// what the configurator's walk reads back. Every parameter appears once, in
// pre-order, named by the component names on its path below the base.
module Publication {
  import opened Wrappers
  import opened Json
  import opened Component
  import opened Manifest

  /** A parameter's serialisation names it and carries a string type label. */
  predicate WellSerialized(p: (string, Json)) {
    Get(p.1, "name") == Some(String(p.0)) && StringOf(Get(p.1, "type")).Some?
  }

  ghost predicate AllWellSerialized(h: Hierarchy)
    reads h
  {
    forall i, k :: 0 <= i < |h.components| && 0 <= k < |h.components[i].parameters| ==>
      WellSerialized(h.components[i].parameters[k])
  }

  /** The entries for one component's own parameters under its full name `full`. */
  function OwnEntries(ps: seq<(string, Json)>, full: string): (r: seq<Entry>)
    requires forall k :: 0 <= k < |ps| ==> WellSerialized(ps[k])
    ensures |r| == |ps|
  {
    if |ps| == 0 then []
    else
      assert WellSerialized(ps[0]);
      [(full + "." + ps[0].0, StringOf(Get(ps[0].1, "type")).value)] + OwnEntries(ps[1..], full)
  }

  /**
   * What the walk should list for component `id` under `base`: its own
   * parameters under "base.name", then its children's entries in order
   * under that name.
   */
  function Published(h: Hierarchy, id: nat, base: string): seq<Entry>
    requires h.Valid() && AllWellSerialized(h) && id < |h.components|
    reads h
    decreases |h.components| - id, 1
  {
    var r := h.components[id];
    var full := base + "." + r.name;
    OwnEntries(r.parameters, full) + PublishedAll(h, r.children, id, full)
  }

  function PublishedAll(h: Hierarchy, ids: seq<nat>, lo: nat, base: string): seq<Entry>
    requires h.Valid() && AllWellSerialized(h)
    requires forall k :: 0 <= k < |ids| ==> lo < ids[k] < |h.components|
    reads h
    decreases |h.components| - lo, 0, |ids|
  {
    if |ids| == 0 then [] else Published(h, ids[0], base) + PublishedAll(h, ids[1..], lo, base)
  }

  lemma {:induction false} OwnEntriesParsed(ps: seq<(string, Json)>, full: string)
    requires forall k :: 0 <= k < |ps| ==> WellSerialized(ps[k])
    ensures ParameterEntries(Values(ps), full) == Some(OwnEntries(ps, full))
  {
    if |ps| > 0 {
      OwnEntriesParsed(ps[1..], full);
      assert Values(ps)[1..] == Values(ps[1..]);
    }
  }

  /** What the walk reads from a serialised component's members. */
  lemma SerializedMembers(h: Hierarchy, id: nat)
    requires h.Valid() && id < |h.components|
    ensures var j := h.Serialize(id);
      && Contains(j, "parameters") && Contains(j, "components")
      && StringOf(Get(j, "name")) == Some(h.components[id].name)
      && Elements(Get(j, "parameters").value) == Values(h.components[id].parameters)
      && Elements(Get(j, "components").value) == h.SerializeAll(h.components[id].children, id)
  {
    var r := h.components[id];
    ObjectMembers(h.Serialize(id).fields, h.SerializeAll(r.children, id), r.name, Values(r.parameters));
  }

  /** The members of an object whose first three fields are laid out as `serialize` writes them. */
  lemma ObjectMembers(fs: seq<(string, Json)>, cs: seq<Json>, name: string, ps: seq<Json>)
    requires |fs| == 4 && fs[0] == ("components", Array(cs)) && fs[1] == ("name", String(name))
    requires fs[2] == ("parameters", Array(ps))
    ensures Contains(Object(fs), "parameters") && Contains(Object(fs), "components")
    ensures StringOf(Get(Object(fs), "name")) == Some(name)
    ensures Elements(Get(Object(fs), "parameters").value) == ps && Elements(Get(Object(fs), "components").value) == cs
  {
    assert fs[0].0 != "name" && fs[0].0 != "parameters" && fs[1].0 != "parameters";
    assert fs[1..][0] == fs[1] && fs[1..][1..][0] == fs[2];
    assert Lookup(fs, "name") == Lookup(fs[1..], "name");
    assert Lookup(fs, "parameters") == Lookup(fs[1..], "parameters") == Lookup(fs[1..][1..], "parameters");
  }

  /** The walk of a serialised component lists exactly what it publishes. */
  lemma {:induction false} ParseOfSerialize(h: Hierarchy, id: nat, base: string)
    requires h.Valid() && AllWellSerialized(h) && id < |h.components|
    ensures ParseComponent(h.Serialize(id), base) == Some(Published(h, id, base))
    decreases |h.components| - id, 1
  {
    var j := h.Serialize(id);
    var r := h.components[id];
    var full := base + "." + r.name;
    SerializedMembers(h, id);
    OwnEntriesParsed(r.parameters, full);
    MemberElementsSmaller(j, "components");
    ParseOfSerializeAll(h, r.children, id, full, j);
    assert ChildEntries(j, full) == Some(PublishedAll(h, r.children, id, full));
  }

  lemma {:induction false} ParseOfSerializeAll(h: Hierarchy, ids: seq<nat>, lo: nat, base: string, parent: Json)
    requires h.Valid() && AllWellSerialized(h)
    requires forall k :: 0 <= k < |ids| ==> lo < ids[k] < |h.components|
    requires forall k :: 0 <= k < |ids| ==> h.SerializeAll(ids, lo)[k] < parent
    ensures ParseChildren(h.SerializeAll(ids, lo), base, parent) == Some(PublishedAll(h, ids, lo, base))
    decreases |h.components| - lo, 0, |ids|
  {
    if |ids| > 0 {
      var js := h.SerializeAll(ids, lo);
      ParseOfSerialize(h, ids[0], base);
      assert js[1..] == h.SerializeAll(ids[1..], lo);
      ParseOfSerializeAll(h, ids[1..], lo, base, parent);
    }
  }
}
