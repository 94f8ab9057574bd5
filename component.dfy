// Components: named, typed nodes of a hierarchy that own parameters. A
// component built with a parent takes the parent's full name as its prefix
// and is appended to the parent's children; one built without a parent is
// entered in the component registry. Every parameter is entered in the
// parameter registry under its component's full name.
module Component {
  import opened Wrappers
  import opened Json

  /**
   * One component object. `parentName` is the parent's full name captured by
   * the constructor ("" without a parent); `parameters` pairs each
   * registered parameter's name with its serialisation; `children` are the
   * child components in construction order, as indices into the hierarchy.
   */
  datatype Record = Record(componentType: string, name: string, parentName: string,
                           parameters: seq<(string, Json)>, children: seq<nat>)

  /** `getFullName`: "type.name", behind the parent's full name and a dot when there is one. */
  function FullNameOf(r: Record): (s: string)
    ensures |s| > 0
    ensures r.parentName == "" ==> s == r.componentType + "." + r.name
    ensures r.parentName != "" ==> s == r.parentName + "." + r.componentType + "." + r.name
  {
    var own := r.componentType + "." + r.name;
    if r.parentName != "" then r.parentName + "." + own else own
  }

  /** The serialisations in order. */
  function Values(ps: seq<(string, Json)>): (r: seq<Json>)
    ensures |r| == |ps| && forall k :: 0 <= k < |ps| ==> r[k] == ps[k].1
  {
    if |ps| == 0 then [] else [ps[0].1] + Values(ps[1..])
  }

  /**
   * All component objects of a program, in construction order, together with
   * the two process-wide registries as the sequences of keys entered.
   */
  class Hierarchy {
    var components: seq<Record>
    /** The keys entered in the component registry, with the component each names. */
    var componentRegistry: seq<(string, nat)>
    /** The keys entered in the parameter registry. */
    var parameterRegistry: seq<string>

    /** A component's children are built after it. */
    ghost predicate Valid()
      reads this
    {
      forall i, k :: 0 <= i < |components| && 0 <= k < |components[i].children| ==>
        i < components[i].children[k] < |components|
    }

    constructor()
      ensures Valid() && components == [] && componentRegistry == [] && parameterRegistry == []
    {
      components, componentRegistry, parameterRegistry := [], [], [];
    }

    function FullName(id: nat): string
      requires id < |components|
      reads this
    {
      FullNameOf(components[id])
    }

    /**
     * The `Component` constructor. With a parent: the parent's full name is
     * captured, so the new full name extends it, and the new component is
     * appended to the parent's children. Without one: the component is
     * registered under `parentName + name`, which is the bare name.
     */
    method NewComponent(componentType: string, name: string, parent: Option<nat>) returns (id: nat)
      requires Valid()
      requires parent.Some? ==> parent.value < |components|
      modifies this
      ensures Valid()
      ensures id == |old(components)| && |components| == id + 1
      ensures components[id].componentType == componentType && components[id].name == name
      ensures components[id].parameters == [] && components[id].children == []
      ensures parameterRegistry == old(parameterRegistry)
      ensures parent.None? ==>
        && components[id].parentName == ""
        && FullName(id) == componentType + "." + name
        && components[..id] == old(components)
        && componentRegistry == old(componentRegistry) + [(name, id)]
      ensures parent.Some? ==>
        var p := parent.value;
        && components[id].parentName == old(FullName(p))
        && FullName(id) == old(FullName(p)) + "." + componentType + "." + name
        && components[..id] == old(components)[p := old(components[p]).(children := old(components[p]).children + [id])]
        && componentRegistry == old(componentRegistry)
    {
      id := |components|;
      if parent.Some? {
        var p := parent.value;
        var parentRecord := components[p];
        var record := Record(componentType, name, FullNameOf(parentRecord), [], []);
        components := components[p := parentRecord.(children := parentRecord.children + [id])] + [record];
      } else {
        components := components + [Record(componentType, name, "", [], [])];
        componentRegistry := componentRegistry + [(name, id)];
      }
    }

    /**
     * `registerParameter`: the parameter is entered in the registry under
     * "fullName.parameterName" and appended to the component's parameters.
     */
    method RegisterParameter(id: nat, parameterName: string, serialized: Json)
      requires Valid() && id < |components|
      modifies this
      ensures Valid()
      ensures parameterRegistry == old(parameterRegistry) + [old(FullName(id)) + "." + parameterName]
      ensures components == old(components)[id := old(components[id]).(parameters := old(components[id]).parameters + [(parameterName, serialized)])]
      ensures componentRegistry == old(componentRegistry)
      ensures FullName(id) == old(FullName(id))
    {
      parameterRegistry := parameterRegistry + [FullName(id) + "." + parameterName];
      var record := components[id];
      components := components[id := record.(parameters := record.parameters + [(parameterName, serialized)])];
    }

    /**
     * `serialize`: an object with the name, the type, the parameters'
     * serialisations in registration order and the children's
     * serialisations in construction order (keys in the library's sorted
     * order).
     */
    function Serialize(id: nat): (j: Json)
      requires Valid() && id < |components|
      reads this
      decreases |components| - id, 1
    {
      var r := components[id];
      Object([("components", Array(SerializeAll(r.children, id))),
              ("name", String(r.name)),
              ("parameters", Array(Values(r.parameters))),
              ("type", String(r.componentType))])
    }

    function SerializeAll(ids: seq<nat>, lo: nat): (js: seq<Json>)
      requires Valid() && forall k :: 0 <= k < |ids| ==> lo < ids[k] < |components|
      reads this
      ensures |js| == |ids|
      ensures forall k :: 0 <= k < |ids| ==> js[k] == Serialize(ids[k])
      decreases |components| - lo, 0, |ids|
    {
      if |ids| == 0 then [] else [Serialize(ids[0])] + SerializeAll(ids[1..], lo)
    }

    /** What `serialize` lets a reader find under each key. */
    lemma SerializeFields(id: nat)
      requires Valid() && id < |components|
      ensures Get(Serialize(id), "name") == Some(String(components[id].name))
      ensures Get(Serialize(id), "type") == Some(String(components[id].componentType))
      ensures Get(Serialize(id), "parameters") == Some(Array(Values(components[id].parameters)))
      ensures var cs := Get(Serialize(id), "components");
        && cs.Some? && cs.value.Array? && |cs.value.elems| == |components[id].children|
        && forall k :: 0 <= k < |cs.value.elems| ==> cs.value.elems[k] == Serialize(components[id].children[k])
    {
      var fs := Serialize(id).fields;
      assert fs[1..][0] == fs[1] && fs[1..][1..][0] == fs[2] && fs[1..][1..][1..][0] == fs[3];
    }
  }

  /** A component's registry key is its bare name, which is never its full name. */
  lemma RegistryKeyIsNotFullName(componentType: string, name: string)
    ensures FullNameOf(Record(componentType, name, "", [], [])) != name
  {
    assert |FullNameOf(Record(componentType, name, "", [], []))| > |name|;
  }

  /** A parent "type"/"name" and a child "child_type"/"child_name": the child's full name joins all four. */
  method HierarchicalNamesScenario() returns (childFullName: string, registered: seq<(string, nat)>)
    ensures childFullName == "type.name.child_type.child_name"
    ensures registered == [("name", 0)]
  {
    var h := new Hierarchy();
    var parent := h.NewComponent("type", "name", None);
    assert h.FullName(parent) == "type.name" by { assert "type" + "." + "name" == "type.name"; }
    var child := h.NewComponent("child_type", "child_name", Some(parent));
    childFullName := h.FullName(child);
    assert "type.name" + "." + "child_type" + "." + "child_name" == "type.name.child_type.child_name";
    registered := h.componentRegistry;
  }
}
