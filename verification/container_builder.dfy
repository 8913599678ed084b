/**
  `ContainerBuilder::new` of `container2.rs`: one pass over the bean definitions that packs
  every bean into one zero-filled buffer and indexes the beans by type and by name. Unlike the
  planners it rejects nothing: a later bean of a type replaces an earlier one in the type
  index, and the name index (computed, then dropped) lists every bean of a name.
*/
module ContainerBuilders {
  import opened Layouts
  import opened BeanTypes
  import opened LegacyPlanner

  /** `ContainerBuilder`; the buffer holds bytes. */
  datatype ContainerBuilder = ContainerBuilder(
    beanDefinitions: seq<LegacyDefinition>,
    beanOffsets: seq<Range>,
    typeIdBeanIdMap: map<TypeId, nat>,
    dataLayout: Layout,
    data: seq<bv8>,
    nextInitBeanId: nat)

  /** The type index the loop leaves: each type to the id of the bean inserted last for it. */
  function LastIdOfType(defs: seq<LegacyDefinition>): map<TypeId, nat>
    decreases |defs|
  {
    if defs == [] then map[]
    else LastIdOfType(defs[..|defs| - 1])[defs[|defs| - 1].typeId := |defs| - 1]
  }

  /** The name index the loop builds: each name to the ids pushed under it. */
  function IdsByName(defs: seq<LegacyDefinition>): map<Name, seq<nat>>
    decreases |defs|
  {
    if defs == [] then map[]
    else
      var m := IdsByName(defs[..|defs| - 1]);
      var n := defs[|defs| - 1].name;
      m[n := (if n in m then m[n] else []) + [|defs| - 1]]
  }

  /** `ids` lists, in increasing order, exactly the ids of the beans named `n`. */
  ghost predicate ListsIdsNamed(defs: seq<LegacyDefinition>, n: Name, ids: seq<nat>)
  {
    && (forall k :: 0 <= k < |ids| ==> ids[k] < |defs| && defs[ids[k]].name == n)
    && (forall k, l :: 0 <= k < l < |ids| ==> ids[k] < ids[l])
    && (forall i :: 0 <= i < |defs| && defs[i].name == n ==> i in ids)
  }

  /**
    The type index holds exactly the types of the definitions, each with the largest id of
    that type: the bean registered last for it.
  */
  lemma {:induction false} LastIdOfTypeSpec(defs: seq<LegacyDefinition>)
    ensures forall t :: t in LastIdOfType(defs) <==> exists i :: 0 <= i < |defs| && defs[i].typeId == t
    ensures forall t :: t in LastIdOfType(defs) ==>
      && LastIdOfType(defs)[t] < |defs|
      && defs[LastIdOfType(defs)[t]].typeId == t
      && forall j :: LastIdOfType(defs)[t] < j < |defs| ==> defs[j].typeId != t
    decreases |defs|
  {
    if defs != [] {
      var init := defs[..|defs| - 1];
      LastIdOfTypeSpec(init);
      forall i | 0 <= i < |init| ensures init[i] == defs[i] { }
    }
  }

  /** Appending one definition extends the ids listed under its name by its id and keeps the others. */
  lemma ListsIdsNamedStep(defs: seq<LegacyDefinition>, n: Name, ids: seq<nat>)
    requires defs != [] && ListsIdsNamed(defs[..|defs| - 1], n, ids)
    ensures defs[|defs| - 1].name == n ==> ListsIdsNamed(defs, n, ids + [|defs| - 1])
    ensures defs[|defs| - 1].name != n ==> ListsIdsNamed(defs, n, ids)
  {
    var init, last := defs[..|defs| - 1], |defs| - 1;
    forall k | 0 <= k < |ids| ensures ids[k] < last && defs[ids[k]].name == n {
      assert init[ids[k]] == defs[ids[k]];
    }
    forall i | 0 <= i < last && defs[i].name == n ensures i in ids {
      assert init[i] == defs[i];
    }
    if defs[last].name == n {
      var ids' := ids + [last];
      forall k | 0 <= k < |ids'| ensures ids'[k] < |defs| && defs[ids'[k]].name == n {
        if k < |ids| { assert ids'[k] == ids[k]; }
      }
    }
  }

  /** Under one name, the name index holds the ids of exactly the beans of that name, in order. */
  lemma {:induction false} IdsByNameAt(defs: seq<LegacyDefinition>, n: Name)
    ensures n in IdsByName(defs) <==> exists i :: 0 <= i < |defs| && defs[i].name == n
    ensures n in IdsByName(defs) ==> ListsIdsNamed(defs, n, IdsByName(defs)[n])
    decreases |defs|
  {
    if defs != [] {
      var init, last := defs[..|defs| - 1], |defs| - 1;
      var m := IdsByName(init);
      IdsByNameAt(init, n);
      if n in m {
        ListsIdsNamedStep(defs, n, m[n]);
        var i :| 0 <= i < |init| && init[i].name == n;
        assert defs[i] == init[i];
      } else {
        ListsIdsNamedStep(defs, n, []);
        if n != defs[last].name {
          forall i | 0 <= i < |defs| ensures defs[i].name != n {
            if i < last { assert defs[i] == init[i]; }
          }
        }
      }
    }
  }

  /**
    The name index holds exactly the names of the definitions, and under each name every id
    registered with it, in registration order.
  */
  lemma IdsByNameSpec(defs: seq<LegacyDefinition>)
    ensures forall n :: n in IdsByName(defs) <==> exists i :: 0 <= i < |defs| && defs[i].name == n
    ensures forall n :: n in IdsByName(defs) ==> ListsIdsNamed(defs, n, IdsByName(defs)[n])
  {
    forall n ensures (n in IdsByName(defs) <==> exists i :: 0 <= i < |defs| && defs[i].name == n)
      && (n in IdsByName(defs) ==> ListsIdsNamed(defs, n, IdsByName(defs)[n]))
    {
      IdsByNameAt(defs, n);
    }
  }

  /** A packing that fails on a prefix fails on the whole list. */
  lemma {:induction false} PackFailsFromPrefix(defs: seq<LegacyDefinition>, k: nat)
    requires ValidLayouts(defs) && k <= |defs|
    requires AllValid(LayoutsOf(defs[..k])) && Pack(LayoutsOf(defs[..k])).None?
    ensures AllValid(LayoutsOf(defs)) && Pack(LayoutsOf(defs)).None?
    decreases |defs| - k
  {
    if k == |defs| {
      assert defs[..k] == defs;
    } else {
      var prefix := defs[..k + 1];
      assert prefix[..k] == defs[..k];
      PackStep(prefix);
      PackFailsFromPrefix(defs, k + 1);
    }
  }

  /** The state of the loop after the first `idx` definitions. */
  ghost predicate BuiltUpTo(defs: seq<LegacyDefinition>, idx: nat, layout: Layout, offsets: seq<Range>,
                            typeMap: map<TypeId, nat>, nameMap: map<Name, seq<nat>>)
  {
    && idx <= |defs| && ValidLayouts(defs) && layout.Valid()
    && PackedSlots(defs[..idx], layout, offsets)
    && typeMap == LastIdOfType(defs[..idx])
    && nameMap == IdsByName(defs[..idx])
  }

  /** One iteration of the loop whose `extend` succeeds keeps the loop state exact. */
  lemma BuildStep(defs: seq<LegacyDefinition>, idx: nat, layout: Layout, offsets: seq<Range>,
                  typeMap: map<TypeId, nat>, nameMap: map<Name, seq<nat>>)
    requires BuiltUpTo(defs, idx, layout, offsets, typeMap, nameMap) && idx < |defs|
    requires Extend(layout, defs[idx].layout).Some?
    ensures var d, e := defs[idx], Extend(layout, defs[idx].layout).value;
      var ids := if d.name in nameMap then nameMap[d.name] else [];
      BuiltUpTo(defs, idx + 1, e.layout, offsets + [Range(e.offset, e.offset + d.layout.size)],
        typeMap[d.typeId := idx], nameMap[d.name := ids + [idx]])
  {
    var prefix := defs[..idx + 1];
    assert prefix[..idx] == defs[..idx];
    PackedSlotsStep(prefix, layout, offsets);
  }

  /** An iteration whose `extend` fails means the whole list does not pack. */
  lemma BuildFails(defs: seq<LegacyDefinition>, idx: nat, layout: Layout, offsets: seq<Range>,
                   typeMap: map<TypeId, nat>, nameMap: map<Name, seq<nat>>)
    requires BuiltUpTo(defs, idx, layout, offsets, typeMap, nameMap) && idx < |defs|
    requires Extend(layout, defs[idx].layout).None?
    ensures AllValid(LayoutsOf(defs)) && Pack(LayoutsOf(defs)).None?
  {
    var prefix := defs[..idx + 1];
    assert prefix[..idx] == defs[..idx];
    PackStep(prefix);
    PackFailsFromPrefix(defs, idx + 1);
  }

  /**
    A builder for `defs`: slot `i` is the packed range of bean `i`, the type index keeps the
    last id of each type, the buffer is `size` zero bytes, and no bean is initialised yet.
  */
  ghost predicate Built(defs: seq<LegacyDefinition>, b: ContainerBuilder)
  {
    && b.beanDefinitions == defs
    && PackedSlots(defs, b.dataLayout, b.beanOffsets)
    && b.typeIdBeanIdMap == LastIdOfType(defs)
    && |b.data| == b.dataLayout.size
    && (forall i :: 0 <= i < |b.data| ==> b.data[i] == 0)
    && b.nextInitBeanId == 0
  }

  /** After the last definition, the loop state and a zeroed buffer make the builder of `defs`. */
  lemma BuildDone(defs: seq<LegacyDefinition>, layout: Layout, offsets: seq<Range>,
                  typeMap: map<TypeId, nat>, nameMap: map<Name, seq<nat>>, data: seq<bv8>)
    requires BuiltUpTo(defs, |defs|, layout, offsets, typeMap, nameMap)
    requires |data| == layout.size && forall i :: 0 <= i < |data| ==> data[i] == 0
    ensures AllValid(LayoutsOf(defs)) && Pack(LayoutsOf(defs)).Some?
    ensures Built(defs, ContainerBuilder(defs, offsets, typeMap, layout, data, 0)) && nameMap == IdsByName(defs)
  {
    assert defs[..|defs|] == defs;
  }

  /**
    `ContainerBuilder::new`: never an error; it panics (the `expect` on `extend`) exactly when
    the beans do not pack into one layout, and otherwise returns the builder of `defs`, having
    collected the name index of `defs` along the way.
  */
  method NewContainerBuilder(defs: seq<LegacyDefinition>) returns (r: Outcome<ContainerBuilder>, ghost nameBeanIds: map<Name, seq<nat>>)
    requires ValidLayouts(defs)
    ensures AllValid(LayoutsOf(defs))
    ensures !r.Err?
    ensures r.Panic? <==> Pack(LayoutsOf(defs)).None?
    ensures r.Ok? ==> Built(defs, r.value) && nameBeanIds == IdsByName(defs)
  {
    assert AllValid(LayoutsOf(defs));
    StartValid();
    var layout := Start;
    var offsets: seq<Range> := [];
    var typeMap: map<TypeId, nat> := map[];
    var nameMap: map<Name, seq<nat>> := map[];
    assert defs[..0] == [];
    for idx := 0 to |defs|
      invariant BuiltUpTo(defs, idx, layout, offsets, typeMap, nameMap)
    {
      var d := defs[idx];
      var extended := Extend(layout, d.layout);
      if extended.None? {
        BuildFails(defs, idx, layout, offsets, typeMap, nameMap);
        return Panic, map[];
      }
      BuildStep(defs, idx, layout, offsets, typeMap, nameMap);
      var e := extended.value;
      offsets := offsets + [Range(e.offset, e.offset + d.layout.size)];
      layout := e.layout;
      typeMap := typeMap[d.typeId := idx];
      var ids: seq<nat> := if d.name in nameMap then nameMap[d.name] else [];
      nameMap := nameMap[d.name := ids + [idx]];
    }
    var data := seq(layout.size, _ => 0 as bv8);
    BuildDone(defs, layout, offsets, typeMap, nameMap, data);
    return Ok(ContainerBuilder(defs, offsets, typeMap, layout, data, 0)), nameMap;
  }
}
