/**
  The older planner `ContainerInfo::new` of `ioc_core/src/container.rs` (repeated verbatim in
  `ioc_core/src/container2.rs`). It registers every definition (one slot each, packed with
  `Layout::extend`, and entries in a type index and a name index), resolves every dependency to
  a bean id, and levels the beans.

  Everything here runs as a 64-bit debug build would: an `expect` on an `Err`, an index out of
  bounds and an unsigned subtraction below zero all panic (`Panic`). The leveling loop is
  `while last >= 0` on a `usize`, so its only ways out are `LoopDependency` and the panic of
  `last -= 1` below zero: the call never returns `Ok` (`NewInfoNeverOk`). `PlanInfo` is the
  planner with the loop the later `container/spec.rs` uses instead, which succeeds exactly when
  registration and resolution do and the dependencies have no cycle.
*/
module LegacyPlanner {
  import opened Wrappers
  import opened Layouts
  import opened BeanTypes
  import opened BeanIndexes
  import opened SpecLeveling
  import ContainerSpecs

  /** A dependency as the older planners declare it: a type and, optionally, a bean name. */
  datatype Dependency = Dependency(typeId: TypeId, name: Option<Name>)

  type LegacyDefinition = BeanDefinition<Dependency>

  /** `Range<usize>`: the bytes `start .. end` of a slot. */
  datatype Range = Range(start: nat, end: nat)

  /** How a call ends: it returns `Ok` or `Err`, or it panics. */
  datatype Outcome<T> = Ok(value: T) | Err(error: ContainerError) | Panic

  /**
    `ContainerInfo`. Its `BeanInfo` records (id, resolved dependency ids, level) have the shape
    of `SpecLeveling.BeanSpec` and are kept as such.
  */
  datatype ContainerInfo = ContainerInfo(
    beanDefinitions: seq<LegacyDefinition>,
    beanOffsets: seq<Range>,
    dataLayout: Layout,
    typeBeanIdMap: TypeBeanIdMap,
    nameBeanIdMap: NameBeanIdMap,
    beanInfos: seq<BeanSpec>)

  // ---------------------------------------------------------------------------------------
  // The first loop: registration

  /** The state of the first loop: running layout, slot ranges, type index and name index. */
  datatype Registry = Registry(layout: Layout, offsets: seq<Range>, typeMap: TypeBeanIdMap, nameMap: NameBeanIdMap)

  /** The inner map of type `t`, or the empty map `or_insert` would add. */
  function EntryOf(typeMap: TypeBeanIdMap, t: TypeId): map<Name, nat>
  {
    if t in typeMap then typeMap[t] else map[]
  }

  /**
    One iteration of the first loop, for the last definition of `defs`: extend the layout
    (`expect` panics on overflow), insert into the type index (an earlier bean of the same type
    and name is a `DuplicateBeanDefiniton`), then into the name index (an earlier bean of the
    same name is a `DuplicateBeanName`, whose third field is that earlier bean's `name`).
  */
  function RegisterStep(defs: seq<LegacyDefinition>, reg: Registry): (r: Outcome<Registry>)
    requires |defs| > 0 && reg.layout.Valid() && defs[|defs| - 1].layout.Valid()
    requires forall n :: n in reg.nameMap ==> reg.nameMap[n] < |defs| - 1
    ensures r.Ok? ==> r.value.layout.Valid() && |r.value.offsets| == |reg.offsets| + 1
    ensures r.Ok? ==> forall n :: n in r.value.nameMap ==> r.value.nameMap[n] < |defs|
  {
    var idx := |defs| - 1;
    var d := defs[idx];
    match Extend(reg.layout, d.layout)
    case None => Panic
    case Some(e) =>
      var inner := EntryOf(reg.typeMap, d.typeId);
      if d.name in inner then Err(DuplicateBeanDefiniton(d.typeName, d.name))
      else if d.name in reg.nameMap then Err(DuplicateBeanName(d.name, d.typeName, defs[reg.nameMap[d.name]].name))
      else
        Ok(Registry(e.layout, reg.offsets + [Range(e.offset, e.offset + d.layout.size)],
          reg.typeMap[d.typeId := inner[d.name := idx]], reg.nameMap[d.name := idx]))
  }

  /** The first loop over the whole list, stopping at the first definition that fails. */
  function Register(defs: seq<LegacyDefinition>): (r: Outcome<Registry>)
    requires ValidLayouts(defs)
    ensures r.Ok? ==> r.value.layout.Valid() && |r.value.offsets| == |defs|
    ensures r.Ok? ==> forall n :: n in r.value.nameMap ==> r.value.nameMap[n] < |defs|
    decreases |defs|
  {
    if defs == [] then StartValid(); Ok(Registry(Start, [], map[], map[]))
    else
      var init := defs[..|defs| - 1];
      assert forall i :: 0 <= i < |init| ==> init[i] == defs[i];
      match Register(init)
      case Ok(reg) => RegisterStep(defs, reg)
      case Err(e) => Err(e)
      case Panic => Panic
  }

  /** The slots of `defs`: `Pack` from `Start` succeeds, and slot `i` spans its packed offset. */
  ghost predicate PackedSlots(defs: seq<LegacyDefinition>, layout: Layout, offsets: seq<Range>)
  {
    && AllValid(LayoutsOf(defs))
    && Pack(LayoutsOf(defs)).Some?
    && var p := Pack(LayoutsOf(defs)).value;
    && layout == p.layout
    && |offsets| == |defs|
    && (forall i :: 0 <= i < |defs| ==> offsets[i] == Range(p.offsets[i], p.offsets[i] + defs[i].layout.size))
  }

  /** The registry of `defs`: slots packed from `Start`, both indexes exact, names unique. */
  ghost predicate Registered(defs: seq<LegacyDefinition>, reg: Registry)
  {
    PackedSlots(defs, reg.layout, reg.offsets) && Indexed(defs, reg.typeMap, reg.nameMap)
  }

  /** `Pack` of a non-empty list of layouts, one step back. */
  lemma PackStep(defs: seq<LegacyDefinition>)
    requires |defs| > 0 && ValidLayouts(defs)
    ensures AllValid(LayoutsOf(defs)) && AllValid(LayoutsOf(defs[..|defs| - 1]))
    ensures Pack(LayoutsOf(defs)) ==
      match Pack(LayoutsOf(defs[..|defs| - 1]))
      case None => None
      case Some(p) =>
        match Extend(p.layout, defs[|defs| - 1].layout)
        case None => None
        case Some(e) => Some(Packing(e.layout, p.offsets + [e.offset]))
  {
    var ls := LayoutsOf(defs);
    assert ls[..|ls| - 1] == LayoutsOf(defs[..|defs| - 1]);
  }

  /** Appending the extended slot of the last definition keeps the slots packed. */
  lemma PackedSlotsStep(defs: seq<LegacyDefinition>, layout: Layout, offsets: seq<Range>)
    requires |defs| > 0 && ValidLayouts(defs)
    requires PackedSlots(defs[..|defs| - 1], layout, offsets) && layout.Valid()
    requires Extend(layout, defs[|defs| - 1].layout).Some?
    ensures var e := Extend(layout, defs[|defs| - 1].layout).value;
      PackedSlots(defs, e.layout, offsets + [Range(e.offset, e.offset + defs[|defs| - 1].layout.size)])
  {
    PackStep(defs);
    var e := Extend(layout, defs[|defs| - 1].layout).value;
    var offsets' := offsets + [Range(e.offset, e.offset + defs[|defs| - 1].layout.size)];
    var p := Pack(LayoutsOf(defs)).value;
    forall i | 0 <= i < |defs|
      ensures offsets'[i] == Range(p.offsets[i], p.offsets[i] + defs[i].layout.size)
    {
      if i < |defs| - 1 {
        assert defs[i] == defs[..|defs| - 1][i];
      }
    }
  }

  /** Indexing the last definition under a name the name index lacks keeps the indexes exact. */
  lemma IndexedStep(defs: seq<LegacyDefinition>, typeMap: TypeBeanIdMap, nameMap: NameBeanIdMap)
    requires |defs| > 0 && Indexed(defs[..|defs| - 1], typeMap, nameMap)
    requires defs[|defs| - 1].name !in nameMap
    ensures var d := defs[|defs| - 1];
      Indexed(defs, typeMap[d.typeId := EntryOf(typeMap, d.typeId)[d.name := |defs| - 1]], nameMap[d.name := |defs| - 1])
  {
    var init := defs[..|defs| - 1];
    var d := defs[|defs| - 1];
    assert defs == init + [d];
    FreshName(init, d);
  }

  /** With the earlier names unique, the new name is in the name index exactly when it repeats. */
  lemma NameRepeats(defs: seq<LegacyDefinition>, nameMap: NameBeanIdMap)
    requires |defs| > 0 && UniqueNames(defs[..|defs| - 1]) && nameMap == NameMapOf(defs[..|defs| - 1])
    ensures defs[|defs| - 1].name in nameMap <==> !UniqueNames(defs)
  {
    var init := defs[..|defs| - 1];
    var d := defs[|defs| - 1];
    if d.name in nameMap {
      NameMapOfOnly(init, d.name);
      var j := nameMap[d.name];
      assert defs[j] == init[j];
      assert defs[j].name == defs[|defs| - 1].name;
    }
    if !UniqueNames(defs) {
      var i, j :| 0 <= i < j < |defs| && defs[i].name == defs[j].name;
      assert forall a :: 0 <= a < |defs| - 1 ==> init[a] == defs[a];
      assert j == |defs| - 1;
      NameMapOfHas(init, i);
      assert init[i] == defs[i];
    }
  }

  /**
    Registration succeeds exactly when all slots fit (`Pack` succeeds) and all names are
    distinct, and then it computes the packing and the exact indexes.
  */
  lemma {:induction false} RegisterSpec(defs: seq<LegacyDefinition>)
    requires ValidLayouts(defs)
    ensures AllValid(LayoutsOf(defs))
    ensures Register(defs).Ok? <==> Pack(LayoutsOf(defs)).Some? && UniqueNames(defs)
    ensures Register(defs).Ok? ==> Registered(defs, Register(defs).value)
    decreases |defs|
  {
    if defs == [] {
      assert LayoutsOf(defs) == [];
    } else {
      var init := defs[..|defs| - 1];
      assert ValidLayouts(init);
      RegisterSpec(init);
      if Register(init).Ok? {
        RegisterSpecOkStep(defs, Register(init).value);
      } else {
        RegisterSpecFailedStep(defs);
      }
    }
  }

  /** The step of `RegisterSpec` after the definitions before the last registered. */
  lemma {:induction false} RegisterSpecOkStep(defs: seq<LegacyDefinition>, reg: Registry)
    requires |defs| > 0 && ValidLayouts(defs)
    requires Register(defs[..|defs| - 1]) == Ok(reg) && Registered(defs[..|defs| - 1], reg)
    ensures AllValid(LayoutsOf(defs))
    ensures Register(defs).Ok? <==> Pack(LayoutsOf(defs)).Some? && UniqueNames(defs)
    ensures Register(defs).Ok? ==> Registered(defs, Register(defs).value)
  {
    var init := defs[..|defs| - 1];
    var d := defs[|defs| - 1];
    assert Register(defs) == RegisterStep(defs, reg) by {
      RegisterUnfold(defs, reg);
    }
    assert AllValid(LayoutsOf(defs)) && (Pack(LayoutsOf(defs)).Some? <==> Extend(reg.layout, d.layout).Some?) by {
      PackStep(defs);
    }
    assert UniqueNames(defs) <==> d.name !in reg.nameMap by {
      NameRepeats(defs, reg.nameMap);
    }
    if Extend(reg.layout, d.layout).Some? && d.name !in reg.nameMap {
      RegisterStepRegistered(defs, reg);
    } else {
      assert !RegisterStep(defs, reg).Ok?;
    }
  }

  /** A step that extends the slots and meets a new name keeps the registry exact. */
  lemma RegisterStepRegistered(defs: seq<LegacyDefinition>, reg: Registry)
    requires |defs| > 0 && ValidLayouts(defs) && reg.layout.Valid()
    requires Registered(defs[..|defs| - 1], reg)
    requires Extend(reg.layout, defs[|defs| - 1].layout).Some? && defs[|defs| - 1].name !in reg.nameMap
    requires forall n :: n in reg.nameMap ==> reg.nameMap[n] < |defs| - 1
    ensures RegisterStep(defs, reg).Ok? && Registered(defs, RegisterStep(defs, reg).value)
  {
    var init := defs[..|defs| - 1];
    var d := defs[|defs| - 1];
    var e := Extend(reg.layout, d.layout).value;
    var inner := EntryOf(reg.typeMap, d.typeId);
    assert d.name !in inner by {
      FreshName(init, d);
    }
    var next := Registry(e.layout, reg.offsets + [Range(e.offset, e.offset + d.layout.size)],
      reg.typeMap[d.typeId := inner[d.name := |defs| - 1]], reg.nameMap[d.name := |defs| - 1]);
    assert RegisterStep(defs, reg) == Ok(next);
    PackedSlotsStep(defs, reg.layout, reg.offsets);
    IndexedStep(defs, reg.typeMap, reg.nameMap);
  }

  /** Registration of a non-empty list is one step after registering all but the last. */
  lemma RegisterUnfold(defs: seq<LegacyDefinition>, reg: Registry)
    requires |defs| > 0 && ValidLayouts(defs) && Register(defs[..|defs| - 1]) == Ok(reg)
    ensures forall n :: n in reg.nameMap ==> reg.nameMap[n] < |defs| - 1
    ensures Register(defs) == RegisterStep(defs, reg)
  {
  }

  /** The step of `RegisterSpec` after the definitions before the last failed. */
  lemma {:induction false} RegisterSpecFailedStep(defs: seq<LegacyDefinition>)
    requires |defs| > 0 && ValidLayouts(defs)
    requires AllValid(LayoutsOf(defs[..|defs| - 1]))
    requires !Register(defs[..|defs| - 1]).Ok?
    requires !(Pack(LayoutsOf(defs[..|defs| - 1])).Some? && UniqueNames(defs[..|defs| - 1]))
    ensures AllValid(LayoutsOf(defs))
    ensures !Register(defs).Ok? && !(Pack(LayoutsOf(defs)).Some? && UniqueNames(defs))
  {
    var init := defs[..|defs| - 1];
    PackStep(defs);
    assert defs == init + [defs[|defs| - 1]];
  }

  /**
    One step of registration from exact indexes of the definitions before it: a panic exactly
    when the new slot does not fit; `DuplicateBeanDefiniton` exactly when an earlier bean has
    the new type and name (this check comes first); `DuplicateBeanName` when an earlier bean of
    another type has the new name, and then its third field is that earlier bean's `name` (so
    the new name again), not its type name; success exactly when the name is new.
  */
  lemma RegisterStepSpec(defs: seq<LegacyDefinition>, reg: Registry)
    requires |defs| > 0 && defs[|defs| - 1].layout.Valid() && reg.layout.Valid()
    requires Indexed(defs[..|defs| - 1], reg.typeMap, reg.nameMap)
    ensures forall n :: n in reg.nameMap ==> reg.nameMap[n] < |defs| - 1
    ensures var d := defs[|defs| - 1];
      && (RegisterStep(defs, reg) == Panic <==> Extend(reg.layout, d.layout).None?)
      && (RegisterStep(defs, reg) == Err(DuplicateBeanDefiniton(d.typeName, d.name)) <==>
          Extend(reg.layout, d.layout).Some? &&
          exists j :: 0 <= j < |defs| - 1 && defs[j].typeId == d.typeId && defs[j].name == d.name)
      && (forall j :: 0 <= j < |defs| - 1 && defs[j].name == d.name && defs[j].typeId != d.typeId ==>
          Extend(reg.layout, d.layout).Some? ==> RegisterStep(defs, reg) == Err(DuplicateBeanName(d.name, d.typeName, defs[j].name)))
      && (RegisterStep(defs, reg).Ok? <==> Extend(reg.layout, d.layout).Some? && forall j :: 0 <= j < |defs| - 1 ==> defs[j].name != d.name)
  {
    LastAgainstIndexes(defs, reg.typeMap, reg.nameMap);
  }

  /** What exact indexes of the earlier definitions say about the name and type of the last. */
  lemma LastAgainstIndexes(defs: seq<LegacyDefinition>, typeMap: TypeBeanIdMap, nameMap: NameBeanIdMap)
    requires |defs| > 0 && Indexed(defs[..|defs| - 1], typeMap, nameMap)
    ensures forall n :: n in nameMap ==> nameMap[n] < |defs| - 1
    ensures var d := defs[|defs| - 1];
      d.name in EntryOf(typeMap, d.typeId) <==>
        exists j :: 0 <= j < |defs| - 1 && defs[j].typeId == d.typeId && defs[j].name == d.name
    ensures var d := defs[|defs| - 1];
      forall j :: 0 <= j < |defs| - 1 && defs[j].name == d.name ==> d.name in nameMap && nameMap[d.name] == j
    ensures var d := defs[|defs| - 1];
      d.name in nameMap ==> nameMap[d.name] < |defs| - 1 && defs[nameMap[d.name]].name == d.name
  {
    LastAgainstNameIndex(defs, nameMap);
    LastAgainstTypeIndex(defs, typeMap);
  }

  /** The name-index half of `LastAgainstIndexes`. */
  lemma LastAgainstNameIndex(defs: seq<LegacyDefinition>, nameMap: NameBeanIdMap)
    requires |defs| > 0 && UniqueNames(defs[..|defs| - 1]) && nameMap == NameMapOf(defs[..|defs| - 1])
    ensures forall n :: n in nameMap ==> nameMap[n] < |defs| - 1
    ensures var d := defs[|defs| - 1];
      forall j :: 0 <= j < |defs| - 1 && defs[j].name == d.name ==> d.name in nameMap && nameMap[d.name] == j
    ensures var d := defs[|defs| - 1];
      d.name in nameMap ==> nameMap[d.name] < |defs| - 1 && defs[nameMap[d.name]].name == d.name
  {
    var init := defs[..|defs| - 1];
    var d := defs[|defs| - 1];
    NameMapOfSpec(init);
    if d.name in nameMap {
      var k := nameMap[d.name];
      assert init[k].name == d.name;
      assert defs[k] == init[k];
    }
    forall j | 0 <= j < |defs| - 1 && defs[j].name == d.name
      ensures d.name in nameMap && nameMap[d.name] == j
    {
      assert defs[j] == init[j];
    }
  }

  /** The type-index half of `LastAgainstIndexes`. */
  lemma LastAgainstTypeIndex(defs: seq<LegacyDefinition>, typeMap: TypeBeanIdMap)
    requires |defs| > 0 && UniqueNames(defs[..|defs| - 1]) && typeMap == TypeMapOf(defs[..|defs| - 1])
    ensures var d := defs[|defs| - 1];
      d.name in EntryOf(typeMap, d.typeId) <==>
        exists j :: 0 <= j < |defs| - 1 && defs[j].typeId == d.typeId && defs[j].name == d.name
  {
    var init := defs[..|defs| - 1];
    var d := defs[|defs| - 1];
    TypeMapOfSpec(init);
    if d.name in EntryOf(typeMap, d.typeId) {
      var k := typeMap[d.typeId][d.name];
      assert init[k].typeId == d.typeId && init[k].name == d.name;
      assert defs[k] == init[k];
    }
    forall j | 0 <= j < |defs| - 1 && defs[j].typeId == d.typeId && defs[j].name == d.name
      ensures d.name in EntryOf(typeMap, d.typeId)
    {
      assert defs[j] == init[j];
    }
  }

  /** A registration that has stopped stays stopped: the loop returns at once. */
  lemma {:induction false} RegisterStopsAtFailure(defs: seq<LegacyDefinition>, k: nat)
    requires ValidLayouts(defs) && k <= |defs| && !Register(defs[..k]).Ok?
    ensures Register(defs) == Register(defs[..k])
    decreases |defs|
  {
    if k < |defs| {
      var init := defs[..|defs| - 1];
      assert init[..k] == defs[..k];
      assert ValidLayouts(init);
      RegisterStopsAtFailure(init, k);
    } else {
      assert defs[..k] == defs;
    }
  }

  /** One iteration of the first loop, for the last definition of `defs`. */
  method RegisterOne(defs: seq<LegacyDefinition>, reg: Registry) returns (r: Outcome<Registry>)
    requires |defs| > 0 && reg.layout.Valid() && defs[|defs| - 1].layout.Valid()
    requires forall n :: n in reg.nameMap ==> reg.nameMap[n] < |defs| - 1
    ensures r == RegisterStep(defs, reg)
  {
    var idx := |defs| - 1;
    var d := defs[idx];
    var extended := Extend(reg.layout, d.layout);
    if extended.None? {
      return Panic;
    }
    var e := extended.value;
    var offsets := reg.offsets + [Range(e.offset, e.offset + d.layout.size)];
    var inner := EntryOf(reg.typeMap, d.typeId);
    if d.name in inner {
      return Err(DuplicateBeanDefiniton(d.typeName, d.name));
    }
    var typeMap := reg.typeMap[d.typeId := inner[d.name := idx]];
    if d.name in reg.nameMap {
      var duplicate := defs[reg.nameMap[d.name]];
      return Err(DuplicateBeanName(d.name, d.typeName, duplicate.name));
    }
    return Ok(Registry(e.layout, offsets, typeMap, reg.nameMap[d.name := idx]));
  }

  /** The first loop of `ContainerInfo::new`. */
  method RegisterDefinitions(defs: seq<LegacyDefinition>) returns (r: Outcome<Registry>)
    requires ValidLayouts(defs)
    ensures r == Register(defs)
  {
    var reg := Registry(Start, [], map[], map[]);
    assert defs[..0] == [];
    for idx := 0 to |defs|
      invariant Register(defs[..idx]) == Ok(reg)
    {
      var prefix := defs[..idx + 1];
      assert ValidLayouts(prefix);
      assert prefix[..idx] == defs[..idx];
      RegisterUnfold(prefix, reg);
      var step := RegisterOne(prefix, reg);
      if !step.Ok? {
        RegisterStopsAtFailure(defs, idx + 1);
        return step;
      }
      reg := step.value;
    }
    assert defs[..|defs|] == defs;
    return Ok(reg);
  }

  // ---------------------------------------------------------------------------------------
  // The second loop: resolution, with errors naming the dependent bean's type

  /**
    One dependency of definition `d`: an unknown type is `NoBean`; a named dependency needs
    that name under the type (`NoNamedBean` with the type's names otherwise); an unnamed one
    needs exactly one bean of the type (`TooManyCandinatedBean` otherwise). Every error carries
    `d.typeName`, the type name of the bean that declares the dependency.
  */
  function ResolveDependency(typeMap: TypeBeanIdMap, d: LegacyDefinition, dep: Dependency): Result<nat, ContainerError>
  {
    if dep.typeId in typeMap then
      var m := typeMap[dep.typeId];
      match dep.name
      case Some(target) =>
        if target in m then Success(m[target]) else Failure(NoNamedBean(d.typeName, target, m.Keys))
      case None =>
        if |m| == 1 then Success(OnlyValue(m)) else Failure(TooManyCandinatedBean(d.typeName, m.Keys))
    else Failure(NoBean(d.typeName))
  }

  /** The query `spec.rs` would make for the same dependency. */
  function AsQuery(dep: Dependency, typeName: Name): (q: BeanQuery)
    ensures q.typeId == dep.typeId && q.typeName == typeName
    ensures q.NameAndType? <==> dep.name.Some?
    ensures q.NameAndType? ==> q.name == dep.name.value
  {
    match dep.name
    case Some(n) => NameAndType(n, dep.typeId, typeName)
    case None => OnlyType(dep.typeId, typeName)
  }

  /** The type index's entry for `t` lists exactly the names registered with type `t`. */
  lemma KeysAreNames(defs: seq<LegacyDefinition>, t: TypeId)
    requires UniqueNames(defs) && t in TypeMapOf(defs)
    ensures TypeMapOf(defs)[t].Keys == ContainerSpecs.NamesOfType(defs, t)
  {
    TypeMapOfSpec(defs);
    var m := TypeMapOf(defs)[t];
    forall n | n in ContainerSpecs.NamesOfType(defs, t) ensures n in m {
      var i :| 0 <= i < |defs| && defs[i].typeId == t && defs[i].name == n;
    }
  }

  /**
    What one dependency resolves to over exact indexes. Unnamed: the single bean of its type,
    `NoBean` when there is none, `TooManyCandinatedBean` with all their names when there are
    several. Named: the bean of that type and name, `NoBean` when the type is unknown,
    `NoNamedBean` with the type's names when the type is known but not under that name. Errors
    name the dependent's type. Successes agree with `spec.rs`'s `find`.
  */
  lemma ResolveDependencySpec(defs: seq<LegacyDefinition>, nameMap: NameBeanIdMap, d: LegacyDefinition, dep: Dependency, id: nat)
    requires Indexed(defs, TypeMapOf(defs), nameMap)
    ensures var r := ResolveDependency(TypeMapOf(defs), d, dep);
      && (r.Success? <==> ContainerSpecs.Find(TypeMapOf(defs), AsQuery(dep, d.typeName)).Success?)
      && (r.Success? ==> Success(r.value) == ContainerSpecs.Find(TypeMapOf(defs), AsQuery(dep, d.typeName)))
      && (r == Failure(NoBean(d.typeName)) <==> forall j :: !ContainerSpecs.OfType(defs, j, dep.typeId))
    ensures var r := ResolveDependency(TypeMapOf(defs), d, dep);
      dep.name.None? ==>
        && (r == Success(id) <==> ContainerSpecs.OfType(defs, id, dep.typeId) && forall j :: ContainerSpecs.OfType(defs, j, dep.typeId) ==> j == id)
        && (r == Failure(TooManyCandinatedBean(d.typeName, ContainerSpecs.NamesOfType(defs, dep.typeId))) <==>
            exists i, j :: ContainerSpecs.OfType(defs, i, dep.typeId) && ContainerSpecs.OfType(defs, j, dep.typeId) && i != j)
    ensures var r := ResolveDependency(TypeMapOf(defs), d, dep);
      dep.name.Some? ==>
        && (r == Success(id) <==> ContainerSpecs.OfType(defs, id, dep.typeId) && defs[id].name == dep.name.value)
        && (r == Failure(NoNamedBean(d.typeName, dep.name.value, ContainerSpecs.NamesOfType(defs, dep.typeId))) <==>
            (exists j :: ContainerSpecs.OfType(defs, j, dep.typeId)) &&
            forall j :: ContainerSpecs.OfType(defs, j, dep.typeId) ==> defs[j].name != dep.name.value)
  {
    var typeMap := TypeMapOf(defs);
    var t := dep.typeId;
    if t in typeMap {
      KeysAreNames(defs, t);
    }
    match dep.name
    case None =>
      ContainerSpecs.FindOnlyType(defs, t, d.typeName, id);
      if t in typeMap && |typeMap[t]| != 1 {
        ContainerSpecs.FindOnlyType(defs, t, d.typeName, 0);
      }
    case Some(n) =>
      ContainerSpecs.FindNameAndType(defs, n, t, d.typeName, id);
      if t in typeMap {
        TypeMapOfNonEmpty(defs, t);
        var k :| k in typeMap[t];
        TypeMapOfOnly(defs, t, k);
        assert ContainerSpecs.OfType(defs, typeMap[t][k], t);
        forall j | ContainerSpecs.OfType(defs, j, t) && defs[j].name == n ensures n in typeMap[t] {
          TypeMapOfHas(defs, j);
        }
      }
  }

  /** The inner `for dependency in definition.dependencies` loop from index `k` on. */
  function ResolveFrom(typeMap: TypeBeanIdMap, d: LegacyDefinition, k: nat, acc: seq<nat>): Result<seq<nat>, ContainerError>
    requires k <= |d.dependencies|
    decreases |d.dependencies| - k
  {
    if k == |d.dependencies| then Success(acc)
    else
      match ResolveDependency(typeMap, d, d.dependencies[k])
      case Failure(e) => Failure(e)
      case Success(id) => ResolveFrom(typeMap, d, k + 1, acc + [id])
  }

  function ResolveDeps(typeMap: TypeBeanIdMap, d: LegacyDefinition): Result<seq<nat>, ContainerError>
  {
    ResolveFrom(typeMap, d, 0, [])
  }

  /** The outer `for (idx, definition)` loop from index `k` on. */
  function ResolveAllFrom(typeMap: TypeBeanIdMap, defs: seq<LegacyDefinition>, k: nat, acc: seq<seq<nat>>): Result<seq<seq<nat>>, ContainerError>
    requires k <= |defs|
    decreases |defs| - k
  {
    if k == |defs| then Success(acc)
    else
      match ResolveDeps(typeMap, defs[k])
      case Failure(e) => Failure(e)
      case Success(ds) => ResolveAllFrom(typeMap, defs, k + 1, acc + [ds])
  }

  function ResolveAll(typeMap: TypeBeanIdMap, defs: seq<LegacyDefinition>): Result<seq<seq<nat>>, ContainerError>
  {
    ResolveAllFrom(typeMap, defs, 0, [])
  }

  lemma {:induction false} ResolveFromSpec(typeMap: TypeBeanIdMap, d: LegacyDefinition, k: nat, acc: seq<nat>)
    requires k <= |d.dependencies|
    ensures ResolveFrom(typeMap, d, k, acc).Success? <==>
      forall i :: k <= i < |d.dependencies| ==> ResolveDependency(typeMap, d, d.dependencies[i]).Success?
    ensures ResolveFrom(typeMap, d, k, acc).Success? ==>
      var ds := ResolveFrom(typeMap, d, k, acc).value;
      |ds| == |acc| + |d.dependencies| - k && ds[..|acc|] == acc
      && forall i :: k <= i < |d.dependencies| ==> ResolveDependency(typeMap, d, d.dependencies[i]) == Success(ds[|acc| + i - k])
    ensures ResolveFrom(typeMap, d, k, acc).Failure? ==>
      exists i :: k <= i < |d.dependencies| && ResolveDependency(typeMap, d, d.dependencies[i]) == Failure(ResolveFrom(typeMap, d, k, acc).error)
        && forall j :: k <= j < i ==> ResolveDependency(typeMap, d, d.dependencies[j]).Success?
    decreases |d.dependencies| - k
  {
    if k < |d.dependencies| && ResolveDependency(typeMap, d, d.dependencies[k]).Failure? {
      assert ResolveDependency(typeMap, d, d.dependencies[k]) == Failure(ResolveFrom(typeMap, d, k, acc).error);
    }
    if k < |d.dependencies| && ResolveDependency(typeMap, d, d.dependencies[k]).Success? {
      var acc' := acc + [ResolveDependency(typeMap, d, d.dependencies[k]).value];
      ResolveFromSpec(typeMap, d, k + 1, acc');
      if ResolveFrom(typeMap, d, k + 1, acc').Success? {
        var ds := ResolveFrom(typeMap, d, k + 1, acc').value;
        assert ds[..|acc|] == ds[..|acc'|][..|acc|];
      }
    }
  }

  /**
    A definition's dependency list resolves exactly when each dependency does, to their ids in
    order; otherwise with the error of the first one that does not resolve.
  */
  lemma ResolveDepsSpec(typeMap: TypeBeanIdMap, d: LegacyDefinition)
    ensures ResolveDeps(typeMap, d).Success? <==>
      forall i :: 0 <= i < |d.dependencies| ==> ResolveDependency(typeMap, d, d.dependencies[i]).Success?
    ensures ResolveDeps(typeMap, d).Success? ==>
      |ResolveDeps(typeMap, d).value| == |d.dependencies|
      && forall i :: 0 <= i < |d.dependencies| ==> ResolveDependency(typeMap, d, d.dependencies[i]) == Success(ResolveDeps(typeMap, d).value[i])
    ensures ResolveDeps(typeMap, d).Failure? ==>
      exists i :: 0 <= i < |d.dependencies| && ResolveDependency(typeMap, d, d.dependencies[i]) == Failure(ResolveDeps(typeMap, d).error)
        && forall j :: 0 <= j < i ==> ResolveDependency(typeMap, d, d.dependencies[j]).Success?
  {
    ResolveFromSpec(typeMap, d, 0, []);
    if ResolveDeps(typeMap, d).Success? {
      var ds := ResolveDeps(typeMap, d).value;
      assert forall i :: 0 <= i < |d.dependencies| ==> ResolveDependency(typeMap, d, d.dependencies[i]) == Success(ds[0 + i - 0]);
    }
  }

  /** `deps[i]` is the resolved dependency list of definition `i`. */
  ghost predicate ResolvedAll(typeMap: TypeBeanIdMap, defs: seq<LegacyDefinition>, deps: seq<seq<nat>>)
  {
    && |deps| == |defs|
    && forall i :: 0 <= i < |defs| ==> ResolveDeps(typeMap, defs[i]) == Success(deps[i])
  }

  lemma {:induction false} ResolveAllFromSpec(typeMap: TypeBeanIdMap, defs: seq<LegacyDefinition>, k: nat, acc: seq<seq<nat>>)
    requires k <= |defs| && |acc| == k
    requires forall i :: 0 <= i < k ==> ResolveDeps(typeMap, defs[i]) == Success(acc[i])
    ensures ResolveAllFrom(typeMap, defs, k, acc).Success? ==> ResolvedAll(typeMap, defs, ResolveAllFrom(typeMap, defs, k, acc).value)
    ensures ResolveAllFrom(typeMap, defs, k, acc).Failure? ==>
      exists i :: k <= i < |defs| && ResolveDeps(typeMap, defs[i]) == Failure(ResolveAllFrom(typeMap, defs, k, acc).error)
        && forall j :: k <= j < i ==> ResolveDeps(typeMap, defs[j]).Success?
    decreases |defs| - k
  {
    if k < |defs| && ResolveDeps(typeMap, defs[k]).Failure? {
      assert ResolveDeps(typeMap, defs[k]) == Failure(ResolveAllFrom(typeMap, defs, k, acc).error);
    }
    if k < |defs| && ResolveDeps(typeMap, defs[k]).Success? {
      ResolveAllFromSpec(typeMap, defs, k + 1, acc + [ResolveDeps(typeMap, defs[k]).value]);
    }
  }

  /**
    Resolution of all definitions succeeds with every list resolved, or fails with the error
    of the first definition whose list does not resolve; over exact indexes every resolved id names a definition.
  */
  lemma {:induction false} ResolveAllSpec(defs: seq<LegacyDefinition>, nameMap: NameBeanIdMap)
    requires Indexed(defs, TypeMapOf(defs), nameMap)
    ensures ResolveAll(TypeMapOf(defs), defs).Success? ==>
      ResolvedAll(TypeMapOf(defs), defs, ResolveAll(TypeMapOf(defs), defs).value)
      && DepsInRange(ResolveAll(TypeMapOf(defs), defs).value)
    ensures ResolveAll(TypeMapOf(defs), defs).Failure? ==>
      exists i :: 0 <= i < |defs| && ResolveDeps(TypeMapOf(defs), defs[i]) == Failure(ResolveAll(TypeMapOf(defs), defs).error)
        && forall j :: 0 <= j < i ==> ResolveDeps(TypeMapOf(defs), defs[j]).Success?
  {
    var typeMap := TypeMapOf(defs);
    ResolveAllFromSpec(typeMap, defs, 0, []);
    if ResolveAll(typeMap, defs).Success? {
      var deps := ResolveAll(typeMap, defs).value;
      forall x, y | 0 <= x < |deps| && y in deps[x] ensures y < |deps| {
        var d := defs[x];
        ResolveDepsSpec(typeMap, d);
        var k :| 0 <= k < |deps[x]| && deps[x][k] == y;
        ResolveDependencySpec(defs, nameMap, d, d.dependencies[k], y);
        ContainerSpecs.FindInRange(defs, AsQuery(d.dependencies[k], d.typeName));
      }
    }
  }

  // ---------------------------------------------------------------------------------------
  // The third loop: leveling, as written

  /** The leveling loop's state: `scan_ids`, `ready_ids`, `bean_infos` and `last`. */
  datatype LegacyScan = LegacyScan(scan: seq<nat>, ready: set<nat>, infos: seq<BeanSpec>, last: nat)

  ghost predicate ScanOk(st: LegacyScan)
  {
    && |st.scan| == |st.infos|
    && st.last < |st.scan|
    && forall i :: 0 <= i < |st.scan| ==> st.scan[i] < |st.infos|
  }

  /**
    One pass, `for i in 0..=last` with the range fixed when the pass starts (`end`). A ready
    bean gets the level, its id goes into `ready_ids`, it is swapped to `last`, and `last`
    goes down by one; at `last == 0` that subtraction panics (`None`). A bean already readied
    earlier in the same pass and swapped into `i + 1 ..= end` is met again and readied again.
  */
  function LegacyPass(st: LegacyScan, i: nat, end: nat, level: nat, someReady: bool): (r: Option<(LegacyScan, bool)>)
    requires ScanOk(st) && end < |st.scan| && i <= end + 1
    ensures r.Some? ==> ScanOk(r.value.0) && |r.value.0.scan| == |st.scan| && r.value.0.last <= st.last
    ensures r.Some? ==> (r.value.1 <==> someReady || r.value.0.last < st.last)
    decreases end + 1 - i
  {
    if i > end then Some((st, someReady))
    else
      var x := st.scan[i];
      if AllReady(st.infos[x].dependencies, st.ready) then
        if st.last == 0 then None
        else
          var infos := st.infos[x := st.infos[x].(level := level)];
          LegacyPass(LegacyScan(Swap(st.scan, i, st.last), st.ready + {st.infos[x].id}, infos, st.last - 1), i + 1, end, level, true)
      else
        LegacyPass(st, i + 1, end, level, someReady)
  }

  /**
    `while last >= 0`, which is always true of a `usize`: a pass that readies nothing returns
    `LoopDependency`; otherwise the next pass starts one level up. `last` shrinks with every
    pass that goes on, so the loop ends, and only by one of those two exits.
  */
  function LegacyLeveling(st: LegacyScan, level: nat): Outcome<seq<BeanSpec>>
    requires ScanOk(st)
    decreases st.last
  {
    match LegacyPass(st, 0, st.last, level, false)
    case None => Panic
    case Some((next, someReady)) =>
      if !someReady then Err(LoopDependency) else LegacyLeveling(next, level + 1)
  }

  /** The loop's start: `scan_ids = [0, n)`, nothing ready, levels `usize::MAX`, `last = n - 1`. */
  function LegacyInitial(deps: seq<seq<nat>>): (st: LegacyScan)
    requires |deps| > 0
    ensures ScanOk(st)
  {
    LegacyScan(
      seq(|deps|, i => i),
      {},
      seq(|deps|, i requires 0 <= i < |deps| => BeanSpec(i, deps[i], USIZE_MAX)),
      |deps| - 1)
  }

  /** `scan_ids.len() - 1` panics on an empty list; otherwise the loop runs. */
  function LegacyLevels(deps: seq<seq<nat>>): Outcome<seq<BeanSpec>>
  {
    if |deps| == 0 then Panic else LegacyLeveling(LegacyInitial(deps), 0)
  }

  /** The leveling loop as written never finishes normally: it panics or reports a loop. */
  lemma {:induction false} LegacyLevelingNeverOk(st: LegacyScan, level: nat)
    requires ScanOk(st)
    ensures LegacyLeveling(st, level) == Panic || LegacyLeveling(st, level) == Err(LoopDependency)
    decreases st.last
  {
    match LegacyPass(st, 0, st.last, level, false)
    case None =>
    case Some((next, someReady)) =>
      if someReady {
        LegacyLevelingNeverOk(next, level + 1);
      }
  }

  /** The whole leveling step, empty list included, panics or reports a loop. */
  lemma LegacyLevelsNeverOk(deps: seq<seq<nat>>)
    ensures LegacyLevels(deps) == Panic || LegacyLevels(deps) == Err(LoopDependency)
  {
    if |deps| > 0 {
      LegacyLevelingNeverOk(LegacyInitial(deps), 0);
    }
  }

  // ---------------------------------------------------------------------------------------
  // The planner as written

  /**
    `ContainerInfo::new`: registration, resolution and leveling, each returning its first
    error; were leveling to finish, the infos would be sorted by level.
  */
  function NewInfo(defs: seq<LegacyDefinition>): Outcome<ContainerInfo>
    requires ValidLayouts(defs)
  {
    match Register(defs)
    case Panic => Panic
    case Err(e) => Err(e)
    case Ok(reg) =>
      match ResolveAll(reg.typeMap, defs)
      case Failure(e) => Err(e)
      case Success(deps) =>
        match LegacyLevels(deps)
        case Panic => Panic
        case Err(e) => Err(e)
        case Ok(infos) =>
          Ok(ContainerInfo(defs, reg.offsets, reg.layout, reg.typeMap, reg.nameMap, SortByLevel(infos)))
  }

  /**
    `ContainerInfo::new` never returns a container: it panics (a layout overflow, or the
    leveling loop), or returns the first registration error, the first resolution error, or
    `LoopDependency`.
  */
  lemma NewInfoNeverOk(defs: seq<LegacyDefinition>)
    requires ValidLayouts(defs)
    ensures !NewInfo(defs).Ok?
    ensures NewInfo(defs).Err? ==>
      (Register(defs).Err? && NewInfo(defs) == Err(Register(defs).error))
      || (Register(defs).Ok? && ResolveAll(Register(defs).value.typeMap, defs).Failure? &&
          NewInfo(defs) == Err(ResolveAll(Register(defs).value.typeMap, defs).error))
      || NewInfo(defs) == Err(LoopDependency)
  {
    if Register(defs).Ok? && ResolveAll(Register(defs).value.typeMap, defs).Success? {
      LegacyLevelsNeverOk(ResolveAll(Register(defs).value.typeMap, defs).value);
    }
  }

  /** The first loop of `ContainerInfo::new`'s second half: resolve, then record an unleveled info per bean. */
  method ResolveDefinitions(typeMap: TypeBeanIdMap, defs: seq<LegacyDefinition>)
    returns (err: Option<ContainerError>, infos: seq<BeanSpec>, scanIds: seq<nat>, ghost deps: seq<seq<nat>>)
    ensures err.Some? <==> ResolveAll(typeMap, defs).Failure?
    ensures err.Some? ==> ResolveAll(typeMap, defs) == Failure(err.value)
    ensures err.None? ==> ResolveAll(typeMap, defs) == Success(deps) && |deps| == |defs|
    ensures err.None? && |defs| > 0 ==> LegacyScan(scanIds, {}, infos, |defs| - 1) == LegacyInitial(deps)
    ensures err.None? ==> |scanIds| == |infos| == |defs| && forall i :: 0 <= i < |scanIds| ==> scanIds[i] < |infos|
  {
    infos, scanIds, deps := [], [], [];
    for idx := 0 to |defs|
      invariant |deps| == idx
      invariant ResolveAllFrom(typeMap, defs, idx, deps) == ResolveAll(typeMap, defs)
      invariant scanIds == seq(idx, i => i)
      invariant infos == seq(idx, i requires 0 <= i < idx => BeanSpec(i, deps[i], USIZE_MAX))
    {
      var d := defs[idx];
      var dependencies: seq<nat> := [];
      for k := 0 to |d.dependencies|
        invariant ResolveFrom(typeMap, d, k, dependencies) == ResolveDeps(typeMap, d)
      {
        var id := ResolveDependency(typeMap, d, d.dependencies[k]);
        if id.Failure? {
          err := Some(id.error);
          return;
        }
        dependencies := dependencies + [id.value];
      }
      scanIds := scanIds + [idx];
      infos := infos + [BeanSpec(idx, dependencies, USIZE_MAX)];
      deps := deps + [dependencies];
    }
    err := None;
  }

  /** The inner `for id in info.dependencies` loop with its `break`. */
  method CheckReady(dependencies: seq<nat>, readyIds: set<nat>) returns (ready: bool)
    ensures ready == AllReady(dependencies, readyIds)
  {
    ready := true;
    for j := 0 to |dependencies|
      invariant forall k :: 0 <= k < j ==> dependencies[k] in readyIds
    {
      if dependencies[j] !in readyIds {
        ready := false;
        break;
      }
    }
  }

  /**
    One pass `for i in 0..=last` over the state `st`, in place; `panicked` when `last -= 1`
    goes below zero.
  */
  method RunPass(st: LegacyScan, level: nat) returns (panicked: bool, next: LegacyScan, someReady: bool)
    requires ScanOk(st)
    ensures panicked <==> LegacyPass(st, 0, st.last, level, false).None?
    ensures !panicked ==> LegacyPass(st, 0, st.last, level, false) == Some((next, someReady))
  {
    var scanIds, readyIds, infos, last := st.scan, st.ready, st.infos, st.last;
    someReady := false;
    var end := last;
    for i := 0 to end + 1
      invariant ScanOk(LegacyScan(scanIds, readyIds, infos, last)) && |scanIds| == |st.scan|
      invariant LegacyPass(LegacyScan(scanIds, readyIds, infos, last), i, end, level, someReady) ==
        LegacyPass(st, 0, end, level, false)
    {
      var x := scanIds[i];
      var info := infos[x];
      var ready := CheckReady(info.dependencies, readyIds);
      if ready {
        someReady := true;
        infos := infos[x := info.(level := level)];
        readyIds := readyIds + {info.id};
        scanIds := Swap(scanIds, i, last);
        if last == 0 {
          return true, st, someReady;
        }
        last := last - 1;
      }
    }
    return false, LegacyScan(scanIds, readyIds, infos, last), someReady;
  }

  /**
    The leveling loops as written: `last = scan_ids.len() - 1`, then `while last >= 0` passes
    of `for i in 0..=last`, readying, swapping and decrementing `last` in place.
  */
  method LevelBeans(scanIds: seq<nat>, infos: seq<BeanSpec>) returns (r: Outcome<seq<BeanSpec>>)
    requires |scanIds| == |infos| && forall i :: 0 <= i < |scanIds| ==> scanIds[i] < |infos|
    ensures |scanIds| == 0 ==> r == Panic
    ensures |scanIds| > 0 ==> r == LegacyLeveling(LegacyScan(scanIds, {}, infos, |scanIds| - 1), 0)
  {
    if |scanIds| == 0 {
      return Panic;
    }
    var st := LegacyScan(scanIds, {}, infos, |scanIds| - 1);
    var level: nat := 0;
    ghost var start := st;
    while true
      invariant ScanOk(st)
      invariant LegacyLeveling(st, level) == LegacyLeveling(start, 0)
      decreases st.last
    {
      var panicked, next, someReady := RunPass(st, level);
      if panicked {
        return Panic;
      }
      if !someReady {
        return Err(LoopDependency);
      }
      st, level := next, level + 1;
    }
  }

  /** `ContainerInfo::new` (in `container.rs`, and again in `container2.rs`). */
  method NewContainerInfo(defs: seq<LegacyDefinition>) returns (r: Outcome<ContainerInfo>)
    requires ValidLayouts(defs)
    ensures r == NewInfo(defs)
  {
    var registered := RegisterDefinitions(defs);
    if !registered.Ok? {
      return if registered.Panic? then Panic else Err(registered.error);
    }
    var reg := registered.value;
    var err, infos, scanIds, deps := ResolveDefinitions(reg.typeMap, defs);
    if err.Some? {
      return Err(err.value);
    }
    var leveled := LevelBeans(scanIds, infos);
    match leveled
    case Panic => r := Panic;
    case Err(e) => r := Err(e);
    case Ok(beanInfos) =>
      r := Ok(ContainerInfo(defs, reg.offsets, reg.layout, reg.typeMap, reg.nameMap, SortByLevel(beanInfos)));
  }

  // ---------------------------------------------------------------------------------------
  // The planner with the leveling loop of `spec.rs`

  /**
    `ContainerInfo::new` with its leveling loop replaced by the one `spec.rs` uses
    (`while tail > 0`, `SpecLeveling.Levels`); registration and resolution are unchanged.
  */
  function PlanInfo(defs: seq<LegacyDefinition>): Outcome<ContainerInfo>
    requires ValidLayouts(defs)
  {
    match Register(defs)
    case Panic => Panic
    case Err(e) => Err(e)
    case Ok(reg) =>
      match ResolveAll(reg.typeMap, defs)
      case Failure(e) => Err(e)
      case Success(deps) =>
        match Levels(deps)
        case Failure(e) => Err(e)
        case Success(infos) =>
          Ok(ContainerInfo(defs, reg.offsets, reg.layout, reg.typeMap, reg.nameMap, SortByLevel(infos)))
  }

  /**
    A planned container: its slots and indexes are those of its definitions, every dependency
    resolved, every bean leveled no lower than its dependencies, and the infos a permutation of
    the leveled beans sorted by level with ties in id order.
  */
  ghost predicate PlannedInfo(info: ContainerInfo)
  {
    var defs := info.beanDefinitions;
    && ValidLayouts(defs)
    && Registered(defs, Registry(info.dataLayout, info.beanOffsets, info.typeBeanIdMap, info.nameBeanIdMap))
    && ResolveAll(info.typeBeanIdMap, defs).Success?
    && var deps := ResolveAll(info.typeBeanIdMap, defs).value;
    && ResolvedAll(info.typeBeanIdMap, defs, deps)
    && Levels(deps).Success?
    && LeveledSpecs(deps, Levels(deps).value)
    && multiset(info.beanInfos) == multiset(Levels(deps).value)
    && SortedByLevel(info.beanInfos)
    && TiesInIdOrder(info.beanInfos)
  }

  /**
    The corrected planner returns a container exactly when every slot fits, the names are
    unique, every dependency resolves and the resolved dependencies have no cycle; the container
    is then planned; and it reports `LoopDependency` exactly when there is a cycle.
  */
  lemma PlanInfoOutcome(defs: seq<LegacyDefinition>)
    requires ValidLayouts(defs)
    ensures PlanInfo(defs).Ok? <==>
      && Pack(LayoutsOf(defs)).Some? && UniqueNames(defs)
      && ResolveAll(TypeMapOf(defs), defs).Success?
      && !HasCycle(ResolveAll(TypeMapOf(defs), defs).value)
    ensures PlanInfo(defs).Ok? ==> PlannedInfo(PlanInfo(defs).value) && PlanInfo(defs).value.beanDefinitions == defs
    ensures PlanInfo(defs) == Err(LoopDependency) <==>
      && Register(defs).Ok?
      && ResolveAll(TypeMapOf(defs), defs).Success?
      && HasCycle(ResolveAll(TypeMapOf(defs), defs).value)
  {
    RegisterSpec(defs);
    if Register(defs).Ok? {
      var reg := Register(defs).value;
      ResolveAllSpec(defs, reg.nameMap);
      if ResolveAll(reg.typeMap, defs).Success? {
        var deps := ResolveAll(reg.typeMap, defs).value;
        LevelsFailIffCycle(deps);
        if Levels(deps).Success? {
          var infos := Levels(deps).value;
          LevelsSound(deps);
          assert IdsIncreasing(infos);
          SortByLevelStable(infos);
        }
      } else {
        ResolveAllNeverLoops(reg.typeMap, defs);
      }
    }
  }

  /** Resolution fails only with a lookup error, never with `LoopDependency`. */
  lemma ResolveAllNeverLoops(typeMap: TypeBeanIdMap, defs: seq<LegacyDefinition>)
    ensures ResolveAll(typeMap, defs).Failure? ==>
      ResolveAll(typeMap, defs).error.NoBean? || ResolveAll(typeMap, defs).error.NoNamedBean? ||
      ResolveAll(typeMap, defs).error.TooManyCandinatedBean?
  {
    ResolveAllFromSpec(typeMap, defs, 0, []);
    if ResolveAll(typeMap, defs).Failure? {
      var e := ResolveAll(typeMap, defs).error;
      var i :| 0 <= i < |defs| && ResolveDeps(typeMap, defs[i]) == Failure(e);
      ResolveDepsSpec(typeMap, defs[i]);
    }
  }

  // ---------------------------------------------------------------------------------------
  // The definitions of the test `it_works`

  /**
    `A` (one `usize`, unnamed), `B` (a `Vec<u8>`, named "haha_b") and `C` (a `u8`, a `u16`
    and two `Ref`s; 56 bytes on a 64-bit target), where `C` depends on the one `A` and on the
    `B` named "haha_b". A bean's default name is its type name (`A`, `C`; the module path of
    the type name is left off here).
  */
  function ItWorksDefinitions(): seq<LegacyDefinition>
  {
    [ BeanDefinition("A", 1, "A", Layout(8, 8), []),
      BeanDefinition("haha_b", 2, "B", Layout(24, 8), []),
      BeanDefinition("C", 3, "C", Layout(56, 8),
        [Dependency(1, None), Dependency(2, Some("haha_b"))]) ]
  }

  /** `Layout::extend` at a running size the next alignment already divides, far below the limits. */
  lemma ExtendAligned(self: Layout, next: Layout)
    requires self.Valid() && next.Valid() && self.size % next.align == 0
    requires self.size + next.size + self.align + next.align <= 0x1_0000
    ensures Extend(self, next) == Some(Extended(Layout(self.size + next.size, Max(self.align, next.align)), self.size))
  {
  }

  /** The packing of the test's layouts: offsets 0, 8 and 32, in an 88-byte block aligned to 8. */
  lemma ItWorksPacks()
    ensures ValidLayouts(ItWorksDefinitions()) && AllValid(LayoutsOf(ItWorksDefinitions()))
    ensures Pack(LayoutsOf(ItWorksDefinitions())) == Some(Packing(Layout(88, 8), [0, 8, 32]))
  {
    var ls := LayoutsOf(ItWorksDefinitions());
    StartValid();
    assert ls == [Layout(8, 8), Layout(24, 8), Layout(56, 8)];
    assert ls[..0] == [] && ls[..1][..0] == [] && ls[..2][..1] == ls[..1] && ls[..3] == ls;
    var none: seq<nat> := [];
    assert none + [0] == [0] && [0] + [8] == [0, 8] && [0, 8] + [32] == [0, 8, 32];
    ExtendAligned(Start, Layout(8, 8));
    assert Pack(ls[..1]) == Some(Packing(Layout(8, 8), [0]));
    ExtendAligned(Layout(8, 8), Layout(24, 8));
    assert Pack(ls[..2]) == Some(Packing(Layout(32, 8), [0, 8]));
    ExtendAligned(Layout(32, 8), Layout(56, 8));
  }

  /** `C`'s dependencies over the test's type index: the one `A` is bean 0, the `B` named "haha_b" bean 1. */
  lemma ItWorksDependencies()
    ensures var defs := ItWorksDefinitions();
      && ResolveDependency(TypeMapOf(defs), defs[2], defs[2].dependencies[0]) == Success(0)
      && ResolveDependency(TypeMapOf(defs), defs[2], defs[2].dependencies[1]) == Success(1)
  {
    var defs := ItWorksDefinitions();
    var c := defs[2];
    assert UniqueNames(defs);
    assert forall j :: ContainerSpecs.OfType(defs, j, 1) ==> j == 0;
    ResolveDependencySpec(defs, NameMapOf(defs), c, c.dependencies[0], 0);
    assert ContainerSpecs.OfType(defs, 1, 2);
    ResolveDependencySpec(defs, NameMapOf(defs), c, c.dependencies[1], 1);
  }

  /** Resolution of the test's definitions over their type index. */
  lemma ItWorksResolves()
    ensures ResolveAll(TypeMapOf(ItWorksDefinitions()), ItWorksDefinitions()) == Success([[], [], [0, 1]])
  {
    var defs := ItWorksDefinitions();
    var typeMap := TypeMapOf(defs);
    var c := defs[2];
    ItWorksDependencies();
    var none: seq<nat> := [];
    var noLists: seq<seq<nat>> := [];
    assert none + [0] == [0] && [0] + [1] == [0, 1];
    assert ResolveFrom(typeMap, c, 1, [0]) == Success([0, 1]);
    assert ResolveDeps(typeMap, c) == Success([0, 1]);
    assert ResolveDeps(typeMap, defs[0]) == Success([]) && ResolveDeps(typeMap, defs[1]) == Success([]);
    assert noLists + [none] == [none] && [none] + [none] == [none, none] && [none, none] + [[0, 1]] == [[], [], [0, 1]];
    assert ResolveAllFrom(typeMap, defs, 2, [[], []]) == Success([[], [], [0, 1]]);
    assert ResolveAllFrom(typeMap, defs, 1, [[]]) == Success([[], [], [0, 1]]);
  }

  /** The registration of the test's definitions: slots 0..8, 8..32 and 32..88 of an 88-byte block. */
  lemma ItWorksRegisters()
    ensures ValidLayouts(ItWorksDefinitions())
    ensures Register(ItWorksDefinitions()).Ok?
    ensures Register(ItWorksDefinitions()).value.layout == Layout(88, 8)
    ensures Register(ItWorksDefinitions()).value.offsets == [Range(0, 8), Range(8, 32), Range(32, 88)]
    ensures ResolveAll(Register(ItWorksDefinitions()).value.typeMap, ItWorksDefinitions()) == Success([[], [], [0, 1]])
  {
    ItWorksRegistersAt(ItWorksDefinitions());
  }

  /** `ItWorksRegisters` for a list equal to the test's definitions. */
  lemma ItWorksRegistersAt(defs: seq<LegacyDefinition>)
    requires defs == ItWorksDefinitions()
    ensures ValidLayouts(defs)
    ensures Register(defs).Ok?
    ensures Register(defs).value.layout == Layout(88, 8)
    ensures Register(defs).value.offsets == [Range(0, 8), Range(8, 32), Range(32, 88)]
    ensures ResolveAll(Register(defs).value.typeMap, defs) == Success([[], [], [0, 1]])
  {
    ItWorksPacks();
    ItWorksNamesUnique();
    RegisterPacked(defs);
    var reg := Register(defs).value;
    assert PackedSlots(defs, reg.layout, reg.offsets);
    assert |reg.offsets| == 3;
    assert reg.offsets[0] == Range(0, 8) && reg.offsets[1] == Range(8, 32) && reg.offsets[2] == Range(32, 88);
    ThreeElements(reg.offsets, Range(0, 8), Range(8, 32), Range(32, 88));
    assert reg.typeMap == TypeMapOf(defs);
    ItWorksResolves();
  }

  /** A sequence of three elements is the display of those elements. */
  lemma ThreeElements<T>(s: seq<T>, a: T, b: T, c: T)
    requires |s| == 3 && s[0] == a && s[1] == b && s[2] == c
    ensures s == [a, b, c]
  {
  }

  /** Registration of slots that pack, under distinct names, succeeds with the exact registry. */
  lemma RegisterPacked(defs: seq<LegacyDefinition>)
    requires ValidLayouts(defs) && UniqueNames(defs)
    requires AllValid(LayoutsOf(defs)) && Pack(LayoutsOf(defs)).Some?
    ensures Register(defs).Ok? && Registered(defs, Register(defs).value)
  {
    RegisterSpec(defs);
  }

  /** The test's three bean names are distinct. */
  lemma ItWorksNamesUnique()
    ensures UniqueNames(ItWorksDefinitions())
  {
    var defs := ItWorksDefinitions();
    assert defs[0].name == "A" && defs[1].name == "haha_b" && defs[2].name == "C";
    assert "A"[0] != "haha_b"[0] && "A"[0] != "C"[0] && "haha_b"[0] != "C"[0];
  }

  /** The scan both leveling loops start from on the test's resolved dependencies. */
  lemma ItWorksInitial()
    ensures var unleveled := [BeanSpec(0, [], USIZE_MAX), BeanSpec(1, [], USIZE_MAX), BeanSpec(2, [0, 1], USIZE_MAX)];
      && LegacyInitial([[], [], [0, 1]]) == LegacyScan([0, 1, 2], {}, unleveled, 2)
      && InitialState([[], [], [0, 1]]) == ScanState([0, 1, 2], {}, unleveled, 3)
  {
    var deps: seq<seq<nat>> := [[], [], [0, 1]];
    var scan: seq<nat> := seq(|deps|, i => i);
    assert |scan| == 3 && scan[0] == 0 && scan[1] == 1 && scan[2] == 2;
    assert scan == [0, 1, 2];
    var infos := seq(|deps|, i requires 0 <= i < |deps| => BeanSpec(i, deps[i], USIZE_MAX));
    assert |infos| == 3 && infos[0] == BeanSpec(0, [], USIZE_MAX) && infos[1] == BeanSpec(1, [], USIZE_MAX);
    assert infos[2] == BeanSpec(2, [0, 1], USIZE_MAX);
    assert infos == [BeanSpec(0, [], USIZE_MAX), BeanSpec(1, [], USIZE_MAX), BeanSpec(2, [0, 1], USIZE_MAX)];
  }

  /**
    The leveling loop as written on the test's resolved dependencies: `A` is readied and
    swapped to the end, `B` is readied, `last` is then 0, and the range `0..=2` fixed at the
    start of the pass meets `A` again, readies it again and subtracts 1 from `last == 0`.
  */
  lemma ItWorksLegacyLevels()
    ensures LegacyLevels([[], [], [0, 1]]) == Panic
  {
    var deps: seq<seq<nat>> := [[], [], [0, 1]];
    var unleveled := [BeanSpec(0, [], USIZE_MAX), BeanSpec(1, [], USIZE_MAX), BeanSpec(2, [0, 1], USIZE_MAX)];
    var st0 := LegacyScan([0, 1, 2], {}, unleveled, 2);
    ItWorksInitial();
    var infos1 := unleveled[0 := BeanSpec(0, [], 0)];
    var st1 := LegacyScan([2, 1, 0], {0}, infos1, 1);
    var st2 := LegacyScan([2, 1, 0], {0, 1}, infos1[1 := BeanSpec(1, [], 0)], 0);
    assert LegacyPass(st2, 2, 2, 0, true) == None;
    assert Swap([2, 1, 0], 1, 1) == [2, 1, 0];
    assert LegacyPass(st1, 1, 2, 0, true) == None;
    assert Swap([0, 1, 2], 0, 2) == [2, 1, 0];
    assert LegacyPass(st0, 0, 2, 0, false) == None;
  }

  /**
    The test's definitions make `ContainerInfo::new` panic in the first leveling pass, so the
    `expect("haha")` of the test `it_works` is never reached.
  */
  lemma ItWorksPanics()
    ensures ValidLayouts(ItWorksDefinitions())
    ensures NewInfo(ItWorksDefinitions()) == Panic
  {
    ItWorksRegisters();
    ItWorksLegacyLevels();
  }

  /** The leveling loop of `spec.rs` on the test's resolved dependencies. */
  lemma ItWorksLevels()
    ensures Levels([[], [], [0, 1]]) == Success([BeanSpec(0, [], 0), BeanSpec(1, [], 0), BeanSpec(2, [0, 1], 1)])
  {
    var deps: seq<seq<nat>> := [[], [], [0, 1]];
    var specs := [BeanSpec(0, [], 0), BeanSpec(1, [], 0), BeanSpec(2, [0, 1], 1)];
    var unleveled := [BeanSpec(0, [], USIZE_MAX), BeanSpec(1, [], USIZE_MAX), BeanSpec(2, [0, 1], USIZE_MAX)];
    var st0 := ScanState([0, 1, 2], {}, unleveled, 3);
    ItWorksInitial();
    var infos1 := unleveled[0 := BeanSpec(0, [], 0)];
    var st1 := ScanState([2, 1, 0], {0}, infos1, 2);
    assert Swap([0, 1, 2], 0, 2) == [2, 1, 0];
    assert ReadyAt(st0, 0, 0) == st1;
    var st2 := ScanState([2, 1, 0], {0, 1}, infos1[1 := BeanSpec(1, [], 0)], 1);
    assert Swap([2, 1, 0], 1, 1) == [2, 1, 0];
    assert ReadyAt(st1, 1, 0) == st2;
    assert Pass(st1, 1, 0, true) == (st2, true);
    assert !AllReady([0, 1], {0});
    assert Pass(st0, 0, 0, false) == (st2, true);
    assert Swap([2, 1, 0], 0, 0) == [2, 1, 0];
    assert AllReady([0, 1], {0, 1});
    assert ReadyAt(st2, 0, 1).specs == specs;
    assert Pass(st2, 0, 1, false).0.specs == specs && Pass(st2, 0, 1, false).0.tail == 0;
    assert Leveling(st2, 1) == Success(specs);
  }

  /** The stable sort keeps the leveled test beans in their order. */
  lemma ItWorksSorted()
    ensures SortByLevel([BeanSpec(0, [], 0), BeanSpec(1, [], 0), BeanSpec(2, [0, 1], 1)]) ==
      [BeanSpec(0, [], 0), BeanSpec(1, [], 0), BeanSpec(2, [0, 1], 1)]
  {
    var specs := [BeanSpec(0, [], 0), BeanSpec(1, [], 0), BeanSpec(2, [0, 1], 1)];
    assert specs[..1][..0] == [];
    assert SortByLevel(specs[..1]) == specs[..1];
    assert specs[..2][..1] == specs[..1];
    assert SortByLevel(specs[..2]) == specs[..2];
    assert specs[..2] == specs[..|specs| - 1];
  }

  /**
    The corrected planner plans the test's definitions: `A` and `B` at level 0, `C` at level 1,
    built in the order `A`, `B`, `C`.
  */
  lemma ItWorksPlans()
    ensures ValidLayouts(ItWorksDefinitions())
    ensures PlanInfo(ItWorksDefinitions()).Ok?
    ensures PlanInfo(ItWorksDefinitions()).value.beanInfos ==
      [BeanSpec(0, [], 0), BeanSpec(1, [], 0), BeanSpec(2, [0, 1], 1)]
  {
    ItWorksRegisters();
    ItWorksLevels();
    ItWorksSorted();
  }
}
