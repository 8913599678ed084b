/**
  The lookups the older container offers once its `ContainerInfo` is built (`find`,
  `find_by_name`, `offset_between`) and the self-relative `Ref` type: `Ref::init` records the
  signed distance between two slots, `deref` adds it to the `Ref`'s own address. Addresses are
  64-bit `usize` values and the distances `isize` values, both with wrap-around written out.
*/
module LegacyLookups {
  import opened Wrappers
  import opened Layouts
  import opened BeanTypes
  import opened BeanIndexes
  import opened SpecLeveling
  import opened LegacyPlanner
  import ContainerSpecs

  /** 2^64, the number of `usize` values. */
  const WORD: nat := 0x1_0000_0000_0000_0000

  /** A `ContainerInfo` whose slots and indexes are exactly those of its definitions. */
  ghost predicate Consistent(info: ContainerInfo)
  {
    && ValidLayouts(info.beanDefinitions)
    && Registered(info.beanDefinitions,
         Registry(info.dataLayout, info.beanOffsets, info.typeBeanIdMap, info.nameBeanIdMap))
  }

  // ---------------------------------------------------------------------------------------
  // find and find_by_name

  /**
    `find::<T>`: the inner map of type `t`; more than one entry is `TooManyCandinatedBean` with
    the names as candidates, one entry is its id, and an empty map makes the `expect` panic;
    an absent type is `NoBean`.
  */
  function FindBean(info: ContainerInfo, t: TypeId, tn: Name): Outcome<nat>
  {
    if t in info.typeBeanIdMap then
      var m := info.typeBeanIdMap[t];
      if |m| > 1 then Err(TooManyCandinatedBean(tn, m.Keys))
      else if |m| == 0 then Panic
      else Ok(OnlyValue(m))
    else Err(NoBean(tn))
  }

  /**
    On a consistent container `find` never panics and answers exactly as the unnamed query of
    the planner's resolution: the one bean of the type, `NoBean` when there is none, and
    `TooManyCandinatedBean` with the names of that type when there are two.
  */
  lemma FindBeanSpec(info: ContainerInfo, t: TypeId, tn: Name, id: nat)
    requires Consistent(info)
    ensures FindBean(info, t, tn) != Panic
    ensures FindBean(info, t, tn) == Ok(id) <==>
      ContainerSpecs.Find(info.typeBeanIdMap, OnlyType(t, tn)) == Success(id)
    ensures FindBean(info, t, tn) == Ok(id) <==>
      ContainerSpecs.OfType(info.beanDefinitions, id, t) &&
      forall j :: ContainerSpecs.OfType(info.beanDefinitions, j, t) ==> j == id
    ensures FindBean(info, t, tn) == Err(NoBean(tn)) <==>
      forall j :: !ContainerSpecs.OfType(info.beanDefinitions, j, t)
    ensures FindBean(info, t, tn) == Err(TooManyCandinatedBean(tn, ContainerSpecs.NamesOfType(info.beanDefinitions, t))) <==>
      exists i, j :: ContainerSpecs.OfType(info.beanDefinitions, i, t) &&
        ContainerSpecs.OfType(info.beanDefinitions, j, t) && i != j
  {
    var defs := info.beanDefinitions;
    if t in info.typeBeanIdMap {
      TypeMapOfNonEmpty(defs, t);
    }
    ContainerSpecs.FindOnlyType(defs, t, tn, id);
  }

  /**
    `find_by_name::<T>(name)`: the id the name index holds for `name` when that bean's type is
    `t` (indexing the definitions with an id out of range panics); otherwise
    `NoBeanWithName`, whether the name is absent or belongs to another type.
  */
  function FindBeanByName(info: ContainerInfo, name: Name, t: TypeId, tn: Name): Outcome<nat>
  {
    if name in info.nameBeanIdMap then
      var id := info.nameBeanIdMap[name];
      if id >= |info.beanDefinitions| then Panic
      else if info.beanDefinitions[id].typeId == t then Ok(id)
      else Err(NoBeanWithName(tn, name))
    else Err(NoBeanWithName(tn, name))
  }

  /**
    On a consistent container `find_by_name` never panics; it returns `id` exactly when bean
    `id` has that name and type, as the named query of the planner's resolution does, and
    every failure is `NoBeanWithName`, which it reports exactly when no bean has both.
  */
  lemma FindBeanByNameSpec(info: ContainerInfo, name: Name, t: TypeId, tn: Name, id: nat)
    requires Consistent(info)
    ensures FindBeanByName(info, name, t, tn) != Panic
    ensures FindBeanByName(info, name, t, tn) == Ok(id) <==>
      ContainerSpecs.OfType(info.beanDefinitions, id, t) && info.beanDefinitions[id].name == name
    ensures FindBeanByName(info, name, t, tn) == Ok(id) <==>
      ContainerSpecs.Find(info.typeBeanIdMap, NameAndType(name, t, tn)) == Success(id)
    ensures FindBeanByName(info, name, t, tn).Err? ==>
      FindBeanByName(info, name, t, tn).error == NoBeanWithName(tn, name)
    ensures FindBeanByName(info, name, t, tn).Err? <==>
      forall j :: !(ContainerSpecs.OfType(info.beanDefinitions, j, t) && info.beanDefinitions[j].name == name)
  {
    var defs := info.beanDefinitions;
    NameMapOfSpec(defs);
    ContainerSpecs.FindNameAndType(defs, name, t, tn, id);
  }

  // ---------------------------------------------------------------------------------------
  // offset_between

  /** `usize as isize`: the value modulo 2^64, read in two's complement. */
  function ToIsize(x: int): (r: int)
    ensures -(ISIZE_MAX + 1) <= r <= ISIZE_MAX
    ensures 0 <= x <= ISIZE_MAX ==> r == x
    ensures -(ISIZE_MAX + 1) <= x < 0 ==> r == x
  {
    var m := x % WORD;
    if m > ISIZE_MAX then m - WORD else m
  }

  /** `usize::wrapping_add_signed`: the sum modulo 2^64. */
  function WrapAddSigned(a: nat, d: int): (r: nat)
    ensures r < WORD
    ensures 0 <= a + d < WORD ==> r == a + d
  {
    (a + d) % WORD
  }

  /**
    `offset_between(from, to)`: the start of slot `to` minus the start of slot `from`, as a
    wrapping `usize` subtraction read as `isize`; an id out of range panics on the index.
  */
  function OffsetBetween(info: ContainerInfo, from: nat, to: nat): Outcome<int>
  {
    if from >= |info.beanOffsets| || to >= |info.beanOffsets| then Panic
    else Ok(ToIsize(info.beanOffsets[to].start - info.beanOffsets[from].start))
  }

  /** Every slot of a consistent container starts and ends inside its layout, at most `isize::MAX`. */
  lemma SlotsFit(info: ContainerInfo, i: nat)
    requires Consistent(info) && i < |info.beanOffsets|
    ensures info.beanOffsets[i].start <= info.beanOffsets[i].end <= info.dataLayout.size <= ISIZE_MAX
  {
    var defs := info.beanDefinitions;
    PackIsPacked(LayoutsOf(defs));
    assert LayoutsOf(defs)[i] == defs[i].layout;
  }

  /**
    On a consistent container `offset_between` is the exact signed distance between the two
    slot starts: zero from a slot to itself, and negated when the two ids are swapped.
  */
  lemma OffsetBetweenSpec(info: ContainerInfo, from: nat, to: nat)
    requires Consistent(info) && from < |info.beanOffsets| && to < |info.beanOffsets|
    ensures OffsetBetween(info, from, to) == Ok(info.beanOffsets[to].start - info.beanOffsets[from].start)
    ensures from == to ==> OffsetBetween(info, from, to) == Ok(0)
    ensures OffsetBetween(info, to, from) == Ok(-OffsetBetween(info, from, to).value)
  {
    SlotsFit(info, from);
    SlotsFit(info, to);
  }

  // ---------------------------------------------------------------------------------------
  // Ref

  /** `Ref<T>`: the distance to add for the parent, the distance to add for the field, its own address. */
  datatype Ref = Ref(parentOffset: int, innerOffset: int, selfPtr: nat)

  /**
    `Ref::<T>::init::<S>(ptr, inner_offset, info)`, for a `Ref<T>` stored at `ptr` inside a
    bean of type `S`: find `T`, then `S` (either error is returned), and record
    `offset_between(id of T, id of S)` as the parent offset.
  */
  function RefInit(info: ContainerInfo, ptr: nat, innerOffset: int, t: TypeId, tn: Name, s: TypeId, sn: Name): Outcome<Ref>
  {
    match FindBean(info, t, tn)
    case Panic => Panic
    case Err(e) => Err(e)
    case Ok(from) =>
      match FindBean(info, s, sn)
      case Panic => Panic
      case Err(e) => Err(e)
      case Ok(to) =>
        match OffsetBetween(info, from, to)
        case Ok(p) => Ok(Ref(p, innerOffset, ptr))
        case _ => Panic
  }

  /**
    `deref` called on the `Ref` found at address `addr`: the `assert_eq!` panics unless `addr` is
    the recorded address; the target is `addr + inner_offset + parent_offset` with wrapping
    adds, and `as_ref().unwrap()` panics on the null address.
  */
  function Deref(r: Ref, addr: nat): (target: Outcome<nat>)
    ensures target.Ok? ==> addr == r.selfPtr && 0 < target.value < WORD
  {
    if addr != r.selfPtr then Panic
    else
      var a := WrapAddSigned(WrapAddSigned(addr, r.innerOffset), r.parentOffset);
      if a == 0 then Panic else Ok(a)
  }

  /** `deref` on its own address when adding the field distance does not wrap. */
  lemma DerefWithoutInnerWrap(r: Ref, mid: nat)
    requires mid == r.selfPtr + r.innerOffset && mid < WORD
    ensures var a := WrapAddSigned(mid, r.parentOffset);
      Deref(r, r.selfPtr) == if a == 0 then Panic else Ok(a)
  {
  }

  /**
    As written: for a `Ref<T>` stored `f` bytes into the slot of the one bean of type `S`, in a
    container whose buffer starts at `base`, with `inner_offset = -f` as the test passes it,
    `deref` lands at `base + 2 * start(S) - start(T)` and not at `base + start(T)`.
  */
  lemma RefInitAsWritten(info: ContainerInfo, base: nat, f: nat, t: TypeId, tn: Name, s: TypeId, sn: Name, from: nat, to: nat)
    requires Consistent(info)
    requires FindBean(info, t, tn) == Ok(from) && FindBean(info, s, sn) == Ok(to)
    requires from < |info.beanDefinitions| && to < |info.beanDefinitions|
    requires base + info.dataLayout.size <= USIZE_MAX && f <= info.beanDefinitions[to].layout.size
    ensures var ptr := base + info.beanOffsets[to].start + f;
      && RefInit(info, ptr, -(f as int), t, tn, s, sn).Ok?
      && var target := WrapAddSigned(base + 2 * info.beanOffsets[to].start, -(info.beanOffsets[from].start as int));
      && (target == 0 || Deref(RefInit(info, ptr, -(f as int), t, tn, s, sn).value, ptr) == Ok(target))
  {
    var start, target := info.beanOffsets[to].start, info.beanOffsets[from].start;
    assert base + start + f < WORD by {
      assert info.beanOffsets[to].end == start + info.beanDefinitions[to].layout.size;
      SlotsFit(info, to);
    }
    assert OffsetBetween(info, from, to) == Ok(start - target) by {
      OffsetBetweenSpec(info, from, to);
    }
    RefInitAsWrittenStep(info, base, f, t, tn, s, sn, from, to);
  }

  /** The step of `RefInitAsWritten` once the slot fits in the address space. */
  lemma RefInitAsWrittenStep(info: ContainerInfo, base: nat, f: nat, t: TypeId, tn: Name, s: TypeId, sn: Name, from: nat, to: nat)
    requires FindBean(info, t, tn) == Ok(from) && FindBean(info, s, sn) == Ok(to)
    requires from < |info.beanOffsets| && to < |info.beanOffsets|
    requires base + info.beanOffsets[to].start + f < WORD
    requires OffsetBetween(info, from, to) == Ok(info.beanOffsets[to].start - info.beanOffsets[from].start)
    ensures var ptr := base + info.beanOffsets[to].start + f;
      && RefInit(info, ptr, -(f as int), t, tn, s, sn).Ok?
      && var target := WrapAddSigned(base + 2 * info.beanOffsets[to].start, -(info.beanOffsets[from].start as int));
      && (target == 0 || Deref(RefInit(info, ptr, -(f as int), t, tn, s, sn).value, ptr) == Ok(target))
  {
    var start, target := info.beanOffsets[to].start, info.beanOffsets[from].start;
    var ptr := base + start + f;
    var r := Ref(start as int - target, -(f as int), ptr);
    assert RefInit(info, ptr, -(f as int), t, tn, s, sn) == Ok(r);
    DerefWithoutInnerWrap(r, base + start);
  }

  /**
    `Ref::init` with the distance taken the other way round, `offset_between(id of S, id of T)`,
    which is what the `container2.rs` test computes by hand for its `Ref`s.
  */
  function RefInitCorrected(info: ContainerInfo, ptr: nat, innerOffset: int, t: TypeId, tn: Name, s: TypeId, sn: Name): Outcome<Ref>
  {
    match FindBean(info, t, tn)
    case Panic => Panic
    case Err(e) => Err(e)
    case Ok(from) =>
      match FindBean(info, s, sn)
      case Panic => Panic
      case Err(e) => Err(e)
      case Ok(to) =>
        match OffsetBetween(info, to, from)
        case Ok(p) => Ok(Ref(p, innerOffset, ptr))
        case _ => Panic
  }

  /**
    With the corrected distance, `deref` of a `Ref<T>` stored `f` bytes into the slot of `S`
    reaches the start of `T`'s slot in the buffer, from any field offset and any buffer address
    that keeps the buffer inside the address space.
  */
  lemma RefInitCorrectedReachesTarget(info: ContainerInfo, base: nat, f: nat, t: TypeId, tn: Name, s: TypeId, sn: Name, from: nat, to: nat)
    requires Consistent(info)
    requires FindBean(info, t, tn) == Ok(from) && FindBean(info, s, sn) == Ok(to)
    requires from < |info.beanDefinitions| && to < |info.beanDefinitions|
    requires 0 < base && base + info.dataLayout.size <= USIZE_MAX && f <= info.beanDefinitions[to].layout.size
    ensures var ptr := base + info.beanOffsets[to].start + f;
      && RefInitCorrected(info, ptr, -(f as int), t, tn, s, sn).Ok?
      && Deref(RefInitCorrected(info, ptr, -(f as int), t, tn, s, sn).value, ptr) == Ok(base + info.beanOffsets[from].start)
  {
    var start, target := info.beanOffsets[to].start, info.beanOffsets[from].start;
    assert base + start + f < WORD && base + target < WORD by {
      assert info.beanOffsets[to].end == start + info.beanDefinitions[to].layout.size;
      SlotsFit(info, to);
      SlotsFit(info, from);
    }
    assert OffsetBetween(info, to, from) == Ok(target - start) by {
      OffsetBetweenSpec(info, to, from);
    }
    RefInitCorrectedStep(info, base, f, t, tn, s, sn, from, to);
  }

  /** The step of `RefInitCorrectedReachesTarget` once both slots fit in the address space. */
  lemma RefInitCorrectedStep(info: ContainerInfo, base: nat, f: nat, t: TypeId, tn: Name, s: TypeId, sn: Name, from: nat, to: nat)
    requires FindBean(info, t, tn) == Ok(from) && FindBean(info, s, sn) == Ok(to)
    requires from < |info.beanOffsets| && to < |info.beanOffsets|
    requires 0 < base && base + info.beanOffsets[to].start + f < WORD && base + info.beanOffsets[from].start < WORD
    requires OffsetBetween(info, to, from) == Ok(info.beanOffsets[from].start - info.beanOffsets[to].start)
    ensures var ptr := base + info.beanOffsets[to].start + f;
      && RefInitCorrected(info, ptr, -(f as int), t, tn, s, sn).Ok?
      && Deref(RefInitCorrected(info, ptr, -(f as int), t, tn, s, sn).value, ptr) == Ok(base + info.beanOffsets[from].start)
  {
    var start, target := info.beanOffsets[to].start, info.beanOffsets[from].start;
    var ptr := base + start + f;
    var r := Ref(target as int - start, -(f as int), ptr);
    assert RefInitCorrected(info, ptr, -(f as int), t, tn, s, sn) == Ok(r);
    DerefWithoutInnerWrap(r, base + start);
    assert WrapAddSigned(base + start, target as int - start) == base + target;
  }

  // ---------------------------------------------------------------------------------------
  // The `Ref<A>` of the test's `C`

  /** The test's container, planned by the corrected planner, is consistent; its slots are A, B, C. */
  lemma ItWorksConsistent()
    ensures ValidLayouts(ItWorksDefinitions()) && PlanInfo(ItWorksDefinitions()).Ok?
    ensures var info := PlanInfo(ItWorksDefinitions()).value;
      && Consistent(info)
      && info.beanDefinitions == ItWorksDefinitions()
      && info.beanOffsets == [Range(0, 8), Range(8, 32), Range(32, 88)]
  {
    ItWorksPlans();
    ItWorksRegisters();
    PlanInfoOutcome(ItWorksDefinitions());
  }

  /**
    In the test's container, planned by the corrected planner, `find` gives `A` id 0 and `C`
    id 2, whose slots start at 0 and 32.
  */
  lemma ItWorksFinds()
    ensures ValidLayouts(ItWorksDefinitions()) && PlanInfo(ItWorksDefinitions()).Ok?
    ensures var info := PlanInfo(ItWorksDefinitions()).value;
      && Consistent(info)
      && info.beanOffsets == [Range(0, 8), Range(8, 32), Range(32, 88)]
      && FindBean(info, 1, "A") == Ok(0)
      && FindBean(info, 3, "C") == Ok(2)
  {
    ItWorksConsistent();
    var info := PlanInfo(ItWorksDefinitions()).value;
    var defs := info.beanDefinitions;
    assert defs[0].typeId == 1 && defs[1].typeId == 2 && defs[2].typeId == 3;
    forall j | ContainerSpecs.OfType(defs, j, 1) ensures j == 0 { }
    forall j | ContainerSpecs.OfType(defs, j, 3) ensures j == 2 { }
    FindBeanSpec(info, 1, "A", 0);
    FindBeanSpec(info, 3, "C", 2);
  }

  /**
    The `Ref<A>` written 8 bytes into `C` in a buffer at address 4096: as written its parent
    offset is 32 and `deref` lands at 4160, inside `C`, while the corrected parent offset -32
    lands at 4096, the start of `A`. The field offset 8 is an arbitrary choice, since Rust may
    reorder the fields of `C`: the inner offset cancels out, and `RefInitAsWritten` and
    `RefInitCorrectedReachesTarget` give the same landing addresses for every field offset.
  */
  lemma ItWorksRefToA()
    ensures ValidLayouts(ItWorksDefinitions()) && PlanInfo(ItWorksDefinitions()).Ok?
    ensures var info := PlanInfo(ItWorksDefinitions()).value;
      && RefInit(info, 4136, -8, 1, "A", 3, "C") == Ok(Ref(32, -8, 4136))
      && Deref(Ref(32, -8, 4136), 4136) == Ok(4160)
      && RefInitCorrected(info, 4136, -8, 1, "A", 3, "C") == Ok(Ref(-32, -8, 4136))
      && Deref(Ref(-32, -8, 4136), 4136) == Ok(4096)
  {
    ItWorksFinds();
    var info := PlanInfo(ItWorksDefinitions()).value;
    assert OffsetBetween(info, 0, 2) == Ok(32);
    assert OffsetBetween(info, 2, 0) == Ok(-32);
  }
}
