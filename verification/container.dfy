/**
  The runtime container of `ioc_core/src/container/mod.rs`: the builder that collects one init
  method and one drop method per bean type next to the spec builder, the build that runs the
  init methods in the planned order against a freshly allocated data block, the retriever the
  init methods see, and the container whose drop runs every drop method in reverse order.

  Memory is abstract here. The data block is a base address and a size; each bean's slot is
  `offset(id)` bytes past the base and is in one of three states. What the init and drop
  methods do to the data block is recorded as a sequence of events, so that the order and the
  addresses the source promises can be stated.
*/
module BeanContainers {
  import opened Wrappers
  import opened Layouts
  import opened BeanTypes
  import opened SpecLeveling
  import opened BeanIndexes
  import opened ContainerSpecs

  /** What a bean's slot in the data block holds. */
  datatype SlotState = Uninit | Built | Dropped

  /** An init method writing the slot at `addr`, or bean `bean`'s drop method called on `addr`. */
  datatype Event = Init(bean: nat, addr: nat) | Drop(bean: nat, addr: nat)

  /** `F::init` for one bean type: all it depends on is the type's self query. */
  datatype InitMethod = InitMethod(selfQuery: BeanQuery)

  /** `F::unsafe_drop` for one bean type: all it depends on is `needs_drop::<F::T>()`. */
  datatype DropMethod = DropMethod(needsDrop: bool)

  function Uninits(n: nat): (s: seq<SlotState>)
    ensures |s| == n && forall x :: 0 <= x < n ==> s[x] == Uninit
  {
    seq(n, _ => Uninit)
  }

  /**
    A plan the runtime can use: the builder's parts intact (indexes exact, slots packed) and every
    id in the build order a registered bean.
  */
  ghost predicate Runnable(spec: ContainerSpec)
  {
    && ValidParts(spec.beanDefinitions, spec.beanOffsets, spec.dataLayout, spec.typeBeanIdMap, spec.nameBeanIdMap)
    && forall p :: 0 <= p < |spec.beanSpecs| ==> spec.beanSpecs[p].id < |spec.beanDefinitions|
  }

  /**
    The part of `Runnable` that running the init and drop methods relies on: one offset per bean,
    and every id the indexes or the build order hold is a registered bean.
  */
  ghost predicate Addressable(spec: ContainerSpec)
  {
    var n := |spec.beanDefinitions|;
    && |spec.beanOffsets| == n
    && IndexesNonEmpty(spec)
    && (forall t, name :: t in spec.typeBeanIdMap && name in spec.typeBeanIdMap[t] ==> spec.typeBeanIdMap[t][name] < n)
    && (forall p :: 0 <= p < |spec.beanSpecs| ==> spec.beanSpecs[p].id < n)
  }

  lemma RunnableAddressable(spec: ContainerSpec)
    requires Runnable(spec)
    ensures Addressable(spec)
  {
    var defs := spec.beanDefinitions;
    IndexedNonEmpty(spec);
    TypeMapOfSpec(defs);
    forall t, name | t in spec.typeBeanIdMap && name in spec.typeBeanIdMap[t]
      ensures spec.typeBeanIdMap[t][name] < |defs|
    {
      TypeMapOfOnly(defs, t, name);
    }
  }

  /** Every id `query` answers on an addressable plan is a registered bean. */
  lemma AddressableQuery(spec: ContainerSpec, q: BeanQuery)
    requires Addressable(spec)
    ensures spec.Query(q).Success? ==> spec.Query(q).value < |spec.beanDefinitions|
  {
    if q.OnlyType? && q.typeId in spec.typeBeanIdMap {
      var m := spec.typeBeanIdMap[q.typeId];
      var k :| k in m;
      assert m[k] < |spec.beanDefinitions|;
    }
  }

  /** A successful plan of a valid builder is runnable. */
  lemma PlannedIsRunnable(spec: ContainerSpec)
    requires ValidParts(spec.beanDefinitions, spec.beanOffsets, spec.dataLayout, spec.typeBeanIdMap, spec.nameBeanIdMap)
    requires WellPlanned(spec)
    ensures Runnable(spec) && Addressable(spec)
  {
    PlanOrderIsPermutation(spec);
    RunnableAddressable(spec);
  }

  /** `retrieve_ptr`'s address for bean `id`: `offset(id)` bytes past the data block's base. */
  function SlotAddress(spec: ContainerSpec, base: nat, id: nat): nat
    requires |spec.beanOffsets| == |spec.beanDefinitions| && id < |spec.beanDefinitions|
  {
    base + spec.Offset(id)
  }

  /**
    On a runnable plan bean `id`'s slot is aligned for the bean's layout and lies inside the
    `data_layout.size` bytes of the data block.
  */
  lemma SlotInsideBlock(spec: ContainerSpec, base: nat, id: nat)
    requires Runnable(spec) && id < |spec.beanDefinitions|
    ensures |spec.beanOffsets| == |spec.beanDefinitions|
    ensures SlotAddress(spec, base, id) + spec.beanDefinitions[id].layout.size <= base + spec.dataLayout.size
    ensures spec.beanDefinitions[id].layout.align >= 1
    ensures (SlotAddress(spec, base, id) - base) % spec.beanDefinitions[id].layout.align == 0
  {
    var defs := spec.beanDefinitions;
    ValidPartsPacked(defs, spec.beanOffsets, spec.dataLayout, spec.typeBeanIdMap, spec.nameBeanIdMap);
    assert LayoutsOf(defs)[id] == defs[id].layout;
  }

  /** Two different beans' slots do not overlap, and a lower id's slot comes first. */
  lemma SlotsDisjoint(spec: ContainerSpec, base: nat, i: nat, j: nat)
    requires Runnable(spec) && i < j < |spec.beanDefinitions|
    ensures |spec.beanOffsets| == |spec.beanDefinitions|
    ensures SlotAddress(spec, base, i) + spec.beanDefinitions[i].layout.size <= SlotAddress(spec, base, j)
  {
    var defs := spec.beanDefinitions;
    ValidPartsPacked(defs, spec.beanOffsets, spec.dataLayout, spec.typeBeanIdMap, spec.nameBeanIdMap);
    assert LayoutsOf(defs)[i] == defs[i].layout;
  }

  /**
    The query `make_ref` builds (`BeanQuery::maybe_none_name`): by type only without a name, by
    name and type with one.
  */
  function MaybeNoneName(typeId: TypeId, typeName: Name, name: Option<Name>): (q: BeanQuery)
    ensures q.typeId == typeId && q.typeName == typeName
    ensures q.NameAndType? <==> name.Some?
    ensures q.NameAndType? ==> q.name == name.value
  {
    match name
    case None => OnlyType(typeId, typeName)
    case Some(n) => NameAndType(n, typeId, typeName)
  }

  /** `BeanFactory::unsafe_drop`: the bean's destructor runs only when the type needs dropping. */
  function UnsafeDrop(m: DropMethod, s: SlotState): (r: SlotState)
    ensures !m.needsDrop ==> r == s
    ensures m.needsDrop ==> r == Dropped
  {
    if m.needsDrop then Dropped else s
  }

  // ---------------------------------------------------------------------------------------
  // The retriever the init methods run against

  /** `MaybeUninitBeanRetriever`: the plan and the (possibly partly initialised) data block. */
  class MaybeUninitBeanRetriever {
    var spec: ContainerSpec
    var base: nat
    var dataSize: nat
    var slots: seq<SlotState>

    ghost predicate Valid()
      reads this
    {
      Addressable(spec) && |slots| == |spec.beanDefinitions| && dataSize == spec.dataLayout.size
    }

    /** `new`: a data block of exactly `data_layout.size` bytes, every slot uninitialised. */
    constructor (spec: ContainerSpec, base: nat)
      requires Addressable(spec)
      ensures Valid()
      ensures this.spec == spec && this.base == base && dataSize == spec.dataLayout.size
      ensures slots == Uninits(|spec.beanDefinitions|)
    {
      this.spec := spec;
      this.base := base;
      dataSize := spec.dataLayout.size;
      slots := Uninits(|spec.beanDefinitions|);
    }

    /** `retrieve`: the plan's `query`; whatever it answers is a registered bean. */
    function Retrieve(query: BeanQuery): (r: Result<nat, ContainerError>)
      reads this
      requires Valid()
      ensures r.Success? ==> r.value < |slots|
      ensures r == spec.Query(query)
    {
      AddressableQuery(spec, query);
      spec.Query(query)
    }

    /** `retrieve_ptr`: never fails, and answers the start of the bean's slot. */
    function RetrievePtr(id: nat): (r: Result<nat, ContainerError>)
      reads this
      requires Valid() && id < |slots|
      ensures r == Success(SlotAddress(spec, base, id))
    {
      Success(SlotAddress(spec, base, id))
    }

    /**
      `make_ref`: resolve the query built from the type and the optional name, then point at
      that bean's slot; a failed query is passed on unchanged.
    */
    function MakeRef(typeId: TypeId, typeName: Name, name: Option<Name>): (r: Result<nat, ContainerError>)
      reads this
      requires Valid()
      ensures var q := MaybeNoneName(typeId, typeName, name);
        && (r.Success? <==> spec.Query(q).Success?)
        && (r.Success? ==> spec.Query(q).value < |slots| && r == Success(SlotAddress(spec, base, spec.Query(q).value)))
        && (r.Failure? ==> r == spec.Query(q))
    {
      match Retrieve(MaybeNoneName(typeId, typeName, name))
      case Failure(e) => Failure(e)
      case Success(id) => RetrievePtr(id)
    }
  }

  /**
    On a runnable plan, `retrieve` answers a registered bean exactly when `find` does, and then
    the same one.
  */
  lemma RetrieveAgreesWithFind(ctx: MaybeUninitBeanRetriever, q: BeanQuery)
    requires ctx.Valid() && Runnable(ctx.spec)
    ensures ctx.Retrieve(q).Success? <==> Find(ctx.spec.typeBeanIdMap, q).Success?
    ensures ctx.Retrieve(q).Success? ==> ctx.Retrieve(q) == Find(ctx.spec.typeBeanIdMap, q)
  {
    QueryAgreesWithFind(ctx.spec, q);
  }

  /** On a runnable plan, `retrieve_ptr` points inside the data block, aligned for the bean. */
  lemma RetrievePtrInsideBlock(ctx: MaybeUninitBeanRetriever, id: nat)
    requires ctx.Valid() && Runnable(ctx.spec) && id < |ctx.slots|
    ensures var addr := ctx.RetrievePtr(id).value;
      && var layout := ctx.spec.beanDefinitions[id].layout;
      && ctx.base <= addr && addr + layout.size <= ctx.base + ctx.dataSize
      && layout.align >= 1 && (addr - ctx.base) % layout.align == 0
  {
    SlotInsideBlock(ctx.spec, ctx.base, id);
  }

  /** A named reference points at the slot of the bean registered under that name and type. */
  lemma MakeRefFindsNamedBean(ctx: MaybeUninitBeanRetriever, typeName: Name, id: nat)
    requires ctx.Valid() && Runnable(ctx.spec) && id < |ctx.slots|
    ensures var d := ctx.spec.beanDefinitions[id];
      ctx.MakeRef(d.typeId, typeName, Some(d.name)) == Success(SlotAddress(ctx.spec, ctx.base, id))
  {
    var d := ctx.spec.beanDefinitions[id];
    SelfQueryFindsSelf(ctx.spec, id);
  }

  /**
    `BeanFactory::init`: resolve the type's self query (passing its error on), then initialise
    the slot it names in place.
  */
  method FactoryInit(f: InitMethod, ctx: MaybeUninitBeanRetriever) returns (r: Result<nat, ContainerError>)
    requires ctx.Valid()
    modifies ctx
    ensures ctx.Valid() && ctx.spec == old(ctx.spec) && ctx.base == old(ctx.base) && ctx.dataSize == old(ctx.dataSize)
    ensures ctx.spec.Query(f.selfQuery).Failure? ==>
      r == Failure(ctx.spec.Query(f.selfQuery).error) && ctx.slots == old(ctx.slots)
    ensures ctx.spec.Query(f.selfQuery).Success? ==>
      && ctx.spec.Query(f.selfQuery).value < |ctx.slots|
      && r == Success(SlotAddress(ctx.spec, ctx.base, ctx.spec.Query(f.selfQuery).value))
      && ctx.slots == old(ctx.slots)[ctx.spec.Query(f.selfQuery).value := Built]
  {
    var id := ctx.Retrieve(f.selfQuery);
    if id.Failure? {
      return Failure(id.error);
    }
    var ptr := ctx.RetrievePtr(id.value);
    // init_in_place
    ctx.slots := ctx.slots[id.value := Built];
    return ptr;
  }

  // ---------------------------------------------------------------------------------------
  // Running the init methods

  /** The outcome of running init methods: the error that stopped them, if any, and their effects. */
  datatype InitRun = InitRun(failure: Option<ContainerError>, events: seq<Event>, slots: seq<SlotState>)

  /**
    The `for bean_spec in bean_specs` loop of `build` from position `k` on: each bean's init
    method in build order, stopping at the first that fails; nothing already built is undone.
  */
  function RunInits(spec: ContainerSpec, inits: seq<InitMethod>, base: nat, k: nat, slots: seq<SlotState>): (r: InitRun)
    requires Addressable(spec) && |inits| == |spec.beanDefinitions| && |slots| == |inits|
    requires k <= |spec.beanSpecs|
    ensures |r.slots| == |slots|
    decreases |spec.beanSpecs| - k
  {
    if k == |spec.beanSpecs| then InitRun(None, [], slots)
    else
      var id := spec.beanSpecs[k].id;
      AddressableQuery(spec, inits[id].selfQuery);
      match spec.Query(inits[id].selfQuery)
      case Failure(e) => InitRun(Some(e), [], slots)
      case Success(target) =>
        var rest := RunInits(spec, inits, base, k + 1, slots[target := Built]);
        InitRun(rest.failure, [Init(id, SlotAddress(spec, base, target))] + rest.events, rest.slots)
  }

  /**
    From position `k` on, the init methods run in build order, each adding one `Init` event; the
    run stops exactly at the first bean whose self query fails, reporting that error, and adds no
    `Drop` event.
  */
  lemma {:induction false} RunInitsShape(spec: ContainerSpec, inits: seq<InitMethod>, base: nat, k: nat, slots: seq<SlotState>)
    requires Addressable(spec) && |inits| == |spec.beanDefinitions| && |slots| == |inits|
    requires k <= |spec.beanSpecs|
    ensures var r := RunInits(spec, inits, base, k, slots);
      && |r.events| <= |spec.beanSpecs| - k
      && (forall i :: 0 <= i < |r.events| ==> r.events[i].Init? && r.events[i].bean == spec.beanSpecs[k + i].id)
      && (r.failure.None? ==> |r.events| == |spec.beanSpecs| - k)
      && (r.failure.Some? ==>
            k + |r.events| < |spec.beanSpecs| &&
            spec.Query(inits[spec.beanSpecs[k + |r.events|].id].selfQuery) == Failure(r.failure.value))
    decreases |spec.beanSpecs| - k
  {
    if k < |spec.beanSpecs| {
      var id := spec.beanSpecs[k].id;
      AddressableQuery(spec, inits[id].selfQuery);
      if spec.Query(inits[id].selfQuery).Success? {
        var target := spec.Query(inits[id].selfQuery).value;
        RunInitsShape(spec, inits, base, k + 1, slots[target := Built]);
      }
    }
  }

  /**
    The whole run of `build`'s loop: events in build order, one per init method that ran, each
    init method at most once (the build order lists every bean once); a failing init method
    ends the run with its error, later init methods do not run, and nothing is dropped.
  */
  lemma InitsRunInBuildOrder(spec: ContainerSpec, inits: seq<InitMethod>, base: nat)
    requires Addressable(spec) && WellPlanned(spec) && |inits| == |spec.beanDefinitions|
    ensures var r := RunInits(spec, inits, base, 0, Uninits(|inits|));
      && |r.events| <= |spec.beanSpecs|
      && (forall i :: 0 <= i < |r.events| ==> r.events[i].Init? && r.events[i].bean == spec.beanSpecs[i].id)
      && (forall i, j :: 0 <= i < j < |r.events| ==> r.events[i].bean != r.events[j].bean)
      && (r.failure.None? <==> |r.events| == |spec.beanSpecs|)
      && (r.failure.Some? ==>
            spec.Query(inits[spec.beanSpecs[|r.events|].id].selfQuery) == Failure(r.failure.value))
  {
    RunInitsShape(spec, inits, base, 0, Uninits(|inits|));
    PlanOrderIsPermutation(spec);
  }

  /** Every init method's query is its own bean's name and type. */
  ghost predicate SelfQueries(defs: seq<Definition>, inits: seq<InitMethod>)
  {
    |inits| == |defs| &&
    forall i :: 0 <= i < |defs| ==>
      inits[i].selfQuery == NameAndType(defs[i].name, defs[i].typeId, defs[i].typeName)
  }

  /** Every init method's query finds its own bean. */
  ghost predicate FindThemselves(spec: ContainerSpec, inits: seq<InitMethod>)
    requires Addressable(spec)
  {
    |inits| == |spec.beanDefinitions| &&
    forall i :: 0 <= i < |inits| ==> spec.Query(inits[i].selfQuery) == Success(i)
  }

  /** Bean `x` comes at or after position `k` of the build order. */
  ghost predicate ScheduledFrom(bs: seq<BeanSpec>, k: nat, x: nat)
  {
    exists p :: k <= p < |bs| && bs[p].id == x
  }

  /** Being scheduled at or after `k` is being at `k` or scheduled after it. */
  lemma ScheduledFromStep(bs: seq<BeanSpec>, k: nat, x: nat)
    requires k < |bs|
    ensures ScheduledFrom(bs, k, x) <==> bs[k].id == x || ScheduledFrom(bs, k + 1, x)
  {
    if ScheduledFrom(bs, k + 1, x) {
      var p :| k + 1 <= p < |bs| && bs[p].id == x;
      assert ScheduledFrom(bs, k, x);
    } else if bs[k].id == x {
      assert ScheduledFrom(bs, k, x);
    }
  }

  lemma {:induction false} FoundRunFrom(spec: ContainerSpec, inits: seq<InitMethod>, base: nat, k: nat, slots: seq<SlotState>)
    requires Addressable(spec) && FindThemselves(spec, inits) && |slots| == |inits|
    requires k <= |spec.beanSpecs|
    ensures var r := RunInits(spec, inits, base, k, slots);
      && r.failure.None?
      && |r.events| == |spec.beanSpecs| - k
      && (forall i :: 0 <= i < |r.events| ==>
            r.events[i] == Init(spec.beanSpecs[k + i].id, SlotAddress(spec, base, spec.beanSpecs[k + i].id)))
      && (forall x :: 0 <= x < |slots| ==>
            r.slots[x] == if ScheduledFrom(spec.beanSpecs, k, x) then Built else slots[x])
    decreases |spec.beanSpecs| - k
  {
    if k < |spec.beanSpecs| {
      var id := spec.beanSpecs[k].id;
      var slots' := slots[id := Built];
      FoundRunFrom(spec, inits, base, k + 1, slots');
      var rest := RunInits(spec, inits, base, k + 1, slots');
      var r := RunInits(spec, inits, base, k, slots);
      assert r.events == [Init(id, SlotAddress(spec, base, id))] + rest.events;
      forall x | 0 <= x < |slots|
        ensures ScheduledFrom(spec.beanSpecs, k, x) <==> x == id || ScheduledFrom(spec.beanSpecs, k + 1, x)
      {
        ScheduledFromStep(spec.beanSpecs, k, x);
      }
    }
  }

  /**
    When every init method's self query is its own bean's name and type, `build` succeeds: bean
    `bean_specs[i]` is initialised at step `i` in its own slot, and afterwards every slot holds
    a built bean.
  */
  lemma SelfQueriesBuildEverySlot(spec: ContainerSpec, inits: seq<InitMethod>, base: nat)
    requires Runnable(spec) && WellPlanned(spec) && SelfQueries(spec.beanDefinitions, inits)
    ensures Addressable(spec)
    ensures var r := RunInits(spec, inits, base, 0, Uninits(|inits|));
      && r.failure.None?
      && |r.events| == |spec.beanSpecs|
      && (forall i :: 0 <= i < |r.events| ==>
            r.events[i] == Init(spec.beanSpecs[i].id, SlotAddress(spec, base, spec.beanSpecs[i].id)))
      && r.slots == seq(|inits|, _ => Built)
  {
    SelfQueriesFindThemselves(spec, inits);
    FoundRunBuildsAll(spec, inits, base);
  }

  /** Self queries make every init method find its own bean. */
  lemma SelfQueriesFindThemselves(spec: ContainerSpec, inits: seq<InitMethod>)
    requires Runnable(spec) && SelfQueries(spec.beanDefinitions, inits)
    ensures Addressable(spec) && FindThemselves(spec, inits)
  {
    RunnableAddressable(spec);
    forall i | 0 <= i < |inits| ensures spec.Query(inits[i].selfQuery) == Success(i) {
      SelfQueryFindsSelf(spec, i);
    }
  }

  /** When every init method finds its own bean, the run of a planned container builds every slot in plan order. */
  lemma FoundRunBuildsAll(spec: ContainerSpec, inits: seq<InitMethod>, base: nat)
    requires Addressable(spec) && FindThemselves(spec, inits) && WellPlanned(spec)
    ensures var r := RunInits(spec, inits, base, 0, Uninits(|inits|));
      && r.failure.None?
      && |r.events| == |spec.beanSpecs|
      && (forall i :: 0 <= i < |r.events| ==>
            r.events[i] == Init(spec.beanSpecs[i].id, SlotAddress(spec, base, spec.beanSpecs[i].id)))
      && r.slots == seq(|inits|, _ => Built)
  {
    FoundRunFrom(spec, inits, base, 0, Uninits(|inits|));
    PlanOrderIsPermutation(spec);
    var r := RunInits(spec, inits, base, 0, Uninits(|inits|));
    forall x | 0 <= x < |inits| ensures r.slots[x] == Built {
      assert Scheduled(spec.beanSpecs, x);
      var p :| 0 <= p < |spec.beanSpecs| && spec.beanSpecs[p].id == x;
      assert ScheduledFrom(spec.beanSpecs, 0, x);
    }
  }

  /**
    The loop of `build` itself: each bean's init method in build order, run against the
    retriever, stopping at the first error; it computes `RunInits`.
  */
  method RunInitMethods(inits: seq<InitMethod>, ctx: MaybeUninitBeanRetriever) returns (failure: Option<ContainerError>, events: seq<Event>)
    requires ctx.Valid() && |inits| == |ctx.slots|
    modifies ctx
    ensures ctx.Valid() && ctx.spec == old(ctx.spec) && ctx.base == old(ctx.base) && ctx.dataSize == old(ctx.dataSize)
    ensures InitRun(failure, events, ctx.slots) == RunInits(ctx.spec, inits, ctx.base, 0, old(ctx.slots))
  {
    var beanSpecs := ctx.spec.beanSpecs;
    ghost var run := RunInits(ctx.spec, inits, ctx.base, 0, ctx.slots);
    events := [];
    for k := 0 to |beanSpecs|
      invariant ctx.Valid() && ctx.spec == old(ctx.spec) && ctx.base == old(ctx.base) && ctx.dataSize == old(ctx.dataSize)
      invariant |ctx.slots| == |inits|
      invariant var rest := RunInits(ctx.spec, inits, ctx.base, k, ctx.slots);
        run == InitRun(rest.failure, events + rest.events, rest.slots)
    {
      var id := beanSpecs[k].id;
      ghost var before := ctx.slots;
      var ptr := FactoryInit(inits[id], ctx);
      if ptr.Failure? {
        assert RunInits(ctx.spec, inits, ctx.base, k, before) == InitRun(Some(ptr.error), [], before);
        return Some(ptr.error), events;
      }
      ghost var rest := RunInits(ctx.spec, inits, ctx.base, k + 1, ctx.slots);
      assert RunInits(ctx.spec, inits, ctx.base, k, before) ==
        InitRun(rest.failure, [Init(id, ptr.value)] + rest.events, rest.slots);
      assert events + ([Init(id, ptr.value)] + rest.events) == (events + [Init(id, ptr.value)]) + rest.events;
      events := events + [Init(id, ptr.value)];
    }
    return None, events;
  }

  // ---------------------------------------------------------------------------------------
  // Dropping the container

  /**
    The drop methods `drop` calls once it has walked the build order back from its end to
    position `k`: one per entry, latest first, each on its bean's slot.
  */
  function DropEventsFrom(spec: ContainerSpec, base: nat, k: nat): (es: seq<Event>)
    requires Addressable(spec) && k <= |spec.beanSpecs|
    ensures |es| == |spec.beanSpecs| - k
    decreases |spec.beanSpecs| - k
  {
    if k == |spec.beanSpecs| then []
    else
      DropEventsFrom(spec, base, k + 1) + [DropOf(spec, base, k)]
  }

  /** The call of the drop method of the bean at position `p` of the build order, on its slot. */
  function DropOf(spec: ContainerSpec, base: nat, p: nat): (e: Event)
    requires Addressable(spec) && p < |spec.beanSpecs|
    ensures e.Drop? && e.bean == spec.beanSpecs[p].id
  {
    var id := spec.beanSpecs[p].id;
    Drop(id, SlotAddress(spec, base, id))
  }

  /** All the drop methods `drop` calls: the whole build order, walked backwards. */
  function DropEvents(spec: ContainerSpec, base: nat): (es: seq<Event>)
    requires Addressable(spec)
  {
    DropEventsFrom(spec, base, 0)
  }

  lemma {:induction false} DropEventsFromAt(spec: ContainerSpec, base: nat, k: nat)
    requires Addressable(spec) && k <= |spec.beanSpecs|
    ensures forall i :: 0 <= i < |spec.beanSpecs| - k ==>
      DropEventsFrom(spec, base, k)[i] == DropOf(spec, base, |spec.beanSpecs| - 1 - i)
    decreases |spec.beanSpecs| - k
  {
    if k < |spec.beanSpecs| {
      var bs := spec.beanSpecs;
      DropEventsFromAt(spec, base, k + 1);
      var rest := DropEventsFrom(spec, base, k + 1);
      var es := DropEventsFrom(spec, base, k);
      assert es == rest + [DropOf(spec, base, k)];
      forall i | 0 <= i < |es|
        ensures es[i] == DropOf(spec, base, |bs| - 1 - i)
      {
        if i < |rest| {
          assert es[i] == rest[i];
        } else {
          assert |bs| - 1 - i == k;
        }
      }
    }
  }

  /**
    `drop` calls one drop method per entry of the build order, in reverse order: its `i`-th call
    is for the `i`-th bean from the end of the build order, on that bean's slot.
  */
  lemma DropEventsReversed(spec: ContainerSpec, base: nat)
    requires Addressable(spec)
    ensures var es := DropEvents(spec, base);
      && |es| == |spec.beanSpecs|
      && forall i :: 0 <= i < |es| ==>
           var id := spec.beanSpecs[|es| - 1 - i].id;
           es[i] == Drop(id, SlotAddress(spec, base, id))
  {
    DropEventsFromAt(spec, base, 0);
  }

  /** Dropping the container calls every registered bean's drop method exactly once, on its own slot. */
  lemma DropsEachBeanOnce(spec: ContainerSpec, base: nat, x: nat)
    requires Addressable(spec) && WellPlanned(spec) && x < |spec.beanDefinitions|
    ensures var es := DropEvents(spec, base);
      exists i :: 0 <= i < |es| && es[i] == Drop(x, SlotAddress(spec, base, x))
        && forall j :: 0 <= j < |es| && es[j].bean == x ==> j == i
  {
    PlanOrderIsPermutation(spec);
    DropOnceInOrder(spec, base, x);
  }

  /** The step of `DropsEachBeanOnce` once the build order is known to list `x` exactly once. */
  lemma DropOnceInOrder(spec: ContainerSpec, base: nat, x: nat)
    requires Addressable(spec) && Scheduled(spec.beanSpecs, x)
    requires forall p, q :: 0 <= p < q < |spec.beanSpecs| ==> spec.beanSpecs[p].id != spec.beanSpecs[q].id
    ensures var es := DropEvents(spec, base);
      exists i :: 0 <= i < |es| && es[i] == Drop(x, SlotAddress(spec, base, x))
        && forall j :: 0 <= j < |es| && es[j].bean == x ==> j == i
  {
    var es := DropEvents(spec, base);
    var bs := spec.beanSpecs;
    var p :| 0 <= p < |bs| && bs[p].id == x;
    var i := |bs| - 1 - p;
    assert es[i] == Drop(x, SlotAddress(spec, base, x)) by {
      DropEventsReversed(spec, base);
    }
    forall j | 0 <= j < |es| && es[j].bean == x ensures j == i {
      DropEventsReversed(spec, base);
      var q := |bs| - 1 - j;
      assert bs[q].id == x;
    }
  }

  /**
    When every bean was built by its own init method, the beans are dropped in exactly the
    reverse of the order they were initialised in, each at the address it was initialised at.
  */
  lemma DropReversesInit(spec: ContainerSpec, inits: seq<InitMethod>, base: nat)
    requires Runnable(spec) && WellPlanned(spec) && SelfQueries(spec.beanDefinitions, inits)
    ensures Addressable(spec)
    ensures var inited := RunInits(spec, inits, base, 0, Uninits(|inits|)).events;
      var dropped := DropEvents(spec, base);
      && |dropped| == |inited|
      && forall i :: 0 <= i < |dropped| ==>
           dropped[i].bean == inited[|inited| - 1 - i].bean && dropped[i].addr == inited[|inited| - 1 - i].addr
  {
    SelfQueriesBuildEverySlot(spec, inits, base);
    DropEventsReversed(spec, base);
  }

  /** `BeanContainer`: the plan, one drop method per bean, and the pinned data block. */
  class BeanContainer {
    var spec: ContainerSpec
    var dropMethods: seq<DropMethod>
    var base: nat
    var slots: seq<SlotState>

    ghost predicate Valid()
      reads this
    {
      Addressable(spec) && |dropMethods| == |spec.beanDefinitions| && |slots| == |dropMethods|
    }

    constructor (spec: ContainerSpec, dropMethods: seq<DropMethod>, base: nat, slots: seq<SlotState>)
      requires Addressable(spec) && |dropMethods| == |spec.beanDefinitions| && |slots| == |dropMethods|
      ensures Valid()
      ensures this.spec == spec && this.dropMethods == dropMethods && this.base == base && this.slots == slots
    {
      this.spec := spec;
      this.dropMethods := dropMethods;
      this.base := base;
      this.slots := slots;
    }

    /**
      `Drop for BeanContainer`: walk the build order backwards and call each bean's drop method
      on its slot; the beans whose type needs dropping end up dropped, the others are untouched.
    */
    method Drop() returns (events: seq<Event>)
      requires Valid()
      modifies this
      ensures Valid() && spec == old(spec) && dropMethods == old(dropMethods) && base == old(base)
      ensures events == DropEvents(spec, base)
      ensures |slots| == |old(slots)|
      ensures forall x :: 0 <= x < |slots| ==>
        slots[x] == if Scheduled(spec.beanSpecs, x) then UnsafeDrop(dropMethods[x], old(slots)[x]) else old(slots)[x]
    {
      var bs := spec.beanSpecs;
      events := [];
      var k: nat := |bs|;
      while k > 0
        invariant Valid() && spec == old(spec) && dropMethods == old(dropMethods) && base == old(base)
        invariant k <= |bs| && events == DropEventsFrom(spec, base, k)
        invariant |slots| == |old(slots)|
        invariant forall x :: 0 <= x < |slots| ==>
          slots[x] == if ScheduledFrom(bs, k, x) then UnsafeDrop(dropMethods[x], old(slots)[x]) else old(slots)[x]
        decreases k
      {
        k := k - 1;
        var id := bs[k].id;
        var ptr := SlotAddress(spec, base, id);
        slots := slots[id := UnsafeDrop(dropMethods[id], slots[id])];
        events := events + [Event.Drop(id, ptr)];
        forall x | 0 <= x < |slots|
          ensures ScheduledFrom(bs, k, x) <==> x == id || ScheduledFrom(bs, k + 1, x)
        {
          ScheduledFromStep(bs, k, x);
        }
      }
      forall x | 0 <= x < |slots| ensures ScheduledFrom(bs, 0, x) == Scheduled(bs, x) {
        if Scheduled(bs, x) {
          var p :| 0 <= p < |bs| && bs[p].id == x;
          assert ScheduledFrom(bs, 0, x);
        }
      }
    }
  }

  // ---------------------------------------------------------------------------------------
  // The builder

  /** `BeanContainerBuilder`: the spec builder plus one drop method and one init method per bean. */
  class BeanContainerBuilder {
    var spec: ContainerSpecBuilder
    var dropMethods: seq<DropMethod>
    var initMethods: seq<InitMethod>

    ghost predicate Valid()
      reads this, spec
    {
      spec.Valid() && |dropMethods| == |spec.definitions| && |initMethods| == |spec.definitions|
    }

    /** `BeanContainer::builder`: an empty spec builder and no methods. */
    constructor ()
      ensures Valid() && fresh(spec)
      ensures spec.definitions == [] && dropMethods == [] && initMethods == []
    {
      spec := new ContainerSpecBuilder();
      dropMethods := [];
      initMethods := [];
    }

    /**
      `append`: register the definition with the spec builder first; only if that succeeds are
      the type's drop and init methods pushed, so the three lists stay the same length and
      index `i` of each belongs to bean `i`.
    */
    method Append(definition: Definition, drop: DropMethod, init: InitMethod) returns (r: Result<(), ContainerError>)
      requires Valid() && definition.layout.Valid()
      modifies this, spec
      ensures Valid() && spec == old(spec)
      ensures Extend(old(spec.dataLayout), definition.layout).None? ==>
        r == Failure(LayoutError) && unchanged(this) && unchanged(spec)
      ensures Extend(old(spec.dataLayout), definition.layout).Some? && definition.name in old(spec.nameBeanIdMap) ==>
        r == Failure(DuplicateBeanName(definition.name, definition.typeName, definition.typeName))
        && unchanged(this) && unchanged(spec)
      ensures Extend(old(spec.dataLayout), definition.layout).Some? && definition.name !in old(spec.nameBeanIdMap) ==>
        && r == Success(())
        && spec.definitions == old(spec.definitions) + [definition]
        && dropMethods == old(dropMethods) + [drop]
        && initMethods == old(initMethods) + [init]
    {
      var id := spec.Append(definition);
      if id.Failure? {
        return Failure(id.error);
      }
      dropMethods := dropMethods + [drop];
      initMethods := initMethods + [init];
      return Success(());
    }

    /**
      `build`: plan the container (its error is returned before any init method runs), allocate
      the data block, run each bean's init method in build order and stop at the first error,
      without dropping what was already built; on success the container owns the plan, the
      drop methods and the data block.
    */
    method Build(base: nat) returns (r: Result<BeanContainer, ContainerError>, events: seq<Event>)
      requires Valid()
      ensures var plan := PlanSpec(spec.definitions, spec.typeBeanIdMap, spec.nameBeanIdMap, spec.dataLayout, spec.beanOffsets);
        && (plan.Failure? ==> r == Failure(plan.error) && events == [])
        && (plan.Success? ==>
              && Runnable(plan.value) && Addressable(plan.value) && WellPlanned(plan.value)
              && var run := RunInits(plan.value, initMethods, base, 0, Uninits(|initMethods|));
              && events == run.events
              && (run.failure.Some? ==> r == Failure(run.failure.value))
              && (run.failure.None? ==>
                    && r.Success? && fresh(r.value) && r.value.Valid()
                    && r.value.spec == plan.value && r.value.dropMethods == dropMethods
                    && r.value.base == base && r.value.slots == run.slots))
    {
      var planned := spec.Build();
      if planned.Failure? {
        return Failure(planned.error), [];
      }
      var plan := planned.value;
      PlannedIsRunnable(plan);
      var retriever := new MaybeUninitBeanRetriever(plan, base);
      var failure;
      failure, events := RunInitMethods(initMethods, retriever);
      if failure.Some? {
        return Failure(failure.value), events;
      }
      var container := new BeanContainer(plan, dropMethods, base, retriever.slots);
      return Success(container), events;
    }
  }
}
