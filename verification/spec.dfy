/**
  The container planner of `ioc_core/src/container/spec.rs`: a builder that registers bean
  definitions one at a time (giving each an id, a slot in one data block, and entries in a
  type index and a name index), then plans the container: it resolves every dependency query
  to a bean id, levels the beans (see `SpecLeveling`) and orders them by level. The planned
  `ContainerSpec` answers queries and slot offsets.
*/
module ContainerSpecs {
  import opened Wrappers
  import opened Layouts
  import opened BeanTypes
  import opened SpecLeveling
  import opened BeanIndexes

  type Definition = BeanDefinition<BeanQuery>

  /**
    `find`: a type-only query needs exactly one bean of its type, a named query a bean of that
    type registered under that name.
  */
  function Find(typeMap: TypeBeanIdMap, query: BeanQuery): (r: Result<nat, ContainerError>)
  {
    match query
    case OnlyType(typeId, typeName) =>
      if typeId in typeMap then
        var m := typeMap[typeId];
        if |m| == 1 then Success(OnlyValue(m))
        else Failure(TooManyCandinatedBean(typeName, m.Keys))
      else Failure(NoBean(typeName))
    case NameAndType(name, typeId, typeName) =>
      if typeId in typeMap then
        var m := typeMap[typeId];
        if name in m then Success(m[name]) else Failure(NoBeanWithName(typeName, name))
      else Failure(NoBean(typeName))
  }

  /** The names of the definitions of type `t`. */
  ghost function NamesOfType<Q>(defs: seq<BeanDefinition<Q>>, t: TypeId): set<Name>
  {
    set i | 0 <= i < |defs| && defs[i].typeId == t :: defs[i].name
  }

  ghost predicate OfType<Q>(defs: seq<BeanDefinition<Q>>, i: int, t: TypeId)
  {
    0 <= i < |defs| && defs[i].typeId == t
  }

  /**
    A type-only query resolves exactly when one definition has that type, and then to that
    definition; it reports `NoBean` exactly when none has, and `TooManyCandinatedBean` with the
    names of all of them exactly when several have.
  */
  lemma FindOnlyType<Q>(defs: seq<BeanDefinition<Q>>, t: TypeId, tn: Name, id: nat)
    requires UniqueNames(defs)
    ensures Find(TypeMapOf(defs), OnlyType(t, tn)) == Success(id) <==>
      OfType(defs, id, t) && forall j :: OfType(defs, j, t) ==> j == id
    ensures Find(TypeMapOf(defs), OnlyType(t, tn)) == Failure(NoBean(tn)) <==> forall j :: !OfType(defs, j, t)
    ensures Find(TypeMapOf(defs), OnlyType(t, tn)) == Failure(TooManyCandinatedBean(tn, NamesOfType(defs, t))) <==>
      exists i, j :: OfType(defs, i, t) && OfType(defs, j, t) && i != j
  {
    var typeMap := TypeMapOf(defs);
    TypeMapOfSpec(defs);
    if t in typeMap {
      var m := typeMap[t];
      assert m.Keys == NamesOfType(defs, t) by {
        forall n | n in NamesOfType(defs, t) ensures n in m {
          var i :| 0 <= i < |defs| && defs[i].typeId == t && defs[i].name == n;
        }
      }
      var k :| k in m;
      assert OfType(defs, m[k], t);
      if |m| == 1 {
        var v := OnlyValue(m);
        forall j | OfType(defs, j, t) ensures j == v {
          assert defs[j].name in m;
        }
      } else {
        TwoKeys(m);
        var k1, k2 :| k1 in m && k2 in m && k1 != k2;
        assert OfType(defs, m[k1], t) && OfType(defs, m[k2], t);
      }
    } else {
      forall j | OfType(defs, j, t) ensures false {
        assert false;
      }
    }
  }

  /**
    A named query resolves exactly to the definition with that name and type; it reports
    `NoBean` exactly when no definition has the type, and otherwise `NoBeanWithName`.
  */
  lemma FindNameAndType<Q>(defs: seq<BeanDefinition<Q>>, n: Name, t: TypeId, tn: Name, id: nat)
    requires UniqueNames(defs)
    ensures Find(TypeMapOf(defs), NameAndType(n, t, tn)) == Success(id) <==>
      OfType(defs, id, t) && defs[id].name == n
    ensures Find(TypeMapOf(defs), NameAndType(n, t, tn)) == Failure(NoBean(tn)) <==> forall j :: !OfType(defs, j, t)
    ensures Find(TypeMapOf(defs), NameAndType(n, t, tn)).Failure? ==>
      Find(TypeMapOf(defs), NameAndType(n, t, tn)) in {Failure(NoBean(tn)), Failure(NoBeanWithName(tn, n))}
  {
    var typeMap := TypeMapOf(defs);
    if id < |defs| {
      TypeMapOfHas(defs, id);
    }
    if t in typeMap {
      TypeMapOfNonEmpty(defs, t);
      var k :| k in typeMap[t];
      TypeMapOfOnly(defs, t, k);
      assert OfType(defs, typeMap[t][k], t);
      if n in typeMap[t] {
        TypeMapOfOnly(defs, t, n);
      }
    } else {
      forall j | OfType(defs, j, t) ensures false {
        TypeMapOfHas(defs, j);
      }
    }
  }

  /** Every id `find` returns names a registered definition. */
  lemma FindInRange<Q>(defs: seq<BeanDefinition<Q>>, q: BeanQuery)
    requires UniqueNames(defs)
    ensures Find(TypeMapOf(defs), q).Success? ==> Find(TypeMapOf(defs), q).value < |defs|
  {
    var typeMap := TypeMapOf(defs);
    if q.typeId in typeMap {
      TypeMapOfNonEmpty(defs, q.typeId);
      var k :| k in typeMap[q.typeId];
      TypeMapOfOnly(defs, q.typeId, k);
      if q.NameAndType? && q.name in typeMap[q.typeId] {
        TypeMapOfOnly(defs, q.typeId, q.name);
      }
    }
  }

  // ---------------------------------------------------------------------------------------
  // Resolving every dependency, stopping at the first query that fails

  /** The inner `for dependency in definition.dependencies` loop from index `k` on. */
  function ResolveFrom(typeMap: TypeBeanIdMap, qs: seq<BeanQuery>, k: nat, acc: seq<nat>): Result<seq<nat>, ContainerError>
    requires k <= |qs|
    decreases |qs| - k
  {
    if k == |qs| then Success(acc)
    else
      match Find(typeMap, qs[k])
      case Failure(e) => Failure(e)
      case Success(id) => ResolveFrom(typeMap, qs, k + 1, acc + [id])
  }

  function ResolveDeps(typeMap: TypeBeanIdMap, qs: seq<BeanQuery>): Result<seq<nat>, ContainerError>
  {
    ResolveFrom(typeMap, qs, 0, [])
  }

  /** The outer `for (idx, definition)` loop from index `k` on. */
  function ResolveAllFrom(typeMap: TypeBeanIdMap, defs: seq<Definition>, k: nat, acc: seq<seq<nat>>): Result<seq<seq<nat>>, ContainerError>
    requires k <= |defs|
    decreases |defs| - k
  {
    if k == |defs| then Success(acc)
    else
      match ResolveDeps(typeMap, defs[k].dependencies)
      case Failure(e) => Failure(e)
      case Success(ds) => ResolveAllFrom(typeMap, defs, k + 1, acc + [ds])
  }

  function ResolveAll(typeMap: TypeBeanIdMap, defs: seq<Definition>): Result<seq<seq<nat>>, ContainerError>
  {
    ResolveAllFrom(typeMap, defs, 0, [])
  }

  lemma {:induction false} ResolveFromSpec(typeMap: TypeBeanIdMap, qs: seq<BeanQuery>, k: nat, acc: seq<nat>)
    requires k <= |qs|
    ensures ResolveFrom(typeMap, qs, k, acc).Success? <==> forall i :: k <= i < |qs| ==> Find(typeMap, qs[i]).Success?
    ensures ResolveFrom(typeMap, qs, k, acc).Success? ==>
      var ds := ResolveFrom(typeMap, qs, k, acc).value;
      |ds| == |acc| + |qs| - k && ds[..|acc|] == acc
      && forall i :: k <= i < |qs| ==> Find(typeMap, qs[i]) == Success(ds[|acc| + i - k])
    ensures ResolveFrom(typeMap, qs, k, acc).Failure? ==>
      exists i :: k <= i < |qs| && Find(typeMap, qs[i]) == Failure(ResolveFrom(typeMap, qs, k, acc).error)
        && forall j :: k <= j < i ==> Find(typeMap, qs[j]).Success?
    decreases |qs| - k
  {
    if k < |qs| && Find(typeMap, qs[k]).Failure? {
      assert Find(typeMap, qs[k]) == Failure(ResolveFrom(typeMap, qs, k, acc).error);
    }
    if k < |qs| && Find(typeMap, qs[k]).Success? {
      var acc' := acc + [Find(typeMap, qs[k]).value];
      ResolveFromSpec(typeMap, qs, k + 1, acc');
      if ResolveFrom(typeMap, qs, k + 1, acc').Success? {
        var ds := ResolveFrom(typeMap, qs, k + 1, acc').value;
        assert ds[..|acc|] == ds[..|acc'|][..|acc|];
      }
    }
  }

  /**
    Resolving a dependency list succeeds exactly when every query is found, and then gives the
    found ids in order; otherwise it reports the error of the first query that is not found.
  */
  lemma ResolveDepsSpec(typeMap: TypeBeanIdMap, qs: seq<BeanQuery>)
    ensures ResolveDeps(typeMap, qs).Success? <==> forall i :: 0 <= i < |qs| ==> Find(typeMap, qs[i]).Success?
    ensures ResolveDeps(typeMap, qs).Success? ==>
      |ResolveDeps(typeMap, qs).value| == |qs|
      && forall i :: 0 <= i < |qs| ==> Find(typeMap, qs[i]) == Success(ResolveDeps(typeMap, qs).value[i])
    ensures ResolveDeps(typeMap, qs).Failure? ==>
      exists i :: 0 <= i < |qs| && Find(typeMap, qs[i]) == Failure(ResolveDeps(typeMap, qs).error)
        && forall j :: 0 <= j < i ==> Find(typeMap, qs[j]).Success?
  {
    ResolveFromSpec(typeMap, qs, 0, []);
    assert ResolveDeps(typeMap, qs) == ResolveFrom(typeMap, qs, 0, []);
    if ResolveDeps(typeMap, qs).Success? {
      var ds := ResolveDeps(typeMap, qs).value;
      assert forall i :: 0 <= i < |qs| ==> Find(typeMap, qs[i]) == Success(ds[0 + i - 0]);
    }
  }

  /** Every query of every definition resolved: `deps[i][k]` is what `find` gives for query `k` of bean `i`. */
  ghost predicate ResolvedAll(typeMap: TypeBeanIdMap, defs: seq<Definition>, deps: seq<seq<nat>>)
  {
    && |deps| == |defs|
    && forall i :: 0 <= i < |defs| ==> ResolveDeps(typeMap, defs[i].dependencies) == Success(deps[i])
  }

  lemma {:induction false} ResolveAllFromSpec(typeMap: TypeBeanIdMap, defs: seq<Definition>, k: nat, acc: seq<seq<nat>>)
    requires k <= |defs| && |acc| == k
    requires forall i :: 0 <= i < k ==> ResolveDeps(typeMap, defs[i].dependencies) == Success(acc[i])
    ensures ResolveAllFrom(typeMap, defs, k, acc).Success? ==> ResolvedAll(typeMap, defs, ResolveAllFrom(typeMap, defs, k, acc).value)
    ensures ResolveAllFrom(typeMap, defs, k, acc).Failure? ==>
      exists i :: k <= i < |defs| && ResolveDeps(typeMap, defs[i].dependencies) == Failure(ResolveAllFrom(typeMap, defs, k, acc).error)
        && forall j :: k <= j < i ==> ResolveDeps(typeMap, defs[j].dependencies).Success?
    decreases |defs| - k
  {
    if k < |defs| && ResolveDeps(typeMap, defs[k].dependencies).Failure? {
      assert ResolveDeps(typeMap, defs[k].dependencies) == Failure(ResolveAllFrom(typeMap, defs, k, acc).error);
    }
    if k < |defs| && ResolveDeps(typeMap, defs[k].dependencies).Success? {
      ResolveAllFromSpec(typeMap, defs, k + 1, acc + [ResolveDeps(typeMap, defs[k].dependencies).value]);
    }
  }

  /**
    Resolution of the whole definition list succeeds with every dependency list resolved, or
    fails with the error of the first definition whose list does not resolve.
  */
  lemma ResolveAllSpec(typeMap: TypeBeanIdMap, defs: seq<Definition>)
    ensures ResolveAll(typeMap, defs).Success? ==> ResolvedAll(typeMap, defs, ResolveAll(typeMap, defs).value)
    ensures ResolveAll(typeMap, defs).Failure? ==>
      exists i :: 0 <= i < |defs| && ResolveDeps(typeMap, defs[i].dependencies) == Failure(ResolveAll(typeMap, defs).error)
        && forall j :: 0 <= j < i ==> ResolveDeps(typeMap, defs[j].dependencies).Success?
  {
    ResolveAllFromSpec(typeMap, defs, 0, []);
  }

  lemma ResolvedInRange(defs: seq<Definition>, typeMap: TypeBeanIdMap, nameMap: NameBeanIdMap, deps: seq<seq<nat>>)
    requires Indexed(defs, typeMap, nameMap) && ResolvedAll(typeMap, defs, deps)
    ensures DepsInRange(deps)
  {
    forall x, d | 0 <= x < |deps| && d in deps[x] ensures d < |deps| {
      var qs := defs[x].dependencies;
      ResolveDepsSpec(typeMap, qs);
      var k :| 0 <= k < |deps[x]| && deps[x][k] == d;
      FindInRange(defs, qs[k]);
    }
  }

  // ---------------------------------------------------------------------------------------
  // The planned container

  /** `ContainerSpec`: the data layout, the bean specs in build order, and the builder's indexes. */
  datatype ContainerSpec = ContainerSpec(
    dataLayout: Layout,
    beanSpecs: seq<BeanSpec>,
    beanDefinitions: seq<Definition>,
    beanOffsets: seq<nat>,
    typeBeanIdMap: TypeBeanIdMap,
    nameBeanIdMap: NameBeanIdMap)
  {
    /** `offset`: the start of bean `id`'s slot in the data block. */
    function Offset(id: nat): nat
      requires id < |beanOffsets|
    {
      beanOffsets[id]
    }

    /**
      `query`: a type-only query answers the single bean of its type (`TooManyCandinatedBean`
      when there are several); a named query looks the name up and checks the type.
    */
    function Query(query: BeanQuery): (r: Result<nat, ContainerError>)
      requires IndexesNonEmpty(this)
    {
      match query
      case OnlyType(typeId, typeName) =>
        if typeId in typeBeanIdMap then
          var m := typeBeanIdMap[typeId];
          if |m| > 1 then Failure(TooManyCandinatedBean(typeName, m.Keys))
          else Success(OnlyValue(m))
        else Failure(NoBean(typeName))
      case NameAndType(name, typeId, typeName) =>
        if name in nameBeanIdMap then
          var id := nameBeanIdMap[name];
          if beanDefinitions[id].typeId == typeId then Success(id)
          else Failure(NoBeanWithName(typeName, name))
        else Failure(NoBeanWithName(typeName, name))
    }
  }

  /** What `query` relies on: no inner type map is empty, every named id is a definition. */
  ghost predicate IndexesNonEmpty(spec: ContainerSpec)
  {
    && (forall t :: t in spec.typeBeanIdMap ==> |spec.typeBeanIdMap[t]| > 0)
    && (forall n :: n in spec.nameBeanIdMap ==> spec.nameBeanIdMap[n] < |spec.beanDefinitions|)
  }

  /**
    The planner as one function: resolve every dependency (first error wins), level the beans
    (`LoopDependency` on a cycle), then sort them stably by level.
  */
  function PlanSpec(defs: seq<Definition>, typeMap: TypeBeanIdMap, nameMap: NameBeanIdMap, layout: Layout, offsets: seq<nat>): Result<ContainerSpec, ContainerError>
  {
    match ResolveAll(typeMap, defs)
    case Failure(e) => Failure(e)
    case Success(deps) =>
      match Levels(deps)
      case Failure(e) => Failure(e)
      case Success(specs) => Success(ContainerSpec(layout, SortByLevel(specs), defs, offsets, typeMap, nameMap))
  }

  /**
    What a successful plan is: each registered bean appears once with its dependencies resolved
    by `find`, levels never decrease along the order, ties keep registration order, and no bean
    has a lower level than a bean it depends on.
  */
  ghost predicate WellPlanned(spec: ContainerSpec)
  {
    var defs := spec.beanDefinitions;
    && ResolveAll(spec.typeBeanIdMap, defs).Success?
    && var deps := ResolveAll(spec.typeBeanIdMap, defs).value;
    && ResolvedAll(spec.typeBeanIdMap, defs, deps)
    && Levels(deps).Success?
    && LeveledSpecs(deps, Levels(deps).value)
    && multiset(spec.beanSpecs) == multiset(Levels(deps).value)
    && |spec.beanSpecs| == |defs|
    && SortedByLevel(spec.beanSpecs)
    && TiesInIdOrder(spec.beanSpecs)
  }

  /** Planning succeeds exactly when every query resolves and the dependencies have no cycle. */
  lemma PlanSpecOutcome(defs: seq<Definition>, typeMap: TypeBeanIdMap, nameMap: NameBeanIdMap, layout: Layout, offsets: seq<nat>)
    requires Indexed(defs, typeMap, nameMap)
    ensures PlanSpec(defs, typeMap, nameMap, layout, offsets).Success? ==>
      WellPlanned(PlanSpec(defs, typeMap, nameMap, layout, offsets).value)
    ensures PlanSpec(defs, typeMap, nameMap, layout, offsets) == Failure(LoopDependency) <==>
      ResolveAll(typeMap, defs).Success? && HasCycle(ResolveAll(typeMap, defs).value)
  {
    ResolveAllSpec(typeMap, defs);
    if ResolveAll(typeMap, defs).Success? {
      var deps := ResolveAll(typeMap, defs).value;
      ResolvedInRange(defs, typeMap, nameMap, deps);
      LevelsFailIffCycle(deps);
      if Levels(deps).Success? {
        var specs := Levels(deps).value;
        LevelsSound(deps);
        assert IdsIncreasing(specs);
        SortByLevelStable(specs);
        assert |multiset(SortByLevel(specs))| == |SortByLevel(specs)|;
      }
    } else {
      var i :| 0 <= i < |defs| && ResolveDeps(typeMap, defs[i].dependencies) == Failure(ResolveAll(typeMap, defs).error);
      ResolveDepsSpec(typeMap, defs[i].dependencies);
      var k :| 0 <= k < |defs[i].dependencies| && Find(typeMap, defs[i].dependencies[k]) == Failure(ResolveAll(typeMap, defs).error);
      var q := defs[i].dependencies[k];
      assert Find(typeMap, q).error != LoopDependency;
    }
  }

  /**
    `query` agrees with `find` on every type-only query, and on every named query they succeed
    together with the same id (they differ only in which error a named query for an unknown
    type reports).
  */
  lemma QueryAgreesWithFind(spec: ContainerSpec, q: BeanQuery)
    requires Indexed(spec.beanDefinitions, spec.typeBeanIdMap, spec.nameBeanIdMap)
    ensures IndexesNonEmpty(spec)
    ensures q.OnlyType? ==> spec.Query(q) == Find(spec.typeBeanIdMap, q)
    ensures spec.Query(q).Success? <==> Find(spec.typeBeanIdMap, q).Success?
    ensures spec.Query(q).Success? ==> spec.Query(q) == Find(spec.typeBeanIdMap, q)
  {
    var defs := spec.beanDefinitions;
    IndexedNonEmpty(spec);
    if q.NameAndType? {
      if q.name in spec.nameBeanIdMap {
        NameMapOfOnly(defs, q.name);
        TypeMapOfHas(defs, spec.nameBeanIdMap[q.name]);
      }
      if q.typeId in spec.typeBeanIdMap && q.name in spec.typeBeanIdMap[q.typeId] {
        TypeMapOfOnly(defs, q.typeId, q.name);
        NameMapOfHas(defs, spec.typeBeanIdMap[q.typeId][q.name]);
      }
    }
  }

  lemma IndexedNonEmpty(spec: ContainerSpec)
    requires Indexed(spec.beanDefinitions, spec.typeBeanIdMap, spec.nameBeanIdMap)
    ensures IndexesNonEmpty(spec)
  {
    forall t | t in spec.typeBeanIdMap ensures |spec.typeBeanIdMap[t]| > 0 {
      TypeMapOfNonEmpty(spec.beanDefinitions, t);
    }
    forall n | n in spec.nameBeanIdMap ensures spec.nameBeanIdMap[n] < |spec.beanDefinitions| {
      NameMapOfOnly(spec.beanDefinitions, n);
    }
  }

  /** Every registered bean's own named query finds that bean. */
  lemma SelfQueryFindsSelf(spec: ContainerSpec, id: nat)
    requires Indexed(spec.beanDefinitions, spec.typeBeanIdMap, spec.nameBeanIdMap)
    requires id < |spec.beanDefinitions|
    ensures IndexesNonEmpty(spec)
    ensures var d := spec.beanDefinitions[id];
      spec.Query(NameAndType(d.name, d.typeId, d.typeName)) == Success(id)
  {
    IndexedNonEmpty(spec);
    NameMapOfHas(spec.beanDefinitions, id);
  }

  /** A query `query` answers names a registered bean. */
  lemma QueryInRange(spec: ContainerSpec, q: BeanQuery)
    requires Indexed(spec.beanDefinitions, spec.typeBeanIdMap, spec.nameBeanIdMap)
    ensures IndexesNonEmpty(spec)
    ensures spec.Query(q).Success? ==> spec.Query(q).value < |spec.beanDefinitions|
  {
    QueryAgreesWithFind(spec, q);
    FindInRange(spec.beanDefinitions, q);
  }

  /** Bean `x` has a place in the build order `bs`. */
  ghost predicate Scheduled(bs: seq<BeanSpec>, x: nat)
  {
    exists p :: 0 <= p < |bs| && bs[p].id == x
  }

  /** The build order of a successful plan lists every registered bean exactly once. */
  lemma PlanOrderIsPermutation(spec: ContainerSpec)
    requires WellPlanned(spec)
    ensures forall p :: 0 <= p < |spec.beanSpecs| ==> spec.beanSpecs[p].id < |spec.beanDefinitions|
    ensures forall p, q :: 0 <= p < q < |spec.beanSpecs| ==> spec.beanSpecs[p].id != spec.beanSpecs[q].id
    ensures forall x :: 0 <= x < |spec.beanDefinitions| ==> Scheduled(spec.beanSpecs, x)
  {
    var deps := ResolveAll(spec.typeBeanIdMap, spec.beanDefinitions).value;
    var leveled := Levels(deps).value;
    var bs := spec.beanSpecs;
    forall p | 0 <= p < |bs|
      ensures bs[p].id < |leveled| && bs[p] == leveled[bs[p].id]
    {
      MultisetMember(bs, leveled, bs[p]);
      var a :| 0 <= a < |leveled| && leveled[a] == bs[p];
    }
    forall p, q | 0 <= p < q < |bs| ensures bs[p].id != bs[q].id {
      if bs[p].id == bs[q].id {
        assert false;
      }
    }
    assert |leveled| == |spec.beanDefinitions| by {
      assert |multiset(leveled)| == |multiset(bs)|;
    }
    forall x | 0 <= x < |spec.beanDefinitions| ensures Scheduled(bs, x) {
      MultisetMember(leveled, bs, leveled[x]);
      var p :| 0 <= p < |bs| && bs[p] == leveled[x];
    }
  }

  // ---------------------------------------------------------------------------------------
  // The builder

  /**
    What the builder keeps true between calls: one id per definition, the indexes exact, and
    the layout and offsets those of packing the definitions' layouts from `Start`.
  */
  ghost predicate ValidParts(defs: seq<Definition>, offsets: seq<nat>, layout: Layout, typeMap: TypeBeanIdMap, nameMap: NameBeanIdMap)
  {
    && ValidLayouts(defs)
    && Indexed(defs, typeMap, nameMap)
    && Pack(LayoutsOf(defs)) == Some(Packing(layout, offsets))
  }

  /** The slots of a valid builder are aligned, in registration order, disjoint, and inside the data block. */
  lemma ValidPartsPacked(defs: seq<Definition>, offsets: seq<nat>, layout: Layout, typeMap: TypeBeanIdMap, nameMap: NameBeanIdMap)
    requires ValidParts(defs, offsets, layout, typeMap, nameMap)
    ensures Packed(LayoutsOf(defs), offsets, layout) && layout.Valid()
  {
    PackIsPacked(LayoutsOf(defs));
  }

  class ContainerSpecBuilder {
    var nextId: nat
    var definitions: seq<Definition>
    var beanOffsets: seq<nat>
    var typeBeanIdMap: TypeBeanIdMap
    var nameBeanIdMap: NameBeanIdMap
    var dataLayout: Layout

    ghost predicate Valid()
      reads this
    {
      nextId == |definitions| && ValidParts(definitions, beanOffsets, dataLayout, typeBeanIdMap, nameBeanIdMap)
    }

    /** `ContainerSpecBuilder::new`: no definitions, empty indexes, the layout `Start`. */
    constructor ()
      ensures Valid()
      ensures nextId == 0 && definitions == [] && beanOffsets == []
      ensures typeBeanIdMap == map[] && nameBeanIdMap == map[] && dataLayout == Start
    {
      nextId := 0;
      definitions := [];
      beanOffsets := [];
      typeBeanIdMap := map[];
      nameBeanIdMap := map[];
      dataLayout := Start;
      new;
      assert LayoutsOf(definitions) == [];
    }

    /**
      `append`: extending the layout comes first (`LayoutError`), then the name check
      (`DuplicateBeanName`, whose both type names are the new definition's); only then is
      anything changed: the definition gets the next id, its slot, and its index entries.
    */
    method Append(definition: Definition) returns (r: Result<nat, ContainerError>)
      requires Valid() && definition.layout.Valid()
      modifies this
      ensures Valid()
      ensures Extend(old(dataLayout), definition.layout).None? ==>
        r == Failure(LayoutError) && unchanged(this)
      ensures Extend(old(dataLayout), definition.layout).Some? && definition.name in old(nameBeanIdMap) ==>
        r == Failure(DuplicateBeanName(definition.name, definition.typeName, definition.typeName)) && unchanged(this)
      ensures Extend(old(dataLayout), definition.layout).Some? && definition.name !in old(nameBeanIdMap) ==>
        var e := Extend(old(dataLayout), definition.layout).value;
        var inner := if definition.typeId in old(typeBeanIdMap) then old(typeBeanIdMap)[definition.typeId] else map[];
        && r == Success(old(nextId))
        && nextId == old(nextId) + 1
        && definitions == old(definitions) + [definition]
        && beanOffsets == old(beanOffsets) + [e.offset]
        && dataLayout == e.layout
        && nameBeanIdMap == old(nameBeanIdMap)[definition.name := old(nextId)]
        && typeBeanIdMap == old(typeBeanIdMap)[definition.typeId := inner[definition.name := old(nextId)]]
    {
      var beanId := nextId;
      var extended := Extend(dataLayout, definition.layout);
      if extended.None? {
        return Failure(LayoutError);
      }
      var newLayout, offset := extended.value.layout, extended.value.offset;
      if definition.name in nameBeanIdMap {
        var duplicateTypeName := definition.typeName;
        return Failure(DuplicateBeanName(definition.name, definition.typeName, duplicateTypeName));
      }
      AppendKeepsValidParts(definitions, beanOffsets, dataLayout, definition);
      var inner := if definition.typeId in typeBeanIdMap then typeBeanIdMap[definition.typeId] else map[];
      // names are unique across all types, so the name is new under this type as well
      assert definition.name !in inner;
      typeBeanIdMap := typeBeanIdMap[definition.typeId := inner[definition.name := beanId]];
      nameBeanIdMap := nameBeanIdMap[definition.name := beanId];
      definitions := definitions + [definition];
      nextId := nextId + 1;
      dataLayout := newLayout;
      beanOffsets := beanOffsets + [offset];
      return Success(beanId);
    }

    /**
      `build`: resolve every dependency, level the beans, sort them by level; proved to compute
      `PlanSpec`, so a successful plan is well planned.
    */
    method Build() returns (r: Result<ContainerSpec, ContainerError>)
      requires Valid()
      ensures r == PlanSpec(definitions, typeBeanIdMap, nameBeanIdMap, dataLayout, beanOffsets)
      ensures r.Success? ==> WellPlanned(r.value)
    {
      var err, specs, scanIds, deps := ResolveDependencies(typeBeanIdMap, definitions);
      if err.Some? {
        r := Failure(err.value);
        return;
      }
      var leveled := LevelSpecs(scanIds, specs);
      assert leveled == Levels(deps);
      if leveled.Failure? {
        r := Failure(leveled.error);
        return;
      }
      var beanSpecs := SortByLevel(leveled.value);
      r := Success(ContainerSpec(dataLayout, beanSpecs, definitions, beanOffsets, typeBeanIdMap, nameBeanIdMap));
      PlanSpecOutcome(definitions, typeBeanIdMap, nameBeanIdMap, dataLayout, beanOffsets);
    }
  }

  /**
    The first loop of `build`: each definition's queries resolved with `find`, stopping at the
    first failure, and for each definition an unleveled spec (level `usize::MAX`) and a scan entry.
  */
  method ResolveDependencies(typeMap: TypeBeanIdMap, defs: seq<Definition>)
    returns (err: Option<ContainerError>, specs: seq<BeanSpec>, scanIds: seq<nat>, ghost deps: seq<seq<nat>>)
    ensures err.Some? <==> ResolveAll(typeMap, defs).Failure?
    ensures err.Some? ==> ResolveAll(typeMap, defs) == Failure(err.value)
    ensures err.None? ==> ResolveAll(typeMap, defs) == Success(deps)
    ensures err.None? ==> ScanState(scanIds, {}, specs, |defs|) == InitialState(deps)
  {
    specs, scanIds, deps := [], [], [];
    for idx := 0 to |defs|
      invariant |deps| == idx
      invariant ResolveAllFrom(typeMap, defs, idx, deps) == ResolveAll(typeMap, defs)
      invariant scanIds == seq(idx, i => i)
      invariant specs == seq(idx, i requires 0 <= i < idx => BeanSpec(i, deps[i], USIZE_MAX))
    {
      var qs := defs[idx].dependencies;
      var dependencies: seq<nat> := [];
      for k := 0 to |qs|
        invariant ResolveFrom(typeMap, qs, k, dependencies) == ResolveDeps(typeMap, qs)
      {
        var id := Find(typeMap, qs[k]);
        if id.Failure? {
          err := Some(id.error);
          return;
        }
        dependencies := dependencies + [id.value];
      }
      scanIds := scanIds + [idx];
      specs := specs + [BeanSpec(idx, dependencies, USIZE_MAX)];
      deps := deps + [dependencies];
    }
    err := None;
  }

  /**
    The leveling loops of `build`: passes over the not-yet-ready part of `scanIds`, each
    readying every bean whose dependencies are all ready and swapping it past `tail`.
  */
  method LevelSpecs(scanIds: seq<nat>, specs: seq<BeanSpec>) returns (r: Result<seq<BeanSpec>, ContainerError>)
    requires WellFormed(ScanState(scanIds, {}, specs, |scanIds|))
    ensures r == Leveling(ScanState(scanIds, {}, specs, |scanIds|), 0)
  {
    var scanIds, specs := scanIds, specs;
    var readyIds: set<nat> := {};
    var tail: nat := |scanIds|;
    var level: nat := 0;
    ghost var start := ScanState(scanIds, readyIds, specs, tail);
    while tail > 0
      invariant WellFormed(ScanState(scanIds, readyIds, specs, tail))
      invariant Leveling(ScanState(scanIds, readyIds, specs, tail), level) == Leveling(start, 0)
      decreases tail
    {
      var someReady;
      scanIds, readyIds, specs, tail, someReady := ScanPass(scanIds, readyIds, specs, tail, level);
      if !someReady {
        return Failure(LoopDependency);
      }
      level := level + 1;
    }
    return Success(specs);
  }

  /**
    One pass of the outer loop of `build`: scan `scan_ids[0..tail)`, readying each bean whose
    dependencies are all ready by giving it `level` and swapping it behind the shrinking tail.
  */
  method ScanPass(scanIds: seq<nat>, readyIds: set<nat>, specs: seq<BeanSpec>, tail: nat, level: nat)
    returns (scanIds': seq<nat>, readyIds': set<nat>, specs': seq<BeanSpec>, tail': nat, someReady: bool)
    requires WellFormed(ScanState(scanIds, readyIds, specs, tail))
    ensures WellFormed(ScanState(scanIds', readyIds', specs', tail'))
    ensures (ScanState(scanIds', readyIds', specs', tail'), someReady) == Pass(ScanState(scanIds, readyIds, specs, tail), 0, level, false)
  {
    scanIds', readyIds', specs', tail' := scanIds, readyIds, specs, tail;
    ghost var passStart := ScanState(scanIds, readyIds, specs, tail);
    someReady := false;
    var head: nat := 0;
    while head < tail'
      invariant head <= tail'
      invariant WellFormed(ScanState(scanIds', readyIds', specs', tail'))
      invariant Pass(ScanState(scanIds', readyIds', specs', tail'), head, level, someReady) == Pass(passStart, 0, level, false)
      decreases tail' - head
    {
      var info := specs'[scanIds'[head]];
      var ready := DependenciesReady(info.dependencies, readyIds');
      if ready {
        someReady := true;
        specs' := specs'[scanIds'[head] := info.(level := level)];
        readyIds' := readyIds' + {info.id};
        tail' := tail' - 1;
        scanIds' := Swap(scanIds', head, tail');
      } else {
        head := head + 1;
      }
    }
  }

  /** The inner loop of `build`: whether every dependency is among the ready ids, stopping at the first that is not. */
  method DependenciesReady(dependencies: seq<nat>, readyIds: set<nat>) returns (ready: bool)
    ensures ready == AllReady(dependencies, readyIds)
  {
    for j := 0 to |dependencies|
      invariant forall i :: 0 <= i < j ==> dependencies[i] in readyIds
    {
      if dependencies[j] !in readyIds {
        return false;
      }
    }
    return true;
  }

  /** Registering a definition under a fresh name, when its slot fits, keeps the builder valid. */
  lemma {:induction false} AppendKeepsValidParts(defs: seq<Definition>, offsets: seq<nat>, layout: Layout, d: Definition)
    requires ValidParts(defs, offsets, layout, TypeMapOf(defs), NameMapOf(defs))
    requires d.layout.Valid() && Extend(layout, d.layout).Some? && d.name !in NameMapOf(defs)
    ensures d.typeId in TypeMapOf(defs) ==> d.name !in TypeMapOf(defs)[d.typeId]
    ensures var e := Extend(layout, d.layout).value;
      var id := |defs|;
      var typeMap := TypeMapOf(defs);
      var inner := if d.typeId in typeMap then typeMap[d.typeId] else map[];
      ValidParts(defs + [d], offsets + [e.offset], e.layout,
        typeMap[d.typeId := inner[d.name := id]], NameMapOf(defs)[d.name := id])
  {
    FreshName(defs, d);
    var defs' := defs + [d];
    assert defs'[..|defs|] == defs;
    assert LayoutsOf(defs')[..|defs|] == LayoutsOf(defs);
  }
}
