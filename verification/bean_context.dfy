/**
  The lazy initialisation context of `bean.rs`. Each bean type has a factory and a holder (a
  `OnceLock` static); `Context::init` builds a bean on first request, building the beans its
  factory asks for on the way, and keeps a stack of the beans being built to report a bean that
  needs itself. A factory is modelled as the list of bean types it initialises, in order and
  stopping at the first error (its `?`), followed by the result it returns.
*/
module BeanContext {
  import opened Wrappers
  import BeanTypes

  type TypeId = BeanTypes.TypeId
  type Name = BeanTypes.Name

  /** `BeanId`: a bean's name and type. */
  datatype BeanId = BeanId(name: Name, typeId: TypeId)

  /** `bean::BeanDefinition`. */
  datatype BeanDefinition = BeanDefinition(beanId: BeanId, typeName: Name)

  /** A bean type: its `TypeId`, its `type_name`, and the name its `Bean::name` returns if overridden. */
  datatype BeanType = BeanType(typeId: TypeId, typeName: Name, customName: Option<Name>)

  /** A built bean; only its identity matters here. */
  type Value = int

  /**
    `IocError`: the two variants `error.rs` declares, and the two `bean.rs` raises without
    declaring them.
  */
  datatype IocError = DependNotReady(typeName: Name) | CircularDependency | NotFound(typeName: Name) | Unknown

  /** A bean factory: the bean types its `build` initialises, in order, then what it returns. */
  datatype Factory = Factory(dependencies: seq<BeanType>, product: Result<Value, IocError>)

  /** `Bean::name`: the type name unless the bean type overrides it. */
  function BeanName(b: BeanType): (n: Name)
    ensures b.customName.None? ==> n == b.typeName
    ensures b.customName.Some? ==> n == b.customName.value
  {
    if b.customName.Some? then b.customName.value else b.typeName
  }

  /** `definition::<B>()`: the bean's id is its name and its type; its type name is kept beside. */
  function Definition(b: BeanType): (d: BeanDefinition)
    ensures d.beanId.typeId == b.typeId && d.typeName == b.typeName
    ensures d.beanId.name == BeanName(b)
  {
    BeanDefinition(BeanId(BeanName(b), b.typeId), b.typeName)
  }

  /** Two bean types without overridden names have the same definition exactly when they are the same type. */
  lemma DefinitionIdentifiesType(a: BeanType, b: BeanType)
    requires a.customName.None? && b.customName.None?
    ensures Definition(a) == Definition(b) <==> a == b
  {
  }

  /** The test `it_works`: the definition of `A` carries its full type name and its `TypeId`. */
  lemma ItWorksDefinition(a: TypeId)
    ensures Definition(BeanType(a, "ioc_core::bean::tests::A", None)) ==
      BeanDefinition(BeanId("ioc_core::bean::tests::A", a), "ioc_core::bean::tests::A")
  {
  }

  /** The ids of the definitions of a list. */
  function IdsOf(s: seq<BeanDefinition>): set<BeanId>
    decreases |s|
  {
    if s == [] then {} else IdsOf(s[..|s| - 1]) + {s[|s| - 1].beanId}
  }

  /** Every bean type a factory initialises has a factory, and a `TypeId` names one bean type. */
  ghost predicate FactoriesClosed(factories: map<BeanType, Factory>)
  {
    && (forall h, d :: h in factories && d in factories[h].dependencies ==> d in factories)
    && (forall a, b :: a in factories && b in factories && a.typeId == b.typeId ==> a == b)
  }

  /** Every dependency is already ready. */
  ghost predicate AllReady(dependencies: seq<BeanType>, readyIds: set<BeanId>)
  {
    forall i :: 0 <= i < |dependencies| ==> Definition(dependencies[i]).beanId in readyIds
  }

  /**
    What running factory `f`'s `build` came to, judged by the ready and pending sets afterwards:
    once every dependency is ready, the factory's own result; otherwise a failure at the first
    dependency left unready (every one before it is ready), which is a `CircularDependency`
    when that dependency is still pending.
  */
  ghost predicate BuildOutcome(f: Factory, r: Result<Value, IocError>, readyIds: set<BeanId>, pendingIds: set<BeanId>)
  {
    if AllReady(f.dependencies, readyIds) then r == f.product
    else
      && r.Failure?
      && exists i :: 0 <= i < |f.dependencies| && AllReady(f.dependencies[..i], readyIds)
           && Definition(f.dependencies[i]).beanId !in readyIds
           && (Definition(f.dependencies[i]).beanId in pendingIds ==> r == Failure(CircularDependency))
  }

  /** Every error is a `CircularDependency` or the result some factory itself returns. */
  ghost predicate Explained(factories: map<BeanType, Factory>, r: Result<Value, IocError>)
  {
    r.Failure? ==> r == Failure(CircularDependency) || exists g :: g in factories && factories[g].product == r
  }

  /** Readiness of the dependencies survives beans being made ready. */
  lemma AllReadyGrows(dependencies: seq<BeanType>, ready: set<BeanId>, ready': set<BeanId>)
    requires AllReady(dependencies, ready) && ready <= ready'
    ensures AllReady(dependencies, ready')
  {
  }

  /** One more dependency made ready extends the ready prefix by one. */
  lemma AllReadyStep(dependencies: seq<BeanType>, i: nat, ready: set<BeanId>)
    requires i < |dependencies| && AllReady(dependencies[..i], ready)
    requires Definition(dependencies[i]).beanId in ready
    ensures AllReady(dependencies[..i + 1], ready)
  {
    assert forall j :: 0 <= j < i ==> dependencies[..i + 1][j] == dependencies[..i][j];
  }

  /** A build that stops at dependency `i`, the first one left unready, has that outcome. */
  lemma BuildStopsAt(f: Factory, i: nat, r: Result<Value, IocError>, ready: set<BeanId>, pending: set<BeanId>)
    requires i < |f.dependencies| && AllReady(f.dependencies[..i], ready)
    requires Definition(f.dependencies[i]).beanId !in ready
    requires r.Failure? && (Definition(f.dependencies[i]).beanId in pending ==> r == Failure(CircularDependency))
    ensures BuildOutcome(f, r, ready, pending)
  {
  }

  /** A build that got through every dependency has the factory's own result. */
  lemma BuildCompletes(f: Factory, ready: set<BeanId>, pending: set<BeanId>)
    requires AllReady(f.dependencies[..|f.dependencies|], ready)
    ensures BuildOutcome(f, f.product, ready, pending)
  {
    assert f.dependencies[..|f.dependencies|] == f.dependencies;
  }

  /** More ready beans keep a success explained; fewer pending beans keep a failure explained. */
  lemma BuildOutcomeKept(f: Factory, r: Result<Value, IocError>, ready: set<BeanId>, pending: set<BeanId>,
                         ready': set<BeanId>, pending': set<BeanId>)
    requires BuildOutcome(f, r, ready, pending)
    requires r.Success? ==> ready <= ready'
    requires r.Failure? ==> ready' == ready && pending' <= pending
    ensures BuildOutcome(f, r, ready', pending')
  {
    if r.Success? {
      assert AllReady(f.dependencies, ready);
    }
  }

  /** `m` keeps every entry of `m0`: a `OnceLock` once set is never changed. */
  ghost predicate Extends(m0: map<TypeId, Value>, m: map<TypeId, Value>)
  {
    forall t :: t in m0 ==> t in m && m[t] == m0[t]
  }

  lemma IdsOfAppend(s: seq<BeanDefinition>, d: BeanDefinition)
    ensures IdsOf(s + [d]) == IdsOf(s) + {d.beanId}
  {
    assert (s + [d])[..|s|] == s;
  }

  /** The id of every entry of a list is among its ids. */
  lemma {:induction false} IdsOfHas(s: seq<BeanDefinition>, i: nat)
    requires i < |s|
    ensures s[i].beanId in IdsOf(s)
    decreases |s|
  {
    if i < |s| - 1 {
      IdsOfHas(s[..|s| - 1], i);
    }
  }

  /** Every id of a list belongs to one of its entries. */
  lemma {:induction false} IdsOfOnly(s: seq<BeanDefinition>, x: BeanId)
    requires x in IdsOf(s)
    ensures exists i :: 0 <= i < |s| && s[i].beanId == x
    decreases |s|
  {
    if x != s[|s| - 1].beanId {
      IdsOfOnly(s[..|s| - 1], x);
      var i :| 0 <= i < |s| - 1 && s[..|s| - 1][i].beanId == x;
      assert s[i].beanId == x;
    }
  }

  lemma MeasureDrops(u: set<BeanId>, p: set<BeanId>, x: BeanId)
    requires x in u && x !in p
    ensures |u - (p + {x})| < |u - p|
  {
    assert u - (p + {x}) == (u - p) - {x};
  }

  class Context {
    var readyBeans: seq<BeanDefinition>
    var pendingBeanStack: seq<BeanDefinition>
    var readyBeanIds: set<BeanId>
    var pendingBeanIds: set<BeanId>
    /** The holders of the bean types, by `TypeId` (statics in the source, shared by all contexts). */
    var holders: map<TypeId, Value>
    /** The factory of each bean type. */
    const factories: map<BeanType, Factory>

    /**
      The id sets mirror the list and the stack, no bean is both ready and pending, and every
      ready bean's holder is set.
    */
    ghost predicate Valid()
      reads this
    {
      && FactoriesClosed(factories)
      && readyBeanIds == IdsOf(readyBeans)
      && pendingBeanIds == IdsOf(pendingBeanStack)
      && readyBeanIds !! pendingBeanIds
      && (forall i :: 0 <= i < |readyBeans| ==> readyBeans[i].beanId.typeId in holders)
    }

    /** The ids of every bean type with a factory; `init` can only recurse while some are not pending. */
    ghost function Universe(): set<BeanId>
    {
      set h | h in factories :: Definition(h).beanId
    }

    /** `Context::new`, over the holders as they stand. */
    constructor(factories: map<BeanType, Factory>, holders: map<TypeId, Value>)
      requires FactoriesClosed(factories)
      ensures Valid()
      ensures this.factories == factories && this.holders == holders
      ensures readyBeans == [] && pendingBeanStack == []
    {
      this.factories := factories;
      this.holders := holders;
      readyBeans := [];
      pendingBeanStack := [];
      readyBeanIds := {};
      pendingBeanIds := {};
    }

    /**
      `try_get`: the holder's bean, or `DependNotReady` with the type name when the holder is
      empty.
    */
    function TryGet(h: BeanType): (r: Result<Value, IocError>)
      reads this
      ensures r.Failure? <==> h.typeId !in holders
      ensures r.Failure? ==> r.error == DependNotReady(h.typeName)
      ensures r.Success? ==> r.value == holders[h.typeId]
    {
      if h.typeId in holders then Success(holders[h.typeId]) else Failure(DependNotReady(h.typeName))
    }

    /** In a valid context `try_get` of a ready bean finds its holder set. */
    lemma ReadyHasHolder(h: BeanType)
      requires Valid() && Definition(h).beanId in readyBeanIds
      ensures TryGet(h).Success?
    {
      IdsOfOnly(readyBeans, Definition(h).beanId);
    }

    /**
      `pending`: push the definition on the stack and its id into the pending set; a valid
      context stays valid when the bean was neither ready nor pending.
    */
    method Pending(d: BeanDefinition)
      modifies this
      ensures pendingBeanStack == old(pendingBeanStack) + [d]
      ensures pendingBeanIds == old(pendingBeanIds) + {d.beanId}
      ensures readyBeans == old(readyBeans) && readyBeanIds == old(readyBeanIds) && holders == old(holders)
      ensures old(Valid()) && d.beanId !in old(readyBeanIds) && d.beanId !in old(pendingBeanIds) ==> Valid()
    {
      IdsOfAppend(pendingBeanStack, d);
      pendingBeanIds := pendingBeanIds + {d.beanId};
      pendingBeanStack := pendingBeanStack + [d];
    }

    /**
      `remove_pending`: pop the stack; it panics if the stack was empty or its top was not `d`,
      and otherwise removes `d`'s id from the pending set, which keeps a valid context valid
      when no other entry of the stack has that id.
    */
    method RemovePending(d: BeanDefinition) returns (panicked: bool)
      modifies this
      ensures panicked <==> old(pendingBeanStack) == [] || old(pendingBeanStack)[|old(pendingBeanStack)| - 1] != d
      ensures old(pendingBeanStack) != [] ==> pendingBeanStack == old(pendingBeanStack)[..|old(pendingBeanStack)| - 1]
      ensures old(pendingBeanStack) == [] ==> pendingBeanStack == []
      ensures pendingBeanIds == if panicked then old(pendingBeanIds) else old(pendingBeanIds) - {d.beanId}
      ensures readyBeans == old(readyBeans) && readyBeanIds == old(readyBeanIds) && holders == old(holders)
      ensures old(Valid()) && !panicked && d.beanId !in IdsOf(pendingBeanStack) ==> Valid()
    {
      if |pendingBeanStack| == 0 {
        return true;
      }
      var last := pendingBeanStack[|pendingBeanStack| - 1];
      pendingBeanStack := pendingBeanStack[..|pendingBeanStack| - 1];
      if d == last {
        IdsOfAppend(pendingBeanStack, d);
        assert old(pendingBeanStack) == pendingBeanStack + [d];
        pendingBeanIds := pendingBeanIds - {last.beanId};
        return false;
      }
      return true;
    }

    /**
      The last step of a successful `init`: insert the id into the ready set and push the
      definition on `ready_beans`; a valid context stays valid when the bean is not pending and
      its holder is set.
    */
    method MarkReady(d: BeanDefinition)
      modifies this
      ensures readyBeanIds == old(readyBeanIds) + {d.beanId} && readyBeans == old(readyBeans) + [d]
      ensures pendingBeanStack == old(pendingBeanStack) && pendingBeanIds == old(pendingBeanIds) && holders == old(holders)
      ensures old(Valid()) && d.beanId !in old(pendingBeanIds) && d.beanId.typeId in old(holders) ==> Valid()
    {
      IdsOfAppend(readyBeans, d);
      readyBeanIds := readyBeanIds + {d.beanId};
      readyBeans := readyBeans + [d];
    }

    /**
      `Context::init::<H>`. A ready bean is not built again: the result is `try_get`. A pending
      bean is a `CircularDependency` and nothing changes. Any other bean is initialised by
      `InitNew`. The pending stack and set are always as before, no ready bean is forgotten and
      no holder changes once set.
    */
    method Init(h: BeanType) returns (r: Result<Value, IocError>)
      requires Valid() && h in factories
      modifies this
      decreases |Universe() - pendingBeanIds|, 1
      ensures Valid()
      ensures pendingBeanStack == old(pendingBeanStack) && pendingBeanIds == old(pendingBeanIds)
      ensures old(readyBeans) <= readyBeans && old(readyBeanIds) <= readyBeanIds && Extends(old(holders), holders)
      ensures Explained(factories, r)
      ensures r.Success? ==> h.typeId in holders && holders[h.typeId] == r.value
      ensures Definition(h).beanId in old(readyBeanIds) ==>
        r == old(TryGet(h)) && readyBeans == old(readyBeans) && holders == old(holders)
      ensures Definition(h).beanId !in old(readyBeanIds) && Definition(h).beanId in old(pendingBeanIds) ==>
        r == Failure(CircularDependency) && readyBeans == old(readyBeans) && holders == old(holders)
      ensures Definition(h).beanId !in old(readyBeanIds) && Definition(h).beanId !in old(pendingBeanIds) ==>
        && (r.Success? <==> Definition(h).beanId in readyBeanIds)
        && (r.Success? ==> readyBeans[|readyBeans| - 1] == Definition(h))
        && (h.typeId in old(holders) ==> r == Success(old(holders)[h.typeId]) && readyBeans == old(readyBeans) + [Definition(h)])
        && (h.typeId !in old(holders) ==> BuildOutcome(factories[h], r, readyBeanIds, pendingBeanIds))
        && (h.typeId !in old(holders) && AllReady(factories[h].dependencies, old(readyBeanIds)) ==>
              && r == factories[h].product
              && readyBeans == old(readyBeans) + (if r.Success? then [Definition(h)] else []))
    {
      var definition := Definition(h);
      if definition.beanId in readyBeanIds {
        ReadyHasHolder(h);
        return TryGet(h);
      }
      if definition.beanId in pendingBeanIds {
        return Failure(CircularDependency);
      }
      r := InitNew(h);
    }

    /**
      The rest of `init`, for a bean neither ready nor pending: push it as pending, fill its
      holder, pop it again (which cannot panic, the stack being back as it was), and make it
      ready, as the last entry of `ready_beans`, exactly when the holder was filled.
    */
    method InitNew(h: BeanType) returns (r: Result<Value, IocError>)
      requires Valid() && h in factories
      requires Definition(h).beanId !in readyBeanIds && Definition(h).beanId !in pendingBeanIds
      modifies this
      decreases |Universe() - pendingBeanIds|, 0
      ensures Valid()
      ensures pendingBeanStack == old(pendingBeanStack) && pendingBeanIds == old(pendingBeanIds)
      ensures old(readyBeans) <= readyBeans && old(readyBeanIds) <= readyBeanIds && Extends(old(holders), holders)
      ensures Explained(factories, r)
      ensures r.Success? ==> h.typeId in holders && holders[h.typeId] == r.value
      ensures r.Success? <==> Definition(h).beanId in readyBeanIds
      ensures r.Success? ==> readyBeans[|readyBeans| - 1] == Definition(h)
      ensures h.typeId in old(holders) ==> r == Success(old(holders)[h.typeId]) && readyBeans == old(readyBeans) + [Definition(h)]
      ensures h.typeId !in old(holders) ==> BuildOutcome(factories[h], r, readyBeanIds, pendingBeanIds)
      ensures h.typeId !in old(holders) && AllReady(factories[h].dependencies, old(readyBeanIds)) ==>
        && r == factories[h].product
        && readyBeans == old(readyBeans) + (if r.Success? then [Definition(h)] else [])
    {
      var definition := Definition(h);
      ghost var stack0 := pendingBeanStack;
      MeasureDrops(Universe(), pendingBeanIds, definition.beanId);
      Pending(definition);
      r := Fill(h);
      ghost var ready1, pending1 := readyBeanIds, pendingBeanIds;
      var panicked := RemovePending(definition);
      assert pendingBeanStack == stack0;
      if r.Success? {
        MarkReady(definition);
      }
      assert ready1 <= readyBeanIds && pendingBeanIds <= pending1;
      if h.typeId !in old(holders) {
        BuildOutcomeKept(factories[h], r, ready1, pending1, readyBeanIds, pendingBeanIds);
      }
    }

    /**
      `holder.get_or_try_init(|| build)`, while `h` is pending: a holder already set gives its
      bean and nothing is built; otherwise the factory runs and, if it succeeds, its bean fills
      the holder.
    */
    method Fill(h: BeanType) returns (r: Result<Value, IocError>)
      requires Valid() && h in factories && Definition(h).beanId in pendingBeanIds
      modifies this
      decreases |Universe() - pendingBeanIds|, 3
      ensures Valid()
      ensures pendingBeanStack == old(pendingBeanStack) && pendingBeanIds == old(pendingBeanIds)
      ensures old(readyBeans) <= readyBeans && old(readyBeanIds) <= readyBeanIds && Extends(old(holders), holders)
      ensures Explained(factories, r)
      ensures r.Success? ==> h.typeId in holders && holders[h.typeId] == r.value
      ensures h.typeId in old(holders) ==> r == Success(old(holders)[h.typeId]) && readyBeans == old(readyBeans)
      ensures h.typeId !in old(holders) ==> BuildOutcome(factories[h], r, readyBeanIds, pendingBeanIds)
      ensures h.typeId !in old(holders) && AllReady(factories[h].dependencies, old(readyBeanIds)) ==>
        r == factories[h].product && readyBeans == old(readyBeans)
    {
      if h.typeId in holders {
        return Success(holders[h.typeId]);
      }
      r := Build(h);
      if r.Success? {
        holders := holders[h.typeId := r.value];
      }
    }

    /**
      The factory's `build` for `h`, run while `h` is pending: initialise each dependency in
      order, return the first error, else the factory's result. A factory whose dependencies
      are all ready changes nothing and returns its result; otherwise the result is the build
      outcome over the beans made ready on the way.
    */
    method Build(h: BeanType) returns (r: Result<Value, IocError>)
      requires Valid() && h in factories && Definition(h).beanId in pendingBeanIds
      modifies this
      decreases |Universe() - pendingBeanIds|, 2
      ensures Valid()
      ensures pendingBeanStack == old(pendingBeanStack) && pendingBeanIds == old(pendingBeanIds)
      ensures old(readyBeans) <= readyBeans && old(readyBeanIds) <= readyBeanIds && Extends(old(holders), holders)
      ensures Explained(factories, r)
      ensures BuildOutcome(factories[h], r, readyBeanIds, pendingBeanIds)
      ensures AllReady(factories[h].dependencies, old(readyBeanIds)) ==>
        r == factories[h].product && readyBeans == old(readyBeans) && holders == old(holders)
    {
      var dependencies := factories[h].dependencies;
      for i := 0 to |dependencies|
        invariant Valid()
        invariant pendingBeanStack == old(pendingBeanStack) && pendingBeanIds == old(pendingBeanIds)
        invariant old(readyBeans) <= readyBeans && old(readyBeanIds) <= readyBeanIds && Extends(old(holders), holders)
        invariant AllReady(dependencies[..i], readyBeanIds)
        invariant AllReady(dependencies, old(readyBeanIds)) ==> readyBeans == old(readyBeans) && holders == old(holders)
      {
        ghost var before := readyBeanIds;
        var dependency := dependencies[i];
        if Definition(dependency).beanId in readyBeanIds {
          ReadyHasHolder(dependency);
        }
        var d := Init(dependency);
        AllReadyGrows(dependencies[..i], before, readyBeanIds);
        if d.Failure? {
          BuildStopsAt(factories[h], i, Failure(d.error), readyBeanIds, pendingBeanIds);
          return Failure(d.error);
        }
        AllReadyStep(dependencies, i, readyBeanIds);
      }
      BuildCompletes(factories[h], readyBeanIds, pendingBeanIds);
      return factories[h].product;
    }
  }
}
