# ioc: the bean container, modelled in Dafny

`ioc` assembles a fixed set of interdependent values ("beans") into one process. This project
models its core and proves properties of the model.

**The planner** (`ioc_core/src/container/spec.rs`) registers bean definitions and packs every
bean into one arena:
- each slot's offset is the running `Layout` size rounded up to the bean's alignment;
- the arena starts at size 0, align 8.

It resolves every dependency query against a type index and a name index. It then levels the
beans with a swap-based scan that detects cycles, and sorts them stably by level.

**The runtime container** (`ioc_core/src/container/mod.rs`):
- runs one init method per bean in the planned order against a freshly allocated block;
- gives each init method a retriever that resolves queries and slot addresses;
- on drop, runs every drop method in reverse order.

**Related components:**
- the two older planners (`ioc_core/src/container.rs`, repeated in `ioc_core/src/container2.rs`);
- their lookups and the self-relative `Ref` type;
- the `ContainerBuilder::new` of `container2.rs`;
- the lazily initialising `Context` of `ioc_core/src/bean.rs`;
- the `#[bean]` check on hand-written `BeanSpec` impl blocks (`ioc_core/derive/src/custom.rs`);
- the two module scanners of `ioc_scan` (`scan.rs` and `module.rs`), which map `mod m;`
  declarations to files.

**How the model is built:**
- `TypeId`s are integers and names are strings. Hash maps are Dafny maps.
- Memory is abstract. The data block is a base address plus a size. Each slot is `Uninit`,
  `Built` or `Dropped`. Init and drop calls are recorded as a sequence of events with the bean
  and the address.
- The imperative parts keep their form:
  - the spec builder, the container builder, the container, the retriever, the lazy context and
    the scanners' visitors are classes whose methods update fields;
  - the registration, resolution and leveling loops are methods with loop invariants.
- Each imperative part is proved against a functional twin: `PlanSpec`, `Leveling`, `RunInits`,
  `DropEvents`, `Register`, `LegacyLeveling`, `NewInfo`, `PatchResult`. The properties are lemmas
  about those twins. `PlanInfo` is the corrected planner listed under Findings.

**Behaviours modelled as the code is written:**
- **Levels can tie across a dependency.** `ready_ids` gets a bean's id in the middle of a pass
  (`ioc_core/src/container/spec.rs:180`). A later bean in the same pass can then depend on it
  and still get the same level. `bean_specs` is filled in id order (`spec.rs:146-160`), and the
  stable `sort_by` on level (`spec.rs:194`) keeps tied beans in id order. So a dependent whose id
  is lower than its dependency's is built first whenever the two tie. The model proves "a
  dependency's level is at most its dependent's level", not "a dependency is built first".
  `SpecLeveling.TieExample` shows B, C (id 1, depends on A), A (id 2) all at level 0, with C
  sorted before A.
- **A failed init does not roll back.** The `?` after `init_method(&mut retriver)` in
  `BeanContainerBuilder::build` (`ioc_core/src/container/mod.rs:221`, in the loop at lines 217-223) returns at once.
  Nothing on that path calls a drop method for the beans already built, and the container that
  would own them is never made. `BeanContainerBuilder.Build` returns the run's events, which hold
  only `Init` events.
- **`query` on a name looks up the name index and then compares the type.** It does not look
  under the type. On success this agrees with `find`; on failure the two can report different
  errors (`QueryAgreesWithFind`).
- **`spec.rs` reports `DuplicateBeanName` with the new definition's type name in both type
  fields.** There is no separate duplicate-type error there.
- **`bean.rs` does not compile as written.** It calls `push_back` on a `HashSet`, `H::build` is
  not declared, and two `IocError` variants are missing. The model follows the evident intent:
  - `pending` inserts the id and pushes the definition;
  - the build is the factory's `build`;
  - the errors are `DependNotReady` and `CircularDependency`.

## Model

| member | source | states |
|---|---|---|
| Layouts.FromSizeAlign | ioc_core/src/container/spec.rs:94 | a layout exists exactly when the alignment is a power of two and the size padded to it stays within `isize::MAX`; it then has that size and alignment |
| Layouts.StartValid | ioc_core/src/container/spec.rs:94 | the starting layout (size 0, align 8) is a valid layout |
| Layouts.RoundUp | ioc_core/src/container/spec.rs:105 | the padded size is a multiple of the alignment, at least the size and less than size + alignment; an aligned size is unchanged |
| Layouts.Extend | ioc_core/src/container/spec.rs:105 | `Layout::extend`: the new slot's offset is aligned for the bean, not below the running size and less than one alignment past it; the new size is offset + bean size, the new alignment the larger one; it fails exactly when the result would pass `isize::MAX` |
| Layouts.Pack | ioc_core/src/container.rs:91-95 | packing a list of layouts from the start gives one offset per layout and a valid total layout |
| Layouts.ExtendKeepsPacked | ioc_core/src/container/spec.rs:105-131 | appending one extended slot keeps every offset aligned, the slots in increasing non-overlapping order and all inside the total size |
| Layouts.PackIsPacked | ioc_core/src/container.rs:91-95 | the offsets packing produces are aligned, in increasing order, non-overlapping and within the total size, which ends at the last slot |
| BeanIndexes.OnlyValue | ioc_core/src/container/spec.rs:48-50 | the one value of a one-entry map is the value under every key |
| BeanIndexes.NameMapOfSpec | ioc_core/src/container/spec.rs:126 | with unique names, the name index maps each registered name to that bean's id and holds nothing else |
| BeanIndexes.TypeMapOfSpec | ioc_core/src/container/spec.rs:117-124 | with unique names, the type index holds each bean under its type and name with its id, holds nothing else, and has no empty inner map |
| BeanIndexes.FreshName | ioc_core/src/container/spec.rs:108-124 | a name not yet in the name index keeps names unique and is not yet under its type in the type index, so the (type, name) insert never collides |
| ContainerSpecs.FindOnlyType | ioc_core/src/container/spec.rs:44-64 | a type-only query gives the id iff exactly one bean has that type, `NoBean` iff none has, `TooManyCandinatedBean` with every name of the type iff two or more have |
| ContainerSpecs.FindNameAndType | ioc_core/src/container/spec.rs:65-83 | a name-and-type query gives the id iff that bean has the type and the name; `NoBean` iff no bean has the type; otherwise `NoBeanWithName` |
| ContainerSpecs.FindInRange | ioc_core/src/container/spec.rs:42-84 | every id `find` returns is a registered bean |
| ContainerSpecs.ResolveDepsSpec | ioc_core/src/container/spec.rs:148-151 | a bean's dependencies resolve iff every query is found, in order, one id per query; otherwise the error is that of the first query that fails |
| ContainerSpecs.ResolveAllSpec | ioc_core/src/container/spec.rs:146-160 | resolution of all beans succeeds with every bean's dependencies resolved, or fails with the error of the first bean whose dependencies do not resolve |
| ContainerSpecs.ResolvedInRange | ioc_core/src/container/spec.rs:146-160 | every resolved dependency is the id of a registered bean |
| ContainerSpecs.ContainerSpecBuilder.constructor | ioc_core/src/container/spec.rs:87-96 | a new builder has no definitions, offsets or index entries, next id 0, and the start layout |
| ContainerSpecs.ContainerSpecBuilder.Append | ioc_core/src/container/spec.rs:98-134 | a layout overflow gives `LayoutError` and a known name gives `DuplicateBeanName`, both changing nothing; otherwise it returns the next id, bumps it, and appends exactly one definition, one aligned offset and one entry to each index; the builder stays valid |
| ContainerSpecs.AppendKeepsValidParts | ioc_core/src/container/spec.rs:102-133 | a successful append keeps definitions, offsets, next id and both indexes in step and the slots packed |
| ContainerSpecs.ValidPartsPacked | ioc_core/src/container/spec.rs:105-131 | a valid builder's offsets are a packing of its definitions' layouts |
| ContainerSpecs.ContainerSpecBuilder.Build | ioc_core/src/container/spec.rs:136-206 | `build` returns the planner's outcome (first resolution error, else `LoopDependency`, else the stably sorted leveled specs), and a success is well planned |
| ContainerSpecs.ResolveDependencies | ioc_core/src/container/spec.rs:146-160 | the resolution loop stops at the first failing query with its error; otherwise every bean gets its resolved dependencies and level `usize::MAX`, and `scan_ids` lists every id |
| ContainerSpecs.LevelSpecs | ioc_core/src/container/spec.rs:162-192 | the leveling loop gives what the leveling function gives: passes until `tail` is 0, `LoopDependency` on a pass that readies nothing |
| ContainerSpecs.ScanPass | ioc_core/src/container/spec.rs:166-186 | one pass over `scan_ids[..tail]` is the pass function's step: ready beans get the level, join `ready_ids` and are swapped behind `tail` |
| ContainerSpecs.DependenciesReady | ioc_core/src/container/spec.rs:170-176 | the inner check is true iff every dependency is in `ready_ids` |
| ContainerSpecs.PlanSpecOutcome | ioc_core/src/container/spec.rs:136-206 | a successful plan is well planned (every bean once, resolved by `find`, leveled no lower than its dependencies, sorted by level with ties in id order); the plan fails with `LoopDependency` iff resolution succeeds and the dependencies have a cycle |
| ContainerSpecs.PlanOrderIsPermutation | ioc_core/src/container/spec.rs:194-201 | the planned order holds every registered id exactly once |
| ContainerSpecs.QueryAgreesWithFind | ioc_core/src/container/spec.rs:218-261 | `query` equals `find` on type-only queries, succeeds exactly when `find` does, and then returns the same id |
| ContainerSpecs.SelfQueryFindsSelf | ioc_core/src/container/spec.rs:239-252 | a bean's own name-and-type query returns its own id |
| ContainerSpecs.QueryInRange | ioc_core/src/container/spec.rs:218-261 | every id `query` returns is a registered bean |
| SpecLeveling.Swap | ioc_core/src/container/spec.rs:182 | `swap(i, j)` exchanges the two entries and keeps the others |
| SpecLeveling.ReadyAt | ioc_core/src/container/spec.rs:177-182 | readying the bean at `head` moves `tail` down by one and keeps the scan state well formed |
| SpecLeveling.Pass | ioc_core/src/container/spec.rs:166-186 | a pass keeps the scan state well formed, never raises `tail`, and reports progress only when it readied a bean or progress was already reported |
| SpecLeveling.PassKeepsInv | ioc_core/src/container/spec.rs:168-186 | a pass keeps: `scan_ids` a permutation, `ready_ids` exactly the entries behind `tail`, every ready bean leveled at most the current level, and every ready bean's dependencies ready at a level no higher |
| SpecLeveling.PassWithoutProgress | ioc_core/src/container/spec.rs:187-190 | a pass that readies nothing changes nothing, and then no bean before `tail` has all its dependencies ready |
| SpecLeveling.LevelsSound | ioc_core/src/container/spec.rs:162-192 | a successful leveling gives every bean, in id order with its dependencies, a level below n and no lower than any of its dependencies' levels |
| SpecLeveling.LevelsFailIffCycle | ioc_core/src/container/spec.rs:162-192 | leveling fails iff the dependencies contain a cycle (a non-empty set each of whose members depends on a member), and the error is `LoopDependency` |
| SpecLeveling.EverythingReadyAtEnd | ioc_core/src/container/spec.rs:164-165 | when `tail` reaches 0 every bean is in `ready_ids` |
| SpecLeveling.ClosedSetBlocks | ioc_core/src/container/spec.rs:187-190 | a dependency cycle none of whose beans is ready makes the leveling end in `LoopDependency` |
| SpecLeveling.FailureHasCycle | ioc_core/src/container/spec.rs:187-190 | a `LoopDependency` from the leveling means the dependencies have a cycle |
| SpecLeveling.SortByLevel | ioc_core/src/container/spec.rs:194 | the sort returns a permutation of its input |
| SpecLeveling.SortByLevelStable | ioc_core/src/container/spec.rs:194 | sorting specs listed in id order gives a permutation sorted by level with equal levels in id order |
| SpecLeveling.SortKeepsSorted | ioc_core/src/container/spec.rs:194 | sorting specs already sorted by level leaves them as they are |
| SpecLeveling.TieExample | ioc_core/src/container/spec.rs:177-194 | for B, C (depends on A), A all three get level 0 and the sorted order puts C before A |
| BeanContainers.BeanContainerBuilder.constructor | ioc_core/src/container/mod.rs:189-195 | a new builder has an empty spec builder and no drop or init methods |
| BeanContainers.BeanContainerBuilder.Append | ioc_core/src/container/mod.rs:199-204 | a failing spec append changes nothing and returns its error; otherwise one definition, one drop method and one init method are appended, keeping the three in step |
| BeanContainers.BeanContainerBuilder.Build | ioc_core/src/container/mod.rs:208-232 | a planning error is returned before any init method runs; otherwise the init methods run in planned order, the first failure is returned with no drop and no rollback, and a full run gives a container over the plan, the drop methods and the built slots |
| BeanContainers.MaybeUninitBeanRetriever.constructor | ioc_core/src/container/mod.rs:156-162 | a new retriever owns a block of exactly the spec's data size with every slot uninitialised |
| BeanContainers.MaybeUninitBeanRetriever.Retrieve | ioc_core/src/container/mod.rs:166-168 | `retrieve` is the spec's `query` and names an existing slot |
| BeanContainers.MaybeUninitBeanRetriever.RetrievePtr | ioc_core/src/container/mod.rs:170-174 | `retrieve_ptr(id)` is the block's base plus `offset(id)` |
| BeanContainers.RetrieveAgreesWithFind | ioc_core/src/container/mod.rs:166-168 | on a planned spec, `retrieve` succeeds exactly when `find` does, with the same id |
| BeanContainers.RetrievePtrInsideBlock | ioc_core/src/container/mod.rs:170-174 | a retrieved slot lies inside the block and is aligned for its bean |
| BeanContainers.SlotsDisjoint | ioc_core/src/container/mod.rs:170-174 | two beans' slots never overlap |
| BeanContainers.MaybeNoneName | ioc_core/src/container/mod.rs:94 | the query is by name and type exactly when a name is given, and carries the type |
| BeanContainers.MaybeUninitBeanRetriever.MakeRef | ioc_core/src/container/mod.rs:93-100 | `make_ref` fails with the query's error, or points at the slot of the bean the query finds |
| BeanContainers.MakeRefFindsNamedBean | ioc_core/src/container/mod.rs:93-100 | `make_ref` with a bean's own type and name points at that bean's slot |
| BeanContainers.UnsafeDrop | ioc_core/src/container/mod.rs:110-114 | a drop method changes nothing for a type that needs no drop, and otherwise drops the slot |
| BeanContainers.FactoryInit | ioc_core/src/container/mod.rs:116-125 | `init` returns its self-query's error with nothing written, or builds exactly the slot its self-query finds |
| BeanContainers.RunInitMethods | ioc_core/src/container/mod.rs:217-223 | the init loop does what the init-run function says, against the retriever's own slots |
| BeanContainers.RunInitsShape | ioc_core/src/container/mod.rs:217-223 | the k-th init event is the k-th planned bean's, no more events than beans; a failure stops the run at the failing bean with its self-query's error |
| BeanContainers.InitsRunInBuildOrder | ioc_core/src/container/mod.rs:217-223 | on a well-planned spec each init method runs at most once, in planned order, and all run iff none fails |
| BeanContainers.FoundRunBuildsAll | ioc_core/src/container/mod.rs:217-223 | when every init method's self-query finds its own bean, every init runs in planned order at its own slot and every slot ends built |
| BeanContainers.SelfQueriesBuildEverySlot | ioc_core/src/container/mod.rs:116-125 | init methods that query their own name and type build every slot, in planned order, at the slot's address |
| BeanContainers.BeanContainer.Drop | ioc_core/src/container/mod.rs:138-148 | dropping the container calls the drop methods in reverse planned order at each bean's slot; each planned slot gets its own drop method's effect and nothing else changes |
| BeanContainers.BeanContainer.constructor | ioc_core/src/container/mod.rs:224-231 | the container keeps the plan, the drop methods, the block's base and the built slots |
| BeanContainers.DropEventsReversed | ioc_core/src/container/mod.rs:140-145 | the i-th drop call is for the i-th planned bean from the end, at that bean's address |
| BeanContainers.DropsEachBeanOnce | ioc_core/src/container/mod.rs:138-148 | every bean's drop method is called exactly once, at that bean's slot |
| BeanContainers.DropReversesInit | ioc_core/src/container/mod.rs:138-148 | after a full build, the drop calls are the init calls reversed, bean for bean and address for address |
| BeanContainers.SlotInsideBlock | ioc_core/src/container/mod.rs:141-142 | each slot lies inside the block and is aligned for its bean |
| LegacyPlanner.RegisterStepSpec | ioc_core/src/container.rs:91-115 | one registration step panics iff the layout does not extend; gives `DuplicateBeanDefiniton` iff the (type, name) pair was registered (checked first); gives `DuplicateBeanName` carrying the earlier bean's name when the name was registered under another type; succeeds iff the name is new |
| LegacyPlanner.RegisterSpec | ioc_core/src/container.rs:91-115 | registration succeeds iff the layouts pack and the names are unique, and then gives packed slots `offset..offset + size` from the start layout and exact indexes |
| LegacyPlanner.RegisterStopsAtFailure | ioc_core/src/container.rs:91-115 | once a prefix fails to register, the whole list fails the same way |
| LegacyPlanner.RegisterOne | ioc_core/src/container.rs:92-114 | one iteration of the registration loop (extend, type index, name index, with their early returns) does what the registration step says |
| LegacyPlanner.RegisterDefinitions | ioc_core/src/container.rs:91-115 | the registration loop does what the registration function says |
| LegacyPlanner.AsQuery | ioc_core/src/container.rs:124-127 | a dependency becomes a name-and-type query exactly when it names a bean, with the dependent's type name |
| LegacyPlanner.ResolveDependencySpec | ioc_core/src/container.rs:121-159 | resolution agrees with `spec.rs`'s `find` on successes; `NoBean` iff no bean has the type; unnamed: the id iff exactly one candidate, `TooManyCandinatedBean` with every name iff several; named: the id iff that (type, name) exists, `NoNamedBean` with every name of the type iff the type exists but the name does not |
| LegacyPlanner.ResolveDepsSpec | ioc_core/src/container.rs:122-159 | a bean's dependency list resolves iff each dependency does, to their ids in order; otherwise with the error of the first dependency that does not resolve |
| LegacyPlanner.ResolveAllSpec | ioc_core/src/container.rs:121-168 | resolution of all beans succeeds with every dependency in range, or fails with the resolution error of the first bean whose dependencies do not resolve |
| LegacyPlanner.ResolveAllNeverLoops | ioc_core/src/container.rs:121-168 | resolution fails only with `NoBean`, `NoNamedBean` or `TooManyCandinatedBean` |
| LegacyPlanner.ResolveDefinitions | ioc_core/src/container.rs:121-168 | the resolution loop returns the first resolution error, or every bean's dependencies with level `usize::MAX` and `scan_ids` listing every id |
| LegacyPlanner.CheckReady | ioc_core/src/container.rs:177-183 | the inner check is true iff every dependency is in `ready_ids` |
| LegacyPlanner.LegacyPass | ioc_core/src/container.rs:175-191 | a pass that does not panic keeps the scan state well formed and never raises `last`; it reports progress iff progress was already reported or `last` dropped |
| LegacyPlanner.RunPass | ioc_core/src/container.rs:175-191 | one pass of the loop panics exactly when the pass function does, and otherwise gives its result |
| LegacyPlanner.LevelBeans | ioc_core/src/container.rs:170-197 | the leveling loop panics on no beans (`len() - 1` underflows), and otherwise gives the leveling function's outcome |
| LegacyPlanner.LegacyLevelsNeverOk | ioc_core/src/container.rs:170-197 | the leveling loop only ends by panicking or with `LoopDependency` |
| LegacyPlanner.NewContainerInfo | ioc_core/src/container.rs:84-212 | `ContainerInfo::new` gives what the planner function gives |
| LegacyPlanner.NewInfoNeverOk | ioc_core/src/container.rs:84-212 | `ContainerInfo::new` never returns a container: it reports a registration error, a resolution error or `LoopDependency`, or panics |
| LegacyPlanner.ItWorksPanics | ioc_core/src/container.rs:384-388 | the test's three definitions make `ContainerInfo::new` panic |
| LegacyPlanner.ItWorksRegisters | ioc_core/src/container.rs:384-388 | the test's A, B, C register into slots 0..8, 8..32, 32..88 of an 88-byte, 8-aligned block, and C's dependencies resolve to A and B |
| LegacyPlanner.PlanInfoOutcome | ioc_core/src/container.rs:84-212 | the corrected planner succeeds iff the layouts pack, names are unique, dependencies resolve and have no cycle; it then gives a planned container over the same definitions; `LoopDependency` iff there is a cycle |
| LegacyPlanner.ItWorksPlans | ioc_core/src/container.rs:384-388 | the corrected planner gives the test A and B level 0 and C level 1, in that order |
| LegacyLookups.FindBeanSpec | ioc_core/src/container.rs:222-245 | `find` never panics on a consistent container; the id iff exactly one bean has the type, `NoBean` iff none, `TooManyCandinatedBean` with every name iff several; it agrees with `spec.rs`'s `find` |
| LegacyLookups.FindBeanByNameSpec | ioc_core/src/container.rs:247-266 | `find_by_name` never panics; the id iff that bean has the name and the type; otherwise `NoBeanWithName`; it agrees with a name-and-type `find` |
| LegacyLookups.ToIsize | ioc_core/src/container.rs:219 | the `as isize` cast gives a value in the `isize` range and keeps every value already in it |
| LegacyLookups.WrapAddSigned | ioc_core/src/container.rs:308-311 | a wrapping signed add gives an address below 2^64, the plain sum when that is in range |
| LegacyLookups.OffsetBetweenSpec | ioc_core/src/container.rs:216-220 | `offset_between(from, to)` is `start(to) - start(from)`, 0 when from = to, and antisymmetric |
| LegacyLookups.Deref | ioc_core/src/container.rs:304-315 | `deref` only succeeds at the address the `Ref` recorded, and gives a non-null address below 2^64 |
| LegacyLookups.DerefWithoutInnerWrap | ioc_core/src/container.rs:304-315 | when self + `inner_offset` is in range, `deref` gives that plus `parent_offset` (wrapped), panicking on null |
| LegacyLookups.RefInitAsWritten | ioc_core/src/container.rs:280-298 | a `Ref<T>` written inside S's slot is created and dereferences (unless that address wraps to null) to base + 2·start(S) − start(T) instead of T's slot |
| LegacyLookups.RefInitCorrectedReachesTarget | ioc_core/src/container.rs:280-298 | with the offset taken from S to T, the `Ref` dereferences to T's slot |
| LegacyLookups.ItWorksRefToA | ioc_core/src/container.rs:411-421 | in the test's layout, the `Ref` to A written in C at base 4096 points at 4160 as written and at 4096 (A) when corrected |
| LegacyLookups.ItWorksFinds | ioc_core/src/container.rs:411-421 | in the test's container, `find::<A>` gives bean 0 and `find::<C>` bean 2, with slots 0..8, 8..32, 32..88 |
| ContainerBuilders.LastIdOfTypeSpec | ioc_core/src/container2.rs:278 | the type map holds every registered type, each with the last id registered under it |
| ContainerBuilders.IdsByNameSpec | ioc_core/src/container2.rs:279-282 | the name map holds every registered name with the ids registered under it, in registration order |
| ContainerBuilders.NewContainerBuilder | ioc_core/src/container2.rs:257-298 | `ContainerBuilder::new` panics iff the layouts do not pack, rejects nothing else, and keeps the definitions, with packed slots `offset..offset + size`, the last id per type, a zero-filled buffer of the total size and next init id 0; the name map it builds lists every id under its name in order |
| BeanContext.BeanName | ioc_core/src/bean.rs:11-13 | a bean's name is its type name unless its `Bean::name` is overridden |
| BeanContext.Definition | ioc_core/src/bean.rs:28-43 | `definition::<B>()` carries B's `TypeId`, its name and its type name |
| BeanContext.DefinitionIdentifiesType | ioc_core/src/bean.rs:28-43 | with default names, two bean types have equal definitions iff they are the same type |
| BeanContext.ItWorksDefinition | ioc_core/src/bean.rs:252-257 | the test's A gets the name `ioc_core::bean::tests::A` and A's `TypeId` |
| BeanContext.Context.constructor | ioc_core/src/bean.rs:104-111 | a new context has nothing ready and nothing pending |
| BeanContext.Context.TryGet | ioc_core/src/bean.rs:65-72 | `try_get` gives the holder's bean, or `DependNotReady` with the type name when the holder is empty |
| BeanContext.Context.ReadyHasHolder | ioc_core/src/bean.rs:118-119 | in a valid context a ready bean's holder is set, so `try_get` succeeds |
| BeanContext.Context.Pending | ioc_core/src/bean.rs:87-90 | `pending` pushes the definition on the stack and its id in the pending set, and changes nothing else |
| BeanContext.Context.RemovePending | ioc_core/src/bean.rs:92-102 | `remove_pending` panics iff the stack is empty or its top is another definition; it pops the top, and drops the id from the pending set only when it does not panic |
| BeanContext.Context.MarkReady | ioc_core/src/bean.rs:129-132 | marking ready adds the id to the ready set and appends the definition to `ready_beans` |
| BeanContext.Context.Init | ioc_core/src/bean.rs:113-136 | a ready bean gives `try_get` and changes nothing; a pending bean gives `CircularDependency` and changes nothing; otherwise the pending stack and set are restored afterwards, the bean is ready iff the result is a success and is then the last in `ready_beans`, beans ready before stay ready, and an unset holder gives the build outcome: the factory's result once every dependency is ready, else a failure at the first dependency left unready (`CircularDependency` if that one is pending); every error is `CircularDependency` or some factory's own error |
| BeanContext.Context.InitNew | ioc_core/src/bean.rs:125-133 | for a bean neither ready nor pending: pending is restored, the bean becomes ready exactly on success as the last one in `ready_beans`, and a set holder gives its bean; with the holder unset, the result is the factory's own once every dependency is ready, else a failure at the first dependency left unready (`CircularDependency` if that one is pending); a factory whose dependencies were ready before changes nothing else; every error is `CircularDependency` or some factory's own error |
| BeanContext.Context.Fill | ioc_core/src/bean.rs:126-127 | `get_or_try_init` returns a set holder's bean without building; otherwise it returns the build outcome (the factory's result once every dependency is ready, else a failure at the first dependency left unready, `CircularDependency` if that one is pending), and a success is stored in the holder |
| BeanContext.Context.Build | ioc_core/src/bean.rs:126-127 | a build keeps pending as it is and `ready_beans` only grows; the result is the factory's own once every dependency is ready, else a failure at the first dependency left unready, with every dependency before it ready and `CircularDependency` if that one is pending; every error is `CircularDependency` or some factory's own error; with its dependencies ready beforehand it changes nothing |
| CustomImpl.ResolveIocCrate | ioc_core/derive/src/bean.rs:14-32 | an explicit `ioc_crate` is used as given; otherwise the crate lookup decides, and its failure becomes the error |
| CustomImpl.Rejection | ioc_core/derive/src/custom.rs:62-88 | every rejection carries the fixed message, spanned at the whole item exactly for an item that is neither fn nor type |
| CustomImpl.FirstRejectedSpec | ioc_core/derive/src/custom.rs:62-88 | the scan finds no item iff all are allowed, and otherwise the first item not allowed |
| CustomImpl.NoTraitRejected | ioc_core/derive/src/custom.rs:119-122 | an impl block without a trait is rejected with its own message at the block |
| CustomImpl.RejectsExactlyDisallowed | ioc_core/derive/src/custom.rs:50-123 | once the crate resolves, a trait impl is rejected iff some item is not allowed, with the first such item's rejection |
| CustomImpl.ForeignFnRejected | ioc_core/derive/src/custom.rs:64-72 | a fn other than `build`, `name` or `drop` is rejected |
| CustomImpl.ForeignTypeOrItemRejected | ioc_core/derive/src/custom.rs:75-86 | an associated type other than `Bean`, or any other item kind, is rejected |
| CustomImpl.MissingBuildAccepted | ioc_core/derive/src/custom.rs:62-88 | a block without a `build` fn is accepted when all its items are allowed |
| CustomImpl.EmptyImplAccepted | ioc_core/derive/src/custom.rs:62-88 | an empty trait impl is accepted |
| CustomImpl.PatchAppends | ioc_core/derive/src/custom.rs:91-106 | on success the trait, self type and items are kept in order and exactly one `holder` fn follows; a `name` fn follows iff the block has none and the attribute gives a name, which it returns |
| CustomImpl.Patch | ioc_core/derive/src/custom.rs:50-123 | the item loop with its `impl_name` flag gives what the patch function gives |
| ScanSyntax.Parent | ioc_scan/src/scan.rs:53-55 | `Path::parent` is missing exactly for a path without components, and is the path minus its last component |
| ScanSyntax.Join | ioc_scan/src/scan.rs:67-71 | pushing components keeps the path's own components and appends the new ones |
| ScanSyntax.SetExtensionOfIdent | ioc_scan/src/scan.rs:75-79 | popping `mod.rs` and setting the `rs` extension on `<dir>/<seg>` gives `<dir>/<seg>.rs` |
| ScanModules.NewModule | ioc_scan/src/scan.rs:52-64 | `Module::new` fails with `NoParent` and the path iff the file has no parent; otherwise the root is the parent, the file is kept and the module path is empty |
| ScanModules.SubModule | ioc_scan/src/scan.rs:66-101 | `sub_module` finds the file `<root>/<path…>/<seg>/mod.rs`, else `<root>/<path…>/<seg>.rs`, else fails with `FileNotFound`; the result keeps the root and appends exactly one segment to the module path |
| ScanModules.ModuleFileDepth | ioc_scan/src/scan.rs:66-87 | the sub-module's file exists, lies under the root, and is deeper than its module path |
| ScanModules.BuildPathExtends | ioc_scan/src/scan.rs:107-118 | `build_path` is the module path with the type appended, keeping its leading `::` |
| ScanModules.BuildPathAtRoot | ioc_scan/src/scan.rs:107-118 | at the crate root `build_path` is the bare type |
| ScanModules.NestedModuleUnderItsParent | ioc_scan/src/scan.rs:66-87 | `mod b;` inside `src/a.rs` resolves to `src/a/b.rs`, not the sibling `src/b.rs` |
| ScanModules.ScanVisit.constructor | ioc_scan/src/scan.rs:127-133 | a new visitor starts at the given module having reported nothing |
| ScanModules.ScanVisit.VisitItems | ioc_scan/src/scan.rs:195-200 | a walk of a file's items that does not panic restores the current module; whatever it reports, panic or not, lies within the module |
| ScanModules.ScanVisit.VisitItem | ioc_scan/src/scan.rs:149-191 | visiting one item without a panic restores the current module; all it reports lies within the module |
| ScanModules.ScanVisit.VisitItemMod | ioc_scan/src/scan.rs:156-184 | an inline module's segment is pushed and popped, an out-of-line module is swapped in and back; without a panic the current module is restored, and all reported lies within it |
| ModuleInfos.SubModuleFile | ioc_scan/src/module.rs:17-33 | `<seg>/mod.rs` under the parent when it is a file, else `<seg>.rs`, else nothing (the panic) |
| ModuleInfos.SubModuleFileUnderParent | ioc_scan/src/module.rs:17-33 | the file found is under the parent directory, as `<seg>/mod.rs` or `<seg>.rs` |
| ModuleInfos.Sub | ioc_scan/src/module.rs:48-61 | `sub` fails with `NoParent` iff the file has no parent; it panics iff no file is found next to the current file; otherwise it appends exactly the name to the module path with the file found |
| ModuleInfos.CratePathWithName | ioc_scan/src/module.rs:161-163 | the starting path is the single segment `name` with no leading `::` |
| ModuleInfos.StartsResolveInSrc | ioc_scan/src/module.rs:165-181 | `main_visit` and `lib_visit(name)` start in `src` with paths `crate` and `name`; their sub-modules resolve there; `lib_visit_local` is `lib_visit("crate")` |
| ModuleInfos.NestedModuleResolvedAsSibling | ioc_scan/src/module.rs:48-54 | `mod b;` inside `src/a.rs` is looked for as `src/b.rs` and panics when only `src/a/b.rs` exists |
| ModuleInfos.SelfReferenceResolvesToSameFile | ioc_scan/src/module.rs:48-54 | `mod a;` inside `src/a.rs` resolves back to `src/a.rs` itself, even when `src/a/a.rs` exists |
| ModuleInfos.ScanVisit.constructor | ioc_scan/src/module.rs:165-170 | a new visitor starts at the given module info having reported nothing |
| ModuleInfos.ScanVisit.VisitItems | ioc_scan/src/module.rs:149-154 | a walk that neither panics nor runs out of depth restores the module info; all it reports lies within it |
| ModuleInfos.ScanVisit.VisitItem | ioc_scan/src/module.rs:104-145 | visiting one item without a panic restores the module info; all it reports lies within it |
| ModuleInfos.ScanVisit.VisitItemMod | ioc_scan/src/module.rs:111-138 | an inline module pushes and pops its segment, an out-of-line module is swapped in and back; without a panic the module info is restored, and all reported lies within it |

## Left out

- Raw memory is not modelled: `Pin`, `NonNull`, `MaybeUninit`, `drop_in_place` and `from_exposed_addr`. Slots are abstract states, addresses are integers, and what an init method writes is only its event.
- `init_in_place` and the bodies of user init and drop methods are not modelled. An init method is its self-query; a drop method is its `needs_drop` flag.
- `make_value` is `unimplemented!()` in the source and is not modelled.
- `BeanContainer::new` and `mut_may_uninit` of `container.rs` are not modelled. They allocate and cast raw memory, and the planner before them never returns a container.
- `ContainerInfo::new` of `container2.rs` and its `offset_between` are the same code as in `container.rs`. They are modelled once, by `LegacyPlanner` and `LegacyLookups`.
- `offset_between` computes `to.wrapping_sub(from) as isize`. When `to` lies before `from`, the subtraction wraps and the cast turns it back into a negative distance. Slot offsets stay below `isize::MAX`, so the pair is exactly the signed difference `to - from`. The model computes that difference with `LegacyLookups.ToIsize` and does not model `usize` wrap-around.
- BeanContainers.BeanContainerBuilder.Build: the arena is a base address passed in, not an allocation; the allocator is not modelled.
- ContainerBuilders.NewContainerBuilder: the name map the source computes and then drops is returned as a ghost value only.
- Code generation is not modelled: the `quote!`/`parse_quote!` token streams of `custom.rs`, including the `VerifyTraitIsBean` check. The generated `holder` and `name` fns are symbolic items.
- darling's parsing of the attribute arguments (`expand`) is not modelled.
- The `proc_macro_crate` lookup is a parameter, the result of `crate_name("ioc")`.
- `OnceLock` statics are a `holders` map of `TypeId` to value in the context. Sharing between contexts and threads is not modelled.
- Logging (`debug!`) in `definition` is not modelled.
- The file system is a set of existing files. Reading and parsing a file is a map from path to parsed items, and a path missing from it stands for a read or parse failure.
- `current_dir()` in `Module`'s `Display` is a parameter. The text of `FileNotFound` lists the same fields, but not in `debug_struct`'s exact format: paths are unquoted and the module path is joined by `::`.
- `#[path]` attributes, `cfg` and macro-generated modules are not modelled; the scanners do not handle them either.
- A `syn::Path` is reduced to plain identifiers. Generic arguments and a multi-segment self type in `build_path` are not modelled.
- The `Scanner` callbacks are recorded reports. `item_struct`/`item_impl` errors (their `expect`) are not modelled.
- The `scan`/`scan_main`/`scan_lib` entry points only read the first file and are not modelled.
- ModuleInfos.ScanVisit.VisitItems: the walk takes a depth bound, and hitting it stops the walk. `module.rs` can revisit the same file (`SelfReferenceResolvesToSameFile`), so no size bound ends its recursion.
- Panics are an outcome value (`Panic`, `panicked`, or a failed `Resolution`). Unwinding is not modelled.

## Findings

| source | as written | input that shows it | evidently intended | confidence | as-written member | corrected member |
|---|---|---|---|---|---|---|
| ioc_core/src/container.rs:170-197 | `last` is a `usize`, so `while last >= 0` never ends normally, and `last -= 1` below zero (or `len() - 1` on no beans) panics | the test's A, B, C with C depending on A and B: every pass readies beans until `last` underflows | leveling ends once every bean is leveled, as the later `spec.rs` loop does | high, not executed | LegacyPlanner.NewInfoNeverOk | LegacyPlanner.PlanInfoOutcome |
| ioc_core/src/container.rs:288-290 | `Ref::init` stores `offset_between(T, S) = start(S) - start(T)`, and `deref` adds it to an address inside S's slot, so it lands at 2·start(S) − start(T) | the test's `Ref<A>` in C at base 4096 (A at 0, C at 32) points at 4160 instead of 4096 | `parent_offset = start(T) - start(S)`, so that `deref` reaches T's slot | high, not executed | LegacyLookups.RefInitAsWritten | LegacyLookups.RefInitCorrectedReachesTarget |
| ioc_scan/src/module.rs:48-54 | `sub` looks for a sub-module next to the current file, in its parent directory | `mod b;` inside `src/a.rs` with only `src/a/b.rs` present panics; with `src/b.rs` present it picks that file | a module declared in `src/a.rs` lives under `src/a/`, as `scan.rs`'s `sub_module` resolves it | medium, not executed | ModuleInfos.NestedModuleResolvedAsSibling | ScanModules.NestedModuleUnderItsParent |
