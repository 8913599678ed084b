/**
  The values every planner of the container works on: type identities, bean names, dependency
  queries, bean definitions and the container's error taxonomy. A `TypeId` is an opaque integer
  and a name a string; a definition is what a bean type hands to the planner (its name, type,
  type name, layout and dependency list).
*/
module BeanTypes {
  import opened Layouts

  type TypeId = int
  type Name = string

  /**
    A dependency query as `spec.rs` resolves it: by type only, or by type and name. The type name
    is carried for error messages only.
  */
  datatype BeanQuery =
    | OnlyType(typeId: TypeId, typeName: Name)
    | NameAndType(name: Name, typeId: TypeId, typeName: Name)

  /**
    What a bean type registers. `Q` is the shape of its dependency entries: `BeanQuery` for the
    current planner, the older `Dependency` record for the legacy planners.
  */
  datatype BeanDefinition<Q> = BeanDefinition(
    name: Name,
    typeId: TypeId,
    typeName: Name,
    layout: Layout,
    dependencies: seq<Q>)

  /**
    The container's errors (`ContainerError` in `container/mod.rs`; the legacy planners use a
    subset). Candidate names come out of a hash map's key iterator, whose order is unspecified,
    so they are kept as a set.
  */
  datatype ContainerError =
    | NoBean(typeName: Name)
    | NoBeanWithName(typeName: Name, targetName: Name)
    | NoNamedBean(typeName: Name, targetName: Name, candidates: set<Name>)
    | TooManyCandinatedBean(typeName: Name, candidates: set<Name>)
    | DuplicateBeanDefiniton(typeName: Name, name: Name)
    | DuplicateBeanName(name: Name, typeName: Name, duplicateTypeName: Name)
    | LayoutError
    | LoopDependency
    | Unknown

  /** The layouts of a list of definitions, in registration order. */
  function LayoutsOf<Q>(defs: seq<BeanDefinition<Q>>): (ls: seq<Layout>)
    ensures |ls| == |defs| && forall i :: 0 <= i < |defs| ==> ls[i] == defs[i].layout
  {
    seq(|defs|, i requires 0 <= i < |defs| => defs[i].layout)
  }

  /** Every definition carries a layout that `Layout::from_size_align` could have produced. */
  predicate ValidLayouts<Q>(defs: seq<BeanDefinition<Q>>)
  {
    forall i :: 0 <= i < |defs| ==> defs[i].layout.Valid()
  }
}
