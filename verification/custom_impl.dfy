/**
  The `#[bean]` attribute on a hand-written `BeanSpec` impl block (`custom.rs`): it checks that
  the block implements a trait and holds only the items a custom impl may hold, then appends
  the generated `holder` function and, when the attribute names the bean and the block does not
  say its name itself, a `name` function. Token streams are modelled by the items they carry.
*/
module CustomImpl {
  import opened Wrappers

  type Ident = string
  type Path = string

  /** The body of a function item: written by the user, or one of the two the macro generates. */
  datatype FnBody = Written | HolderStatic | NameLiteral(value: string)

  /** `syn::ImplItem`: a function, an associated type, or any other item (const, macro, ...). */
  datatype ImplItem = Fn(ident: Ident, body: FnBody) | AssocType(ident: Ident) | OtherItem

  /** `syn::ItemImpl`: the implemented trait, if any, the self type and the items. */
  datatype ItemImpl = ItemImpl(trait_: Option<Path>, selfTy: Path, items: seq<ImplItem>)

  /** `CustomBeanSpecImpl`: the attribute's `name` and `ioc_crate` arguments. */
  datatype CustomBeanSpecImpl = CustomBeanSpecImpl(name: Option<string>, iocCrate: Option<Path>)

  /** Where a diagnostic points. */
  datatype Span = AtIdent(ident: Ident) | AtItem(item: ImplItem) | AtBlock | CallSite

  /** `darling::Error`: a message and a span. */
  datatype Diagnostic = Diagnostic(message: string, span: Span)

  /** What `proc_macro_crate::crate_name("ioc")` reports. */
  datatype FoundCrate = Itself | Named(name: Ident)

  /** The generated code: the trait check `VerifyTraitIsBean` followed by the patched block. */
  datatype Expansion = Expansion(verifiedTrait: Path, verifiedSelfTy: Path, ioc: Path, implBlock: ItemImpl)

  const CUSTOM_BEAN_IMPL_ERROR_INFO: string :=
    "BeanSpec custom impls only allow:\n    0. `type Bean = ..` required\n    1. `fn build`method required\n    2. `fn name` method optional\n    3. `fn drop` method optional\n    Other items will be auto generated!"

  const NOT_A_TRAIT_IMPL: string := "Bean attribute can only be used on trait (ioc::BeanSpec) impls"

  /** The generated `fn holder`, returning a `OnceLock` static of the bean type. */
  const HOLDER_FN: ImplItem := Fn("holder", HolderStatic)

  /**
    `resolve_ioc_crate`: the attribute's `ioc_crate` when given; otherwise `crate` inside the
    `ioc` crate itself, the name under which the dependency is imported, or the lookup's error.
  */
  function ResolveIocCrate(iocCrate: Option<Path>, found: Result<FoundCrate, string>): (r: Result<Path, Diagnostic>)
    ensures iocCrate.Some? ==> r == Success(iocCrate.value)
    ensures r.Failure? <==> iocCrate.None? && found.Failure?
    ensures r.Failure? ==> r.error == Diagnostic(found.error, CallSite)
  {
    if iocCrate.Some? then Success(iocCrate.value)
    else if found.Failure? then Failure(Diagnostic(found.error, CallSite))
    else if found.value.Itself? then Success("crate")
    else Success(found.value.name)
  }

  /** An item a custom impl may hold: `fn build`, `fn name`, `fn drop` or `type Bean`. */
  predicate Allowed(item: ImplItem)
  {
    match item
    case Fn(ident, _) => ident == "name" || ident == "drop" || ident == "build"
    case AssocType(ident) => ident == "Bean"
    case OtherItem => false
  }

  /** The diagnostic for an item that is not allowed: at the function's or type's ident, or at the item. */
  function Rejection(item: ImplItem): (d: Diagnostic)
    ensures d.message == CUSTOM_BEAN_IMPL_ERROR_INFO
    ensures item.OtherItem? <==> d.span.AtItem?
  {
    match item
    case Fn(ident, _) => Diagnostic(CUSTOM_BEAN_IMPL_ERROR_INFO, AtIdent(ident))
    case AssocType(ident) => Diagnostic(CUSTOM_BEAN_IMPL_ERROR_INFO, AtIdent(ident))
    case OtherItem => Diagnostic(CUSTOM_BEAN_IMPL_ERROR_INFO, AtItem(item))
  }

  /** The index of the first item that is not allowed, if any. */
  function FirstRejected(items: seq<ImplItem>): (r: Option<nat>)
    ensures r.Some? ==> r.value < |items|
    decreases |items|
  {
    if items == [] then None
    else if !Allowed(items[0]) then Some(0)
    else
      match FirstRejected(items[1..])
      case None => None
      case Some(i) => Some(i + 1)
  }

  /** Whether the user wrote a `fn name`. */
  predicate HasNameFn(items: seq<ImplItem>)
  {
    exists i :: 0 <= i < |items| && items[i].Fn? && items[i].ident == "name"
  }

  /** What the macro appends: the holder, then a `fn name` when the attribute names a bean the block does not name. */
  function Appended(attr: CustomBeanSpecImpl, items: seq<ImplItem>): seq<ImplItem>
  {
    [HOLDER_FN] + if !HasNameFn(items) && attr.name.Some? then [Fn("name", NameLiteral(attr.name.value))] else []
  }

  /**
    What `patch` returns, stated declaratively: no trait is an error at the block; a failing
    crate lookup is that error; the first item that is not allowed is an error at that item;
    otherwise the trait check and the block with the generated items appended.
  */
  function PatchResult(attr: CustomBeanSpecImpl, block: ItemImpl, found: Result<FoundCrate, string>): Result<Expansion, Diagnostic>
  {
    if block.trait_.None? then Failure(Diagnostic(NOT_A_TRAIT_IMPL, AtBlock))
    else
      var ioc := ResolveIocCrate(attr.iocCrate, found);
      if ioc.Failure? then Failure(ioc.error)
      else
        match FirstRejected(block.items)
        case Some(i) => Failure(Rejection(block.items[i]))
        case None =>
          Success(Expansion(block.trait_.value, block.selfTy, ioc.value,
            block.(items := block.items + Appended(attr, block.items))))
  }

  /** The first rejected item is not allowed and every item before it is; with none, every item is allowed. */
  lemma {:induction false} FirstRejectedSpec(items: seq<ImplItem>)
    ensures FirstRejected(items).None? <==> forall j :: 0 <= j < |items| ==> Allowed(items[j])
    ensures FirstRejected(items).Some? ==>
      && FirstRejected(items).value < |items|
      && !Allowed(items[FirstRejected(items).value])
      && forall j :: 0 <= j < FirstRejected(items).value ==> Allowed(items[j])
    decreases |items|
  {
    if items != [] && Allowed(items[0]) {
      FirstRejectedSpec(items[1..]);
      forall j | 0 < j < |items| ensures items[j] == items[1..][j - 1] { }
    }
  }

  /** An impl block that implements no trait is rejected, whatever it holds. */
  lemma NoTraitRejected(attr: CustomBeanSpecImpl, block: ItemImpl, found: Result<FoundCrate, string>)
    requires block.trait_.None?
    ensures PatchResult(attr, block, found) == Failure(Diagnostic(NOT_A_TRAIT_IMPL, AtBlock))
  {
  }

  /**
    For a trait impl whose crate resolves, `patch` fails exactly when some item is not allowed
    (a function other than `build`, `name` and `drop`, a type other than `Bean`, any other
    kind), and it then reports the first such item.
  */
  lemma RejectsExactlyDisallowed(attr: CustomBeanSpecImpl, block: ItemImpl, found: Result<FoundCrate, string>)
    requires block.trait_.Some? && ResolveIocCrate(attr.iocCrate, found).Success?
    ensures PatchResult(attr, block, found).Failure? <==> exists i :: 0 <= i < |block.items| && !Allowed(block.items[i])
    ensures PatchResult(attr, block, found).Failure? ==>
      exists i :: 0 <= i < |block.items| && !Allowed(block.items[i])
        && (forall j :: 0 <= j < i ==> Allowed(block.items[j]))
        && PatchResult(attr, block, found).error == Rejection(block.items[i])
  {
    FirstRejectedSpec(block.items);
  }

  /** A function named other than `build`, `name` or `drop` anywhere in a trait impl makes `patch` fail. */
  lemma ForeignFnRejected(attr: CustomBeanSpecImpl, block: ItemImpl, found: Result<FoundCrate, string>, i: nat)
    requires block.trait_.Some? && i < |block.items|
    requires block.items[i].Fn? && block.items[i].ident !in {"build", "name", "drop"}
    ensures PatchResult(attr, block, found).Failure?
    ensures PatchResult(attr, block, found).error.message == CUSTOM_BEAN_IMPL_ERROR_INFO || ResolveIocCrate(attr.iocCrate, found).Failure?
  {
    FirstRejectedSpec(block.items);
  }

  /** An associated type not named `Bean`, or an item of another kind, makes `patch` fail. */
  lemma ForeignTypeOrItemRejected(attr: CustomBeanSpecImpl, block: ItemImpl, found: Result<FoundCrate, string>, i: nat)
    requires block.trait_.Some? && i < |block.items|
    requires (block.items[i].AssocType? && block.items[i].ident != "Bean") || block.items[i].OtherItem?
    ensures PatchResult(attr, block, found).Failure?
    ensures PatchResult(attr, block, found).error.message == CUSTOM_BEAN_IMPL_ERROR_INFO || ResolveIocCrate(attr.iocCrate, found).Failure?
  {
    FirstRejectedSpec(block.items);
  }

  /**
    Nothing is required: a trait impl whose crate resolves and whose items are all allowed is
    accepted, with or without a `fn build` or a `type Bean`.
  */
  lemma MissingBuildAccepted(attr: CustomBeanSpecImpl, block: ItemImpl, found: Result<FoundCrate, string>)
    requires block.trait_.Some? && ResolveIocCrate(attr.iocCrate, found).Success?
    requires forall j :: 0 <= j < |block.items| ==> Allowed(block.items[j])
    ensures PatchResult(attr, block, found).Success?
  {
    FirstRejectedSpec(block.items);
  }

  /** The empty trait impl, which has neither `fn build` nor `type Bean`, is accepted. */
  lemma EmptyImplAccepted(attr: CustomBeanSpecImpl, found: Result<FoundCrate, string>)
    requires attr.iocCrate.Some?
    ensures PatchResult(attr, ItemImpl(Some("BeanSpec"), "A", []), found).Success?
  {
  }

  /**
    On success the user's items come first, unchanged and in order; exactly one `holder`
    function follows; and a `name` function follows it exactly when the block has none and the
    attribute gives a name, which it then returns.
  */
  lemma PatchAppends(attr: CustomBeanSpecImpl, block: ItemImpl, found: Result<FoundCrate, string>)
    requires PatchResult(attr, block, found).Success?
    ensures var out := PatchResult(attr, block, found).value.implBlock;
      && out.trait_ == block.trait_ && out.selfTy == block.selfTy
      && |block.items| < |out.items| && out.items[..|block.items|] == block.items
      && out.items[|block.items|] == HOLDER_FN
      && (|out.items| == |block.items| + 2 <==> !HasNameFn(block.items) && attr.name.Some?)
      && (|out.items| == |block.items| + 2 ==> out.items[|block.items| + 1] == Fn("name", NameLiteral(attr.name.value)))
      && |out.items| <= |block.items| + 2
  {
    var out := PatchResult(attr, block, found).value.implBlock;
    assert out.items == block.items + Appended(attr, block.items);
    assert out.items[..|block.items|] == block.items;
  }

  /**
    `CustomBeanSpecImpl::patch`: one pass over the items, remembering whether a `fn name` was
    seen and stopping at the first item that is not allowed, then the appends.
  */
  method Patch(attr: CustomBeanSpecImpl, block: ItemImpl, found: Result<FoundCrate, string>) returns (r: Result<Expansion, Diagnostic>)
    ensures r == PatchResult(attr, block, found)
  {
    if block.trait_.None? {
      return Failure(Diagnostic(NOT_A_TRAIT_IMPL, AtBlock));
    }
    var ioc := ResolveIocCrate(attr.iocCrate, found);
    if ioc.Failure? {
      return Failure(ioc.error);
    }
    FirstRejectedSpec(block.items);
    var implName := false;
    for i := 0 to |block.items|
      invariant forall j :: 0 <= j < i ==> Allowed(block.items[j])
      invariant implName <==> exists j :: 0 <= j < i && block.items[j].Fn? && block.items[j].ident == "name"
    {
      var item := block.items[i];
      match item
      case Fn(ident, _) =>
        if ident == "name" {
          implName := true;
        } else if ident != "drop" && ident != "build" {
          return Failure(Rejection(item));
        }
      case AssocType(ident) =>
        if ident != "Bean" {
          return Failure(Rejection(item));
        }
      case OtherItem =>
        return Failure(Rejection(item));
    }
    var items := block.items;
    items := items + [HOLDER_FN];
    if !implName {
      if attr.name.Some? {
        items := items + [Fn("name", NameLiteral(attr.name.value))];
      }
    }
    assert implName == HasNameFn(block.items);
    assert items == block.items + Appended(attr, block.items);
    return Success(Expansion(block.trait_.value, block.selfTy, ioc.value, block.(items := items)));
  }
}
