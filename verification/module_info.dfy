/**
  The scanner of `module.rs`: a `ModuleInfo` is a module path starting at the crate's name and
  the file the module is read from; a sub-module's file is looked for next to the current file,
  and the visitor walks a file's items like the one of `scan.rs`, with `module_info` in place of
  `module`.
*/
module ModuleInfos {
  import opened Wrappers
  import opened ScanSyntax

  /** `ModuleInfo`. */
  datatype ModuleInfo = ModuleInfo(modulePath: SynPath, file: FsPath)

  /** A resolution that succeeds, returns an error, or panics. */
  datatype Resolution<T> = Resolved(value: T) | Failed(error: ScanError) | Panicked

  /** `parent.join("<seg>/mod.rs")`. */
  function ModDirFile(parent: FsPath, seg: Ident): FsPath
  {
    Join(parent, [seg, "mod.rs"])
  }

  /** `parent.join("<seg>.rs")`. */
  function ModFile(parent: FsPath, seg: Ident): FsPath
  {
    Join(parent, [seg + ".rs"])
  }

  /**
    `sub_module_file`: `<seg>/mod.rs` under `parent` when it is a file, else `<seg>.rs` when
    that is; with neither it panics (`None`).
  */
  function SubModuleFile(parent: FsPath, seg: Ident, files: set<FsPath>): (r: Option<FsPath>)
    ensures r.Some? ==> r.value in files
    ensures r.None? <==> ModDirFile(parent, seg) !in files && ModFile(parent, seg) !in files
    ensures ModDirFile(parent, seg) in files ==> r == Some(ModDirFile(parent, seg))
    ensures ModDirFile(parent, seg) !in files && ModFile(parent, seg) in files ==> r == Some(ModFile(parent, seg))
  {
    if ModDirFile(parent, seg) in files then Some(ModDirFile(parent, seg))
    else if ModFile(parent, seg) in files then Some(ModFile(parent, seg))
    else None
  }

  /** The file `sub_module_file` picks lies directly under `parent`, or in the directory `seg` under it. */
  lemma SubModuleFileUnderParent(parent: FsPath, seg: Ident, files: set<FsPath>)
    requires SubModuleFile(parent, seg, files).Some?
    ensures var f := SubModuleFile(parent, seg, files).value;
      && f.absolute == parent.absolute
      && f.components[..|parent.components|] == parent.components
      && (f.components[|parent.components|..] == [seg, "mod.rs"] || f.components[|parent.components|..] == [seg + ".rs"])
  {
  }

  /**
    `ModuleInfo::sub`: the sub-module's file is looked for in the directory of the current
    file, which is `NoParent` when the file has none, and its path is the module path followed
    by exactly `name`.
  */
  function Sub(info: ModuleInfo, name: Ident, files: set<FsPath>): (r: Resolution<ModuleInfo>)
    ensures r.Failed? <==> Parent(info.file).None?
    ensures r.Failed? ==> r.error == NoParent(ToStringLossy(info.file))
    ensures r.Panicked? <==> Parent(info.file).Some? && SubModuleFile(Parent(info.file).value, name, files).None?
    ensures r.Resolved? ==>
      && r.value.modulePath == SynPath(info.modulePath.leadingColon, info.modulePath.segments + [name])
      && r.value.file == SubModuleFile(Parent(info.file).value, name, files).value
  {
    match Parent(info.file)
    case None => Failed(NoParent(ToStringLossy(info.file)))
    case Some(parent) =>
      match SubModuleFile(parent, name, files)
      case None => Panicked
      case Some(file) => Resolved(ModuleInfo(info.modulePath.(segments := info.modulePath.segments + [name]), file))
  }

  /** `crate_path_with_name`: the one-segment path `name`. */
  function CratePathWithName(name: Ident): (p: SynPath)
    ensures !p.leadingColon && p.segments == [name]
  {
    SynPath(false, [name])
  }

  /** The directory of a file in `src` is `src`. */
  lemma ParentInSrc(name: string)
    ensures Parent(FsPath(false, ["src", name])) == Some(FsPath(false, ["src"]))
  {
    assert ["src", name][..1] == ["src"];
  }

  /** Where `main_visit` starts: the path `crate` and the file `src/main.rs`. */
  function MainStart(): ModuleInfo
  {
    ModuleInfo(CratePathWithName("crate"), FsPath(false, ["src", "main.rs"]))
  }

  /** Where `lib_visit(name)` starts: the path `name` and the file `src/lib.rs`. */
  function LibStart(name: Ident): ModuleInfo
  {
    ModuleInfo(CratePathWithName(name), FsPath(false, ["src", "lib.rs"]))
  }

  /** Where `lib_visit_local` starts: the same as `lib_visit("crate")`. */
  function LocalLibStart(): ModuleInfo
  {
    LibStart("crate")
  }

  /**
    From every starting point, `mod seg;` of the crate file resolves in `src`, as `crate`'s (or
    the library name's) child `seg`: `src/<seg>/mod.rs` first, then `src/<seg>.rs`.
  */
  lemma StartsResolveInSrc(name: Ident, seg: Ident, files: set<FsPath>)
    ensures var src := FsPath(false, ["src"]);
      && !Sub(MainStart(), seg, files).Failed? && !Sub(LibStart(name), seg, files).Failed?
      && (Sub(MainStart(), seg, files).Resolved? <==> SubModuleFile(src, seg, files).Some?)
      && (Sub(MainStart(), seg, files).Resolved? ==>
            Sub(MainStart(), seg, files).value == ModuleInfo(SynPath(false, ["crate", seg]), SubModuleFile(src, seg, files).value))
      && (Sub(LibStart(name), seg, files).Resolved? <==> SubModuleFile(src, seg, files).Some?)
      && (Sub(LibStart(name), seg, files).Resolved? ==>
            Sub(LibStart(name), seg, files).value == ModuleInfo(SynPath(false, [name, seg]), SubModuleFile(src, seg, files).value))
      && LocalLibStart() == LibStart("crate")
  {
    var src := FsPath(false, ["src"]);
    ParentInSrc("main.rs");
    ParentInSrc("lib.rs");
  }

  /**
    `mod b;` written in `src/a.rs` is looked for as `src/b/mod.rs` or `src/b.rs`, next to
    `src/a.rs`: with only `src/a/b.rs` present the scan panics, and with `src/b.rs` present it
    reads that file as `crate::a::b`.
  */
  lemma NestedModuleResolvedAsSibling()
    ensures var a := ModuleInfo(SynPath(false, ["crate", "a"]), FsPath(false, ["src", "a.rs"]));
      var files := {FsPath(false, ["src", "lib.rs"]), FsPath(false, ["src", "a.rs"]), FsPath(false, ["src", "a", "b.rs"])};
      && Sub(LocalLibStart(), "a", files) == Resolved(a)
      && Sub(a, "b", files) == Panicked
      && Sub(a, "b", files + {FsPath(false, ["src", "b.rs"])})
           == Resolved(ModuleInfo(SynPath(false, ["crate", "a", "b"]), FsPath(false, ["src", "b.rs"])))
  {
    var src := FsPath(false, ["src"]);
    assert "a" + ".rs" == "a.rs" && "b" + ".rs" == "b.rs";
    ParentInSrc("a.rs");
    ParentInSrc("lib.rs");
    assert ModFile(src, "a") == FsPath(false, ["src", "a.rs"]);
    assert ModFile(src, "b") == FsPath(false, ["src", "b.rs"]);
    assert ModDirFile(src, "a") == FsPath(false, ["src", "a", "mod.rs"]);
    assert ModDirFile(src, "b") == FsPath(false, ["src", "b", "mod.rs"]);
    assert ["crate"] + ["a"] == ["crate", "a"] && ["crate", "a"] + ["b"] == ["crate", "a", "b"];
  }

  /** `mod a;` written in `src/a.rs` resolves to `src/a.rs` itself, so its scan enters the same file again. */
  lemma SelfReferenceResolvesToSameFile()
    ensures var a := ModuleInfo(SynPath(false, ["crate", "a"]), FsPath(false, ["src", "a.rs"]));
      var files := {FsPath(false, ["src", "lib.rs"]), FsPath(false, ["src", "a.rs"]), FsPath(false, ["src", "a", "a.rs"])};
      Sub(a, "a", files).Resolved? && Sub(a, "a", files).value.file == a.file
  {
    var src := FsPath(false, ["src"]);
    assert "a" + ".rs" == "a.rs";
    ParentInSrc("a.rs");
    assert ModFile(src, "a") == FsPath(false, ["src", "a.rs"]);
    assert ModDirFile(src, "a") == FsPath(false, ["src", "a", "mod.rs"]);
  }

  /** What the scanner is shown: a struct or an impl, the module info it is in, and its name or self type. */
  datatype SeenKind = StructSeen | ImplSeen
  datatype Seen = Seen(kind: SeenKind, inModule: ModuleInfo, ident: Ident)

  /** Everything reported after `seen0` was reported with a module path extending `m`'s. */
  ghost predicate ReportedWithin(m: ModuleInfo, seen0: seq<Seen>, seen: seq<Seen>)
  {
    && seen0 <= seen
    && forall k :: |seen0| <= k < |seen| ==>
         && seen[k].inModule.modulePath.leadingColon == m.modulePath.leadingColon
         && m.modulePath.segments <= seen[k].inModule.modulePath.segments
  }

  /**
    `ScanVisit` of `module.rs`: the current module info and what the scanner has been shown,
    over fixed files and parsed sources (a file missing from `sources` cannot be read or
    parsed). `depth` is how many more out-of-line modules the stack can hold.
  */
  class ScanVisit {
    var moduleInfo: ModuleInfo
    var seen: seq<Seen>
    const files: set<FsPath>
    const sources: map<FsPath, seq<Item>>

    /** The visitor `main_visit`, `lib_visit` and `lib_visit_local` build, from their starting module info. */
    constructor(start: ModuleInfo, files: set<FsPath>, sources: map<FsPath, seq<Item>>)
      ensures moduleInfo == start && seen == [] && this.files == files && this.sources == sources
    {
      moduleInfo := start;
      seen := [];
      this.files := files;
      this.sources := sources;
    }

    /**
      `visit_file` and the default visiting of nested items: each item in order; a panic stops
      the walk. A walk that ends restores the module info, and all it reports is within it.
    */
    method VisitItems(items: seq<Item>, depth: nat) returns (ok: bool)
      modifies this
      decreases depth, items, 0
      ensures ok ==> moduleInfo == old(moduleInfo)
      ensures ReportedWithin(old(moduleInfo), old(seen), seen)
    {
      for i := 0 to |items|
        invariant moduleInfo == old(moduleInfo)
        invariant ReportedWithin(old(moduleInfo), old(seen), seen)
      {
        ok := VisitItem(items[i], depth);
        if !ok {
          return false;
        }
      }
      return true;
    }

    /** `visit_item_struct`, `visit_item_impl`, `visit_item_mod` and the default for other items. */
    method VisitItem(item: Item, depth: nat) returns (ok: bool)
      modifies this
      decreases depth, item, 1
      ensures ok ==> moduleInfo == old(moduleInfo)
      ensures ReportedWithin(old(moduleInfo), old(seen), seen)
    {
      match item
      case ItemStruct(ident) =>
        seen := seen + [Seen(StructSeen, moduleInfo, ident)];
        return true;
      case ItemImpl(selfTy, nested) =>
        seen := seen + [Seen(ImplSeen, moduleInfo, selfTy)];
        ok := VisitItems(nested, depth);
      case ItemOther(nested) =>
        ok := VisitItems(nested, depth);
      case ItemMod(_, _) =>
        ok := VisitItemMod(item, depth);
    }

    /**
      `visit_item_mod`. An out-of-line module is resolved by `sub` (an error or a missing file
      panics), read and parsed (each failure panics), swapped in, visited and swapped back out.
      An inline module pushes its ident, visits its content and pops the ident again, which is
      never missing and always its own.
    */
    method VisitItemMod(item: Item, depth: nat) returns (ok: bool)
      requires item.ItemMod?
      modifies this
      decreases depth, item, 0
      ensures ok ==> moduleInfo == old(moduleInfo)
      ensures ReportedWithin(old(moduleInfo), old(seen), seen)
    {
      var segments := moduleInfo.modulePath.segments;
      if item.content.OutOfLine? {
        var sub := Sub(moduleInfo, item.ident, files);
        if !sub.Resolved? || sub.value.file !in sources || depth == 0 {
          return false;
        }
        var saved := moduleInfo;
        moduleInfo := sub.value;
        ok := VisitItems(sources[sub.value.file], depth - 1);
        if !ok {
          return false;
        }
        moduleInfo := saved;
      } else {
        ghost var saved := moduleInfo;
        moduleInfo := moduleInfo.(modulePath := moduleInfo.modulePath.(segments := segments + [item.ident]));
        ok := VisitItems(item.content.items, depth);
        if !ok {
          return false;
        }
        assert |moduleInfo.modulePath.segments| > 0;
        var popped := moduleInfo.modulePath.segments[|moduleInfo.modulePath.segments| - 1];
        moduleInfo := moduleInfo.(modulePath := moduleInfo.modulePath.(segments := moduleInfo.modulePath.segments[..|moduleInfo.modulePath.segments| - 1]));
        assert popped == item.ident;
        assert moduleInfo == saved;
      }
    }
  }
}
