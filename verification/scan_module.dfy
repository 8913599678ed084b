/**
  The scanner of `scan.rs`: a `Module` knows the directory of the crate root, its own file and
  its module path; a sub-module's file is found under the root by the module path, and the
  visitor walks the items of a file, descending into inline modules by pushing and popping a
  segment and into out-of-line modules by swapping in the sub-module.
*/
module ScanModules {
  import opened Wrappers
  import opened ScanSyntax

  /** `Module`. */
  datatype Module = Module(root: FsPath, file: FsPath, modulePath: SynPath)

  /** The text of `format!("{self}")` a `FileNotFound` carries: the module's fields and the current directory. */
  function Describe(m: Module, currentDir: string): string
  {
    "Module { root: " + ToStringLossy(m.root) + ", file: " + ToStringLossy(m.file)
      + ", module_path: " + Joined(m.modulePath.segments, "::") + ", current_dir: " + currentDir + " }"
  }

  /**
    `Module::new`: the root is the directory of `file` and the module path is empty; a file with
    no parent is `NoParent`.
  */
  function NewModule(file: FsPath): (r: Result<Module, ScanError>)
    ensures r.Failure? <==> Parent(file).None?
    ensures r.Failure? ==> r.error == NoParent(ToStringLossy(file))
    ensures r.Success? ==> Join(r.value.root, [file.components[|file.components| - 1]]) == file
    ensures r.Success? ==> r.value.file == file && r.value.modulePath == SynPath(false, [])
  {
    match Parent(file)
    case None => Failure(NoParent(ToStringLossy(file)))
    case Some(root) => Success(Module(root, file, SynPath(false, [])))
  }

  /** The directory of the sub-module `segment` of `m`: the root, then the module path, then `segment`. */
  function ModuleDir(m: Module, segment: Ident): FsPath
  {
    Join(m.root, m.modulePath.segments + [segment])
  }

  /**
    Where `mod segment;` in `m` is: `<dir>/mod.rs` when that is a file, else `<dir>.rs` when
    that is, else nowhere.
  */
  function ModuleFile(m: Module, segment: Ident, files: set<FsPath>): Option<FsPath>
  {
    var dir := ModuleDir(m, segment);
    if Join(dir, ["mod.rs"]) in files then Some(Join(dir, ["mod.rs"]))
    else if Join(m.root, m.modulePath.segments + [segment + ".rs"]) in files then Some(Join(m.root, m.modulePath.segments + [segment + ".rs"]))
    else None
  }

  /**
    `Module::sub_module`: push the root, each segment of the module path and `segment`, try
    `mod.rs` under it, else pop that and set the `rs` extension; the sub-module keeps the root
    and extends the module path by exactly `segment`. Neither file existing is `FileNotFound`.
  */
  method SubModule(m: Module, segment: Ident, files: set<FsPath>, currentDir: string) returns (r: Result<Module, ScanError>)
    ensures r.Success? <==> ModuleFile(m, segment, files).Some?
    ensures r.Success? ==> r.value.file == ModuleFile(m, segment, files).value
    ensures r.Success? ==> r.value.root == m.root && r.value.modulePath == SynPath(m.modulePath.leadingColon, m.modulePath.segments + [segment])
    ensures r.Failure? ==> r.error == FileNotFound(Describe(m, currentDir))
  {
    var buf := m.root;
    var segments := m.modulePath.segments;
    for i := 0 to |segments|
      invariant buf == Join(m.root, segments[..i])
    {
      assert segments[..i + 1] == segments[..i] + [segments[i]];
      buf := Join(buf, [segments[i]]);
    }
    assert segments[..|segments|] == segments;
    assert Join(Join(buf, [segment]), ["mod.rs"]) == Join(ModuleDir(m, segment), ["mod.rs"]);
    assert Join(buf, [segment + ".rs"]) == Join(m.root, segments + [segment + ".rs"]);
    buf := Join(buf, [segment]);
    buf := Join(buf, ["mod.rs"]);
    var file;
    if buf in files {
      file := buf;
    } else {
      buf := Parent(buf).value;
      SetExtensionOfIdent(Join(m.root, segments), segment);
      buf := SetExtension(buf, "rs");
      if buf in files {
        file := buf;
      } else {
        return Failure(FileNotFound(Describe(m, currentDir)));
      }
    }
    var modulePath := m.modulePath.(segments := segments + [segment]);
    return Success(Module(m.root, file, modulePath));
  }

  /** A sub-module's file lies below the root, one level deeper than its module path at least. */
  lemma ModuleFileDepth(m: Module, segment: Ident, files: set<FsPath>)
    requires ModuleFile(m, segment, files).Some?
    ensures var f := ModuleFile(m, segment, files).value;
      f in files && |m.modulePath.segments| + 1 <= |f.components|
      && f.components[..|m.root.components|] == m.root.components
  {
    var f := ModuleFile(m, segment, files).value;
    assert f.components[..|m.root.components|] == m.root.components;
  }

  /**
    `Module::build_path`: `ty` alone for the empty path, `::ty` for the empty path with a
    leading `::`, and `<module path>::ty` otherwise.
  */
  function BuildPath(m: Module, ty: Ident): SynPath
  {
    if m.modulePath.segments == [] then
      if !m.modulePath.leadingColon then SynPath(false, [ty]) else SynPath(true, [ty])
    else SynPath(m.modulePath.leadingColon, m.modulePath.segments + [ty])
  }

  /**
    However the module path looks, `build_path` is that path extended by `ty`: the type is named
    relative to the module the scanner is in, keeping its leading `::`.
  */
  lemma BuildPathExtends(m: Module, ty: Ident)
    ensures BuildPath(m, ty) == SynPath(m.modulePath.leadingColon, m.modulePath.segments + [ty])
  {
    if m.modulePath.segments == [] {
      assert m.modulePath.segments + [ty] == [ty];
    }
  }

  /** In the module of the scanned file itself a type is named by its identifier alone. */
  lemma BuildPathAtRoot(file: FsPath, ty: Ident)
    requires NewModule(file).Success?
    ensures BuildPath(NewModule(file).value, ty) == SynPath(false, [ty])
  {
  }

  /**
    `mod b;` written in the file of `mod a;` of the crate `src/lib.rs` is found as `src/a/b.rs`,
    below the directory named after `a`, and not as `src/b.rs`.
  */
  lemma NestedModuleUnderItsParent()
    ensures var files := {FsPath(false, ["src", "lib.rs"]), FsPath(false, ["src", "a.rs"]),
                          FsPath(false, ["src", "b.rs"]), FsPath(false, ["src", "a", "b.rs"])};
      var a := Module(FsPath(false, ["src"]), FsPath(false, ["src", "a.rs"]), SynPath(false, ["a"]));
      && ModuleFile(Module(FsPath(false, ["src"]), FsPath(false, ["src", "lib.rs"]), SynPath(false, [])), "a", files)
           == Some(a.file)
      && ModuleFile(a, "b", files) == Some(FsPath(false, ["src", "a", "b.rs"]))
  {
    var files := {FsPath(false, ["src", "lib.rs"]), FsPath(false, ["src", "a.rs"]),
                  FsPath(false, ["src", "b.rs"]), FsPath(false, ["src", "a", "b.rs"])};
    var lib := Module(FsPath(false, ["src"]), FsPath(false, ["src", "lib.rs"]), SynPath(false, []));
    var a := Module(FsPath(false, ["src"]), FsPath(false, ["src", "a.rs"]), SynPath(false, ["a"]));
    assert "a" + ".rs" == "a.rs" && "b" + ".rs" == "b.rs";
    assert Join(ModuleDir(lib, "a"), ["mod.rs"]).components == ["src", "a", "mod.rs"];
    assert Join(lib.root, lib.modulePath.segments + ["a" + ".rs"]).components == ["src", "a.rs"];
    assert Join(ModuleDir(a, "b"), ["mod.rs"]).components == ["src", "a", "b", "mod.rs"];
    assert Join(a.root, a.modulePath.segments + ["b" + ".rs"]).components == ["src", "a", "b.rs"];
  }

  /** What the scanner is shown: a struct or an impl, the module it is in, and its name or self type. */
  datatype SeenKind = StructSeen | ImplSeen
  datatype Seen = Seen(kind: SeenKind, inModule: Module, ident: Ident)

  /** Everything reported after `seen0` was reported inside `m`: same root, a module path extending `m`'s. */
  ghost predicate ReportedWithin(m: Module, seen0: seq<Seen>, seen: seq<Seen>)
  {
    && seen0 <= seen
    && forall k :: |seen0| <= k < |seen| ==>
         && seen[k].inModule.root == m.root
         && seen[k].inModule.modulePath.leadingColon == m.modulePath.leadingColon
         && m.modulePath.segments <= seen[k].inModule.modulePath.segments
  }

  /**
    `ScanVisit`: the current module and what the scanner has been shown. The files that exist
    and the parsed contents of the files that can be read and parsed are fixed; a file missing
    from `sources` is one whose reading or parsing fails.
  */
  class ScanVisit {
    /** The module being visited: `self.module`. */
    var current: Module
    var seen: seq<Seen>
    const files: set<FsPath>
    const sources: map<FsPath, seq<Item>>
    const currentDir: string

    /** `ScanVisit::new`. */
    constructor(module0: Module, files: set<FsPath>, sources: map<FsPath, seq<Item>>, currentDir: string)
      ensures current == module0 && seen == []
      ensures this.files == files && this.sources == sources && this.currentDir == currentDir
    {
      current := module0;
      this.files := files;
      this.sources := sources;
      this.currentDir := currentDir;
      seen := [];
    }

    /**
      How many more out-of-line modules can be entered: every file read lies at least one
      level deeper than its module path, and no readable file is deeper than the deepest one.
    */
    ghost function Room(): nat
      reads this
    {
      var deepest := MaxLength(sources.Keys);
      if |current.modulePath.segments| <= deepest then deepest - |current.modulePath.segments| else 0
    }

    /**
      `visit_file` and the default visiting of nested items: each item in order; a panic stops
      the walk. A walk that ends restores the module, and all it reports is within it.
    */
    method VisitItems(items: seq<Item>) returns (ok: bool)
      modifies this
      decreases Room(), items, 0
      ensures ok ==> current == old(current)
      ensures ReportedWithin(old(current), old(seen), seen)
    {
      for i := 0 to |items|
        invariant current == old(current)
        invariant ReportedWithin(old(current), old(seen), seen)
      {
        ok := VisitItem(items[i]);
        if !ok {
          return false;
        }
      }
      return true;
    }

    /** `visit_item_struct`, `visit_item_impl`, `visit_item_mod` and the default for other items. */
    method VisitItem(item: Item) returns (ok: bool)
      modifies this
      decreases Room(), item, 1
      ensures ok ==> current == old(current)
      ensures ReportedWithin(old(current), old(seen), seen)
    {
      match item
      case ItemStruct(ident) =>
        seen := seen + [Seen(StructSeen, current, ident)];
        return true;
      case ItemImpl(selfTy, nested) =>
        seen := seen + [Seen(ImplSeen, current, selfTy)];
        ok := VisitItems(nested);
      case ItemOther(nested) =>
        ok := VisitItems(nested);
      case ItemMod(_, _) =>
        ok := VisitItemMod(item);
    }

    /**
      `visit_item_mod`. An out-of-line module is resolved, read and parsed (each failure
      panics), swapped in, visited, and swapped back out. An inline module pushes its ident,
      visits its content and pops the ident again, which is never missing and always its own.
    */
    method VisitItemMod(item: Item) returns (ok: bool)
      requires item.ItemMod?
      modifies this
      decreases Room(), item, 0
      ensures ok ==> current == old(current)
      ensures ReportedWithin(old(current), old(seen), seen)
    {
      var segments := current.modulePath.segments;
      if item.content.OutOfLine? {
        var sub := SubModule(current, item.ident, files, currentDir);
        if sub.Failure? {
          return false;
        }
        if sub.value.file !in sources {
          return false;
        }
        ModuleFileDepth(current, item.ident, files);
        var saved := current;
        current := sub.value;
        ok := VisitItems(sources[sub.value.file]);
        if !ok {
          return false;
        }
        current := saved;
      } else {
        ghost var saved := current;
        current := current.(modulePath := current.modulePath.(segments := segments + [item.ident]));
        ok := VisitItems(item.content.items);
        if !ok {
          return false;
        }
        assert |current.modulePath.segments| > 0;
        var popped := current.modulePath.segments[|current.modulePath.segments| - 1];
        current := current.(modulePath := current.modulePath.(segments := current.modulePath.segments[..|current.modulePath.segments| - 1]));
        assert popped == item.ident;
        assert current == saved;
      }
    }
  }
}
