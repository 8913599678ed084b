/**
  What the module scanners of `ioc_scan` work on: file-system paths, `syn` paths, and the items
  of a parsed source file, reduced to what decides where the scanner goes and what it reports.
*/
module ScanSyntax {
  import opened Wrappers

  /** A Rust identifier as written out; it never holds a `.` or a `/`. */
  type Ident = s: string | '.' !in s && '/' !in s

  /** A `PathBuf`: whether it starts at the root, then its components. */
  datatype FsPath = FsPath(absolute: bool, components: seq<string>)

  /** `Path::parent`: the path without its last component; none for `/` and for the empty path. */
  function Parent(p: FsPath): (r: Option<FsPath>)
    ensures r.None? <==> p.components == []
    ensures r.Some? ==> r.value.absolute == p.absolute && r.value.components + [p.components[|p.components| - 1]] == p.components
  {
    if p.components == [] then None else Some(p.(components := p.components[..|p.components| - 1]))
  }

  /** `Path::join` / `PathBuf::push` of relative components. */
  function Join(p: FsPath, rest: seq<string>): (r: FsPath)
    ensures r.absolute == p.absolute && |r.components| == |p.components| + |rest|
    ensures r.components[..|p.components|] == p.components && r.components[|p.components|..] == rest
  {
    p.(components := p.components + rest)
  }

  /**
    `PathBuf::set_extension`: the last component's stem (all before its last `.`, unless that
    `.` leads the name) followed by `.` and `ext`; a path without a last component is left as
    it is.
  */
  function SetExtension(p: FsPath, ext: string): FsPath
  {
    if p.components == [] || p.components[|p.components| - 1] == ".." then p
    else
      var name := p.components[|p.components| - 1];
      p.(components := p.components[..|p.components| - 1] + [Stem(name) + "." + ext])
  }

  /** The position of the last `.` in `name`, if any. */
  function LastDot(name: string): (r: Option<nat>)
    ensures r.None? <==> '.' !in name
    ensures r.Some? ==> r.value < |name| && name[r.value] == '.' && '.' !in name[r.value + 1..]
    decreases |name|
  {
    if name == [] then None
    else if name[|name| - 1] == '.' then Some(|name| - 1)
    else
      var r := LastDot(name[..|name| - 1]);
      assert name == name[..|name| - 1] + [name[|name| - 1]];
      assert r.Some? ==> name[r.value + 1..] == name[..|name| - 1][r.value + 1..] + [name[|name| - 1]];
      r
  }

  /** `Path::file_stem`: all before the last `.`, unless that `.` is the first character. */
  function Stem(name: string): (stem: string)
    ensures '.' !in name ==> stem == name
  {
    match LastDot(name)
    case Some(i) => if i == 0 then name else name[..i]
    case None => name
  }

  /** Setting the `rs` extension on a path ending in an identifier appends `.rs` to it. */
  lemma SetExtensionOfIdent(p: FsPath, seg: Ident)
    ensures SetExtension(Join(p, [seg]), "rs") == Join(p, [seg + ".rs"])
  {
    var q := Join(p, [seg]);
    assert q.components[|q.components| - 1] == seg;
    assert seg != ".." by { assert ".."[0] == '.'; }
    assert q.components[..|p.components|] == p.components;
    assert Stem(seg) == seg;
    assert SetExtension(q, "rs") == p.(components := q.components[..|q.components| - 1] + [seg + "." + "rs"]);
    assert q.components[..|q.components| - 1] == p.components;
    assert seg + "." + "rs" == seg + ".rs";
  }

  /** The components joined by `sep`. */
  function Joined(parts: seq<string>, sep: string): string
    decreases |parts|
  {
    if parts == [] then "" else if |parts| == 1 then parts[0] else parts[0] + sep + Joined(parts[1..], sep)
  }

  /** `to_string_lossy`: the components joined by `/`, after a `/` for an absolute path. */
  function ToStringLossy(p: FsPath): string
  {
    (if p.absolute then "/" else "") + Joined(p.components, "/")
  }

  /** A `syn::Path` of plain identifiers: whether it starts with `::`, then its segments. */
  datatype SynPath = SynPath(leadingColon: bool, segments: seq<Ident>)

  /**
    An item of a parsed file. A module has inline content or none (`mod m;`); a struct is
    reported to the scanner; an impl is reported with its self type and then its nested items
    visited; any other item only has its nested items visited.
  */
  datatype Item =
    | ItemMod(ident: Ident, content: ModContent)
    | ItemStruct(ident: Ident)
    | ItemImpl(selfTy: Ident, nested: seq<Item>)
    | ItemOther(nested: seq<Item>)

  /** A module's `content`: its items between braces, or none for `mod m;`. */
  datatype ModContent = Inline(items: seq<Item>) | OutOfLine

  /** `ioc_scan::Error`, without the I/O and parse errors of files the model does not read. */
  datatype ScanError = NoParent(path: string) | FileNotFound(description: string)

  /** The longest path among `paths`, in components. */
  ghost function MaxLength(paths: set<FsPath>): (n: nat)
    ensures forall p :: p in paths ==> |p.components| <= n
    decreases paths
  {
    if paths == {} then 0
    else
      var p :| p in paths;
      var rest := MaxLength(paths - {p});
      if |p.components| < rest then rest else |p.components|
  }
}
