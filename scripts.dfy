/** Generated JavaScript modules, kept abstract: the import declarations, the
    exported names and the rest of the text as a sequence of opaque literal
    chunks and substituted names. Relative import specifiers are resolved the
    way the project's bundler does for extension-less specifiers: the exact
    path, then `.js`, then `.jsx`. */
module Scripts {
  import opened Paths

  /** `import { names } from 'from'`, the specifier split at '/'. */
  datatype Import = Import(names: seq<string>, from: seq<string>)

  /** A piece of the module text: a literal chunk of a template (kept
      opaque, identified by its template and position) or a substituted name. */
  datatype BodyPart = Chunk(template: string, index: nat) | Name(value: string)

  datatype Source = Source(imports: seq<Import>, exports: seq<string>, body: seq<BodyPart>)

  /** A specifier that starts with "./" or "../" names a file of the project
      relative to the importing file; anything else is a package. */
  predicate IsRelative(spec: seq<string>) {
    |spec| > 0 && (spec[0] == "." || spec[0] == "..")
  }

  /** Follows the segments of a specifier from directory `dir`. */
  function Walk(dir: Path, spec: seq<string>): (r: Option<Path>)
    ensures r.Some? && |spec| > 0 && spec[|spec| - 1] != "." && spec[|spec| - 1] != ".."
      ==> |r.value| > 0 && r.value[|r.value| - 1] == spec[|spec| - 1]
    decreases |spec|
  {
    if |spec| == 0 then Some(dir)
    else if spec[0] == "." then Walk(dir, spec[1..])
    else if spec[0] == ".." then (if |dir| == 0 then None else Walk(dir[..|dir| - 1], spec[1..]))
    else Walk(dir + [spec[0]], spec[1..])
  }

  /** The file a relative import of `importer` refers to, among the files
      `written`: the exact path, else with `.js`, else with `.jsx`. */
  function Resolve(written: set<Path>, importer: Path, spec: seq<string>): (r: Option<Path>)
    requires |importer| > 0
    ensures r.Some? ==> r.value in written
  {
    match Walk(Parent(importer), spec)
    case None => None
    case Some(p) =>
      if p in written then Some(p)
      else if |p| == 0 then None
      else if WithExtension(p, ".js") in written then Some(WithExtension(p, ".js"))
      else if WithExtension(p, ".jsx") in written then Some(WithExtension(p, ".jsx"))
      else None
  }

  /** Walking into a named segment. */
  lemma WalkDown(dir: Path, s: string, rest: seq<string>)
    requires s != "." && s != ".."
    ensures Walk(dir, [s] + rest) == Walk(dir + [s], rest)
  {
    assert ([s] + rest)[1..] == rest;
  }

  /** Walking up out of a segment. */
  lemma WalkUp(dir: Path, s: string, rest: seq<string>)
    ensures Walk(dir + [s], [".."] + rest) == Walk(dir, rest)
  {
    assert ([".."] + rest)[1..] == rest;
    assert (dir + [s])[..|dir|] == dir;
  }
}
