/** `generatePage`: the two recursive mkdirs and the six file writes that lay
    out a page folder, and what the generated folder guarantees. */
module Scaffold {
  import opened Paths
  import opened Scripts
  import opened Files
  import opened Templates
  import opened CaseConversion
  import opened PageName

  /** components/hooks under the page folder. */
  function HooksDir(cwd: Path, pageName: string): Path {
    PageFolder(cwd, pageName) + ["components", "hooks"]
  }

  /** components/ui under the page folder. */
  function UiDir(cwd: Path, pageName: string): Path {
    PageFolder(cwd, pageName) + ["components", "ui"]
  }

  /** The six files written into page folder `dir`, with their contents,
      in the order they are written. */
  function Layout(dir: Path, pascal: string, t: TemplateSet): (r: seq<(Path, FileContent)>)
    ensures |r| == 6
  {
    [(dir + [pascal + "Page.jsx"], Script(t.page)),
     (dir + ["components", "constants.js"], Script(t.constants)),
     (dir + ["components", "api.js"], Script(t.api)),
     (dir + ["components", "hooks", "use" + pascal + ".js"], Script(t.hook)),
     (dir + ["components", "ui", pascal + "Search.jsx"], Script(t.search)),
     (dir + ["components", "ui", pascal + "List.jsx"], Script(t.list))]
  }

  /** What `generatePage(pageName)` writes. */
  function PlannedWrites(cwd: Path, pageName: string): (r: seq<(Path, FileContent)>)
    ensures |r| == 6
  {
    var pascal := Pascal(pageName);
    Layout(PageFolder(cwd, pageName), pascal, GetTemplates(pageName, pascal, Camel(pageName)))
  }

  /** The filesystem calls of one generation, in order: the two mkdirs,
      then the writes. */
  function Effects(hooks: Path, ui: Path, w: seq<(Path, FileContent)>): (r: seq<Effect>)
    requires |w| == 6
    ensures |r| == 8
  {
    [MakeDir(hooks), MakeDir(ui),
     WriteFile(w[0].0, w[0].1), WriteFile(w[1].0, w[1].1), WriteFile(w[2].0, w[2].1),
     WriteFile(w[3].0, w[3].1), WriteFile(w[4].0, w[4].1), WriteFile(w[5].0, w[5].1)]
  }

  /** Eight calls appended one at a time. */
  lemma AppendEight(t: seq<Effect>, e: seq<Effect>)
    requires |e| == 8
    ensures t + [e[0]] + [e[1]] + [e[2]] + [e[3]] + [e[4]] + [e[5]] + [e[6]] + [e[7]] == t + e
  {
    assert e == [e[0]] + [e[1]] + [e[2]] + [e[3]] + [e[4]] + [e[5]] + [e[6]] + [e[7]];
  }

  /** Six writes in a row, spelled out. */
  lemma ApplySixWrites(f: map<Path, FileContent>, w: seq<(Path, FileContent)>)
    requires |w| == 6
    ensures ApplyWrites(f, w)
      == f[w[0].0 := w[0].1][w[1].0 := w[1].1][w[2].0 := w[2].1][w[3].0 := w[3].1][w[4].0 := w[4].1][w[5].0 := w[5].1]
  {
    var f1 := f[w[0].0 := w[0].1];
    var f2 := f1[w[1].0 := w[1].1];
    var f3 := f2[w[2].0 := w[2].1];
    var f4 := f3[w[3].0 := w[3].1];
    var f5 := f4[w[4].0 := w[4].1];
    assert ApplyWrites(f5, w[5..]) == f5[w[5].0 := w[5].1] by { assert w[5..][1..] == []; }
    assert ApplyWrites(f4, w[4..]) == ApplyWrites(f5, w[5..]) by { assert w[4..][1..] == w[5..]; }
    assert ApplyWrites(f3, w[3..]) == ApplyWrites(f4, w[4..]) by { assert w[3..][1..] == w[4..]; }
    assert ApplyWrites(f2, w[2..]) == ApplyWrites(f3, w[3..]) by { assert w[2..][1..] == w[3..]; }
    assert ApplyWrites(f1, w[1..]) == ApplyWrites(f2, w[2..]) by { assert w[1..][1..] == w[2..]; }
  }

  /** `generatePage(pageName)`. Paths are built as segment sequences, which
      is what `path.join` gives for the names validation accepts: they hold
      no '/', '\\' or '.' (PageName.SuccessGuarantees). */
  method GeneratePage(fs: FileSystem, cwd: Path, pageName: string)
    modifies fs
    ensures fs.dirs == old(fs.dirs) + Ancestry(HooksDir(cwd, pageName)) + Ancestry(UiDir(cwd, pageName))
    ensures fs.files == ApplyWrites(old(fs.files), PlannedWrites(cwd, pageName))
    ensures fs.trace == old(fs.trace) + Effects(HooksDir(cwd, pageName), UiDir(cwd, pageName), PlannedWrites(cwd, pageName))
  {
    var pascal := Pascal(pageName);
    var camel := Camel(pageName);
    var target := PageFolder(cwd, pageName);
    ghost var tr0 := fs.trace;
    fs.MakeDirectory(target + ["components", "hooks"]);
    fs.MakeDirectory(target + ["components", "ui"]);
    var t := GetTemplates(pageName, pascal, camel);
    var w := Layout(target, pascal, t);
    ghost var f0 := fs.files;
    fs.Write(w[0].0, w[0].1);
    fs.Write(w[1].0, w[1].1);
    fs.Write(w[2].0, w[2].1);
    fs.Write(w[3].0, w[3].1);
    fs.Write(w[4].0, w[4].1);
    fs.Write(w[5].0, w[5].1);
    ApplySixWrites(f0, w);
    AppendEight(tr0, Effects(target + ["components", "hooks"], target + ["components", "ui"], w));
  }

  /** The paths a sequence of writes touches. */
  function WrittenPaths(w: seq<(Path, FileContent)>): (r: set<Path>)
    ensures forall i :: 0 <= i < |w| ==> w[i].0 in r
    ensures forall p :: p in r ==> exists i :: 0 <= i < |w| && w[i].0 == p
  {
    set i | 0 <= i < |w| :: w[i].0
  }

  /** The six files of a layout are distinct. */
  lemma LayoutDistinct(dir: Path, pascal: string, t: TemplateSet)
    ensures DistinctPaths(Layout(dir, pascal, t))
  {
    var w := Layout(dir, pascal, t);
    var n := |dir|;
    assert (pascal + "Search.jsx")[|pascal|..] != (pascal + "List.jsx")[|pascal|..];
    forall i, j | 0 <= i < j < 6 ensures w[i].0 != w[j].0 {
      if i == 4 && j == 5 {
        assert w[i].0[n + 2] != w[j].0[n + 2];
      } else if i == 1 && j == 2 {
        assert w[i].0[n + 1] != w[j].0[n + 1];
      } else if i == 3 {
        assert w[i].0[n + 1] != w[j].0[n + 1];
      } else {
        assert |w[i].0| != |w[j].0|;
      }
    }
  }

  /** Every file of a layout lies inside the page folder. */
  lemma LayoutInside(dir: Path, pascal: string, t: TemplateSet)
    ensures forall i :: 0 <= i < 6 ==> Below(Layout(dir, pascal, t)[i].0, dir)
  {
    var w := Layout(dir, pascal, t);
    forall i | 0 <= i < 6 ensures Below(w[i].0, dir) {
      assert w[i].0[..|dir|] == dir;
    }
  }

  /** Every file of a layout is written into a directory that exists once
      components/hooks and components/ui have been created recursively. */
  lemma LayoutParents(dir: Path, pascal: string, t: TemplateSet)
    requires |dir| > 0
    ensures forall i :: 0 <= i < 6 ==>
      Parent(Layout(dir, pascal, t)[i].0) in Ancestry(dir + ["components", "hooks"]) + Ancestry(dir + ["components", "ui"])
  {
    var ui := dir + ["components", "ui"];
    HooksAncestry(dir);
    LayoutParentDirs(dir, pascal, t);
    assert ui in Ancestry(ui);
  }

  /** The page folder, its components folder and components/hooks are all
      created by the recursive mkdir of components/hooks. */
  lemma HooksAncestry(dir: Path)
    requires |dir| > 0
    ensures dir in Ancestry(dir + ["components", "hooks"])
    ensures dir + ["components"] in Ancestry(dir + ["components", "hooks"])
    ensures dir + ["components", "hooks"] in Ancestry(dir + ["components", "hooks"])
  {
    var hooks := dir + ["components", "hooks"];
    var n := |dir|;
    assert hooks[..n] == dir;
    assert hooks[..n + 1] == dir + ["components"];
  }

  /** The directory each file of a layout is written into. */
  lemma LayoutParentDirs(dir: Path, pascal: string, t: TemplateSet)
    ensures var w := Layout(dir, pascal, t);
      && Parent(w[0].0) == dir
      && Parent(w[1].0) == dir + ["components"] && Parent(w[2].0) == dir + ["components"]
      && Parent(w[3].0) == dir + ["components", "hooks"]
      && Parent(w[4].0) == dir + ["components", "ui"] && Parent(w[5].0) == dir + ["components", "ui"]
  {
  }

  /** No file exists inside `dir` yet. */
  predicate FreshFolder(files: map<Path, FileContent>, dir: Path) {
    forall p :: p in files ==> !Below(p, dir)
  }

  /** A path strictly inside `dir` that is none of the written paths is not
      present after the writes into a fresh folder. */
  lemma AbsentInside(files: map<Path, FileContent>, dir: Path, w: seq<(Path, FileContent)>, p: Path)
    requires FreshFolder(files, dir) && Below(p, dir)
    requires forall i :: 0 <= i < |w| ==> w[i].0 != p
    ensures p !in files.Keys + WrittenPaths(w)
  {
  }

  /** An extension-less specifier that walks to an unwritten path whose
      ".js" file is written resolves to that file. */
  lemma ResolvesWithJs(keys: set<Path>, importer: Path, spec: seq<string>, target: Path)
    requires |importer| > 0 && |target| > 0
    requires Walk(Parent(importer), spec) == Some(target)
    requires target !in keys && WithExtension(target, ".js") in keys
    ensures Resolve(keys, importer, spec) == Some(WithExtension(target, ".js"))
  {
  }

  /** "../name" from `base + [sub]` reaches `base + [name]`. */
  lemma SiblingWalk(base: Path, sub: string, name: string)
    requires name != "." && name != ".."
    ensures Walk(base + [sub], ["..", name]) == Some(base + [name])
  {
    assert ["..", name] == [".."] + [name];
    WalkUp(base, sub, [name]);
    WalkDown(base, name, []);
  }

  /** The modules of a layout are extension-less module paths with ".js"
      added. */
  lemma LayoutModules(dir: Path, pascal: string, t: TemplateSet)
    ensures var w := Layout(dir, pascal, t);
      && w[1].0 == WithExtension(dir + ["components", "constants"], ".js")
      && w[2].0 == WithExtension(dir + ["components", "api"], ".js")
      && w[3].0 == WithExtension(dir + ["components", "hooks", "use" + pascal], ".js")
  {
    assert "constants" + ".js" == "constants.js";
    assert "api" + ".js" == "api.js";
  }

  /** The hook's imports of "../api" and "../constants" reach the API module
      and the constants module of the same folder, by adding ".js". */
  lemma HookImportsResolve(files: map<Path, FileContent>, dir: Path, pascal: string, t: TemplateSet)
    requires FreshFolder(files, dir)
    ensures var w := Layout(dir, pascal, t);
      var keys := files.Keys + WrittenPaths(w);
      && Resolve(keys, w[3].0, ["..", "api"]) == Some(w[2].0)
      && Resolve(keys, w[3].0, ["..", "constants"]) == Some(w[1].0)
  {
    var w := Layout(dir, pascal, t);
    var keys := files.Keys + WrittenPaths(w);
    var comps := dir + ["components"];
    var api, constants := comps + ["api"], comps + ["constants"];
    LayoutParentDirs(dir, pascal, t);
    LayoutModules(dir, pascal, t);
    assert Parent(w[3].0) == comps + ["hooks"];
    SiblingWalk(comps, "hooks", "api");
    SiblingWalk(comps, "hooks", "constants");
    assert api == dir + ["components", "api"] && constants == dir + ["components", "constants"];
    assert api[..|dir|] == dir && constants[..|dir|] == dir;
    AbsentInside(files, dir, w, api);
    AbsentInside(files, dir, w, constants);
    ResolvesWithJs(keys, w[3].0, ["..", "api"], api);
    ResolvesWithJs(keys, w[3].0, ["..", "constants"], constants);
  }

  /** "./components/hooks/<name>" from the page folder walks to that module. */
  lemma HookWalk(dir: Path, name: string)
    requires name != "." && name != ".."
    ensures Walk(dir, [".", "components", "hooks", name]) == Some(dir + ["components", "hooks", name])
  {
    var spec := [".", "components", "hooks", name];
    assert spec[1..] == ["components"] + (["hooks"] + ([name] + []));
    WalkDown(dir, "components", ["hooks"] + ([name] + []));
    WalkDown(dir + ["components"], "hooks", [name] + []);
    WalkDown(dir + ["components"] + ["hooks"], name, []);
    assert dir + ["components"] + ["hooks"] + [name] == dir + ["components", "hooks", name];
  }

  /** The page component's import of "./components/hooks/use<Pascal>"
      reaches the hook module, by adding ".js". */
  lemma PageImportResolves(files: map<Path, FileContent>, dir: Path, pascal: string, t: TemplateSet)
    requires FreshFolder(files, dir)
    ensures var w := Layout(dir, pascal, t);
      Resolve(files.Keys + WrittenPaths(w), w[0].0, [".", "components", "hooks", "use" + pascal]) == Some(w[3].0)
  {
    var w := Layout(dir, pascal, t);
    var keys := files.Keys + WrittenPaths(w);
    var name := "use" + pascal;
    var hook := dir + ["components", "hooks", name];
    LayoutParentDirs(dir, pascal, t);
    LayoutModules(dir, pascal, t);
    assert name != "." && name != ".." by {
      assert name[0] == 'u';
    }
    HookWalk(dir, name);
    assert hook[..|dir|] == dir;
    assert |hook[|dir| + 2]| != |w[3].0[|dir| + 2]|;
    AbsentInside(files, dir, w, hook);
    ResolvesWithJs(keys, w[0].0, [".", "components", "hooks", name], hook);
  }

  /** The search form's and the list's import of "../constants" reach the
      constants module. */
  lemma UiImportsResolve(files: map<Path, FileContent>, dir: Path, pascal: string, t: TemplateSet)
    requires FreshFolder(files, dir)
    ensures var w := Layout(dir, pascal, t);
      var keys := files.Keys + WrittenPaths(w);
      && Resolve(keys, w[4].0, ["..", "constants"]) == Some(w[1].0)
      && Resolve(keys, w[5].0, ["..", "constants"]) == Some(w[1].0)
  {
    var w := Layout(dir, pascal, t);
    var keys := files.Keys + WrittenPaths(w);
    var comps := dir + ["components"];
    var constants := comps + ["constants"];
    LayoutParentDirs(dir, pascal, t);
    LayoutModules(dir, pascal, t);
    assert Parent(w[4].0) == comps + ["ui"] && Parent(w[5].0) == comps + ["ui"];
    SiblingWalk(comps, "ui", "constants");
    assert constants == dir + ["components", "constants"];
    assert constants[..|dir|] == dir;
    AbsentInside(files, dir, w, constants);
    ResolvesWithJs(keys, w[4].0, ["..", "constants"], constants);
    ResolvesWithJs(keys, w[5].0, ["..", "constants"], constants);
  }

  /** An import of module `importer` is satisfied by `files`: its specifier
      resolves to a JavaScript module there that exports every imported name. */
  predicate ImportSatisfied(files: map<Path, FileContent>, importer: Path, im: Import)
    requires |importer| > 0
  {
    match Resolve(files.Keys, importer, im.from)
    case None => false
    case Some(p) => files[p].Script? && forall x :: x in im.names ==> x in files[p].source.exports
  }

  /** Every relative import of `src`, the module at `importer`, is satisfied. */
  predicate RelativeImportsSatisfied(files: map<Path, FileContent>, importer: Path, src: Source)
    requires |importer| > 0
  {
    forall im :: im in src.imports && IsRelative(im.from) ==> ImportSatisfied(files, importer, im)
  }

  /** The files after writing a layout into a fresh folder. */
  lemma AfterLayout(files: map<Path, FileContent>, dir: Path, pascal: string, t: TemplateSet)
    ensures var w := Layout(dir, pascal, t);
      var after := ApplyWrites(files, w);
      && after.Keys == files.Keys + WrittenPaths(w)
      && forall i :: 0 <= i < 6 ==> after[w[i].0] == w[i].1
  {
    var w := Layout(dir, pascal, t);
    LayoutDistinct(dir, pascal, t);
    ApplyDistinctWrites(files, w);
  }

  /** The hook's two relative imports are satisfied. */
  lemma HookSatisfied(files: map<Path, FileContent>, dir: Path, pageName: string, pascal: string, camel: string)
    requires FreshFolder(files, dir)
    ensures var w := Layout(dir, pascal, GetTemplates(pageName, pascal, camel));
      RelativeImportsSatisfied(ApplyWrites(files, w), w[3].0, Hook(pascal))
  {
    var t := GetTemplates(pageName, pascal, camel);
    var w := Layout(dir, pascal, t);
    var after := ApplyWrites(files, w);
    AfterLayout(files, dir, pascal, t);
    HookImportsResolve(files, dir, pascal, t);
    var h := Hook(pascal);
    assert !IsRelative(h.imports[0].from) && !IsRelative(h.imports[1].from);
    assert ImportSatisfied(after, w[3].0, h.imports[2]);
    assert ImportSatisfied(after, w[3].0, h.imports[3]);
  }

  /** The page component's relative import is satisfied. */
  lemma PageSatisfied(files: map<Path, FileContent>, dir: Path, pageName: string, pascal: string, camel: string)
    requires FreshFolder(files, dir)
    ensures var w := Layout(dir, pascal, GetTemplates(pageName, pascal, camel));
      RelativeImportsSatisfied(ApplyWrites(files, w), w[0].0, Page(pageName, pascal))
  {
    var t := GetTemplates(pageName, pascal, camel);
    var w := Layout(dir, pascal, t);
    var after := ApplyWrites(files, w);
    AfterLayout(files, dir, pascal, t);
    PageImportResolves(files, dir, pascal, t);
    var p := Page(pageName, pascal);
    assert !IsRelative(p.imports[0].from);
    assert ImportSatisfied(after, w[0].0, p.imports[1]);
  }

  /** The search form's relative import is satisfied. */
  lemma SearchSatisfied(files: map<Path, FileContent>, dir: Path, pageName: string, pascal: string, camel: string)
    requires FreshFolder(files, dir)
    ensures var w := Layout(dir, pascal, GetTemplates(pageName, pascal, camel));
      RelativeImportsSatisfied(ApplyWrites(files, w), w[4].0, Search(pascal))
  {
    var t := GetTemplates(pageName, pascal, camel);
    var w := Layout(dir, pascal, t);
    var after := ApplyWrites(files, w);
    AfterLayout(files, dir, pascal, t);
    UiImportsResolve(files, dir, pascal, t);
    var s := Search(pascal);
    assert !IsRelative(s.imports[0].from);
    assert ImportSatisfied(after, w[4].0, s.imports[1]);
  }

  /** The list's relative import is satisfied. */
  lemma ListSatisfied(files: map<Path, FileContent>, dir: Path, pageName: string, pascal: string, camel: string)
    requires FreshFolder(files, dir)
    ensures var w := Layout(dir, pascal, GetTemplates(pageName, pascal, camel));
      RelativeImportsSatisfied(ApplyWrites(files, w), w[5].0, List(pascal))
  {
    var t := GetTemplates(pageName, pascal, camel);
    var w := Layout(dir, pascal, t);
    var after := ApplyWrites(files, w);
    AfterLayout(files, dir, pascal, t);
    UiImportsResolve(files, dir, pascal, t);
    var l := List(pascal);
    assert !IsRelative(l.imports[0].from);
    assert ImportSatisfied(after, w[5].0, l.imports[1]);
  }

  /** The API module imports only packages (through the "@/" alias of the
      project's source root). */
  lemma ApiImportsPackages(pascal: string, camel: string)
    ensures forall im :: im in Api(pascal, camel).imports ==> !IsRelative(im.from)
  {
    var a := Api(pascal, camel);
    assert forall k :: 0 <= k < 3 ==> a.imports[k].from[0] == "@";
  }

  /** Writing the six modules into a fresh folder leaves every relative
      import of each of them satisfied. */
  lemma LayoutImportsResolve(files: map<Path, FileContent>, dir: Path, pageName: string, pascal: string, camel: string)
    requires FreshFolder(files, dir)
    ensures var w := Layout(dir, pascal, GetTemplates(pageName, pascal, camel));
      forall i :: 0 <= i < 6 ==>
        |w[i].0| > 0 && w[i].1.Script? && RelativeImportsSatisfied(ApplyWrites(files, w), w[i].0, w[i].1.source)
  {
    var t := GetTemplates(pageName, pascal, camel);
    var w := Layout(dir, pascal, t);
    var after := ApplyWrites(files, w);
    forall i | 0 <= i < 6 ensures |w[i].0| > 0 && w[i].1.Script? && RelativeImportsSatisfied(after, w[i].0, w[i].1.source) {
      if i == 0 {
        PageSatisfied(files, dir, pageName, pascal, camel);
      } else if i == 1 {
        assert w[i].1.source.imports == [];
      } else if i == 2 {
        ApiImportsPackages(pascal, camel);
      } else if i == 3 {
        HookSatisfied(files, dir, pageName, pascal, camel);
      } else if i == 4 {
        SearchSatisfied(files, dir, pageName, pascal, camel);
      } else {
        ListSatisfied(files, dir, pageName, pascal, camel);
      }
    }
  }

  /** Generating a page into a folder that holds nothing yet leaves the
      paths and the imported and exported names in agreement: every relative
      import of every generated module resolves to a generated module
      exporting the imported names. Names are compared as strings; whether
      they are JavaScript identifiers is a separate matter
      (CaseConversion.DanglingHyphenSurvives). */
  lemma GeneratedImportsResolve(cwd: Path, pageName: string, files: map<Path, FileContent>)
    requires FreshFolder(files, PageFolder(cwd, pageName))
    ensures var w := PlannedWrites(cwd, pageName);
      forall i :: 0 <= i < 6 ==>
        |w[i].0| > 0 && w[i].1.Script? && RelativeImportsSatisfied(ApplyWrites(files, w), w[i].0, w[i].1.source)
  {
    LayoutImportsResolve(files, PageFolder(cwd, pageName), pageName, Pascal(pageName), Camel(pageName));
  }

  /** Generation adds exactly the six planned files, gives each its module,
      and leaves every file outside the page folder as it was. */
  lemma GenerationKeepsOtherFiles(cwd: Path, pageName: string, files: map<Path, FileContent>)
    ensures var w := PlannedWrites(cwd, pageName);
      var after := ApplyWrites(files, w);
      && after.Keys == files.Keys + WrittenPaths(w)
      && (forall i :: 0 <= i < 6 ==> after[w[i].0] == w[i].1)
      && (forall p :: p in files && !Below(p, PageFolder(cwd, pageName)) ==> after[p] == files[p])
  {
    var dir, pascal := PageFolder(cwd, pageName), Pascal(pageName);
    var t := GetTemplates(pageName, pascal, Camel(pageName));
    var w := Layout(dir, pascal, t);
    LayoutDistinct(dir, pascal, t);
    LayoutInside(dir, pascal, t);
    ApplyDistinctWrites(files, w);
  }

  /** The file names for the Pascal name "UserMgt". */
  lemma UserMgtFileNames(dir: Path, pascal: string, t: TemplateSet)
    requires pascal == "UserMgt"
    ensures var w := Layout(dir, pascal, t);
      && w[0].0 == dir + ["UserMgtPage.jsx"]
      && w[3].0 == dir + ["components", "hooks", "useUserMgt.js"]
      && w[4].0 == dir + ["components", "ui", "UserMgtSearch.jsx"]
  {
    assert pascal + "Page.jsx" == "UserMgtPage.jsx";
    assert "use" + pascal + ".js" == "useUserMgt.js";
    assert pascal + "Search.jsx" == "UserMgtSearch.jsx";
  }

  lemma ApiExportsList(pascal: string)
    ensures "get" + pascal + "List" in ApiExports(pascal)
  {
    assert ApiExports(pascal)[1] == "get" + pascal + "List";
  }

  /** The API module for "UserMgt" exports getUserMgtList. */
  lemma UserMgtListExport(pascal: string, camel: string)
    requires pascal == "UserMgt"
    ensures "getUserMgtList" in Api(pascal, camel).exports
  {
    var name := "get" + pascal + "List";
    assert name == "getUserMgtList";
    ApiExportsList(pascal);
    ApiExportsOf(pascal, camel);
  }

  /** The guide's example: "user-mgt" yields UserMgtPage.jsx and the hook
      components/hooks/useUserMgt.js, whose API module exports getUserMgtList. */
  lemma GuideExampleLayout(cwd: Path)
    ensures var w := PlannedWrites(cwd, "user-mgt");
      var dir := cwd + ["src", "page", "user-mgt"];
      && w[0].0 == dir + ["UserMgtPage.jsx"]
      && w[3].0 == dir + ["components", "hooks", "useUserMgt.js"]
      && w[4].0 == dir + ["components", "ui", "UserMgtSearch.jsx"]
      && "getUserMgtList" in w[2].1.source.exports
  {
    GuideExampleUserMgt();
    var t := GetTemplates("user-mgt", "UserMgt", "userMgt");
    UserMgtFileNames(cwd + ["src", "page", "user-mgt"], "UserMgt", t);
    UserMgtListExport("UserMgt", "userMgt");
  }

  /** Writing a layout after creating components/hooks and components/ui
      keeps the filesystem well formed. */
  lemma LayoutPreservesWellFormed(dir: Path, pascal: string, t: TemplateSet, dirs: set<Path>, files: map<Path, FileContent>)
    requires WellFormed(dirs, files) && |dir| > 0
    ensures WellFormed(dirs + Ancestry(dir + ["components", "hooks"]) + Ancestry(dir + ["components", "ui"]),
                       ApplyWrites(files, Layout(dir, pascal, t)))
  {
    var w := Layout(dir, pascal, t);
    var hooks, ui := dir + ["components", "hooks"], dir + ["components", "ui"];
    var dirs' := dirs + Ancestry(hooks) + Ancestry(ui);
    LayoutParents(dir, pascal, t);
    forall i, k | 0 <= i < |w| && 1 <= k < |w[i].0| ensures w[i].0[..k] in dirs' {
      var q := Parent(w[i].0);
      assert w[i].0[..k] == q[..k];
      if q in Ancestry(hooks) {
        assert w[i].0[..k] == hooks[..k];
      } else {
        assert w[i].0[..k] == ui[..k];
      }
    }
    WritesKeepWellFormed(dirs', files, w);
  }

  /** Generation keeps the filesystem well formed: each new file is written
      into a directory the two mkdirs have created, with all its ancestors. */
  lemma GenerationPreservesWellFormed(cwd: Path, pageName: string, dirs: set<Path>, files: map<Path, FileContent>)
    requires WellFormed(dirs, files)
    ensures WellFormed(dirs + Ancestry(HooksDir(cwd, pageName)) + Ancestry(UiDir(cwd, pageName)),
                       ApplyWrites(files, PlannedWrites(cwd, pageName)))
  {
    var pascal := Pascal(pageName);
    LayoutPreservesWellFormed(PageFolder(cwd, pageName), pascal, GetTemplates(pageName, pascal, Camel(pageName)), dirs, files);
  }
}
