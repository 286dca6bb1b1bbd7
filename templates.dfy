/** `getTemplates(pageName, pascalName, camelName)`: the six generated React
    modules. Their literal text is kept opaque; what is modelled is where the
    three names are substituted, every import declaration and every export.
    A template literal such as `get${pascalName}List` is the string expression
    "get" + pascal + "List". Imports that the templates only mention inside
    comments are not imports. */
module Templates {
  import opened Scripts

  datatype TemplateSet = TemplateSet(constants: Source, api: Source, hook: Source, page: Source, search: Source, list: Source)

  /** The text of template `file`: numbered literal chunks alternating with
      the substituted `names`. */
  function Body(file: string, names: seq<string>): seq<BodyPart>
  {
    seq(2 * |names| + 1, i requires 0 <= i < 2 * |names| + 1 =>
      if i % 2 == 0 then Chunk(file, i / 2) else Name(names[i / 2]))
  }

  /** A body starts and ends with a literal chunk, and its chunks alternate
      with the substituted names, in the order they occur in the template. */
  lemma BodyShape(file: string, names: seq<string>)
    ensures var r := Body(file, names);
      && |r| == 2 * |names| + 1
      && (forall i :: 0 <= i < |names| ==> r[2 * i] == Chunk(file, i) && r[2 * i + 1] == Name(names[i]))
      && r[2 * |names|] == Chunk(file, |names|)
      && (forall k :: 0 <= k < |r| && r[k].Name? ==> r[k].value in names)
  {
    var r := Body(file, names);
    forall i | 0 <= i < |names| ensures r[2 * i] == Chunk(file, i) && r[2 * i + 1] == Name(names[i]) {
      assert (2 * i) % 2 == 0 && (2 * i) / 2 == i;
      assert (2 * i + 1) % 2 == 1 && (2 * i + 1) / 2 == i;
    }
    assert (2 * |names|) % 2 == 0 && (2 * |names|) / 2 == |names|;
    forall k | 0 <= k < |r| && r[k].Name? ensures r[k].value in names {
      if k % 2 == 1 {
        assert r[k] == Name(names[k / 2]);
      }
    }
  }

  /** components/constants.js: the page's constants; the Pascal name appears
      in its header comment. */
  function Constants(pascal: string): Source
  {
    Source([],
      ["INITIAL_SEARCH_STATE", "INITIAL_PAGE_STATE", "INITIAL_FORM_DATA", "TABLE_HEADERS", "ERROR_MESSAGES", "UI_TEXT"],
      Body("constants", [pascal]))
  }

  /** components/api.js: the request functions; each looks up its URL under
      the key `<camel>.<action>`. */
  function Api(pascal: string, camel: string): Source
  {
    Source(
      [Import(["getApiUrl"], ["@", "api", "utils", "urlBuilder"]),
       Import(["setHeaders"], ["@", "api", "utils", "headers"]),
       Import(["ENV"], ["@", "config", "env"])],
      ApiExports(pascal),
      Body("api", [pascal, camel, camel, camel, camel, camel, camel, camel]))
  }

  /** The API module's exported functions. */
  function ApiExports(pascal: string): seq<string>
  {
    ["getOption", "get" + pascal + "List", "get" + pascal, "add" + pascal, "update" + pascal, "delete" + pascal,
     "downloadExcel"]
  }

  lemma ApiExportsOf(pascal: string, camel: string)
    ensures Api(pascal, camel).exports == ApiExports(pascal)
  {
  }

  /** components/hooks/use<Pascal>.js: the page's state hook. */
  function Hook(pascal: string): Source
  {
    Source(
      [Import(["useState", "useEffect", "useCallback"], ["react"]),
       Import(["useAlert"], ["@ktds-ui", "context"]),
       Import(["getOption", "get" + pascal + "List"], ["..", "api"]),
       Import(["INITIAL_SEARCH_STATE", "INITIAL_PAGE_STATE", "ERROR_MESSAGES"], ["..", "constants"])],
      ["use" + pascal],
      Body("hook", [pascal, pascal]))
  }

  /** <Pascal>Page.jsx: the page component; its header comment shows the
      route file to create, which mentions the page name. */
  function Page(pageName: string, pascal: string): Source
  {
    Source(
      [Import(["ContentTitle"], ["@ktds-ui", "layout"]),
       Import(["use" + pascal], [".", "components", "hooks", "use" + pascal])],
      [pascal + "Page"],
      Body("page", PageHoles(pageName, pascal)))
  }

  /** The twenty substitutions in the body of the page template (its import
      of use<Pascal> and its <Pascal>Page export are stated separately), in
      order: the page name
      in the route file of the header comment (the 2nd, 4th and 8th), the
      Pascal name everywhere else. */
  function PageHoles(pageName: string, pascal: string): (r: seq<string>)
    ensures |r| == 20
  {
    seq(20, i => if i == 1 || i == 3 || i == 7 then pageName else pascal)
  }

  /** components/ui/<Pascal>Search.jsx: the search form, default-exported. */
  function Search(pascal: string): Source
  {
    Source(
      [Import(["Stack", "Button", "Input", "Select"], ["@ktds-ui", "components"]),
       Import(["UI_TEXT"], ["..", "constants"])],
      ["default"],
      Body("search", [pascal, pascal, pascal]))
  }

  /** components/ui/<Pascal>List.jsx: the result table, default-exported. */
  function List(pascal: string): Source
  {
    Source(
      [Import(["Stack", "Button", "Table", "Pagination"], ["@ktds-ui", "components"]),
       Import(["TABLE_HEADERS", "UI_TEXT"], ["..", "constants"])],
      ["default"],
      Body("list", [pascal, pascal, pascal]))
  }

  /** `getTemplates`. */
  function GetTemplates(pageName: string, pascal: string, camel: string): TemplateSet
  {
    TemplateSet(Constants(pascal), Api(pascal, camel), Hook(pascal), Page(pageName, pascal), Search(pascal), List(pascal))
  }

  /** The body of each generated module, by template. */
  lemma TemplateBodies(pageName: string, pascal: string, camel: string)
    ensures var t := GetTemplates(pageName, pascal, camel);
      && t.constants.body == Body("constants", [pascal])
      && t.api.body == Body("api", [pascal, camel, camel, camel, camel, camel, camel, camel])
      && t.hook.body == Body("hook", [pascal, pascal])
      && t.page.body == Body("page", PageHoles(pageName, pascal))
      && t.search.body == Body("search", [pascal, pascal, pascal])
      && t.list.body == Body("list", [pascal, pascal, pascal])
  {
  }

  /** The page name is substituted only into the page component, in the
      route file its header comment shows. */
  lemma PageNameOnlyInPage(pageName: string, pascal: string, camel: string)
    ensures var t := GetTemplates(pageName, pascal, camel);
      && (forall k :: 0 <= k < |t.page.body| && t.page.body[k].Name? ==> t.page.body[k].value in {pageName, pascal})
      && t.page.body[3] == Name(pageName) && t.page.body[7] == Name(pageName) && t.page.body[15] == Name(pageName)
  {
    var h := PageHoles(pageName, pascal);
    var b := Body("page", h);
    TemplateBodies(pageName, pascal, camel);
    BodyShape("page", h);
    assert b[2 * 1 + 1] == Name(h[1]);
    assert b[2 * 3 + 1] == Name(h[3]);
    assert b[2 * 7 + 1] == Name(h[7]);
    assert forall x :: x in h ==> x in {pageName, pascal};
  }

  /** The camel name is substituted only into the API module (its URL keys). */
  lemma CamelOnlyInApi(pageName: string, pascal: string, camel: string)
    ensures var t := GetTemplates(pageName, pascal, camel);
      && (forall k :: 0 <= k < |t.api.body| && t.api.body[k].Name? ==> t.api.body[k].value in {pascal, camel})
      && t.api.body[3] == Name(camel)
  {
    var names := [pascal, camel, camel, camel, camel, camel, camel, camel];
    var b := Body("api", names);
    TemplateBodies(pageName, pascal, camel);
    BodyShape("api", names);
    assert b[2 * 1 + 1] == Name(names[1]);
    assert forall x :: x in names ==> x in {pascal, camel};
  }

  /** The other four modules receive only the Pascal name. */
  lemma OthersOnlyPascal(pageName: string, pascal: string, camel: string)
    ensures var t := GetTemplates(pageName, pascal, camel);
      && (forall k :: 0 <= k < |t.constants.body| && t.constants.body[k].Name? ==> t.constants.body[k].value == pascal)
      && (forall k :: 0 <= k < |t.hook.body| && t.hook.body[k].Name? ==> t.hook.body[k].value == pascal)
      && (forall k :: 0 <= k < |t.search.body| && t.search.body[k].Name? ==> t.search.body[k].value == pascal)
      && (forall k :: 0 <= k < |t.list.body| && t.list.body[k].Name? ==> t.list.body[k].value == pascal)
  {
    TemplateBodies(pageName, pascal, camel);
    BodyShape("constants", [pascal]);
    BodyShape("hook", [pascal, pascal]);
    BodyShape("search", [pascal, pascal, pascal]);
    BodyShape("list", [pascal, pascal, pascal]);
  }
}
