/**
 * The Swagger 2.0 exporter (`swaggerGenerator`): the document base (server,
 * definitions, global parameters, response definitions), each operation's
 * parameters and responses, and the `paths` object.
 *
 * The exporter keeps one field, `modelNames` (model id to name), filled by
 * `GenerateBase` and read by every schema conversion. The visiting order of
 * every map it ranges over is the input `order`.
 */
module SwaggerGenerate {
  import opened Wrappers
  import opened Text
  import Lists
  import opened JsonSchema
  import opened Spec2

  /** What `url.Parse` yields for a server URL; None stands for its error. */
  datatype Url = Url(scheme: string, host: string, path: string)
  type UrlParser = string -> Option<Url>

  /**
   * An exported response: nil, a `$ref` object, the bare success object, or
   * the inline form with its name, description, headers, schema (the `schema`
   * key may be present with a nil value) and one example.
   */
  datatype ResponseObject =
    | NilResponse
    | RefObject(ref: string)
    | Described(description: string)
    | Inline(name: string, description: string, headers: Option<map<string, Option<Schema>>>, schema: Option<Option<Schema>>, examples: Option<(string, Example)>)

  datatype SwaggerDoc = SwaggerDoc(
    swagger: string,
    info: Info,
    host: string,
    basePath: string,
    schemes: seq<string>,
    definitions: map<string, Option<Schema>>,
    globalParameters: map<string, OutParam>,
    responses: Option<map<string, ResponseObject>>)

  datatype PathItem = PathItem(
    summary: string,
    description: string,
    operationId: string,
    tags: seq<string>,
    consumes: seq<string>,
    produces: seq<string>,
    parameters: seq<OutParam>,
    responses: map<string, ResponseObject>)

  /** One http collection with the path and method it is exported under. */
  datatype Route = Route(path: string, httpMethod: string, op: HttpOperation)

  const Version: string := "2.0"
  const DefinitionResponsePrefix: string := "#/definitions/responses/"
  const SwaggerResponsePrefix: string := "#/responses/"
  const ParameterLocations: seq<string> := ["header", "query", "path", "cookie"]
  const DefaultProduces: string := "application/json"

  /** `convertJsonSchema`: nil stays nil, anything else goes through `convertJsonSchemaRef` for version 2.0. */
  function ConvertSchema(v: Option<Schema>, names: map<Int64, string>, convertRef: RefConverter): (r: Option<Schema>)
    ensures r.None? <==> v.None?
  {
    if v.None? then None else Some(convertRef(v.value, Version, names))
  }

  // ---------------------------------------------------------------------
  // Document base

  /** The URL of the first server that parses. */
  function FirstServer(servers: seq<Server>, parseUrl: UrlParser): (r: Option<Url>)
    ensures r.None? <==> forall i :: 0 <= i < |servers| ==> parseUrl(servers[i].url).None?
    ensures r.Some? ==> exists i :: (0 <= i < |servers| && parseUrl(servers[i].url) == r &&
      forall j :: 0 <= j < i ==> parseUrl(servers[j].url).None?)
  {
    if |servers| == 0 then None
    else if parseUrl(servers[0].url).Some? then parseUrl(servers[0].url)
    else
      var r := FirstServer(servers[1..], parseUrl);
      assert forall i :: 1 <= i < |servers| ==> servers[i] == servers[1..][i - 1];
      if r.Some? then
        var i :| 0 <= i < |servers[1..]| && parseUrl(servers[1..][i].url) == r && forall j :: 0 <= j < i ==> parseUrl(servers[1..][j].url).None?;
        assert parseUrl(servers[i + 1].url) == r;
        r
      else r
  }

  /** The category models replaced by their flattened items, in order. */
  function Flattened(schemas: seq<DefinitionModel>, flatten: FlattenModel): seq<DefinitionModel>
  {
    if |schemas| == 0 then []
    else
      var v := schemas[|schemas| - 1];
      Flattened(schemas[..|schemas| - 1], flatten) + (if v.typ == CategoryType then flatten(v) else [v])
  }

  /** Model id to name, the later model of an id winning. */
  function NamesOf(ms: seq<DefinitionModel>): map<Int64, string>
  {
    if |ms| == 0 then map[]
    else
      var m := ms[|ms| - 1];
      NamesOf(ms[..|ms| - 1])[m.id := m.name]
  }

  /** A definition's key: its name without spaces, "-", its id. */
  function ModelKey(m: DefinitionModel): string
  {
    NameId(StripSpaces(m.name), m.id)
  }

  function DefinitionsOf(ms: seq<DefinitionModel>, names: map<Int64, string>, convertRef: RefConverter): map<string, Option<Schema>>
  {
    if |ms| == 0 then map[]
    else
      var m := ms[|ms| - 1];
      DefinitionsOf(ms[..|ms| - 1], names, convertRef)[ModelKey(m) := ConvertSchema(m.schema, names, convertRef)]
  }

  /** The ids recorded in `modelNames` are exactly the ids of the models. */
  lemma {:induction false} NamesOfKeys(ms: seq<DefinitionModel>, id: Int64)
    ensures id in NamesOf(ms) <==> exists m :: m in ms && m.id == id
  {
    if |ms| > 0 {
      var init := ms[..|ms| - 1];
      NamesOfKeys(init, id);
      if m :| m in ms && m.id == id {
        Lists.InSnoc(ms, m);
      }
      if m :| m in init && m.id == id {
        Lists.InSnoc(ms, m);
      }
    }
  }

  /** Every model, category items included, has a definition keyed "<name without spaces>-<id>", and nothing else does. */
  lemma {:induction false} DefinitionKeys(ms: seq<DefinitionModel>, names: map<Int64, string>, convertRef: RefConverter, k: string)
    ensures k in DefinitionsOf(ms, names, convertRef) <==> exists m :: m in ms && ModelKey(m) == k
  {
    if |ms| > 0 {
      var init := ms[..|ms| - 1];
      DefinitionKeys(init, names, convertRef, k);
      if m :| m in ms && ModelKey(m) == k {
        Lists.InSnoc(ms, m);
      }
      if m :| m in init && ModelKey(m) == k {
        Lists.InSnoc(ms, m);
      }
    }
  }

  /** A global parameter's key: its name, "-", its id. */
  function GlobalKey(p: Parameter): string
  {
    NameId(p.name, p.id)
  }

  /** The global parameters of one location, keyed "<name>-<id>". */
  function AddGlobals(r: map<string, OutParam>, ps: seq<Parameter>, loc: string, toParameter: ToParameter): map<string, OutParam>
  {
    if |ps| == 0 then r
    else
      var p := ps[|ps| - 1];
      AddGlobals(r, ps[..|ps| - 1], loc, toParameter)[GlobalKey(p) := toParameter(p, loc, Version)]
  }

  /** The `x-apicat-global-parameters` object: every location's parameters, keyed "<name>-<id>". */
  function GlobalsOut(g: Located, locs: seq<string>, toParameter: ToParameter): map<string, OutParam>
  {
    if |locs| == 0 then map[]
    else
      var loc := locs[|locs| - 1];
      AddGlobals(GlobalsOut(g, locs[..|locs| - 1], toParameter), ParamsAt(g, loc), loc, toParameter)
  }

  lemma AddGlobalsStep(r: map<string, OutParam>, ps: seq<Parameter>, j: nat, loc: string, toParameter: ToParameter)
    requires j < |ps|
    ensures AddGlobals(r, ps[..j + 1], loc, toParameter) == AddGlobals(r, ps[..j], loc, toParameter)[GlobalKey(ps[j]) := toParameter(ps[j], loc, Version)]
  {
    assert ps[..j + 1][..j] == ps[..j];
  }

  lemma GlobalsOutStep(g: Located, locs: seq<string>, i: nat, toParameter: ToParameter)
    requires i < |locs|
    ensures GlobalsOut(g, locs[..i + 1], toParameter) == AddGlobals(GlobalsOut(g, locs[..i], toParameter), ParamsAt(g, locs[i]), locs[i], toParameter)
  {
    assert locs[..i + 1][..i] == locs[..i];
  }

  lemma {:induction false} AddGlobalsKeys(r: map<string, OutParam>, ps: seq<Parameter>, loc: string, toParameter: ToParameter, k: string)
    ensures k in AddGlobals(r, ps, loc, toParameter) <==> k in r || exists p :: p in ps && GlobalKey(p) == k
  {
    if |ps| > 0 {
      var init := ps[..|ps| - 1];
      AddGlobalsKeys(r, init, loc, toParameter, k);
      if p :| p in ps && GlobalKey(p) == k {
        Lists.InSnoc(ps, p);
      }
      if p :| p in init && GlobalKey(p) == k {
        Lists.InSnoc(ps, p);
      }
    }
  }

  /**
   * Global parameters are keyed "<name>-<id>": the key carries no location,
   * so two locations' parameters of the same name and id share one key.
   */
  lemma {:induction false} GlobalsOutKeys(g: Located, locs: seq<string>, toParameter: ToParameter, k: string)
    ensures k in GlobalsOut(g, locs, toParameter) <==>
      exists loc, p :: loc in locs && p in ParamsAt(g, loc) && GlobalKey(p) == k
  {
    if |locs| > 0 {
      var init := locs[..|locs| - 1];
      var loc := locs[|locs| - 1];
      GlobalsOutKeys(g, init, toParameter, k);
      AddGlobalsKeys(GlobalsOut(g, init, toParameter), ParamsAt(g, loc), loc, toParameter, k);
      if k in GlobalsOut(g, locs, toParameter) {
        if k in GlobalsOut(g, init, toParameter) {
          var l, p :| l in init && p in ParamsAt(g, l) && GlobalKey(p) == k;
          Lists.InSnoc(locs, l);
        } else {
          var p :| p in ParamsAt(g, loc) && GlobalKey(p) == k;
          Lists.InSnoc(locs, loc);
        }
      }
      if exists l, p :: l in locs && p in ParamsAt(g, l) && GlobalKey(p) == k {
        var l, p :| l in locs && p in ParamsAt(g, l) && GlobalKey(p) == k;
        Lists.InSnoc(locs, l);
      }
    }
  }

  // ---------------------------------------------------------------------
  // Responses

  /** A header as exported: the schema takes the parameter's description when it has none, and its example becomes the default. */
  function HeaderSchema(p: Parameter): (r: Option<Schema>)
    ensures r.None? <==> p.schema.None?
    ensures r.Some? ==> r.value.examples.None? && r.value.default == p.schema.value.examples
    ensures r.Some? ==> r.value.description == if p.schema.value.description == "" then p.description else p.schema.value.description
  {
    if p.schema.None? then None
    else
      var s := p.schema.value;
      Some(s.(description := if s.description == "" then p.description else s.description, default := s.examples, examples := None))
  }

  function HeadersOf(hs: seq<Parameter>): map<string, Option<Schema>>
  {
    if |hs| == 0 then map[]
    else
      var h := hs[|hs| - 1];
      HeadersOf(hs[..|hs| - 1])[h.name := HeaderSchema(h)]
  }

  /** The `examples` entry: the first example of the body, filed under its MIME type. */
  function FirstExample(mime: string, b: Body): Option<(string, Example)>
  {
    if b.examples.Some? && |b.examples.value| > 0 then Some((mime, b.examples.value[0])) else None
  }

  /**
   * `generateResponseWithoutRef`: name, description, headers when there are
   * any, and the schema and first example of the first content type visited.
   */
  function InlineResponse(b: BasicResponse, names: map<Int64, string>, convertRef: RefConverter, order: KeyOrder): (r: ResponseObject)
    requires ValidOrder(order)
    ensures r.Inline? && r.name == b.name && r.description == b.description
    ensures r.headers.Some? <==> |b.header| > 0
    ensures r.schema.Some? <==> b.content.Some? && |b.content.value| > 0
    ensures r.examples.Some? ==> r.schema.Some?
  {
    var headers := if |b.header| > 0 then Some(HeadersOf(b.header)) else None;
    if b.content.None? then Inline(b.name, b.description, headers, None, None)
    else
      var ks := order(b.content.value.Keys);
      if |ks| == 0 then
        OrderEmpty(order, b.content.value.Keys);
        Inline(b.name, b.description, headers, None, None)
      else
        assert ks[0] in b.content.value;
        var body := b.content.value[ks[0]];
        Inline(b.name, b.description, headers, Some(ConvertSchema(body.schema, names, convertRef)), FirstExample(ks[0], body))
  }

  /**
   * `generateResponse`: a reference to a known response definition becomes
   * `{"$ref": "#/responses/<name>-<id>"}`, any other reference becomes nil,
   * and a response without reference is exported inline.
   */
  function GeneratedResponse(resp: Response, lookup: ResponseLookup, names: map<Int64, string>, convertRef: RefConverter, order: KeyOrder): (r: ResponseObject)
    requires ValidOrder(order)
    ensures resp.reference == "" ==> r == InlineResponse(resp.basic, names, convertRef, order)
    ensures resp.reference != "" && HasPrefix(resp.reference, DefinitionResponsePrefix) && lookup(resp.reference).Some? ==>
      r == RefObject(SwaggerResponsePrefix + NameId(lookup(resp.reference).value.name, lookup(resp.reference).value.id))
    ensures resp.reference != "" && !(HasPrefix(resp.reference, DefinitionResponsePrefix) && lookup(resp.reference).Some?) ==> r == NilResponse
  {
    if resp.reference != "" then
      if HasPrefix(resp.reference, DefinitionResponsePrefix) && lookup(resp.reference).Some? then
        var x := lookup(resp.reference).value;
        RefObject(SwaggerResponsePrefix + NameId(x.name, x.id))
      else NilResponse
    else InlineResponse(resp.basic, names, convertRef, order)
  }

  /** The `responses` object of the document, keyed "<name>-<id>" (top-level names without spaces). */
  function ResponseDefsMap(rs: seq<DefinitionResponse>, flatten: FlattenResponse, names: map<Int64, string>, convertRef: RefConverter, order: KeyOrder): map<string, ResponseObject>
    requires ValidOrder(order)
  {
    if |rs| == 0 then map[]
    else
      var v := rs[|rs| - 1];
      var r := ResponseDefsMap(rs[..|rs| - 1], flatten, names, convertRef, order);
      if v.typ == CategoryType then AddResponseItems(r, flatten(v), names, convertRef, order)
      else r[NameId(StripSpaces(v.basic.name), v.basic.id) := InlineResponse(v.basic, names, convertRef, order)]
  }

  /** The items of a response category, keyed "<name>-<id>" with the name as it is. */
  function AddResponseItems(r: map<string, ResponseObject>, items: seq<DefinitionResponse>, names: map<Int64, string>, convertRef: RefConverter, order: KeyOrder): map<string, ResponseObject>
    requires ValidOrder(order)
  {
    if |items| == 0 then r
    else
      var it := items[|items| - 1];
      AddResponseItems(r, items[..|items| - 1], names, convertRef, order)[NameId(it.basic.name, it.basic.id) := InlineResponse(it.basic, names, convertRef, order)]
  }

  /** The document's `responses`: absent when there are no response definitions. */
  function ResponseDefs(rs: seq<DefinitionResponse>, flatten: FlattenResponse, names: map<Int64, string>, convertRef: RefConverter, order: KeyOrder): (r: Option<map<string, ResponseObject>>)
    requires ValidOrder(order)
    ensures r.None? <==> |rs| == 0
  {
    if |rs| == 0 then None else Some(ResponseDefsMap(rs, flatten, names, convertRef, order))
  }

  /** The responses of one operation keyed by code, the later response of a code winning. */
  function CodeResponses(list: seq<Response>, lookup: ResponseLookup, names: map<Int64, string>, convertRef: RefConverter, order: KeyOrder): map<string, ResponseObject>
    requires ValidOrder(order)
  {
    if |list| == 0 then map[]
    else
      var x := list[|list| - 1];
      CodeResponses(list[..|list| - 1], lookup, names, convertRef, order)[FormatInt(x.code) := GeneratedResponse(x, lookup, names, convertRef, order)]
  }

  /** Every MIME type some response of the operation has content for. */
  function Product(list: seq<Response>): set<string>
  {
    if |list| == 0 then {}
    else
      var x := list[|list| - 1];
      Product(list[..|list| - 1]) + (if x.basic.content.Some? then x.basic.content.value.Keys else {})
  }

  /** `generatePathResponse`'s response object: by code, or a "default" success object for an empty list. */
  function PathResponses(list: seq<Response>, lookup: ResponseLookup, names: map<Int64, string>, convertRef: RefConverter, order: KeyOrder): map<string, ResponseObject>
    requires ValidOrder(order)
  {
    var m := CodeResponses(list, lookup, names, convertRef, order);
    if |m| == 0 then map["default" := Described("success")] else m
  }

  /** `generatePathResponse`'s `produces`: the MIME types responses have content for, or just application/json. */
  function Produces(list: seq<Response>, order: KeyOrder): seq<string>
  {
    var p := Product(list);
    if |p| == 0 then [DefaultProduces] else order(p)
  }

  /** The response codes are the keys; an empty list gives the single key "default". */
  lemma {:induction false} CodeResponsesKeys(list: seq<Response>, lookup: ResponseLookup, names: map<Int64, string>, convertRef: RefConverter, order: KeyOrder, k: string)
    requires ValidOrder(order)
    ensures k in CodeResponses(list, lookup, names, convertRef, order) <==> exists x :: x in list && FormatInt(x.code) == k
  {
    if |list| > 0 {
      var init := list[..|list| - 1];
      CodeResponsesKeys(init, lookup, names, convertRef, order, k);
      if x :| x in list && FormatInt(x.code) == k {
        Lists.InSnoc(list, x);
      }
      if x :| x in init && FormatInt(x.code) == k {
        Lists.InSnoc(list, x);
      }
    }
  }

  /** `generatePathResponse` never returns an empty object, so `generatePaths`' own "default" fallback is never taken. */
  lemma PathResponsesNonEmpty(list: seq<Response>, lookup: ResponseLookup, names: map<Int64, string>, convertRef: RefConverter, order: KeyOrder)
    requires ValidOrder(order)
    ensures |PathResponses(list, lookup, names, convertRef, order)| > 0
    ensures |list| == 0 ==> PathResponses(list, lookup, names, convertRef, order) == map["default" := Described("success")]
  {
  }

  /** `produces` lists each MIME type with content once, or is ["application/json"] when there is none. */
  lemma ProducesContents(list: seq<Response>, order: KeyOrder)
    requires ValidOrder(order)
    ensures Lists.NoDuplicates(Produces(list, order))
    ensures |Product(list)| == 0 ==> Produces(list, order) == [DefaultProduces]
    ensures |Product(list)| > 0 ==> forall m :: m in Produces(list, order) <==> m in Product(list)
  {
  }

  // ---------------------------------------------------------------------
  // Request parameters

  /** One local parameter: its schema converted, then `toParameter` for its location. */
  function LocalOutParams(ps: seq<Parameter>, loc: string, names: map<Int64, string>, convertRef: RefConverter, toParameter: ToParameter): (r: seq<OutParam>)
    ensures |r| == |ps|
  {
    seq(|ps|, i requires 0 <= i < |ps| => toParameter(ps[i].(schema := ConvertSchema(ps[i].schema, names, convertRef)), loc, Version))
  }

  /** The local parameters of the four locations, by location in visiting order. */
  function LocalOut(ps: Located, locs: seq<string>, names: map<Int64, string>, convertRef: RefConverter, toParameter: ToParameter): seq<OutParam>
  {
    if |locs| == 0 then []
    else
      var loc := locs[|locs| - 1];
      LocalOut(ps, locs[..|locs| - 1], names, convertRef, toParameter) +
        (if loc in ParameterLocations then LocalOutParams(ParamsAt(ps, loc), loc, names, convertRef, toParameter) else [])
  }

  /** A form body gives `formData` parameters only when it is an object schema. */
  predicate FormUsable(s: Option<Schema>)
  {
    s.Some? && |TypeList(s.value.typ)| > 0 && TypeFirst(s.value.typ) == "object"
  }

  /**
   * The `formData` parameter for property `k` of the form object. As written
   * the `required` flag is looked up in the property's own `required` list;
   * the intended reading is the form object's list, where the importer puts it.
   */
  function FormParam(form: Schema, k: string, v: Schema, names: map<Int64, string>, convertRef: RefConverter, variant: Variant): (p: OutParam)
    ensures p.name == k && p.inLoc == "formData" && p.typ == TypeFirst(v.typ) && p.description == v.description
    ensures variant == AsWritten ==> (p.required <==> k in v.required)
    ensures variant == Intended ==> (p.required <==> k in form.required)
  {
    OutParam(k, "formData", TypeFirst(v.typ), v.description, if variant == AsWritten then k in v.required else k in form.required, Some(convertRef(v, Version, names)))
  }

  function FormParams(form: Schema, keys: seq<string>, names: map<Int64, string>, convertRef: RefConverter, variant: Variant): (r: seq<OutParam>)
    requires forall k :: k in keys ==> k in form.properties
    ensures |r| == |keys|
    ensures forall i :: 0 <= i < |keys| ==> r[i] == FormParam(form, keys[i], form.properties[keys[i]], names, convertRef, variant)
  {
    seq(|keys|, i requires 0 <= i < |keys| => FormParam(form, keys[i], form.properties[keys[i]], names, convertRef, variant))
  }

  /** The single body parameter, required. */
  function BodyParam(b: Body, names: map<Int64, string>, convertRef: RefConverter): OutParam
  {
    OutParam("body", "body", "", "", true, ConvertSchema(b.schema, names, convertRef))
  }

  /** The parameters the request content gives, and whether a body parameter has been emitted. */
  function ContentOut(content: map<string, Body>, cts: seq<string>, names: map<Int64, string>, convertRef: RefConverter, order: KeyOrder, variant: Variant): (r: (seq<OutParam>, bool))
    requires ValidOrder(order)
    requires forall c :: c in cts ==> c in content
    ensures r.1 <==> exists c :: c in cts && !Contains(c, "form")
  {
    if |cts| == 0 then ([], false)
    else
      var c := cts[|cts| - 1];
      var init := cts[..|cts| - 1];
      assert forall x :: x in cts <==> x in init || x == c;
      var (out, hasBody) := ContentOut(content, init, names, convertRef, order, variant);
      var body := content[c];
      if Contains(c, "form") then
        if FormUsable(body.schema) then
          var form := body.schema.value;
          (out + FormParams(form, order(form.properties.Keys), names, convertRef, variant), hasBody)
        else (out, hasBody)
      else if hasBody then (out, true)
      else (out + [BodyParam(body, names, convertRef)], true)
  }

  /** `generateReqParams`: the non-excepted globals, the local parameters, then the content's parameters. */
  function ReqParams(req: Request, globals: Located, names: map<Int64, string>, convertRef: RefConverter, toParameter: ToParameter, globalToLocal: GlobalToLocal, order: KeyOrder, variant: Variant): seq<OutParam>
    requires ValidOrder(order)
  {
    globalToLocal(globals, true, req.globalExcepts) +
    LocalOut(req.parameters, order(req.parameters.Keys), names, convertRef, toParameter) +
    ContentOut(req.content, order(req.content.Keys), names, convertRef, order, variant).0
  }

  /** Counts the body parameters of a list. */
  function BodyCount(ps: seq<OutParam>): nat
  {
    if |ps| == 0 then 0 else BodyCount(ps[..|ps| - 1]) + (if ps[|ps| - 1].inLoc == "body" then 1 else 0)
  }

  lemma {:induction false} BodyCountAppend(a: seq<OutParam>, b: seq<OutParam>)
    ensures BodyCount(a + b) == BodyCount(a) + BodyCount(b)
    decreases |b|
  {
    if |b| > 0 {
      assert (a + b)[..|a + b| - 1] == a + b[..|b| - 1];
      BodyCountAppend(a, b[..|b| - 1]);
    } else {
      assert a + b == a;
    }
  }

  lemma {:induction false} FormParamsNoBody(form: Schema, keys: seq<string>, names: map<Int64, string>, convertRef: RefConverter, variant: Variant)
    requires forall k :: k in keys ==> k in form.properties
    ensures BodyCount(FormParams(form, keys, names, convertRef, variant)) == 0
    decreases |keys|
  {
    if |keys| > 0 {
      var r := FormParams(form, keys, names, convertRef, variant);
      FormParamsNoBody(form, keys[..|keys| - 1], names, convertRef, variant);
      assert r[..|r| - 1] == FormParams(form, keys[..|keys| - 1], names, convertRef, variant);
    }
  }

  /**
   * The content gives at most one `in: body` parameter, and gives one exactly
   * when some visited content type is not a form type.
   */
  lemma {:induction false} ContentOutOneBody(content: map<string, Body>, cts: seq<string>, names: map<Int64, string>, convertRef: RefConverter, order: KeyOrder, variant: Variant)
    requires ValidOrder(order)
    requires forall c :: c in cts ==> c in content
    ensures BodyCount(ContentOut(content, cts, names, convertRef, order, variant).0) == if ContentOut(content, cts, names, convertRef, order, variant).1 then 1 else 0
  {
    if |cts| > 0 {
      var c := cts[|cts| - 1];
      var init := cts[..|cts| - 1];
      ContentOutOneBody(content, init, names, convertRef, order, variant);
      var (out, hasBody) := ContentOut(content, init, names, convertRef, order, variant);
      var body := content[c];
      if Contains(c, "form") {
        if FormUsable(body.schema) {
          var form := body.schema.value;
          FormParamsNoBody(form, order(form.properties.Keys), names, convertRef, variant);
          BodyCountAppend(out, FormParams(form, order(form.properties.Keys), names, convertRef, variant));
        }
      } else if !hasBody {
        BodyCountAppend(out, [BodyParam(body, names, convertRef)]);
        assert BodyCount([BodyParam(body, names, convertRef)]) == 1;
      }
    }
  }

  /** A form object `{"a": string}` that lists "a" as required. */
  function RequiredForm(): Schema
  {
    NewSchema("object").(properties := map["a" := NewSchema("string")], required := ["a"])
  }

  /** As written, the exported `formData` parameter for a required form field is not required. */
  lemma FormRequiredDropped(names: map<Int64, string>, convertRef: RefConverter)
    ensures !FormParam(RequiredForm(), "a", NewSchema("string"), names, convertRef, AsWritten).required
    ensures FormParam(RequiredForm(), "a", NewSchema("string"), names, convertRef, Intended).required
  {
  }

  // ---------------------------------------------------------------------
  // Paths

  /** The exported operation for one http collection. */
  function PathItemOf(op: HttpOperation, globals: Located, lookup: ResponseLookup, names: map<Int64, string>, convertRef: RefConverter, toParameter: ToParameter, globalToLocal: GlobalToLocal, order: KeyOrder, variant: Variant): PathItem
    requires ValidOrder(order)
  {
    PathItem(op.title, op.description, op.operatorId, op.tags, order(op.req.content.Keys), Produces(op.res, order),
             ReqParams(op.req, globals, names, convertRef, toParameter, globalToLocal, order, variant),
             PathResponses(op.res, lookup, names, convertRef, order))
  }

  /** The `paths` object with one more operation: nothing for an empty path, otherwise filed under path and method. */
  function AddRoute<T>(r: map<string, map<string, T>>, path: string, httpMethod: string, item: T): (r': map<string, map<string, T>>)
    ensures path == "" ==> r' == r
    ensures path != "" ==> r'.Keys == r.Keys + {path} && httpMethod in r'[path] && r'[path][httpMethod] == item
  {
    if path == "" then r
    else r[path := (if path in r then r[path] else map[])[httpMethod := item]]
  }

  /** The `paths` object: collections with an empty path are skipped, the later operation of a path and method winning. */
  function PathsOf(routes: seq<Route>, globals: Located, lookup: ResponseLookup, names: map<Int64, string>, convertRef: RefConverter, toParameter: ToParameter, globalToLocal: GlobalToLocal, order: KeyOrder, variant: Variant): map<string, map<string, PathItem>>
    requires ValidOrder(order)
  {
    if |routes| == 0 then map[]
    else
      var rt := routes[|routes| - 1];
      AddRoute(PathsOf(routes[..|routes| - 1], globals, lookup, names, convertRef, toParameter, globalToLocal, order, variant),
               rt.path, rt.httpMethod, PathItemOf(rt.op, globals, lookup, names, convertRef, toParameter, globalToLocal, order, variant))
  }

  lemma PathsOfStep(routes: seq<Route>, i: nat, globals: Located, lookup: ResponseLookup, names: map<Int64, string>, convertRef: RefConverter, toParameter: ToParameter, globalToLocal: GlobalToLocal, order: KeyOrder, variant: Variant)
    requires ValidOrder(order)
    requires i < |routes|
    ensures PathsOf(routes[..i + 1], globals, lookup, names, convertRef, toParameter, globalToLocal, order, variant) ==
      AddRoute(PathsOf(routes[..i], globals, lookup, names, convertRef, toParameter, globalToLocal, order, variant),
               routes[i].path, routes[i].httpMethod, PathItemOf(routes[i].op, globals, lookup, names, convertRef, toParameter, globalToLocal, order, variant))
  {
    assert routes[..i + 1][..i] == routes[..i];
  }

  /** The tags of one collection. */
  function TagSet(tags: seq<string>): set<string>
  {
    set t | t in tags
  }

  /** The tags of every collection with a non-empty path. */
  function TagsOf(routes: seq<Route>): set<string>
  {
    if |routes| == 0 then {}
    else
      var rt := routes[|routes| - 1];
      TagsOf(routes[..|routes| - 1]) + (if rt.path == "" then {} else TagSet(rt.op.tags))
  }

  lemma TagsOfStep(routes: seq<Route>, i: nat)
    requires i < |routes|
    ensures TagsOf(routes[..i + 1]) == TagsOf(routes[..i]) + (if routes[i].path == "" then {} else TagSet(routes[i].op.tags))
  {
    assert routes[..i + 1][..i] == routes[..i];
  }

  /** A path has an entry exactly when some collection has that path and the path is not empty. */
  lemma {:induction false} PathsOfKeys(routes: seq<Route>, globals: Located, lookup: ResponseLookup, names: map<Int64, string>, convertRef: RefConverter, toParameter: ToParameter, globalToLocal: GlobalToLocal, order: KeyOrder, variant: Variant, path: string)
    requires ValidOrder(order)
    ensures path in PathsOf(routes, globals, lookup, names, convertRef, toParameter, globalToLocal, order, variant) <==>
      path != "" && exists rt :: rt in routes && rt.path == path
  {
    if |routes| > 0 {
      var init := routes[..|routes| - 1];
      PathsOfKeys(init, globals, lookup, names, convertRef, toParameter, globalToLocal, order, variant, path);
      PathsOfStep(routes, |routes| - 1, globals, lookup, names, convertRef, toParameter, globalToLocal, order, variant);
      assert routes[..|routes|] == routes;
      if rt :| rt in routes && rt.path == path {
        Lists.InSnoc(routes, rt);
      }
      if rt :| rt in init && rt.path == path {
        Lists.InSnoc(routes, rt);
      }
    }
  }

  // ---------------------------------------------------------------------
  // The exporter

  /** The first server that parses gives host, base path and scheme; the base path defaults to "/". */
  method BaseServer(servers: seq<Server>, parseUrl: UrlParser) returns (host: string, basePath: string, schemes: seq<string>)
    ensures var u := FirstServer(servers, parseUrl);
      host == (if u.Some? then u.value.host else "") &&
      basePath == (if u.Some? && u.value.path != "" then u.value.path else "/") &&
      schemes == (if u.Some? then [u.value.scheme] else [])
  {
    host, basePath, schemes := "", "", [];
    var i := 0;
    while i < |servers|
      invariant 0 <= i <= |servers|
      invariant FirstServer(servers, parseUrl) == FirstServer(servers[i..], parseUrl)
      invariant host == "" && basePath == "" && schemes == []
    {
      assert servers[i..][1..] == servers[i + 1..];
      var u := parseUrl(servers[i].url);
      if u.None? {
        i := i + 1;
        continue;
      }
      if host == "" {
        host := u.value.host;
        basePath := u.value.path;
      }
      schemes := schemes + [u.value.scheme];
      break;
    }
    if basePath == "" {
      basePath := "/";
    }
  }

  class SwaggerGenerator {
    var modelNames: map<Int64, string>

    constructor()
      ensures modelNames == map[]
    {
      modelNames := map[];
    }

    /** Records each model's name under its id and appends the models to `flat`. */
    method AppendModels(flat: seq<DefinitionModel>, items: seq<DefinitionModel>) returns (r: seq<DefinitionModel>)
      requires modelNames == NamesOf(flat)
      modifies this
      ensures r == flat + items
      ensures modelNames == NamesOf(r)
    {
      r := flat;
      for j := 0 to |items|
        invariant r == flat + items[..j]
        invariant modelNames == NamesOf(r)
      {
        assert (r + [items[j]])[..|r|] == r;
        modelNames := modelNames[items[j].id := items[j].name];
        r := r + [items[j]];
        assert items[..j + 1] == items[..j] + [items[j]];
      }
      assert items[..|items|] == items;
    }

    /** Fills `modelNames` from the models, category items included, and returns the flattened list. */
    method CollectModels(schemas: seq<DefinitionModel>, flatten: FlattenModel) returns (flat: seq<DefinitionModel>)
      modifies this
      ensures flat == Flattened(schemas, flatten)
      ensures modelNames == NamesOf(flat)
    {
      modelNames := map[];
      flat := [];
      for i := 0 to |schemas|
        invariant flat == Flattened(schemas[..i], flatten)
        invariant modelNames == NamesOf(flat)
      {
        var v := schemas[i];
        assert schemas[..i + 1][..i] == schemas[..i];
        var items := if v.typ == CategoryType then flatten(v) else [v];
        flat := AppendModels(flat, items);
      }
      assert schemas[..|schemas|] == schemas;
    }

    /** One definition per model, keyed "<name without spaces>-<id>". */
    method ModelDefinitions(flat: seq<DefinitionModel>, convertRef: RefConverter) returns (defs: map<string, Option<Schema>>)
      ensures defs == DefinitionsOf(flat, modelNames, convertRef)
    {
      defs := map[];
      for i := 0 to |flat|
        invariant defs == DefinitionsOf(flat[..i], modelNames, convertRef)
      {
        assert flat[..i + 1][..i] == flat[..i];
        defs := defs[ModelKey(flat[i]) := ConvertSchema(flat[i].schema, modelNames, convertRef)];
      }
      assert flat[..|flat|] == flat;
    }

    /** The global parameters of every location, keyed "<name>-<id>". */
    method GlobalParameters(g: Located, toParameter: ToParameter, order: KeyOrder) returns (out: map<string, OutParam>)
      ensures out == GlobalsOut(g, order(g.Keys), toParameter)
    {
      var locs := order(g.Keys);
      out := map[];
      for i := 0 to |locs|
        invariant out == GlobalsOut(g, locs[..i], toParameter)
      {
        GlobalsOutStep(g, locs, i, toParameter);
        var loc := locs[i];
        var ps := ParamsAt(g, loc);
        ghost var start := out;
        for j := 0 to |ps|
          invariant out == AddGlobals(start, ps[..j], loc, toParameter)
        {
          AddGlobalsStep(start, ps, j, loc, toParameter);
          out := out[GlobalKey(ps[j]) := toParameter(ps[j], loc, Version)];
        }
        assert ps[..|ps|] == ps;
      }
      assert locs[..|locs|] == locs;
    }

    /** `generateResponseWithoutRef`. */
    method GenerateResponseWithoutRef(b: BasicResponse, convertRef: RefConverter, order: KeyOrder) returns (r: ResponseObject)
      requires ValidOrder(order)
      ensures r == InlineResponse(b, modelNames, convertRef, order)
    {
      var headers: Option<map<string, Option<Schema>>> := None;
      if |b.header| > 0 {
        var h: map<string, Option<Schema>> := map[];
        for i := 0 to |b.header|
          invariant h == HeadersOf(b.header[..i])
        {
          assert b.header[..i + 1][..i] == b.header[..i];
          h := h[b.header[i].name := HeaderSchema(b.header[i])];
        }
        assert b.header[..|b.header|] == b.header;
        headers := Some(h);
      }
      r := Inline(b.name, b.description, headers, None, None);
      if b.content.Some? {
        var ks := order(b.content.value.Keys);
        if |ks| > 0 {
          var body := b.content.value[ks[0]];
          r := r.(schema := Some(ConvertSchema(body.schema, modelNames, convertRef)), examples := FirstExample(ks[0], body));
        }
      }
    }

    /** `generateResponse`. */
    method GenerateResponse(resp: Response, lookup: ResponseLookup, convertRef: RefConverter, order: KeyOrder) returns (r: ResponseObject)
      requires ValidOrder(order)
      ensures r == GeneratedResponse(resp, lookup, modelNames, convertRef, order)
    {
      if resp.reference != "" {
        if HasPrefix(resp.reference, DefinitionResponsePrefix) {
          var x := lookup(resp.reference);
          if x.Some? {
            return RefObject(SwaggerResponsePrefix + NameId(x.value.name, x.value.id));
          }
        }
        return NilResponse;
      }
      r := GenerateResponseWithoutRef(resp.basic, convertRef, order);
    }

    /** `generatePathResponse`: the responses by code and the MIME types they produce. */
    method GeneratePathResponse(list: seq<Response>, lookup: ResponseLookup, convertRef: RefConverter, order: KeyOrder) returns (result: map<string, ResponseObject>, produces: seq<string>)
      requires ValidOrder(order)
      ensures result == PathResponses(list, lookup, modelNames, convertRef, order)
      ensures produces == Produces(list, order)
    {
      var product: set<string> := {};
      result := map[];
      for i := 0 to |list|
        invariant result == CodeResponses(list[..i], lookup, modelNames, convertRef, order)
        invariant product == Product(list[..i])
      {
        assert list[..i + 1][..i] == list[..i];
        var x := GenerateResponse(list[i], lookup, convertRef, order);
        result := result[FormatInt(list[i].code) := x];
        if list[i].basic.content.Some? {
          product := product + list[i].basic.content.value.Keys;
        }
      }
      assert list[..|list|] == list;
      if |result| == 0 {
        result := map["default" := Described("success")];
      }
      if |product| == 0 {
        produces := [DefaultProduces];
      } else {
        produces := order(product);
      }
    }

    /** The `formData` parameters of one form object, in the visiting order of its properties. */
    method FormDataParams(form: Schema, convertRef: RefConverter, order: KeyOrder, variant: Variant) returns (out: seq<OutParam>)
      requires ValidOrder(order)
      ensures out == FormParams(form, order(form.properties.Keys), modelNames, convertRef, variant)
    {
      var ks := order(form.properties.Keys);
      out := [];
      for i := 0 to |ks|
        invariant out == FormParams(form, ks[..i], modelNames, convertRef, variant)
      {
        var k := ks[i];
        var v := form.properties[k];
        var required := if variant == AsWritten then k in v.required else k in form.required;
        out := out + [OutParam(k, "formData", TypeFirst(v.typ), v.description, required, Some(convertRef(v, Version, modelNames)))];
      }
      assert ks[..|ks|] == ks;
    }

    /** The parameters of one location, each schema converted. */
    method LocationParams(ps: seq<Parameter>, loc: string, convertRef: RefConverter, toParameter: ToParameter) returns (out: seq<OutParam>)
      ensures out == LocalOutParams(ps, loc, modelNames, convertRef, toParameter)
    {
      out := [];
      for j := 0 to |ps|
        invariant out == LocalOutParams(ps[..j], loc, modelNames, convertRef, toParameter)
      {
        var newv := ps[j].(schema := ConvertSchema(ps[j].schema, modelNames, convertRef));
        out := out + [toParameter(newv, loc, Version)];
      }
      assert ps[..|ps|] == ps;
    }

    /** The local parameters of the header, query, path and cookie locations. */
    method LocalParams(ps: Located, convertRef: RefConverter, toParameter: ToParameter, order: KeyOrder) returns (out: seq<OutParam>)
      ensures out == LocalOut(ps, order(ps.Keys), modelNames, convertRef, toParameter)
    {
      var locs := order(ps.Keys);
      out := [];
      for i := 0 to |locs|
        invariant out == LocalOut(ps, locs[..i], modelNames, convertRef, toParameter)
      {
        assert locs[..i + 1][..i] == locs[..i];
        var loc := locs[i];
        if loc in ParameterLocations {
          var x := LocationParams(ParamsAt(ps, loc), loc, convertRef, toParameter);
          out := out + x;
        }
      }
      assert locs[..|locs|] == locs;
    }

    /** The `formData` parameters of form content and the one `body` parameter of other content. */
    method ContentParams(content: map<string, Body>, convertRef: RefConverter, order: KeyOrder, variant: Variant) returns (out: seq<OutParam>)
      requires ValidOrder(order)
      ensures out == ContentOut(content, order(content.Keys), modelNames, convertRef, order, variant).0
    {
      var cts := order(content.Keys);
      out := [];
      var hasBody := false;
      for i := 0 to |cts|
        invariant out == ContentOut(content, cts[..i], modelNames, convertRef, order, variant).0
        invariant hasBody == ContentOut(content, cts[..i], modelNames, convertRef, order, variant).1
      {
        assert cts[..i + 1][..i] == cts[..i];
        var c := cts[i];
        var body := content[c];
        if Contains(c, "form") {
          if body.schema.None? {
            continue;
          }
          if |TypeList(body.schema.value.typ)| == 0 {
            continue;
          }
          if TypeFirst(body.schema.value.typ) != "object" {
            continue;
          }
          var fs := FormDataParams(body.schema.value, convertRef, order, variant);
          out := out + fs;
        } else {
          if hasBody {
            continue;
          }
          out := out + [BodyParam(body, modelNames, convertRef)];
          hasBody := true;
        }
      }
      assert cts[..|cts|] == cts;
    }

    /** `generateReqParams`: the non-excepted globals, the local parameters, then the content's parameters. */
    method GenerateReqParams(req: Request, globals: Located, convertRef: RefConverter, toParameter: ToParameter, globalToLocal: GlobalToLocal, order: KeyOrder, variant: Variant) returns (out: seq<OutParam>)
      requires ValidOrder(order)
      ensures out == ReqParams(req, globals, modelNames, convertRef, toParameter, globalToLocal, order, variant)
    {
      out := globalToLocal(globals, true, req.globalExcepts);
      var local := LocalParams(req.parameters, convertRef, toParameter, order);
      var content := ContentParams(req.content, convertRef, order, variant);
      out := out + local + content;
    }

    /** The exported operation of one http collection. */
    method GeneratePathItem(op: HttpOperation, globals: Located, lookup: ResponseLookup, convertRef: RefConverter, toParameter: ToParameter, globalToLocal: GlobalToLocal, order: KeyOrder, variant: Variant) returns (item: PathItem)
      requires ValidOrder(order)
      ensures item == PathItemOf(op, globals, lookup, modelNames, convertRef, toParameter, globalToLocal, order, variant)
    {
      var reslist, product := GeneratePathResponse(op.res, lookup, convertRef, order);
      PathResponsesNonEmpty(op.res, lookup, modelNames, convertRef, order);
      if |reslist| == 0 {
        reslist := map["default" := Described("success")];
      }
      var params := GenerateReqParams(op.req, globals, convertRef, toParameter, globalToLocal, order, variant);
      item := PathItem(op.title, op.description, op.operatorId, op.tags, order(op.req.content.Keys), product, params, reslist);
    }

    /** `generatePaths`: the `paths` object and the set of tags used. */
    method GeneratePaths(routes: seq<Route>, globals: Located, lookup: ResponseLookup, convertRef: RefConverter, toParameter: ToParameter, globalToLocal: GlobalToLocal, order: KeyOrder, variant: Variant) returns (paths: map<string, map<string, PathItem>>, tags: seq<string>)
      requires ValidOrder(order)
      ensures paths == PathsOf(routes, globals, lookup, modelNames, convertRef, toParameter, globalToLocal, order, variant)
      ensures tags == order(TagsOf(routes))
    {
      paths := map[];
      var tagSet: set<string> := {};
      for i := 0 to |routes|
        invariant paths == PathsOf(routes[..i], globals, lookup, modelNames, convertRef, toParameter, globalToLocal, order, variant)
        invariant tagSet == TagsOf(routes[..i])
      {
        PathsOfStep(routes, i, globals, lookup, modelNames, convertRef, toParameter, globalToLocal, order, variant);
        TagsOfStep(routes, i);
        var rt := routes[i];
        if rt.path == "" {
          continue;
        }
        var item := GeneratePathItem(rt.op, globals, lookup, convertRef, toParameter, globalToLocal, order, variant);
        var methods := if rt.path in paths then paths[rt.path] else map[];
        tagSet := tagSet + TagSet(rt.op.tags);
        paths := paths[rt.path := methods[rt.httpMethod := item]];
      }
      assert routes[..|routes|] == routes;
      tags := order(tagSet);
    }

    /** The items of a response category, keyed "<name>-<id>". */
    method ResponseItems(m: map<string, ResponseObject>, items: seq<DefinitionResponse>, convertRef: RefConverter, order: KeyOrder) returns (r: map<string, ResponseObject>)
      requires ValidOrder(order)
      ensures r == AddResponseItems(m, items, modelNames, convertRef, order)
    {
      r := m;
      for j := 0 to |items|
        invariant r == AddResponseItems(m, items[..j], modelNames, convertRef, order)
      {
        assert items[..j + 1][..j] == items[..j];
        var x := GenerateResponseWithoutRef(items[j].basic, convertRef, order);
        r := r[NameId(items[j].basic.name, items[j].basic.id) := x];
      }
      assert items[..|items|] == items;
    }

    /** The document's response definitions, category items included. */
    method ResponseDefinitions(rs: seq<DefinitionResponse>, flattenResponse: FlattenResponse, convertRef: RefConverter, order: KeyOrder) returns (m: map<string, ResponseObject>)
      requires ValidOrder(order)
      ensures m == ResponseDefsMap(rs, flattenResponse, modelNames, convertRef, order)
    {
      m := map[];
      for i := 0 to |rs|
        invariant m == ResponseDefsMap(rs[..i], flattenResponse, modelNames, convertRef, order)
      {
        assert rs[..i + 1][..i] == rs[..i];
        var v := rs[i];
        if v.typ == CategoryType {
          m := ResponseItems(m, flattenResponse(v), convertRef, order);
        } else {
          var x := GenerateResponseWithoutRef(v.basic, convertRef, order);
          m := m[NameId(StripSpaces(v.basic.name), v.basic.id) := x];
        }
      }
      assert rs[..|rs|] == rs;
    }

    /**
     * `generateBase`: the first parsable server, the definitions of every
     * model (filling `modelNames`), the global parameters keyed
     * "<name>-<id>", and the response definitions when there are any.
     */
    method GenerateBase(doc: Document, parseUrl: UrlParser, flatten: FlattenModel, flattenResponse: FlattenResponse, convertRef: RefConverter, toParameter: ToParameter, order: KeyOrder) returns (out: SwaggerDoc)
      requires ValidOrder(order)
      modifies this
      ensures modelNames == NamesOf(Flattened(doc.schemas, flatten))
      ensures var u := FirstServer(doc.servers, parseUrl);
        out.swagger == Version && out.info == doc.info &&
        out.host == (if u.Some? then u.value.host else "") &&
        out.basePath == (if u.Some? && u.value.path != "" then u.value.path else "/") &&
        out.schemes == (if u.Some? then [u.value.scheme] else [])
      ensures out.definitions == DefinitionsOf(Flattened(doc.schemas, flatten), modelNames, convertRef)
      ensures out.globalParameters == GlobalsOut(doc.globals, order(doc.globals.Keys), toParameter)
      ensures out.responses == ResponseDefs(doc.responses, flattenResponse, modelNames, convertRef, order)
    {
      var host, basePath, schemes := BaseServer(doc.servers, parseUrl);
      var flat := CollectModels(doc.schemas, flatten);
      var defs := ModelDefinitions(flat, convertRef);
      var globals := GlobalParameters(doc.globals, toParameter, order);
      var responses: Option<map<string, ResponseObject>> := None;
      if |doc.responses| > 0 {
        var m := ResponseDefinitions(doc.responses, flattenResponse, convertRef, order);
        responses := Some(m);
      }
      out := SwaggerDoc(Version, doc.info, host, basePath, schemes, defs, globals, responses);
    }
  }
}
