/**
 * The Postman Collection importer: a decoded Postman collection becomes an
 * ApiCat document whose collection tree mirrors the Postman items, each
 * request item carrying its URL, request parameters and body, and responses.
 *
 * The Postman input types, `jsonToSchema` and the `toParameter` and
 * `toJSONSchema` methods of the Postman records live in files that are not
 * part of this model; they are the functions of a `Helpers` value, so every
 * statement below holds for any implementation of them. `spec.Parameter` is
 * not part of this model either: parameters and headers are `ModSchema`
 * wrappers.
 */
module PostmanImport {
  import opened Wrappers
  import opened Text
  import Lists
  import opened JsonSchema
  import opened ModuleSpec

  /** A Postman key/value record: a URL variable, a query, or a header. */
  datatype KeyValue = KeyValue(key: string, value: string, description: string, disabled: bool)

  /** A `formdata` or `urlencoded` field; `toJSONSchema` reads the rest of it. */
  datatype FormField = FormField(key: string, value: string, fieldType: string, description: string, disabled: bool)

  /** A request body: the mode, the raw text and its language, and the form fields. */
  datatype PmBody = PmBody(mode: string, disabled: bool, raw: string, rawLanguage: string, formdata: seq<FormField>)

  datatype PmUrl = PmUrl(protocol: string, host: seq<string>, path: seq<string>, variables: seq<KeyValue>, queries: seq<KeyValue>)

  datatype PmRequest = PmRequest(url: PmUrl, httpMethod: string, headers: seq<KeyValue>, body: Option<PmBody>)

  /** A saved response: its name, status code, preview language, body text and headers. */
  datatype PmResponse = PmResponse(name: string, code: int, previewLanguage: string, body: string, headers: seq<KeyValue>)

  /** A Postman item: a request, a folder of items, or (as decoded) both. */
  datatype Item = Item(name: string, request: Option<PmRequest>, items: seq<Item>, responses: seq<PmResponse>)

  datatype PmCollection = PmCollection(name: string, description: string, items: seq<Item>)

  /** The helpers of the Postman package this model does not show. */
  datatype Helpers = Helpers(
    variableParam: KeyValue -> ModSchema,
    queryParam: KeyValue -> ModSchema,
    headerParam: KeyValue -> ModSchema,
    fieldSchema: FormField -> Schema,
    jsonToSchema: string -> Schema)

  /** An imported response: `spec.Response` with its code, name, description, headers and content. */
  datatype ImportedResponse = ImportedResponse(code: int, name: string, description: string, header: seq<ModSchema>, content: map<string, Body>)

  /** The nodes of an imported http collection: URL, request, and response list. */
  datatype HttpContent = HttpContent(path: string, httpMethod: string, request: RequestAttrs, responses: seq<ImportedResponse>)

  /** `spec.Collection`: an http collection has content and no items, a category items and no content. */
  datatype Collection = Collection(id: Int64, parentId: Int64, typ: string, title: string, content: Option<HttpContent>, items: seq<Collection>)

  datatype Server = Server(url: string, description: string)

  /**
   * The imported `spec.Spec`. The definitions are two empty lists; since
   * `spec.DefinitionResponse` is not part of this model, only the number of
   * response definitions is kept.
   */
  datatype ImportedSpec = ImportedSpec(
    apicat: string,
    title: string,
    description: string,
    servers: seq<Server>,
    globals: GlobalParameters,
    schemas: seq<DefinitionModel>,
    responseDefinitions: nat,
    collections: seq<Collection>)

  const ApiCatVersion: string := "2.0.1"
  const RootId: Int64 := 1000
  const HttpType: string := "http"
  const CategoryType: string := "category"
  const DefaultServerDescription: string := "default"
  const JsonType: string := "application/json"
  const PlainType: string := "text/plain"

  /** `contenttypemapp`: Postman body modes and preview languages to MIME types. */
  const ContentTypes: map<string, string> := map[
    "json" := "application/json",
    "urlencode" := "application/x-www-form-urlencoded",
    "formdata" := "multipart/form-data",
    "plain" := "text/plain"]

  // ---------------------------------------------------------------------
  // Document

  /** The server of an item with a request: "<protocol>://<host parts joined by '.'>". */
  function ServerOf(r: PmRequest): Server
  {
    Server(r.url.protocol + "://" + Join(r.url.host, "."), DefaultServerDescription)
  }

  function HasRequest(): Item -> bool
  {
    (v: Item) => v.request.Some?
  }

  /** The servers: the one of the first top-level item with a request, or none. */
  function ServersOf(items: seq<Item>): (r: seq<Server>)
    ensures |r| <= 1
    ensures |r| == 0 <==> forall i :: 0 <= i < |items| ==> items[i].request.None?
    ensures |r| == 1 ==> exists i :: (0 <= i < |items| && items[i].request.Some? && r[0] == ServerOf(items[i].request.value) &&
      forall j :: 0 <= j < i ==> items[j].request.None?)
  {
    match Lists.FindFirst(items, HasRequest())
    case None => []
    case Some(i) => [ServerOf(items[i].request.value)]
  }

  /** `parentid*1024 + int64(i) + 1` in 64-bit two's complement arithmetic. */
  function ChildId(parentId: Int64, i: nat): (r: Int64)
    ensures MinInt64 <= parentId * 1024 + i + 1 <= MaxInt64 ==> r == parentId * 1024 + i + 1
  {
    Wrap64(parentId * 1024 + i + 1)
  }

  /** An integer reduced into the signed 64-bit range. */
  function Wrap64(x: int): (r: Int64)
    ensures MinInt64 <= x <= MaxInt64 ==> r == x
    ensures (x - r) % 0x1_0000_0000_0000_0000 == 0
  {
    (x - MinInt64) % 0x1_0000_0000_0000_0000 + MinInt64
  }

  /** While nothing wraps, the id gives back the parent and the position of an item among fewer than 1024 siblings. */
  lemma ChildIdDecodes(parentId: Int64, i: nat)
    requires i < 1024 && 0 <= parentId && parentId * 1024 + i + 1 <= MaxInt64
    ensures ChildId(parentId, i) > 0
    ensures (ChildId(parentId, i) - 1) / 1024 == parentId && (ChildId(parentId, i) - 1) % 1024 == i
  {
  }

  /** Hence two such items have the same id only when they have the same parent and position. */
  lemma ChildIdInjective(p: Int64, i: nat, q: Int64, j: nat)
    requires i < 1024 && 0 <= p && p * 1024 + i + 1 <= MaxInt64
    requires j < 1024 && 0 <= q && q * 1024 + j + 1 <= MaxInt64
    requires ChildId(p, i) == ChildId(q, j)
    ensures p == q && i == j
  {
    ChildIdDecodes(p, i);
    ChildIdDecodes(q, j);
  }

  /** The http collection of an item with a request. */
  function HttpEntry(v: Item, parentId: Int64, i: nat, h: Helpers): Collection
    requires v.request.Some?
  {
    Collection(ChildId(parentId, i), parentId, HttpType, v.name, Some(ContentOf(v.request.value, v.responses, h)), [])
  }

  /**
   * `walkCollection`: item i under parent p has id p*1024+i+1; an item with a
   * request gives an http collection, an item with children a category
   * holding their walk, and an item with both gives both, under one id.
   */
  function Walk(items: seq<Item>, parentId: Int64, h: Helpers): seq<Collection>
    decreases items
  {
    if |items| == 0 then []
    else
      var n := |items| - 1;
      var v := items[n];
      var id := ChildId(parentId, n);
      Walk(items[..n], parentId, h)
        + (if v.request.Some? then [HttpEntry(v, parentId, n, h)] else [])
        + (if |v.items| > 0 then [Collection(id, parentId, CategoryType, v.name, None, Walk(v.items, id, h))] else [])
  }

  /** The category of an item with children, holding the walk of its children. */
  function CategoryEntry(v: Item, parentId: Int64, i: nat, h: Helpers): Collection
  {
    var id := ChildId(parentId, i);
    Collection(id, parentId, CategoryType, v.name, None, Walk(v.items, id, h))
  }

  /** `c` is what item `v`, at position `i` under `parentId`, gives: its http collection or its category. */
  predicate IsEntry(v: Item, parentId: Int64, i: nat, h: Helpers, c: Collection)
  {
    (v.request.Some? && c == HttpEntry(v, parentId, i, h)) || (|v.items| > 0 && c == CategoryEntry(v, parentId, i, h))
  }

  /** What one item gives: its http collection if it has a request, then its category if it has children. */
  function Entries(v: Item, parentId: Int64, i: nat, h: Helpers): (r: seq<Collection>)
    ensures forall c :: c in r <==> IsEntry(v, parentId, i, h, c)
  {
    (if v.request.Some? then [HttpEntry(v, parentId, i, h)] else [])
      + (if |v.items| > 0 then [CategoryEntry(v, parentId, i, h)] else [])
  }

  lemma WalkSnoc(items: seq<Item>, parentId: Int64, h: Helpers)
    requires |items| > 0
    ensures Walk(items, parentId, h) == Walk(items[..|items| - 1], parentId, h) + Entries(items[|items| - 1], parentId, |items| - 1, h)
  {
  }

  /** What each item gives, by position. */
  function EntriesAt(items: seq<Item>, parentId: Int64, h: Helpers): (r: seq<seq<Collection>>)
    ensures |r| == |items| && forall i :: 0 <= i < |items| ==> r[i] == Entries(items[i], parentId, i, h)
  {
    seq(|items|, i requires 0 <= i < |items| => Entries(items[i], parentId, i, h))
  }

  function Itself(): seq<Collection> -> seq<Collection>
  {
    (x: seq<Collection>) => x
  }

  /** A walk is the concatenation, in item order, of what each item gives. */
  lemma {:induction false} WalkConcat(items: seq<Item>, parentId: Int64, h: Helpers)
    ensures Walk(items, parentId, h) == Lists.FlatMap(EntriesAt(items, parentId, h), Itself())
  {
    if |items| > 0 {
      var n := |items| - 1;
      WalkConcat(items[..n], parentId, h);
      WalkSnoc(items, parentId, h);
      var e := EntriesAt(items, parentId, h);
      assert e[..n] == EntriesAt(items[..n], parentId, h);
    }
  }

  /**
   * The collections of a walk are exactly what its items give: the http
   * entries of the items with a request and the categories of the items
   * with children (see `Entries`).
   */
  lemma WalkMembers(items: seq<Item>, parentId: Int64, h: Helpers, c: Collection)
    ensures c in Walk(items, parentId, h) <==> exists i :: 0 <= i < |items| && IsEntry(items[i], parentId, i, h, c)
  {
    WalkConcat(items, parentId, h);
    var e := EntriesAt(items, parentId, h);
    Lists.FlatMapMembers(e, Itself(), c);
    assert forall i :: 0 <= i < |items| ==> (c in Itself()(e[i]) <==> IsEntry(items[i], parentId, i, h, c));
  }

  /** Every collection of the tree names its parent: the top level names `parentId`, a category's items name the category. */
  predicate WellParented(cs: seq<Collection>, parentId: Int64)
    decreases cs
  {
    forall k :: 0 <= k < |cs| ==> cs[k].parentId == parentId && WellParented(cs[k].items, cs[k].id)
  }

  lemma WellParentedAppend(a: seq<Collection>, b: seq<Collection>, parentId: Int64)
    requires WellParented(a, parentId) && WellParented(b, parentId)
    ensures WellParented(a + b, parentId)
  {
    assert forall k :: 0 <= k < |a + b| ==> (a + b)[k] == if k < |a| then a[k] else b[k - |a|];
  }

  /** The whole tree of a walk is well parented, at every depth. */
  lemma {:induction false} WalkWellParented(items: seq<Item>, parentId: Int64, h: Helpers)
    ensures WellParented(Walk(items, parentId, h), parentId)
    decreases items
  {
    if |items| > 0 {
      var n := |items| - 1;
      var v := items[n];
      var id := ChildId(parentId, n);
      WalkWellParented(items[..n], parentId, h);
      var http := if v.request.Some? then [HttpEntry(v, parentId, n, h)] else [];
      var cat := if |v.items| > 0 then [Collection(id, parentId, CategoryType, v.name, None, Walk(v.items, id, h))] else [];
      assert WellParented(http, parentId) by {
        if v.request.Some? {
          assert WellParented(http[0].items, http[0].id);
        }
      }
      assert WellParented(cat, parentId) by {
        if |v.items| > 0 {
          WalkWellParented(v.items, id, h);
        }
      }
      WellParentedAppend(Walk(items[..n], parentId, h), http, parentId);
      WellParentedAppend(Walk(items[..n], parentId, h) + http, cat, parentId);
    }
  }

  /**
   * `Import`: a decoding error is returned as it is; otherwise the document
   * has ApiCat version "2.0.1", the collection's name and description, the
   * servers, empty globals and definitions, and the tree under id 1000.
   */
  function ImportOf(data: seq<bv8>, decode: seq<bv8> -> Result<PmCollection>, h: Helpers): (r: Result<ImportedSpec>)
    ensures r.Err? <==> decode(data).Err?
    ensures r.Err? ==> r.msg == decode(data).msg
    ensures r.Ok? ==> (
      && r.value.apicat == ApiCatVersion
      && r.value.title == decode(data).value.name && r.value.description == decode(data).value.description
      && r.value.servers == ServersOf(decode(data).value.items)
      && r.value.globals == GlobalParameters([], [], [])
      && r.value.schemas == [] && r.value.responseDefinitions == 0
      && r.value.collections == Walk(decode(data).value.items, RootId, h))
  {
    match decode(data)
    case Err(m) => Err(m)
    case Ok(pm) =>
      Ok(ImportedSpec(ApiCatVersion, pm.name, pm.description, ServersOf(pm.items), GlobalParameters([], [], []), [], 0, Walk(pm.items, RootId, h)))
  }

  /** An imported tree is well parented from the root id 1000 down. */
  lemma ImportWellParented(data: seq<bv8>, decode: seq<bv8> -> Result<PmCollection>, h: Helpers)
    requires decode(data).Ok?
    ensures WellParented(ImportOf(data, decode, h).value.collections, RootId)
  {
    WalkWellParented(decode(data).value.items, RootId, h);
  }

  // ---------------------------------------------------------------------
  // Request

  /** The first URL variable named by a ":name" segment. */
  function MatchedVariable(seg: string, vars: seq<KeyValue>): (r: Option<KeyValue>)
    ensures r.Some? <==> HasPrefix(seg, ":") && exists j :: 0 <= j < |vars| && vars[j].key == seg[1..]
    ensures r.Some? ==> r.value.key == seg[1..] && exists j :: (0 <= j < |vars| && vars[j] == r.value &&
      forall k :: 0 <= k < j ==> vars[k].key != seg[1..])
  {
    if !HasPrefix(seg, ":") then None
    else
      match Lists.FindFirst(vars, KeyIs(seg[1..]))
      case None => None
      case Some(j) => Some(vars[j])
  }

  function KeyIs(key: string): KeyValue -> bool
  {
    (x: KeyValue) => x.key == key
  }

  /** A segment as exported: "{name}" for a matched ":name", itself otherwise. */
  function Segment(seg: string, vars: seq<KeyValue>): (r: string)
    ensures MatchedVariable(seg, vars).Some? ==> r == "{" + seg[1..] + "}"
    ensures MatchedVariable(seg, vars).None? ==> r == seg
  {
    match MatchedVariable(seg, vars)
    case Some(x) => "{" + x.key + "}"
    case None => seg
  }

  /** The rewritten path segments: same number, each rewritten exactly when it names a variable. */
  function RewrittenPath(path: seq<string>, vars: seq<KeyValue>): (r: seq<string>)
    ensures |r| == |path| && forall k :: 0 <= k < |path| ==> r[k] == Segment(path[k], vars)
  {
    seq(|path|, k requires 0 <= k < |path| => Segment(path[k], vars))
  }

  function VariableParam(vars: seq<KeyValue>, h: Helpers): string -> Option<ModSchema>
  {
    (seg: string) => match MatchedVariable(seg, vars) case Some(x) => Some(h.variableParam(x)) case None => None
  }

  /** The path parameters: one per rewritten segment, in path order. */
  function PathParams(path: seq<string>, vars: seq<KeyValue>, h: Helpers): seq<ModSchema>
  {
    Lists.FilterMap(path, VariableParam(vars, h))
  }

  /** A path parameter is exactly the parameter of a variable some segment names. */
  lemma PathParamsMembers(path: seq<string>, vars: seq<KeyValue>, h: Helpers, p: ModSchema)
    ensures p in PathParams(path, vars, h) <==>
      exists k :: 0 <= k < |path| && MatchedVariable(path[k], vars).Some? && p == h.variableParam(MatchedVariable(path[k], vars).value)
  {
    Lists.FilterMapMembers(path, VariableParam(vars, h), p);
  }

  function EnabledQuery(h: Helpers): KeyValue -> Option<ModSchema>
  {
    (q: KeyValue) => if q.disabled then None else Some(h.queryParam(q))
  }

  /** The query parameters: the enabled queries, in order. */
  function QueryParams(qs: seq<KeyValue>, h: Helpers): seq<ModSchema>
  {
    Lists.FilterMap(qs, EnabledQuery(h))
  }

  /** Disabled queries are dropped, every enabled one is kept. */
  lemma QueryParamsMembers(qs: seq<KeyValue>, h: Helpers, p: ModSchema)
    ensures p in QueryParams(qs, h) <==> exists k :: 0 <= k < |qs| && !qs[k].disabled && p == h.queryParam(qs[k])
  {
    Lists.FilterMapMembers(qs, EnabledQuery(h), p);
  }

  /** Every request header becomes a header parameter, in order. */
  function HeaderParams(hs: seq<KeyValue>, h: Helpers): (r: seq<ModSchema>)
    ensures |r| == |hs| && forall k :: 0 <= k < |hs| ==> r[k] == h.headerParam(hs[k])
  {
    seq(|hs|, k requires 0 <= k < |hs| => h.headerParam(hs[k]))
  }

  /** The object schema's properties: the enabled fields by key, the later field of a key winning. */
  function FormProperties(fields: seq<FormField>, h: Helpers): (r: map<string, Schema>)
    ensures forall k :: k in r <==> exists j :: 0 <= j < |fields| && !fields[j].disabled && fields[j].key == k
  {
    if |fields| == 0 then map[]
    else
      var n := |fields| - 1;
      var f := fields[n];
      var r := FormProperties(fields[..n], h);
      assert forall j :: 0 <= j < n ==> fields[..n][j] == fields[j];
      if f.disabled then r else r[f.key := h.fieldSchema(f)]
  }

  /** A property holds the schema of the last enabled field with its key. */
  lemma {:induction false} FormPropertiesLastWins(fields: seq<FormField>, h: Helpers, j: nat)
    requires j < |fields| && !fields[j].disabled
    requires forall k :: j < k < |fields| ==> fields[k].disabled || fields[k].key != fields[j].key
    ensures FormProperties(fields, h)[fields[j].key] == h.fieldSchema(fields[j])
  {
    var n := |fields| - 1;
    if j < n {
      assert fields[..n][j] == fields[j];
      FormPropertiesLastWins(fields[..n], h, j);
    }
  }

  /** The body of a form: an object schema of the enabled fields. */
  function FormSchema(fields: seq<FormField>, h: Helpers): (r: Schema)
    ensures TypeFirst(r.typ) == "object" && r.properties == FormProperties(fields, h)
  {
    NewSchema("object").(properties := FormProperties(fields, h))
  }

  /** A body mode the importer converts: raw JSON, form data or url-encoded. */
  predicate Converted(b: PmBody)
  {
    (b.mode == "raw" && b.rawLanguage == "json") || b.mode == "formdata" || b.mode == "urlencode"
  }

  /**
   * `encodeRequestBody`: nothing for a missing or disabled body and for
   * modes other than raw JSON, form data and url-encoded; otherwise one
   * content type with its schema.
   */
  function RequestBodyOf(body: Option<PmBody>, h: Helpers): (r: Option<map<string, Body>>)
    ensures r.Some? <==> body.Some? && !body.value.disabled && Converted(body.value)
    ensures r.Some? && body.value.mode == "raw" ==> r.value == map[JsonType := Body(Some(h.jsonToSchema(body.value.raw)), map[])]
    ensures r.Some? && body.value.mode == "formdata" ==> r.value == map["multipart/form-data" := Body(Some(FormSchema(body.value.formdata, h)), map[])]
    ensures r.Some? && body.value.mode == "urlencode" ==> r.value == map["application/x-www-form-urlencoded" := Body(Some(FormSchema(body.value.formdata, h)), map[])]
  {
    if body.None? || body.value.disabled then None
    else
      var b := body.value;
      if b.mode == "raw" then
        if b.rawLanguage == "json" then Some(map[ContentTypes["json"] := Body(Some(h.jsonToSchema(b.raw)), map[])]) else None
      else if b.mode == "formdata" || b.mode == "urlencode" then
        Some(map[ContentTypes[b.mode] := Body(Some(FormSchema(b.formdata, h)), map[])])
      else None
  }

  /** The request content: the converted body, or an `application/json` empty object. */
  function RequestContent(body: Option<PmBody>, h: Helpers): (r: map<string, Body>)
    ensures |r| == 1
    ensures RequestBodyOf(body, h).None? ==> r == map[JsonType := Body(Some(NewSchema("object")), map[])]
    ensures RequestBodyOf(body, h).Some? ==> r == RequestBodyOf(body, h).value
  {
    match RequestBodyOf(body, h)
    case Some(c) => c
    case None => map[JsonType := Body(Some(NewSchema("object")), map[])]
  }

  /** The request node: path, query and header parameters and the content; no global exceptions. */
  function RequestOf(r: PmRequest, h: Helpers): RequestAttrs
  {
    RequestAttrs(GlobalExcepts([], [], []),
                 Parameters(QueryParams(r.url.queries, h), PathParams(r.url.path, r.url.variables, h), [], HeaderParams(r.headers, h)),
                 RequestContent(r.body, h))
  }

  // ---------------------------------------------------------------------
  // Responses

  /** A response's content: JSON, plain text, or a `text/plain` object for any other preview. */
  function ResponseContent(v: PmResponse, h: Helpers): (r: map<string, Body>)
    ensures v.previewLanguage == "json" ==> r == map[JsonType := Body(Some(h.jsonToSchema(v.body).(examples := Some(v.body))), map[])]
    ensures v.previewLanguage != "json" ==> r.Keys == {PlainType}
    ensures v.previewLanguage == "plain" ==> r[PlainType].schema == Some(NewSchema("string").(examples := Some(v.body)))
    ensures v.previewLanguage != "json" && v.previewLanguage != "plain" ==> r[PlainType].schema == Some(NewSchema("object"))
  {
    if v.previewLanguage == "json" then map[ContentTypes["json"] := Body(Some(h.jsonToSchema(v.body).(examples := Some(v.body))), map[])]
    else if v.previewLanguage == "plain" then map[ContentTypes["plain"] := Body(Some(NewSchema("string").(examples := Some(v.body))), map[])]
    else map[ContentTypes["plain"] := Body(Some(NewSchema("object")), map[])]
  }

  /** A response header: a string schema whose example is the header's value. */
  function HeaderOf(x: KeyValue): ModSchema
  {
    ModSchema(0, x.key, x.description, false, Some(NewSchema("string").(examples := Some(x.value))), None)
  }

  function EnabledHeader(): KeyValue -> Option<ModSchema>
  {
    (x: KeyValue) => if x.disabled then None else Some(HeaderOf(x))
  }

  /** The response headers: the enabled ones, in order. */
  function ResponseHeaders(hs: seq<KeyValue>): seq<ModSchema>
  {
    Lists.FilterMap(hs, EnabledHeader())
  }

  /** Disabled headers are dropped, every enabled one is kept with its key, description and value. */
  lemma ResponseHeadersMembers(hs: seq<KeyValue>, p: ModSchema)
    ensures p in ResponseHeaders(hs) <==> exists k :: 0 <= k < |hs| && !hs[k].disabled && p == HeaderOf(hs[k])
  {
    Lists.FilterMapMembers(hs, EnabledHeader(), p);
  }

  /** One saved response: the code, the response's name as description, the enabled headers and the content. */
  function ResponseOf(v: PmResponse, h: Helpers): ImportedResponse
  {
    ImportedResponse(v.code, "", v.name, ResponseHeaders(v.headers), ResponseContent(v, h))
  }

  /** The response given when there are none: 200 "success" with an `application/json` object. */
  function DefaultResponse(): ImportedResponse
  {
    ImportedResponse(200, "success", "", [], map[JsonType := Body(Some(NewSchema("object")), map[])])
  }

  /** `encodeResponseBody`: one response per saved response, in order, or the default response alone. */
  function ResponsesOf(res: seq<PmResponse>, h: Helpers): (r: seq<ImportedResponse>)
    ensures |r| > 0
    ensures |res| == 0 ==> r == [DefaultResponse()]
    ensures |res| > 0 ==> |r| == |res| && forall i :: 0 <= i < |res| ==> r[i] == ResponseOf(res[i], h)
  {
    if |res| == 0 then [DefaultResponse()]
    else seq(|res|, i requires 0 <= i < |res| => ResponseOf(res[i], h))
  }

  /** `convertContent`: the URL "/" + rewritten segments joined by "/", the request node, the responses. */
  function ContentOf(r: PmRequest, res: seq<PmResponse>, h: Helpers): (c: HttpContent)
    ensures c.path == "/" + Join(RewrittenPath(r.url.path, r.url.variables), "/") && c.httpMethod == r.httpMethod
    ensures c.request.parameters.path == PathParams(r.url.path, r.url.variables, h)
    ensures c.request.parameters.query == QueryParams(r.url.queries, h)
    ensures c.request.parameters.header == HeaderParams(r.headers, h) && c.request.parameters.cookie == []
    ensures c.request.content == RequestContent(r.body, h)
    ensures c.responses == ResponsesOf(res, h)
  {
    HttpContent("/" + Join(RewrittenPath(r.url.path, r.url.variables), "/"), r.httpMethod, RequestOf(r, h), ResponsesOf(res, h))
  }

  // ---------------------------------------------------------------------
  // The importer's loops

  /** The server closure of `Import`: the first top-level item with a request gives the server. */
  method ImportServers(items: seq<Item>) returns (servers: seq<Server>)
    ensures servers == ServersOf(items)
  {
    for i := 0 to |items|
      invariant forall j :: 0 <= j < i ==> items[j].request.None?
    {
      if items[i].request.Some? {
        return [ServerOf(items[i].request.value)];
      }
    }
    return [];
  }

  /** The inner search of `convertContent`: the first variable with that key. */
  method FindVariable(key: string, vars: seq<KeyValue>) returns (r: Option<nat>)
    ensures r == Lists.FindFirst(vars, KeyIs(key))
  {
    for j := 0 to |vars|
      invariant forall k :: 0 <= k < j ==> vars[k].key != key
    {
      if vars[j].key == key {
        return Some(j);
      }
    }
    return None;
  }

  /** The path loop of `convertContent`: rewrites the segments and collects the path parameters. */
  method ConvertPath(path: seq<string>, vars: seq<KeyValue>, h: Helpers) returns (segs: seq<string>, params: seq<ModSchema>)
    ensures segs == RewrittenPath(path, vars)
    ensures params == PathParams(path, vars, h)
  {
    segs := path;
    params := [];
    for k := 0 to |path|
      invariant |segs| == |path|
      invariant forall m :: 0 <= m < k ==> segs[m] == Segment(path[m], vars)
      invariant forall m :: k <= m < |path| ==> segs[m] == path[m]
      invariant params == PathParams(path[..k], vars, h)
    {
      assert path[..k + 1][..k] == path[..k];
      var x := MatchSegment(path[k], vars);
      if x.Some? {
        segs := segs[k := "{" + x.value.key + "}"];
        params := params + [h.variableParam(x.value)];
      }
    }
    assert path[..|path|] == path;
  }

  /** One segment of the path loop: a ":name" segment and the first variable with that name. */
  method MatchSegment(v: string, vars: seq<KeyValue>) returns (x: Option<KeyValue>)
    ensures x == MatchedVariable(v, vars)
  {
    if !HasPrefix(v, ":") {
      return None;
    }
    var j := FindVariable(v[1..], vars);
    x := if j.Some? then Some(vars[j.value]) else None;
  }

  /** The query loop of `convertContent`: enabled queries only. */
  method ConvertQueries(qs: seq<KeyValue>, h: Helpers) returns (params: seq<ModSchema>)
    ensures params == QueryParams(qs, h)
  {
    params := [];
    for i := 0 to |qs|
      invariant params == QueryParams(qs[..i], h)
    {
      assert qs[..i + 1][..i] == qs[..i];
      if qs[i].disabled {
        continue;
      }
      params := params + [h.queryParam(qs[i])];
    }
    assert qs[..|qs|] == qs;
  }

  /** The header loop of `convertContent`. */
  method ConvertHeaders(hs: seq<KeyValue>, h: Helpers) returns (params: seq<ModSchema>)
    ensures params == HeaderParams(hs, h)
  {
    params := [];
    for i := 0 to |hs|
      invariant params == HeaderParams(hs[..i], h)
    {
      params := params + [h.headerParam(hs[i])];
    }
    assert hs[..|hs|] == hs;
  }

  /** The field loop of `encodeRequestBody`. */
  method FormFields(fields: seq<FormField>, h: Helpers) returns (props: map<string, Schema>)
    ensures props == FormProperties(fields, h)
  {
    props := map[];
    for i := 0 to |fields|
      invariant props == FormProperties(fields[..i], h)
    {
      assert fields[..i + 1][..i] == fields[..i];
      if fields[i].disabled {
        continue;
      }
      props := props[fields[i].key := h.fieldSchema(fields[i])];
    }
    assert fields[..|fields|] == fields;
  }

  /** `encodeRequestBody`. */
  method EncodeRequestBody(body: Option<PmBody>, h: Helpers) returns (r: Option<map<string, Body>>)
    ensures r == RequestBodyOf(body, h)
  {
    if body.None? || body.value.disabled {
      return None;
    }
    var b := body.value;
    if b.mode == "raw" {
      if b.rawLanguage == "json" {
        return Some(map[ContentTypes["json"] := Body(Some(h.jsonToSchema(b.raw)), map[])]);
      }
    } else if b.mode == "formdata" || b.mode == "urlencode" {
      var props := FormFields(b.formdata, h);
      return Some(map[ContentTypes[b.mode] := Body(Some(NewSchema("object").(properties := props)), map[])]);
    }
    return None;
  }

  /** The header loop of `encodeResponseBody`. */
  method EncodeHeaders(hs: seq<KeyValue>) returns (out: seq<ModSchema>)
    ensures out == ResponseHeaders(hs)
  {
    out := [];
    for i := 0 to |hs|
      invariant out == ResponseHeaders(hs[..i])
    {
      assert hs[..i + 1][..i] == hs[..i];
      if hs[i].disabled {
        continue;
      }
      out := out + [HeaderOf(hs[i])];
    }
    assert hs[..|hs|] == hs;
  }

  /** `encodeResponseBody`. */
  method EncodeResponseBody(res: seq<PmResponse>, h: Helpers) returns (list: seq<ImportedResponse>)
    ensures list == ResponsesOf(res, h)
  {
    list := [];
    for i := 0 to |res|
      invariant |list| == i && forall j :: 0 <= j < i ==> list[j] == ResponseOf(res[j], h)
    {
      var v := res[i];
      var content: map<string, Body>;
      if v.previewLanguage == "json" {
        var b := h.jsonToSchema(v.body).(examples := Some(v.body));
        content := map[ContentTypes["json"] := Body(Some(b), map[])];
      } else if v.previewLanguage == "plain" {
        var b := NewSchema("string").(examples := Some(v.body));
        content := map[ContentTypes["plain"] := Body(Some(b), map[])];
      } else {
        content := map[ContentTypes["plain"] := Body(Some(NewSchema("object")), map[])];
      }
      var headers := EncodeHeaders(v.headers);
      list := list + [ImportedResponse(v.code, "", v.name, headers, content)];
    }
    if |list| == 0 {
      list := [DefaultResponse()];
    }
  }

  /** `convertContent`. */
  method ConvertContent(r: PmRequest, res: seq<PmResponse>, h: Helpers) returns (c: HttpContent)
    ensures c == ContentOf(r, res, h)
  {
    var segs, pathParams := ConvertPath(r.url.path, r.url.variables, h);
    var queries := ConvertQueries(r.url.queries, h);
    var headers := ConvertHeaders(r.headers, h);
    var body := EncodeRequestBody(r.body, h);
    var content := if body.Some? then body.value else map[JsonType := Body(Some(NewSchema("object")), map[])];
    var req := RequestAttrs(GlobalExcepts([], [], []), Parameters(queries, pathParams, [], headers), content);
    var responses := EncodeResponseBody(res, h);
    c := HttpContent("/" + Join(segs, "/"), r.httpMethod, req, responses);
  }

  /** `walkCollection`. */
  method WalkCollection(items: seq<Item>, parentId: Int64, h: Helpers) returns (cs: seq<Collection>)
    ensures cs == Walk(items, parentId, h)
    decreases items
  {
    cs := [];
    for i := 0 to |items|
      invariant cs == Walk(items[..i], parentId, h)
    {
      WalkStep(items, parentId, h, i);
      var v := items[i];
      var id := ChildId(parentId, i);
      if v.request.Some? {
        var content := ConvertContent(v.request.value, v.responses, h);
        cs := cs + [Collection(id, parentId, HttpType, v.name, Some(content), [])];
      }
      if |v.items| > 0 {
        var sub := WalkCollection(v.items, id, h);
        cs := cs + [Collection(id, parentId, CategoryType, v.name, None, sub)];
      }
    }
    assert items[..|items|] == items;
  }

  /** One more item extends the walk by that item's http collection and category. */
  lemma WalkStep(items: seq<Item>, parentId: Int64, h: Helpers, i: nat)
    requires i < |items|
    ensures Walk(items[..i + 1], parentId, h) == Walk(items[..i], parentId, h)
      + (if items[i].request.Some? then [HttpEntry(items[i], parentId, i, h)] else [])
      + (if |items[i].items| > 0 then [CategoryEntry(items[i], parentId, i, h)] else [])
  {
    assert items[..i + 1][..i] == items[..i];
  }

  /** `Import`. */
  method Import(data: seq<bv8>, decode: seq<bv8> -> Result<PmCollection>, h: Helpers) returns (r: Result<ImportedSpec>)
    ensures r == ImportOf(data, decode, h)
  {
    var d := decode(data);
    if d.Err? {
      return Err(d.msg);
    }
    var pm := d.value;
    var servers := ImportServers(pm.items);
    var collections := WalkCollection(pm.items, RootId, h);
    r := Ok(ImportedSpec(ApiCatVersion, pm.name, pm.description, servers, GlobalParameters([], [], []), [], 0, collections));
  }
}
