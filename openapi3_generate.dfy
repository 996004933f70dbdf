/**
 * The OpenAPI 3.x exporter (`openapiGenerator`): schema conversion, the
 * `components` object (schemas, responses, global parameters), each
 * operation's parameters, request body and responses, and the `paths` object.
 *
 * The exporter keeps one field, `modelMapping` (model id to name), filled by
 * `GenerateComponents` and read by every schema conversion. The visiting
 * order of every map it ranges over is the input `order`.
 */
module OpenApiGenerate {
  import opened Wrappers
  import opened Text
  import Lists
  import opened JsonSchema
  import opened Spec2
  import SwaggerGenerate
  import SwaggerParse

  /** An exported header: the parameter's own description and its converted schema. */
  datatype Header = Header(description: string, schema: Option<Schema>)

  /**
   * An exported response: the bare success object, a `$ref` object, or the
   * inline form with its headers (when there are any) and its content (when
   * the response has a content map).
   */
  datatype ResponseObject =
    | Success
    | RefObject(ref: string)
    | Inline(name: string, description: string, headers: Option<map<string, Header>>, content: Option<map<string, Option<Schema>>>)

  /** A request media type: the converted schema whose `examples` are replaced by the body's example list. */
  datatype RequestMedia = RequestMedia(schema: Option<Schema>, examples: Option<seq<Example>>)

  datatype PathItem = PathItem(
    summary: string,
    description: string,
    operationId: string,
    tags: seq<string>,
    parameters: seq<OutParam>,
    requestBody: Option<map<string, RequestMedia>>,
    responses: map<string, ResponseObject>)

  /** The `components` object. */
  datatype Components = Components(schemas: map<string, Option<Schema>>, responses: map<string, ResponseObject>, globals: map<string, OutParam>)

  /** What `generateBase` fills in. */
  datatype OpenApiDoc = OpenApiDoc(openapi: string, info: Info, servers: seq<Server>, components: Components)

  const DefinitionResponsePrefix: string := "#/definitions/responses/"
  const ComponentsResponsePrefix: string := "#/components/responses/"
  const NoneContentType: string := "none"
  const SuccessCode: string := "200"

  /**
   * `convertJsonSchema`: nil stays nil; otherwise `convertJsonSchemaRef`, and
   * a schema whose first type is "file" becomes an array of empty schemas.
   */
  function ConvertSchema(v: Option<Schema>, version: string, names: map<Int64, string>, convertRef: RefConverter): (r: Option<Schema>)
    ensures r.None? <==> v.None?
    ensures r.Some? ==> TypeFirst(r.value.typ) != "file"
    ensures r.Some? && TypeFirst(convertRef(v.value, version, names).typ) == "file" ==>
      r.value == convertRef(v.value, version, names).(typ := Some(["array"]), items := Nested(EmptySchema()))
    ensures r.Some? && TypeFirst(convertRef(v.value, version, names).typ) != "file" ==> r.value == convertRef(v.value, version, names)
  {
    if v.None? then None
    else
      var p := convertRef(v.value, version, names);
      if TypeFirst(p.typ) == "file" then Some(p.(typ := Some(["array"]), items := Nested(EmptySchema()))) else Some(p)
  }

  // ---------------------------------------------------------------------
  // Components

  /** One schema per model, keyed "<name without spaces>-<id>". */
  function SchemasOf(ms: seq<DefinitionModel>, version: string, names: map<Int64, string>, convertRef: RefConverter): map<string, Option<Schema>>
  {
    if |ms| == 0 then map[]
    else
      var m := ms[|ms| - 1];
      SchemasOf(ms[..|ms| - 1], version, names, convertRef)[SwaggerGenerate.ModelKey(m) := ConvertSchema(m.schema, version, names, convertRef)]
  }

  /** Every model, category items included, has a schema keyed "<name without spaces>-<id>", and nothing else does. */
  lemma {:induction false} SchemasOfKeys(ms: seq<DefinitionModel>, version: string, names: map<Int64, string>, convertRef: RefConverter, k: string)
    ensures k in SchemasOf(ms, version, names, convertRef) <==> exists m :: m in ms && SwaggerGenerate.ModelKey(m) == k
  {
    if |ms| > 0 {
      var init := ms[..|ms| - 1];
      SchemasOfKeys(init, version, names, convertRef, k);
      if m :| m in ms && SwaggerGenerate.ModelKey(m) == k {
        Lists.InSnoc(ms, m);
      }
      if m :| m in init && SwaggerGenerate.ModelKey(m) == k {
        Lists.InSnoc(ms, m);
      }
    }
  }

  /** The headers of a response by name, the later header of a name winning. */
  function HeadersOf(hs: seq<Parameter>, version: string, names: map<Int64, string>, convertRef: RefConverter): (r: map<string, Header>)
    ensures forall k :: k in r <==> exists i :: 0 <= i < |hs| && hs[i].name == k
  {
    if |hs| == 0 then map[]
    else
      var n := |hs| - 1;
      var h := hs[n];
      var r := HeadersOf(hs[..n], version, names, convertRef);
      assert forall i :: 0 <= i < n ==> hs[..n][i] == hs[i];
      r[h.name := Header(h.description, ConvertSchema(h.schema, version, names, convertRef))]
  }

  /** The content of a response: each visited content type with its body's converted schema. */
  function ContentSchemas(content: map<string, Body>, cts: seq<string>, version: string, names: map<Int64, string>, convertRef: RefConverter): (r: map<string, Option<Schema>>)
    requires forall c :: c in cts ==> c in content
    ensures forall c :: c in r <==> c in cts
    ensures forall c :: c in r ==> r[c] == ConvertSchema(content[c].schema, version, names, convertRef)
  {
    if |cts| == 0 then map[]
    else
      var c := cts[|cts| - 1];
      var init := cts[..|cts| - 1];
      assert forall x :: x in cts <==> x in init || x == c;
      ContentSchemas(content, init, version, names, convertRef)[c := ConvertSchema(content[c].schema, version, names, convertRef)]
  }

  /**
   * `generateResponseWithoutRef`: name, description, the headers when there
   * are any, and the content when the response has a content map; the
   * content is the same whatever order its map is visited in.
   */
  function InlineResponse(b: BasicResponse, version: string, names: map<Int64, string>, convertRef: RefConverter, order: KeyOrder): (r: ResponseObject)
    requires ValidOrder(order)
    ensures r.Inline? && r.name == b.name && r.description == b.description
    ensures r.headers.Some? <==> |b.header| > 0
    ensures r.content.Some? <==> b.content.Some?
    ensures r.content.Some? ==> (r.content.value.Keys == b.content.value.Keys &&
      forall c :: c in r.content.value ==> r.content.value[c] == ConvertSchema(b.content.value[c].schema, version, names, convertRef))
  {
    var headers := if |b.header| > 0 then Some(HeadersOf(b.header, version, names, convertRef)) else None;
    var content := if b.content.Some? then Some(ContentSchemas(b.content.value, order(b.content.value.Keys), version, names, convertRef)) else None;
    Inline(b.name, b.description, headers, content)
  }

  /**
   * The key of a response definition in `components.responses`. As written,
   * category items and `$ref`s use "<name>-<id>" while top-level definitions
   * use "<name without spaces>-<id>"; the intended key is the latter for all.
   */
  function ResponseKey(b: BasicResponse, variant: Variant): (k: string)
    ensures variant == Intended ==> k == NameId(StripSpaces(b.name), b.id)
    ensures variant == AsWritten ==> k == NameId(b.name, b.id)
  {
    if variant == AsWritten then NameId(b.name, b.id) else NameId(StripSpaces(b.name), b.id)
  }

  /** The reference is a response definition's and names one the document has. */
  predicate KnownRef(resp: Response, lookup: ResponseLookup)
  {
    resp.reference != "" && HasPrefix(resp.reference, DefinitionResponsePrefix) && lookup(resp.reference).Some?
  }

  /**
   * `generateResponse`: a reference to a known response definition becomes
   * `{"$ref": "#/components/responses/<key>"}`; every other response,
   * including one with an unknown reference, is exported inline.
   */
  function GeneratedResponse(resp: Response, lookup: ResponseLookup, version: string, names: map<Int64, string>, convertRef: RefConverter, order: KeyOrder, variant: Variant): (r: ResponseObject)
    requires ValidOrder(order)
    ensures KnownRef(resp, lookup) ==> r == RefObject(ComponentsResponsePrefix + ResponseKey(lookup(resp.reference).value, variant))
    ensures !KnownRef(resp, lookup) ==> r == InlineResponse(resp.basic, version, names, convertRef, order)
  {
    if KnownRef(resp, lookup) then RefObject(ComponentsResponsePrefix + ResponseKey(lookup(resp.reference).value, variant))
    else InlineResponse(resp.basic, version, names, convertRef, order)
  }

  /** An unknown response reference: Swagger 2.0 exports nil, OpenAPI 3.x the inline form. */
  lemma UnknownRefInline(resp: Response, lookup: ResponseLookup, version: string, names: map<Int64, string>, convertRef: RefConverter, order: KeyOrder, variant: Variant)
    requires ValidOrder(order)
    requires resp.reference != "" && lookup(resp.reference).None?
    ensures SwaggerGenerate.GeneratedResponse(resp, lookup, names, convertRef, order) == SwaggerGenerate.NilResponse
    ensures GeneratedResponse(resp, lookup, version, names, convertRef, order, variant).Inline?
    ensures GeneratedResponse(resp, lookup, version, names, convertRef, order, variant).name == resp.basic.name
  {
  }

  /** The response definitions with category items in place of their categories. */
  function FlatResponses(rs: seq<DefinitionResponse>, flatten: FlattenResponse): seq<DefinitionResponse>
  {
    if |rs| == 0 then []
    else
      var v := rs[|rs| - 1];
      FlatResponses(rs[..|rs| - 1], flatten) + (if v.typ == CategoryType then flatten(v) else [v])
  }

  /** The items of a response category, each under its item key. */
  function AddResponseItems(r: map<string, ResponseObject>, items: seq<DefinitionResponse>, version: string, names: map<Int64, string>, convertRef: RefConverter, order: KeyOrder, variant: Variant): map<string, ResponseObject>
    requires ValidOrder(order)
  {
    if |items| == 0 then r
    else
      var it := items[|items| - 1];
      AddResponseItems(r, items[..|items| - 1], version, names, convertRef, order, variant)[ResponseKey(it.basic, variant) := InlineResponse(it.basic, version, names, convertRef, order)]
  }

  lemma AddResponseItemsStep(r: map<string, ResponseObject>, items: seq<DefinitionResponse>, j: nat, version: string, names: map<Int64, string>, convertRef: RefConverter, order: KeyOrder, variant: Variant)
    requires ValidOrder(order)
    requires j < |items|
    ensures AddResponseItems(r, items[..j + 1], version, names, convertRef, order, variant) ==
      AddResponseItems(r, items[..j], version, names, convertRef, order, variant)[ResponseKey(items[j].basic, variant) := InlineResponse(items[j].basic, version, names, convertRef, order)]
  {
    assert items[..j + 1][..j] == items[..j];
  }

  /** `components.responses`: top-level definitions keyed "<name without spaces>-<id>", category items by their item key. */
  function ResponsesOf(rs: seq<DefinitionResponse>, flatten: FlattenResponse, version: string, names: map<Int64, string>, convertRef: RefConverter, order: KeyOrder, variant: Variant): map<string, ResponseObject>
    requires ValidOrder(order)
  {
    if |rs| == 0 then map[]
    else
      var v := rs[|rs| - 1];
      var r := ResponsesOf(rs[..|rs| - 1], flatten, version, names, convertRef, order, variant);
      if v.typ == CategoryType then AddResponseItems(r, flatten(v), version, names, convertRef, order, variant)
      else r[ResponseKey(v.basic, Intended) := InlineResponse(v.basic, version, names, convertRef, order)]
  }

  lemma {:induction false} AddResponseItemsKeys(r: map<string, ResponseObject>, items: seq<DefinitionResponse>, version: string, names: map<Int64, string>, convertRef: RefConverter, order: KeyOrder, variant: Variant, k: string)
    requires ValidOrder(order)
    ensures k in AddResponseItems(r, items, version, names, convertRef, order, variant) <==>
      k in r || exists d :: d in items && ResponseKey(d.basic, variant) == k
  {
    if |items| > 0 {
      var init := items[..|items| - 1];
      AddResponseItemsKeys(r, init, version, names, convertRef, order, variant, k);
      if d :| d in items && ResponseKey(d.basic, variant) == k {
        Lists.InSnoc(items, d);
      }
      if d :| d in init && ResponseKey(d.basic, variant) == k {
        Lists.InSnoc(items, d);
      }
    }
  }

  /** With the intended keys, every definition, category items included, is in `components.responses` under its key. */
  lemma {:induction false} ResponsesOfKeys(rs: seq<DefinitionResponse>, flatten: FlattenResponse, version: string, names: map<Int64, string>, convertRef: RefConverter, order: KeyOrder, d: DefinitionResponse)
    requires ValidOrder(order)
    requires d in FlatResponses(rs, flatten)
    ensures ResponseKey(d.basic, Intended) in ResponsesOf(rs, flatten, version, names, convertRef, order, Intended)
  {
    var n := |rs| - 1;
    var v := rs[n];
    var init := rs[..n];
    var prev := ResponsesOf(init, flatten, version, names, convertRef, order, Intended);
    var k := ResponseKey(d.basic, Intended);
    var tail := if v.typ == CategoryType then flatten(v) else [v];
    assert FlatResponses(rs, flatten) == FlatResponses(init, flatten) + tail;
    if d in FlatResponses(init, flatten) {
      ResponsesOfKeys(init, flatten, version, names, convertRef, order, d);
      if v.typ == CategoryType {
        AddResponseItemsKeys(prev, flatten(v), version, names, convertRef, order, Intended, k);
      }
    } else if v.typ == CategoryType {
      AddResponseItemsKeys(prev, flatten(v), version, names, convertRef, order, Intended, k);
    }
  }

  /** With the intended keys, a `$ref` to any definition of the document names a key of `components.responses`. */
  lemma RefResolves(resp: Response, lookup: ResponseLookup, rs: seq<DefinitionResponse>, flatten: FlattenResponse, version: string, names: map<Int64, string>, convertRef: RefConverter, order: KeyOrder, d: DefinitionResponse)
    requires ValidOrder(order)
    requires d in FlatResponses(rs, flatten) && KnownRef(resp, lookup) && lookup(resp.reference) == Some(d.basic)
    ensures exists k :: (k in ResponsesOf(rs, flatten, version, names, convertRef, order, Intended) &&
      GeneratedResponse(resp, lookup, version, names, convertRef, order, Intended) == RefObject(ComponentsResponsePrefix + k))
  {
    ResponsesOfKeys(rs, flatten, version, names, convertRef, order, d);
  }

  /** A top-level response definition named "a b", id 3. */
  function SpacedResponse(): BasicResponse
  {
    BasicResponse(3, "a b", "", [], None)
  }

  /**
   * As written, a `$ref` to a top-level response definition whose name has a
   * space names no key of `components.responses`.
   */
  lemma DanglingResponseRef(version: string, names: map<Int64, string>, convertRef: RefConverter, order: KeyOrder, flatten: FlattenResponse)
    requires ValidOrder(order)
    ensures var rs := [DefinitionResponse("", SpacedResponse())];
      var resp := Response(200, DefinitionResponsePrefix + "3", SpacedResponse().(id := 0));
      var lookup: ResponseLookup := _ => Some(SpacedResponse());
      var r := GeneratedResponse(resp, lookup, version, names, convertRef, order, AsWritten);
      var m := ResponsesOf(rs, flatten, version, names, convertRef, order, AsWritten);
      r.RefObject? && forall k :: k in m ==> r != RefObject(ComponentsResponsePrefix + k)
  {
    var b := SpacedResponse();
    var rs := [DefinitionResponse("", b)];
    assert rs[..0] == [];
    var m := ResponsesOf(rs, flatten, version, names, convertRef, order, AsWritten);
    var stripped := StripSpaces(b.name);
    assert stripped == "ab" by {
      assert "a b"[1..] == " b" && " b"[1..] == "b" && "b"[1..] == "";
      assert StripSpaces("b") == "b";
      assert StripSpaces(" b") == "b";
    }
    var v := rs[0];
    assert v.typ != CategoryType;
    assert ResponsesOf(rs[..0], flatten, version, names, convertRef, order, AsWritten) == map[];
    assert m == map[ResponseKey(b, Intended) := InlineResponse(b, version, names, convertRef, order)];
    assert m.Keys == {NameId("ab", 3)};
    var asWritten := NameId("a b", 3);
    assert asWritten[1] == ' ';
    assert NameId("ab", 3)[1] == 'b';
    var resp := Response(200, DefinitionResponsePrefix + "3", b.(id := 0));
    assert HasPrefix(resp.reference, DefinitionResponsePrefix) by {
      assert resp.reference[..|DefinitionResponsePrefix|] == DefinitionResponsePrefix;
    }
    forall k | k in m
      ensures ComponentsResponsePrefix + asWritten != ComponentsResponsePrefix + k
    {
      var n := |ComponentsResponsePrefix|;
      assert (ComponentsResponsePrefix + asWritten)[n + 1] == ' ';
      assert (ComponentsResponsePrefix + k)[n + 1] == 'b';
    }
  }

  /** A global parameter's key: its location, "-", its name without spaces. */
  function GlobalKey(loc: string, p: Parameter): string
  {
    loc + "-" + StripSpaces(p.name)
  }

  /** The global parameters of one location. */
  function AddGlobals(r: map<string, OutParam>, ps: seq<Parameter>, loc: string, version: string, toParameter: ToParameter): map<string, OutParam>
  {
    if |ps| == 0 then r
    else
      var p := ps[|ps| - 1];
      AddGlobals(r, ps[..|ps| - 1], loc, version, toParameter)[GlobalKey(loc, p) := toParameter(p, loc, version)]
  }

  /** `x-apicat-global-parameters`: every location's parameters, keyed "<in>-<name without spaces>". */
  function GlobalsOut(g: Located, locs: seq<string>, version: string, toParameter: ToParameter): map<string, OutParam>
  {
    if |locs| == 0 then map[]
    else
      var loc := locs[|locs| - 1];
      AddGlobals(GlobalsOut(g, locs[..|locs| - 1], version, toParameter), ParamsAt(g, loc), loc, version, toParameter)
  }

  lemma {:induction false} AddGlobalsKeys(r: map<string, OutParam>, ps: seq<Parameter>, loc: string, version: string, toParameter: ToParameter, k: string)
    ensures k in AddGlobals(r, ps, loc, version, toParameter) <==> k in r || exists p :: p in ps && GlobalKey(loc, p) == k
  {
    if |ps| > 0 {
      var init := ps[..|ps| - 1];
      AddGlobalsKeys(r, init, loc, version, toParameter, k);
      if p :| p in ps && GlobalKey(loc, p) == k {
        Lists.InSnoc(ps, p);
      }
      if p :| p in init && GlobalKey(loc, p) == k {
        Lists.InSnoc(ps, p);
      }
    }
  }

  /** The keys are exactly "<in>-<name without spaces>" of the global parameters. */
  lemma {:induction false} GlobalsOutKeys(g: Located, locs: seq<string>, version: string, toParameter: ToParameter, k: string)
    ensures k in GlobalsOut(g, locs, version, toParameter) <==>
      exists loc, p :: loc in locs && p in ParamsAt(g, loc) && GlobalKey(loc, p) == k
  {
    if |locs| > 0 {
      var init := locs[..|locs| - 1];
      var loc := locs[|locs| - 1];
      GlobalsOutKeys(g, init, version, toParameter, k);
      AddGlobalsKeys(GlobalsOut(g, init, version, toParameter), ParamsAt(g, loc), loc, version, toParameter, k);
      assert forall l :: l in locs <==> l in init || l == loc by {
        assert locs == init + [loc];
      }
    }
  }

  /**
   * The importer files an exported global parameter under the location it
   * was exported from, and under no other: the location names have no "-".
   */
  lemma GlobalKeyRoundTrip(loc: string, p: Parameter, q: Parameter, other: string)
    requires '-' !in loc && other != loc
    ensures KeyLocation(GlobalKey(loc, p)) == Some(loc)
    ensures SwaggerParse.Filed([(GlobalKey(loc, p), Some(q))], loc) == [q]
    ensures SwaggerParse.Filed([(GlobalKey(loc, p), Some(q))], other) == []
  {
    KeyLocationOfJoined(loc, StripSpaces(p.name));
    var entries := [(GlobalKey(loc, p), Some(q))];
    assert entries[..0] == [];
  }

  // ---------------------------------------------------------------------
  // Request parameters

  /** One local parameter as exported: name, location, description, required flag and converted schema. */
  function LocalParam(p: Parameter, loc: string, version: string, names: map<Int64, string>, convertRef: RefConverter): OutParam
  {
    OutParam(p.name, loc, "", p.description, p.required, ConvertSchema(p.schema, version, names, convertRef))
  }

  function LocationOut(ps: seq<Parameter>, loc: string, version: string, names: map<Int64, string>, convertRef: RefConverter): (r: seq<OutParam>)
    ensures |r| == |ps| && forall j :: 0 <= j < |ps| ==> r[j] == LocalParam(ps[j], loc, version, names, convertRef)
  {
    seq(|ps|, j requires 0 <= j < |ps| => LocalParam(ps[j], loc, version, names, convertRef))
  }

  /** What each location gives. */
  function LocationFn(ps: Located, version: string, names: map<Int64, string>, convertRef: RefConverter): string -> seq<OutParam>
  {
    loc => LocationOut(ParamsAt(ps, loc), loc, version, names, convertRef)
  }

  /** The local parameters of every location, by location in visiting order. */
  function LocalOut(ps: Located, locs: seq<string>, version: string, names: map<Int64, string>, convertRef: RefConverter): seq<OutParam>
  {
    Lists.FlatMap(locs, LocationFn(ps, version, names, convertRef))
  }

  lemma LocalOutStep(ps: Located, locs: seq<string>, i: nat, version: string, names: map<Int64, string>, convertRef: RefConverter)
    requires i < |locs|
    ensures LocalOut(ps, locs[..i + 1], version, names, convertRef) ==
      LocalOut(ps, locs[..i], version, names, convertRef) + LocationOut(ParamsAt(ps, locs[i]), locs[i], version, names, convertRef)
  {
    assert locs[..i + 1][..i] == locs[..i];
  }

  /** Every location is exported, not only header, query, path and cookie; each parameter keeps its location. */
  lemma LocalOutMembers(ps: Located, locs: seq<string>, version: string, names: map<Int64, string>, convertRef: RefConverter, o: OutParam)
    ensures o in LocalOut(ps, locs, version, names, convertRef) <==>
      exists i, j :: 0 <= i < |locs| && 0 <= j < |ParamsAt(ps, locs[i])| && o == LocalParam(ParamsAt(ps, locs[i])[j], locs[i], version, names, convertRef)
  {
    Lists.FlatMapMembers(locs, LocationFn(ps, version, names, convertRef), o);
    if i, j :| 0 <= i < |locs| && 0 <= j < |ParamsAt(ps, locs[i])| && o == LocalParam(ParamsAt(ps, locs[i])[j], locs[i], version, names, convertRef) {
      assert o == LocationFn(ps, version, names, convertRef)(locs[i])[j];
    }
  }

  /** `generateReqParams`: the non-excepted globals, then the local parameters of every location. */
  function ReqParams(req: Request, globals: Located, version: string, names: map<Int64, string>, convertRef: RefConverter, globalToLocal: GlobalToLocal, order: KeyOrder): seq<OutParam>
  {
    globalToLocal(globals, false, req.globalExcepts) + LocalOut(req.parameters, order(req.parameters.Keys), version, names, convertRef)
  }

  // ---------------------------------------------------------------------
  // Paths

  /** The request body: every visited content type but "none", or None when none is left. */
  function RequestBodyOf(content: map<string, Body>, cts: seq<string>, version: string, names: map<Int64, string>, convertRef: RefConverter): (r: Option<map<string, RequestMedia>>)
    requires forall c :: c in cts ==> c in content
    ensures r.Some? <==> exists c :: c in cts && c != NoneContentType
    ensures r.Some? ==> forall c :: c in r.value <==> c in cts && c != NoneContentType
    ensures r.Some? ==> forall c :: c in r.value ==> r.value[c] == RequestMedia(ConvertSchema(content[c].schema, version, names, convertRef), content[c].examples)
  {
    if |cts| == 0 then None
    else
      var c := cts[|cts| - 1];
      var init := cts[..|cts| - 1];
      assert forall x :: x in cts <==> x in init || x == c;
      var r := RequestBodyOf(content, init, version, names, convertRef);
      if c == NoneContentType then r
      else
        assert c in cts;
        var m := if r.Some? then r.value else map[];
        Some(m[c := RequestMedia(ConvertSchema(content[c].schema, version, names, convertRef), content[c].examples)])
  }

  /** The responses of one operation keyed by code, the later response of a code winning. */
  function CodeResponses(list: seq<Response>, lookup: ResponseLookup, version: string, names: map<Int64, string>, convertRef: RefConverter, order: KeyOrder, variant: Variant): map<string, ResponseObject>
    requires ValidOrder(order)
  {
    if |list| == 0 then map[]
    else
      var x := list[|list| - 1];
      CodeResponses(list[..|list| - 1], lookup, version, names, convertRef, order, variant)[FormatInt(x.code) := GeneratedResponse(x, lookup, version, names, convertRef, order, variant)]
  }

  /** An operation's responses: by code, or a "200" success object when the list is empty. */
  function PathResponses(list: seq<Response>, lookup: ResponseLookup, version: string, names: map<Int64, string>, convertRef: RefConverter, order: KeyOrder, variant: Variant): map<string, ResponseObject>
    requires ValidOrder(order)
  {
    if |list| == 0 then map[SuccessCode := Success] else CodeResponses(list, lookup, version, names, convertRef, order, variant)
  }

  lemma {:induction false} CodeResponsesKeys(list: seq<Response>, lookup: ResponseLookup, version: string, names: map<Int64, string>, convertRef: RefConverter, order: KeyOrder, variant: Variant, k: string)
    requires ValidOrder(order)
    ensures k in CodeResponses(list, lookup, version, names, convertRef, order, variant) <==> exists x :: x in list && FormatInt(x.code) == k
  {
    if |list| > 0 {
      var init := list[..|list| - 1];
      CodeResponsesKeys(init, lookup, version, names, convertRef, order, variant, k);
      if x :| x in list && FormatInt(x.code) == k {
        Lists.InSnoc(list, x);
      }
      if x :| x in init && FormatInt(x.code) == k {
        Lists.InSnoc(list, x);
      }
    }
  }

  /** The keys are the response codes; an empty list gives the single key "200". */
  lemma PathResponsesKeys(list: seq<Response>, lookup: ResponseLookup, version: string, names: map<Int64, string>, convertRef: RefConverter, order: KeyOrder, variant: Variant, k: string)
    requires ValidOrder(order)
    ensures |list| == 0 ==> PathResponses(list, lookup, version, names, convertRef, order, variant) == map[SuccessCode := Success]
    ensures |list| > 0 ==> (k in PathResponses(list, lookup, version, names, convertRef, order, variant) <==> exists x :: x in list && FormatInt(x.code) == k)
  {
    CodeResponsesKeys(list, lookup, version, names, convertRef, order, variant, k);
  }

  /** The exported operation for one http collection. */
  function PathItemOf(op: HttpOperation, globals: Located, lookup: ResponseLookup, version: string, names: map<Int64, string>, convertRef: RefConverter, globalToLocal: GlobalToLocal, order: KeyOrder, variant: Variant): PathItem
    requires ValidOrder(order)
  {
    PathItem(op.title, op.description, op.operatorId, op.tags,
             ReqParams(op.req, globals, version, names, convertRef, globalToLocal, order),
             RequestBodyOf(op.req.content, order(op.req.content.Keys), version, names, convertRef),
             PathResponses(op.res, lookup, version, names, convertRef, order, variant))
  }

  /** The `paths` object: collections with an empty path are skipped, the later operation of a path and method winning. */
  function PathsOf(routes: seq<SwaggerGenerate.Route>, globals: Located, lookup: ResponseLookup, version: string, names: map<Int64, string>, convertRef: RefConverter, globalToLocal: GlobalToLocal, order: KeyOrder, variant: Variant): map<string, map<string, PathItem>>
    requires ValidOrder(order)
  {
    if |routes| == 0 then map[]
    else
      var rt := routes[|routes| - 1];
      SwaggerGenerate.AddRoute(PathsOf(routes[..|routes| - 1], globals, lookup, version, names, convertRef, globalToLocal, order, variant),
                               rt.path, rt.httpMethod, PathItemOf(rt.op, globals, lookup, version, names, convertRef, globalToLocal, order, variant))
  }

  lemma PathsOfStep(routes: seq<SwaggerGenerate.Route>, i: nat, globals: Located, lookup: ResponseLookup, version: string, names: map<Int64, string>, convertRef: RefConverter, globalToLocal: GlobalToLocal, order: KeyOrder, variant: Variant)
    requires ValidOrder(order)
    requires i < |routes|
    ensures PathsOf(routes[..i + 1], globals, lookup, version, names, convertRef, globalToLocal, order, variant) ==
      SwaggerGenerate.AddRoute(PathsOf(routes[..i], globals, lookup, version, names, convertRef, globalToLocal, order, variant),
                               routes[i].path, routes[i].httpMethod, PathItemOf(routes[i].op, globals, lookup, version, names, convertRef, globalToLocal, order, variant))
  {
    assert routes[..i + 1][..i] == routes[..i];
  }

  /** A path has an entry exactly when some collection has that path and the path is not empty. */
  lemma {:induction false} PathsOfKeys(routes: seq<SwaggerGenerate.Route>, globals: Located, lookup: ResponseLookup, version: string, names: map<Int64, string>, convertRef: RefConverter, globalToLocal: GlobalToLocal, order: KeyOrder, variant: Variant, path: string)
    requires ValidOrder(order)
    ensures path in PathsOf(routes, globals, lookup, version, names, convertRef, globalToLocal, order, variant) <==>
      path != "" && exists rt :: rt in routes && rt.path == path
  {
    if |routes| > 0 {
      var init := routes[..|routes| - 1];
      PathsOfKeys(init, globals, lookup, version, names, convertRef, globalToLocal, order, variant, path);
      PathsOfStep(routes, |routes| - 1, globals, lookup, version, names, convertRef, globalToLocal, order, variant);
      assert routes[..|routes|] == routes;
      if rt :| rt in routes && rt.path == path {
        Lists.InSnoc(routes, rt);
      }
      if rt :| rt in init && rt.path == path {
        Lists.InSnoc(routes, rt);
      }
    }
  }

  // ---------------------------------------------------------------------
  // The exporter

  class OpenApiGenerator {
    var modelMapping: map<Int64, string>

    constructor()
      ensures modelMapping == map[]
    {
      modelMapping := map[];
    }

    /** Records each model's name under its id and appends the models to `flat`. */
    method AppendModels(flat: seq<DefinitionModel>, items: seq<DefinitionModel>) returns (r: seq<DefinitionModel>)
      requires modelMapping == SwaggerGenerate.NamesOf(flat)
      modifies this
      ensures r == flat + items
      ensures modelMapping == SwaggerGenerate.NamesOf(r)
    {
      r := flat;
      for j := 0 to |items|
        invariant r == flat + items[..j]
        invariant modelMapping == SwaggerGenerate.NamesOf(r)
      {
        assert (r + [items[j]])[..|r|] == r;
        modelMapping := modelMapping[items[j].id := items[j].name];
        r := r + [items[j]];
        assert items[..j + 1] == items[..j] + [items[j]];
      }
      assert items[..|items|] == items;
    }

    /** Resets and fills `modelMapping` from the models, category items included, and returns the flattened list. */
    method CollectModels(schemas: seq<DefinitionModel>, flatten: FlattenModel) returns (flat: seq<DefinitionModel>)
      modifies this
      ensures flat == SwaggerGenerate.Flattened(schemas, flatten)
      ensures modelMapping == SwaggerGenerate.NamesOf(flat)
    {
      modelMapping := map[];
      flat := [];
      for i := 0 to |schemas|
        invariant flat == SwaggerGenerate.Flattened(schemas[..i], flatten)
        invariant modelMapping == SwaggerGenerate.NamesOf(flat)
      {
        var v := schemas[i];
        assert schemas[..i + 1][..i] == schemas[..i];
        var items := if v.typ == CategoryType then flatten(v) else [v];
        flat := AppendModels(flat, items);
      }
      assert schemas[..|schemas|] == schemas;
    }

    /** One schema per model, keyed "<name without spaces>-<id>". */
    method ModelSchemas(flat: seq<DefinitionModel>, version: string, convertRef: RefConverter) returns (schemas: map<string, Option<Schema>>)
      ensures schemas == SchemasOf(flat, version, modelMapping, convertRef)
    {
      schemas := map[];
      for i := 0 to |flat|
        invariant schemas == SchemasOf(flat[..i], version, modelMapping, convertRef)
      {
        assert flat[..i + 1][..i] == flat[..i];
        schemas := schemas[SwaggerGenerate.ModelKey(flat[i]) := ConvertSchema(flat[i].schema, version, modelMapping, convertRef)];
      }
      assert flat[..|flat|] == flat;
    }

    /** The headers of a response. */
    method ResponseHeaders(hs: seq<Parameter>, version: string, convertRef: RefConverter) returns (headers: map<string, Header>)
      ensures headers == HeadersOf(hs, version, modelMapping, convertRef)
    {
      headers := map[];
      for i := 0 to |hs|
        invariant headers == HeadersOf(hs[..i], version, modelMapping, convertRef)
      {
        assert hs[..i + 1][..i] == hs[..i];
        headers := headers[hs[i].name := Header(hs[i].description, ConvertSchema(hs[i].schema, version, modelMapping, convertRef))];
      }
      assert hs[..|hs|] == hs;
    }

    /** The content of a response, in the visiting order of its content types. */
    method ResponseContent(content: map<string, Body>, version: string, convertRef: RefConverter, order: KeyOrder) returns (c: map<string, Option<Schema>>)
      requires ValidOrder(order)
      ensures c == ContentSchemas(content, order(content.Keys), version, modelMapping, convertRef)
    {
      var cts := order(content.Keys);
      c := map[];
      for i := 0 to |cts|
        invariant c == ContentSchemas(content, cts[..i], version, modelMapping, convertRef)
      {
        assert cts[..i + 1][..i] == cts[..i];
        c := c[cts[i] := ConvertSchema(content[cts[i]].schema, version, modelMapping, convertRef)];
      }
      assert cts[..|cts|] == cts;
    }

    /** `generateResponseWithoutRef`. */
    method GenerateResponseWithoutRef(b: BasicResponse, version: string, convertRef: RefConverter, order: KeyOrder) returns (r: ResponseObject)
      requires ValidOrder(order)
      ensures r == InlineResponse(b, version, modelMapping, convertRef, order)
    {
      var content: Option<map<string, Option<Schema>>> := None;
      if b.content.Some? {
        var c := ResponseContent(b.content.value, version, convertRef, order);
        content := Some(c);
      }
      var headers: Option<map<string, Header>> := None;
      if |b.header| > 0 {
        var h := ResponseHeaders(b.header, version, convertRef);
        headers := Some(h);
      }
      r := Inline(b.name, b.description, headers, content);
    }

    /** `generateResponse`: a known reference becomes a `$ref` under the variant's response key. */
    method GenerateResponse(resp: Response, lookup: ResponseLookup, version: string, convertRef: RefConverter, order: KeyOrder, variant: Variant) returns (r: ResponseObject)
      requires ValidOrder(order)
      ensures r == GeneratedResponse(resp, lookup, version, modelMapping, convertRef, order, variant)
    {
      if resp.reference != "" {
        if HasPrefix(resp.reference, DefinitionResponsePrefix) {
          var x := lookup(resp.reference);
          if x.Some? {
            return RefObject(ComponentsResponsePrefix + ResponseKey(x.value, variant));
          }
        }
      }
      r := GenerateResponseWithoutRef(resp.basic, version, convertRef, order);
    }

    /** The items of a response category, each under the variant's response key. */
    method ResponseItems(m: map<string, ResponseObject>, items: seq<DefinitionResponse>, version: string, convertRef: RefConverter, order: KeyOrder, variant: Variant) returns (r: map<string, ResponseObject>)
      requires ValidOrder(order)
      ensures r == AddResponseItems(m, items, version, modelMapping, convertRef, order, variant)
    {
      r := m;
      for j := 0 to |items|
        invariant r == AddResponseItems(m, items[..j], version, modelMapping, convertRef, order, variant)
      {
        AddResponseItemsStep(m, items, j, version, modelMapping, convertRef, order, variant);
        var x := GenerateResponseWithoutRef(items[j].basic, version, convertRef, order);
        r := r[ResponseKey(items[j].basic, variant) := x];
      }
      assert items[..|items|] == items;
    }

    /** `components.responses`, category items included. */
    method ResponseDefinitions(rs: seq<DefinitionResponse>, flattenResponse: FlattenResponse, version: string, convertRef: RefConverter, order: KeyOrder, variant: Variant) returns (m: map<string, ResponseObject>)
      requires ValidOrder(order)
      ensures m == ResponsesOf(rs, flattenResponse, version, modelMapping, convertRef, order, variant)
    {
      m := map[];
      for i := 0 to |rs|
        invariant m == ResponsesOf(rs[..i], flattenResponse, version, modelMapping, convertRef, order, variant)
      {
        assert rs[..i + 1][..i] == rs[..i];
        var v := rs[i];
        if v.typ == CategoryType {
          m := ResponseItems(m, flattenResponse(v), version, convertRef, order, variant);
        } else {
          var x := GenerateResponseWithoutRef(v.basic, version, convertRef, order);
          m := m[NameId(StripSpaces(v.basic.name), v.basic.id) := x];
        }
      }
      assert rs[..|rs|] == rs;
    }

    /** The global parameters of every location, keyed "<in>-<name without spaces>". */
    method GlobalParameters(g: Located, version: string, toParameter: ToParameter, order: KeyOrder) returns (out: map<string, OutParam>)
      ensures out == GlobalsOut(g, order(g.Keys), version, toParameter)
    {
      var locs := order(g.Keys);
      out := map[];
      for i := 0 to |locs|
        invariant out == GlobalsOut(g, locs[..i], version, toParameter)
      {
        assert locs[..i + 1][..i] == locs[..i];
        var loc := locs[i];
        var ps := ParamsAt(g, loc);
        ghost var start := out;
        for j := 0 to |ps|
          invariant out == AddGlobals(start, ps[..j], loc, version, toParameter)
        {
          assert ps[..j + 1][..j] == ps[..j];
          out := out[loc + "-" + StripSpaces(ps[j].name) := toParameter(ps[j], loc, version)];
        }
        assert ps[..|ps|] == ps;
      }
      assert locs[..|locs|] == locs;
    }

    /** `generateComponents`: fills `modelMapping`, then the schemas, the responses and the global parameters. */
    method GenerateComponents(doc: Document, version: string, flatten: FlattenModel, flattenResponse: FlattenResponse, convertRef: RefConverter, toParameter: ToParameter, order: KeyOrder, variant: Variant) returns (c: Components)
      requires ValidOrder(order)
      modifies this
      ensures modelMapping == SwaggerGenerate.NamesOf(SwaggerGenerate.Flattened(doc.schemas, flatten))
      ensures c.schemas == SchemasOf(SwaggerGenerate.Flattened(doc.schemas, flatten), version, modelMapping, convertRef)
      ensures c.responses == ResponsesOf(doc.responses, flattenResponse, version, modelMapping, convertRef, order, variant)
      ensures c.globals == GlobalsOut(doc.globals, order(doc.globals.Keys), version, toParameter)
    {
      var flat := CollectModels(doc.schemas, flatten);
      var schemas := ModelSchemas(flat, version, convertRef);
      var responses := ResponseDefinitions(doc.responses, flattenResponse, version, convertRef, order, variant);
      var globals := GlobalParameters(doc.globals, version, toParameter, order);
      c := Components(schemas, responses, globals);
    }

    /** `generateBase`: version, info, servers as they are, and the components. */
    method GenerateBase(doc: Document, version: string, flatten: FlattenModel, flattenResponse: FlattenResponse, convertRef: RefConverter, toParameter: ToParameter, order: KeyOrder, variant: Variant) returns (out: OpenApiDoc)
      requires ValidOrder(order)
      modifies this
      ensures modelMapping == SwaggerGenerate.NamesOf(SwaggerGenerate.Flattened(doc.schemas, flatten))
      ensures out.openapi == version && out.info == doc.info && out.servers == doc.servers
      ensures out.components.schemas == SchemasOf(SwaggerGenerate.Flattened(doc.schemas, flatten), version, modelMapping, convertRef)
      ensures out.components.responses == ResponsesOf(doc.responses, flattenResponse, version, modelMapping, convertRef, order, variant)
      ensures out.components.globals == GlobalsOut(doc.globals, order(doc.globals.Keys), version, toParameter)
    {
      var c := GenerateComponents(doc, version, flatten, flattenResponse, convertRef, toParameter, order, variant);
      out := OpenApiDoc(version, doc.info, doc.servers, c);
    }

    /** The parameters of one location. */
    method LocationParams(ps: seq<Parameter>, loc: string, version: string, convertRef: RefConverter) returns (out: seq<OutParam>)
      ensures out == LocationOut(ps, loc, version, modelMapping, convertRef)
    {
      out := [];
      for j := 0 to |ps|
        invariant out == LocationOut(ps[..j], loc, version, modelMapping, convertRef)
      {
        out := out + [OutParam(ps[j].name, loc, "", ps[j].description, ps[j].required, ConvertSchema(ps[j].schema, version, modelMapping, convertRef))];
      }
      assert ps[..|ps|] == ps;
    }

    /** `generateReqParams`: the non-excepted globals, then every location's parameters. */
    method GenerateReqParams(req: Request, globals: Located, version: string, convertRef: RefConverter, globalToLocal: GlobalToLocal, order: KeyOrder) returns (out: seq<OutParam>)
      ensures out == ReqParams(req, globals, version, modelMapping, convertRef, globalToLocal, order)
    {
      out := globalToLocal(globals, false, req.globalExcepts);
      var locs := order(req.parameters.Keys);
      ghost var start := out;
      for i := 0 to |locs|
        invariant out == start + LocalOut(req.parameters, locs[..i], version, modelMapping, convertRef)
      {
        LocalOutStep(req.parameters, locs, i, version, modelMapping, convertRef);
        var x := LocationParams(ParamsAt(req.parameters, locs[i]), locs[i], version, convertRef);
        out := out + x;
      }
      assert locs[..|locs|] == locs;
    }

    /** The request body of an operation. */
    method RequestBody(content: map<string, Body>, version: string, convertRef: RefConverter, order: KeyOrder) returns (body: Option<map<string, RequestMedia>>)
      requires ValidOrder(order)
      ensures body == RequestBodyOf(content, order(content.Keys), version, modelMapping, convertRef)
    {
      var cts := order(content.Keys);
      body := None;
      for i := 0 to |cts|
        invariant body == RequestBodyOf(content, cts[..i], version, modelMapping, convertRef)
      {
        assert cts[..i + 1][..i] == cts[..i];
        var c := cts[i];
        if c == NoneContentType {
          continue;
        }
        var sp := RequestMedia(ConvertSchema(content[c].schema, version, modelMapping, convertRef), content[c].examples);
        if body.None? {
          body := Some(map[]);
        }
        body := Some(body.value[c := sp]);
      }
      assert cts[..|cts|] == cts;
    }

    /** The responses of an operation by code, or the "200" success object. */
    method PathResponse(list: seq<Response>, lookup: ResponseLookup, version: string, convertRef: RefConverter, order: KeyOrder, variant: Variant) returns (result: map<string, ResponseObject>)
      requires ValidOrder(order)
      ensures result == PathResponses(list, lookup, version, modelMapping, convertRef, order, variant)
    {
      result := map[];
      for i := 0 to |list|
        invariant result == CodeResponses(list[..i], lookup, version, modelMapping, convertRef, order, variant)
      {
        assert list[..i + 1][..i] == list[..i];
        var x := GenerateResponse(list[i], lookup, version, convertRef, order, variant);
        result := result[FormatInt(list[i].code) := x];
      }
      assert list[..|list|] == list;
      if |list| == 0 {
        result := map[SuccessCode := Success];
      }
    }

    /** The exported operation of one http collection. */
    method GeneratePathItem(op: HttpOperation, globals: Located, lookup: ResponseLookup, version: string, convertRef: RefConverter, globalToLocal: GlobalToLocal, order: KeyOrder, variant: Variant) returns (item: PathItem)
      requires ValidOrder(order)
      ensures item == PathItemOf(op, globals, lookup, version, modelMapping, convertRef, globalToLocal, order, variant)
    {
      var params := GenerateReqParams(op.req, globals, version, convertRef, globalToLocal, order);
      var body := RequestBody(op.req.content, version, convertRef, order);
      var responses := PathResponse(op.res, lookup, version, convertRef, order, variant);
      item := PathItem(op.title, op.description, op.operatorId, op.tags, params, body, responses);
    }

    /** `generatePaths`: the `paths` object and the set of tags used. */
    method GeneratePaths(routes: seq<SwaggerGenerate.Route>, globals: Located, lookup: ResponseLookup, version: string, convertRef: RefConverter, globalToLocal: GlobalToLocal, order: KeyOrder, variant: Variant) returns (paths: map<string, map<string, PathItem>>, tags: seq<string>)
      requires ValidOrder(order)
      ensures paths == PathsOf(routes, globals, lookup, version, modelMapping, convertRef, globalToLocal, order, variant)
      ensures tags == order(SwaggerGenerate.TagsOf(routes))
    {
      paths := map[];
      var tagSet: set<string> := {};
      for i := 0 to |routes|
        invariant paths == PathsOf(routes[..i], globals, lookup, version, modelMapping, convertRef, globalToLocal, order, variant)
        invariant tagSet == SwaggerGenerate.TagsOf(routes[..i])
      {
        PathsOfStep(routes, i, globals, lookup, version, modelMapping, convertRef, globalToLocal, order, variant);
        SwaggerGenerate.TagsOfStep(routes, i);
        var rt := routes[i];
        if rt.path == "" {
          continue;
        }
        var item := GeneratePathItem(rt.op, globals, lookup, version, convertRef, globalToLocal, order, variant);
        tagSet := tagSet + SwaggerGenerate.TagSet(rt.op.tags);
        var methods := if rt.path in paths then paths[rt.path] else map[];
        paths := paths[rt.path := methods[rt.httpMethod := item]];
      }
      assert routes[..|routes|] == routes;
      tags := order(tagSet);
    }
  }
}
