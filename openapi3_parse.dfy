/**
 * The OpenAPI 3.x importer (`openapiParser`): media-type content, the
 * `components` section (schemas and responses), the global parameters kept in
 * the `x-apicat-global-parameters` extension, operation parameters,
 * responses, and the http collections of the `paths` object.
 *
 * The parser keeps two fields: `modelMapping`, which `ParseDefinitions`
 * resets, and `parametersMapping` ("<in>-<name>" to parameter), which the
 * parser only reads; the code that fills it is not part of this model.
 */
module OpenApiParse {
  import opened Wrappers
  import opened Text
  import Lists
  import opened JsonSchema
  import opened Spec2
  import SwaggerParse

  /** A named example of a media type; `encoded` is its JSON text, None when `json.Marshal` fails. */
  datatype InExample = InExample(summary: string, encoded: Option<string>)

  /** `v3.MediaType`: its schema, its single `example`, and its named `examples` in visiting order. */
  datatype MediaType = MediaType(schema: SchemaProxy, example: Option<string>, examples: seq<(string, InExample)>)

  /** A content map of the input in visiting order; None for a nil map. */
  type InContent = Option<seq<(string, MediaType)>>

  datatype InHeader = InHeader(description: string, schema: SchemaProxy)

  /**
   * `v3.Response`: `ref` is the low-level `$ref` ("" for an inline response)
   * and `responseName` the `x-apicat-response-name` extension.
   */
  datatype InResponse = InResponse(ref: string, description: string, responseName: Option<string>, headers: seq<(string, InHeader)>, content: InContent)

  /** `v3.Components`: schemas, responses and the extensions, whose global-parameter entry holds decoded parameters (None when an entry does not re-encode). */
  datatype Components = Components(schemas: seq<(string, SchemaProxy)>, responses: seq<(string, InResponse)>, extensions: Option<map<string, seq<(string, Option<Parameter>)>>>)

  /** `v3.Parameter`; `ref` is the low-level `$ref` when the parameter is a reference. */
  datatype InParameter = InParameter(name: string, inLoc: string, description: string, required: bool, example: Option<string>, deprecated: Option<bool>, ref: Option<string>, schema: SchemaProxy)

  datatype InOperation = InOperation(summary: string, tags: seq<string>, parameters: seq<InParameter>, requestBody: Option<InContent>, responses: Option<seq<(string, InResponse)>>)

  /** `isGlobalParameter`, which is not part of this model. */
  type GlobalRef = string -> bool

  const GlobalParametersKey: string := "x-apicat-global-parameters"
  const DefinitionResponsePrefix: string := "#/definitions/responses/"
  const NoContent: string := "no content"

  // ---------------------------------------------------------------------
  // Content

  /** The examples that encode, in visiting order. */
  function ExamplesOf(es: seq<(string, InExample)>): (r: seq<Example>)
    ensures |r| <= |es|
    ensures (forall i :: 0 <= i < |es| ==> es[i].1.encoded.Some?) ==>
      |r| == |es| && forall i :: 0 <= i < |es| ==> r[i] == Example(es[i].1.summary, es[i].1.encoded.value)
  {
    if |es| == 0 then []
    else
      var e := es[|es| - 1].1;
      ExamplesOf(es[..|es| - 1]) + (if e.encoded.Some? then [Example(e.summary, e.encoded.value)] else [])
  }

  /**
   * One media type as a body: the converted schema carrying the media type's
   * `example`, and the encodable named examples when there are any.
   */
  function BodyOf(mt: MediaType, convert: Converter): (r: Result<Body>)
    ensures r.Ok? <==> convert(mt.schema).Ok?
    ensures r.Ok? ==> r.value.schema.Some? && r.value.schema.value.examples == mt.example
    ensures r.Ok? ==> (r.value.examples.None? <==> |mt.examples| == 0)
  {
    match convert(mt.schema)
    case Err(m) => Err(m)
    case Ok(js) => Ok(Body(Some(js.(examples := mt.example)), if |mt.examples| > 0 then Some(ExamplesOf(mt.examples)) else None))
  }

  /** The bodies of a non-nil content map, or the first conversion error. */
  function ContentFrom(mts: seq<(string, MediaType)>, convert: Converter): (r: Result<map<string, Body>>)
    ensures r.Ok? <==> forall i :: 0 <= i < |mts| ==> convert(mts[i].1.schema).Ok?
    ensures r.Ok? ==> r.value.Keys == KeysOf(mts)
  {
    if |mts| == 0 then Ok(map[])
    else
      var e := mts[|mts| - 1];
      var init := mts[..|mts| - 1];
      assert KeysOf(mts) == KeysOf(init) + {e.0} by {
        assert forall i :: 0 <= i < |init| ==> init[i] == mts[i];
      }
      match ContentFrom(init, convert)
      case Err(m) => Err(m)
      case Ok(c) =>
        match BodyOf(e.1, convert)
        case Err(m) => Err(m)
        case Ok(b) => Ok(c[e.0 := b])
  }

  /** `parseContent`: a nil map is the error "no content". */
  function ContentOf(c: InContent, convert: Converter): (r: Result<map<string, Body>>)
    ensures c.None? ==> r == Err(NoContent)
    ensures c.Some? ==> (r.Ok? <==> forall i :: 0 <= i < |c.value| ==> convert(c.value[i].1.schema).Ok?)
    ensures c.Some? && r.Ok? ==> r.value.Keys == KeysOf(c.value)
  {
    if c.None? then Err(NoContent) else ContentFrom(c.value, convert)
  }

  /** Once a media type has failed to convert, the error is the result. */
  lemma {:induction false} ContentErrPersists(mts: seq<(string, MediaType)>, i: nat, convert: Converter)
    requires i <= |mts| && ContentFrom(mts[..i], convert).Err?
    ensures ContentFrom(mts, convert) == ContentFrom(mts[..i], convert)
    decreases |mts| - i
  {
    if i < |mts| {
      assert mts[..i + 1][..i] == mts[..i];
      ContentErrPersists(mts, i + 1, convert);
    } else {
      assert mts[..i] == mts;
    }
  }

  /** Each media type of a map (its keys distinct) gets exactly the body built from it. */
  lemma {:induction false} ContentFromBodies(mts: seq<(string, MediaType)>, convert: Converter, i: nat)
    requires UniqueKeys(mts) && i < |mts|
    requires ContentFrom(mts, convert).Ok?
    ensures BodyOf(mts[i].1, convert).Ok?
    ensures ContentFrom(mts, convert).value[mts[i].0] == BodyOf(mts[i].1, convert).value
  {
    var n := |mts| - 1;
    var init := mts[..n];
    assert UniqueKeys(init) by {
      forall a, b | 0 <= a < b < |init| ensures init[a].0 != init[b].0 {
        assert init[a] == mts[a] && init[b] == mts[b];
      }
    }
    if i < n {
      assert init[i] == mts[i];
      ContentFromBodies(init, convert, i);
    }
  }

  // ---------------------------------------------------------------------
  // Components

  /** A header as a parameter: its name, and the converted schema carrying the header's description. */
  function HeaderParam(k: string, h: InHeader, js: Schema): Parameter
  {
    Parameter(0, k, "", false, Some(js.(description := h.description)))
  }

  /** The headers of a response in visiting order, or the first conversion error. */
  function HeadersFrom(hs: seq<(string, InHeader)>, convert: Converter): (r: Result<seq<Parameter>>)
    ensures r.Ok? <==> forall i :: 0 <= i < |hs| ==> convert(hs[i].1.schema).Ok?
    ensures r.Ok? ==> (|r.value| == |hs| &&
      forall i :: 0 <= i < |hs| ==> r.value[i] == HeaderParam(hs[i].0, hs[i].1, convert(hs[i].1.schema).value))
  {
    if |hs| == 0 then Ok([])
    else
      var e := hs[|hs| - 1];
      match HeadersFrom(hs[..|hs| - 1], convert)
      case Err(m) => Err(m)
      case Ok(l) =>
        match convert(e.1.schema)
        case Err(m) => Err(m)
        case Ok(js) => Ok(l + [HeaderParam(e.0, e.1, js)])
  }

  /** The models of `components.schemas`: id `stringToUnid(key)`, name the key, description the schema's. */
  function ModelsFrom(ss: seq<(string, SchemaProxy)>, convert: Converter, unid: Unid): (r: Result<seq<DefinitionModel>>)
    ensures r.Ok? <==> forall i :: 0 <= i < |ss| ==> convert(ss[i].1).Ok?
    ensures r.Ok? ==> (|r.value| == |ss| && forall i :: 0 <= i < |ss| ==>
      (var js := convert(ss[i].1).value;
       r.value[i] == DefinitionModel(unid(ss[i].0), ss[i].0, js.description, "", Some(js))))
  {
    if |ss| == 0 then Ok([])
    else
      var e := ss[|ss| - 1];
      match ModelsFrom(ss[..|ss| - 1], convert, unid)
      case Err(m) => Err(m)
      case Ok(l) =>
        match convert(e.1)
        case Err(m) => Err(m)
        case Ok(js) => Ok(l + [DefinitionModel(unid(e.0), e.0, js.description, "", Some(js))])
  }

  /** One response of `components.responses`: id `stringToUnid(key)`, its headers, and its content when it has a content map. */
  function DefResponseOf(k: string, v: InResponse, convert: Converter, unid: Unid): (r: Result<DefinitionResponse>)
    ensures r.Ok? <==> HeadersFrom(v.headers, convert).Ok? && (v.content.None? || ContentOf(v.content, convert).Ok?)
    ensures r.Ok? ==> r.value.basic.id == unid(k) && r.value.basic.name == k && r.value.basic.description == v.description
    ensures r.Ok? ==> r.value.basic.header == HeadersFrom(v.headers, convert).value
    ensures r.Ok? ==> (r.value.basic.content.None? <==> v.content.None?)
  {
    match HeadersFrom(v.headers, convert)
    case Err(m) => Err(m)
    case Ok(hs) =>
      var basic := BasicResponse(unid(k), k, v.description, hs, None);
      if v.content.None? then Ok(DefinitionResponse("", basic))
      else
        match ContentOf(v.content, convert)
        case Err(m) => Err(m)
        case Ok(c) => Ok(DefinitionResponse("", basic.(content := Some(c))))
  }

  /** Each response of `components.responses` as a definition. */
  function DefResponseFn(convert: Converter, unid: Unid): ((string, InResponse)) -> Result<DefinitionResponse>
  {
    (e: (string, InResponse)) => DefResponseOf(e.0, e.1, convert, unid)
  }

  function DefResponsesFrom(rs: seq<(string, InResponse)>, convert: Converter, unid: Unid): (r: Result<seq<DefinitionResponse>>)
    ensures r.Ok? <==> forall i :: 0 <= i < |rs| ==> DefResponseOf(rs[i].0, rs[i].1, convert, unid).Ok?
    ensures r.Ok? ==> (|r.value| == |rs| && forall i :: 0 <= i < |rs| ==> r.value[i] == DefResponseOf(rs[i].0, rs[i].1, convert, unid).value)
  {
    Lists.TryMap(rs, DefResponseFn(convert, unid))
  }

  /** `parseDefinetions`: empty lists without components, otherwise the models, then the responses, or the first error. */
  function DefinitionsOf(comp: Option<Components>, convert: Converter, unid: Unid): (r: Result<(seq<DefinitionModel>, seq<DefinitionResponse>)>)
    ensures comp.None? ==> r == Ok(([], []))
    ensures comp.Some? ==> (r.Ok? <==> ModelsFrom(comp.value.schemas, convert, unid).Ok? && DefResponsesFrom(comp.value.responses, convert, unid).Ok?)
    ensures comp.Some? && r.Ok? ==> |r.value.0| == |comp.value.schemas| && |r.value.1| == |comp.value.responses|
  {
    if comp.None? then Ok(([], []))
    else
      match ModelsFrom(comp.value.schemas, convert, unid)
      case Err(m) => Err(m)
      case Ok(models) =>
        match DefResponsesFrom(comp.value.responses, convert, unid)
        case Err(m) => Err(m)
        case Ok(rs) => Ok((models, rs))
  }

  /** Every model and every response definition gets the id of its key. */
  lemma DefinitionIds(comp: Components, convert: Converter, unid: Unid)
    requires DefinitionsOf(Some(comp), convert, unid).Ok?
    ensures var (models, rs) := DefinitionsOf(Some(comp), convert, unid).value;
      (forall i :: 0 <= i < |models| ==> models[i].id == unid(comp.schemas[i].0) && models[i].name == comp.schemas[i].0) &&
      (forall i :: 0 <= i < |rs| ==> rs[i].basic.id == unid(comp.responses[i].0) && rs[i].basic.name == comp.responses[i].0)
  {
    var rs := DefResponsesFrom(comp.responses, convert, unid).value;
    forall i | 0 <= i < |rs|
      ensures rs[i].basic.id == unid(comp.responses[i].0) && rs[i].basic.name == comp.responses[i].0
    {
      assert DefResponseOf(comp.responses[i].0, comp.responses[i].1, convert, unid).Ok?;
    }
  }

  // ---------------------------------------------------------------------
  // Parameters

  /** The `parametersMapping` key of a referenced parameter. */
  function MappingKey(v: InParameter): string
  {
    v.inLoc + "-" + v.name
  }

  /**
   * A parameter built from the input: name and required flag copied, the
   * schema (empty when absent) carrying the parameter's description, example
   * and deprecated flag.
   */
  function BuiltParam(v: InParameter, convert: Converter): (r: Result<Parameter>)
    ensures r.Err? <==> v.schema.Some? && convert(v.schema).Err?
    ensures r.Ok? ==> r.value.name == v.name && r.value.required == v.required && r.value.schema.Some?
    ensures r.Ok? ==> var s := r.value.schema.value;
      s.description == v.description && s.examples == v.example && s.deprecated == v.deprecated
    ensures v.schema.None? ==> r.Ok? && r.value.schema.value.typ == EmptySchema().typ && r.value.schema.value.properties == map[]
  {
    var base := if v.schema.None? then Ok(EmptySchema()) else convert(v.schema);
    match base
    case Err(m) => Err(m)
    case Ok(js) => Ok(Parameter(0, v.name, "", v.required, Some(js.(description := v.description, examples := v.example, deprecated := v.deprecated))))
  }

  /** What one input parameter contributes: nothing for a global reference, the mapped parameter for another known reference, otherwise a built one. */
  function ParamEntry(v: InParameter, mapping: map<string, Parameter>, convert: Converter, isGlobal: GlobalRef): (r: Result<Option<Parameter>>)
    ensures v.ref.Some? && isGlobal(v.ref.value) ==> r == Ok(None)
    ensures v.ref.Some? && !isGlobal(v.ref.value) && MappingKey(v) in mapping ==> r == Ok(Some(mapping[MappingKey(v)]))
    ensures v.ref.None? || (!isGlobal(v.ref.value) && MappingKey(v) !in mapping) ==>
      (r.Ok? <==> BuiltParam(v, convert).Ok?) && (r.Ok? ==> r.value == Some(BuiltParam(v, convert).value))
  {
    if v.ref.Some? && isGlobal(v.ref.value) then Ok(None)
    else if v.ref.Some? && MappingKey(v) in mapping then Ok(Some(mapping[MappingKey(v)]))
    else
      match BuiltParam(v, convert)
      case Err(m) => Err(m)
      case Ok(p) => Ok(Some(p))
  }

  /** `parseParameters`: each contribution filed under its location, or the first conversion error. */
  function ParamsFrom(inp: seq<InParameter>, mapping: map<string, Parameter>, convert: Converter, isGlobal: GlobalRef): (r: Result<Located>)
    ensures r.Ok? <==> forall i :: 0 <= i < |inp| ==> ParamEntry(inp[i], mapping, convert, isGlobal).Ok?
  {
    if |inp| == 0 then Ok(map[])
    else
      var v := inp[|inp| - 1];
      match ParamsFrom(inp[..|inp| - 1], mapping, convert, isGlobal)
      case Err(m) => Err(m)
      case Ok(ps) =>
        match ParamEntry(v, mapping, convert, isGlobal)
        case Err(m) => Err(m)
        case Ok(None) => Ok(ps)
        case Ok(Some(p)) => Ok(AddParam(ps, v.inLoc, p))
  }

  lemma {:induction false} ParamsErrPersists(inp: seq<InParameter>, i: nat, mapping: map<string, Parameter>, convert: Converter, isGlobal: GlobalRef)
    requires i <= |inp| && ParamsFrom(inp[..i], mapping, convert, isGlobal).Err?
    ensures ParamsFrom(inp, mapping, convert, isGlobal) == ParamsFrom(inp[..i], mapping, convert, isGlobal)
    decreases |inp| - i
  {
    if i < |inp| {
      assert inp[..i + 1][..i] == inp[..i];
      ParamsErrPersists(inp, i + 1, mapping, convert, isGlobal);
    } else {
      assert inp[..i] == inp;
    }
  }

  /** One more input parameter after an accepted prefix. */
  lemma ParamsFromStep(inp: seq<InParameter>, i: nat, mapping: map<string, Parameter>, convert: Converter, isGlobal: GlobalRef, ps: Located)
    requires i < |inp| && ParamsFrom(inp[..i], mapping, convert, isGlobal) == Ok(ps)
    ensures ParamsFrom(inp[..i + 1], mapping, convert, isGlobal) ==
      match ParamEntry(inp[i], mapping, convert, isGlobal)
      case Err(m) => Err(m)
      case Ok(None) => Ok(ps)
      case Ok(Some(p)) => Ok(AddParam(ps, inp[i].inLoc, p))
  {
    assert inp[..i + 1][..i] == inp[..i];
  }

  lemma ParamsFromLast(inp: seq<InParameter>, mapping: map<string, Parameter>, convert: Converter, isGlobal: GlobalRef, loc: string, p: Parameter)
    requires |inp| > 0 && ParamsFrom(inp, mapping, convert, isGlobal).Ok?
    ensures ParamsFrom(inp[..|inp| - 1], mapping, convert, isGlobal).Ok?
    ensures p in ParamsAt(ParamsFrom(inp, mapping, convert, isGlobal).value, loc) <==>
      p in ParamsAt(ParamsFrom(inp[..|inp| - 1], mapping, convert, isGlobal).value, loc) ||
      (inp[|inp| - 1].inLoc == loc && ParamEntry(inp[|inp| - 1], mapping, convert, isGlobal) == Ok(Some(p)))
  {
  }

  /** A parameter is filed under a location exactly when some input parameter of that location contributes it. */
  lemma {:induction false} ParamsFromMembers(inp: seq<InParameter>, mapping: map<string, Parameter>, convert: Converter, isGlobal: GlobalRef, loc: string, p: Parameter)
    requires ParamsFrom(inp, mapping, convert, isGlobal).Ok?
    ensures p in ParamsAt(ParamsFrom(inp, mapping, convert, isGlobal).value, loc) <==>
      exists i :: 0 <= i < |inp| && inp[i].inLoc == loc && ParamEntry(inp[i], mapping, convert, isGlobal) == Ok(Some(p))
  {
    if |inp| > 0 {
      var n := |inp| - 1;
      var init := inp[..n];
      ParamsFromLast(inp, mapping, convert, isGlobal, loc, p);
      ParamsFromMembers(init, mapping, convert, isGlobal, loc, p);
      if i :| 0 <= i < |inp| && inp[i].inLoc == loc && ParamEntry(inp[i], mapping, convert, isGlobal) == Ok(Some(p)) {
        if i < n {
          assert init[i] == inp[i];
        }
      }
      if i :| 0 <= i < |init| && init[i].inLoc == loc && ParamEntry(init[i], mapping, convert, isGlobal) == Ok(Some(p)) {
        assert inp[i] == init[i];
      }
    }
  }

  // ---------------------------------------------------------------------
  // Responses

  /** The inline part of a referenced response: all empty. */
  function EmptyBasic(): BasicResponse
  {
    BasicResponse(0, "", "", [], None)
  }

  /** The reference an imported `$ref` response gets: "#/definitions/responses/" and the id of the ref's last segment. */
  function ResponseRef(ref: string, unid: Unid): string
  {
    DefinitionResponsePrefix + FormatInt(unid(AfterLast(ref, '/')))
  }

  /**
   * One entry of `Responses.Codes`, coded `strconv.Atoi(code)` with the error
   * ignored: a reference becomes "#/definitions/responses/<id>"; an inline
   * response keeps its name, description and headers and must have content.
   */
  function ResponseOf(code: string, res: InResponse, convert: Converter, unid: Unid): (r: Result<Response>)
    ensures r.Ok? ==> r.value.code == ParseInt(code).Value()
    ensures res.ref != "" ==> r == Ok(Response(ParseInt(code).Value(), ResponseRef(res.ref, unid), EmptyBasic()))
    ensures res.ref == "" ==> (r.Ok? <==> HeadersFrom(res.headers, convert).Ok? && ContentOf(res.content, convert).Ok?)
    ensures res.ref == "" && res.content.None? ==> r.Err?
    ensures res.ref == "" && r.Ok? ==> (r.value.reference == "" &&
      r.value.basic.name == res.responseName.GetOr("") && r.value.basic.description == res.description &&
      r.value.basic.header == HeadersFrom(res.headers, convert).value &&
      r.value.basic.content == Some(ContentOf(res.content, convert).value))
  {
    var c := ParseInt(code).Value();
    if res.ref != "" then Ok(Response(c, ResponseRef(res.ref, unid), EmptyBasic()))
    else
      match HeadersFrom(res.headers, convert)
      case Err(m) => Err(m)
      case Ok(hs) =>
        match ContentOf(res.content, convert)
        case Err(m) => Err(m)
        case Ok(content) => Ok(Response(c, "", BasicResponse(0, res.responseName.GetOr(""), res.description, hs, Some(content))))
  }

  /** Each entry of `Responses.Codes` as a response. */
  function ResponseFn(convert: Converter, unid: Unid): ((string, InResponse)) -> Result<Response>
  {
    (e: (string, InResponse)) => ResponseOf(e.0, e.1, convert, unid)
  }

  function ResponsesFrom(codes: seq<(string, InResponse)>, convert: Converter, unid: Unid): (r: Result<seq<Response>>)
    ensures r.Ok? <==> forall i :: 0 <= i < |codes| ==> ResponseOf(codes[i].0, codes[i].1, convert, unid).Ok?
    ensures r.Ok? ==> (|r.value| == |codes| && forall i :: 0 <= i < |codes| ==> r.value[i] == ResponseOf(codes[i].0, codes[i].1, convert, unid).value)
  {
    Lists.TryMap(codes, ResponseFn(convert, unid))
  }

  /** One inline response without a content map fails the whole list. */
  lemma ContentlessResponseFailsList(codes: seq<(string, InResponse)>, convert: Converter, unid: Unid, i: nat)
    requires i < |codes| && codes[i].1.ref == "" && codes[i].1.content.None?
    ensures ResponsesFrom(codes, convert, unid).Err?
  {
    assert !ResponseOf(codes[i].0, codes[i].1, convert, unid).Ok?;
  }

  /** An imported response reference is one the exporters recognise, and its last segment reads back as the id. */
  lemma ResponseRefRoundTrip(ref: string, unid: Unid)
    ensures HasPrefix(ResponseRef(ref, unid), DefinitionResponsePrefix)
    ensures AfterLast(ResponseRef(ref, unid), '/') == FormatInt(unid(AfterLast(ref, '/')))
    ensures ParseInt(AfterLast(ResponseRef(ref, unid), '/')) == Parsed(unid(AfterLast(ref, '/')))
  {
    var id := unid(AfterLast(ref, '/'));
    var r := ResponseRef(ref, unid);
    FormatIntHasNoSlash(id);
    assert r[|DefinitionResponsePrefix| - 1] == '/';
    assert r[|DefinitionResponsePrefix|..] == FormatInt(id);
    AfterLastOfSuffix(r, |DefinitionResponsePrefix|);
    FormatParseRoundTrip(id);
  }

  /** The text after the last '/' is the suffix after a '/' when that suffix has none. */
  lemma AfterLastOfSuffix(s: string, k: nat)
    requires 0 < k <= |s| && s[k - 1] == '/' && '/' !in s[k..]
    ensures AfterLast(s, '/') == s[k..]
  {
    var r := AfterLast(s, '/');
    assert '/' in s by { assert s[k - 1] == '/'; }
    var j := |s| - |r| - 1;
    assert forall t :: j + 1 <= t < |s| ==> s[t] != '/' by {
      forall t | j + 1 <= t < |s| ensures s[t] != '/' {
        assert s[t] == r[t - j - 1];
      }
    }
    assert forall t :: k <= t < |s| ==> s[t] != '/' by {
      forall t | k <= t < |s| ensures s[t] != '/' {
        assert s[t] == s[k..][t - k];
      }
    }
  }

  // ---------------------------------------------------------------------
  // Collections

  /**
   * One operation as an http collection, or None when its parameters,
   * request body or responses fail to import. The title falls back to the path.
   */
  function CollectionOf(path: string, httpMethod: string, op: InOperation, mapping: map<string, Parameter>, convert: Converter, unid: Unid, isGlobal: GlobalRef): (r: Option<Collection>)
    ensures r.Some? <==> (ParamsFrom(op.parameters, mapping, convert, isGlobal).Ok? &&
      (op.requestBody.None? || ContentOf(op.requestBody.value, convert).Ok?) &&
      (op.responses.None? || ResponsesFrom(op.responses.value, convert, unid).Ok?))
    ensures r.Some? ==> (r.value.typ == HttpType && r.value.path == path && r.value.httpMethod == httpMethod && r.value.tags == op.tags &&
      r.value.title == (if op.summary == "" then path else op.summary))
    ensures r.Some? ==> r.value.request.parameters == ParamsFrom(op.parameters, mapping, convert, isGlobal).value
    ensures r.Some? && op.requestBody.None? ==> r.value.request.content == map[]
    ensures r.Some? && op.responses.None? ==> r.value.responses == []
  {
    match ParamsFrom(op.parameters, mapping, convert, isGlobal)
    case Err(_) => None
    case Ok(ps) =>
      var content := if op.requestBody.None? then Ok(map[]) else ContentOf(op.requestBody.value, convert);
      if content.Err? then None
      else
        var responses := if op.responses.None? then Ok([]) else ResponsesFrom(op.responses.value, convert, unid);
        if responses.Err? then None
        else
          var title := if op.summary == "" then path else op.summary;
          Some(Collection(HttpType, title, op.tags, path, httpMethod, NewRequest().(parameters := ps, content := content.value), responses.value))
  }

  /** What each method of a path item yields. */
  function OpResults(path: string, mapping: map<string, Parameter>, convert: Converter, unid: Unid, isGlobal: GlobalRef): ((string, InOperation)) -> Option<Collection>
  {
    (e: (string, InOperation)) => CollectionOf(path, e.0, e.1, mapping, convert, unid, isGlobal)
  }

  /** The collections of one path item, in visiting order of its methods. */
  function PathCollections(path: string, ops: seq<(string, InOperation)>, mapping: map<string, Parameter>, convert: Converter, unid: Unid, isGlobal: GlobalRef): seq<Collection>
  {
    Lists.FilterMap(ops, OpResults(path, mapping, convert, unid, isGlobal))
  }

  /** What each path item yields. */
  function PathResults(mapping: map<string, Parameter>, convert: Converter, unid: Unid, isGlobal: GlobalRef): ((string, seq<(string, InOperation)>)) -> seq<Collection>
  {
    (e: (string, seq<(string, InOperation)>)) => PathCollections(e.0, e.1, mapping, convert, unid, isGlobal)
  }

  /** `parseCollections` over the path items in visiting order. */
  function CollectionsFrom(paths: seq<(string, seq<(string, InOperation)>)>, mapping: map<string, Parameter>, convert: Converter, unid: Unid, isGlobal: GlobalRef): seq<Collection>
  {
    Lists.FlatMap(paths, PathResults(mapping, convert, unid, isGlobal))
  }

  /** Every imported collection is the import of one operation, and every operation that imports is kept. */
  lemma CollectionsFromMembers(paths: seq<(string, seq<(string, InOperation)>)>, mapping: map<string, Parameter>, convert: Converter, unid: Unid, isGlobal: GlobalRef, c: Collection)
    ensures c in CollectionsFrom(paths, mapping, convert, unid, isGlobal) <==>
      exists i, j :: 0 <= i < |paths| && 0 <= j < |paths[i].1| && CollectionOf(paths[i].0, paths[i].1[j].0, paths[i].1[j].1, mapping, convert, unid, isGlobal) == Some(c)
  {
    Lists.FlatMapMembers(paths, PathResults(mapping, convert, unid, isGlobal), c);
    if i :| 0 <= i < |paths| && c in PathCollections(paths[i].0, paths[i].1, mapping, convert, unid, isGlobal) {
      Lists.FilterMapMembers(paths[i].1, OpResults(paths[i].0, mapping, convert, unid, isGlobal), c);
      var j :| 0 <= j < |paths[i].1| && OpResults(paths[i].0, mapping, convert, unid, isGlobal)(paths[i].1[j]) == Some(c);
    }
    if i, j :| 0 <= i < |paths| && 0 <= j < |paths[i].1| && CollectionOf(paths[i].0, paths[i].1[j].0, paths[i].1[j].1, mapping, convert, unid, isGlobal) == Some(c) {
      Lists.FilterMapMembers(paths[i].1, OpResults(paths[i].0, mapping, convert, unid, isGlobal), c);
      assert OpResults(paths[i].0, mapping, convert, unid, isGlobal)(paths[i].1[j]) == Some(c);
      assert c in PathResults(mapping, convert, unid, isGlobal)(paths[i]);
    }
  }

  // ---------------------------------------------------------------------
  // The parser

  class OpenApiParser {
    var modelMapping: map<string, Int64>
    var parametersMapping: map<string, Parameter>

    constructor(parameters: map<string, Parameter>)
      ensures modelMapping == map[] && parametersMapping == parameters
    {
      modelMapping := map[];
      parametersMapping := parameters;
    }

    /** The encodable examples of a media type. */
    method EncodeExamples(es: seq<(string, InExample)>) returns (r: seq<Example>)
      ensures r == ExamplesOf(es)
    {
      r := [];
      for i := 0 to |es|
        invariant r == ExamplesOf(es[..i])
      {
        assert es[..i + 1][..i] == es[..i];
        var v := es[i].1;
        if v.encoded.Some? {
          r := r + [Example(v.summary, v.encoded.value)];
        }
      }
      assert es[..|es|] == es;
    }

    /** `parseContent`. */
    method ParseContent(mts: InContent, convert: Converter) returns (r: Result<map<string, Body>>)
      ensures r == ContentOf(mts, convert)
    {
      if mts.None? {
        return Err(NoContent);
      }
      var entries := mts.value;
      var content: map<string, Body> := map[];
      for i := 0 to |entries|
        invariant ContentFrom(entries[..i], convert) == Ok(content)
      {
        assert entries[..i + 1][..i] == entries[..i];
        var (contentType, mediaType) := entries[i];
        match convert(mediaType.schema)
        case Err(m) =>
          ContentErrPersists(entries, i + 1, convert);
          return Err(m);
        case Ok(js) =>
          var examples: Option<seq<Example>> := None;
          if |mediaType.examples| > 0 {
            var es := EncodeExamples(mediaType.examples);
            examples := Some(es);
          }
          content := content[contentType := Body(Some(js.(examples := mediaType.example)), examples)];
      }
      assert entries[..|entries|] == entries;
      r := Ok(content);
    }

    /** The headers of a response. */
    method ParseHeaders(hs: seq<(string, InHeader)>, convert: Converter) returns (r: Result<seq<Parameter>>)
      ensures r == HeadersFrom(hs, convert)
    {
      var out: seq<Parameter> := [];
      for i := 0 to |hs|
        invariant HeadersFrom(hs[..i], convert) == Ok(out)
      {
        assert hs[..i + 1][..i] == hs[..i];
        match convert(hs[i].1.schema)
        case Err(m) =>
          HeadersErrPersists(hs, i + 1, convert);
          return Err(m);
        case Ok(js) =>
          out := out + [HeaderParam(hs[i].0, hs[i].1, js)];
      }
      assert hs[..|hs|] == hs;
      r := Ok(out);
    }

    /** The models of `components.schemas`. */
    method ParseModels(ss: seq<(string, SchemaProxy)>, convert: Converter, unid: Unid) returns (r: Result<seq<DefinitionModel>>)
      ensures r == ModelsFrom(ss, convert, unid)
    {
      var models: seq<DefinitionModel> := [];
      for i := 0 to |ss|
        invariant ModelsFrom(ss[..i], convert, unid) == Ok(models)
      {
        assert ss[..i + 1][..i] == ss[..i];
        var (k, v) := ss[i];
        match convert(v)
        case Err(m) =>
          ModelsErrPersists(ss, i + 1, convert, unid);
          return Err(m);
        case Ok(js) =>
          models := models + [DefinitionModel(unid(k), k, js.description, "", Some(js))];
      }
      assert ss[..|ss|] == ss;
      r := Ok(models);
    }

    /** One response of `components.responses`. */
    method ParseDefResponse(k: string, v: InResponse, convert: Converter, unid: Unid) returns (r: Result<DefinitionResponse>)
      ensures r == DefResponseOf(k, v, convert, unid)
    {
      var hs := ParseHeaders(v.headers, convert);
      if hs.Err? {
        return Err(hs.msg);
      }
      var def := DefinitionResponse("", BasicResponse(unid(k), k, v.description, hs.value, None));
      if v.content.Some? {
        var content := ParseContent(v.content, convert);
        if content.Err? {
          return Err(content.msg);
        }
        def := def.(basic := def.basic.(content := Some(content.value)));
      }
      r := Ok(def);
    }

    /** The responses of `components.responses`. */
    method ParseDefResponses(rs: seq<(string, InResponse)>, convert: Converter, unid: Unid) returns (r: Result<seq<DefinitionResponse>>)
      ensures r == DefResponsesFrom(rs, convert, unid)
    {
      var out: seq<DefinitionResponse> := [];
      for i := 0 to |rs|
        invariant DefResponsesFrom(rs[..i], convert, unid) == Ok(out)
      {
        assert rs[..i + 1][..i] == rs[..i];
        var d := ParseDefResponse(rs[i].0, rs[i].1, convert, unid);
        if d.Err? {
          Lists.TryMapErrPersists(rs, i + 1, DefResponseFn(convert, unid));
          return Err(d.msg);
        }
        out := out + [d.value];
      }
      assert rs[..|rs|] == rs;
      r := Ok(out);
    }

    /** `parseDefinetions`: without components nothing changes; otherwise `modelMapping` is reset. */
    method ParseDefinitions(comp: Option<Components>, convert: Converter, unid: Unid) returns (r: Result<(seq<DefinitionModel>, seq<DefinitionResponse>)>)
      modifies this
      ensures r == DefinitionsOf(comp, convert, unid)
      ensures parametersMapping == old(parametersMapping)
      ensures modelMapping == if comp.None? then old(modelMapping) else map[]
    {
      if comp.None? {
        return Ok(([], []));
      }
      modelMapping := map[];
      var models := ParseModels(comp.value.schemas, convert, unid);
      if models.Err? {
        return Err(models.msg);
      }
      var responses := ParseDefResponses(comp.value.responses, convert, unid);
      if responses.Err? {
        return Err(responses.msg);
      }
      r := Ok((models.value, responses.value));
    }

    /**
     * `parseGlobalParameters`: nothing without components, extensions or the
     * `x-apicat-global-parameters` entry; otherwise each parameter whose key
     * has a "-" is filed under the text before the first "-".
     */
    method ParseGlobalParameters(com: Option<Components>) returns (params: Located)
      ensures com.None? || com.value.extensions.None? || GlobalParametersKey !in com.value.extensions.value ==> params == map[]
      ensures com.Some? && com.value.extensions.Some? && GlobalParametersKey in com.value.extensions.value ==>
        forall loc :: ParamsAt(params, loc) == SwaggerParse.Filed(com.value.extensions.value[GlobalParametersKey], loc)
    {
      params := map[];
      if com.None? || com.value.extensions.None? || GlobalParametersKey !in com.value.extensions.value {
        return;
      }
      var global := com.value.extensions.value[GlobalParametersKey];
      for i := 0 to |global|
        invariant forall loc :: ParamsAt(params, loc) == SwaggerParse.Filed(global[..i], loc)
      {
        SwaggerParse.FiledSnoc(global, i);
        var (k, v) := global[i];
        if v.None? {
          continue;
        }
        var at := IndexOf(k, '-');
        if at == -1 {
          continue;
        }
        assert KeyLocation(k) == Some(k[..at]);
        params := AddParam(params, k[..at], v.value);
      }
      assert global[..|global|] == global;
    }

    /** `parseParameters`. */
    method ParseParameters(inp: seq<InParameter>, convert: Converter, isGlobal: GlobalRef) returns (r: Result<Located>)
      ensures r == ParamsFrom(inp, parametersMapping, convert, isGlobal)
    {
      var raw: Located := map[];
      for i := 0 to |inp|
        invariant ParamsFrom(inp[..i], parametersMapping, convert, isGlobal) == Ok(raw)
      {
        ParamsFromStep(inp, i, parametersMapping, convert, isGlobal, raw);
        var v := inp[i];
        if v.ref.Some? {
          if isGlobal(v.ref.value) {
            continue;
          }
          var name := v.inLoc + "-" + v.name;
          if name in parametersMapping {
            raw := AddParam(raw, v.inLoc, parametersMapping[name]);
            continue;
          }
        }
        var js := EmptySchema();
        if v.schema.Some? {
          var c := convert(v.schema);
          if c.Err? {
            ParamsErrPersists(inp, i + 1, parametersMapping, convert, isGlobal);
            return Err(c.msg);
          }
          js := c.value;
        }
        js := js.(description := v.description, examples := v.example, deprecated := v.deprecated);
        raw := AddParam(raw, v.inLoc, Parameter(0, v.name, "", v.required, Some(js)));
      }
      assert inp[..|inp|] == inp;
      r := Ok(raw);
    }

    /** One response of an operation. */
    method ParseResponse(code: string, res: InResponse, convert: Converter, unid: Unid) returns (r: Result<Response>)
      ensures r == ResponseOf(code, res, convert, unid)
    {
      var c := ParseInt(code).Value();
      if res.ref != "" {
        return Ok(Response(c, DefinitionResponsePrefix + FormatInt(unid(AfterLast(res.ref, '/'))), EmptyBasic()));
      }
      var hs := ParseHeaders(res.headers, convert);
      if hs.Err? {
        return Err(hs.msg);
      }
      var content := ParseContent(res.content, convert);
      if content.Err? {
        return Err(content.msg);
      }
      r := Ok(Response(c, "", BasicResponse(0, res.responseName.GetOr(""), res.description, hs.value, Some(content.value))));
    }

    /** `parseResponses`. */
    method ParseResponses(codes: seq<(string, InResponse)>, convert: Converter, unid: Unid) returns (r: Result<seq<Response>>)
      ensures r == ResponsesFrom(codes, convert, unid)
    {
      var out: seq<Response> := [];
      for i := 0 to |codes|
        invariant ResponsesFrom(codes[..i], convert, unid) == Ok(out)
      {
        assert codes[..i + 1][..i] == codes[..i];
        var x := ParseResponse(codes[i].0, codes[i].1, convert, unid);
        if x.Err? {
          Lists.TryMapErrPersists(codes, i + 1, ResponseFn(convert, unid));
          return Err(x.msg);
        }
        out := out + [x.value];
      }
      assert codes[..|codes|] == codes;
      r := Ok(out);
    }

    /** One operation of a path item; None when it is skipped. */
    method ParseOperation(path: string, httpMethod: string, op: InOperation, convert: Converter, unid: Unid, isGlobal: GlobalRef) returns (c: Option<Collection>)
      ensures c == CollectionOf(path, httpMethod, op, parametersMapping, convert, unid, isGlobal)
    {
      var ps := ParseParameters(op.parameters, convert, isGlobal);
      if ps.Err? {
        return None;
      }
      var req := NewRequest().(parameters := ps.value);
      if op.requestBody.Some? {
        var content := ParseContent(op.requestBody.value, convert);
        if content.Err? {
          return None;
        }
        req := req.(content := content.value);
      }
      var responses: seq<Response> := [];
      if op.responses.Some? {
        var rs := ParseResponses(op.responses.value, convert, unid);
        if rs.Err? {
          return None;
        }
        responses := rs.value;
      }
      var title := op.summary;
      if title == "" {
        title := path;
      }
      c := Some(Collection(HttpType, title, op.tags, path, httpMethod, req, responses));
    }

    /** The collections of one path item. */
    method ParsePathItem(path: string, ops: seq<(string, InOperation)>, convert: Converter, unid: Unid, isGlobal: GlobalRef) returns (cs: seq<Collection>)
      ensures cs == PathCollections(path, ops, parametersMapping, convert, unid, isGlobal)
    {
      cs := [];
      for j := 0 to |ops|
        invariant cs == PathCollections(path, ops[..j], parametersMapping, convert, unid, isGlobal)
      {
        assert ops[..j + 1][..j] == ops[..j];
        var c := ParseOperation(path, ops[j].0, ops[j].1, convert, unid, isGlobal);
        if c.Some? {
          cs := cs + [c.value];
        }
      }
      assert ops[..|ops|] == ops;
    }

    /** `parseCollections`: nothing without paths; operations that fail to import are skipped. */
    method ParseCollections(paths: Option<seq<(string, seq<(string, InOperation)>)>>, convert: Converter, unid: Unid, isGlobal: GlobalRef) returns (cs: seq<Collection>)
      ensures paths.None? ==> cs == []
      ensures paths.Some? ==> cs == CollectionsFrom(paths.value, parametersMapping, convert, unid, isGlobal)
    {
      cs := [];
      if paths.None? {
        return;
      }
      var items := paths.value;
      for i := 0 to |items|
        invariant cs == CollectionsFrom(items[..i], parametersMapping, convert, unid, isGlobal)
      {
        assert items[..i + 1][..i] == items[..i];
        var more := ParsePathItem(items[i].0, items[i].1, convert, unid, isGlobal);
        cs := cs + more;
      }
      assert items[..|items|] == items;
    }
  }

  lemma {:induction false} HeadersErrPersists(hs: seq<(string, InHeader)>, i: nat, convert: Converter)
    requires i <= |hs| && HeadersFrom(hs[..i], convert).Err?
    ensures HeadersFrom(hs, convert) == HeadersFrom(hs[..i], convert)
    decreases |hs| - i
  {
    if i < |hs| {
      assert hs[..i + 1][..i] == hs[..i];
      HeadersErrPersists(hs, i + 1, convert);
    } else {
      assert hs[..i] == hs;
    }
  }

  lemma {:induction false} ModelsErrPersists(ss: seq<(string, SchemaProxy)>, i: nat, convert: Converter, unid: Unid)
    requires i <= |ss| && ModelsFrom(ss[..i], convert, unid).Err?
    ensures ModelsFrom(ss, convert, unid) == ModelsFrom(ss[..i], convert, unid)
    decreases |ss| - i
  {
    if i < |ss| {
      assert ss[..i + 1][..i] == ss[..i];
      ModelsErrPersists(ss, i + 1, convert, unid);
    } else {
      assert ss[..i] == ss;
    }
  }
}
