/**
 * The Swagger 2.0 importer (`swaggerParser`): servers from the schemes,
 * definitions, the `x-apicat-global-parameters` extension, each operation's
 * request (parameters, form fields, body, consumed MIME types) and
 * responses, and the http collections built from them.
 *
 * The parser keeps state in three fields: `modelMapping`, written by
 * `ParseDefinitionModels`; `globalParamtersMapping`, written by
 * `ParseGlobalParameters` and read by `ParseRequest`; and
 * `parametersMapping`, read by `ParseRequest`.
 */
module SwaggerParse {
  import opened Wrappers
  import opened Text
  import Lists
  import opened JsonSchema
  import opened Spec2

  /** A Swagger 2.0 Parameter Object; `required` is a pointer that may be nil. */
  datatype SwaggerParameter = SwaggerParameter(
    name: string,
    inLoc: string,
    description: string,
    required: Option<bool>,
    typ: string,
    format: string,
    default: Option<string>,
    schema: SchemaProxy)

  /** A Swagger 2.0 Header Object. */
  datatype SwaggerHeader = SwaggerHeader(typ: string, format: string, description: string, default: Option<string>)

  /**
   * A Swagger 2.0 Response Object. `schemaRef` is the `$ref` written on its
   * schema ("" for none); `examples` maps a MIME type to the example's JSON
   * text, None when the example cannot be marshalled.
   */
  datatype SwaggerResponse = SwaggerResponse(
    responseName: Option<string>,
    description: string,
    schemaRef: string,
    headers: Option<seq<(string, SwaggerHeader)>>,
    schema: SchemaProxy,
    examples: Option<map<string, Option<string>>>)

  /** A Swagger 2.0 Operation Object; `responses` holds the entries of `Responses.Codes`. */
  datatype Operation = Operation(
    summary: string,
    tags: seq<string>,
    parameters: seq<SwaggerParameter>,
    consumes: seq<string>,
    produces: seq<string>,
    responses: Option<seq<(string, SwaggerResponse)>>)

  /** One operation of the `paths` object with its path and HTTP method. */
  datatype PathOperation = PathOperation(path: string, httpMethod: string, op: Operation)

  const GlobalParametersKey: string := "x-apicat-global-parameters"
  const ResponseRefPrefix: string := "#/definitions/responses/"
  const RequestLocations: seq<string> := ["query", "header", "path", "cookie"]

  // ---------------------------------------------------------------------
  // Global parameters

  /** The parameters of the extension entries filed under `loc`, in visiting order. */
  function Filed(entries: seq<(string, Option<Parameter>)>, loc: string): seq<Parameter>
  {
    if |entries| == 0 then []
    else
      var e := entries[|entries| - 1];
      Filed(entries[..|entries| - 1], loc) + (if e.1.Some? && KeyLocation(e.0) == Some(loc) then [e.1.value] else [])
  }

  /** The names of every parameter the extension files somewhere. */
  function FiledNames(entries: seq<(string, Option<Parameter>)>): set<string>
  {
    if |entries| == 0 then {}
    else
      var e := entries[|entries| - 1];
      FiledNames(entries[..|entries| - 1]) + (if e.1.Some? && KeyLocation(e.0).Some? then {e.1.value.name} else {})
  }

  /** One more entry files at most one more parameter and records at most one more name. */
  lemma FiledSnoc(entries: seq<(string, Option<Parameter>)>, i: nat)
    requires i < |entries|
    ensures forall loc :: (Filed(entries[..i + 1], loc) == Filed(entries[..i], loc) +
      (if entries[i].1.Some? && KeyLocation(entries[i].0) == Some(loc) then [entries[i].1.value] else []))
    ensures FiledNames(entries[..i + 1]) == FiledNames(entries[..i]) +
      (if entries[i].1.Some? && KeyLocation(entries[i].0).Some? then {entries[i].1.value.name} else {})
  {
    assert entries[..i + 1][..i] == entries[..i];
  }

  /** A name is recorded exactly when some entry with a "-" in its key decodes to a parameter of that name. */
  lemma {:induction false} FiledNamesMembers(entries: seq<(string, Option<Parameter>)>, n: string)
    ensures n in FiledNames(entries) <==>
      exists i :: 0 <= i < |entries| && entries[i].1.Some? && entries[i].1.value.name == n && '-' in entries[i].0
  {
    if |entries| > 0 {
      var init := entries[..|entries| - 1];
      FiledNamesMembers(init, n);
      if n in FiledNames(init) {
        var i :| 0 <= i < |init| && init[i].1.Some? && init[i].1.value.name == n && '-' in init[i].0;
        assert entries[i] == init[i];
      }
      if exists i :: 0 <= i < |entries| && entries[i].1.Some? && entries[i].1.value.name == n && '-' in entries[i].0 {
        var i :| 0 <= i < |entries| && entries[i].1.Some? && entries[i].1.value.name == n && '-' in entries[i].0;
        if i < |init| {
          assert init[i] == entries[i];
        }
      }
    }
  }

  /** A parameter is filed under `loc` exactly when some entry decodes to it and its key starts with `loc` and a "-". */
  lemma {:induction false} FiledMembers(entries: seq<(string, Option<Parameter>)>, loc: string, p: Parameter)
    ensures p in Filed(entries, loc) <==>
      exists i :: 0 <= i < |entries| && entries[i].1 == Some(p) && KeyLocation(entries[i].0) == Some(loc)
  {
    if |entries| > 0 {
      var init := entries[..|entries| - 1];
      FiledMembers(init, loc, p);
      if p in Filed(init, loc) {
        var i :| 0 <= i < |init| && init[i].1 == Some(p) && KeyLocation(init[i].0) == Some(loc);
        assert entries[i] == init[i];
      }
      if exists i :: 0 <= i < |entries| && entries[i].1 == Some(p) && KeyLocation(entries[i].0) == Some(loc) {
        var i :| 0 <= i < |entries| && entries[i].1 == Some(p) && KeyLocation(entries[i].0) == Some(loc);
        if i < |init| {
          assert init[i] == entries[i];
        }
      }
    }
  }

  /** A key without "-" files nothing, whatever its parameter. */
  lemma DashlessKeyIgnored(entries: seq<(string, Option<Parameter>)>, i: nat, loc: string)
    requires i < |entries| && entries[i].1.Some? && '-' !in entries[i].0
    requires forall j :: 0 <= j < |entries| && j != i ==> entries[j].1 != entries[i].1
    ensures entries[i].1.value !in Filed(entries, loc)
  {
    FiledMembers(entries, loc, entries[i].1.value);
  }

  /**
   * The 2.0 exporter keys a global parameter `<name>-<id>`; on import the
   * text before the first "-" is taken as its location, so a parameter whose
   * name has no "-" comes back filed under its own name.
   */
  lemma SwaggerGlobalKeyFiledUnderName(p: Parameter)
    requires '-' !in p.name
    ensures KeyLocation(NameId(p.name, p.id)) == Some(p.name)
  {
    KeyLocationOfJoined(p.name, FormatInt(p.id));
  }

  // ---------------------------------------------------------------------
  // Requests

  /** A query, header, path or cookie parameter as the importer builds it. */
  function LocalParam(v: SwaggerParameter): (p: Parameter)
    ensures p.name == v.name && p.description == v.description
    ensures p.required <==> v.required == Some(true)
    ensures p.schema.Some? && p.schema.value.typ == Some([v.typ]) && p.schema.value.format == v.format
  {
    Parameter(0, v.name, v.description, v.required == Some(true), Some(EmptySchema().(typ := Some([v.typ]), format := v.format)))
  }

  /** The property a `formData` parameter contributes to the form object. */
  function FormField(v: SwaggerParameter): Schema
  {
    EmptySchema().(typ := Some([v.typ]), description := v.description, format := v.format, default := v.default)
  }

  predicate Kept(v: SwaggerParameter, skip: set<string>)
  {
    v.name !in skip
  }

  /** The request parameters filed by location, in input order. */
  function LocalParams(ps: seq<SwaggerParameter>, skip: set<string>): Located
  {
    if |ps| == 0 then map[]
    else
      var v := ps[|ps| - 1];
      var r := LocalParams(ps[..|ps| - 1], skip);
      if Kept(v, skip) && v.inLoc in RequestLocations then AddParam(r, v.inLoc, LocalParam(v)) else r
  }

  /** The form object's properties: one per kept `formData` parameter, the last one of a name winning. */
  function FormProps(ps: seq<SwaggerParameter>, skip: set<string>): map<string, Schema>
  {
    if |ps| == 0 then map[]
    else
      var v := ps[|ps| - 1];
      var r := FormProps(ps[..|ps| - 1], skip);
      if Kept(v, skip) && v.inLoc == "formData" then r[v.name := FormField(v)] else r
  }

  /** The names of the required kept `formData` parameters, in input order. */
  function FormRequired(ps: seq<SwaggerParameter>, skip: set<string>): seq<string>
  {
    if |ps| == 0 then []
    else
      var v := ps[|ps| - 1];
      var r := FormRequired(ps[..|ps| - 1], skip);
      if Kept(v, skip) && v.inLoc == "formData" && v.required == Some(true) then r + [v.name] else r
  }

  /** The single object schema all form fields are folded into. */
  function FormSchema(ps: seq<SwaggerParameter>, skip: set<string>): Schema
  {
    NewSchema("object").(properties := FormProps(ps, skip), required := FormRequired(ps, skip))
  }

  /** The body schema: the last kept `in: body` parameter's, or the first conversion error. */
  function BodyOf(ps: seq<SwaggerParameter>, skip: set<string>, convert: Converter): Result<Option<Schema>>
  {
    if |ps| == 0 then Ok(None)
    else
      var v := ps[|ps| - 1];
      var r := BodyOf(ps[..|ps| - 1], skip, convert);
      if r.Err? || !Kept(v, skip) || v.inLoc != "body" then r
      else
        match convert(v.schema)
        case Err(m) => Err(m)
        case Ok(s) => Ok(Some(s))
  }

  /** Once a body conversion has failed, the error is the result. */
  lemma {:induction false} BodyErrPersists(ps: seq<SwaggerParameter>, i: nat, skip: set<string>, convert: Converter)
    requires i <= |ps| && BodyOf(ps[..i], skip, convert).Err?
    ensures BodyOf(ps, skip, convert) == BodyOf(ps[..i], skip, convert)
    decreases |ps| - i
  {
    if i < |ps| {
      assert ps[..i + 1][..i] == ps[..i];
      BodyErrPersists(ps, i + 1, skip, convert);
    } else {
      assert ps[..i] == ps;
    }
  }

  /** The operation's `consumes`, or the document's when the operation lists none. */
  function Consumes(op: Operation, docConsumes: seq<string>): seq<string>
  {
    if |op.consumes| == 0 then docConsumes else op.consumes
  }

  /** The request content: form MIME types get the form object, the others the body when there is one. */
  function ContentOf(consumes: seq<string>, form: Schema, body: Option<Schema>): (r: map<string, Body>)
    ensures forall c :: c in r <==> c in consumes && (Contains(c, "form") || body.Some?)
    ensures forall c :: c in r && Contains(c, "form") ==> r[c] == Body(Some(form), None)
    ensures forall c :: c in r && !Contains(c, "form") ==> r[c] == Body(body, None)
  {
    if |consumes| == 0 then map[]
    else
      var c := consumes[|consumes| - 1];
      var r := ContentOf(consumes[..|consumes| - 1], form, body);
      assert forall x :: x in consumes <==> x in consumes[..|consumes| - 1] || x == c;
      if Contains(c, "form") then r[c := Body(Some(form), None)]
      else if body.Some? then r[c := Body(body, None)]
      else r
  }

  lemma ParametersStep(ps: seq<SwaggerParameter>, i: nat, skip: set<string>, convert: Converter)
    requires i < |ps|
    ensures var v := ps[i];
      LocalParams(ps[..i + 1], skip) == (if Kept(v, skip) && v.inLoc in RequestLocations then AddParam(LocalParams(ps[..i], skip), v.inLoc, LocalParam(v)) else LocalParams(ps[..i], skip)) &&
      FormProps(ps[..i + 1], skip) == (if Kept(v, skip) && v.inLoc == "formData" then FormProps(ps[..i], skip)[v.name := FormField(v)] else FormProps(ps[..i], skip)) &&
      FormRequired(ps[..i + 1], skip) == (if Kept(v, skip) && v.inLoc == "formData" && v.required == Some(true) then FormRequired(ps[..i], skip) + [v.name] else FormRequired(ps[..i], skip)) &&
      BodyOf(ps[..i + 1], skip, convert) == (if BodyOf(ps[..i], skip, convert).Err? || !Kept(v, skip) || v.inLoc != "body" then BodyOf(ps[..i], skip, convert)
        else match convert(v.schema) case Err(m) => Err(m) case Ok(s) => Ok(Some(s)))
  {
    assert ps[..i + 1][..i] == ps[..i];
  }

  lemma ContentStep(consumes: seq<string>, i: nat, form: Schema, body: Option<Schema>)
    requires i < |consumes|
    ensures var c := consumes[i]; var r := ContentOf(consumes[..i], form, body);
      ContentOf(consumes[..i + 1], form, body) == (if Contains(c, "form") then r[c := Body(Some(form), None)] else if body.Some? then r[c := Body(body, None)] else r)
  {
    assert consumes[..i + 1][..i] == consumes[..i];
  }

  /** What `parseRequest` returns for an operation, given the names it skips. */
  function RequestOf(op: Operation, docConsumes: seq<string>, skip: set<string>, convert: Converter): Result<Request>
  {
    match BodyOf(op.parameters, skip, convert)
    case Err(m) => Err(m)
    case Ok(body) =>
      Ok(Request(map[], LocalParams(op.parameters, skip), ContentOf(Consumes(op, docConsumes), FormSchema(op.parameters, skip), body)))
  }

  /**
   * The request parameters are exactly the kept query, header, path and cookie
   * parameters, each under its own location: a skipped name never appears.
   */
  lemma {:induction false} LocalParamsMembers(ps: seq<SwaggerParameter>, skip: set<string>, loc: string, p: Parameter)
    ensures p in ParamsAt(LocalParams(ps, skip), loc) <==>
      loc in RequestLocations && exists v :: v in ps && Kept(v, skip) && v.inLoc == loc && p == LocalParam(v)
  {
    if |ps| > 0 {
      var init := ps[..|ps| - 1];
      var v := ps[|ps| - 1];
      LocalParamsMembers(init, skip, loc, p);
      assert ps == init + [v];
      assert forall w :: w in ps <==> w in init || w == v;
    }
  }

  /** Every required form field is a property of the form object. */
  lemma {:induction false} FormRequiredAreProperties(ps: seq<SwaggerParameter>, skip: set<string>)
    ensures forall n :: n in FormRequired(ps, skip) ==> n in FormProps(ps, skip)
  {
    if |ps| > 0 {
      FormRequiredAreProperties(ps[..|ps| - 1], skip);
    }
  }

  /** The form object has a property for exactly the kept `formData` parameter names. */
  lemma {:induction false} FormPropsKeys(ps: seq<SwaggerParameter>, skip: set<string>, n: string)
    ensures n in FormProps(ps, skip) <==> exists v :: v in ps && Kept(v, skip) && v.inLoc == "formData" && v.name == n
  {
    if |ps| > 0 {
      var init := ps[..|ps| - 1];
      var v := ps[|ps| - 1];
      FormPropsKeys(init, skip, n);
      assert ps == init + [v];
      assert forall w :: w in ps <==> w in init || w == v;
    }
  }

  /** Without an `in: body` parameter there is no body, so non-form MIME types get no content. */
  lemma {:induction false} NoBodyParameterNoBody(ps: seq<SwaggerParameter>, skip: set<string>, convert: Converter)
    requires forall i :: 0 <= i < |ps| ==> ps[i].inLoc != "body"
    ensures BodyOf(ps, skip, convert) == Ok(None)
  {
    if |ps| > 0 {
      NoBodyParameterNoBody(ps[..|ps| - 1], skip, convert);
    }
  }

  // ---------------------------------------------------------------------
  // Responses

  /** A response header as the importer builds it. */
  function HeaderParam(name: string, h: SwaggerHeader): Parameter
  {
    Parameter(0, name, "", false, Some(EmptySchema().(typ := Some([h.typ]), format := h.format, description := h.description, examples := h.default)))
  }

  /** The response headers, one parameter per header in visiting order. */
  function HeaderParams(hs: seq<(string, SwaggerHeader)>): (r: seq<Parameter>)
    ensures |r| == |hs| && forall i :: 0 <= i < |hs| ==> r[i] == HeaderParam(hs[i].0, hs[i].1)
  {
    seq(|hs|, i requires 0 <= i < |hs| => HeaderParam(hs[i].0, hs[i].1))
  }

  /** The body a response gives one produced MIME type: the schema and the example filed under that type. */
  function ProducedBody(mime: string, js: Schema, examples: Option<map<string, Option<string>>>): (b: Body)
    ensures b.schema == Some(js)
    ensures b.examples.Some? <==> examples.Some? && mime in examples.value && examples.value[mime].Some?
    ensures b.examples.Some? ==> b.examples.value == [Example(mime, examples.value[mime].value)]
  {
    if examples.Some? && mime in examples.value && examples.value[mime].Some?
    then Body(Some(js), Some([Example(mime, examples.value[mime].value)]))
    else Body(Some(js), None)
  }

  /** The response content: one body per produced MIME type. */
  function ProducedContent(produces: seq<string>, js: Schema, examples: Option<map<string, Option<string>>>): (r: map<string, Body>)
    ensures r.Keys == set m | m in produces
    ensures forall m :: m in r ==> r[m] == ProducedBody(m, js, examples)
  {
    if |produces| == 0 then map[]
    else
      var m := produces[|produces| - 1];
      var r := ProducedContent(produces[..|produces| - 1], js, examples);
      assert forall x :: x in produces <==> x in produces[..|produces| - 1] || x == m;
      r[m := ProducedBody(m, js, examples)]
  }

  /** The text after the last "/" of a `$ref`, as `ref[strings.LastIndex(ref, "/")+1:]`. */
  function RefName(ref: string): string
  {
    AfterLast(ref, '/')
  }

  /**
   * One entry of `Responses.Codes`: None when the code is not a number;
   * otherwise the response, or the schema conversion's error.
   */
  function ResponseEntry(code: string, res: SwaggerResponse, produces: seq<string>, convert: Converter, unid: Unid): (r: Option<Result<Response>>)
    ensures r.None? <==> !ParseInt(code).Parsed?
    ensures r.Some? && r.value.Ok? ==> r.value.value.code == ParseInt(code).n
    ensures r.Some? && r.value.Ok? ==> r.value.value.basic.name == res.responseName.GetOr("") && r.value.value.basic.description == res.description
    ensures r.Some? && res.schemaRef != "" ==>
      r.value == Ok(Response(ParseInt(code).n, ResponseRefPrefix + FormatInt(unid(RefName(res.schemaRef))),
                             BasicResponse(0, res.responseName.GetOr(""), res.description, [], Some(map[]))))
    ensures r.Some? && r.value.Err? ==> res.schemaRef == "" && res.schema.Some? && convert(res.schema).Err?
    ensures r.Some? && r.value.Ok? && res.schemaRef == "" ==>
      r.value.value.reference == "" && r.value.value.basic.content.Some? &&
      r.value.value.basic.content.value.Keys == (if res.schema.Some? then set m | m in produces else {})
  {
    match ParseInt(code)
    case Parsed(c) =>
      var basic := BasicResponse(0, res.responseName.GetOr(""), res.description, [], Some(map[]));
      if res.schemaRef != "" then
        Some(Ok(Response(c, ResponseRefPrefix + FormatInt(unid(RefName(res.schemaRef))), basic)))
      else
        var header := if res.headers.Some? then HeaderParams(res.headers.value) else [];
        if res.schema.None? then Some(Ok(Response(c, "", basic.(header := header))))
        else
          (match convert(res.schema)
           case Err(m) => Some(Err(m))
           case Ok(js) => Some(Ok(Response(c, "", basic.(header := header, content := Some(ProducedContent(produces, js, res.examples)))))))
    case _ => None
  }

  /** The responses of the numeric codes in visiting order, or the first conversion error. */
  function ResponsesFrom(entries: seq<(string, SwaggerResponse)>, produces: seq<string>, convert: Converter, unid: Unid): Result<seq<Response>>
  {
    if |entries| == 0 then Ok([])
    else
      var e := entries[|entries| - 1];
      match ResponsesFrom(entries[..|entries| - 1], produces, convert, unid)
      case Err(m) => Err(m)
      case Ok(l) =>
        match ResponseEntry(e.0, e.1, produces, convert, unid)
        case None => Ok(l)
        case Some(Err(m)) => Err(m)
        case Some(Ok(x)) => Ok(l + [x])
  }

  /** Once a response has failed to convert, the error is the result. */
  lemma {:induction false} ResponsesErrPersists(entries: seq<(string, SwaggerResponse)>, i: nat, produces: seq<string>, convert: Converter, unid: Unid)
    requires i <= |entries| && ResponsesFrom(entries[..i], produces, convert, unid).Err?
    ensures ResponsesFrom(entries, produces, convert, unid) == ResponsesFrom(entries[..i], produces, convert, unid)
    decreases |entries| - i
  {
    if i < |entries| {
      assert entries[..i + 1][..i] == entries[..i];
      ResponsesErrPersists(entries, i + 1, produces, convert, unid);
    } else {
      assert entries[..i] == entries;
    }
  }

  /** The response added when no code produced one. */
  function DefaultResponse(): Response
  {
    Response(200, "", BasicResponse(0, "", "success", [], None))
  }

  /** What `parseResponse` returns: nil without responses, otherwise a non-empty list or an error. */
  function ResponsesOf(op: Operation, convert: Converter, unid: Unid): (r: Result<Option<seq<Response>>>)
    ensures op.responses.None? ==> r == Ok(None)
    ensures op.responses.Some? && r.Ok? ==> r.value.Some? && |r.value.value| > 0
  {
    if op.responses.None? then Ok(None)
    else
      match ResponsesFrom(op.responses.value, op.produces, convert, unid)
      case Err(m) => Err(m)
      case Ok(l) => Ok(Some(if |l| == 0 then [DefaultResponse()] else l))
  }

  /** Responses whose codes are all non-numeric yield the single 200 "success" response. */
  lemma {:induction false} NoNumericCodeDefaults(entries: seq<(string, SwaggerResponse)>, produces: seq<string>, convert: Converter, unid: Unid)
    requires forall i :: 0 <= i < |entries| ==> !ParseInt(entries[i].0).Parsed?
    ensures ResponsesFrom(entries, produces, convert, unid) == Ok([])
  {
    if |entries| > 0 {
      NoNumericCodeDefaults(entries[..|entries| - 1], produces, convert, unid);
    }
  }

  /** The positions of the entries whose code is a number. */
  function NumericCodes(entries: seq<(string, SwaggerResponse)>): set<nat>
  {
    set i: nat | i < |entries| && ParseInt(entries[i].0).Parsed?
  }

  lemma NumericCodesSnoc(entries: seq<(string, SwaggerResponse)>)
    requires |entries| > 0
    ensures |NumericCodes(entries)| == |NumericCodes(entries[..|entries| - 1])| + (if ParseInt(entries[|entries| - 1].0).Parsed? then 1 else 0)
  {
    var n := |entries| - 1;
    assert NumericCodes(entries) == NumericCodes(entries[..n]) + (if ParseInt(entries[n].0).Parsed? then {n} else {});
  }

  /** Each response of the list comes from one numeric code, in visiting order. */
  lemma {:induction false} ResponsesFromCount(entries: seq<(string, SwaggerResponse)>, produces: seq<string>, convert: Converter, unid: Unid)
    ensures ResponsesFrom(entries, produces, convert, unid).Ok? ==>
      |ResponsesFrom(entries, produces, convert, unid).value| == |NumericCodes(entries)|
  {
    if |entries| > 0 {
      ResponsesFromCount(entries[..|entries| - 1], produces, convert, unid);
      NumericCodesSnoc(entries);
    }
  }

  // ---------------------------------------------------------------------
  // Collections

  /** The collection `parseCollections` builds for one operation, or None when the operation is skipped. */
  function CollectionOf(p: PathOperation, docConsumes: seq<string>, skip: set<string>, convert: Converter, unid: Unid): (r: Option<Collection>)
    ensures r.Some? <==> RequestOf(p.op, docConsumes, skip, convert).Ok? && ResponsesOf(p.op, convert, unid).Ok?
    ensures r.Some? ==> r.value.typ == HttpType && r.value.path == p.path && r.value.httpMethod == p.httpMethod
    ensures r.Some? ==> r.value.title == if p.op.summary == "" then p.path else p.op.summary
  {
    match RequestOf(p.op, docConsumes, skip, convert)
    case Err(_) => None
    case Ok(req) =>
      match ResponsesOf(p.op, convert, unid)
      case Err(_) => None
      case Ok(res) =>
        Some(Collection(HttpType, if p.op.summary == "" then p.path else p.op.summary, p.op.tags, p.path, p.httpMethod, req, res.GetOr([])))
  }

  function CollectionsFrom(ops: seq<PathOperation>, docConsumes: seq<string>, skip: set<string>, convert: Converter, unid: Unid): (r: seq<Collection>)
    ensures |r| <= |ops|
  {
    if |ops| == 0 then []
    else
      var c := CollectionOf(ops[|ops| - 1], docConsumes, skip, convert, unid);
      CollectionsFrom(ops[..|ops| - 1], docConsumes, skip, convert, unid) + (if c.Some? then [c.value] else [])
  }

  /** Every imported collection is an http collection of one of the operations, titled by its summary or else its path. */
  lemma {:induction false} CollectionsFromOperations(ops: seq<PathOperation>, docConsumes: seq<string>, skip: set<string>, convert: Converter, unid: Unid)
    ensures forall c :: c in CollectionsFrom(ops, docConsumes, skip, convert, unid) ==>
      c.typ == HttpType && exists p :: p in ops && CollectionOf(p, docConsumes, skip, convert, unid) == Some(c)
  {
    if |ops| > 0 {
      var init := ops[..|ops| - 1];
      CollectionsFromOperations(init, docConsumes, skip, convert, unid);
      assert forall p :: p in init ==> p in ops;
    }
  }

  // ---------------------------------------------------------------------
  // The parser

  class SwaggerParser {
    var modelMapping: map<string, Int64>
    var parametersMapping: map<string, Parameter>
    var globalParamtersMapping: set<string>

    constructor()
      ensures modelMapping == map[] && parametersMapping == map[] && globalParamtersMapping == {}
    {
      modelMapping := map[];
      parametersMapping := map[];
      globalParamtersMapping := {};
    }

    /** The names `parseRequest` skips: shared parameters and global ones. */
    function Skipped(): set<string>
      reads this
    {
      parametersMapping.Keys + globalParamtersMapping
    }

    /** One server per scheme; a base path of "/" is dropped from the URLs. */
    method ParseServers(schemes: seq<string>, host: string, basePath: string) returns (servers: seq<Server>)
      ensures |servers| == |schemes|
      ensures forall k :: 0 <= k < |schemes| ==> servers[k].description == schemes[k]
      ensures forall k :: 0 <= k < |schemes| ==> servers[k].url == schemes[k] + "://" + host + (if basePath == "/" then "" else basePath)
    {
      var base := if basePath == "/" then "" else basePath;
      servers := [];
      for k := 0 to |schemes|
        invariant |servers| == k
        invariant forall j :: 0 <= j < k ==> servers[j] == Server(schemes[j] + "://" + host + base, schemes[j])
      {
        servers := servers + [Server(schemes[k] + "://" + host + base, schemes[k])];
      }
    }

    /**
     * One model per definition, named and described by its key and identified
     * by `stringToUnid(key)`; `modelMapping` records key to id. The first
     * schema that fails to convert fails the whole list.
     */
    method ParseDefinitionModels(defs: Option<seq<(string, SchemaProxy)>>, convert: Converter, unid: Unid) returns (r: Result<seq<DefinitionModel>>)
      modifies this
      ensures parametersMapping == old(parametersMapping) && globalParamtersMapping == old(globalParamtersMapping)
      ensures forall k :: k in modelMapping ==> modelMapping[k] == unid(k)
      ensures defs.None? ==> r == Ok([]) && modelMapping == map[]
      ensures defs.Some? ==> (r.Ok? <==> forall i :: 0 <= i < |defs.value| ==> convert(defs.value[i].1).Ok?)
      ensures defs.Some? && r.Ok? ==> modelMapping == map k | k in KeysOf(defs.value) :: unid(k)
      ensures defs.Some? && r.Ok? ==> |r.value| == |defs.value| && forall i :: 0 <= i < |defs.value| ==>
        r.value[i] == DefinitionModel(unid(defs.value[i].0), defs.value[i].0, defs.value[i].0, "", Some(convert(defs.value[i].1).value))
    {
      modelMapping := map[];
      if defs.None? {
        return Ok([]);
      }
      var ds := defs.value;
      var models: seq<DefinitionModel> := [];
      for i := 0 to |ds|
        invariant parametersMapping == old(parametersMapping) && globalParamtersMapping == old(globalParamtersMapping)
        invariant modelMapping == map k | k in KeysOf(ds[..i]) :: unid(k)
        invariant |models| == i
        invariant forall j :: 0 <= j < i ==> convert(ds[j].1).Ok? && models[j] == DefinitionModel(unid(ds[j].0), ds[j].0, ds[j].0, "", Some(convert(ds[j].1).value))
      {
        var (k, v) := ds[i];
        match convert(v)
        case Err(m) =>
          return Err(m);
        case Ok(js) =>
          assert KeysOf(ds[..i + 1]) == KeysOf(ds[..i]) + {k};
          modelMapping := modelMapping[k := unid(k)];
          models := models + [DefinitionModel(unid(k), k, k, "", Some(js))];
      }
      assert ds[..|ds|] == ds;
      r := Ok(models);
    }

    /**
     * The `x-apicat-global-parameters` extension: each entry whose key has a
     * "-" is filed under the text before it, and its name is recorded for
     * `ParseRequest` to skip. Without the extension nothing is filed and the
     * recorded names stay as they were.
     */
    method ParseGlobalParameters(inp: Option<map<string, seq<(string, Option<Parameter>)>>>) returns (params: Located)
      modifies this
      ensures modelMapping == old(modelMapping) && parametersMapping == old(parametersMapping)
      ensures inp.None? || GlobalParametersKey !in inp.value ==> params == map[] && globalParamtersMapping == old(globalParamtersMapping)
      ensures inp.Some? && GlobalParametersKey in inp.value ==>
        globalParamtersMapping == FiledNames(inp.value[GlobalParametersKey]) &&
        forall loc :: ParamsAt(params, loc) == Filed(inp.value[GlobalParametersKey], loc)
    {
      params := map[];
      if inp.None? || GlobalParametersKey !in inp.value {
        return;
      }
      var global := inp.value[GlobalParametersKey];
      globalParamtersMapping := {};
      for i := 0 to |global|
        invariant modelMapping == old(modelMapping) && parametersMapping == old(parametersMapping)
        invariant globalParamtersMapping == FiledNames(global[..i])
        invariant forall loc :: ParamsAt(params, loc) == Filed(global[..i], loc)
      {
        var (k, v) := global[i];
        FiledSnoc(global, i);
        if v.None? {
          continue;
        }
        var loc := KeyLocation(k);
        if loc.None? {
          continue;
        }
        params := AddParam(params, loc.value, v.value);
        globalParamtersMapping := globalParamtersMapping + {v.value.name};
      }
      assert global[..|global|] == global;
    }

    /**
     * The request of one operation: parameters known by name as shared or
     * global are skipped; query, header, path and cookie parameters are filed
     * under their location; `formData` parameters are folded into one object
     * schema; `in: body` gives the body schema; then each consumed MIME type
     * gets the form object or the body.
     */
    method ParseRequest(docConsumes: seq<string>, op: Operation, convert: Converter) returns (r: Result<Request>)
      ensures r == RequestOf(op, docConsumes, Skipped(), convert)
    {
      var skip := Skipped();
      var ps := op.parameters;
      var params: Located := map[];
      var props: map<string, Schema> := map[];
      var required: seq<string> := [];
      var body: Option<Schema> := None;
      for i := 0 to |ps|
        invariant params == LocalParams(ps[..i], skip)
        invariant props == FormProps(ps[..i], skip)
        invariant required == FormRequired(ps[..i], skip)
        invariant BodyOf(ps[..i], skip, convert) == Ok(body)
      {
        var v := ps[i];
        ParametersStep(ps, i, skip, convert);
        if v.name in parametersMapping || v.name in globalParamtersMapping {
          continue;
        }
        var req := v.required == Some(true);
        if v.inLoc in RequestLocations {
          params := AddParam(params, v.inLoc, LocalParam(v));
        } else if v.inLoc == "formData" {
          props := props[v.name := FormField(v)];
          if req {
            required := required + [v.name];
          }
        } else if v.inLoc == "body" {
          match convert(v.schema)
          case Err(m) =>
            BodyErrPersists(ps, i + 1, skip, convert);
            return Err(m);
          case Ok(js) =>
            body := Some(js);
        }
      }
      assert ps[..|ps|] == ps;
      var form := NewSchema("object").(properties := props, required := required);
      var consumes := if |op.consumes| == 0 then docConsumes else op.consumes;
      var content := ParseContent(consumes, form, body);
      r := Ok(Request(map[], params, content));
    }

    /** The loop of `parseRequest` over the consumed MIME types: form types get the form object, the others the body. */
    method ParseContent(consumes: seq<string>, form: Schema, body: Option<Schema>) returns (content: map<string, Body>)
      ensures content == ContentOf(consumes, form, body)
    {
      content := map[];
      for i := 0 to |consumes|
        invariant content == ContentOf(consumes[..i], form, body)
      {
        var c := consumes[i];
        ContentStep(consumes, i, form, body);
        if Contains(c, "form") {
          content := content[c := Body(Some(form), None)];
        } else if body.Some? {
          content := content[c := Body(body, None)];
        }
      }
      assert consumes[..|consumes|] == consumes;
    }

    /** The content a response with a schema gives each produced MIME type. */
    method ParseProduced(produces: seq<string>, js: Schema, examples: Option<map<string, Option<string>>>) returns (content: map<string, Body>)
      ensures content == ProducedContent(produces, js, examples)
    {
      content := map[];
      for i := 0 to |produces|
        invariant content == ProducedContent(produces[..i], js, examples)
      {
        assert produces[..i + 1][..i] == produces[..i];
        content := content[produces[i] := ProducedBody(produces[i], js, examples)];
      }
      assert produces[..|produces|] == produces;
    }

    /** One entry of `Responses.Codes`, as the body of `parseResponse`'s loop handles it. */
    method ParseEntry(code: string, res: SwaggerResponse, produces: seq<string>, convert: Converter, unid: Unid) returns (e: Option<Result<Response>>)
      ensures e == ResponseEntry(code, res, produces, convert, unid)
    {
      var parsed := ParseInt(code);
      if !parsed.Parsed? {
        return None;
      }
      var basic := BasicResponse(0, res.responseName.GetOr(""), res.description, [], Some(map[]));
      if res.schemaRef != "" {
        return Some(Ok(Response(parsed.n, ResponseRefPrefix + FormatInt(unid(RefName(res.schemaRef))), basic)));
      }
      var header: seq<Parameter> := [];
      if res.headers.Some? {
        var hs := res.headers.value;
        for j := 0 to |hs|
          invariant |header| == j
          invariant forall t :: 0 <= t < j ==> header[t] == HeaderParam(hs[t].0, hs[t].1)
        {
          header := header + [HeaderParam(hs[j].0, hs[j].1)];
        }
        assert header == HeaderParams(hs);
      }
      basic := basic.(header := header);
      if res.schema.Some? {
        match convert(res.schema)
        case Err(m) =>
          return Some(Err(m));
        case Ok(js) =>
          var content := ParseProduced(produces, js, res.examples);
          basic := basic.(content := Some(content));
      }
      e := Some(Ok(Response(parsed.n, "", basic)));
    }

    /**
     * The responses of one operation: nil without responses, non-numeric codes
     * skipped, a schema `$ref` turned into a reference to a response
     * definition, and a 200 "success" response when nothing else was produced.
     */
    method ParseResponse(op: Operation, convert: Converter, unid: Unid) returns (r: Result<Option<seq<Response>>>)
      ensures r == ResponsesOf(op, convert, unid)
    {
      if op.responses.None? {
        return Ok(None);
      }
      var entries := op.responses.value;
      var list: seq<Response> := [];
      for i := 0 to |entries|
        invariant ResponsesFrom(entries[..i], op.produces, convert, unid) == Ok(list)
      {
        assert entries[..i + 1][..i] == entries[..i];
        var e := ParseEntry(entries[i].0, entries[i].1, op.produces, convert, unid);
        match e
        case None =>
        case Some(Err(m)) =>
          ResponsesErrPersists(entries, i + 1, op.produces, convert, unid);
          return Err(m);
        case Some(Ok(x)) =>
          list := list + [x];
      }
      assert entries[..|entries|] == entries;
      if |list| == 0 {
        list := [DefaultResponse()];
      }
      r := Ok(Some(list));
    }

    /** One http collection per operation whose request and responses both parse; the others are skipped. */
    method ParseCollections(docConsumes: seq<string>, ops: seq<PathOperation>, convert: Converter, unid: Unid) returns (cs: seq<Collection>)
      ensures cs == CollectionsFrom(ops, docConsumes, Skipped(), convert, unid)
    {
      cs := [];
      for i := 0 to |ops|
        invariant cs == CollectionsFrom(ops[..i], docConsumes, Skipped(), convert, unid)
      {
        var p := ops[i];
        assert ops[..i + 1][..i] == ops[..i];
        var req := ParseRequest(docConsumes, p.op, convert);
        if req.Err? {
          continue;
        }
        var res := ParseResponse(p.op, convert, unid);
        if res.Err? {
          continue;
        }
        var title := if p.op.summary == "" then p.path else p.op.summary;
        cs := cs + [Collection(HttpType, title, p.op.tags, p.path, p.httpMethod, req.value, res.value.GetOr([]))];
      }
      assert ops[..|ops|] == ops;
    }
  }
}
