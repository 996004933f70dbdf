/**
 * The records that the OpenAPI converters read and write: the `spec2`
 * document (servers, parameters, bodies, responses, definitions,
 * collections). Only the fields the converters touch are kept. Schemas are
 * the JSON-schema nodes of module `JsonSchema`.
 *
 * Go's map iteration order is arbitrary. A map of the input document that a
 * converter only ranges over is carried as the sequence of its entries in the
 * order Go happens to visit them; a map that is also looked up stays a map,
 * and a converter ranging over it takes the visiting order as a sequence of
 * keys that `Enumerates` the map. Either way every statement holds for every
 * order.
 */
module Spec2 {
  import opened Wrappers
  import opened Text
  import Lists
  import opened JsonSchema

  /** libopenapi's `*base.SchemaProxy`: None for nil, otherwise the raw schema text. */
  type SchemaProxy = Option<string>

  /** `jsonSchemaConverter`, which is not part of this model. */
  type Converter = SchemaProxy -> Result<Schema>

  /** `stringToUnid`, which is not part of this model. */
  type Unid = string -> Int64

  datatype Info = Info(title: string, description: string, version: string)

  datatype Server = Server(url: string, description: string)

  /** `spec2.Parameter`: `description` is the parameter's own text, the schema may be nil. */
  datatype Parameter = Parameter(id: Int64, name: string, description: string, required: bool, schema: Option<Schema>)

  datatype Example = Example(summary: string, value: string)

  /** `spec2.Body`: a nil `examples` slice is None. */
  datatype Body = Body(schema: Option<Schema>, examples: Option<seq<Example>>)

  /** `spec2.BasicResponse`: a nil `content` map is None. */
  datatype BasicResponse = BasicResponse(id: Int64, name: string, description: string, header: seq<Parameter>, content: Option<map<string, Body>>)

  /** `spec2.Response`: a code, an optional `$ref`-style reference ("" for none) and the inline part. */
  datatype Response = Response(code: int, reference: string, basic: BasicResponse)

  const CategoryType: string := "category"
  const HttpType: string := "http"

  datatype DefinitionModel = DefinitionModel(id: Int64, name: string, description: string, typ: string, schema: Option<Schema>)

  datatype DefinitionResponse = DefinitionResponse(typ: string, basic: BasicResponse)

  /** Parameters filed by location (`query`, `header`, ...), as `ToMap()` presents them. */
  type Located = map<string, seq<Parameter>>

  function ParamsAt(ps: Located, loc: string): seq<Parameter>
  {
    if loc in ps then ps[loc] else []
  }

  /** `Add(in, p)`: appends `p` under its location and leaves every other location alone. */
  function AddParam(ps: Located, loc: string, p: Parameter): (r: Located)
    ensures ParamsAt(r, loc) == ParamsAt(ps, loc) + [p]
    ensures forall l :: l != loc ==> ParamsAt(r, l) == ParamsAt(ps, l)
  {
    ps[loc := ParamsAt(ps, loc) + [p]]
  }

  /** The request part of an http collection. */
  datatype Request = Request(globalExcepts: map<string, seq<Int64>>, parameters: Located, content: map<string, Body>)

  function NewRequest(): Request
  {
    Request(map[], map[], map[])
  }

  /** One http collection as the importers produce it: url node, request node, response node. */
  datatype Collection = Collection(typ: string, title: string, tags: seq<string>, path: string, httpMethod: string, request: Request, responses: seq<Response>)

  /** An exported OpenAPI parameter (`openAPIParamter`). */
  datatype OutParam = OutParam(name: string, inLoc: string, typ: string, description: string, required: bool, schema: Option<Schema>)

  /** `convertJsonSchemaRef(schema, version, modelNames)`, which is not part of this model. */
  type RefConverter = (Schema, string, map<Int64, string>) -> Schema

  /** `toParameter(p, in, version)`, which is not part of this model. */
  type ToParameter = (Parameter, string, string) -> OutParam

  /** `globalToLocalParameters(globals, isSwagger, excepts)`, which is not part of this model. */
  type GlobalToLocal = (Located, bool, map<string, seq<Int64>>) -> seq<OutParam>

  /** `Definitions.Responses.FindByID(toInt64(getRefName(ref)))`: the response definition a reference names, if any. */
  type ResponseLookup = string -> Option<BasicResponse>

  /** `ItemsTreeToList` of a category model or response, which is not part of this model. */
  type FlattenModel = DefinitionModel -> seq<DefinitionModel>
  type FlattenResponse = DefinitionResponse -> seq<DefinitionResponse>

  /** An http collection as the exporters see it: its title, texts, tags, request and responses. */
  datatype HttpOperation = HttpOperation(title: string, description: string, operatorId: string, tags: seq<string>, req: Request, res: seq<Response>)

  /** The parts of a `spec2.Spec` the exporters read. */
  datatype Document = Document(info: Info, servers: seq<Server>, schemas: seq<DefinitionModel>, responses: seq<DefinitionResponse>, globals: Located)

  /** `keys` lists every key of `m` exactly once: one Go iteration order of the map. */
  predicate Enumerates<V>(keys: seq<string>, m: map<string, V>)
  {
    Lists.NoDuplicates(keys) && (forall k :: k in keys ==> k in m) && (forall k :: k in m ==> k in keys)
  }

  /** The order in which Go visits the keys of a map, given the map's key set. */
  type KeyOrder = set<string> -> seq<string>

  /** Every key set is visited completely, each key once. */
  ghost predicate ValidOrder(order: KeyOrder)
  {
    forall ks :: Lists.NoDuplicates(order(ks)) && (forall k :: k in order(ks) <==> k in ks)
  }

  /** A key set is visited as the empty sequence exactly when it is empty. */
  lemma OrderEmpty(order: KeyOrder, ks: set<string>)
    requires ValidOrder(order)
    ensures |order(ks)| == 0 <==> ks == {}
  {
    if ks != {} {
      var k :| k in ks;
      assert k in order(ks);
    }
    if |order(ks)| > 0 {
      assert order(ks)[0] in ks;
    }
  }

  /** The keys of a visit-ordered map. */
  function KeysOf<V>(entries: seq<(string, V)>): set<string>
  {
    set i | 0 <= i < |entries| :: entries[i].0
  }

  /** A visit-ordered map: no key is visited twice. */
  predicate UniqueKeys<V>(entries: seq<(string, V)>)
  {
    forall a, b :: 0 <= a < b < |entries| ==> entries[a].0 != entries[b].0
  }

  /** `fmt.Sprintf("%s-%d", name, id)`. */
  function NameId(name: string, id: Int64): (r: string)
    ensures HasPrefix(r, name + "-")
  {
    name + "-" + FormatInt(id)
  }

  /**
   * The location a global-parameter key is filed under on import: the text
   * before its first "-"; None when the key has no "-".
   */
  function KeyLocation(k: string): (r: Option<string>)
    ensures r.None? <==> '-' !in k
    ensures r.Some? ==> '-' !in r.value && HasPrefix(k, r.value + "-")
  {
    var i := IndexOf(k, '-');
    if i == -1 then None
    else
      assert k[..i + 1] == k[..i] + "-";
      Some(k[..i])
  }

  /** A key `<a>-<rest>` whose `a` has no "-" is filed under `a`, whatever `rest` is. */
  lemma KeyLocationOfJoined(a: string, rest: string)
    requires '-' !in a
    ensures KeyLocation(a + "-" + rest) == Some(a)
  {
    var k := a + "-" + rest;
    assert k[|a|] == '-';
    assert k[..|a|] == a;
  }
}
