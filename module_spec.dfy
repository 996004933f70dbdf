/**
 * The stored form of an operation in backend/module/spec: parameter and
 * model wrappers (schema.go), request bodies (body.go) and the HTTP request
 * node with its per-location global-parameter exception lists
 * (collection_http_request.go).
 *
 * The request node is a class whose `attrs` the methods update in place.
 * Body schemas are trees of `JsonSchema.Schema`; where the source overwrites
 * nodes of such a tree through pointers, the model replaces the tree by its
 * updated value.
 */
module ModuleSpec {
  import opened Wrappers
  import opened Text
  import Lists
  import opened JsonSchema
  import opened SchemaWalk

  /** `spec.Schema`: a named wrapper around a JSON schema, used for parameters and models. */
  datatype ModSchema = ModSchema(
    id: Int64,
    name: string,
    description: string,
    required: bool,
    schema: Option<Schema>,
    ref: Option<string>)

  /** `Schema.Ref()`: the wrapper carries a `$ref`. */
  predicate IsRef(s: ModSchema)
  {
    s.ref.Some?
  }

  /** `Schemas.Lookup`: the first entry with that name; nil for a nil list or no match. */
  function Lookup(xs: Option<seq<ModSchema>>, name: string): (r: Option<ModSchema>)
    ensures xs.None? ==> r.None?
    ensures r.None? ==> xs.None? || forall i :: 0 <= i < |xs.value| ==> xs.value[i].name != name
    ensures r.Some? ==> r.value.name == name && (exists i :: 0 <= i < |xs.value| && xs.value[i] == r.value && forall j :: 0 <= j < i ==> xs.value[j].name != name)
  {
    if xs.None? then None
    else
      match Lists.FindFirst(xs.value, (v: ModSchema) => v.name == name)
      case None => None
      case Some(i) => Some(xs.value[i])
  }

  /** `Schemas.LookupID`: the first entry with that id; nil for a nil list or no match. */
  function LookupID(xs: Option<seq<ModSchema>>, id: Int64): (r: Option<ModSchema>)
    ensures xs.None? ==> r.None?
    ensures r.None? ==> xs.None? || forall i :: 0 <= i < |xs.value| ==> xs.value[i].id != id
    ensures r.Some? ==> r.value.id == id && (exists i :: 0 <= i < |xs.value| && xs.value[i] == r.value && forall j :: 0 <= j < i ==> xs.value[j].id != id)
  {
    if xs.None? then None
    else
      match Lists.FindFirst(xs.value, (v: ModSchema) => v.id == id)
      case None => None
      case Some(i) => Some(xs.value[i])
  }

  /**
   * `Lookup` and `LookupID` hand back the stored wrapper itself: a wrapper
   * that is a `Ref()` is found as that reference, never resolved.
   */
  lemma LookupKeepsRef(xs: seq<ModSchema>, i: int)
    requires 0 <= i < |xs| && IsRef(xs[i])
    ensures (forall j :: 0 <= j < i ==> xs[j].name != xs[i].name) ==>
      Lookup(Some(xs), xs[i].name) == Some(xs[i]) && IsRef(Lookup(Some(xs), xs[i].name).value)
    ensures (forall j :: 0 <= j < i ==> xs[j].id != xs[i].id) ==>
      LookupID(Some(xs), xs[i].id) == Some(xs[i]) && IsRef(LookupID(Some(xs), xs[i].id).value)
  {
    if forall j :: 0 <= j < i ==> xs[j].name != xs[i].name {
      var r := Lookup(Some(xs), xs[i].name);
      var k :| 0 <= k < |xs| && xs[k] == r.value && forall j :: 0 <= j < k ==> xs[j].name != xs[i].name;
      assert k == i;
    }
    if forall j :: 0 <= j < i ==> xs[j].id != xs[i].id {
      var r := LookupID(Some(xs), xs[i].id);
      var k :| 0 <= k < |xs| && xs[k] == r.value && forall j :: 0 <= j < k ==> xs[j].id != xs[i].id;
      assert k == i;
    }
  }

  /**
   * `Schemas.Length`: the number of entries. An empty list finds nothing; a
   * non-empty one finds its first entry by that entry's name and by its id.
   */
  function Length(xs: seq<ModSchema>): (r: nat)
    ensures r == |xs|
    ensures r == 0 <==> forall name :: Lookup(Some(xs), name).None?
    ensures r > 0 ==> |xs| > 0 && Lookup(Some(xs), xs[0].name) == Some(xs[0]) && LookupID(Some(xs), xs[0].id) == Some(xs[0])
  {
    if |xs| == 0 then 0
    else
      assert Lookup(Some(xs), xs[0].name).Some?;
      |xs|
  }

  /** `Example` of body.go: opaque summary and value text. */
  datatype ModExample = ModExample(summary: string, value: string)

  /** `Body`: an optional schema and the named examples. */
  datatype Body = Body(schema: Option<Schema>, examples: map<string, ModExample>)

  /** The body after `SetXDiff(x)` on its schema, which ignores a nil schema. */
  function MarkedBody(b: Body, x: Marker): Body
  {
    if b.schema.Some? then b.(schema := Some(SetXDiff(b.schema.value, x))) else b
  }

  /**
   * `HTTPBody.SetXDiff(x)`: every body's schema tree is marked, the keys and
   * the examples stay as they are, and the empty marker changes nothing.
   */
  method BodiesSetXDiff(bodies: map<string, Body>, x: Marker) returns (r: map<string, Body>)
    ensures r.Keys == bodies.Keys
    ensures forall k :: k in r ==> r[k].examples == bodies[k].examples && r[k].schema.Some? == bodies[k].schema.Some?
    ensures forall k :: k in r && r[k].schema.Some? ==> r[k].schema.value == SetXDiff(bodies[k].schema.value, x)
    ensures x == Unset ==> r == bodies
  {
    r := bodies;
    var keys := bodies.Keys;
    while keys != {}
      invariant keys <= bodies.Keys && r.Keys == bodies.Keys
      invariant forall k :: k in keys ==> r[k] == bodies[k]
      invariant forall k :: k in r && k !in keys ==> r[k] == MarkedBody(bodies[k], x)
      decreases keys
    {
      var k :| k in keys;
      r := r[k := MarkedBody(r[k], x)];
      keys := keys - {k};
    }
    if x == Unset {
      assert forall k :: k in r ==> r[k] == bodies[k];
    }
  }

  /** A marked body schema carries the marker at every node of its tree. */
  lemma BodySchemaMarkedEverywhere(b: Body, x: Marker, path: seq<Step>)
    requires x != Unset && b.schema.Some? && At(b.schema.value, path).Some?
    ensures var m := MarkedBody(b, x).schema.value; At(m, path).Some? && At(m, path).value.xDiff == x
  {
    SetXDiffMarksEveryNode(b.schema.value, x, path);
  }

  /** The locations that have an exception list. */
  const ExceptLocations: seq<string> := ["header", "cookie", "query"]

  /** `HttpRequestGlobalExcepts`: ids of global parameters an operation opts out of, per location. */
  datatype GlobalExcepts = GlobalExcepts(header: seq<Int64>, cookie: seq<Int64>, query: seq<Int64>)

  /** `GetGlobalExcept(in)`: the list for a location; nil for any other name. */
  function ExceptList(g: GlobalExcepts, loc: string): (r: Option<seq<Int64>>)
    ensures r.Some? <==> loc in ExceptLocations
  {
    if loc == "header" then Some(g.header)
    else if loc == "cookie" then Some(g.cookie)
    else if loc == "query" then Some(g.query)
    else None
  }

  /** The exceptions with one location's list replaced. */
  function WithExceptList(g: GlobalExcepts, loc: string, xs: seq<Int64>): (r: GlobalExcepts)
    requires loc in ExceptLocations
    ensures ExceptList(r, loc) == Some(xs)
    ensures forall l :: l != loc ==> ExceptList(r, l) == ExceptList(g, l)
  {
    if loc == "header" then g.(header := xs)
    else if loc == "cookie" then g.(cookie := xs)
    else g.(query := xs)
  }

  /** What `Exist(in, id)` decides: a non-zero id listed for a known location. */
  predicate Excepted(g: GlobalExcepts, loc: string, id: Int64)
  {
    id != 0 && ExceptList(g, loc).Some? && id in ExceptList(g, loc).value
  }

  /** `HttpRequestGlobalExcepts.Exist`: false for id 0 and for unknown locations, otherwise list membership. */
  method Exist(g: GlobalExcepts, loc: string, id: Int64) returns (r: bool)
    ensures r <==> Excepted(g, loc, id)
  {
    if id == 0 {
      return false;
    }
    var list := ExceptList(g, loc);
    if list.None? {
      return false;
    }
    var xs := list.value;
    for i := 0 to |xs|
      invariant id !in xs[..i]
    {
      if xs[i] == id {
        return true;
      }
      assert xs[..i + 1] == xs[..i] + [xs[i]];
    }
    assert xs[..|xs|] == xs;
    return false;
  }

  /** `HttpRequestGlobalExcepts.ToMap`: exactly the three locations, each with its list. */
  function ToMap(g: GlobalExcepts): (r: map<string, seq<Int64>>)
    ensures r.Keys == {"header", "cookie", "query"}
    ensures forall l :: l in r ==> ExceptList(g, l) == Some(r[l])
  {
    map["header" := g.header, "cookie" := g.cookie, "query" := g.query]
  }

  /** `HttpRequestGlobalExcepts.Clear(in)`: the named list becomes empty; the others and unknown names are left alone. */
  function Clear(g: GlobalExcepts, loc: string): (r: GlobalExcepts)
    ensures loc in ExceptLocations ==> ExceptList(r, loc) == Some([])
    ensures forall l :: l != loc ==> ExceptList(r, l) == ExceptList(g, l)
    ensures loc !in ExceptLocations ==> r == g
  {
    if loc in ExceptLocations then WithExceptList(g, loc, []) else g
  }

  /** The list after `AddGlobalExcept`: the id is appended unless it is already listed. */
  function AddAbsent(xs: seq<Int64>, id: Int64): seq<Int64>
  {
    if id in xs then xs else xs + [id]
  }

  /** The exceptions after `AddGlobalExcept(in, id)`. */
  function ExceptAdded(g: GlobalExcepts, loc: string, id: Int64): GlobalExcepts
  {
    if loc in ExceptLocations then WithExceptList(g, loc, AddAbsent(ExceptList(g, loc).value, id)) else g
  }

  /** The exceptions after `DelGlobalExcept(in, id)`. */
  function ExceptDeleted(g: GlobalExcepts, loc: string, id: Int64): GlobalExcepts
  {
    if loc in ExceptLocations then WithExceptList(g, loc, Lists.RemoveFirst(ExceptList(g, loc).value, id)) else g
  }

  /** The loop of `AddGlobalExcept` over one list: return on a listed id, otherwise append. */
  method AppendAbsent(xs: seq<Int64>, id: Int64) returns (r: seq<Int64>)
    ensures id in r && multiset(xs) <= multiset(r)
    ensures id in xs ==> r == xs
    ensures id !in xs ==> r == xs + [id]
  {
    if |xs| == 0 {
      return xs + [id];
    }
    for i := 0 to |xs|
      invariant id !in xs[..i]
    {
      if xs[i] == id {
        return xs;
      }
      assert xs[..i + 1] == xs[..i] + [xs[i]];
    }
    assert xs[..|xs|] == xs;
    r := xs + [id];
  }

  /**
   * Adding keeps every exception list duplicate-free, lists the id, and adding
   * the same id again is a no-op; other locations are untouched.
   */
  lemma ExceptAddedKeepsSet(g: GlobalExcepts, loc: string, id: Int64)
    requires loc in ExceptLocations && Lists.NoDuplicates(ExceptList(g, loc).value)
    ensures var r := ExceptAdded(g, loc, id);
      Lists.NoDuplicates(ExceptList(r, loc).value) && id in ExceptList(r, loc).value
      && ExceptAdded(r, loc, id) == r
  {
    var r := ExceptAdded(g, loc, id);
    assert ExceptList(r, loc).value == AddAbsent(ExceptList(g, loc).value, id);
    assert ExceptList(ExceptAdded(r, loc, id), loc) == ExceptList(r, loc);
    assert ExceptAdded(r, loc, id) == r by {
      assert ExceptList(ExceptAdded(r, loc, id), "header") == ExceptList(r, "header");
      assert ExceptList(ExceptAdded(r, loc, id), "cookie") == ExceptList(r, "cookie");
      assert ExceptList(ExceptAdded(r, loc, id), "query") == ExceptList(r, "query");
    }
  }

  /** Deleting drops one copy of the id from the named list only. */
  lemma ExceptDeletedDropsOne(g: GlobalExcepts, loc: string, id: Int64)
    requires loc in ExceptLocations
    ensures var r := ExceptDeleted(g, loc, id);
      multiset(ExceptList(r, loc).value) == multiset(ExceptList(g, loc).value) - multiset{id}
      && forall l :: l != loc ==> ExceptList(r, l) == ExceptList(g, l)
  {
    Lists.RemoveFirstMultiset(ExceptList(g, loc).value, id);
  }

  /** Adding an id that was not listed and deleting it again restores the exceptions. */
  lemma AddThenDeleteRestores(g: GlobalExcepts, loc: string, id: Int64)
    requires id !in ExceptList(g, loc).GetOr([])
    ensures ExceptDeleted(ExceptAdded(g, loc, id), loc, id) == g
  {
    if loc in ExceptLocations {
      var r := ExceptDeleted(ExceptAdded(g, loc, id), loc, id);
      Lists.RemoveFirstAppended(ExceptList(g, loc).value, id);
      assert ExceptList(r, "header") == ExceptList(g, "header");
      assert ExceptList(r, "cookie") == ExceptList(g, "cookie");
      assert ExceptList(r, "query") == ExceptList(g, "query");
    }
  }

  /**
   * The four parameter buckets. `HTTPParameters` of backend/module/spec is
   * not part of this model; its `Add` is taken to append to the named bucket
   * and to ignore other names, as the common/spec version does.
   */
  datatype Parameters = Parameters(query: seq<ModSchema>, path: seq<ModSchema>, cookie: seq<ModSchema>, header: seq<ModSchema>)

  function Bucket(p: Parameters, loc: string): seq<ModSchema>
  {
    if loc == "query" then p.query
    else if loc == "path" then p.path
    else if loc == "cookie" then p.cookie
    else if loc == "header" then p.header
    else []
  }

  predicate IsBucket(loc: string)
  {
    loc == "query" || loc == "path" || loc == "cookie" || loc == "header"
  }

  /** `Parameters.Add(in, xs...)`: the items are appended to the named bucket; other names change nothing. */
  function AddAll(p: Parameters, loc: string, xs: seq<ModSchema>): (r: Parameters)
    ensures IsBucket(loc) ==> Bucket(r, loc) == Bucket(p, loc) + xs
    ensures forall l :: l != loc ==> Bucket(r, l) == Bucket(p, l)
    ensures !IsBucket(loc) ==> r == p
  {
    if loc == "query" then p.(query := p.query + xs)
    else if loc == "path" then p.(path := p.path + xs)
    else if loc == "cookie" then p.(cookie := p.cookie + xs)
    else if loc == "header" then p.(header := p.header + xs)
    else p
  }

  lemma AddAllSnoc(p: Parameters, loc: string, xs: seq<ModSchema>, x: ModSchema)
    ensures AddAll(AddAll(p, loc, xs), loc, [x]) == AddAll(p, loc, xs + [x])
  {
  }

  /** `HttpRequestAttrs`. */
  datatype RequestAttrs = RequestAttrs(globalExcepts: GlobalExcepts, parameters: Parameters, content: map<string, Body>)

  /** `GlobalParameters`, as far as the request node reads it. */
  datatype GlobalParameters = GlobalParameters(query: seq<ModSchema>, cookie: seq<ModSchema>, header: seq<ModSchema>)

  /** `DefinitionModel`: a shared model, the target of `#/definitions/schemas/<id>`. */
  datatype DefinitionModel = DefinitionModel(id: Int64, name: string, schema: Schema)

  /** The model schema as `DerefModel` and `DelRefModel` use it: with the model's id set. */
  function ModelTarget(m: DefinitionModel): (r: Schema)
    ensures r.id == m.id
  {
    m.schema.(id := m.id)
  }

  /** A global parameter survives when its id is not excepted: `Exist` on the location's list is false. */
  function NotExcepted(excepts: Option<seq<Int64>>): ModSchema -> bool
  {
    (p: ModSchema) => !(p.id != 0 && excepts.Some? && p.id in excepts.value)
  }

  /** One location of `DerefGlobalParameters`: with globals, append the non-excepted ones, then clear the exceptions. */
  function ExpandLocation(a: RequestAttrs, loc: string, globals: seq<ModSchema>): RequestAttrs
  {
    if |globals| == 0 then a
    else a.(parameters := AddAll(a.parameters, loc, Lists.Filter(globals, NotExcepted(ExceptList(a.globalExcepts, loc)))),
            globalExcepts := Clear(a.globalExcepts, loc))
  }

  /** `DerefGlobalParameters` on a non-nil set: query, then cookie, then header. */
  function ExpandGlobals(a: RequestAttrs, g: GlobalParameters): RequestAttrs
  {
    ExpandLocation(ExpandLocation(ExpandLocation(a, "query", g.query), "cookie", g.cookie), "header", g.header)
  }

  function GlobalsAt(g: GlobalParameters, loc: string): seq<ModSchema>
  {
    if loc == "query" then g.query else if loc == "cookie" then g.cookie else if loc == "header" then g.header else []
  }

  /**
   * After the expansion, each location that has globals holds its old
   * parameters followed by exactly the globals not excepted there, in order,
   * and its exception list is empty; a location without globals keeps both.
   * The path bucket and the content do not change.
   */
  lemma ExpandGlobalsEffect(a: RequestAttrs, g: GlobalParameters, loc: string)
    requires loc in ExceptLocations
    ensures var r := ExpandGlobals(a, g);
      var globals := GlobalsAt(g, loc);
      && Bucket(r.parameters, loc) == Bucket(a.parameters, loc) + Lists.Filter(globals, NotExcepted(ExceptList(a.globalExcepts, loc)))
      && ExceptList(r.globalExcepts, loc) == (if |globals| > 0 then Some([]) else ExceptList(a.globalExcepts, loc))
      && r.parameters.path == a.parameters.path && r.content == a.content
  {
    var a1 := ExpandLocation(a, "query", g.query);
    var a2 := ExpandLocation(a1, "cookie", g.cookie);
    var a3 := ExpandLocation(a2, "header", g.header);
    ExpandLocationOther(a, "query", g.query, "path");
    ExpandLocationOther(a1, "cookie", g.cookie, "path");
    ExpandLocationOther(a2, "header", g.header, "path");
    if loc == "query" {
      ExpandLocationSelf(a, loc, g.query);
      ExpandLocationOther(a1, "cookie", g.cookie, loc);
      ExpandLocationOther(a2, "header", g.header, loc);
    } else if loc == "cookie" {
      ExpandLocationOther(a, "query", g.query, loc);
      ExpandLocationSelf(a1, loc, g.cookie);
      ExpandLocationOther(a2, "header", g.header, loc);
    } else {
      ExpandLocationOther(a, "query", g.query, loc);
      ExpandLocationOther(a1, "cookie", g.cookie, loc);
      ExpandLocationSelf(a2, loc, g.header);
    }
  }

  lemma ExpandLocationSelf(a: RequestAttrs, loc: string, globals: seq<ModSchema>)
    requires loc in ExceptLocations
    ensures var r := ExpandLocation(a, loc, globals);
      && Bucket(r.parameters, loc) == Bucket(a.parameters, loc) + Lists.Filter(globals, NotExcepted(ExceptList(a.globalExcepts, loc)))
      && ExceptList(r.globalExcepts, loc) == (if |globals| > 0 then Some([]) else ExceptList(a.globalExcepts, loc))
  {
    if |globals| == 0 {
      assert Lists.Filter(globals, NotExcepted(ExceptList(a.globalExcepts, loc))) == [];
    }
  }

  lemma ExpandLocationOther(a: RequestAttrs, loc: string, globals: seq<ModSchema>, l: string)
    requires l != loc
    ensures var r := ExpandLocation(a, loc, globals);
      && Bucket(r.parameters, l) == Bucket(a.parameters, l)
      && ExceptList(r.globalExcepts, l) == ExceptList(a.globalExcepts, l)
      && r.content == a.content
  {
  }

  /** The ids `DeepGetRefID` collects from every body schema, summed over the given keys. */
  ghost function BodiesRefIds(c: map<string, Body>, keys: set<string>): multiset<Int64>
    requires keys <= c.Keys
    decreases keys
  {
    if keys == {} then multiset{}
    else
      var k :| k in keys;
      BodyRefIds(c[k]) + BodiesRefIds(c, keys - {k})
  }

  ghost function BodyRefIds(b: Body): multiset<Int64>
  {
    if b.schema.Some? then Collected(b.schema.value, RefIdOf) else multiset{}
  }

  /** The body sum does not depend on which key is taken first. */
  lemma {:induction false} BodiesRefIdsRemove(c: map<string, Body>, keys: set<string>, k: string)
    requires keys <= c.Keys && k in keys
    ensures BodiesRefIds(c, keys) == BodyRefIds(c[k]) + BodiesRefIds(c, keys - {k})
    decreases keys
  {
    var j :| j in keys && BodiesRefIds(c, keys) == BodyRefIds(c[j]) + BodiesRefIds(c, keys - {j});
    if j != k {
      BodiesRefIdsRemove(c, keys - {j}, k);
      BodiesRefIdsRemove(c, keys - {k}, j);
      assert keys - {j} - {k} == keys - {k} - {j};
    }
  }

  /** The body after `DerefModel`: every reference to the model is overwritten with the model schema. */
  function DerefBody(b: Body, m: DefinitionModel): Body
  {
    if b.schema.Some? then b.(schema := Some(SubstRef(b.schema.value, FormatInt(m.id), ModelTarget(m)))) else b
  }

  /** The body after `helper.DeepDeref` succeeded on its schema; unchanged when it failed or there is no schema. */
  function HelperDerefBody(b: Body, helper: Schema -> Result<Schema>): Body
  {
    if b.schema.Some? && helper(b.schema.value).Ok? then b.(schema := Some(helper(b.schema.value).value)) else b
  }

  /** The body after `DelRefModel`: `DelRef` on its schema. */
  function DelRefBody(b: Body, m: DefinitionModel, ofDelRef: OfDelRef): Body
  {
    if b.schema.Some? then b.(schema := Some(DelRef(b.schema.value, Some(ModelTarget(m)), ofDelRef))) else b
  }

  /** Every body after `DerefModel`. */
  function DerefContent(c: map<string, Body>, m: DefinitionModel): (r: map<string, Body>)
    ensures r.Keys == c.Keys
  {
    map k | k in c :: DerefBody(c[k], m)
  }

  /** Every body after a `DeepDerefModelByHelper` that met no error. */
  function HelperDerefContent(c: map<string, Body>, helper: Schema -> Result<Schema>): (r: map<string, Body>)
    ensures r.Keys == c.Keys
  {
    map k | k in c :: HelperDerefBody(c[k], helper)
  }

  /** Every body after `DelRefModel`. */
  function DelRefContent(c: map<string, Body>, m: DefinitionModel, ofDelRef: OfDelRef): (r: map<string, Body>)
    ensures r.Keys == c.Keys
  {
    map k | k in c :: DelRefBody(c[k], m, ofDelRef)
  }

  /** After `DerefModel`, a model that does not refer to itself is referenced by no body. */
  lemma DerefBodyRemovesRefs(b: Body, m: DefinitionModel)
    requires b.schema.Some? && RefCount(ModelTarget(m), FormatInt(m.id)) == 0
    ensures RefCount(DerefBody(b, m).schema.value, FormatInt(m.id)) == 0
  {
    SubstRefRemovesAll(b.schema.value, FormatInt(m.id), ModelTarget(m));
  }

  /** A body without references to the model is left as it is. */
  lemma DerefBodyWithoutRefs(b: Body, m: DefinitionModel)
    requires b.schema.Some? ==> RefCount(b.schema.value, FormatInt(m.id)) == 0
    ensures DerefBody(b, m) == b
  {
    if b.schema.Some? {
      SubstRefWithoutRefs(b.schema.value, FormatInt(m.id), ModelTarget(m));
    }
  }

  /** After `DelRefModel`, a body whose root referred to the model is an object without `$ref`. */
  lemma DelRefBodyStripsRoot(b: Body, m: DefinitionModel, ofDelRef: OfDelRef)
    requires b.schema.Some? && RefersTo(b.schema.value, ModelTarget(m))
    ensures var s := DelRefBody(b, m, ofDelRef).schema.value; s.ref.None? && s.typ == Some(["object"])
  {
  }

  /** `CollectionHttpRequest`: an operation's request, updated in place. */
  class CollectionHttpRequest {
    var attrs: RequestAttrs

    /** `NewCollectionHttpRequest`: empty exception lists, empty parameters, empty content. */
    constructor ()
      ensures attrs == RequestAttrs(GlobalExcepts([], [], []), Parameters([], [], [], []), map[])
      ensures forall l :: l in ExceptLocations ==> GetGlobalExcept(l) == Some([])
    {
      attrs := RequestAttrs(GlobalExcepts([], [], []), Parameters([], [], [], []), map[]);
    }

    /** `GetGlobalExcept(in)`: the header, cookie or query list; nil for other names. */
    function GetGlobalExcept(loc: string): (r: Option<seq<Int64>>)
      reads this
      ensures r.Some? <==> loc in ExceptLocations
      ensures r.Some? ==> r.value == ToMap(attrs.globalExcepts)[loc]
    {
      ExceptList(attrs.globalExcepts, loc)
    }

    /** `AddGlobalExcept(in, id)`: list the id once at header, cookie or query; ignore other names, including "path". */
    method AddGlobalExcept(loc: string, id: Int64)
      modifies this
      ensures attrs == old(attrs).(globalExcepts := ExceptAdded(old(attrs.globalExcepts), loc, id))
    {
      if loc in ExceptLocations {
        var xs := AppendAbsent(ExceptList(attrs.globalExcepts, loc).value, id);
        attrs := attrs.(globalExcepts := WithExceptList(attrs.globalExcepts, loc, xs));
      }
    }

    /** `Attrs.Parameters.Add(in, p)`: append one parameter to the named bucket. */
    method AddParameter(loc: string, p: ModSchema)
      modifies this
      ensures attrs == old(attrs).(parameters := AddAll(old(attrs.parameters), loc, [p]))
    {
      attrs := attrs.(parameters := AddAll(attrs.parameters, loc, [p]));
    }

    /** `DelGlobalExcept(in, id)`: drop the first occurrence of the id from the named list only. */
    method DelGlobalExcept(loc: string, id: Int64)
      modifies this
      ensures attrs == old(attrs).(globalExcepts := ExceptDeleted(old(attrs.globalExcepts), loc, id))
    {
      if loc in ExceptLocations {
        var xs := ExceptList(attrs.globalExcepts, loc).value;
        if |xs| == 0 {
          return;
        }
        xs := Lists.DeleteFirst(xs, id);
        attrs := attrs.(globalExcepts := WithExceptList(attrs.globalExcepts, loc, xs));
      }
    }

    /**
     * `GetRefModelIDs`: the ids referenced from the body schemas, each once.
     * Bodies are visited in map order, so the order of the ids is not fixed.
     */
    method GetRefModelIDs() returns (r: seq<Int64>)
      ensures Lists.NoDuplicates(r)
      ensures forall v :: v in r <==> v in BodiesRefIds(attrs.content, attrs.content.Keys)
    {
      var c := attrs.content;
      var ids: seq<Int64> := [];
      var keys := c.Keys;
      while keys != {}
        invariant keys <= c.Keys
        invariant multiset(ids) + BodiesRefIds(c, keys) == BodiesRefIds(c, c.Keys)
        decreases keys
      {
        var k :| k in keys;
        BodiesRefIdsRemove(c, keys, k);
        if c[k].schema.Some? {
          var sub := DeepGetRefID(c[k].schema.value);
          ids := ids + sub;
        }
        keys := keys - {k};
      }
      if |ids| == 0 {
        return ids;
      }
      r := Lists.DedupLoop(ids);
      forall v ensures v in r <==> v in multiset(ids) {
        assert v in multiset(ids) <==> v in ids;
      }
    }

    /** The loop of `DerefGlobalParameters` over one location. */
    method DerefLocation(loc: string, globals: seq<ModSchema>)
      modifies this
      ensures attrs == ExpandLocation(old(attrs), loc, globals)
    {
      if |globals| == 0 {
        return;
      }
      var keep := NotExcepted(ExceptList(attrs.globalExcepts, loc));
      ghost var start := attrs;
      for i := 0 to |globals|
        invariant attrs == start.(parameters := AddAll(start.parameters, loc, Lists.Filter(globals[..i], keep)))
      {
        var p := globals[i];
        Lists.FilterSnoc(globals, i, keep);
        var skip := Exist(attrs.globalExcepts, loc, p.id);
        if skip {
          continue;
        }
        AddAllSnoc(start.parameters, loc, Lists.Filter(globals[..i], keep), p);
        attrs := attrs.(parameters := AddAll(attrs.parameters, loc, [p]));
      }
      assert globals[..|globals|] == globals;
      attrs := attrs.(globalExcepts := Clear(attrs.globalExcepts, loc));
    }

    /** `DerefGlobalParameters(params)`: nil changes nothing; otherwise query, cookie and header are expanded. */
    method DerefGlobalParameters(params: Option<GlobalParameters>)
      modifies this
      ensures params.None? ==> attrs == old(attrs)
      ensures params.Some? ==> attrs == ExpandGlobals(old(attrs), params.value)
    {
      if params.None? {
        return;
      }
      DerefLocation("query", params.value.query);
      DerefLocation("cookie", params.value.cookie);
      DerefLocation("header", params.value.header);
    }

    /**
     * `DerefModel(ref)`: a nil model is an error; otherwise every reference
     * to the model in every body is overwritten with the model schema (its
     * id set to the model's). `ReplaceRef` cannot fail on the references the
     * walk finds, so the error return inside the loop is never taken.
     */
    method DerefModel(model: Option<DefinitionModel>) returns (err: Option<string>)
      modifies this
      ensures model.None? ==> err == Some("model is nil") && attrs == old(attrs)
      ensures model.Some? ==> err.None? && attrs == old(attrs).(content := DerefContent(old(attrs.content), model.value))
    {
      if model.None? {
        return Some("model is nil");
      }
      var m := model.value;
      var target := ModelTarget(m);
      var id := FormatInt(m.id);
      var c := attrs.content;
      var keys := c.Keys;
      while keys != {}
        invariant attrs == old(attrs)
        invariant keys <= c.Keys && c.Keys == old(attrs.content).Keys
        invariant forall k :: k in keys ==> c[k] == old(attrs.content)[k]
        invariant forall k :: k in c && k !in keys ==> c[k] == DerefBody(old(attrs.content)[k], m)
        decreases keys
      {
        var k :| k in keys;
        var b := c[k];
        if b.schema.Some? {
          var refs := DeepFindRefById(b.schema.value, id);
          for j := 0 to |refs|
            invariant attrs == old(attrs)
          {
            assert refs[j] in multiset(refs);
            FoundRefsReferToId(b.schema.value, id, refs[j]);
            ReplaceFoundRef(refs[j], target);
            var res := ReplaceRef(Some(refs[j]), Some(target));
          }
        }
        c := c[k := DerefBody(b, m)];
        keys := keys - {k};
      }
      assert c == DerefContent(old(attrs.content), m);
      attrs := attrs.(content := c);
      err := None;
    }

    /**
     * `DeepDerefModelByHelper(helper)`: a nil helper is an error; otherwise
     * each body schema is replaced by the helper's result, and the first
     * failure is returned with the bodies visited before it already replaced.
     */
    method DeepDerefModelByHelper(helper: Option<Schema -> Result<Schema>>) returns (err: Option<string>)
      modifies this
      ensures helper.None? ==> err == Some("helper is nil") && attrs == old(attrs)
      ensures helper.Some? ==> attrs.globalExcepts == old(attrs.globalExcepts) && attrs.parameters == old(attrs.parameters)
      ensures helper.Some? ==> attrs.content.Keys == old(attrs.content.Keys)
      ensures helper.Some? ==> forall k :: k in attrs.content ==>
        attrs.content[k] == old(attrs.content[k]) || attrs.content[k] == HelperDerefBody(old(attrs.content[k]), helper.value)
      ensures helper.Some? && err.None? ==> attrs == old(attrs).(content := HelperDerefContent(old(attrs.content), helper.value))
      ensures helper.Some? && err.None? ==>
        forall k :: k in old(attrs.content) && old(attrs.content[k]).schema.Some? ==> helper.value(old(attrs.content[k]).schema.value).Ok?
      ensures helper.Some? && err.Some? ==>
        exists k :: k in old(attrs.content) && old(attrs.content[k]).schema.Some?
          && helper.value(old(attrs.content[k]).schema.value) == Err(err.value)
    {
      if helper.None? {
        return Some("helper is nil");
      }
      var h := helper.value;
      var keys := attrs.content.Keys;
      while keys != {}
        invariant keys <= attrs.content.Keys && attrs.content.Keys == old(attrs.content).Keys
        invariant attrs.globalExcepts == old(attrs.globalExcepts) && attrs.parameters == old(attrs.parameters)
        invariant forall k :: k in keys ==> attrs.content[k] == old(attrs.content)[k]
        invariant forall k :: k in attrs.content && k !in keys ==>
          attrs.content[k] == HelperDerefBody(old(attrs.content)[k], h)
          && (old(attrs.content)[k].schema.Some? ==> h(old(attrs.content)[k].schema.value).Ok?)
        decreases keys
      {
        var k :| k in keys;
        var b := attrs.content[k];
        if b.schema.Some? {
          var res := h(b.schema.value);
          if res.Err? {
            return Some(res.msg);
          }
          attrs := attrs.(content := attrs.content[k := b.(schema := Some(res.value))]);
        }
        keys := keys - {k};
      }
      assert attrs.content == HelperDerefContent(old(attrs.content), h);
      err := None;
    }

    /**
     * `DeepDerefModel(refs)`: no models changes nothing; otherwise a helper
     * built from the models (`NewDerefHelper`, a parameter here) does the work.
     */
    method DeepDerefModel(refs: seq<DefinitionModel>, newHelper: seq<DefinitionModel> -> (Schema -> Result<Schema>)) returns (err: Option<string>)
      modifies this
      ensures |refs| == 0 ==> err.None? && attrs == old(attrs)
      ensures |refs| > 0 ==> attrs.content.Keys == old(attrs.content.Keys)
      ensures |refs| > 0 ==> forall k :: k in attrs.content ==>
        attrs.content[k] == old(attrs.content[k]) || attrs.content[k] == HelperDerefBody(old(attrs.content[k]), newHelper(refs))
      ensures |refs| > 0 && err.None? ==> attrs == old(attrs).(content := HelperDerefContent(old(attrs.content), newHelper(refs)))
    {
      if |refs| == 0 {
        return None;
      }
      err := DeepDerefModelByHelper(Some(newHelper(refs)));
    }

    /** `DelRefModel(ref)`: nil changes nothing; otherwise `DelRef` is applied to every body schema. */
    method DelRefModel(model: Option<DefinitionModel>, ofDelRef: OfDelRef)
      modifies this
      ensures model.None? ==> attrs == old(attrs)
      ensures model.Some? ==> attrs == old(attrs).(content := DelRefContent(old(attrs.content), model.value, ofDelRef))
    {
      if model.None? {
        return;
      }
      var m := model.value;
      var c := attrs.content;
      var keys := c.Keys;
      while keys != {}
        invariant keys <= c.Keys && c.Keys == old(attrs.content).Keys
        invariant forall k :: k in keys ==> c[k] == old(attrs.content)[k]
        invariant forall k :: k in c && k !in keys ==> c[k] == DelRefBody(old(attrs.content)[k], m, ofDelRef)
        decreases keys
      {
        var k :| k in keys;
        c := c[k := DelRefBody(c[k], m, ofDelRef)];
        keys := keys - {k};
      }
      assert c == DelRefContent(old(attrs.content), m, ofDelRef);
      attrs := attrs.(content := c);
    }
  }
}
