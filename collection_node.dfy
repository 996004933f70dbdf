/**
 * `CollectionNodes` of backend/module/spec/collection_node.go: the list of
 * nodes an operation is stored as (URL, request, response, and other kinds),
 * and the operations that forward to the request and response nodes.
 *
 * `CollectionHttpResponse` is not part of this model. A response node holds a
 * state of type `R`, and what its own methods do to that state is given by
 * the functions of a `ResponseOps` value, so every statement below holds for
 * any implementation of them. `D` is the type of a shared response definition.
 */
module CollectionNodes {
  import opened Wrappers
  import opened Text
  import opened JsonSchema
  import opened ModuleSpec

  /** A response node; its state changes only through `ResponseOps`. */
  class CollectionHttpResponse<R> {
    var state: R

    constructor (s: R)
      ensures state == s
    {
      state := s;
    }
  }

  /** What the response node's methods return: the new state and, where there is one, the error. */
  datatype ResponseOps<!R, !D> = ResponseOps(
    derefModel: (R, Option<DefinitionModel>) -> (R, Option<string>),
    derefResponse: (R, Option<D>) -> (R, Option<string>),
    derefAllResponses: (R, seq<D>) -> (R, Option<string>),
    deepDerefModelByHelper: (R, Schema -> Result<Schema>) -> (R, Option<string>),
    delRefModel: (R, Option<DefinitionModel>) -> R,
    getRefModelIDs: R -> seq<Int64>,
    getRefResponseIDs: R -> seq<Int64>)

  /** One node: `NodeType()` picks the case. */
  datatype Node<R> =
    | UrlNode(httpMethod: string, path: string)
    | RequestNode(req: CollectionHttpRequest)
    | ResponseNode(res: CollectionHttpResponse<R>)
    | OtherNode(typ: string)

  /** Distinct nodes hold distinct objects, as nodes decoded from JSON do. */
  predicate Distinct<R>(ns: seq<Node<R>>)
  {
    && (forall i, j :: 0 <= i < j < |ns| && ns[i].RequestNode? && ns[j].RequestNode? ==> ns[i].req != ns[j].req)
    && (forall i, j :: 0 <= i < j < |ns| && ns[i].ResponseNode? && ns[j].ResponseNode? ==> ns[i].res != ns[j].res)
  }

  function Requests<R>(ns: seq<Node<R>>): set<CollectionHttpRequest>
  {
    set i | 0 <= i < |ns| && ns[i].RequestNode? :: ns[i].req
  }

  function Responses<R>(ns: seq<Node<R>>): set<CollectionHttpResponse<R>>
  {
    set i | 0 <= i < |ns| && ns[i].ResponseNode? :: ns[i].res
  }

  predicate IsActive<R>(n: Node<R>)
  {
    n.RequestNode? || n.ResponseNode?
  }

  /** The index of the first request or response node, which the single-node operations act on. */
  function FirstActive<R>(ns: seq<Node<R>>): (r: Option<nat>)
    ensures r.Some? ==> r.value < |ns| && IsActive(ns[r.value]) && forall j :: 0 <= j < r.value ==> !IsActive(ns[j])
    ensures r.None? ==> forall j :: 0 <= j < |ns| ==> !IsActive(ns[j])
  {
    Lists.FindFirst(ns, (n: Node<R>) => IsActive(n))
  }

  /** The index of the first response node. */
  function FirstResponse<R>(ns: seq<Node<R>>): (r: Option<nat>)
    ensures r.Some? ==> r.value < |ns| && ns[r.value].ResponseNode? && forall j :: 0 <= j < r.value ==> !ns[j].ResponseNode?
    ensures r.None? ==> forall j :: 0 <= j < |ns| ==> !ns[j].ResponseNode?
  {
    Lists.FindFirst(ns, (n: Node<R>) => n.ResponseNode?)
  }

  /** The object of the node at `i`, if it has one. */
  function ObjectAt<R>(ns: seq<Node<R>>, i: Option<nat>): set<object>
  {
    if i.None? || i.value >= |ns| then {}
    else match ns[i.value]
      case RequestNode(q) => {q}
      case ResponseNode(s) => {s}
      case _ => {}
  }

  /** `CollectionNodes.DerefModel(ref)`: the first request or response node expands the model and its result is returned; nothing else is visited. */
  method DerefModel<R, D>(ns: seq<Node<R>>, model: Option<DefinitionModel>, ops: ResponseOps<R, D>) returns (err: Option<string>)
    modifies ObjectAt(ns, FirstActive(ns))
    ensures FirstActive(ns).None? ==> err.None?
    ensures FirstActive(ns).Some? && ns[FirstActive(ns).value].RequestNode? ==>
      var q := ns[FirstActive(ns).value].req;
      && (model.None? ==> err == Some("model is nil") && q.attrs == old(q.attrs))
      && (model.Some? ==> err.None? && q.attrs == old(q.attrs).(content := DerefContent(old(q.attrs.content), model.value)))
    ensures FirstActive(ns).Some? && ns[FirstActive(ns).value].ResponseNode? ==>
      var s := ns[FirstActive(ns).value].res;
      (s.state, err) == ops.derefModel(old(s.state), model)
  {
    for i := 0 to |ns|
      invariant forall j :: 0 <= j < i ==> !IsActive(ns[j])
    {
      match ns[i]
      case RequestNode(q) =>
        err := q.DerefModel(model);
        return;
      case ResponseNode(s) =>
        var (next, e) := ops.derefModel(s.state, model);
        s.state := next;
        return e;
      case _ =>
    }
    return None;
  }

  /** `CollectionNodes.DerefResponse(ref)`: only the first response node acts, and its result is returned. */
  method DerefResponse<R, D>(ns: seq<Node<R>>, ref: Option<D>, ops: ResponseOps<R, D>) returns (err: Option<string>)
    modifies ObjectAt(ns, FirstResponse(ns))
    ensures FirstResponse(ns).None? ==> err.None?
    ensures FirstResponse(ns).Some? ==>
      var s := ns[FirstResponse(ns).value].res;
      (s.state, err) == ops.derefResponse(old(s.state), ref)
  {
    for i := 0 to |ns|
      invariant forall j :: 0 <= j < i ==> !ns[j].ResponseNode?
    {
      if ns[i].ResponseNode? {
        var s := ns[i].res;
        var (next, e) := ops.derefResponse(s.state, ref);
        s.state := next;
        return e;
      }
    }
    return None;
  }

  /** A request after its global parameters are expanded, as `DerefGlobalParameters` leaves it. */
  function Expanded(a: RequestAttrs, params: Option<GlobalParameters>): RequestAttrs
  {
    if params.Some? then ExpandGlobals(a, params.value) else a
  }

  /** A request after `DeepDerefAll` handled it without error. */
  function RequestDone(a: RequestAttrs, params: Option<GlobalParameters>, helper: Schema -> Result<Schema>): RequestAttrs
  {
    var expanded := Expanded(a, params);
    expanded.(content := HelperDerefContent(expanded.content, helper))
  }

  /** The helper expands every body schema of the globals-expanded request. */
  predicate RequestSucceeds(a: RequestAttrs, params: Option<GlobalParameters>, helper: Schema -> Result<Schema>)
  {
    var c := Expanded(a, params).content;
    forall k :: k in c && c[k].schema.Some? ==> helper(c[k].schema.value).Ok?
  }

  /** A response state after `DeepDerefAll` handled it without error. */
  function ResponseDone<R, D>(s: R, responses: seq<D>, helper: Schema -> Result<Schema>, ops: ResponseOps<R, D>): R
  {
    ops.deepDerefModelByHelper(ops.derefAllResponses(s, responses).0, helper).0
  }

  /** Both steps of `DeepDerefAll` on a response state succeed. */
  predicate ResponseSucceeds<R, D>(s: R, responses: seq<D>, helper: Schema -> Result<Schema>, ops: ResponseOps<R, D>)
  {
    ops.derefAllResponses(s, responses).1.None?
    && ops.deepDerefModelByHelper(ops.derefAllResponses(s, responses).0, helper).1.None?
  }

  /** The request branch of `DeepDerefAll`. */
  method HandleRequest(q: CollectionHttpRequest, params: Option<GlobalParameters>, helper: Schema -> Result<Schema>)
    returns (err: Option<string>)
    modifies q
    ensures err.None? <==> RequestSucceeds(old(q.attrs), params, helper)
    ensures err.None? ==> q.attrs == RequestDone(old(q.attrs), params, helper)
    ensures err.Some? ==> var c := Expanded(old(q.attrs), params).content;
      exists k :: k in c && c[k].schema.Some? && helper(c[k].schema.value) == Err(err.value)
  {
    q.DerefGlobalParameters(params);
    err := q.DeepDerefModelByHelper(Some(helper));
  }

  /** The response branch of `DeepDerefAll`: shared responses first, then models, stopping at an error. */
  method HandleResponse<R, D>(s: CollectionHttpResponse<R>, responses: seq<D>, helper: Schema -> Result<Schema>, ops: ResponseOps<R, D>)
    returns (err: Option<string>)
    modifies s
    ensures err.None? <==> ResponseSucceeds(old(s.state), responses, helper, ops)
    ensures err.None? ==> s.state == ResponseDone(old(s.state), responses, helper, ops)
  {
    var (next, e) := ops.derefAllResponses(s.state, responses);
    s.state := next;
    if e.Some? {
      return e;
    }
    var (next2, e2) := ops.deepDerefModelByHelper(s.state, helper);
    s.state := next2;
    return e2;
  }

  /** What a node's object holds: a request's attributes or a response's state. */
  datatype NodeState<R> = RequestState(attrs: RequestAttrs) | ResponseState(state: R) | NoState

  /** The object a node holds, if any. */
  function ObjectOf<R>(n: Node<R>): set<object>
  {
    match n
    case RequestNode(q) => {q}
    case ResponseNode(s) => {s}
    case _ => {}
  }

  function StateOf<R>(n: Node<R>): NodeState<R>
    reads ObjectOf(n)
  {
    match n
    case RequestNode(q) => RequestState(q.attrs)
    case ResponseNode(s) => ResponseState(s.state)
    case _ => NoState
  }

  function States<R>(ns: seq<Node<R>>): (r: seq<NodeState<R>>)
    reads Requests(ns), Responses(ns)
    ensures |r| == |ns| && forall j :: 0 <= j < |ns| ==> r[j] == StateOf(ns[j])
  {
    seq(|ns|, j requires 0 <= j < |ns| reads Requests(ns), Responses(ns) => StateOf(ns[j]))
  }

  /** Under `Distinct`, node `i`'s object is one of the nodes' objects and no other node holds it. */
  lemma ObjectApart<R>(ns: seq<Node<R>>, i: nat)
    requires Distinct(ns) && i < |ns|
    ensures ObjectOf(ns[i]) <= Requests(ns) + Responses(ns)
    ensures forall j :: 0 <= j < |ns| && j != i ==> ObjectOf(ns[j]) !! ObjectOf(ns[i])
  {
    forall j | 0 <= j < |ns| && j != i
      ensures ObjectOf(ns[j]) !! ObjectOf(ns[i])
    {
      if j < i {
        assert ns[j].RequestNode? && ns[i].RequestNode? ==> ns[j].req != ns[i].req;
      }
    }
  }

  /** A node state `DeepDerefAll` produced from `before` without error. */
  predicate Done<R(==), D>(now: NodeState<R>, before: NodeState<R>, params: Option<GlobalParameters>, responses: seq<D>,
                       helper: Schema -> Result<Schema>, ops: ResponseOps<R, D>)
  {
    match before
    case RequestState(a) => now == RequestState(RequestDone(a, params, helper))
    case ResponseState(r) =>
      ResponseSucceeds(r, responses, helper, ops) && now == ResponseState(ResponseDone(r, responses, helper, ops))
    case NoState => now == NoState
  }

  /** One node of `DeepDerefAll`. */
  method DeepDerefNode<R(==), D>(n: Node<R>, params: Option<GlobalParameters>, responses: seq<D>,
                             helper: Schema -> Result<Schema>, ops: ResponseOps<R, D>)
    returns (err: Option<string>)
    modifies ObjectOf(n)
    ensures err.None? ==> Done(StateOf(n), old(StateOf(n)), params, responses, helper, ops)
    ensures err.Some? ==> n.RequestNode? || (n.ResponseNode? && !ResponseSucceeds(old(n.res.state), responses, helper, ops))
  {
    match n
    case RequestNode(q) => err := HandleRequest(q, params, helper);
    case ResponseNode(s) => err := HandleResponse(s, responses, helper, ops);
    case _ => err := None;
  }

  /**
   * `CollectionNodes.DeepDerefAll(params, definitions)`: request nodes get
   * the global parameters and then the models; response nodes get the shared
   * responses and then the models. `helper` is the `DerefHelper` built from
   * the definitions' models. The first error is returned at once: the nodes
   * before `stop` are fully expanded, the nodes after it are untouched, a
   * response node that stopped the walk failed one of its two steps, and
   * there is no error exactly when every node was handled.
   */
  method DeepDerefAll<R(==), D>(ns: seq<Node<R>>, params: Option<GlobalParameters>, responses: seq<D>,
                            helper: Schema -> Result<Schema>, ops: ResponseOps<R, D>)
    returns (err: Option<string>, ghost stop: nat)
    requires Distinct(ns)
    modifies Requests(ns), Responses(ns)
    ensures stop <= |ns| && (err.None? <==> stop == |ns|)
    ensures forall j :: 0 <= j < stop ==> Done(StateOf(ns[j]), old(States(ns))[j], params, responses, helper, ops)
    ensures forall j :: stop < j < |ns| ==> StateOf(ns[j]) == old(States(ns))[j]
    ensures stop < |ns| ==> ns[stop].RequestNode? || (ns[stop].ResponseNode? && !ResponseSucceeds(old(ns[stop].res.state), responses, helper, ops))
  {
    ghost var before := States(ns);
    var i := 0;
    while i < |ns|
      invariant i <= |ns|
      invariant forall j :: 0 <= j < i ==> Done(StateOf(ns[j]), before[j], params, responses, helper, ops)
      invariant forall j :: i <= j < |ns| ==> StateOf(ns[j]) == before[j]
    {
      ObjectApart(ns, i);
      var e := DeepDerefNode(ns[i], params, responses, helper, ops);
      if e.Some? {
        return e, i;
      }
      i := i + 1;
    }
    return None, i;
  }

  /**
   * `CollectionNodes.DerefGlobalParameter(in, param)`, and `AddReqParameter`,
   * which has the same body: nil changes nothing; otherwise every request
   * node gets the parameter appended to the named bucket.
   */
  method DerefGlobalParameter<R>(ns: seq<Node<R>>, loc: string, param: Option<ModSchema>)
    requires Distinct(ns)
    modifies Requests(ns)
    ensures forall j :: 0 <= j < |ns| && ns[j].RequestNode? ==>
      ns[j].req.attrs == if param.None? then old(ns[j].req.attrs)
                         else old(ns[j].req.attrs).(parameters := AddAll(old(ns[j].req.attrs.parameters), loc, [param.value]))
  {
    if param.None? {
      return;
    }
    for i := 0 to |ns|
      invariant forall j :: 0 <= j < i && ns[j].RequestNode? ==>
        ns[j].req.attrs == old(ns[j].req.attrs).(parameters := AddAll(old(ns[j].req.attrs.parameters), loc, [param.value]))
      invariant forall j :: i <= j < |ns| && ns[j].RequestNode? ==> ns[j].req.attrs == old(ns[j].req.attrs)
    {
      if ns[i].RequestNode? {
        ns[i].req.AddParameter(loc, param.value);
      }
    }
  }

  /** `CollectionNodes.DerefGlobalParameters(params)`: nil changes nothing; otherwise every request node expands them. */
  method DerefGlobalParameters<R>(ns: seq<Node<R>>, params: Option<GlobalParameters>)
    requires Distinct(ns)
    modifies Requests(ns)
    ensures forall j :: 0 <= j < |ns| && ns[j].RequestNode? ==>
      ns[j].req.attrs == if params.None? then old(ns[j].req.attrs) else ExpandGlobals(old(ns[j].req.attrs), params.value)
  {
    if params.None? {
      return;
    }
    for i := 0 to |ns|
      invariant forall j :: 0 <= j < i && ns[j].RequestNode? ==> ns[j].req.attrs == ExpandGlobals(old(ns[j].req.attrs), params.value)
      invariant forall j :: i <= j < |ns| && ns[j].RequestNode? ==> ns[j].req.attrs == old(ns[j].req.attrs)
    {
      if ns[i].RequestNode? {
        ObjectApart(ns, i);
        ns[i].req.DerefGlobalParameters(params);
      }
    }
  }

  /** `CollectionNodes.DelRefModel(ref)`: every request and every response node drops its references to the model. */
  method DelRefModel<R, D>(ns: seq<Node<R>>, model: Option<DefinitionModel>, ofDelRef: OfDelRef, ops: ResponseOps<R, D>)
    requires Distinct(ns)
    modifies Requests(ns), Responses(ns)
    ensures forall j :: 0 <= j < |ns| && ns[j].RequestNode? ==>
      ns[j].req.attrs == if model.None? then old(ns[j].req.attrs)
                         else old(ns[j].req.attrs).(content := DelRefContent(old(ns[j].req.attrs.content), model.value, ofDelRef))
    ensures forall j :: 0 <= j < |ns| && ns[j].ResponseNode? ==> ns[j].res.state == ops.delRefModel(old(ns[j].res.state), model)
  {
    for i := 0 to |ns|
      invariant forall j :: 0 <= j < i && ns[j].RequestNode? ==>
        ns[j].req.attrs == if model.None? then old(ns[j].req.attrs)
                           else old(ns[j].req.attrs).(content := DelRefContent(old(ns[j].req.attrs.content), model.value, ofDelRef))
      invariant forall j :: 0 <= j < i && ns[j].ResponseNode? ==> ns[j].res.state == ops.delRefModel(old(ns[j].res.state), model)
      invariant forall j :: i <= j < |ns| && ns[j].RequestNode? ==> ns[j].req.attrs == old(ns[j].req.attrs)
      invariant forall j :: i <= j < |ns| && ns[j].ResponseNode? ==> ns[j].res.state == old(ns[j].res.state)
    {
      match ns[i]
      case RequestNode(q) => q.DelRefModel(model, ofDelRef);
      case ResponseNode(s) => s.state := ops.delRefModel(s.state, model);
      case _ =>
    }
  }

  /** `CollectionNodes.DelGlobalExcept(in, id)`: every request node drops the first occurrence of the id at that location. */
  method DelGlobalExcept<R>(ns: seq<Node<R>>, loc: string, id: Int64)
    requires Distinct(ns)
    modifies Requests(ns)
    ensures forall j :: 0 <= j < |ns| && ns[j].RequestNode? ==>
      ns[j].req.attrs == old(ns[j].req.attrs).(globalExcepts := ExceptDeleted(old(ns[j].req.attrs.globalExcepts), loc, id))
  {
    for i := 0 to |ns|
      invariant forall j :: 0 <= j < i && ns[j].RequestNode? ==>
        ns[j].req.attrs == old(ns[j].req.attrs).(globalExcepts := ExceptDeleted(old(ns[j].req.attrs.globalExcepts), loc, id))
      invariant forall j :: i <= j < |ns| && ns[j].RequestNode? ==> ns[j].req.attrs == old(ns[j].req.attrs)
    {
      if ns[i].RequestNode? {
        ns[i].req.DelGlobalExcept(loc, id);
      }
    }
  }

  /** What one node contributes to `GetRefModelIDs`: a request's ids each once, a response's as its method returns them. */
  ghost predicate NodeRefIds<R, D>(n: Node<R>, part: seq<Int64>, ops: ResponseOps<R, D>)
    reads if n.RequestNode? then {n.req} else {}, if n.ResponseNode? then {n.res} else {}
  {
    match n
    case RequestNode(q) =>
      Lists.NoDuplicates(part) && forall v :: v in part <==> v in BodiesRefIds(q.attrs.content, q.attrs.content.Keys)
    case ResponseNode(s) => part == ops.getRefModelIDs(s.state)
    case _ => part == []
  }

  function Concat(parts: seq<seq<Int64>>): seq<Int64>
  {
    if |parts| == 0 then [] else Concat(parts[..|parts| - 1]) + parts[|parts| - 1]
  }

  /**
   * `CollectionNodes.GetRefModelIDs`: the node results concatenated in node
   * order, with no removal of ids repeated across nodes.
   */
  method GetRefModelIDs<R, D>(ns: seq<Node<R>>, ops: ResponseOps<R, D>) returns (ids: seq<Int64>, ghost parts: seq<seq<Int64>>)
    ensures |parts| == |ns| && ids == Concat(parts)
    ensures forall j :: 0 <= j < |ns| ==> NodeRefIds(ns[j], parts[j], ops)
  {
    ids, parts := [], [];
    for i := 0 to |ns|
      invariant |parts| == i && ids == Concat(parts)
      invariant forall j :: 0 <= j < i ==> NodeRefIds(ns[j], parts[j], ops)
    {
      var part: seq<Int64> := [];
      match ns[i] {
        case RequestNode(q) => part := q.GetRefModelIDs();
        case ResponseNode(s) => part := ops.getRefModelIDs(s.state);
        case _ =>
      }
      assert (parts + [part])[..i] == parts;
      parts := parts + [part];
      ids := ids + part;
    }
  }

  /** The ids a response node contributes appear in the concatenation unchanged, duplicates included. */
  lemma {:induction false} ConcatKeepsPart(parts: seq<seq<Int64>>, j: nat)
    requires j < |parts|
    ensures multiset(parts[j]) <= multiset(Concat(parts))
  {
    var n := |parts| - 1;
    if j < n {
      assert parts[..n][j] == parts[j];
      ConcatKeepsPart(parts[..n], j);
    }
  }

  /** `CollectionNodes.GetRefResponseIDs`: the first response node's ids, or nil when there is none. */
  function GetRefResponseIDs<R, D>(ns: seq<Node<R>>, ops: ResponseOps<R, D>): (r: Option<seq<Int64>>)
    reads Responses(ns)
    ensures r.None? <==> forall j :: 0 <= j < |ns| ==> !ns[j].ResponseNode?
    ensures r.Some? ==> (exists i :: 0 <= i < |ns| && ns[i].ResponseNode? && r.value == ops.getRefResponseIDs(ns[i].res.state) && forall j :: 0 <= j < i ==> !ns[j].ResponseNode?)
  {
    match FirstResponse(ns)
    case None => None
    case Some(i) => Some(ops.getRefResponseIDs(ns[i].res.state))
  }

  /** `CollectionNodes.GetUrlInfo`: method and path of the first URL node, or two empty strings. */
  function GetUrlInfo<R>(ns: seq<Node<R>>): (r: (string, string))
    ensures (forall j :: 0 <= j < |ns| ==> !ns[j].UrlNode?) ==> r == ("", "")
    ensures forall i :: 0 <= i < |ns| && ns[i].UrlNode? && (forall j :: 0 <= j < i ==> !ns[j].UrlNode?) ==>
      r == (ns[i].httpMethod, ns[i].path)
  {
    match Lists.FindFirst(ns, (n: Node<R>) => n.UrlNode?)
    case None => ("", "")
    case Some(i) => (ns[i].httpMethod, ns[i].path)
  }
}
