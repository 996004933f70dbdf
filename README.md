# ApiCat API-description engine in Dafny

ApiCat stores every API operation as a tree of nodes: a URL node, a request node (parameters in four buckets, global-parameter exceptions, bodies by MIME type) and a response node (a list of responses by status code). Bodies and parameters carry JSON-Schema trees whose `$ref`s point at shared models (`#/definitions/schemas/<id>`) and shared responses (`#/definitions/responses/<id>`). This project models the Go backend's engine over those trees, in five parts:

1. **The JSON-Schema node** (`JsonSchema`, `SchemaWalk`, `SchemaEqual`). It covers the recursive schema record and its `$ref` operations: finding and collecting references, inlining one (`ReplaceRef`), stripping one (`DelRef`), validating, marking for a diff and comparing. The recursive walks are characterised by the paths of steps through compositions, properties and non-boolean `items`.
2. **The revision diff** (`Diff`). The newer operation is annotated with "+", "-" and "!". With `del`, entries that only the older side has are copied back in, tagged "-".
3. **The operation containers** (`CommonSpec`, `ModuleSpec`, `CollectionNodes`):
   - the parameter buckets;
   - the per-location exception lists for global parameters;
   - response lists keyed by code;
   - the expansion of global parameters, shared models and shared responses into an operation.
4. **The format converters**, each a mapping between plain records (`Spec2` holds the records):
   - Swagger 2.0 import and export (`SwaggerParse`, `SwaggerGenerate`);
   - OpenAPI 3.x import and export (`OpenApiParse`, `OpenApiGenerate`);
   - Postman Collection import (`PostmanImport`).
5. **Two small helpers**:
   - building the category tree from flat parent-id rows, with the "selected" flag of an iteration view (`CollectionTree`);
   - rewriting `#/definitions/schemas/<id>` to model names in a stored document (`DefinitionNames`).

The model's form follows the source:
- Go objects whose methods update their fields are classes with `modifies` clauses: the request nodes, the parameter and response containers, the parsers and the exporters.
- Every Go loop is a method with a loop, proved equal to a specification function. The properties the source promises are lemmas about that function.
- The schema trees that Go rewrites through pointers are values: each rewrite is a function from the old tree to the new one.

Go's map iteration order is arbitrary. A map the source only ranges over is given as the sequence of its entries in some order. A map that is also looked up is visited in an order supplied by a `KeyOrder` function that enumerates its keys. Every statement holds for every order.

Most helpers outside the modelled files are function-valued parameters, so every statement holds for any implementation of them. These helpers are:
- `stringToUnid`, `jsonSchemaConverter`, `convertJsonSchemaRef`, `toParameter`, `globalToLocalParameters`, `isGlobalParameter`, `ItemsTreeToList`;
- `SchemaType.Equal` and `IsOneDimensional`;
- `Of.DelRef`, `DerefHelper.DeepDeref`;
- the response node's own methods;
- Postman's `jsonToSchema`, `toParameter` and `toJSONSchema`, and `url.Parse`.

Three helpers outside the modelled files are given fixed definitions instead, and the statements that use them hold only for those definitions: the module/spec `HTTPParameters.Add` (`ModuleSpec.AddAll`) and `SchemaType.List` and `SchemaType.First` (`JsonSchema.TypeList`, `JsonSchema.TypeFirst`). "## Left out" names them.

`Int64` stands for Go's `int64`. `strconv.Atoi`, `strconv.ParseInt` and `strconv.Itoa` are written out in `Text`.

## Model

| member | source | states |
|---|---|---|
| JsonSchema.NewSchema | backend/module/spec/jsonschema/schema.go:76-86 | a fresh node has no `$ref`, no items and no properties, and its single type is the given name, or `object` for the empty name |
| JsonSchema.IsRefID | backend/module/spec/jsonschema/schema.go:143-155 | true exactly when the node is non-nil, carries a `$ref`, and the given id is the text after the last "/" of it |
| JsonSchema.GetRefID | backend/module/spec/jsonschema/schema.go:195-206 | succeeds exactly when there is a `$ref` containing "/", and then yields the integer parse of the text after the last "/" |
| JsonSchema.GetRefIDNonNumeric | backend/module/spec/jsonschema/schema.go:202-204 | because the parse error is discarded, a non-numeric last segment reads as id 0 with no error |
| JsonSchema.SetDefinitionModelRef | backend/module/spec/jsonschema/schema.go:555-558 | only the `$ref` changes, and the node then refers to the given id |
| JsonSchema.DefinitionModelRefRoundTrip | backend/module/spec/jsonschema/schema.go:195-206 | a model reference built from a numeric id reads back as exactly that id (set then get is the identity) |
| JsonSchema.Clone | backend/module/spec/jsonschema/schema.go:569-582 | the copy is equal to the original, and cloning nil is the only error |
| JsonSchema.ReplaceRef | backend/module/spec/jsonschema/schema.go:246-261 | succeeds exactly when the node is a reference, the target is non-nil and the reference's id equals the target's id; the node then becomes the target; each failure has its own message |
| JsonSchema.RefIDReadsBack | backend/module/spec/jsonschema/schema.go:143-155 | a node that `IsRefID` accepts for the decimal form of an id yields that id from `GetRefID` (the two readers agree) |
| JsonSchema.ReplaceFoundRef | backend/module/spec/jsonschema/schema.go:246-261 | every node `IsRefID` finds for a target can be replaced by that target |
| JsonSchema.ReplaceModelRef | backend/module/spec/jsonschema/schema.go:246-261 | a model reference to a target's id is always replaceable by that target |
| JsonSchema.DelXOrderByName | backend/module/spec/jsonschema/schema.go:308-323 | the empty name changes nothing; otherwise exactly the first occurrence of the name leaves `x-apicat-orders` and nothing else changes |
| JsonSchema.DelRequiredByName | backend/module/spec/jsonschema/schema.go:325-340 | the empty name changes nothing; otherwise exactly the first occurrence of the name leaves `required` and nothing else changes |
| JsonSchema.DelRefComposition | backend/module/spec/jsonschema/schema.go:276-293 | an empty composition list changes nothing, a typed node keeps its type, and an untyped node whose list is emptied takes the target's type |
| JsonSchema.DelRefNode | backend/module/spec/jsonschema/schema.go:263-306 | a reference to the target becomes an untyped-reference `object` node; otherwise the `$ref`, the property names and an existing type are kept, every property is processed, and an `items` reference to the target becomes a fresh node of the target's first type |
| JsonSchema.DelRef | backend/module/spec/jsonschema/schema.go:263-267 | a nil target changes nothing, and a node referring to the target loses its `$ref` and becomes `object` |
| JsonSchema.DelRefEmptiedCompositionTakesType | backend/module/spec/jsonschema/schema.go:276-281 | an untyped node whose `allOf` is emptied by the removal takes the target's type |
| JsonSchema.DelRefClearsPropertyRefs | backend/module/spec/jsonschema/schema.go:295-299 | after the removal no node reachable through property names refers to the target any more |
| JsonSchema.Valid | backend/module/spec/jsonschema/schema.go:459-480 | nil is invalid and any reference is valid |
| JsonSchema.UnknownTypeInvalid | backend/module/spec/jsonschema/schema.go:468-477 | an unknown type name reached after scalar names makes the node invalid |
| JsonSchema.FirstContainerTypeDecides | backend/module/spec/jsonschema/schema.go:468-477 | the first `array` or `object` name decides validity through `checkArray` or `checkObject`; later names are never examined |
| JsonSchema.ScalarTypesValid | backend/module/spec/jsonschema/schema.go:468-479 | a node whose type names are all scalar is valid |
| JsonSchema.ObjectWithoutAdditionalPropertiesValid | backend/module/spec/jsonschema/schema.go:482-486 | `checkObject` accepts any object without `additionalProperties` |
| JsonSchema.ValidObjectOrdersCoverProperties | backend/module/spec/jsonschema/schema.go:487-504 | a valid object with `additionalProperties` and non-empty orders lists every property name in its orders |
| JsonSchema.Mark | backend/module/spec/jsonschema/schema.go:524-553 | marking keeps the shape: the property names, the composition lengths and whether `items` is a schema |
| JsonSchema.SetXDiff | backend/module/spec/jsonschema/schema.go:524-528 | the empty marker changes nothing; any other marker is set on the node |
| JsonSchema.MarkLastWins | backend/module/spec/jsonschema/schema.go:524-553 | marking twice equals marking once with the later marker |
| JsonSchema.MarkListsLastWins | backend/module/spec/jsonschema/schema.go:529-543 | the same for the three composition lists |
| JsonSchema.MarkPropsLastWins | backend/module/spec/jsonschema/schema.go:544-548 | the same for the properties |
| JsonSchema.SetXDiffTwice | backend/module/spec/jsonschema/schema.go:524-553 | `SetXDiff` is idempotent, and a later non-empty marker overrides an earlier one |
| JsonSchema.SetXDiffOnlyMarks | backend/module/spec/jsonschema/schema.go:524-553 | marking changes nothing but markers: clearing them afterwards gives the original tree with markers cleared |
| JsonSchema.MarkKeepsValidity | backend/module/spec/jsonschema/schema.go:459-553 | validity does not depend on the diff markers |
| JsonSchema.MarkKeepsValidTypes | backend/module/spec/jsonschema/schema.go:468-479 | the type scan gives the same verdict on a marked node |
| SchemaWalk.DeepRefIsAnyNode | backend/module/spec/jsonschema/schema.go:101-141 | the recursion of `DeepRef` is the walk over compositions, properties and non-boolean items asking whether some node is a reference |
| SchemaWalk.DeepRefIffRefReachable | backend/module/spec/jsonschema/schema.go:101-141 | `DeepRef` holds exactly when some node reachable by a path of walk steps carries a `$ref` |
| SchemaWalk.RefDrivesWalks | backend/module/spec/jsonschema/schema.go:99-102 | `Ref()` (non-nil with a `$ref`) at a node implies `DeepRef()` there, and a tree with no `Ref()` node anywhere gives `DeepGetRefID` no ids and `DeepFindRefById` no nodes |
| SchemaWalk.DeepCheckAllOfIsAnyNode | backend/module/spec/jsonschema/schema.go:342-380 | `DeepCheckAllOf`, which does not search inside allOf members, still equals "some walked node has a non-empty allOf" |
| SchemaWalk.DeepCheckAllOfIffReachable | backend/module/spec/jsonschema/schema.go:342-380 | `DeepCheckAllOf` holds exactly when some reachable node has a non-empty allOf |
| SchemaWalk.MarkAt | backend/module/spec/jsonschema/schema.go:524-553 | marking keeps every path of the tree, and the node at each path is the marked old node |
| SchemaWalk.SetXDiffMarksEveryNode | backend/module/spec/jsonschema/schema.go:524-553 | a non-empty marker lands on every node reachable through compositions, properties and non-boolean items |
| SchemaWalk.DeepGetRefID | backend/module/spec/jsonschema/schema.go:208-244 | the ids returned are, as a multiset, the readable reference ids met by the walk, which does not descend below a reference whose id it read |
| SchemaWalk.RefIDsOfList | backend/module/spec/jsonschema/schema.go:218-232 | the loop over one composition list collects the ids of each member in turn |
| SchemaWalk.RefIDsOfProperties | backend/module/spec/jsonschema/schema.go:234-238 | the loop over the property values collects the same multiset whatever the map order |
| SchemaWalk.DeepFindRefById | backend/module/spec/jsonschema/schema.go:157-193 | the nodes returned are, as a multiset, the references to the id met by the walk, which stops at each of them |
| SchemaWalk.RefsOfList | backend/module/spec/jsonschema/schema.go:167-181 | the loop over one composition list collects the matches of each member in turn |
| SchemaWalk.RefsOfProperties | backend/module/spec/jsonschema/schema.go:183-187 | the loop over the property values collects the same multiset whatever the map order |
| SchemaWalk.CollectedFromNode | backend/module/spec/jsonschema/schema.go:157-244 | every value a deep walk collects comes from a node reachable by some path |
| SchemaWalk.CollectedComplete | backend/module/spec/jsonschema/schema.go:157-244 | every node reached through nodes that answer nothing contributes its answer: the walk misses no such node |
| SchemaWalk.CollectedIff | backend/module/spec/jsonschema/schema.go:157-244 | a value is collected exactly when it is the answer at a node reached through nodes that answer nothing |
| SchemaWalk.DeepGetRefIDIff | backend/module/spec/jsonschema/schema.go:208-244 | an id is returned exactly when a node with that readable reference id is reached without passing a node whose id was read |
| SchemaWalk.DeepFindRefByIdIff | backend/module/spec/jsonschema/schema.go:157-193 | a node is returned exactly when it refers to the id and is reached without passing another node that refers to it |
| SchemaWalk.FoundRefsReferToId | backend/module/spec/jsonschema/schema.go:157-193 | every node `DeepFindRefById(id)` returns satisfies `IsRefID(id)` |
| SchemaWalk.RefIdsImplyDeepRef | backend/module/spec/jsonschema/schema.go:101-141 | a tree from which `DeepGetRefID` collects an id satisfies `DeepRef` |
| SchemaWalk.FoundRefsImplyDeepRef | backend/module/spec/jsonschema/schema.go:101-141 | a tree in which `DeepFindRefById` finds a node satisfies `DeepRef` |
| SchemaWalk.SubstRefRemovesAll | backend/module/spec/collection_http_request.go:221-240 | overwriting every found reference with a target that holds no reference to the id leaves no reference to the id behind |
| SchemaWalk.SubstRefWithoutRefs | backend/module/spec/collection_http_request.go:221-240 | a tree without references to the id is left unchanged by the overwrite |
| ModuleSpec.Lookup | backend/module/spec/schema.go:24-34 | nil for a nil list or when no entry has the name; otherwise the first entry with that name |
| ModuleSpec.LookupID | backend/module/spec/schema.go:36-46 | nil for a nil list or when no entry has the id; otherwise the first entry with that id |
| ModuleSpec.LookupKeepsRef | backend/module/spec/schema.go:20-46 | a wrapper that is a `Ref()` comes back from `Lookup` by its name, and from `LookupID` by its id, as that same unresolved reference when no earlier entry shares the name or id |
| ModuleSpec.Length | backend/module/spec/schema.go:48-50 | the count is zero exactly when no name can be looked up, and a non-empty list finds its first entry by its name and by its id |
| Text.ParseInt | backend/module/spec/jsonschema/schema.go:202 | `strconv.ParseInt(s, 10, 64)`: a sign then digits gives the signed value, or the range error clamped to the bound of its sign; an empty or non-digit magnitude is a syntax error |
| Text.ParseIntJunk | backend/module/spec/jsonschema/schema.go:202 | digits then a non-digit: a syntax error when the digits before it fit in 64 bits, otherwise the range error, which the left-to-right scan meets first |
| Text.OverflowBeforeJunk | backend/module/spec/jsonschema/schema.go:202 | twenty-one nines followed by a letter is a range error clamped to the largest `int64`, not a syntax error |
| Text.LeadingDigitBound | backend/module/spec/jsonschema/schema.go:202 | digits without a leading zero are worth at least the place value of the first digit |
| ModuleSpec.BodiesSetXDiff | backend/module/spec/body.go:17-21 | every body schema is marked as `SetXDiff` marks it, nil schemas are tolerated, the keys and examples are untouched, and the empty marker changes nothing |
| ModuleSpec.BodySchemaMarkedEverywhere | backend/module/spec/body.go:17-21 | a non-empty marker reaches every node of every body schema |
| ModuleSpec.ExceptList | backend/module/spec/collection_http_request.go:68-78 | a list exists exactly for header, cookie and query |
| ModuleSpec.Exist | backend/module/spec/collection_http_request.go:287-313 | false for id 0 and for unknown locations; otherwise membership in that location's list |
| ModuleSpec.ToMap | backend/module/spec/collection_http_request.go:315-321 | exactly the three locations, each mapped to its own list |
| ModuleSpec.Clear | backend/module/spec/collection_http_request.go:323-332 | the named list becomes empty; the other lists, and everything for an unknown name, are unchanged |
| ModuleSpec.AppendAbsent | backend/module/spec/collection_http_request.go:92-128 | the loop returns the list unchanged when the id is already there and otherwise appends it once |
| ModuleSpec.ExceptAddedKeepsSet | backend/module/spec/collection_http_request.go:92-128 | adding keeps each exception list duplicate-free and lists the id, re-adding is a no-op, and other locations are untouched |
| ModuleSpec.ExceptDeletedDropsOne | backend/module/spec/collection_http_request.go:130-163 | deleting removes exactly the first occurrence of the id from the named list and nothing from the others |
| ModuleSpec.AddThenDeleteRestores | backend/module/spec/collection_http_request.go:92-163 | adding an unlisted id and deleting it again restores the exceptions |
| ModuleSpec.AddAll | backend/module/spec/collection_http_request.go:187-219 | the items are appended to the named parameter bucket, the other buckets are unchanged, and an unknown location changes nothing |
| ModuleSpec.ModelTarget | backend/module/spec/collection_http_request.go:225 | the schema used for inlining carries the model's own id |
| ModuleSpec.ExpandGlobalsEffect | backend/module/spec/collection_http_request.go:187-219 | a location that has globals ends with its old parameters followed by exactly the non-excepted globals, in order, and an empty exception list; a location without globals keeps both; path parameters and content are unchanged |
| ModuleSpec.DerefBodyRemovesRefs | backend/module/spec/collection_http_request.go:221-240 | after inlining a model that does not refer to itself, the body no longer references it |
| ModuleSpec.DerefBodyWithoutRefs | backend/module/spec/collection_http_request.go:221-240 | a body without references to the model is unchanged |
| ModuleSpec.DelRefBodyStripsRoot | backend/module/spec/collection_http_request.go:274-285 | a body whose root referenced the model becomes an `object` schema without `$ref` |
| ModuleSpec.CollectionHttpRequest.constructor | backend/module/spec/collection_http_request.go:35-62 | a new request has empty header, cookie and query exception lists, empty parameter buckets and no content |
| ModuleSpec.CollectionHttpRequest.GetGlobalExcept | backend/module/spec/collection_http_request.go:68-78 | header, cookie and query give their lists, which agree with `ToMap`; other names give nil |
| ModuleSpec.CollectionHttpRequest.AddGlobalExcept | backend/module/spec/collection_http_request.go:92-128 | the new exceptions are the old ones with the id listed once at that location (see `ExceptAddedKeepsSet`); unknown locations and "path" are ignored |
| ModuleSpec.CollectionHttpRequest.AddParameter | backend/module/spec/collection_http_request.go:197 | one parameter is appended to the named bucket and nothing else changes |
| ModuleSpec.CollectionHttpRequest.DelGlobalExcept | backend/module/spec/collection_http_request.go:130-163 | only the first occurrence of the id leaves the named list (see `ExceptDeletedDropsOne`) |
| ModuleSpec.CollectionHttpRequest.GetRefModelIDs | backend/module/spec/collection_http_request.go:165-185 | the result holds no duplicates and holds exactly the ids referenced from the body schemas |
| ModuleSpec.CollectionHttpRequest.DerefLocation | backend/module/spec/collection_http_request.go:193-217 | the loop over one location has the effect `ExpandGlobalsEffect` describes |
| ModuleSpec.CollectionHttpRequest.DerefGlobalParameters | backend/module/spec/collection_http_request.go:187-219 | nil changes nothing; otherwise query, cookie and header are expanded as `ExpandGlobalsEffect` describes |
| ModuleSpec.CollectionHttpRequest.DerefModel | backend/module/spec/collection_http_request.go:221-240 | a nil model is an error that changes nothing; otherwise every reference to the model in every body is replaced by the model schema and no error occurs |
| ModuleSpec.CollectionHttpRequest.DeepDerefModelByHelper | backend/module/spec/collection_http_request.go:251-266 | a nil helper is an error; otherwise only content changes, each body visited before the first failure holds the helper's result, and without failure every body does |
| ModuleSpec.CollectionHttpRequest.DeepDerefModel | backend/module/spec/collection_http_request.go:242-249 | no models changes nothing; otherwise the helper built from the models rewrites the bodies as above |
| ModuleSpec.CollectionHttpRequest.DelRefModel | backend/module/spec/collection_http_request.go:274-285 | nil changes nothing; otherwise `DelRef` is applied to every body schema and nothing else changes |
| CollectionNodes.CollectionHttpResponse.constructor | backend/module/spec/collection_node.go:35-37 | a response node holds the given response state |
| CollectionNodes.FirstActive | backend/module/spec/collection_node.go:39-48 | the index of the first request or response node, with no such node before it, or none when there is none |
| CollectionNodes.FirstResponse | backend/module/spec/collection_node.go:100-108 | the index of the first response node, or none when there is none |
| CollectionNodes.DerefModel | backend/module/spec/collection_node.go:39-49 | only the first request or response node expands the model, and its result is returned; without such a node the result is no error |
| CollectionNodes.DerefResponse | backend/module/spec/collection_node.go:100-108 | only the first response node expands the shared response, and its result is returned; without one the result is no error |
| CollectionNodes.HandleRequest | backend/module/spec/collection_node.go:56-60 | a request first gets the global parameters, then the models through the helper; it succeeds exactly when the helper expands every body schema of the globals-expanded request, and then the attributes are both expansions applied in that order; an error is the error of some failing body schema |
| CollectionNodes.HandleResponse | backend/module/spec/collection_node.go:61-68 | a response gets the shared responses, then the models; it succeeds exactly when both steps do, and then holds both expansions |
| CollectionNodes.States | backend/module/spec/collection_node.go:51-72 | a snapshot of every node's state, index by index |
| CollectionNodes.ObjectApart | backend/module/spec/collection_node.go:51-72 | distinct nodes hold distinct objects, so changing one node leaves every other node alone |
| CollectionNodes.DeepDerefNode | backend/module/spec/collection_node.go:54-70 | one node is fully expanded when no error occurs, and an error comes from a request or from a failing response |
| CollectionNodes.DeepDerefAll | backend/module/spec/collection_node.go:51-72 | the first error stops the walk: the nodes before it are fully expanded, the nodes after it are untouched, and no error means every node was expanded |
| CollectionNodes.DerefGlobalParameter | backend/module/spec/collection_node.go:74-85 | nil changes nothing; otherwise every request node gets the parameter appended to the named bucket, and non-request nodes are untouched; `AddReqParameter` (collection_node.go lines 172-183) has the same body and is the same member |
| CollectionNodes.DerefGlobalParameters | backend/module/spec/collection_node.go:87-98 | nil changes nothing; otherwise every request node expands the global parameters |
| CollectionNodes.DelRefModel | backend/module/spec/collection_node.go:110-119 | every request node and every response node drops its references to the model |
| CollectionNodes.DelGlobalExcept | backend/module/spec/collection_node.go:130-137 | every request node drops the first occurrence of the id at that location |
| CollectionNodes.GetRefModelIDs | backend/module/spec/collection_node.go:149-160 | the concatenation, in node order, of each node's ids, with no removal of ids repeated across nodes |
| CollectionNodes.ConcatKeepsPart | backend/module/spec/collection_node.go:149-160 | every node's ids appear in the result with their multiplicities |
| CollectionNodes.GetRefResponseIDs | backend/module/spec/collection_node.go:162-170 | the ids of the first response node, or nil exactly when there is no response node |
| CollectionNodes.GetUrlInfo | backend/module/spec/collection_node.go:194-202 | the method and path of the first URL node, or two empty strings when there is none |
| CollectionTree.Matching | backend/route/api/collection/func.go:58-59 | only rows whose parent id is the given one are kept, each one a row of the input |
| CollectionTree.MatchingMembers | backend/route/api/collection/func.go:58-59 | a row is kept exactly when it is one of the input rows and its parent id is the given one |
| CollectionTree.MatchingAppend | backend/route/api/collection/func.go:58-59 | input order is kept: the rows kept from a concatenation are those kept from each part, in turn |
| CollectionTree.IsSelected | backend/route/api/collection/func.go:74-91 | the scan selects a node exactly when its id is listed, or when the list is non-empty and some child is selected |
| CollectionTree.BuildTree | backend/route/api/collection/func.go:55-99 | the loop builds the tree `Tree` describes, whose properties are the lemmas below |
| CollectionTree.BuildTreeFor | backend/route/api/collection/collections.go:76-110 | with `isIteration` every node carries a selection flag computed from the list; without it no node carries one |
| CollectionTree.BuildProjectTree | backend/route/api/collection/collections.go:68-70 | the project tree carries no selection flag on any node |
| CollectionTree.BuildIterationTree | backend/route/api/collection/collections.go:72-74 | the iteration tree carries a selection flag on every node |
| CollectionTree.PrefixLevel | backend/route/api/collection/func.go:58-93 | the nodes built from the first k rows are one node per matching row among them, in order |
| CollectionTree.Level | backend/route/api/collection/func.go:58-93 | one node per given row, in order |
| CollectionTree.LevelAppend | backend/route/api/collection/func.go:58-93 | building the nodes of two row lists one after the other gives the nodes of their concatenation |
| CollectionTree.LevelNodes | backend/route/api/collection/func.go:58-93 | node j of a level is the node built for row j |
| CollectionTree.LevelSame | backend/route/api/collection/func.go:58-93 | two depths that build the same node for every row build the same level |
| CollectionTree.MatchingStep | backend/route/api/collection/func.go:58-59 | the rows kept from the first k are those kept from the first k - 1, followed by row k - 1 when its parent id matches |
| CollectionTree.LevelExtra | backend/route/api/collection/func.go:58-65 | a matching row gives one node and any other row none |
| CollectionTree.TreeLevel | backend/route/api/collection/func.go:55-93 | one level holds exactly the rows under the parent, in input order, each carrying its row's fields, the subtree built under its own id, and its flag |
| CollectionTree.TreeFlagged | backend/route/api/collection/func.go:74 | without a selection list no node carries a flag; with one every node does |
| CollectionTree.EmptySelectionUnselected | backend/route/api/collection/func.go:74-91 | with an empty, non-nil list every node is unselected |
| CollectionTree.SelectionPropagates | backend/route/api/collection/func.go:74-91 | with a non-empty list a node is selected exactly when its own id or a descendant's id is listed |
| CollectionTree.ShallowMono | backend/route/api/collection/func.go:60-65 | a bound on the height of the subtree below a parent stays a bound when it grows |
| CollectionTree.TreeSettled | backend/route/api/collection/func.go:55-99 | once the depth reaches the height of the subtree below the parent, building one level deeper gives the same tree, so the cut-off tree is the one the unbounded recursion builds |
| CollectionTree.ChildrenShallow | backend/route/api/collection/func.go:58-65 | below a parent whose subtree is at most d levels high, each child's subtree is at most d - 1 levels high |
| CollectionTree.RankedShallow | backend/route/api/collection/func.go:60-65 | when every row's id ranks below its parent's id (no parent chain loops), the subtree below a parent is at most its rank high |
| CollectionTree.AcyclicDepthHarmless | backend/route/api/collection/func.go:55-99 | for rows whose parent chains do not loop, any depth from the parent's rank on gives the same tree as one level more |
| CommonSpec.Lookup | backend/common/spec/schema.go:35-45 | nil for a nil list or when no entry has the name; otherwise the first entry with that name |
| CommonSpec.LookupID | backend/common/spec/schema.go:47-57 | nil for a nil list or when no entry has the id; otherwise the first entry with that id |
| CommonSpec.LookupKeepsRef | backend/common/spec/schema.go:31-57 | a wrapper that is a `Ref()` comes back from `Lookup` by its name, and from `LookupID` by its id, as that same unresolved reference when no earlier entry shares the name or id |
| CommonSpec.SpecSetXDiff | backend/common/spec/schema.go:69-75 | with a JSON schema only its tree is marked; without one only the wrapper's own marker is set; nothing else changes |
| CommonSpec.SpecSetXDiffTwice | backend/common/spec/schema.go:69-75 | marking a wrapper twice with the same marker is marking it once |
| CommonSpec.SchemasSetXDiff | backend/common/spec/schema.go:63-67 | every entry of the list is marked, and a nil list stays nil |
| CommonSpec.BodySetXDiff | backend/common/spec/http.go:357-362 | every body is marked under the same content type, and a nil map stays nil |
| CommonSpec.SchemasSetXDiffTwice | backend/common/spec/schema.go:63-67 | marking a list twice with the same marker is marking it once |
| CommonSpec.BodySetXDiffTwice | backend/common/spec/http.go:357-362 | marking the bodies twice with the same marker is marking them once |
| CommonSpec.FindExample | backend/common/spec/schema.go:77-84 | found exactly when some example has the summary, and then the key names such an example |
| CommonSpec.InsertRemovedAsWrittenOverwrites | backend/common/spec/schema.go:117 | filing a removed example under the decimal count of examples overwrites an example already under that key |
| CommonSpec.InsertRemoved | backend/common/spec/schema.go:111-118 | the corrected filing adds the removed example under an unused key and keeps every example already there |
| CommonSpec.InsertRemovedSummaries | backend/common/spec/schema.go:111-118 | after filing, the second wrapper's summaries are its old ones plus the removed example's |
| CommonSpec.InsertRemovedDense | backend/common/spec/schema.go:111-118 | while the keys are "0" to "n-1" for n examples, the key the source picks is free, both ways of filing agree, and the keys stay dense |
| CommonSpec.EqualExamples | backend/common/spec/schema.go:94-126 | true leaves both sides unchanged; differing summary sets, or a summary whose examples differ in value, give false; agreeing examples give true; the summaries of the first side stay, each one missing from the second side is marked "-"; as intended, or as written while the second side's keys are dense, the second side ends with the union of the summaries, its added ones marked "+", changed ones "!", and the removed ones filed as "-" copies; nothing but examples changes |
| CommonSpec.EqualNomal | backend/common/spec/schema.go:86-92 | a difference in description, required flag or example gives false, and examples are then not compared; equal fields with agreeing examples give true, and true changes nothing; the variant selects how a removed example is filed |
| CommonSpec.HTTPParameters.constructor | backend/common/spec/http.go:8-13 | the four buckets hold what is given |
| CommonSpec.HTTPParameters.Fill | backend/common/spec/http.go:17-30 | every nil bucket becomes empty and every non-nil bucket is untouched |
| CommonSpec.HTTPParameters.Add | backend/common/spec/http.go:32-43 | the value is appended to the bucket of query, path, cookie or header (a nil bucket counting as empty); other buckets are untouched and other locations change nothing |
| CommonSpec.HTTPParameters.Map | backend/common/spec/http.go:45-60 | exactly the non-nil buckets, each under its location name |
| CommonSpec.HTTPRequestNode.constructor | backend/common/spec/http.go:94-98 | the node holds the given exceptions, parameters and content |
| CommonSpec.HTTPRequestNode.AddGlobalExcept | backend/common/spec/http.go:116-133 | the id is appended, duplicates allowed, for the four locations; other locations change nothing; parameters and content are untouched |
| CommonSpec.HTTPRequestNode.RemoveGlobalExcept | backend/common/spec/http.go:135-164 | only the first occurrence of the id leaves the named list; an absent id and an unknown location change nothing |
| CommonSpec.HTTPRequestNode.TryRemoveGlobalExcept | backend/common/spec/http.go:104-114 | true exactly when the id was listed, and then its first occurrence is removed; false changes nothing |
| CommonSpec.IsRefId | backend/common/spec/http.go:259-275 | false for nil or for defines that are not a `Ref()`; otherwise whether the text after the last "/" of the `$ref` is the id |
| CommonSpec.DereferencedDefine | backend/common/spec/http.go:277-286 | a define that references `sub`'s id becomes `sub`; any other define is unchanged |
| CommonSpec.DereferencedDefineNoLongerRefers | backend/common/spec/http.go:277-286 | unless `sub` references itself, the result no longer references `sub` |
| CommonSpec.ResponsesMap | backend/common/spec/http.go:217-223 | the map's keys are exactly the codes of the list |
| CommonSpec.ResponsesMapLastWins | backend/common/spec/http.go:217-223 | for a repeated code the map holds the define of the last entry |
| CommonSpec.AddResponse | backend/common/spec/http.go:225-238 | the first entry with the code is replaced by the new define and every other entry is kept in place; when no entry has the code the define is appended; so an entry with the code is present, the length grows only for a new code, and distinct codes stay distinct |
| CommonSpec.AddResponseMap | backend/common/spec/http.go:217-238 | with distinct codes, `Map` afterwards gives the added define for its code |
| CommonSpec.HTTPResponses.constructor | backend/common/spec/http.go:215 | the list is the given one |
| CommonSpec.HTTPResponses.Add | backend/common/spec/http.go:225-238 | the list becomes the one `AddResponse` describes |
| CommonSpec.WithoutRefsTo | backend/common/spec/http.go:181-193 | the kept responses are never more than the given ones |
| CommonSpec.WithoutRefsToKeeps | backend/common/spec/http.go:181-193 | nothing kept references the id, everything kept was there, and every entry that does not reference it is kept |
| CommonSpec.RemoveRefsTo | backend/common/spec/http.go:181-193 | the splice-or-step index loop leaves exactly the non-referencing entries in order |
| CommonSpec.HTTPResponsesNode.constructor | backend/common/spec/http.go:166-168 | the list is the given one |
| CommonSpec.HTTPResponsesNode.RemoveResponse | backend/common/spec/http.go:181-193 | every entry referencing `sub`'s id is removed and the others keep their order |
| CommonSpec.HTTPResponsesNode.DereferenceResponses | backend/common/spec/http.go:175-179 | every define that references `sub` becomes `sub`; codes, markers and the length are kept |
| CommonSpec.LookupDefine | backend/common/spec/http.go:312-319 | a copy of the first define with the name, or nil when none has it |
| CommonSpec.LookupDefineID | backend/common/spec/http.go:321-328 | a copy of the first define with the id, or nil when none has it |
| CommonSpec.DefineSetXDiff | backend/common/spec/http.go:304-308 | headers and bodies are marked and the define's own marker is set; nothing else changes |
| CommonSpec.ResponseSetXDiff | backend/common/spec/http.go:240-244 | the code and the response's own marker are kept, and the embedded define is marked |
| CommonSpec.DefinesSetXDiffAsWritten | backend/common/spec/http.go:330-334 | ranging over copies marks headers and bodies but keeps every define's own old marker |
| CommonSpec.DefinesSetXDiff | backend/common/spec/http.go:330-334 | as intended: every define is marked, its own marker included |
| CommonSpec.DefinesSetXDiffLosesMarker | backend/common/spec/http.go:330-334 | an unmarked define stays unmarked under the loop as written and is marked by the intended one |
| DefinitionNames.ReplaceFromAbsent | backend/models/definition_schemas.go:208 | `strings.Replace` leaves a text without occurrences unchanged |
| DefinitionNames.ReplaceFromSkip | backend/models/definition_schemas.go:208 | `strings.Replace` keeps the text before the leftmost occurrence, writes the replacement there, and goes on after it |
| DefinitionNames.FindRef | backend/models/definition_schemas.go:196-201 | the leftmost position where `#/definitions/schemas/` followed by digits starts, or none when no such position exists |
| DefinitionNames.DigitRun | backend/models/definition_schemas.go:196 | the greedy digit run: all digits, and not followed by a digit |
| DefinitionNames.RefDigits | backend/models/definition_schemas.go:197-205 | the second expression finds a non-empty run of digits in the match |
| DefinitionNames.RefMatch | backend/models/definition_schemas.go:200 | the matched text is the prefix followed by the id's digits, and it occurs at the match position |
| DefinitionNames.RefIdIsAtoi | backend/models/definition_schemas.go:206 | the id is what `strconv.Atoi` gives for the digits, and an id beyond the 64-bit range is `Atoi`'s range error |
| DefinitionNames.IdToName | backend/models/definition_schemas.go:195-213 | the loop returns only a text in which no reference remains |
| DefinitionNames.DefinitionIdToName | backend/models/definition_schemas.go:195-213 | the loop, run for at most `fuel` rounds, gives what `IdToName` gives |
| DefinitionNames.Loop | backend/models/definition_schemas.go:199-213 | the loop, whatever one round does, returns only a text in which no reference remains |
| DefinitionNames.RunLoop | backend/models/definition_schemas.go:199-213 | the `for` loop, run for at most `fuel` rounds, stops as soon as no reference remains and gives what `Loop` gives |
| DefinitionNames.IdToNameStep | backend/models/definition_schemas.go:199-209 | a text that holds a reference goes on as its rewrite, with one round less |
| DefinitionNames.NoRefUnchanged | backend/models/definition_schemas.go:199-203 | a text without a reference comes back unchanged, with no round spent |
| DefinitionNames.RefStartsWithHash | backend/models/definition_schemas.go:196 | a reference always begins with `#` |
| DefinitionNames.NoEarlierMatch | backend/models/definition_schemas.go:200-208 | the matched text occurs nowhere before the leftmost reference, so the replacement leaves all earlier text alone |
| DefinitionNames.RewriteFirst | backend/models/definition_schemas.go:205-209 | a round turns the leftmost reference into the prefix and the name of its id, an unknown id giving the empty name and so the bare prefix; it keeps the text before it and replaces the same text further on; an id too large for `Atoi` leaves the text unchanged |
| DefinitionNames.OverflowSpins | backend/models/definition_schemas.go:199-210 | a reference whose id overflows `int` is never rewritten, so the loop never ends, whatever the fuel |
| DefinitionNames.ReplaceWholeHead | backend/models/definition_schemas.go:208 | the corrected replacement begins with the scanned character or with the replacement |
| DefinitionNames.WholeKeepsOtherIds | backend/models/definition_schemas.go:208 | the corrected replacement leaves alone every longer id that shares the digits |
| DefinitionNames.ReplaceWholeSkip | backend/models/definition_schemas.go:208 | the corrected replacement keeps the text before the leftmost whole occurrence and replaces it |
| DefinitionNames.RewriteWholeProgress | backend/models/definition_schemas.go:205-209 | each corrected round removes the leftmost reference from its place and keeps the text before it, provided the name it receives does not begin with a digit |
| DefinitionNames.ShorterIdCorruptsLonger | backend/models/definition_schemas.go:208 | as written, rewriting the reference to id 1 also rewrites the front of the reference to id 12, which becomes the name of 1 followed by "2" |
| DefinitionNames.WholeKeepsLonger | backend/models/definition_schemas.go:208 | the corrected round on the same text keeps the reference to id 12 for the next round |
| DefinitionNames.IdToNameWhole | backend/models/definition_schemas.go:195-213 | the corrected loop, which replaces whole references only, returns only a text in which no reference remains |
| DefinitionNames.NoRefInNamed | backend/models/definition_schemas.go:199-203 | a text whose two references already carry letter names holds no reference, so the loop stops there |
| DefinitionNames.SecondRoundFindsLonger | backend/models/definition_schemas.go:199-206 | after the corrected first round the leftmost reference is the whole reference to id 12 |
| DefinitionNames.FindRefSkips | backend/models/definition_schemas.go:200 | with no reference in a stretch of text, the search from its start finds what the search from its end finds |
| DefinitionNames.WholeLoopNamesBoth | backend/models/definition_schemas.go:195-213 | the corrected loop on the text with references to ids 1 and 12 gives each its own name, where the loop as written leaves the name of 1 followed by "2" |
| Diff.InsertAt | backend/common/spec/diff/diff.go:83-87 | inserting a re-added entry grows the list by one |
| Diff.InsertAtPlaces | backend/common/spec/diff/diff.go:83-87 | the entry lands at its old index when that index is below the length minus one, and at the end otherwise; nothing else is lost or reordered |
| Diff.EqualJsonSchemaNormal | backend/common/spec/diff/diff.go:219-231 | true exactly when default, description and mock agree; otherwise the newer node is marked "!" |
| Diff.EqualJsonSchema | backend/common/spec/diff/diff.go:179-217 | the two property loops and the items step produce the annotated newer schema `JsonDiff` describes (properties in the lemmas below) |
| Diff.EqualProperties | backend/common/spec/diff/diff.go:190-213 | the object case produces the newer properties diffed and, with `del`, the older-only ones as "-" copies |
| Diff.EqualNewerProperties | backend/common/spec/diff/diff.go:192-203 | the loop over the newer properties keeps exactly their names and gives each its "+", "!" or recursive annotation |
| Diff.AddRemovedProperties | backend/common/spec/diff/diff.go:204-212 | the loop over the older properties adds exactly the older-only names, each as its "-" copy, and keeps every newer entry |
| Diff.JsonDiffIdentical | backend/common/spec/diff/diff.go:179-231 | diffing a schema against itself sets no marker anywhere |
| Diff.JsonDiffOnlyMarks | backend/common/spec/diff/diff.go:179-217 | without `del` the diff only adds markers: clearing them gives back the newer schema |
| Diff.ObjectOnlyMarks | backend/common/spec/diff/diff.go:190-212 | for two object schemas of the same types, the diff without `del` is the newer object once its markers are cleared |
| Diff.PropOnlyMarks | backend/common/spec/diff/diff.go:190-212 | each property of the newer object comes out of the diff without `del` as itself, markers aside |
| Diff.PropertyMarkers | backend/common/spec/diff/diff.go:190-213 | for an object whose types agree: the names are the newer ones plus, with `del`, the older ones; a new property is "+"; a required flip is "!" with nothing below it touched; a matched one is diffed; with `del` an older-only one is its "-" copy |
| Diff.TypeChangeStops | backend/common/spec/diff/diff.go:180-183 | a type-list change marks the newer node "!" and leaves everything below it as it was |
| Diff.EqualSchema | backend/common/spec/diff/diff.go:166-177 | a different name, description or required flag marks the newer wrapper "!"; otherwise only the JSON schemas are diffed |
| Diff.SchemaDiffOfRemovedCopy | backend/common/spec/diff/diff.go:96-98 | a "-" copy, if diffed against its original, would stay as it is |
| Diff.FindName | backend/common/spec/diff/diff.go:79 | true exactly when some entry of the list carries the name |
| Diff.SchemasWithRemoved | backend/common/spec/diff/diff.go:77-89 | after the first loop the list has between the newer length and that plus the number of older entries seen |
| Diff.WithRemovedKeepsNewer | backend/common/spec/diff/diff.go:77-89 | every newer entry survives the first loop uncopied |
| Diff.WithRemovedHasOlderNames | backend/common/spec/diff/diff.go:77-89 | after the first loop every older name is present |
| Diff.WithRemovedOrigins | backend/common/spec/diff/diff.go:77-89 | every entry after the first loop is a newer entry or a "-" copy of an older entry whose name the list lacked |
| Diff.NewerNamesKept | backend/common/spec/diff/diff.go:77-89 | a name missing after the first loop was missing from the newer list too |
| Diff.SchemasDiff | backend/common/spec/diff/diff.go:76-102 | without `del` the length is unchanged; with it at most one copy per older entry is added |
| Diff.InsertRemovedSchemas | backend/common/spec/diff/diff.go:77-89 | the first loop of `equalSchemas` produces the list `SchemasWithRemoved` describes |
| Diff.MarkSchemas | backend/common/spec/diff/diff.go:91-100 | the second loop annotates every entry except the inserted copies |
| Diff.EqualSchemas | backend/common/spec/diff/diff.go:76-102 | both loops together produce the annotated list whose entries the lemmas below describe |
| Diff.EqualSchemasOpt | backend/common/spec/diff/diff.go:76-102 | the same on possibly nil lists |
| Diff.SchemasDiffMarksNewer | backend/common/spec/diff/diff.go:91-100 | every newer entry is in the result, "+" when the older list lacks its name and diffed against the first older entry of that name otherwise |
| Diff.SchemasDiffEntries | backend/common/spec/diff/diff.go:76-102 | every result entry is an annotated newer entry or, with `del` only, the "-" copy of an older entry whose name the newer list lacks |
| Diff.SchemasDiffKeepsOlderNames | backend/common/spec/diff/diff.go:77-89 | with `del` every older name is present in the result |
| Diff.AddRemovedBodies | backend/common/spec/diff/diff.go:105-113 | the first loop adds exactly the older-only MIME types, each as its "-" copy, and keeps the newer bodies |
| Diff.MarkBodies | backend/common/spec/diff/diff.go:114-120 | the second loop marks a MIME type the older side lacks "+" and diffs the others |
| Diff.EqualContent | backend/common/spec/diff/diff.go:104-122 | both loops together give the annotated body map `ContentDiffMarks` describes |
| Diff.EqualContentOpt | backend/common/spec/diff/diff.go:104-122 | the same on possibly nil maps |
| Diff.ContentDiffMarks | backend/common/spec/diff/diff.go:104-122 | the MIME types are the newer ones plus, with `del`, the older ones; a new type is "+", a shared one is diffed, and an older-only one is its "-" copy |
| Diff.ResponsesWithRemoved | backend/common/spec/diff/diff.go:130-144 | after the first loop the list has between the newer length and that plus the number of older responses seen |
| Diff.ResponsesDiff | backend/common/spec/diff/diff.go:129-164 | without `del` the length is unchanged; with it at most one entry per older response is added |
| Diff.OlderAfterDiff | backend/common/spec/diff/diff.go:133-137 | the older list keeps its length; a re-inserted response is the older side's own object, so it is marked "-" there as well |
| Diff.InsertRemovedResponses | backend/common/spec/diff/diff.go:130-144 | the first loop produces the list `ResponsesWithRemoved` describes and marks the shared older objects |
| Diff.MarkResponses | backend/common/spec/diff/diff.go:145-162 | the second loop annotates every entry except the re-inserted ones |
| Diff.MarkResponse | backend/common/spec/diff/diff.go:146-161 | one entry: a missing code is "+", a changed name or description is "!", and otherwise header and bodies are diffed |
| Diff.EqualResponse | backend/common/spec/diff/diff.go:129-164 | the annotated newer list and the older list with its shared objects marked |
| Diff.ResponsesWithRemovedKeeps | backend/common/spec/diff/diff.go:130-144 | every newer response survives the first loop uncopied |
| Diff.ResponsesWithRemovedAdds | backend/common/spec/diff/diff.go:130-144 | every older response whose code the newer list lacked is re-inserted, marked "-" |
| Diff.ResponsesDiffMarksNewer | backend/common/spec/diff/diff.go:145-162 | every newer response is in the result: "+" for a new code, "!" with nothing below touched for a changed name or description, otherwise diffed |
| Diff.ResponsesDiffKeepsOlder | backend/common/spec/diff/diff.go:130-144 | with `del` every older response whose code the newer list lacks is in the result, marked "-" |
| Diff.EqualParam | backend/common/spec/diff/diff.go:54-74 | each non-nil newer bucket is replaced by its annotation against the older bucket (empty when nil); nil buckets stay nil |
| Diff.UpdateBuckets | backend/common/spec/diff/diff.go:57-73 | the loop replaces exactly the buckets of the newer side's map |
| Diff.SetBucket | backend/common/spec/diff/diff.go:63-72 | the `switch` replaces the named bucket only |
| Diff.EqualRequest | backend/common/spec/diff/diff.go:124-127 | the parameters are annotated bucket by bucket and the bodies as `equalContent` does; the exceptions are untouched |
| Diff.HTTPPart.constructor | backend/common/spec/http.go:336-342 | an operation holds the given request and responses |
| Diff.Diff | backend/common/spec/diff/diff.go:28-40 | refused unless each side holds exactly one operation; the newer URL node is "!" exactly when the paths differ (methods are not compared); the returned newer item carries the annotated request and responses |
| SchemaEqual.MergedProps | backend/module/spec/jsonschema/schema.go:688-705 | the merged property map holds every own property, and each entry resolves to a node of the schema |
| SchemaEqual.TypeIndex | backend/module/spec/jsonschema/schema.go:627-630 | each first type name of a composition list maps to a member with that first type, and every member's first type is a key |
| SchemaEqual.EqualAsWritten | backend/module/spec/jsonschema/schema.go:584-741 | as written: false when either side is nil, and two references are equal exactly when their ref strings are |
| SchemaEqual.Equal | backend/module/spec/jsonschema/schema.go:584-741 | corrected: false for a nil side; two references are equal exactly when their ref strings are; otherwise equal nodes have equal titles and, unless the type is one-dimensional, items on both sides or on neither |
| SchemaEqual.AsWrittenAnyOfIgnoresOther | backend/module/spec/jsonschema/schema.go:622-648 | as written, the anyOf comparison looks only at the number of the second schema's members, never at the members |
| SchemaEqual.IntendedAnyOfTypesAgree | backend/module/spec/jsonschema/schema.go:622-648 | corrected: equal schemas compared through anyOf have the same first type names there |
| SchemaEqual.IntendedOneOfTypesAgree | backend/module/spec/jsonschema/schema.go:655-681 | corrected: equal schemas compared through oneOf have the same first type names there |
| SchemaEqual.AnyOfCounterexample | backend/module/spec/jsonschema/schema.go:631-634 | a string-typed anyOf and an integer-typed anyOf are equal as written but not under the corrected comparison |
| SchemaEqual.EqualReflexive | backend/module/spec/jsonschema/schema.go:584-741 | every schema equals itself, in both variants, when the type comparison is reflexive |
| Spec2.NameId | backend/module/spec2/plugin/openapi/2.go:459 | a `<name>-<id>` key begins with the name followed by "-" |
| Spec2.KeyLocation | backend/module/spec2/plugin/openapi/2.go:200-204 | none exactly when the key has no "-"; otherwise the text before the first "-", which holds no "-" itself |
| Spec2.KeyLocationOfJoined | backend/module/spec2/plugin/openapi/2.go:200-204 | a key `<a>-<rest>` whose `a` has no "-" is filed under `a`, whatever `rest` holds |
| SwaggerParse.SwaggerParser.constructor | backend/module/spec2/plugin/openapi/2.go:17-21 | a fresh parser knows no model, no shared parameter and no global parameter name |
| SwaggerParse.SwaggerParser.ParseServers | backend/module/spec2/plugin/openapi/2.go:60-72 | one server per scheme, in order: the scheme is the description and the URL is `scheme://host` plus the base path, a base path of "/" dropped |
| SwaggerParse.SwaggerParser.ParseDefinitionModels | backend/module/spec2/plugin/openapi/2.go:74-98 | without definitions: no model and an emptied key-to-id record; otherwise it succeeds iff every schema converts, then one model per definition named and described by its key, id `stringToUnid(key)`, and the record maps exactly the keys to those ids |
| SwaggerParse.SwaggerParser.ParseGlobalParameters | backend/module/spec2/plugin/openapi/2.go:180-208 | without the `x-apicat-global-parameters` extension nothing is filed and the recorded names are untouched; with it, the recorded names are reset to exactly the names filed, and each location holds the parameters whose key starts with it and a "-" |
| SwaggerParse.FiledMembers | backend/module/spec2/plugin/openapi/2.go:192-206 | a parameter is filed under a location iff some entry decodes to it and its key starts with that location followed by the first "-" |
| SwaggerParse.FiledNamesMembers | backend/module/spec2/plugin/openapi/2.go:200-205 | a name is recorded for skipping iff some entry whose key holds a "-" decodes to a parameter of that name |
| SwaggerParse.DashlessKeyIgnored | backend/module/spec2/plugin/openapi/2.go:200-203 | an entry whose key has no "-" is filed nowhere |
| SwaggerParse.SwaggerGlobalKeyFiledUnderName | backend/module/spec2/plugin/openapi/2.go:200-204 | a key written as `<name>-<id>` for a name without "-" is filed under that name on import |
| SwaggerParse.LocalParam | backend/module/spec2/plugin/openapi/2.go:231-244 | a query, header, path or cookie parameter keeps its name and description, is required iff `required` is present and true, and its schema carries the declared type and format |
| SwaggerParse.LocalParamsMembers | backend/module/spec2/plugin/openapi/2.go:221-244 | a request parameter appears under a location iff some kept input parameter of that location builds it; names known as shared or global never appear |
| SwaggerParse.FormPropsKeys | backend/module/spec2/plugin/openapi/2.go:245-251 | the form object has a property for exactly the kept `formData` parameter names |
| SwaggerParse.FormRequiredAreProperties | backend/module/spec2/plugin/openapi/2.go:245-254 | every name in the form object's required list is one of its properties |
| SwaggerParse.BodyErrPersists | backend/module/spec2/plugin/openapi/2.go:255-259 | once a body schema fails to convert, that error is the request's result whatever follows |
| SwaggerParse.NoBodyParameterNoBody | backend/module/spec2/plugin/openapi/2.go:255-260 | without an `in: body` parameter the request has no body schema |
| SwaggerParse.ContentOf | backend/module/spec2/plugin/openapi/2.go:263-281 | a consumed MIME type gets content iff it names a form type or a body exists; form types get the form object, the others the body |
| SwaggerParse.SwaggerParser.ParseRequest | backend/module/spec2/plugin/openapi/2.go:210-283 | the method's loop computes exactly the request the parameter, form, body and content specifications describe, with shared and global names skipped |
| SwaggerParse.SwaggerParser.ParseContent | backend/module/spec2/plugin/openapi/2.go:273-281 | the loop over the consumed MIME types builds exactly the content the content specification describes |
| SwaggerParse.HeaderParams | backend/module/spec2/plugin/openapi/2.go:320-332 | one header parameter per response header, in visiting order, each built from that header |
| SwaggerParse.ProducedBody | backend/module/spec2/plugin/openapi/2.go:338-351 | a produced MIME type gets the response schema, and an example summarised by the MIME type iff the response files one under it |
| SwaggerParse.ProducedContent | backend/module/spec2/plugin/openapi/2.go:338-352 | the response content has exactly the produced MIME types as keys, each with its produced body |
| SwaggerParse.SwaggerParser.ParseProduced | backend/module/spec2/plugin/openapi/2.go:338-352 | the loop builds exactly the produced content |
| SwaggerParse.ResponseEntry | backend/module/spec2/plugin/openapi/2.go:294-354 | a code that is not a number is skipped; otherwise the response carries the code, the `x-apicat-response-name` and description; a schema `$ref` becomes a reference to `#/definitions/responses/<stringToUnid(last segment)>`; an error arises only from an inline schema that fails to convert |
| SwaggerParse.SwaggerParser.ParseEntry | backend/module/spec2/plugin/openapi/2.go:294-354 | one loop round handles a code exactly as the entry specification says |
| SwaggerParse.ResponsesErrPersists | backend/module/spec2/plugin/openapi/2.go:333-337 | once a response schema fails to convert, that error is the result of the whole list |
| SwaggerParse.ResponsesFromCount | backend/module/spec2/plugin/openapi/2.go:294-355 | each produced response comes from one numeric code, in visiting order |
| SwaggerParse.NoNumericCodeDefaults | backend/module/spec2/plugin/openapi/2.go:294-300 | codes that are all non-numeric produce no response of their own |
| SwaggerParse.ResponsesOf | backend/module/spec2/plugin/openapi/2.go:285-363 | no responses gives nil; otherwise a successful result is a non-empty list, the 200 "success" response standing in when no code produced one |
| SwaggerParse.SwaggerParser.ParseResponse | backend/module/spec2/plugin/openapi/2.go:285-363 | the loop computes exactly the responses the specification describes |
| SwaggerParse.CollectionOf | backend/module/spec2/plugin/openapi/2.go:369-404 | an operation yields a collection iff both its request and its responses parse; the collection is an http one with the operation's path and method, titled by the summary or else the path |
| SwaggerParse.CollectionsFrom | backend/module/spec2/plugin/openapi/2.go:365-408 | there are never more collections than operations |
| SwaggerParse.CollectionsFromOperations | backend/module/spec2/plugin/openapi/2.go:365-408 | every imported collection is the http collection of one input operation, titled by its summary or else its path |
| SwaggerParse.SwaggerParser.ParseCollections | backend/module/spec2/plugin/openapi/2.go:365-408 | the loop keeps exactly the operations whose request and responses parse, in order |
| SwaggerGenerate.ConvertSchema | backend/module/spec2/plugin/openapi/2.go:410-415 | a schema converts to nil exactly when it is nil |
| SwaggerGenerate.FirstServer | backend/module/spec2/plugin/openapi/2.go:429-442 | none iff no server URL parses; otherwise the URL of a server that parses with none parsing before it |
| SwaggerGenerate.BaseServer | backend/module/spec2/plugin/openapi/2.go:429-474 | host, base path and the single scheme come from the first server that parses; without one there is no host and no scheme; the base path falls back to "/" |
| SwaggerGenerate.SwaggerGenerator.constructor | backend/module/spec2/plugin/openapi/2.go:23-25 | a fresh exporter knows no model name |
| SwaggerGenerate.SwaggerGenerator.AppendModels | backend/module/spec2/plugin/openapi/2.go:445-456 | the models are appended in order and `modelNames` stays the id-to-name record of every model seen, the later of an id winning |
| SwaggerGenerate.SwaggerGenerator.CollectModels | backend/module/spec2/plugin/openapi/2.go:444-456 | the list is the models with every category replaced by its items, and `modelNames` records exactly that list's names by id |
| SwaggerGenerate.NamesOfKeys | backend/module/spec2/plugin/openapi/2.go:444-456 | the ids recorded in `modelNames` are exactly the ids of the models |
| SwaggerGenerate.DefinitionKeys | backend/module/spec2/plugin/openapi/2.go:458-461 | every model, category items included, has a definition keyed "<name without spaces>-<id>", and no other key exists |
| SwaggerGenerate.SwaggerGenerator.ModelDefinitions | backend/module/spec2/plugin/openapi/2.go:458-461 | the loop builds exactly one converted definition per model under its key, the later of a key winning |
| SwaggerGenerate.GlobalsOutKeys | backend/module/spec2/plugin/openapi/2.go:463-470 | global parameters are keyed "<name>-<id>" for every parameter of every location and nothing else; the location is not part of the key |
| SwaggerGenerate.SwaggerGenerator.GlobalParameters | backend/module/spec2/plugin/openapi/2.go:463-470 | the loops build exactly the globals object of every location's parameters |
| SwaggerGenerate.HeaderSchema | backend/module/spec2/plugin/openapi/2.go:583-592 | an exported header has a schema iff the parameter has one; it takes the parameter's description when its own is empty, its examples become the default and the examples are cleared |
| SwaggerGenerate.InlineResponse | backend/module/spec2/plugin/openapi/2.go:577-611 | the response keeps name and description, has headers iff the response has any, and a schema iff it has non-empty content; examples only come with a schema |
| SwaggerGenerate.SwaggerGenerator.GenerateResponseWithoutRef | backend/module/spec2/plugin/openapi/2.go:577-611 | the method returns exactly the inline response object |
| SwaggerGenerate.GeneratedResponse | backend/module/spec2/plugin/openapi/2.go:613-629 | no reference: the inline form; a `#/definitions/responses/` reference to a known response: `{"$ref": "#/responses/<name>-<id>"}`; any other reference: nil |
| SwaggerGenerate.SwaggerGenerator.GenerateResponse | backend/module/spec2/plugin/openapi/2.go:613-629 | the method returns exactly the generated response object |
| SwaggerGenerate.CodeResponsesKeys | backend/module/spec2/plugin/openapi/2.go:635-643 | the keys of an operation's responses are exactly the decimal codes of its responses |
| SwaggerGenerate.PathResponsesNonEmpty | backend/module/spec2/plugin/openapi/2.go:644-648 | the responses object is never empty, an empty list giving the single "default" success entry, so the caller's own fallback is never taken |
| SwaggerGenerate.ProducesContents | backend/module/spec2/plugin/openapi/2.go:649-657 | `produces` lists each MIME type some response has content for exactly once, or is just application/json when there is none |
| SwaggerGenerate.SwaggerGenerator.GeneratePathResponse | backend/module/spec2/plugin/openapi/2.go:631-658 | the loop computes exactly the responses by code and the produced MIME types |
| SwaggerGenerate.LocalOutParams | backend/module/spec2/plugin/openapi/2.go:501-511 | one exported parameter per local parameter of the location |
| SwaggerGenerate.SwaggerGenerator.LocationParams | backend/module/spec2/plugin/openapi/2.go:501-511 | the loop exports exactly the location's parameters, each schema converted |
| SwaggerGenerate.SwaggerGenerator.LocalParams | backend/module/spec2/plugin/openapi/2.go:498-513 | the loop exports exactly the header, query, path and cookie parameters, location by location |
| SwaggerGenerate.FormParam | backend/module/spec2/plugin/openapi/2.go:536-558 | a form property becomes a `formData` parameter with its name, first type and description; as written it is required iff the property's own `required` list holds its name, as intended iff the form object's does |
| SwaggerGenerate.FormParams | backend/module/spec2/plugin/openapi/2.go:536-559 | one `formData` parameter per property key, in order |
| SwaggerGenerate.SwaggerGenerator.FormDataParams | backend/module/spec2/plugin/openapi/2.go:536-559 | the loop emits exactly the form parameters of the object's properties, in visiting order, with `required` as written or as intended, as the variant selects |
| SwaggerGenerate.ContentOut | backend/module/spec2/plugin/openapi/2.go:519-573 | a body parameter is emitted iff some visited content type is not a form type |
| SwaggerGenerate.ContentOutOneBody | backend/module/spec2/plugin/openapi/2.go:519-573 | the content yields at most one `in: body` parameter, and one exactly when a non-form content type is visited |
| SwaggerGenerate.SwaggerGenerator.ContentParams | backend/module/spec2/plugin/openapi/2.go:515-574 | the loop emits exactly the content's form and body parameters, form `required` taken as the variant selects |
| SwaggerGenerate.SwaggerGenerator.GenerateReqParams | backend/module/spec2/plugin/openapi/2.go:494-575 | the enabled globals, then the local parameters, then the content's parameters, exactly as specified for the selected variant |
| SwaggerGenerate.FormRequiredDropped | backend/module/spec2/plugin/openapi/2.go:543-550 | as written a required form field is exported not required; the intended reading exports it required |
| SwaggerGenerate.AddRoute | backend/module/spec2/plugin/openapi/2.go:664-691 | an empty path adds nothing; otherwise the path is present and the method under it holds the new item, the other paths kept |
| SwaggerGenerate.PathsOfKeys | backend/module/spec2/plugin/openapi/2.go:664-693 | a path appears in `paths` iff some collection has it and it is not empty |
| SwaggerGenerate.SwaggerGenerator.GeneratePathItem | backend/module/spec2/plugin/openapi/2.go:669-684 | the method builds exactly the specified path item of one operation, for the selected variant |
| SwaggerGenerate.SwaggerGenerator.GeneratePaths | backend/module/spec2/plugin/openapi/2.go:660-700 | the loop builds exactly the specified `paths` object, for the selected variant, and the tags used by non-empty paths |
| SwaggerGenerate.ResponseDefs | backend/module/spec2/plugin/openapi/2.go:475-489 | the document has a `responses` object iff there are response definitions |
| SwaggerGenerate.SwaggerGenerator.ResponseItems | backend/module/spec2/plugin/openapi/2.go:478-483 | the loop files each category item under "<name>-<id>" |
| SwaggerGenerate.SwaggerGenerator.ResponseDefinitions | backend/module/spec2/plugin/openapi/2.go:475-489 | the loop builds exactly the response definitions, category items included |
| SwaggerGenerate.SwaggerGenerator.GenerateBase | backend/module/spec2/plugin/openapi/2.go:417-492 | version "2.0" and the document info; the first parsable server; `modelNames` records every model by id; definitions keyed "<name without spaces>-<id>"; globals keyed "<name>-<id>"; the response definitions when there are any |
| OpenApiParse.OpenApiParser.constructor | backend/module/spec2/plugin/openapi/3.x.go:16-19 | a fresh parser knows no model and holds the shared parameters it is given |
| OpenApiParse.ExamplesOf | backend/module/spec2/plugin/openapi/3.x.go:81-91 | at most one example per named example, and one for each when all of them encode |
| OpenApiParse.OpenApiParser.EncodeExamples | backend/module/spec2/plugin/openapi/3.x.go:81-91 | the loop keeps exactly the examples that encode, in order |
| OpenApiParse.BodyOf | backend/module/spec2/plugin/openapi/3.x.go:72-93 | a media type gives a body iff its schema converts; the schema carries the media type's `example`, and named examples are present iff the media type has any |
| OpenApiParse.ContentFrom | backend/module/spec2/plugin/openapi/3.x.go:72-95 | the content succeeds iff every schema converts, and then has exactly the media types as keys |
| OpenApiParse.ContentOf | backend/module/spec2/plugin/openapi/3.x.go:66-96 | a nil content map is the error "no content"; otherwise as the non-nil content |
| OpenApiParse.ContentErrPersists | backend/module/spec2/plugin/openapi/3.x.go:75-78 | once a media type fails to convert, that error is the result |
| OpenApiParse.ContentFromBodies | backend/module/spec2/plugin/openapi/3.x.go:72-94 | each media type of the map gets exactly the body built from it |
| OpenApiParse.OpenApiParser.ParseContent | backend/module/spec2/plugin/openapi/3.x.go:66-96 | the loop computes exactly the content specification |
| OpenApiParse.HeadersFrom | backend/module/spec2/plugin/openapi/3.x.go:134-146 | the headers succeed iff every schema converts, then one parameter per header, in order, carrying the header's description |
| OpenApiParse.OpenApiParser.ParseHeaders | backend/module/spec2/plugin/openapi/3.x.go:134-146 | the loop computes exactly the header specification |
| OpenApiParse.ModelsFrom | backend/module/spec2/plugin/openapi/3.x.go:109-120 | the models succeed iff every schema converts, then one model per schema: id `stringToUnid(key)`, name the key, description the schema's |
| OpenApiParse.OpenApiParser.ParseModels | backend/module/spec2/plugin/openapi/3.x.go:109-120 | the loop computes exactly the model specification |
| OpenApiParse.DefResponseOf | backend/module/spec2/plugin/openapi/3.x.go:123-154 | a response definition succeeds iff its headers convert and its content, if any, parses; it has id `stringToUnid(key)`, the key as name, its description and headers, and content iff a content map is present |
| OpenApiParse.OpenApiParser.ParseDefResponse | backend/module/spec2/plugin/openapi/3.x.go:123-154 | the method builds exactly the response definition |
| OpenApiParse.DefResponsesFrom | backend/module/spec2/plugin/openapi/3.x.go:122-155 | the responses succeed iff each one does, then one definition per response, in order |
| OpenApiParse.OpenApiParser.ParseDefResponses | backend/module/spec2/plugin/openapi/3.x.go:122-155 | the loop computes exactly the response definitions |
| OpenApiParse.DefinitionsOf | backend/module/spec2/plugin/openapi/3.x.go:98-160 | no components give two empty lists; otherwise success iff models and responses both succeed, with one entry per schema and per response |
| OpenApiParse.DefinitionIds | backend/module/spec2/plugin/openapi/3.x.go:109-129 | every model and every response definition gets the id of its own key |
| OpenApiParse.OpenApiParser.ParseDefinitions | backend/module/spec2/plugin/openapi/3.x.go:98-160 | the definitions as specified; the model record is reset only when components are present |
| OpenApiParse.OpenApiParser.ParseGlobalParameters | backend/module/spec2/plugin/openapi/3.x.go:162-193 | nothing without components, extensions or the global entry; otherwise each parameter is filed under the text before the first "-" of its key, keys without "-" dropped |
| OpenApiParse.BuiltParam | backend/module/spec2/plugin/openapi/3.x.go:217-232 | a parameter fails iff its schema is present and fails to convert; it keeps name and required flag; the schema, empty when absent, carries description, example and deprecated flag |
| OpenApiParse.ParamEntry | backend/module/spec2/plugin/openapi/3.x.go:197-233 | a global reference contributes nothing; another reference known as `<in>-<name>` contributes the shared parameter; anything else contributes the built parameter |
| OpenApiParse.ParamsFrom | backend/module/spec2/plugin/openapi/3.x.go:195-236 | the parameters succeed iff every contribution does |
| OpenApiParse.ParamsErrPersists | backend/module/spec2/plugin/openapi/3.x.go:224-227 | once a parameter schema fails to convert, that error is the result |
| OpenApiParse.ParamsFromMembers | backend/module/spec2/plugin/openapi/3.x.go:197-234 | a parameter is filed under a location iff some input parameter of that location contributes it |
| OpenApiParse.OpenApiParser.ParseParameters | backend/module/spec2/plugin/openapi/3.x.go:195-236 | the loop computes exactly the parameter specification |
| OpenApiParse.ResponseOf | backend/module/spec2/plugin/openapi/3.x.go:241-281 | the code is `Atoi` of the key, 0 when it does not parse; a reference becomes `#/definitions/responses/<id>` with nothing else; an inline response needs its headers to convert and a content map that parses, and keeps name, description and headers |
| OpenApiParse.OpenApiParser.ParseResponse | backend/module/spec2/plugin/openapi/3.x.go:241-281 | one loop round computes exactly the response specification |
| OpenApiParse.ResponsesFrom | backend/module/spec2/plugin/openapi/3.x.go:238-284 | the list succeeds iff every entry does, then one response per entry, in order |
| OpenApiParse.ContentlessResponseFailsList | backend/module/spec2/plugin/openapi/3.x.go:276-279 | one inline response without a content map fails the whole list |
| OpenApiParse.ResponseRefRoundTrip | backend/module/spec2/plugin/openapi/3.x.go:247-250 | an imported response reference starts with the prefix the exporters recognise, and its last segment reads back as the id of the referenced name |
| OpenApiParse.OpenApiParser.ParseResponses | backend/module/spec2/plugin/openapi/3.x.go:238-284 | the loop computes exactly the response list |
| OpenApiParse.CollectionOf | backend/module/spec2/plugin/openapi/3.x.go:294-337 | an operation yields a collection iff its parameters, its request body if any and its responses if any all import; the collection is http with the path, method and tags, titled by summary or else path, and has empty content or responses when the operation has none |
| OpenApiParse.OpenApiParser.ParseOperation | backend/module/spec2/plugin/openapi/3.x.go:294-337 | the method builds exactly the specified collection of one operation |
| OpenApiParse.OpenApiParser.ParsePathItem | backend/module/spec2/plugin/openapi/3.x.go:295-338 | the loop collects exactly the operations of one path that import |
| OpenApiParse.CollectionsFromMembers | backend/module/spec2/plugin/openapi/3.x.go:286-341 | every imported collection is the import of one operation, and every operation that imports is kept |
| OpenApiParse.OpenApiParser.ParseCollections | backend/module/spec2/plugin/openapi/3.x.go:286-341 | no paths give no collection; otherwise exactly the specified collections |
| OpenApiGenerate.OpenApiGenerator.constructor | backend/module/spec2/plugin/openapi/3.x.go:20-22 | a fresh exporter knows no model name |
| OpenApiGenerate.ConvertSchema | backend/module/spec2/plugin/openapi/3.x.go:356-389 | nil iff the input is nil; the result never has "file" as first type: a "file" schema becomes an array with an empty items schema, any other is the reference conversion unchanged |
| OpenApiGenerate.OpenApiGenerator.AppendModels | backend/module/spec2/plugin/openapi/3.x.go:466-477 | the models are appended in order and `modelMapping` stays the id-to-name record of every model seen |
| OpenApiGenerate.OpenApiGenerator.CollectModels | backend/module/spec2/plugin/openapi/3.x.go:463-477 | `modelMapping` is reset and then records exactly the flattened models' names by id; the list is the models with categories replaced by their items |
| OpenApiGenerate.SchemasOfKeys | backend/module/spec2/plugin/openapi/3.x.go:478-481 | every model, category items included, has a schema keyed "<name without spaces>-<id>", and nothing else does |
| OpenApiGenerate.OpenApiGenerator.ModelSchemas | backend/module/spec2/plugin/openapi/3.x.go:478-481 | the loop builds exactly one converted schema per model key |
| OpenApiGenerate.HeadersOf | backend/module/spec2/plugin/openapi/3.x.go:402-411 | the exported headers are keyed by exactly the names of the response headers |
| OpenApiGenerate.OpenApiGenerator.ResponseHeaders | backend/module/spec2/plugin/openapi/3.x.go:402-411 | the loop builds exactly the headers object |
| OpenApiGenerate.ContentSchemas | backend/module/spec2/plugin/openapi/3.x.go:393-399 | the content has exactly the visited content types as keys, each with its body's converted schema |
| OpenApiGenerate.OpenApiGenerator.ResponseContent | backend/module/spec2/plugin/openapi/3.x.go:393-399 | the loop builds exactly the content object |
| OpenApiGenerate.InlineResponse | backend/module/spec2/plugin/openapi/3.x.go:391-416 | name and description are kept; headers are present iff the response has some; content is present iff the response has a content map, with the same keys and converted schemas |
| OpenApiGenerate.OpenApiGenerator.GenerateResponseWithoutRef | backend/module/spec2/plugin/openapi/3.x.go:391-416 | the method returns exactly the inline response object |
| OpenApiGenerate.ResponseKey | backend/module/spec2/plugin/openapi/3.x.go:450 | the as-written key of a referenced response is "<name>-<id>"; the intended key strips the spaces from the name, as the top-level definitions' keys do |
| OpenApiGenerate.GeneratedResponse | backend/module/spec2/plugin/openapi/3.x.go:444-458 | a reference to a known response definition becomes `{"$ref": "#/components/responses/<key>"}`; every other response, an unknown reference included, is exported inline |
| OpenApiGenerate.UnknownRefInline | backend/module/spec2/plugin/openapi/3.x.go:444-458 | on an unknown reference the 2.0 exporter gives nil while the 3.x exporter gives the inline response |
| OpenApiGenerate.OpenApiGenerator.GenerateResponse | backend/module/spec2/plugin/openapi/3.x.go:444-458 | the method returns exactly the generated response object, keyed as written ("<name>-<id>") or as intended, as the variant selects |
| OpenApiGenerate.ResponsesOfKeys | backend/module/spec2/plugin/openapi/3.x.go:483-494 | with the intended keys every response definition, category items included, is present in `components.responses` under its key |
| OpenApiGenerate.RefResolves | backend/module/spec2/plugin/openapi/3.x.go:444-494 | with the intended keys, a `$ref` to any response definition of the document names a key of `components.responses` |
| OpenApiGenerate.DanglingResponseRef | backend/module/spec2/plugin/openapi/3.x.go:450-491 | as written, a `$ref` to a top-level response named "a b" with id 3 names no key of `components.responses` |
| OpenApiGenerate.OpenApiGenerator.ResponseItems | backend/module/spec2/plugin/openapi/3.x.go:484-489 | the loop files each category item under the key the variant selects |
| OpenApiGenerate.OpenApiGenerator.ResponseDefinitions | backend/module/spec2/plugin/openapi/3.x.go:483-494 | the loop builds exactly `components.responses`, category items included, under the keys the variant selects |
| OpenApiGenerate.GlobalsOutKeys | backend/module/spec2/plugin/openapi/3.x.go:496-503 | the globals' keys are exactly "<in>-<name without spaces>" of the global parameters |
| OpenApiGenerate.GlobalKeyRoundTrip | backend/module/spec2/plugin/openapi/3.x.go:501 | the importer files an exported global parameter under the location it was exported from and no other, as location names hold no "-" |
| OpenApiGenerate.OpenApiGenerator.GlobalParameters | backend/module/spec2/plugin/openapi/3.x.go:496-503 | the loops build exactly the globals object |
| OpenApiGenerate.OpenApiGenerator.GenerateComponents | backend/module/spec2/plugin/openapi/3.x.go:460-510 | `modelMapping` records every flattened model; schemas, responses (keyed as the variant selects) and globals are exactly their specifications |
| OpenApiGenerate.OpenApiGenerator.GenerateBase | backend/module/spec2/plugin/openapi/3.x.go:343-354 | the version, the document info and servers as they are, and the components for the selected variant |
| OpenApiGenerate.LocationOut | backend/module/spec2/plugin/openapi/3.x.go:423-439 | one exported parameter per parameter of the location, in order |
| OpenApiGenerate.LocalOutMembers | backend/module/spec2/plugin/openapi/3.x.go:422-440 | every location is exported, not only header, query, path and cookie, and each parameter keeps its location |
| OpenApiGenerate.OpenApiGenerator.LocationParams | backend/module/spec2/plugin/openapi/3.x.go:423-439 | the loop exports exactly one location's parameters |
| OpenApiGenerate.OpenApiGenerator.GenerateReqParams | backend/module/spec2/plugin/openapi/3.x.go:418-442 | the enabled globals, then every location's parameters, exactly as specified |
| OpenApiGenerate.RequestBodyOf | backend/module/spec2/plugin/openapi/3.x.go:537-550 | a request body exists iff some content type other than "none" is visited; it has exactly those types, each with its converted schema and the body's examples |
| OpenApiGenerate.OpenApiGenerator.RequestBody | backend/module/spec2/plugin/openapi/3.x.go:537-550 | the loop builds exactly the request body |
| OpenApiGenerate.CodeResponsesKeys | backend/module/spec2/plugin/openapi/3.x.go:552-555 | the keys of an operation's responses are exactly the decimal codes of its responses |
| OpenApiGenerate.PathResponsesKeys | backend/module/spec2/plugin/openapi/3.x.go:552-561 | an empty list gives the single "200" success entry; otherwise the keys are exactly the codes |
| OpenApiGenerate.OpenApiGenerator.PathResponse | backend/module/spec2/plugin/openapi/3.x.go:552-561 | the loop builds exactly the responses object, `$ref`s keyed as the variant selects |
| OpenApiGenerate.OpenApiGenerator.GeneratePathItem | backend/module/spec2/plugin/openapi/3.x.go:524-561 | the method builds exactly the specified path item, for the selected variant |
| OpenApiGenerate.PathsOfKeys | backend/module/spec2/plugin/openapi/3.x.go:518-569 | a path appears in `paths` iff some collection has it and it is not empty |
| OpenApiGenerate.OpenApiGenerator.GeneratePaths | backend/module/spec2/plugin/openapi/3.x.go:512-577 | the loop builds exactly the `paths` object for the selected variant and the tags used by non-empty paths |
| PostmanImport.ServersOf | backend/module/spec/plugin/postman/import.go:24-37 | at most one server; none iff no top-level item has a request; otherwise the server of the first item that has one |
| PostmanImport.ImportServers | backend/module/spec/plugin/postman/import.go:24-37 | the loop returns exactly the servers specification |
| PostmanImport.ChildId | backend/module/spec/plugin/postman/import.go:56 | `parent*1024 + i + 1`, exact whenever that fits in 64 bits |
| PostmanImport.Wrap64 | backend/module/spec/plugin/postman/import.go:56 | a value already in the signed 64-bit range is kept, and any value is reduced modulo 2^64 |
| PostmanImport.ChildIdDecodes | backend/module/spec/plugin/postman/import.go:56 | while nothing wraps, an id is positive and gives back its parent and its position among fewer than 1024 siblings |
| PostmanImport.ChildIdInjective | backend/module/spec/plugin/postman/import.go:56 | under the same bounds two items share an id only when they share parent and position |
| PostmanImport.Entries | backend/module/spec/plugin/postman/import.go:57-77 | what one item gives is exactly its http collection when it has a request and its category when it has children |
| PostmanImport.EntriesAt | backend/module/spec/plugin/postman/import.go:54-78 | what each item gives, position by position |
| PostmanImport.WalkConcat | backend/module/spec/plugin/postman/import.go:52-80 | a walk is the concatenation, in item order, of what each item gives |
| PostmanImport.WalkMembers | backend/module/spec/plugin/postman/import.go:52-80 | a collection is in a walk iff some item at some position gives it |
| PostmanImport.WalkWellParented | backend/module/spec/plugin/postman/import.go:52-80 | every collection of the walked tree names its parent: the top level the given parent, a category's items that category, at every depth |
| PostmanImport.WalkCollection | backend/module/spec/plugin/postman/import.go:52-80 | the loop computes exactly the walk |
| PostmanImport.ImportOf | backend/module/spec/plugin/postman/import.go:12-50 | a decoding error is returned as it is; otherwise the document has ApiCat version "2.0.1", the collection's name and description, the servers, empty globals and definitions, and the tree rooted at id 1000 |
| PostmanImport.ImportWellParented | backend/module/spec/plugin/postman/import.go:12-50 | the imported tree is well parented from the root id 1000 down |
| PostmanImport.Import | backend/module/spec/plugin/postman/import.go:12-50 | the method computes exactly the import specification |
| PostmanImport.MatchedVariable | backend/module/spec/plugin/postman/import.go:84-94 | a match exists iff the segment starts with ":" and some variable has the rest as key; it is the first such variable |
| PostmanImport.MatchSegment | backend/module/spec/plugin/postman/import.go:84-94 | one round of the path loop finds exactly the matched variable |
| PostmanImport.FindVariable | backend/module/spec/plugin/postman/import.go:88-94 | the inner loop finds the first variable with that key |
| PostmanImport.Segment | backend/module/spec/plugin/postman/import.go:84-90 | a matched ":name" segment is exported as "{name}", any other segment unchanged |
| PostmanImport.RewrittenPath | backend/module/spec/plugin/postman/import.go:84-95 | the path keeps its number of segments, each rewritten exactly when it names a variable |
| PostmanImport.PathParamsMembers | backend/module/spec/plugin/postman/import.go:84-95 | a path parameter is exactly the parameter of a variable that some segment names |
| PostmanImport.ConvertPath | backend/module/spec/plugin/postman/import.go:84-95 | the loop yields exactly the rewritten segments and the path parameters |
| PostmanImport.QueryParamsMembers | backend/module/spec/plugin/postman/import.go:102-107 | disabled queries are dropped and every enabled one is kept |
| PostmanImport.ConvertQueries | backend/module/spec/plugin/postman/import.go:102-107 | the loop yields exactly the enabled queries' parameters, in order |
| PostmanImport.HeaderParams | backend/module/spec/plugin/postman/import.go:108-110 | one header parameter per request header, in order |
| PostmanImport.ConvertHeaders | backend/module/spec/plugin/postman/import.go:108-110 | the loop yields exactly the header parameters |
| PostmanImport.FormProperties | backend/module/spec/plugin/postman/import.go:151-156 | the properties are keyed by exactly the enabled fields' keys |
| PostmanImport.FormPropertiesLastWins | backend/module/spec/plugin/postman/import.go:151-156 | a property holds the schema of the last enabled field with its key |
| PostmanImport.FormSchema | backend/module/spec/plugin/postman/import.go:149-156 | a form body is an object schema whose properties are the enabled fields |
| PostmanImport.FormFields | backend/module/spec/plugin/postman/import.go:151-156 | the loop builds exactly the form properties |
| PostmanImport.RequestBodyOf | backend/module/spec/plugin/postman/import.go:134-168 | nothing for a missing or disabled body and for modes other than raw JSON, form data and url-encoded; raw JSON gives `application/json` with the converted schema, form data `multipart/form-data` and url-encoded `application/x-www-form-urlencoded` with the form object |
| PostmanImport.EncodeRequestBody | backend/module/spec/plugin/postman/import.go:134-168 | the method computes exactly the request body specification |
| PostmanImport.RequestContent | backend/module/spec/plugin/postman/import.go:112-118 | the request has exactly one content type: the converted body, or an `application/json` empty object |
| PostmanImport.ResponseContent | backend/module/spec/plugin/postman/import.go:177-203 | a JSON preview gives `application/json` with the converted body as example; any other preview gives only `text/plain`, a string with the body as example for "plain", an object otherwise |
| PostmanImport.ResponseHeadersMembers | backend/module/spec/plugin/postman/import.go:205-216 | disabled response headers are dropped; every enabled one is kept with its key, description and value as example |
| PostmanImport.EncodeHeaders | backend/module/spec/plugin/postman/import.go:205-216 | the loop yields exactly the enabled response headers, in order |
| PostmanImport.ResponsesOf | backend/module/spec/plugin/postman/import.go:170-230 | never empty: one response per saved response, in order, or the 200 "success" default alone |
| PostmanImport.EncodeResponseBody | backend/module/spec/plugin/postman/import.go:170-230 | the loop computes exactly the responses specification |
| PostmanImport.ContentOf | backend/module/spec/plugin/postman/import.go:82-125 | the URL is "/" and the rewritten segments joined by "/"; the request has the path, query and header parameters, no cookies, and the request content; the responses are the encoded ones |
| PostmanImport.ConvertContent | backend/module/spec/plugin/postman/import.go:82-125 | the method computes exactly the content specification |

## Left out

- Update in place and aliasing of schema trees. Go rewrites `*Schema` nodes through pointers: `DeepFindRefById` hands out pointers that `DerefModel` overwrites, and `SetXDiff` and the diff mark nodes in place. The model returns the rewritten tree as a value instead. `SchemaWalk.SubstRefRemovesAll` states what overwriting every found pointer achieves. Sharing of one node between two places of a tree is not represented.
- JSON encoding and decoding are not modelled: `NewSchemaFromJson`, `ToJson`, `json.Marshal`/`json.Unmarshal` of extension entries and examples, and the Postman document itself. Decoded values arrive as inputs. An extension entry that fails to encode is `None`. `any`-typed values (default, examples, mock data) are kept as opaque text.
- backend/common/spec/jsonschema is not part of this model. The common containers hold `JsonSchema.Schema` trees, which are taken to behave like those of backend/module/spec/jsonschema.
- The `spec2` package (its `GlobalParameters.Add`, `ItemsTreeToList` and record types) is not part of this model. Its records are plain datatypes in `Spec2`, and `Spec2.AddParam` appends to the bucket of a location.
- `CollectionHttpResponse` of backend/module/spec is not part of this model. Its methods (`DerefModel`, `DerefResponse`, `DelRefModel`, `GetRefModelIDs`, `GetRefResponseIDs`) are the functions of a `ResponseOps` value.
- Go panics are not modelled as crashes. The ones below are error results, preconditions or values, and the lines after this list name the others:
  - `Diff` with other than one operation on each side returns an error.
  - Common `HTTPRequestNode.AddGlobalExcept` on a nil exception map is excluded by its precondition.
  - Common `HTTPRequestNode.RemoveGlobalExcept` on a nil exception map, for one of the four locations, assigns into the nil map (http.go:141-148) and panics in Go. Its precondition excludes that case.
  - `equalJsonSchema` on an empty type list compares the first type as "". On an array whose `items` is absent or a boolean it does not descend.
  - The 3.x `generatePaths` dereferences the converted schema of a body without a schema. The model stores the nil schema instead.
  - `generateComponents` and the 2.0 `generateBase` dereference the converted schema of a model without a schema. The model keeps the definition as `None`.
  - The 2.0 importer's type assertion on a non-string `x-apicat-response-name` (2.go:305) is not modelled. The name is an optional string.
  - The 3.x importer's type assertion on a non-string `x-apicat-response-name` (3.x.go:256) is not modelled either. The name is an optional string there too.
- Diff.Diff: a side whose single collection holds no http operation makes `getMapOne` return nil (diff.go:42-51), and reading `au.Path` (diff.go:32-34) panics in Go. A `Diff.Collection` is always one operation, so the model cannot express a collection without one.
- ModuleSpec.CollectionHttpRequest.DerefModel: a non-nil model whose `Schema` is nil panics in Go at `ref.Schema.ID = ref.ID` (collection_http_request.go:225). A `DefinitionModel` always holds a schema, so the model has no such case, and its promise of no error for every non-nil model does not cover it.
- Nil pointers held in lists and maps are not modelled: a nil `*Body` in a content map, a nil entry in a definitions, parameters or responses list, and a model's nil `Schema` cannot be written in the model's datatypes. Go dereferences such entries in several places and panics there.
- Diff.ContentDiffOpt: with `del`, Go's `equalContent` assigns into the newer side's content map (diff.go:110). When that map is nil and the older side has a MIME type the newer lacks, Go panics. The model returns `None` instead.
- Diff.PropsDiff: with `del`, Go assigns into the newer schema's `Properties` map (diff.go:209). When that map is nil and the older object has a property the newer lacks, Go panics. The model builds the map anyway. `Diff.JsonDiff`, which calls it, inherits this.
- Diff.SchemaDiff: Go's `equalSchema` calls `equalJsonSchema`, which reads `a.Type` at once (diff.go:173, diff.go:180), so a nil `Schema` on either side panics. The model leaves the newer side unchanged then.
- Diff.NormalEqual: Go's `equalJsonSchemaNormal` compares the two `default` values with `!=` (diff.go:221). `Default` is an `any`, so two defaults that both decode to JSON arrays, or both to JSON objects, make Go panic. The model keeps `default` as opaque text and compares it as text, so it answers instead of crashing. `Diff.EqualJsonSchemaNormal`, `Diff.JsonDiff`, `Diff.EqualJsonSchema`, `Diff.JsonDiffIdentical` and every diff built on them (`Diff.EqualSchema`, `Diff.EqualSchemas`, `Diff.EqualContent`, `Diff.EqualResponse`, `Diff.Diff`) inherit this: where they state an answer for such defaults, Go panics instead.
- CommonSpec.EqualNomal: `s.Example != o.Example` (backend/common/spec/schema.go:88) compares `any` values the same way and panics on two array or object examples. The model compares the examples as text.
- CommonSpec.EqualExamples: as written, the removed example may overwrite one of the second side's examples (see Findings). A later summary of that lost example is then looked up in vain, and Go dereferences the nil example it finds. The model skips that summary and returns false. So with `AsWritten` and keys that are not "0" to "n-1", only the facts that do not need dense keys are stated. Comparing two example values with `!=` panics in Go when they hold uncomparable `any` values. The model compares them as opaque text.
- SwaggerGenerate.HeaderSchema: Go writes into `v.Schema` of every header (2.go:586), so a header without a schema panics. The model gives the header no schema (`None`).
- SwaggerParse.SwaggerParser.ParseGlobalParameters: the `x-apicat-global-parameters` value is asserted to be a `map[string]any` (2.go:192). Go panics when it is anything else. The model takes the entries as an already decoded map.
- OpenApiParse.OpenApiParser.ParseGlobalParameters: the same assertion is made in the 3.x importer (3.x.go:178), and the model takes the decoded map there too.
- CommonSpec.HTTPParameters.Add: callers pass one of the four location names. Any other string is ignored by the source (http.go:33-42) and by the model, and no precondition excludes it. The model does not check that callers keep to the four names.
- ModuleSpec.CollectionHttpRequest.DerefModel: Go first sets `ref.Schema.ID = ref.ID` (collection_http_request.go:225), which changes the caller's model. The same schema pointer is then copied into every reference it replaces. The model passes the model as a value: the copied schema carries the id (`ModelTarget`), but the caller's model is unchanged and the sharing is not represented.
- SwaggerParse.CollectionOf: for an operation without responses, `parseResponse` returns a nil response object (2.go:286-288), and Go then appends `res.ToCollectionNode()` of that nil object (2.go:388-392). `ToCollectionNode` belongs to the `spec2` package, which is not part of this model. The model stores an empty response list in the collection.
- CollectionTree.BuildTree: Go recursion has no bound, and a row whose parent chain loops recurses for ever. The model descends at most `depth` levels. For rows whose parent chains do not loop, every depth from the parent's rank on gives the same tree (`CollectionTree.AcyclicDepthHarmless`), so the bound changes nothing there.
- DefinitionNames.DefinitionIdToName: the Go loop has no bound. The model runs at most `fuel` rounds and answers `None` when the fuel runs out with a reference still present. An id too large for `strconv.Atoi` makes the Go loop spin for ever (`DefinitionNames.OverflowSpins`).
- SwaggerGenerate.SwaggerGenerator.GenerateResponseWithoutRef: Go also overwrites the description, default and examples of each header's schema in the caller's document. The model returns the exported header and leaves the document unchanged.
- SwaggerGenerate.GeneratedResponse: the 2.0 `$ref` to a response definition uses "<name>-<id>". The top-level definitions of `generateBase` are keyed "<name without spaces>-<id>", so a name with a space leaves the `$ref` dangling, exactly as in the 3.x exporter (see Findings). This key is modelled as written only. The `formData` `required` lookup (2.go:543-550) is modelled both ways: the exporter's methods take a `Variant`, and `AsWritten` reads the property's own list, as the source does.
- PostmanImport.ConvertPath: Go rewrites the path segments of the Postman item in place. The model returns the rewritten segments, and the item is unchanged.
- PostmanImport.ChildId: ids are `parent*1024 + i + 1` in wrapping 64-bit arithmetic. Siblings beyond the 1024th share ids with the next parent's children; only the in-range injectivity is proved. An item that has both a request and children yields two collections with one id, as in the source.
- Several functions are not part of this model: the 2.0 and 3.x `parseInfo`, the 3.x `parseServers` (field copies), the 2.0 `parseDefinitionResponses`, and the `convert` functions of backend/route/api/collection/func.go (field copies). The code that fills the 3.x parser's `parametersMapping` is not part of this model either; the map is a constructor argument.
- ModuleSpec.AddAll: `HTTPParameters` of backend/module/spec, with its `Add`, is not part of this model. `AddAll` assumes that `Add` appends to the bucket named by the location and ignores any other name, as the common/spec `Add` does (http.go:32-43). `ModuleSpec.ExpandGlobalsEffect`, `ModuleSpec.CollectionHttpRequest.DerefLocation` and `ModuleSpec.CollectionHttpRequest.DerefGlobalParameters` rest on that assumption.
- JsonSchema.TypeFirst: `SchemaType` and its `List` and `First` methods are not part of this model. `TypeList` assumes that `List` gives the stored names, or none for a nil type. `TypeFirst` assumes that `First` gives the first name, or "" for a nil or empty type. Its value on an empty list cannot be read from the source: the 2.0 exporter checks the length before calling `First` (2.go:527-531), and the other callers do not. The anyOf/oneOf type index (`SchemaEqual.TypeIndex`), `SwaggerGenerate.FormParam`'s type, the 3.x "file" rewrite (`OpenApiGenerate.ConvertSchema`) and the type-change test of the diff (`Diff.TypeChangeStops`) rest on these definitions.
- CommonSpec.IsRef: the wrapper `Ref()` of backend/common/spec and backend/module/spec does not check for a nil receiver and panics on a nil wrapper. The model's wrappers are never nil, so that case is not represented. The same holds for `CommonSpec.IsRefDefine`.
- Console output is not modelled: the `fmt.Println` in the name-change branch of `equalSchema` (diff.go:168) prints a fixed line and changes nothing, and `Diff.EqualSchema` leaves it out.
- The visiting order of Go maps is a parameter (`KeyOrder` with `ValidOrder`, or the order of an entry sequence). Results are stated for every order, but the order itself is not modelled.

## Findings

| source | as written | input that shows it | evidently intended | confidence | as-written member | corrected member |
|---|---|---|---|---|---|---|
| backend/module/spec/jsonschema/schema.go:631-634 | `Equal` builds the second schema's anyOf map (`atypes`) from the first schema's list `s.AnyOf`, so the members are compared with themselves (lines 664-667 do the same for oneOf) | `{anyOf: [{type: string}]}` against `{anyOf: [{type: integer}]}` compares equal | build `atypes` from `a.AnyOf` (and `a.OneOf`) | not executed | SchemaEqual.AnyOfCounterexample | SchemaEqual.IntendedAnyOfTypesAgree |
| backend/common/spec/schema.go:117 | `EqualExamples` files a removed example under `strconv.Itoa(len(o.Examples))`, which may already be a key of `o.Examples` | `o.Examples` holding summary "b" under the key "1", and `s` holding an example "a" that `o` lacks: "a" is filed under "1" and "b" is lost | file it under a key not yet used, so that no example of `o` is lost; `CommonSpec.EqualExamples` takes a `Variant` for the two filings, which agree while the keys are "0" to "n-1" (`CommonSpec.InsertRemovedDense`) | not executed | CommonSpec.InsertRemovedAsWrittenOverwrites | CommonSpec.InsertRemoved |
| backend/common/spec/http.go:330-334 | `HTTPResponseDefines.SetXDiff` ranges over copies of the defines, so each define's own `XDiff` is set on the copy only; headers and bodies, shared with the copy, are marked | one unmarked define, marked "+": its headers are marked, its own marker stays unset | mark each define in the slice, its own marker included | not executed | CommonSpec.DefinesSetXDiffLosesMarker | CommonSpec.DefinesSetXDiff |
| backend/models/definition_schemas.go:208 | `DefinitionIdToName` replaces every occurrence of the matched `#/definitions/schemas/<id>` text, which is also a prefix of references to longer ids | models 1 → "A" and 12 → "B", content `#/definitions/schemas/1#/definitions/schemas/12`: the second reference becomes `#/definitions/schemas/A2` | replace only whole references, not a prefix of a longer one | not executed | DefinitionNames.ShorterIdCorruptsLonger | DefinitionNames.WholeLoopNamesBoth |
| backend/module/spec2/plugin/openapi/2.go:543-550 | a `formData` parameter's `required` is looked up in the property's own `required` list (`v.Required`), not in the form object's | a form object `{a: string}` whose `required` is ["a"]: parameter "a" is exported not required | look the name up in the form object's `required`, where the importer puts it (2.go:252-254) | not executed | SwaggerGenerate.FormRequiredDropped | SwaggerGenerate.FormParam |
| backend/module/spec2/plugin/openapi/3.x.go:450 | `generateResponse` names a response definition `<name>-<id>`, while `generateComponents` keys a top-level definition `<name without spaces>-<id>` (line 491) | a top-level response definition named "a b" with id 3: the `$ref` is `#/components/responses/a b-3`, but the key is "ab-3" | use the key that `generateComponents` uses | not executed | OpenApiGenerate.DanglingResponseRef | OpenApiGenerate.RefResolves |
