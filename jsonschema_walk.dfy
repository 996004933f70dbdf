/**
 * The recursive walks of backend/module/spec/jsonschema/schema.go: they all
 * visit allOf, anyOf, oneOf, the property values and a non-boolean `items`
 * (never `additionalProperties`). A path of steps names one node of that
 * walk; the walks are characterised by the nodes their paths reach.
 */
module SchemaWalk {
  import opened Wrappers
  import opened Text
  import opened JsonSchema

  /** One edge of the walk. */
  datatype Step = InAllOf(i: nat) | InAnyOf(i: nat) | InOneOf(i: nat) | InProperty(name: string) | InItems

  function Child(s: Schema, step: Step): Option<Schema>
  {
    match step
    case InAllOf(i) => if i < |s.allOf| then Some(s.allOf[i]) else None
    case InAnyOf(i) => if i < |s.anyOf| then Some(s.anyOf[i]) else None
    case InOneOf(i) => if i < |s.oneOf| then Some(s.oneOf[i]) else None
    case InProperty(k) => if k in s.properties then Some(s.properties[k]) else None
    case InItems => if s.items.Nested? then Some(s.items.schema) else None
  }

  /** The node at the end of `path`, if every step exists. */
  function At(s: Schema, path: seq<Step>): Option<Schema>
    decreases |path|
  {
    if |path| == 0 then Some(s)
    else match Child(s, path[0])
      case None => None
      case Some(c) => At(c, path[1..])
  }

  lemma AtCons(s: Schema, step: Step, c: Schema, path: seq<Step>)
    requires Child(s, step) == Some(c)
    ensures At(s, [step] + path) == At(c, path)
  {
    assert ([step] + path)[1..] == path;
  }

  /** Some node on the walk, `s` included, satisfies `p`. */
  ghost predicate ReachesNode(s: Schema, p: Schema -> bool, path: seq<Step>)
  {
    At(s, path).Some? && p(At(s, path).value)
  }

  /** The recursive form of "some walked node satisfies `p`". */
  ghost function AnyNode(s: Schema, p: Schema -> bool): bool
    decreases s
  {
    p(s)
    || (exists i | 0 <= i < |s.allOf| :: AnyNode(s.allOf[i], p))
    || (exists i | 0 <= i < |s.anyOf| :: AnyNode(s.anyOf[i], p))
    || (exists i | 0 <= i < |s.oneOf| :: AnyNode(s.oneOf[i], p))
    || (exists k | k in s.properties :: AnyNode(s.properties[k], p))
    || (s.items.Nested? && AnyNode(s.items.schema, p))
  }

  lemma {:induction false} AnyNodeFromPath(s: Schema, p: Schema -> bool, path: seq<Step>)
    requires ReachesNode(s, p, path)
    ensures AnyNode(s, p)
    decreases |path|
  {
    if |path| > 0 {
      var c := Child(s, path[0]).value;
      AnyNodeFromPath(c, p, path[1..]);
      match path[0]
      case InAllOf(i) => assert AnyNode(s.allOf[i], p);
      case InAnyOf(i) => assert AnyNode(s.anyOf[i], p);
      case InOneOf(i) => assert AnyNode(s.oneOf[i], p);
      case InProperty(k) => assert AnyNode(s.properties[k], p);
      case InItems =>
    }
  }

  lemma {:induction false} PathFromAnyNode(s: Schema, p: Schema -> bool)
    requires AnyNode(s, p)
    ensures exists path :: ReachesNode(s, p, path)
    decreases s
  {
    if p(s) {
      assert ReachesNode(s, p, []);
    } else {
      var step: Step;
      if exists i | 0 <= i < |s.allOf| :: AnyNode(s.allOf[i], p) {
        var i :| 0 <= i < |s.allOf| && AnyNode(s.allOf[i], p);
        step := InAllOf(i);
      } else if exists i | 0 <= i < |s.anyOf| :: AnyNode(s.anyOf[i], p) {
        var i :| 0 <= i < |s.anyOf| && AnyNode(s.anyOf[i], p);
        step := InAnyOf(i);
      } else if exists i | 0 <= i < |s.oneOf| :: AnyNode(s.oneOf[i], p) {
        var i :| 0 <= i < |s.oneOf| && AnyNode(s.oneOf[i], p);
        step := InOneOf(i);
      } else if exists k | k in s.properties :: AnyNode(s.properties[k], p) {
        var k :| k in s.properties && AnyNode(s.properties[k], p);
        step := InProperty(k);
      } else {
        step := InItems;
      }
      var c := Child(s, step).value;
      PathFromAnyNode(c, p);
      var rest :| ReachesNode(c, p, rest);
      AtCons(s, step, c, rest);
      assert ReachesNode(s, p, [step] + rest);
    }
  }

  /** The walk reaches a node satisfying `p` exactly when some path does. */
  lemma AnyNodeIffPath(s: Schema, p: Schema -> bool)
    ensures AnyNode(s, p) <==> exists path :: ReachesNode(s, p, path)
  {
    if AnyNode(s, p) {
      PathFromAnyNode(s, p);
    } else if exists path :: ReachesNode(s, p, path) {
      var path :| ReachesNode(s, p, path);
      AnyNodeFromPath(s, p, path);
    }
  }

  /** `DeepRef()`: the node or something under it is a reference. */
  function DeepRef(s: Schema): bool
    decreases s
  {
    s.ref.Some?
    || (exists i | 0 <= i < |s.allOf| :: DeepRef(s.allOf[i]))
    || (exists i | 0 <= i < |s.anyOf| :: DeepRef(s.anyOf[i]))
    || (exists i | 0 <= i < |s.oneOf| :: DeepRef(s.oneOf[i]))
    || (exists k | k in s.properties :: DeepRef(s.properties[k]))
    || (s.items.Nested? && DeepRef(s.items.schema))
  }

  predicate IsRefNode(s: Schema)
  {
    s.ref.Some?
  }

  lemma {:induction false} DeepRefIsAnyNode(s: Schema)
    ensures DeepRef(s) == AnyNode(s, IsRefNode)
    decreases s
  {
    forall i | 0 <= i < |s.allOf| ensures DeepRef(s.allOf[i]) == AnyNode(s.allOf[i], IsRefNode) { DeepRefIsAnyNode(s.allOf[i]); }
    forall i | 0 <= i < |s.anyOf| ensures DeepRef(s.anyOf[i]) == AnyNode(s.anyOf[i], IsRefNode) { DeepRefIsAnyNode(s.anyOf[i]); }
    forall i | 0 <= i < |s.oneOf| ensures DeepRef(s.oneOf[i]) == AnyNode(s.oneOf[i], IsRefNode) { DeepRefIsAnyNode(s.oneOf[i]); }
    forall k | k in s.properties ensures DeepRef(s.properties[k]) == AnyNode(s.properties[k], IsRefNode) { DeepRefIsAnyNode(s.properties[k]); }
    if s.items.Nested? { DeepRefIsAnyNode(s.items.schema); }
  }

  /** `DeepRef()` holds exactly when some walked node carries a `$ref`. */
  lemma DeepRefIffRefReachable(s: Schema)
    ensures DeepRef(s) <==> exists path :: ReachesNode(s, IsRefNode, path)
  {
    DeepRefIsAnyNode(s);
    AnyNodeIffPath(s, IsRefNode);
  }

  /** `CheckAllOf()`. */
  predicate HasAllOf(s: Schema)
  {
    |s.allOf| > 0
  }

  /** `DeepCheckAllOf()`: a non-empty allOf here or below; allOf members themselves are not searched. */
  function DeepCheckAllOf(s: Schema): bool
    decreases s
  {
    HasAllOf(s)
    || (exists i | 0 <= i < |s.anyOf| :: DeepCheckAllOf(s.anyOf[i]))
    || (exists i | 0 <= i < |s.oneOf| :: DeepCheckAllOf(s.oneOf[i]))
    || (exists k | k in s.properties :: DeepCheckAllOf(s.properties[k]))
    || (s.items.Nested? && DeepCheckAllOf(s.items.schema))
  }

  lemma {:induction false} DeepCheckAllOfIsAnyNode(s: Schema)
    ensures DeepCheckAllOf(s) == AnyNode(s, HasAllOf)
    decreases s
  {
    forall i | 0 <= i < |s.anyOf| ensures DeepCheckAllOf(s.anyOf[i]) == AnyNode(s.anyOf[i], HasAllOf) { DeepCheckAllOfIsAnyNode(s.anyOf[i]); }
    forall i | 0 <= i < |s.oneOf| ensures DeepCheckAllOf(s.oneOf[i]) == AnyNode(s.oneOf[i], HasAllOf) { DeepCheckAllOfIsAnyNode(s.oneOf[i]); }
    forall k | k in s.properties ensures DeepCheckAllOf(s.properties[k]) == AnyNode(s.properties[k], HasAllOf) { DeepCheckAllOfIsAnyNode(s.properties[k]); }
    if s.items.Nested? { DeepCheckAllOfIsAnyNode(s.items.schema); }
  }

  /** Skipping allOf members loses nothing: `DeepCheckAllOf()` holds exactly when some walked node has an allOf. */
  lemma DeepCheckAllOfIffReachable(s: Schema)
    ensures DeepCheckAllOf(s) <==> exists path :: ReachesNode(s, HasAllOf, path)
  {
    DeepCheckAllOfIsAnyNode(s);
    AnyNodeIffPath(s, HasAllOf);
  }

  /** In a marked tree the same paths exist, and each leads to the marked version of the old node. */
  lemma {:induction false} MarkAt(s: Schema, x: Marker, path: seq<Step>)
    ensures At(Mark(s, x), path).Some? == At(s, path).Some?
    ensures At(s, path).Some? ==> At(Mark(s, x), path).value == Mark(At(s, path).value, x)
    decreases |path|
  {
    if |path| > 0 {
      var m := Mark(s, x);
      match Child(s, path[0])
      case None =>
      case Some(c) =>
        assert Child(m, path[0]) == Some(Mark(c, x));
        MarkAt(c, x, path[1..]);
    }
  }

  /** `SetXDiff(x)` with a non-empty marker sets it on every node the walk reaches. */
  lemma SetXDiffMarksEveryNode(s: Schema, x: Marker, path: seq<Step>)
    requires x != Unset && At(s, path).Some?
    ensures At(SetXDiff(s, x), path).Some? && At(SetXDiff(s, x), path).value.xDiff == x
  {
    MarkAt(s, x, path);
  }

  /**
   * The values a walk collects: at a node where `f` answers, that answer and
   * nothing below it; elsewhere, the values collected under its children.
   */
  ghost function Collected<T>(s: Schema, f: Schema -> Option<T>): multiset<T>
    decreases s, 3
  {
    if f(s).Some? then multiset{f(s).value}
    else
      SeqCollected(s.allOf, f) + SeqCollected(s.anyOf, f) + SeqCollected(s.oneOf, f)
      + PropsCollected(s, s.properties.Keys, f)
      + (if s.items.Nested? then Collected(s.items.schema, f) else multiset{})
  }

  ghost function SeqCollected<T>(xs: seq<Schema>, f: Schema -> Option<T>): multiset<T>
    decreases xs
  {
    if |xs| == 0 then multiset{}
    else SeqCollected(xs[..|xs| - 1], f) + Collected(xs[|xs| - 1], f)
  }

  ghost function PropsCollected<T>(s: Schema, keys: set<string>, f: Schema -> Option<T>): multiset<T>
    requires keys <= s.properties.Keys
    decreases s, 0, keys
  {
    if keys == {} then multiset{}
    else
      var k :| k in keys;
      Collected(s.properties[k], f) + PropsCollected(s, keys - {k}, f)
  }

  /** The property sum does not depend on which key is taken first. */
  lemma {:induction false} PropsCollectedRemove<T>(s: Schema, keys: set<string>, f: Schema -> Option<T>, k: string)
    requires keys <= s.properties.Keys && k in keys
    ensures PropsCollected(s, keys, f) == Collected(s.properties[k], f) + PropsCollected(s, keys - {k}, f)
    decreases keys
  {
    var j :| j in keys && PropsCollected(s, keys, f) == Collected(s.properties[j], f) + PropsCollected(s, keys - {j}, f);
    if j != k {
      PropsCollectedRemove(s, keys - {j}, f, k);
      PropsCollectedRemove(s, keys - {k}, f, j);
      assert keys - {j} - {k} == keys - {k} - {j};
    }
  }

  lemma SeqCollectedSnoc<T>(xs: seq<Schema>, i: nat, f: Schema -> Option<T>)
    requires i < |xs|
    ensures SeqCollected(xs[..i + 1], f) == SeqCollected(xs[..i], f) + Collected(xs[i], f)
  {
    assert xs[..i + 1][..i] == xs[..i];
  }

  /** What `DeepGetRefID` reads at one node: the `GetRefID` result when there is no error. */
  function RefIdOf(s: Schema): Option<Int64>
  {
    match GetRefID(Some(s))
    case Ok(id) => Some(id)
    case Err(_) => None
  }

  /**
   * `DeepGetRefID()`: the ids of the references met by the walk, which stops
   * at a reference whose id it can read. Properties are visited in Go's map
   * order, so only the multiset of ids is fixed.
   */
  method DeepGetRefID(s: Schema) returns (ids: seq<Int64>)
    ensures multiset(ids) == Collected(s, RefIdOf)
    decreases s, 2
  {
    var id := GetRefID(Some(s));
    if id.Ok? {
      return [id.value];
    }
    var all := RefIDsOfList(s.allOf);
    var any := RefIDsOfList(s.anyOf);
    var one := RefIDsOfList(s.oneOf);
    var props := RefIDsOfProperties(s);
    var items := [];
    if s.items.Nested? {
      items := DeepGetRefID(s.items.schema);
    }
    ids := all + any + one + props + items;
  }

  /** The loop of `DeepGetRefID` over one composition list. */
  method RefIDsOfList(xs: seq<Schema>) returns (ids: seq<Int64>)
    ensures multiset(ids) == SeqCollected(xs, RefIdOf)
    decreases xs
  {
    ids := [];
    for i := 0 to |xs|
      invariant multiset(ids) == SeqCollected(xs[..i], RefIdOf)
    {
      var sub := DeepGetRefID(xs[i]);
      SeqCollectedSnoc(xs, i, RefIdOf);
      ids := ids + sub;
    }
    assert xs[..|xs|] == xs;
  }

  /** The loop of `DeepGetRefID` over the property values, in map order. */
  method RefIDsOfProperties(s: Schema) returns (ids: seq<Int64>)
    ensures multiset(ids) == PropsCollected(s, s.properties.Keys, RefIdOf)
    decreases s, 1
  {
    ids := [];
    var keys := s.properties.Keys;
    while keys != {}
      invariant keys <= s.properties.Keys
      invariant multiset(ids) + PropsCollected(s, keys, RefIdOf) == PropsCollected(s, s.properties.Keys, RefIdOf)
      decreases keys
    {
      var k :| k in keys;
      var sub := DeepGetRefID(s.properties[k]);
      PropsCollectedRemove(s, keys, RefIdOf, k);
      ids := ids + sub;
      keys := keys - {k};
    }
  }

  /** What `DeepFindRefById(id)` keeps at one node: the node itself when it refers to `id`. */
  function FoundBy(id: string): Schema -> Option<Schema>
  {
    n => if IsRefID(Some(n), id) then Some(n) else None
  }

  /**
   * `DeepFindRefById(id)`: the reference nodes to `id` met by the walk, which
   * stops at each of them. Go returns pointers into the tree; here the nodes.
   */
  method DeepFindRefById(s: Schema, id: string) returns (refs: seq<Schema>)
    ensures multiset(refs) == Collected(s, FoundBy(id))
    decreases s, 2
  {
    if IsRefID(Some(s), id) {
      return [s];
    }
    var all := RefsOfList(s.allOf, id);
    var any := RefsOfList(s.anyOf, id);
    var one := RefsOfList(s.oneOf, id);
    var props := RefsOfProperties(s, id);
    var items := [];
    if s.items.Nested? {
      items := DeepFindRefById(s.items.schema, id);
    }
    refs := all + any + one + props + items;
  }

  /** The loop of `DeepFindRefById` over one composition list. */
  method RefsOfList(xs: seq<Schema>, id: string) returns (refs: seq<Schema>)
    ensures multiset(refs) == SeqCollected(xs, FoundBy(id))
    decreases xs
  {
    refs := [];
    for i := 0 to |xs|
      invariant multiset(refs) == SeqCollected(xs[..i], FoundBy(id))
    {
      var sub := DeepFindRefById(xs[i], id);
      SeqCollectedSnoc(xs, i, FoundBy(id));
      refs := refs + sub;
    }
    assert xs[..|xs|] == xs;
  }

  /** The loop of `DeepFindRefById` over the property values, in map order. */
  method RefsOfProperties(s: Schema, id: string) returns (refs: seq<Schema>)
    ensures multiset(refs) == PropsCollected(s, s.properties.Keys, FoundBy(id))
    decreases s, 1
  {
    refs := [];
    var keys := s.properties.Keys;
    while keys != {}
      invariant keys <= s.properties.Keys
      invariant multiset(refs) + PropsCollected(s, keys, FoundBy(id)) == PropsCollected(s, s.properties.Keys, FoundBy(id))
      decreases keys
    {
      var k :| k in keys;
      var sub := DeepFindRefById(s.properties[k], id);
      PropsCollectedRemove(s, keys, FoundBy(id), k);
      refs := refs + sub;
      keys := keys - {k};
    }
  }

  /** Every collected value is `f`'s answer at some node the walk reaches. */
  lemma CollectedFromNode<T>(s: Schema, f: Schema -> Option<T>, v: T)
    requires v in Collected(s, f)
    ensures exists path :: At(s, path).Some? && f(At(s, path).value) == Some(v)
  {
    var path := CollectedPath(s, f, v);
  }

  /** Every node the walk reaches and where `f` answers contributes its answer. */
  lemma {:induction false} CollectedComplete<T>(s: Schema, f: Schema -> Option<T>, path: seq<Step>)
    requires Descends(s, f, path) && At(s, path).Some? && f(At(s, path).value).Some?
    ensures f(At(s, path).value).value in Collected(s, f)
    decreases |path|
  {
    if |path| > 0 {
      var c := Child(s, path[0]).value;
      CollectedComplete(c, f, path[1..]);
      ChildCollected(s, f, path[0]);
    }
  }

  /** Below a node where `f` is silent, each child's values are among the node's. */
  lemma ChildCollected<T>(s: Schema, f: Schema -> Option<T>, step: Step)
    requires f(s).None? && Child(s, step).Some?
    ensures Collected(Child(s, step).value, f) <= Collected(s, f)
  {
    match step
    case InAllOf(i) => SeqCollectedAt(s.allOf, f, i);
    case InAnyOf(i) => SeqCollectedAt(s.anyOf, f, i);
    case InOneOf(i) => SeqCollectedAt(s.oneOf, f, i);
    case InProperty(k) => PropsCollectedRemove(s, s.properties.Keys, f, k);
    case InItems =>
  }

  /**
   * What a deep walk collects: `v` is collected exactly when `f` answers `v`
   * at a node the walk descends to, so nothing below an answering node is
   * looked at.
   */
  lemma CollectedIff<T>(s: Schema, f: Schema -> Option<T>, v: T)
    ensures v in Collected(s, f) <==> exists path :: AnswersAt(s, f, v, path) && Descends(s, f, path)
  {
    if v in Collected(s, f) {
      var path := CollectedPath(s, f, v);
    }
    if path :| AnswersAt(s, f, v, path) && Descends(s, f, path) {
      CollectedComplete(s, f, path);
    }
  }

  /**
   * `DeepGetRefID()` returns `v` exactly when a node carrying the readable id
   * `v` is reached without passing a node whose id was read.
   */
  lemma DeepGetRefIDIff(s: Schema, v: Int64)
    ensures v in Collected(s, RefIdOf) <==> exists path :: AnswersAt(s, RefIdOf, v, path) && Descends(s, RefIdOf, path)
  {
    CollectedIff(s, RefIdOf, v);
  }

  /**
   * `DeepFindRefById(id)` returns `n` exactly when `n` refers to `id` and is
   * reached without passing another node that refers to `id`.
   */
  lemma DeepFindRefByIdIff(s: Schema, id: string, n: Schema)
    ensures n in Collected(s, FoundBy(id)) <==>
      exists path :: At(s, path) == Some(n) && IsRefID(Some(n), id) && Descends(s, FoundBy(id), path)
  {
    CollectedIff(s, FoundBy(id), n);
    if path :| At(s, path) == Some(n) && IsRefID(Some(n), id) && Descends(s, FoundBy(id), path) {
      assert AnswersAt(s, FoundBy(id), n, path);
    }
  }

  /** `f` answers `v` at the node at the end of `path`. */
  ghost predicate AnswersAt<T>(s: Schema, f: Schema -> Option<T>, v: T, path: seq<Step>)
  {
    At(s, path).Some? && f(At(s, path).value) == Some(v)
  }

  /**
   * The walk follows `path` to its end: at every node strictly before the end
   * `f` is silent, so the walk descends instead of stopping there.
   */
  ghost predicate Descends<T>(s: Schema, f: Schema -> Option<T>, path: seq<Step>)
    decreases |path|
  {
    |path| == 0 || (f(s).None? && Child(s, path[0]).Some? && Descends(Child(s, path[0]).value, f, path[1..]))
  }

  /** The path to the node a collected value comes from, along which the walk descends. */
  lemma {:induction false} CollectedPath<T>(s: Schema, f: Schema -> Option<T>, v: T) returns (path: seq<Step>)
    requires v in Collected(s, f)
    ensures AnswersAt(s, f, v, path) && Descends(s, f, path)
    decreases s, 2
  {
    if f(s).Some? {
      path := [];
    } else {
      var step := CollectedChild(s, f, v);
      match step {
        case InAllOf(i) => path := PathVia(s, step, s.allOf[i], f, v);
        case InAnyOf(i) => path := PathVia(s, step, s.anyOf[i], f, v);
        case InOneOf(i) => path := PathVia(s, step, s.oneOf[i], f, v);
        case InProperty(k) => path := PathVia(s, step, s.properties[k], f, v);
        case InItems => path := PathVia(s, step, s.items.schema, f, v);
      }
    }
  }

  /** A path through the child `c` of `s`. */
  lemma {:induction false} PathVia<T>(s: Schema, step: Step, c: Schema, f: Schema -> Option<T>, v: T) returns (path: seq<Step>)
    requires f(s).None? && Child(s, step) == Some(c) && v in Collected(c, f)
    ensures AnswersAt(s, f, v, path) && Descends(s, f, path)
    decreases c, 3
  {
    var rest := CollectedPath(c, f, v);
    AtCons(s, step, c, rest);
    path := [step] + rest;
    assert path[0] == step && path[1..] == rest;
  }

  /** The child of `s` a collected value comes from. */
  ghost predicate CollectedVia<T>(s: Schema, f: Schema -> Option<T>, v: T, step: Step)
  {
    Child(s, step).Some? && v in Collected(Child(s, step).value, f)
  }

  /** A value collected below a node where `f` is silent comes from one child. */
  lemma {:induction false} CollectedChild<T>(s: Schema, f: Schema -> Option<T>, v: T) returns (step: Step)
    requires f(s).None? && v in Collected(s, f)
    ensures CollectedVia(s, f, v, step)
  {
    var part := CollectedSplit(s, f, v);
    if part == 0 {
      step := AllOfVia(s, f, v);
    } else if part == 1 {
      step := AnyOfVia(s, f, v);
    } else if part == 2 {
      step := OneOfVia(s, f, v);
    } else if part == 3 {
      step := PropertyVia(s, f, v);
    } else {
      step := InItems;
    }
  }

  lemma {:induction false} AllOfVia<T>(s: Schema, f: Schema -> Option<T>, v: T) returns (step: Step)
    requires v in SeqCollected(s.allOf, f)
    ensures CollectedVia(s, f, v, step)
  {
    var i := SeqCollectedFrom(s.allOf, f, v);
    step := InAllOf(i);
  }

  lemma {:induction false} AnyOfVia<T>(s: Schema, f: Schema -> Option<T>, v: T) returns (step: Step)
    requires v in SeqCollected(s.anyOf, f)
    ensures CollectedVia(s, f, v, step)
  {
    var i := SeqCollectedFrom(s.anyOf, f, v);
    step := InAnyOf(i);
  }

  lemma {:induction false} OneOfVia<T>(s: Schema, f: Schema -> Option<T>, v: T) returns (step: Step)
    requires v in SeqCollected(s.oneOf, f)
    ensures CollectedVia(s, f, v, step)
  {
    var i := SeqCollectedFrom(s.oneOf, f, v);
    step := InOneOf(i);
  }

  lemma {:induction false} PropertyVia<T>(s: Schema, f: Schema -> Option<T>, v: T) returns (step: Step)
    requires v in PropsCollected(s, s.properties.Keys, f)
    ensures CollectedVia(s, f, v, step)
  {
    var k := PropsCollectedFrom(s, s.properties.Keys, f, v);
    step := InProperty(k);
  }

  /** Below a node where `f` is silent, the collected values are those of its lists, properties and items. */
  lemma {:induction false} CollectedSplit<T>(s: Schema, f: Schema -> Option<T>, v: T) returns (part: nat)
    requires f(s).None? && v in Collected(s, f)
    ensures part <= 4
    ensures part == 0 ==> v in SeqCollected(s.allOf, f)
    ensures part == 1 ==> v in SeqCollected(s.anyOf, f)
    ensures part == 2 ==> v in SeqCollected(s.oneOf, f)
    ensures part == 3 ==> v in PropsCollected(s, s.properties.Keys, f)
    ensures part == 4 ==> s.items.Nested? && v in Collected(s.items.schema, f)
  {
    if v in SeqCollected(s.allOf, f) {
      part := 0;
    } else if v in SeqCollected(s.anyOf, f) {
      part := 1;
    } else if v in SeqCollected(s.oneOf, f) {
      part := 2;
    } else if v in PropsCollected(s, s.properties.Keys, f) {
      part := 3;
    } else {
      part := 4;
    }
  }

  lemma {:induction false} SeqCollectedFrom<T>(xs: seq<Schema>, f: Schema -> Option<T>, v: T) returns (i: nat)
    requires v in SeqCollected(xs, f)
    ensures i < |xs| && v in Collected(xs[i], f)
    decreases |xs|
  {
    if v in Collected(xs[|xs| - 1], f) {
      i := |xs| - 1;
    } else {
      i := SeqCollectedFrom(xs[..|xs| - 1], f, v);
    }
  }

  lemma {:induction false} PropsCollectedFrom<T>(s: Schema, keys: set<string>, f: Schema -> Option<T>, v: T) returns (k: string)
    requires keys <= s.properties.Keys && v in PropsCollected(s, keys, f)
    ensures k in keys && v in Collected(s.properties[k], f)
    decreases keys
  {
    var j :| j in keys && PropsCollected(s, keys, f) == Collected(s.properties[j], f) + PropsCollected(s, keys - {j}, f);
    if v in Collected(s.properties[j], f) {
      k := j;
    } else {
      k := PropsCollectedFrom(s, keys - {j}, f, v);
    }
  }

  /** Every node `DeepFindRefById(id)` returns refers to `id`. */
  lemma FoundRefsReferToId(s: Schema, id: string, n: Schema)
    requires n in Collected(s, FoundBy(id))
    ensures IsRefID(Some(n), id)
  {
    CollectedFromNode(s, FoundBy(id), n);
  }

  /** A tree from which `DeepGetRefID` collects an id has a reference: `DeepRef()` holds. */
  lemma RefIdsImplyDeepRef(s: Schema, v: Int64)
    requires v in Collected(s, RefIdOf)
    ensures DeepRef(s)
  {
    CollectedFromNode(s, RefIdOf, v);
    var path :| At(s, path).Some? && RefIdOf(At(s, path).value) == Some(v);
    assert ReachesNode(s, IsRefNode, path);
    DeepRefIffRefReachable(s);
  }

  /** A tree in which `DeepFindRefById` finds a node has a reference: `DeepRef()` holds. */
  lemma FoundRefsImplyDeepRef(s: Schema, id: string, n: Schema)
    requires n in Collected(s, FoundBy(id))
    ensures DeepRef(s)
  {
    CollectedFromNode(s, FoundBy(id), n);
    var path :| At(s, path).Some? && FoundBy(id)(At(s, path).value) == Some(n);
    assert ReachesNode(s, IsRefNode, path);
    DeepRefIffRefReachable(s);
  }

  /**
   * `Ref()` is what the deep walks look for: a node that is a `Ref()` is
   * `DeepRef()`, and a tree with no `Ref()` node anywhere gives
   * `DeepGetRefID` and `DeepFindRefById` nothing.
   */
  lemma RefDrivesWalks(s: Schema, id: string)
    ensures Ref(Some(s)) ==> DeepRef(s)
    ensures !DeepRef(s) ==> Collected(s, RefIdOf) == multiset{} && Collected(s, FoundBy(id)) == multiset{}
  {
    var ids := Collected(s, RefIdOf);
    var found := Collected(s, FoundBy(id));
    if ids != multiset{} {
      var v :| v in ids;
      RefIdsImplyDeepRef(s, v);
    }
    if found != multiset{} {
      var n :| n in found;
      FoundRefsImplyDeepRef(s, id, n);
    }
  }

  /**
   * The tree after every node found by `DeepFindRefById(id)` has been
   * overwritten (`*s = *clone(target)`) with the target, as `DerefModel` does.
   * The found nodes are disjoint, so the order of the overwrites is irrelevant,
   * and nothing inside a copied target is searched again.
   */
  function SubstRef(s: Schema, id: string, target: Schema): Schema
    decreases s, 1
  {
    if IsRefID(Some(s), id) then target
    else
      s.(allOf := SubstAll(s.allOf, id, target),
         anyOf := SubstAll(s.anyOf, id, target),
         oneOf := SubstAll(s.oneOf, id, target),
         properties := map k | k in s.properties :: SubstRef(s.properties[k], id, target),
         items := if s.items.Nested? then Nested(SubstRef(s.items.schema, id, target)) else s.items)
  }

  function SubstAll(xs: seq<Schema>, id: string, target: Schema): (r: seq<Schema>)
    ensures |r| == |xs|
    ensures forall i :: 0 <= i < |xs| ==> r[i] == SubstRef(xs[i], id, target)
    decreases xs
  {
    seq(|xs|, i requires 0 <= i < |xs| => SubstRef(xs[i], id, target))
  }

  /** How many references to `id` the walk finds. */
  ghost function RefCount(s: Schema, id: string): nat
  {
    |Collected(s, FoundBy(id))|
  }

  /**
   * Inlining a target that holds no reference to `id` leaves no reference to
   * `id` behind: after `DerefModel`, a model that does not refer to itself is
   * no longer referenced.
   */
  lemma {:induction false} SubstRefRemovesAll(s: Schema, id: string, target: Schema)
    requires RefCount(target, id) == 0
    ensures RefCount(SubstRef(s, id, target), id) == 0
    decreases s, 2
  {
    var f := FoundBy(id);
    if !IsRefID(Some(s), id) {
      var r := SubstRef(s, id, target);
      assert r.allOf == SubstAll(s.allOf, id, target) && r.anyOf == SubstAll(s.anyOf, id, target);
      assert r.oneOf == SubstAll(s.oneOf, id, target);
      assert r.properties.Keys == s.properties.Keys;
      assert r.items.Nested? == s.items.Nested?;
      assert r.items.Nested? ==> r.items.schema == SubstRef(s.items.schema, id, target);
      assert f(r).None?;
      assert Collected(r, f) == SeqCollected(r.allOf, f) + SeqCollected(r.anyOf, f) + SeqCollected(r.oneOf, f)
        + PropsCollected(r, r.properties.Keys, f) + (if r.items.Nested? then Collected(r.items.schema, f) else multiset{});
      SubstAllRemovesAll(s.allOf, id, target);
      SubstAllRemovesAll(s.anyOf, id, target);
      SubstAllRemovesAll(s.oneOf, id, target);
      SubstPropsRemovesAll(s, id, target, s.properties.Keys);
      if s.items.Nested? {
        SubstRefRemovesAll(s.items.schema, id, target);
      }
    }
  }

  lemma {:induction false} SubstAllRemovesAll(xs: seq<Schema>, id: string, target: Schema)
    requires RefCount(target, id) == 0
    ensures SeqCollected(SubstAll(xs, id, target), FoundBy(id)) == multiset{}
    decreases xs
  {
    if |xs| > 0 {
      var n := |xs| - 1;
      var r := SubstAll(xs, id, target);
      SubstAllPrefix(xs, id, target, n);
      SubstAllRemovesAll(xs[..n], id, target);
      SubstRefRemovesAll(xs[n], id, target);
      assert SeqCollected(r, FoundBy(id)) == SeqCollected(r[..n], FoundBy(id)) + Collected(r[n], FoundBy(id));
    }
  }

  lemma SubstAllPrefix(xs: seq<Schema>, id: string, target: Schema, n: nat)
    requires n <= |xs|
    ensures SubstAll(xs, id, target)[..n] == SubstAll(xs[..n], id, target)
  {
  }

  lemma {:induction false} SubstPropsRemovesAll(s: Schema, id: string, target: Schema, keys: set<string>)
    requires RefCount(target, id) == 0
    requires !IsRefID(Some(s), id) && keys <= s.properties.Keys
    ensures PropsCollected(SubstRef(s, id, target), keys, FoundBy(id)) == multiset{}
    decreases s, 0, keys
  {
    if keys != {} {
      var r := SubstRef(s, id, target);
      var k :| k in keys;
      PropsCollectedRemove(r, keys, FoundBy(id), k);
      SubstRefRemovesAll(s.properties[k], id, target);
      SubstPropsRemovesAll(s, id, target, keys - {k});
    }
  }

  /** With no reference to `id`, the overwrite changes nothing. */
  lemma {:induction false} SubstRefWithoutRefs(s: Schema, id: string, target: Schema)
    requires RefCount(s, id) == 0
    ensures SubstRef(s, id, target) == s
    decreases s, 2
  {
    NoRefParts(s, id);
    SubstAllWithoutRefs(s.allOf, id, target);
    SubstAllWithoutRefs(s.anyOf, id, target);
    SubstAllWithoutRefs(s.oneOf, id, target);
    SubstPropsWithoutRefs(s, id, target);
    if s.items.Nested? {
      SubstRefWithoutRefs(s.items.schema, id, target);
    }
    SubstRefOfParts(s, id, target);
  }

  /** The overwrite leaves a node alone when it is not a reference to `id` and leaves each part alone. */
  lemma SubstRefOfParts(s: Schema, id: string, target: Schema)
    requires !IsRefID(Some(s), id)
    requires SubstAll(s.allOf, id, target) == s.allOf && SubstAll(s.anyOf, id, target) == s.anyOf
    requires SubstAll(s.oneOf, id, target) == s.oneOf
    requires (map k | k in s.properties :: SubstRef(s.properties[k], id, target)) == s.properties
    requires s.items.Nested? ==> SubstRef(s.items.schema, id, target) == s.items.schema
    ensures SubstRef(s, id, target) == s
  {
    assert s.items.Nested? ==> s.items == Nested(s.items.schema);
  }

  /** No reference to `id` at or below `s`: none at `s` and none in any of its parts. */
  lemma NoRefParts(s: Schema, id: string)
    requires RefCount(s, id) == 0
    ensures !IsRefID(Some(s), id) && FoundBy(id)(s).None?
    ensures |SeqCollected(s.allOf, FoundBy(id))| == 0 && |SeqCollected(s.anyOf, FoundBy(id))| == 0
    ensures |SeqCollected(s.oneOf, FoundBy(id))| == 0
    ensures s.items.Nested? ==> RefCount(s.items.schema, id) == 0
  {
    assert FoundBy(id)(s).None?;
  }

  lemma {:induction false} SubstAllWithoutRefs(xs: seq<Schema>, id: string, target: Schema)
    requires |SeqCollected(xs, FoundBy(id))| == 0
    ensures SubstAll(xs, id, target) == xs
    decreases xs
  {
    var r := SubstAll(xs, id, target);
    forall i | 0 <= i < |xs| ensures r[i] == xs[i] {
      SeqCollectedAt(xs, FoundBy(id), i);
      SubstRefWithoutRefs(xs[i], id, target);
    }
  }

  lemma {:induction false} SubstPropsWithoutRefs(s: Schema, id: string, target: Schema)
    requires FoundBy(id)(s).None? && RefCount(s, id) == 0
    ensures (map k | k in s.properties :: SubstRef(s.properties[k], id, target)) == s.properties
    decreases s, 1
  {
    var f := FoundBy(id);
    forall k | k in s.properties ensures SubstRef(s.properties[k], id, target) == s.properties[k] {
      PropsCollectedRemove(s, s.properties.Keys, f, k);
      SubstRefWithoutRefs(s.properties[k], id, target);
    }
  }

  /** Each member's collection is part of the list's collection. */
  lemma {:induction false} SeqCollectedAt<T>(xs: seq<Schema>, f: Schema -> Option<T>, i: nat)
    requires i < |xs|
    ensures Collected(xs[i], f) <= SeqCollected(xs, f)
    decreases |xs|
  {
    if i < |xs| - 1 {
      SeqCollectedAt(xs[..|xs| - 1], f, i);
    }
  }
}
