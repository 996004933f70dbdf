/**
 * The JSON-Schema node of the API-description engine
 * (backend/module/spec/jsonschema/schema.go): a recursive record with
 * compositions (allOf/anyOf/oneOf), named properties, `items` and
 * `additionalProperties` that may be a boolean or a schema, and the
 * `x-apicat-*` extensions, together with the operations that look at or
 * rewrite its `$ref`, validate it and mark it for a diff.
 *
 * Go mutates `*Schema` nodes in place; here every rewrite is a function from
 * the old tree to the new one.
 */
module JsonSchema {
  import opened Wrappers
  import opened Text
  import Lists

  /** `x-apicat-diff`: "", "+", "-" or "!". */
  datatype Marker = Unset | Added | Removed | Changed

  /** `*ValueOrBoolean[*Schema]`: nil, a boolean, or a schema. */
  datatype Sub = Absent | Flag(b: bool) | Nested(schema: Schema)

  /**
   * One schema node. `default` and `examples` are Go `any` values, carried as
   * opaque JSON text and compared by equality only. `typ` is the `*SchemaType`
   * pointer: None for nil, otherwise its list of type names.
   */
  datatype Schema = Schema(
    title: string,
    description: string,
    default: Option<string>,
    examples: Option<string>,
    deprecated: Option<bool>,
    ref: Option<string>,
    allOf: seq<Schema>,
    anyOf: seq<Schema>,
    oneOf: seq<Schema>,
    properties: map<string, Schema>,
    additionalProperties: Sub,
    items: Sub,
    typ: Option<seq<string>>,
    required: seq<string>,
    format: string,
    id: Int64,
    xOrder: seq<string>,
    xMock: string,
    xDiff: Marker)

  const CoreTypes: seq<string> := ["string", "integer", "number", "boolean", "object", "array", "null"]

  /** `&Schema{}`. */
  function EmptySchema(): Schema
  {
    Schema("", "", None, None, None, None, [], [], [], map[], Absent, Absent, None, [], "", 0, [], "", Unset)
  }

  /** `SchemaType.List()`; a nil type lists nothing. */
  function TypeList(t: Option<seq<string>>): seq<string>
  {
    if t.Some? then t.value else []
  }

  /** `SchemaType.First()`; a nil or empty type gives "". */
  function TypeFirst(t: Option<seq<string>>): string
  {
    if t.Some? && |t.value| > 0 then t.value[0] else ""
  }

  /**
   * `NewSchema(typ)`: a node of that single type, `object` when the name is
   * empty; every other field keeps its zero value.
   */
  function NewSchema(typ: string): (r: Schema)
    ensures r.ref.None? && r.items.Absent? && r.properties == map[]
    ensures r.typ.Some? && TypeList(r.typ) == [if typ == "" then "object" else typ]
    ensures TypeFirst(r.typ) == if typ == "" then "object" else typ
    ensures r.(typ := None) == EmptySchema()
  {
    EmptySchema().(typ := Some([if typ == "" then "object" else typ]))
  }

  /** `Ref()`: the node is non-nil and carries a `$ref`. */
  predicate Ref(s: Option<Schema>)
  {
    s.Some? && s.value.ref.Some?
  }

  /** `ref` ends with "/" followed by `id`, and `id` holds no "/": `id` is the last pointer segment. */
  predicate LastSegmentIs(ref: string, id: string)
  {
    |id| < |ref| && ref[|ref| - |id| - 1] == '/' && ref[|ref| - |id|..] == id && '/' !in id
  }

  /** `IsRefID(id)`: the node has a `$ref` whose text after the last "/" is `id`. */
  function IsRefID(s: Option<Schema>, id: string): (r: bool)
    ensures r <==> Ref(s) && LastSegmentIs(s.value.ref.value, id)
  {
    if !Ref(s) then false
    else
      var ref := s.value.ref.value;
      var i := LastIndexOf(ref, '/');
      if i == -1 then
        assert !LastSegmentIs(ref, id);
        false
      else
        assert LastSegmentIs(ref, id) ==> ref[i + 1..] == id by {
          if LastSegmentIs(ref, id) {
            var j := |ref| - |id| - 1;
            assert ref[j] == '/';
          }
        }
        id == ref[i + 1..]
  }

  /**
   * `GetRefID()`: the number after the last "/" of the `$ref`, parsed with
   * `strconv.ParseInt` whose error is discarded; an error when there is no
   * `$ref` or no "/".
   */
  function GetRefID(s: Option<Schema>): (r: Result<Int64>)
    ensures r.Ok? <==> Ref(s) && '/' in s.value.ref.value
    ensures r.Ok? ==> r.value == ParseInt(AfterLast(s.value.ref.value, '/')).Value()
  {
    if !Ref(s) then Err("no reference")
    else
      var ref := s.value.ref.value;
      var i := LastIndexOf(ref, '/');
      if i != -1 then Ok(ParseInt(ref[i + 1..]).Value()) else Err("no reference")
  }

  /** A `$ref` whose last segment is not a number still yields an id: 0, with no error. */
  lemma GetRefIDNonNumeric(s: Schema)
    requires s.ref.Some? && '/' in s.ref.value
    requires ParseInt(AfterLast(s.ref.value, '/')).SyntaxError?
    ensures GetRefID(Some(s)) == Ok(0)
  {
  }

  /** `SetDefinitionModelRef(id)`: point the node at `#/definitions/schemas/<id>`. */
  function SetDefinitionModelRef(s: Schema, id: string): (r: Schema)
    ensures r.(ref := s.ref) == s
    ensures '/' !in id ==> IsRefID(Some(r), id)
  {
    s.(ref := Some("#/definitions/schemas/" + id))
  }

  /** A model reference built from a numeric id reads back as that id. */
  lemma {:induction false} DefinitionModelRefRoundTrip(s: Schema, id: Int64)
    ensures GetRefID(Some(SetDefinitionModelRef(s, FormatInt(id)))) == Ok(id)
  {
    var ref := "#/definitions/schemas/" + FormatInt(id);
    FormatIntHasNoSlash(id);
    assert ref[21] == '/';
    assert IsRefID(Some(SetDefinitionModelRef(s, FormatInt(id))), FormatInt(id));
    assert AfterLast(ref, '/') == FormatInt(id);
    FormatParseRoundTrip(id);
  }

  /** `Clone()`: a JSON round trip, here a structural copy; nil is an error. */
  function Clone(s: Option<Schema>): (r: Result<Schema>)
    ensures r.Ok? <==> s.Some?
    ensures r.Ok? ==> r.value == s.value
  {
    if s.None? then Err("schema is nil") else Ok(s.value)
  }

  /**
   * `ReplaceRef(ref)`: overwrite a reference node with a copy of its target.
   * Errors when the node is not a reference or the target is nil, and when
   * the reference's id is unreadable or differs from the target's id.
   */
  function ReplaceRef(s: Option<Schema>, target: Option<Schema>): (r: Result<Schema>)
    ensures r.Ok? <==> Ref(s) && target.Some? && GetRefID(s) == Ok(target.value.id)
    ensures r.Ok? ==> r.value == target.value
    ensures !Ref(s) || target.None? ==> r == Err("schema is not a reference or ref is nil")
  {
    if !Ref(s) || target.None? then Err("schema is not a reference or ref is nil")
    else
      var refID := GetRefID(s);
      if refID.Err? || refID.value != target.value.id then Err("ref id does not match")
      else Clone(target)
  }

  /** A reference whose last segment is the decimal form of `id` reads back as `id`. */
  lemma RefIDReadsBack(n: Schema, id: Int64)
    requires IsRefID(Some(n), FormatInt(id))
    ensures GetRefID(Some(n)) == Ok(id)
  {
    var ref, t := n.ref.value, FormatInt(id);
    assert AfterLast(ref, '/') == t;
    FormatParseRoundTrip(id);
  }

  /** Every reference to the target's id is replaceable by the target. */
  lemma ReplaceFoundRef(n: Schema, target: Schema)
    requires IsRefID(Some(n), FormatInt(target.id))
    ensures ReplaceRef(Some(n), Some(target)) == Ok(target)
  {
    RefIDReadsBack(n, target.id);
  }

  /** A model reference to a target's own id is always replaceable by that target. */
  lemma ReplaceModelRef(s: Schema, target: Schema)
    ensures ReplaceRef(Some(SetDefinitionModelRef(s, FormatInt(target.id))), Some(target)) == Ok(target)
  {
    DefinitionModelRefRoundTrip(s, target.id);
  }

  /** `DelXOrderByName(name)`: drop the first occurrence of `name` from `x-apicat-orders`. */
  method DelXOrderByName(s: Schema, name: string) returns (r: Schema)
    ensures name == "" ==> r == s
    ensures name != "" ==> r == s.(xOrder := Lists.RemoveFirst(s.xOrder, name))
  {
    if name == "" {
      return s;
    }
    var order := Lists.DeleteFirst(s.xOrder, name);
    r := s.(xOrder := order);
  }

  /** `DelRequiredByName(name)`: drop the first occurrence of `name` from `required`. */
  method DelRequiredByName(s: Schema, name: string) returns (r: Schema)
    ensures name == "" ==> r == s
    ensures name != "" ==> r == s.(required := Lists.RemoveFirst(s.required, name))
  {
    if name == "" {
      return s;
    }
    var req := Lists.DeleteFirst(s.required, name);
    r := s.(required := req);
  }

  /** `Of.DelRef(ref)` is not part of this model: it is a parameter of every operation that calls it. */
  type OfDelRef = (seq<Schema>, Schema) -> seq<Schema>

  /** One composition list after `Of.DelRef`; an emptied list hands an untyped node the target's type. */
  function DelRefComposition(list: seq<Schema>, typ: Option<seq<string>>, target: Schema, ofDelRef: OfDelRef): (r: (seq<Schema>, Option<seq<string>>))
    ensures |list| == 0 ==> r == (list, typ)
    ensures typ.Some? ==> r.1 == typ
    ensures |list| > 0 && typ.None? && |r.0| == 0 ==> r.1 == target.typ
  {
    if |list| == 0 then (list, typ)
    else
      var l := ofDelRef(list, target);
      (l, if |l| == 0 && typ.None? then target.typ else typ)
  }

  /** The node is a reference whose numeric id is the target's id. */
  predicate RefersTo(s: Schema, target: Schema)
  {
    s.ref.Some? && GetRefID(Some(s)) == Ok(target.id)
  }

  /**
   * `DelRef(ref)` on a non-nil node and target: a reference to the target
   * becomes an `object` node without `$ref`; otherwise the compositions go
   * through `Of.DelRef`, the properties are walked, and an `items` schema that
   * references the target is replaced by a fresh schema of the target's first
   * type (items are not walked further).
   */
  function DelRefNode(s: Schema, target: Schema, ofDelRef: OfDelRef): (r: Schema)
    ensures RefersTo(s, target) ==> r == s.(ref := None, typ := Some(["object"]))
    ensures !RefersTo(s, target) ==> r.ref == s.ref && r.properties.Keys == s.properties.Keys
    ensures !RefersTo(s, target) ==>
      forall k :: k in r.properties ==> r.properties[k] == DelRefNode(s.properties[k], target, ofDelRef)
    ensures !RefersTo(s, target) && s.items.Nested? && IsRefID(Some(s.items.schema), FormatInt(target.id)) ==>
      r.items == Nested(NewSchema(TypeFirst(target.typ)))
    ensures !RefersTo(s, target) && !(s.items.Nested? && IsRefID(Some(s.items.schema), FormatInt(target.id))) ==>
      r.items == s.items
    ensures !RefersTo(s, target) && s.typ.Some? ==> r.typ == s.typ
    ensures !RefersTo(s, target) ==> r.allOf == (if |s.allOf| == 0 then [] else ofDelRef(s.allOf, target))
    ensures !RefersTo(s, target) ==> r.anyOf == (if |s.anyOf| == 0 then [] else ofDelRef(s.anyOf, target))
    ensures !RefersTo(s, target) ==> r.oneOf == (if |s.oneOf| == 0 then [] else ofDelRef(s.oneOf, target))
    ensures r.(allOf := s.allOf, anyOf := s.anyOf, oneOf := s.oneOf, properties := s.properties, items := s.items, typ := s.typ, ref := s.ref) == s
    decreases s
  {
    if RefersTo(s, target) then s.(ref := None, typ := Some(["object"]))
    else
      var (allOf, t1) := DelRefComposition(s.allOf, s.typ, target, ofDelRef);
      var (anyOf, t2) := DelRefComposition(s.anyOf, t1, target, ofDelRef);
      var (oneOf, t3) := DelRefComposition(s.oneOf, t2, target, ofDelRef);
      var props := map k | k in s.properties :: DelRefNode(s.properties[k], target, ofDelRef);
      var items :=
        if s.items.Nested? && IsRefID(Some(s.items.schema), FormatInt(target.id))
        then Nested(NewSchema(TypeFirst(target.typ)))
        else s.items;
      s.(allOf := allOf, anyOf := anyOf, oneOf := oneOf, typ := t3, properties := props, items := items)
  }

  /** `DelRef(ref)`: nothing happens for a nil target. */
  function DelRef(s: Schema, target: Option<Schema>, ofDelRef: OfDelRef): (r: Schema)
    ensures target.None? ==> r == s
    ensures target.Some? && RefersTo(s, target.value) ==> r.ref.None? && r.typ == Some(["object"])
  {
    if target.None? then s else DelRefNode(s, target.value, ofDelRef)
  }

  /** An untyped node whose composition list `Of.DelRef` empties takes the target's type. */
  lemma DelRefEmptiedCompositionTakesType(s: Schema, target: Schema, ofDelRef: OfDelRef)
    requires !RefersTo(s, target) && s.typ.None?
    requires |s.allOf| > 0 && |ofDelRef(s.allOf, target)| == 0
    ensures DelRefNode(s, target, ofDelRef).typ == target.typ
  {
  }

  /** The node reached from `s` by following property names only. */
  function AtProperties(s: Schema, names: seq<string>): Option<Schema>
    decreases |names|
  {
    if |names| == 0 then Some(s)
    else if names[0] in s.properties then AtProperties(s.properties[names[0]], names[1..])
    else None
  }

  /** Follow property names from `s`, without going below a node that refers to `target`. */
  function PropertyWalk(s: Schema, target: Schema, names: seq<string>): Option<Schema>
    decreases |names|
  {
    if |names| == 0 then Some(s)
    else if RefersTo(s, target) || names[0] !in s.properties then None
    else PropertyWalk(s.properties[names[0]], target, names[1..])
  }

  /**
   * After `DelRef`, no node that the walk reaches through properties refers to
   * the target any more, whatever `Of.DelRef` does to the compositions.
   */
  lemma {:induction false} DelRefClearsPropertyRefs(s: Schema, target: Schema, ofDelRef: OfDelRef, names: seq<string>)
    requires PropertyWalk(s, target, names).Some?
    ensures AtProperties(DelRefNode(s, target, ofDelRef), names).Some?
    ensures !RefersTo(AtProperties(DelRefNode(s, target, ofDelRef), names).value, target)
    decreases |names|
  {
    if |names| > 0 {
      DelRefClearsPropertyRefs(s.properties[names[0]], target, ofDelRef, names[1..]);
    }
  }

  /**
   * `Valid()` returns no error. nil is an error and a reference is valid;
   * otherwise the type names are scanned in order: an unknown name is an
   * error, and the first `array` or `object` decides through `checkArray` or
   * `checkObject`.
   */
  function Valid(s: Option<Schema>): (r: bool)
    ensures s.None? ==> !r
    ensures Ref(s) ==> r
  {
    s.Some? && ValidNode(s.value)
  }

  function ValidNode(s: Schema): bool
    decreases s, 2
  {
    s.ref.Some? || ValidTypes(s, TypeList(s.typ))
  }

  function ValidTypes(s: Schema, names: seq<string>): bool
    decreases s, 1, |names|
  {
    if |names| == 0 then true
    else if names[0] !in CoreTypes then false
    else if names[0] == "array" then CheckArray(s)
    else if names[0] == "object" then CheckObject(s)
    else ValidTypes(s, names[1..])
  }

  /** `checkArray()`: only an `items` schema is checked. */
  function CheckArray(s: Schema): bool
    decreases s, 0
  {
    !s.items.Nested? || ValidNode(s.items.schema)
  }

  /**
   * `checkObject()`: nothing is checked unless `additionalProperties` is set;
   * then every property must be valid and, when `x-apicat-orders` is
   * non-empty, listed in it, and an `additionalProperties` schema must be valid.
   */
  function CheckObject(s: Schema): bool
    decreases s, 0
  {
    if s.ref.Some? || s.additionalProperties.Absent? then true
    else
      (forall name | name in s.properties ::
        ValidNode(s.properties[name]) && (|s.xOrder| > 0 ==> name in s.xOrder))
      && (s.additionalProperties.Nested? ==> ValidNode(s.additionalProperties.schema))
  }

  /** Type names that are core but neither `array` nor `object`: the scan passes over them. */
  predicate ScalarTypes(names: seq<string>)
  {
    forall i :: 0 <= i < |names| ==> names[i] in CoreTypes && names[i] != "array" && names[i] != "object"
  }

  /** An unknown type name after scalar ones makes the node invalid. */
  lemma {:induction false} UnknownTypeInvalid(s: Schema, before: seq<string>, name: string, after: seq<string>)
    requires ScalarTypes(before) && name !in CoreTypes
    ensures !ValidTypes(s, before + [name] + after)
    decreases |before|
  {
    if |before| > 0 {
      assert (before + [name] + after)[1..] == before[1..] + [name] + after;
      UnknownTypeInvalid(s, before[1..], name, after);
    }
  }

  /** The first `array` or `object` name after scalar ones decides; later names are never looked at. */
  lemma {:induction false} FirstContainerTypeDecides(s: Schema, before: seq<string>, name: string, after: seq<string>)
    requires ScalarTypes(before) && (name == "array" || name == "object")
    ensures ValidTypes(s, before + [name] + after) == if name == "array" then CheckArray(s) else CheckObject(s)
    decreases |before|
  {
    if |before| > 0 {
      assert (before + [name] + after)[1..] == before[1..] + [name] + after;
      FirstContainerTypeDecides(s, before[1..], name, after);
    }
  }

  /** Scalar type names alone are always valid. */
  lemma {:induction false} ScalarTypesValid(s: Schema, names: seq<string>)
    requires ScalarTypes(names)
    ensures ValidTypes(s, names)
    decreases |names|
  {
    if |names| > 0 {
      ScalarTypesValid(s, names[1..]);
    }
  }

  /** Without `additionalProperties`, an object passes whatever its properties and orders are. */
  lemma ObjectWithoutAdditionalPropertiesValid(s: Schema)
    requires s.additionalProperties.Absent?
    ensures CheckObject(s)
  {
  }

  /**
   * A valid object with `additionalProperties` and non-empty orders lists every
   * property in its orders; an order naming no property is not detected.
   */
  lemma ValidObjectOrdersCoverProperties(s: Schema, name: string)
    requires CheckObject(s) && !s.additionalProperties.Absent? && s.ref.None?
    requires |s.xOrder| > 0 && name in s.properties
    ensures name in s.xOrder
  {
  }

  /** `SetXDiff(x)` for a marker that is not empty: every node reached through compositions, properties and items. */
  function Mark(s: Schema, x: Marker): (r: Schema)
    ensures r.properties.Keys == s.properties.Keys
    ensures |r.allOf| == |s.allOf| && |r.anyOf| == |s.anyOf| && |r.oneOf| == |s.oneOf|
    ensures r.items.Nested? == s.items.Nested?
    decreases s
  {
    s.(allOf := seq(|s.allOf|, i requires 0 <= i < |s.allOf| => Mark(s.allOf[i], x)),
       anyOf := seq(|s.anyOf|, i requires 0 <= i < |s.anyOf| => Mark(s.anyOf[i], x)),
       oneOf := seq(|s.oneOf|, i requires 0 <= i < |s.oneOf| => Mark(s.oneOf[i], x)),
       properties := map k | k in s.properties :: Mark(s.properties[k], x),
       items := if s.items.Nested? then Nested(Mark(s.items.schema, x)) else s.items,
       xDiff := x)
  }

  /** `SetXDiff(x)`: the empty marker changes nothing. */
  function SetXDiff(s: Schema, x: Marker): (r: Schema)
    ensures x == Unset ==> r == s
    ensures x != Unset ==> r.xDiff == x
  {
    if x == Unset then s else Mark(s, x)
  }

  /** Marking twice is marking once with the later marker. */
  lemma {:induction false} MarkLastWins(s: Schema, x: Marker, y: Marker)
    ensures Mark(Mark(s, x), y) == Mark(s, y)
    decreases s, 1
  {
    MarkListsLastWins(s, x, y);
    MarkPropsLastWins(s, x, y);
    if s.items.Nested? {
      MarkLastWins(s.items.schema, x, y);
    }
  }

  lemma {:induction false} MarkListsLastWins(s: Schema, x: Marker, y: Marker)
    ensures Mark(Mark(s, x), y).allOf == Mark(s, y).allOf
    ensures Mark(Mark(s, x), y).anyOf == Mark(s, y).anyOf
    ensures Mark(Mark(s, x), y).oneOf == Mark(s, y).oneOf
    decreases s, 0
  {
    var a, b := Mark(Mark(s, x), y), Mark(s, y);
    forall i | 0 <= i < |s.allOf| ensures a.allOf[i] == b.allOf[i] { MarkLastWins(s.allOf[i], x, y); }
    forall i | 0 <= i < |s.anyOf| ensures a.anyOf[i] == b.anyOf[i] { MarkLastWins(s.anyOf[i], x, y); }
    forall i | 0 <= i < |s.oneOf| ensures a.oneOf[i] == b.oneOf[i] { MarkLastWins(s.oneOf[i], x, y); }
  }

  lemma {:induction false} MarkPropsLastWins(s: Schema, x: Marker, y: Marker)
    ensures Mark(Mark(s, x), y).properties == Mark(s, y).properties
    decreases s, 0
  {
    var a, b := Mark(Mark(s, x), y).properties, Mark(s, y).properties;
    forall k | k in b ensures a[k] == b[k] { MarkLastWins(s.properties[k], x, y); }
    MapsEqual(a, b);
  }

  lemma MapsEqual<K, V>(a: map<K, V>, b: map<K, V>)
    requires a.Keys == b.Keys && forall k | k in b :: a[k] == b[k]
    ensures a == b
  {
  }

  /** `SetXDiff` is idempotent, and a second non-empty marker overrides the first. */
  lemma SetXDiffTwice(s: Schema, x: Marker, y: Marker)
    ensures SetXDiff(SetXDiff(s, x), y) == if y == Unset then SetXDiff(s, x) else SetXDiff(s, y)
  {
    if x != Unset && y != Unset {
      MarkLastWins(s, x, y);
    }
  }

  /** Marking touches nothing but markers: clearing them afterwards gives the tree with markers cleared. */
  lemma SetXDiffOnlyMarks(s: Schema, x: Marker)
    ensures Mark(SetXDiff(s, x), Unset) == Mark(s, Unset)
  {
    if x != Unset {
      MarkLastWins(s, x, Unset);
    }
  }

  /** Validity does not depend on the diff markers. */
  lemma {:induction false} MarkKeepsValidity(s: Schema, x: Marker)
    ensures ValidNode(Mark(s, x)) == ValidNode(s)
    decreases s, 1
  {
    MarkKeepsValidTypes(s, x, TypeList(s.typ));
  }

  lemma {:induction false} MarkKeepsValidTypes(s: Schema, x: Marker, names: seq<string>)
    ensures ValidTypes(Mark(s, x), names) == ValidTypes(s, names)
    decreases s, 0, |names|
  {
    var m := Mark(s, x);
    if |names| > 0 && names[0] in CoreTypes {
      if names[0] == "array" {
        if s.items.Nested? { MarkKeepsValidity(s.items.schema, x); }
      } else if names[0] == "object" {
        forall name | name in s.properties
          ensures ValidNode(m.properties[name]) == ValidNode(s.properties[name])
        {
          MarkKeepsValidity(s.properties[name], x);
        }
      } else {
        MarkKeepsValidTypes(s, x, names[1..]);
      }
    }
  }
}
