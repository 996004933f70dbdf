/**
 * `Schema.Equal` of backend/module/spec/jsonschema/schema.go. `SchemaType`'s
 * `Equal` and `IsOneDimensional` are not part of this model; they are
 * parameters, so every statement here holds for any implementation of them.
 *
 * The source builds the map of anyOf (and oneOf) members of the second schema
 * from the FIRST schema's list; `Variant` selects that behaviour (AsWritten)
 * or the evidently intended one (Intended).
 */
module SchemaEqual {
  import opened Wrappers
  import opened Text
  import opened JsonSchema

  datatype TypeOps = TypeOps(equal: (seq<string>, seq<string>) -> bool, oneDimensional: seq<string> -> bool)

  /** Where an entry of the merged property map comes from. */
  datatype Source = Own(name: string) | FromAllOf(i: nat, name: string) | RefAllOf(i: nat)

  predicate ValidSource(s: Schema, o: Source)
  {
    match o
    case Own(n) => n in s.properties
    case FromAllOf(i, n) => i < |s.allOf| && n in s.allOf[i].properties
    case RefAllOf(i) => i < |s.allOf|
  }

  function Resolve(s: Schema, o: Source): Schema
    requires ValidSource(s, o)
  {
    match o
    case Own(n) => s.properties[n]
    case FromAllOf(i, n) => s.allOf[i].properties[n]
    case RefAllOf(i) => s.allOf[i]
  }

  /**
   * The property map `Equal` compares: the node's own properties, then for
   * each allOf member in order its properties and, when its `$ref` reads as a
   * positive id, the member itself under that id; later entries override.
   */
  function MergedProps(s: Schema): (m: map<string, Source>)
    ensures forall k :: k in m ==> ValidSource(s, m[k])
    ensures forall k :: k in s.properties ==> k in m
  {
    MergeAllOf(s, map k | k in s.properties :: Own(k), 0)
  }

  function MergeAllOf(s: Schema, acc: map<string, Source>, i: nat): (m: map<string, Source>)
    requires i <= |s.allOf|
    requires forall k :: k in acc ==> ValidSource(s, acc[k])
    ensures forall k :: k in m ==> ValidSource(s, m[k])
    ensures acc.Keys <= m.Keys
    decreases |s.allOf| - i
  {
    if i == |s.allOf| then acc
    else
      var sv := s.allOf[i];
      var withProps := acc + map k | k in sv.properties :: FromAllOf(i, k);
      var refID := GetRefID(Some(sv));
      var next := if refID.Ok? && refID.value > 0 then withProps[FormatInt(refID.value) := RefAllOf(i)] else withProps;
      MergeAllOf(s, next, i + 1)
  }

  /** `stypes[sv.Type.First()] = sv` over a list: each first type name, with the last member that has it. */
  function TypeIndex(xs: seq<Schema>): (m: map<string, nat>)
    ensures forall k :: k in m ==> m[k] < |xs| && TypeFirst(xs[m[k]].typ) == k
    ensures forall i :: 0 <= i < |xs| ==> TypeFirst(xs[i].typ) in m
  {
    if |xs| == 0 then map[]
    else TypeIndex(xs[..|xs| - 1])[TypeFirst(xs[|xs| - 1].typ) := |xs| - 1]
  }

  /** `Equal` on two non-nil nodes. */
  function EqualNodes(ops: TypeOps, s: Schema, a: Schema, v: Variant): bool
    decreases s
  {
    if s.ref.Some? && a.ref.Some? then s.ref.value == a.ref.value
    else if s.typ.Some? && a.typ.Some? && !ops.equal(s.typ.value, a.typ.value) then false
    else if s.title != a.title then false
    else if s.typ.Some? && ops.oneDimensional(s.typ.value) then true
    else if !s.items.Absent? && !a.items.Absent? then
      s.items.Flag? == a.items.Flag? && (s.items.Flag? || EqualNodes(ops, s.items.schema, a.items.schema, v))
    else if !s.items.Absent? || !a.items.Absent? then false
    else if |s.anyOf| > 0 && |a.anyOf| > 0 then
      var other := if v == AsWritten then s.anyOf else a.anyOf;
      var sm, am := TypeIndex(s.anyOf), TypeIndex(other);
      |s.anyOf| == |a.anyOf| && |sm| == |am|
      && forall k | k in sm :: k in am && EqualNodes(ops, s.anyOf[sm[k]], other[am[k]], v)
    else if |s.anyOf| > 0 || |a.anyOf| > 0 then false
    else if |s.oneOf| > 0 && |a.oneOf| > 0 then
      var other := if v == AsWritten then s.oneOf else a.oneOf;
      var sm, am := TypeIndex(s.oneOf), TypeIndex(other);
      |s.oneOf| == |a.oneOf| && |sm| == |am|
      && forall k | k in sm :: k in am && EqualNodes(ops, s.oneOf[sm[k]], other[am[k]], v)
    else if |s.oneOf| > 0 || |a.oneOf| > 0 then false
    else
      var sm, am := MergedProps(s), MergedProps(a);
      |sm| == |am|
      && forall k | k in sm :: k in am && (
           match sm[k]
           case Own(n) => EqualNodes(ops, s.properties[n], Resolve(a, am[k]), v)
           case FromAllOf(i, n) => EqualNodes(ops, s.allOf[i].properties[n], Resolve(a, am[k]), v)
           case RefAllOf(i) => EqualNodes(ops, s.allOf[i], Resolve(a, am[k]), v))
  }

  /** The checks `Equal` makes before it compares compositions. */
  predicate PassesHeader(ops: TypeOps, s: Schema, a: Schema)
  {
    !(s.ref.Some? && a.ref.Some?)
    && !(s.typ.Some? && a.typ.Some? && !ops.equal(s.typ.value, a.typ.value))
    && s.title == a.title
    && !(s.typ.Some? && ops.oneDimensional(s.typ.value))
    && s.items.Absent? && a.items.Absent?
  }

  /** `Equal` as the source writes it. */
  function EqualAsWritten(ops: TypeOps, s: Option<Schema>, a: Option<Schema>): (r: bool)
    ensures s.None? || a.None? ==> !r
    ensures Ref(s) && Ref(a) ==> (r <==> s.value.ref == a.value.ref)
    ensures r && !(Ref(s) && Ref(a)) ==> s.value.title == a.value.title
    ensures r && !(Ref(s) && Ref(a)) && !(s.value.typ.Some? && ops.oneDimensional(s.value.typ.value)) ==>
      s.value.items.Absent? == a.value.items.Absent?
  {
    s.Some? && a.Some? && EqualNodes(ops, s.value, a.value, AsWritten)
  }

  /**
   * `Equal` with the second schema's anyOf and oneOf members compared: false
   * for a nil side, ref strings decide between two references, and otherwise
   * the titles must agree and items must be present on both sides or neither
   * (unless the first type is one-dimensional).
   */
  function Equal(ops: TypeOps, s: Option<Schema>, a: Option<Schema>): (r: bool)
    ensures s.None? || a.None? ==> !r
    ensures Ref(s) && Ref(a) ==> (r <==> s.value.ref == a.value.ref)
    ensures r && !(Ref(s) && Ref(a)) ==> s.value.title == a.value.title
    ensures r && !(Ref(s) && Ref(a)) && !(s.value.typ.Some? && ops.oneDimensional(s.value.typ.value)) ==>
      s.value.items.Absent? == a.value.items.Absent?
  {
    s.Some? && a.Some? && EqualNodes(ops, s.value, a.value, Intended)
  }

  /** As written, the anyOf comparison never looks at the second schema's members, only at their number. */
  lemma AsWrittenAnyOfIgnoresOther(ops: TypeOps, s: Schema, a: Schema, b: Schema)
    requires PassesHeader(ops, s, a) && PassesHeader(ops, s, b)
    requires |s.anyOf| > 0 && |a.anyOf| == |b.anyOf| > 0
    ensures EqualNodes(ops, s, a, AsWritten) == EqualNodes(ops, s, b, AsWritten)
  {
  }

  lemma SubsetSameSize(x: set<string>, y: set<string>)
    requires x <= y && |x| == |y|
    ensures x == y
  {
    assert |y - x| == |y| - |x|;
  }

  /** As intended, equal schemas that compare anyOf have the same first type names there. */
  lemma IntendedAnyOfTypesAgree(ops: TypeOps, s: Schema, a: Schema)
    requires PassesHeader(ops, s, a) && |s.anyOf| > 0 && |a.anyOf| > 0
    requires EqualNodes(ops, s, a, Intended)
    ensures TypeIndex(s.anyOf).Keys == TypeIndex(a.anyOf).Keys
  {
    var sm, am := TypeIndex(s.anyOf), TypeIndex(a.anyOf);
    assert |sm.Keys| == |am.Keys| by {
      assert |sm| == |sm.Keys| && |am| == |am.Keys|;
    }
    SubsetSameSize(sm.Keys, am.Keys);
  }

  /** As intended, equal schemas that compare oneOf have the same first type names there. */
  lemma IntendedOneOfTypesAgree(ops: TypeOps, s: Schema, a: Schema)
    requires PassesHeader(ops, s, a) && |s.anyOf| == 0 && |a.anyOf| == 0 && |s.oneOf| > 0 && |a.oneOf| > 0
    requires EqualNodes(ops, s, a, Intended)
    ensures TypeIndex(s.oneOf).Keys == TypeIndex(a.oneOf).Keys
  {
    var sm, am := TypeIndex(s.oneOf), TypeIndex(a.oneOf);
    assert |sm.Keys| == |am.Keys| by {
      assert |sm| == |sm.Keys| && |am| == |am.Keys|;
    }
    SubsetSameSize(sm.Keys, am.Keys);
  }

  /** Scalar single types are one-dimensional in the counterexample below. */
  function SampleOps(): TypeOps
  {
    TypeOps((x, y) => x == y, t => |t| == 1 && t[0] != "object" && t[0] != "array")
  }

  function StringAnyOf(): Schema
  {
    EmptySchema().(anyOf := [NewSchema("string")])
  }

  function IntegerAnyOf(): Schema
  {
    EmptySchema().(anyOf := [NewSchema("integer")])
  }

  /**
   * A string-typed anyOf and an integer-typed anyOf: the source's `Equal`
   * reports them equal, the intended comparison does not.
   */
  lemma AnyOfCounterexample()
    ensures EqualAsWritten(SampleOps(), Some(StringAnyOf()), Some(IntegerAnyOf()))
    ensures !Equal(SampleOps(), Some(StringAnyOf()), Some(IntegerAnyOf()))
  {
    AsWrittenAcceptsAnyOf();
    IntendedRejectsAnyOf();
  }

  lemma AsWrittenAcceptsAnyOf()
    ensures EqualNodes(SampleOps(), StringAnyOf(), IntegerAnyOf(), AsWritten)
  {
    var s := StringAnyOf();
    assert TypeIndex(s.anyOf) == map["string" := 0];
    assert EqualNodes(SampleOps(), NewSchema("string"), NewSchema("string"), AsWritten);
  }

  lemma IntendedRejectsAnyOf()
    ensures !EqualNodes(SampleOps(), StringAnyOf(), IntegerAnyOf(), Intended)
  {
    var s, a := StringAnyOf(), IntegerAnyOf();
    assert PassesHeader(SampleOps(), s, a);
    assert TypeIndex(s.anyOf) == map["string" := 0];
    assert TypeIndex(a.anyOf) == map["integer" := 0];
    IntendedAnyOfMissingType(SampleOps(), s, a, "string");
  }

  /** As intended, an anyOf member type that the other side lacks makes the schemas differ. */
  lemma IntendedAnyOfMissingType(ops: TypeOps, s: Schema, a: Schema, k: string)
    requires PassesHeader(ops, s, a) && |s.anyOf| > 0 && |a.anyOf| > 0
    requires k in TypeIndex(s.anyOf) && k !in TypeIndex(a.anyOf)
    ensures !EqualNodes(ops, s, a, Intended)
  {
  }

  /** Every schema equals itself, in both variants, when the type comparison is reflexive. */
  lemma {:induction false} EqualReflexive(ops: TypeOps, x: Schema, v: Variant)
    requires forall t :: ops.equal(t, t)
    ensures EqualNodes(ops, x, x, v)
    decreases x, 1
  {
    if x.items.Nested? {
      EqualReflexive(ops, x.items.schema, v);
    }
    ListReflexive(ops, x.anyOf, v);
    ListReflexive(ops, x.oneOf, v);
    PropsReflexive(ops, x, v);
    EqualOfParts(ops, x, v);
  }

  /** Each member a type index selects equals itself. */
  lemma {:induction false} ListReflexive(ops: TypeOps, xs: seq<Schema>, v: Variant)
    requires forall t :: ops.equal(t, t)
    ensures forall k | k in TypeIndex(xs) :: EqualNodes(ops, xs[TypeIndex(xs)[k]], xs[TypeIndex(xs)[k]], v)
    decreases xs
  {
    var m := TypeIndex(xs);
    forall k | k in m ensures EqualNodes(ops, xs[m[k]], xs[m[k]], v) {
      EqualReflexive(ops, xs[m[k]], v);
    }
  }

  /** Each entry of the merged property map equals itself. */
  lemma {:induction false} PropsReflexive(ops: TypeOps, x: Schema, v: Variant)
    requires forall t :: ops.equal(t, t)
    ensures forall k | k in MergedProps(x) :: EqualNodes(ops, Resolve(x, MergedProps(x)[k]), Resolve(x, MergedProps(x)[k]), v)
    decreases x, 0
  {
    var pm := MergedProps(x);
    forall k | k in pm ensures EqualNodes(ops, Resolve(x, pm[k]), Resolve(x, pm[k]), v) {
      match pm[k]
      case Own(n) => EqualReflexive(ops, x.properties[n], v);
      case FromAllOf(i, n) => EqualReflexive(ops, x.allOf[i].properties[n], v);
      case RefAllOf(i) => EqualReflexive(ops, x.allOf[i], v);
    }
  }

  /** A node equals itself once its items, compositions and merged properties do. */
  lemma EqualOfParts(ops: TypeOps, x: Schema, v: Variant)
    requires forall t :: ops.equal(t, t)
    requires x.items.Nested? ==> EqualNodes(ops, x.items.schema, x.items.schema, v)
    requires forall k | k in TypeIndex(x.anyOf) :: EqualNodes(ops, x.anyOf[TypeIndex(x.anyOf)[k]], x.anyOf[TypeIndex(x.anyOf)[k]], v)
    requires forall k | k in TypeIndex(x.oneOf) :: EqualNodes(ops, x.oneOf[TypeIndex(x.oneOf)[k]], x.oneOf[TypeIndex(x.oneOf)[k]], v)
    requires forall k | k in MergedProps(x) :: EqualNodes(ops, Resolve(x, MergedProps(x)[k]), Resolve(x, MergedProps(x)[k]), v)
    ensures EqualNodes(ops, x, x, v)
  {
    var pm := MergedProps(x);
    forall k | k in pm ensures k in pm && (
      match pm[k]
      case Own(n) => EqualNodes(ops, x.properties[n], Resolve(x, pm[k]), v)
      case FromAllOf(i, n) => EqualNodes(ops, x.allOf[i].properties[n], Resolve(x, pm[k]), v)
      case RefAllOf(i) => EqualNodes(ops, x.allOf[i], Resolve(x, pm[k]), v))
    {
    }
  }
}
