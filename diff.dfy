/**
 * The revision diff of backend/common/spec/diff: the newer operation is
 * annotated in place with "+" (new), "-" (removed) and "!" (changed).
 * Parameters and properties are matched by name, bodies by MIME type and
 * responses by status code; with `del` the entries that only the older side
 * has are copied into the newer one, tagged "-".
 *
 * The schema trees are values: each `Equal*` method returns the annotated
 * newer side, and is proved equal to a specification function (`*Diff`)
 * about which the lemmas below state what the annotation means.
 */
module Diff {
  import opened Wrappers
  import opened JsonSchema
  import opened CommonSpec

  // ----- positional insertion -----

  /**
   * An entry of a list under annotation; `copy` marks the "-" copies this
   * diff inserted (the source recognises them by pointer identity).
   */
  datatype Tagged<T> = Tagged(item: T, copy: bool)

  function Tag<T>(xs: seq<T>): (r: seq<Tagged<T>>)
    ensures |r| == |xs| && forall j :: 0 <= j < |xs| ==> r[j] == Tagged(xs[j], false)
  {
    seq(|xs|, j requires 0 <= j < |xs| => Tagged(xs[j], false))
  }

  /** `slices.Insert(c, i, x)` when `i < len(c)-1`, `append(c, x)` otherwise. */
  function InsertAt<T>(c: seq<T>, i: nat, x: T): (r: seq<T>)
    ensures |r| == |c| + 1
  {
    if i < |c| - 1 then c[..i] + [x] + c[i..] else c + [x]
  }

  /** The inserted element lands at index `i` or at the end, and nothing else is lost or reordered. */
  lemma InsertAtPlaces<T>(c: seq<T>, i: nat, x: T)
    ensures i < |c| - 1 ==> InsertAt(c, i, x)[i] == x && InsertAt(c, i, x)[..i] == c[..i] && InsertAt(c, i, x)[i + 1..] == c[i..]
    ensures i >= |c| - 1 ==> InsertAt(c, i, x)[|c|] == x && InsertAt(c, i, x)[..|c|] == c
    ensures multiset(InsertAt(c, i, x)) == multiset(c) + multiset{x}
  {
    if i < |c| - 1 {
      assert c == c[..i] + c[i..];
    }
  }

  // ----- JSON schema -----

  /** `equalJsonSchemaNormal`'s test: default, description and mock agree. */
  predicate NormalEqual(a: Schema, b: Schema)
  {
    a.default == b.default && a.description == b.description && a.xMock == b.xMock
  }

  /** The new value of one property of the newer object; `x` is the older side's property of that name. */
  function PropDiff(x: Option<Schema>, v: Schema, flip: bool, del: bool): Schema
    decreases v, 3
  {
    if x.None? then v.(xDiff := Added)
    else if flip then v.(xDiff := Changed)
    else JsonDiff(x.value, v, del)
  }

  /** The required flag of a property differs between the two objects. */
  predicate RequiredFlips(a: Schema, b: Schema, k: string)
  {
    (k in b.required) != (k in a.required)
  }

  function Older(a: Schema, k: string): Option<Schema>
  {
    if k in a.properties then Some(a.properties[k]) else None
  }

  /** The annotated property `k`: a newer one diffed, an older-only one as its "-" copy. */
  function PropValue(a: Schema, b: Schema, del: bool, k: string): Schema
    requires k in b.properties || k in a.properties
    decreases b, 0
  {
    if k in b.properties then PropDiff(Older(a, k), b.properties[k], RequiredFlips(a, b, k), del)
    else a.properties[k].(xDiff := Removed)
  }

  /** The properties of the annotated object: the newer ones diffed, and with `del` the older-only ones as "-" copies. */
  function PropsDiff(a: Schema, b: Schema, del: bool): map<string, Schema>
    decreases b, 1
  {
    map k | k in b.properties.Keys + (if del then a.properties.Keys else {}) :: PropValue(a, b, del, k)
  }

  /**
   * `equalJsonSchema(a, b, del)`: the annotated `b`. A different type list
   * marks `b` "!" and stops; otherwise a different default, description or
   * mock marks it "!", objects diff their properties and arrays their items.
   */
  function JsonDiff(a: Schema, b: Schema, del: bool): Schema
    decreases b, 2
  {
    if TypeList(a.typ) != TypeList(b.typ) then b.(xDiff := Changed)
    else
      var n := if NormalEqual(a, b) then b else b.(xDiff := Changed);
      if TypeFirst(b.typ) == "object" then n.(properties := PropsDiff(a, b, del))
      else if TypeFirst(b.typ) == "array" && a.items.Nested? && b.items.Nested? then
        n.(items := Nested(JsonDiff(a.items.schema, b.items.schema, del)))
      else n
  }

  /** `equalJsonSchemaNormal`: true when nothing differs; otherwise `b` is marked "!". */
  method EqualJsonSchemaNormal(a: Schema, b: Schema) returns (same: bool, r: Schema)
    ensures same <==> NormalEqual(a, b)
    ensures r == if same then b else b.(xDiff := Changed)
  {
    if a.default != b.default || a.description != b.description || a.xMock != b.xMock {
      return false, b.(xDiff := Changed);
    }
    return true, b;
  }

  /** `equalJsonSchema`: the two loops over the property maps, then the items. */
  method EqualJsonSchema(a: Schema, b: Schema, del: bool) returns (r: Schema)
    ensures r == JsonDiff(a, b, del)
    decreases b, 2
  {
    if TypeList(a.typ) != TypeList(b.typ) {
      return b.(xDiff := Changed);
    }
    var _, n := EqualJsonSchemaNormal(a, b);
    r := n;
    if TypeFirst(b.typ) == "object" {
      var props := EqualProperties(a, b, del);
      r := n.(properties := props);
    } else if TypeFirst(b.typ) == "array" && a.items.Nested? && b.items.Nested? {
      var items := EqualJsonSchema(a.items.schema, b.items.schema, del);
      r := n.(items := Nested(items));
    }
  }

  /** The object case of `equalJsonSchema`: the newer properties, then (with `del`) the older ones. */
  method EqualProperties(a: Schema, b: Schema, del: bool) returns (props: map<string, Schema>)
    ensures props == PropsDiff(a, b, del)
    decreases b, 1
  {
    props := EqualNewerProperties(a, b, del);
    if del {
      props := AddRemovedProperties(a, b, props);
    }
    var spec := PropsDiff(a, b, del);
    assert forall k :: k in spec <==> k in b.properties || (del && k in a.properties);
    assert forall k :: k in props ==> props[k] == PropValue(a, b, del, k);
    MapsEqual(props, spec);
  }

  /** The first loop of the object case: each newer property is tagged "+", "!" or diffed. */
  method EqualNewerProperties(a: Schema, b: Schema, del: bool) returns (props: map<string, Schema>)
    ensures forall k :: k in props <==> k in b.properties
    ensures forall k :: k in props ==> props[k] == PropValue(a, b, del, k)
    decreases b, 0
  {
    props := b.properties;
    var todo := b.properties.Keys;
    while todo != {}
      invariant forall k :: k in todo ==> k in b.properties
      invariant forall k :: k in props <==> k in b.properties
      invariant forall k :: k in props && k !in todo ==> props[k] == PropValue(a, b, del, k)
      decreases |todo|
    {
      var k :| k in todo;
      var v := b.properties[k];
      if k !in a.properties {
        props := props[k := v.(xDiff := Added)];
      } else if RequiredFlips(a, b, k) {
        props := props[k := v.(xDiff := Changed)];
      } else {
        var w := EqualJsonSchema(a.properties[k], v, del);
        props := props[k := w];
      }
      todo := todo - {k};
    }
  }

  /** The second loop of the object case: each older-only property comes back as a "-" copy. */
  method AddRemovedProperties(a: Schema, b: Schema, newer: map<string, Schema>) returns (props: map<string, Schema>)
    requires newer.Keys == b.properties.Keys
    ensures forall k :: k in props <==> k in b.properties || k in a.properties
    ensures forall k :: k in newer ==> props[k] == newer[k]
    ensures forall k :: k in props && k !in newer ==> props[k] == a.properties[k].(xDiff := Removed)
  {
    props := newer;
    var older := a.properties.Keys;
    while older != {}
      invariant older <= a.properties.Keys
      invariant forall k :: k in props <==> k in b.properties || (k in a.properties && k !in older)
      invariant forall k :: k in newer ==> props[k] == newer[k]
      invariant forall k :: k in props && k !in newer ==> props[k] == a.properties[k].(xDiff := Removed)
      decreases |older|
    {
      var k :| k in older;
      if k !in props {
        props := props[k := a.properties[k].(xDiff := Removed)];
      }
      older := older - {k};
    }
  }

  /** Diffing a schema against itself sets no marker anywhere. */
  lemma {:induction false} JsonDiffIdentical(s: Schema, del: bool)
    ensures JsonDiff(s, s, del) == s
    decreases s
  {
    if TypeFirst(s.typ) == "object" {
      var p := PropsDiff(s, s, del);
      forall k | k in s.properties
        ensures p[k] == s.properties[k]
      {
        assert p[k] == PropValue(s, s, del, k);
        JsonDiffIdentical(s.properties[k], del);
      }
      MapsEqual(p, s.properties);
    } else if TypeFirst(s.typ) == "array" && s.items.Nested? {
      JsonDiffIdentical(s.items.schema, del);
    }
  }

  /**
   * The schema with the markers cleared on every node the diff can visit:
   * the root, its properties and its items, recursively. (Composition
   * members are never visited.)
   */
  function Plain(s: Schema): Schema
  {
    s.(xDiff := Unset,
       properties := map k | k in s.properties :: Plain(s.properties[k]),
       items := if s.items.Nested? then Nested(Plain(s.items.schema)) else s.items)
  }

  /** Two schemas that differ at most in markers, properties and items are plainly equal when those are. */
  lemma PlainAgree(x: Schema, y: Schema)
    requires x.(properties := y.properties, items := y.items, xDiff := y.xDiff) == y
    requires x.properties.Keys == y.properties.Keys
    requires forall k | k in y.properties :: Plain(x.properties[k]) == Plain(y.properties[k])
    requires x.items.Nested? <==> y.items.Nested?
    requires !y.items.Nested? ==> x.items == y.items
    requires y.items.Nested? ==> Plain(x.items.schema) == Plain(y.items.schema)
    ensures Plain(x) == Plain(y)
  {
    PlainPropsAgree(x, y);
  }

  lemma PlainPropsAgree(x: Schema, y: Schema)
    requires x.properties.Keys == y.properties.Keys
    requires forall k | k in y.properties :: Plain(x.properties[k]) == Plain(y.properties[k])
    ensures Plain(x).properties == Plain(y).properties
  {
    MapsEqual(Plain(x).properties, Plain(y).properties);
  }

  lemma PlainIgnoresMarker(s: Schema, m: Marker)
    ensures Plain(s.(xDiff := m)) == Plain(s)
  {
  }

  /** Without `del` the diff only annotates: with the markers cleared, the result is the newer schema. */
  lemma {:induction false} JsonDiffOnlyMarks(a: Schema, b: Schema)
    ensures Plain(JsonDiff(a, b, false)) == Plain(b)
    decreases b, 1
  {
    if TypeList(a.typ) != TypeList(b.typ) {
    } else if TypeFirst(b.typ) == "object" {
      ObjectOnlyMarks(a, b);
    } else if TypeFirst(b.typ) == "array" && a.items.Nested? && b.items.Nested? {
      JsonDiffOnlyMarks(a.items.schema, b.items.schema);
      PlainAgree(JsonDiff(a, b, false), b);
    }
  }

  lemma {:induction false} ObjectOnlyMarks(a: Schema, b: Schema)
    requires TypeList(a.typ) == TypeList(b.typ) && TypeFirst(b.typ) == "object"
    ensures Plain(JsonDiff(a, b, false)) == Plain(b)
    decreases b, 0
  {
    var r := JsonDiff(a, b, false);
    forall k | k in b.properties
      ensures Plain(PropsDiff(a, b, false)[k]) == Plain(b.properties[k])
    {
      PropOnlyMarks(a, b, k);
    }
    assert r.properties == PropsDiff(a, b, false);
    assert r.properties.Keys == b.properties.Keys;
    PlainAgree(r, b);
  }

  lemma {:induction false} PropOnlyMarks(a: Schema, b: Schema, k: string)
    requires k in b.properties
    ensures Plain(PropsDiff(a, b, false)[k]) == Plain(b.properties[k])
    decreases b, -1
  {
    var v := b.properties[k];
    var p := PropsDiff(a, b, false);
    assert p[k] == PropValue(a, b, false, k);
    assert p[k] == PropDiff(Older(a, k), v, RequiredFlips(a, b, k), false);
    if k !in a.properties {
      PlainIgnoresMarker(v, Added);
    } else if RequiredFlips(a, b, k) {
      PlainIgnoresMarker(v, Changed);
    } else {
      JsonDiffOnlyMarks(a.properties[k], v);
    }
  }

  /**
   * The markers on the properties of an object whose type list is unchanged:
   * a property only the newer side has is "+", a required flip is "!" with
   * nothing below it touched, and with `del` an older-only property comes
   * back as its "-" copy; without `del` no property is added.
   */
  lemma PropertyMarkers(a: Schema, b: Schema, del: bool, k: string)
    requires TypeList(a.typ) == TypeList(b.typ) && TypeFirst(b.typ) == "object"
    ensures JsonDiff(a, b, del).properties.Keys == b.properties.Keys + (if del then a.properties.Keys else {})
    ensures k in b.properties && k !in a.properties ==> JsonDiff(a, b, del).properties[k] == b.properties[k].(xDiff := Added)
    ensures k in b.properties && k in a.properties && RequiredFlips(a, b, k) ==> JsonDiff(a, b, del).properties[k] == b.properties[k].(xDiff := Changed)
    ensures k in b.properties && k in a.properties && !RequiredFlips(a, b, k) ==> JsonDiff(a, b, del).properties[k] == JsonDiff(a.properties[k], b.properties[k], del)
    ensures del && k !in b.properties && k in a.properties ==> JsonDiff(a, b, del).properties[k] == a.properties[k].(xDiff := Removed)
  {
    var p := PropsDiff(a, b, del);
    assert JsonDiff(a, b, del).properties == p;
    if k in b.properties {
      assert p[k] == PropValue(a, b, del, k);
      assert p[k] == PropDiff(Older(a, k), b.properties[k], RequiredFlips(a, b, k), del);
      if k in a.properties {
        assert Older(a, k) == Some(a.properties[k]);
      }
    } else if del && k in a.properties {
      assert p[k] == PropValue(a, b, del, k);
    }
  }

  /** A type-list change marks the newer node "!" and leaves everything below it as it was. */
  lemma TypeChangeStops(a: Schema, b: Schema, del: bool)
    requires TypeList(a.typ) != TypeList(b.typ)
    ensures JsonDiff(a, b, del).xDiff == Changed
    ensures JsonDiff(a, b, del) == b.(xDiff := Changed)
  {
  }

  // ----- named schemas -----

  /**
   * `equalSchema(a, b, del)`: a different name, description or required flag
   * marks `b` "!"; otherwise the JSON schemas are diffed and `b`'s own marker
   * is left alone.
   */
  function SchemaDiff(a: SpecSchema, b: SpecSchema, del: bool): SpecSchema
  {
    if a.name != b.name || a.description != b.description || a.required != b.required then b.(xDiff := Changed)
    else if a.schema.Some? && b.schema.Some? then b.(schema := Some(JsonDiff(a.schema.value, b.schema.value, del)))
    else b
  }

  method EqualSchema(a: SpecSchema, b: SpecSchema, del: bool) returns (r: SpecSchema)
    ensures r == SchemaDiff(a, b, del)
  {
    if a.name != b.name || a.description != b.description || a.required != b.required {
      return b.(xDiff := Changed);
    }
    r := b;
    if a.schema.Some? && b.schema.Some? {
      var s := EqualJsonSchema(a.schema.value, b.schema.value, del);
      r := b.(schema := Some(s));
    }
  }

  /** A "-" copy of a schema, diffed against its original, stays as it was. */
  lemma SchemaDiffOfRemovedCopy(s: SpecSchema, del: bool)
    ensures SchemaDiff(s, s.(xDiff := Removed), del) == s.(xDiff := Removed)
  {
    if s.schema.Some? {
      JsonDiffIdentical(s.schema.value, del);
    }
  }

  /** Some entry of the list carries the name (`Schemas.Lookup` is not nil). */
  predicate HasName(c: seq<Tagged<SpecSchema>>, name: string)
  {
    exists k :: 0 <= k < |c| && c[k].item.name == name
  }

  method FindName(c: seq<Tagged<SpecSchema>>, name: string) returns (found: bool)
    ensures found <==> HasName(c, name)
  {
    for k := 0 to |c|
      invariant forall j :: 0 <= j < k ==> c[j].item.name != name
    {
      if c[k].item.name == name {
        return true;
      }
    }
    return false;
  }

  /**
   * The first loop of `equalSchemas` after the first `n` older entries: an
   * older entry whose name the list lacks at that moment is inserted as a
   * "-" copy, at its own index or at the end.
   */
  function SchemasWithRemoved(a: seq<SpecSchema>, b: seq<SpecSchema>, n: nat): (c: seq<Tagged<SpecSchema>>)
    requires n <= |a|
    ensures |b| <= |c| <= |b| + n
  {
    if n == 0 then Tag(b)
    else
      var c := SchemasWithRemoved(a, b, n - 1);
      if HasName(c, a[n - 1].name) then c
      else InsertAt(c, n - 1, Tagged(a[n - 1].(xDiff := Removed), true))
  }

  /** Inserting keeps every entry that was there. */
  lemma InsertAtKeeps<T>(c: seq<T>, i: nat, x: T, y: T)
    requires y in c || y == x
    ensures y in InsertAt(c, i, x)
  {
    InsertAtPlaces(c, i, x);
    assert y in multiset(InsertAt(c, i, x));
  }

  /** Every entry of an insertion was there before or is the inserted one. */
  lemma InsertAtOrigin<T>(c: seq<T>, i: nat, x: T, k: nat)
    requires k < |InsertAt(c, i, x)|
    ensures InsertAt(c, i, x)[k] == x || InsertAt(c, i, x)[k] in c
  {
    InsertAtPlaces(c, i, x);
    assert InsertAt(c, i, x)[k] in multiset(InsertAt(c, i, x));
  }

  /** The newer entries all survive the first loop, uncopied. */
  lemma {:induction false} WithRemovedKeepsNewer(a: seq<SpecSchema>, b: seq<SpecSchema>, n: nat, j: nat)
    requires n <= |a| && j < |b|
    ensures Tagged(b[j], false) in SchemasWithRemoved(a, b, n)
  {
    if n > 0 {
      var c := SchemasWithRemoved(a, b, n - 1);
      WithRemovedKeepsNewer(a, b, n - 1, j);
      if !HasName(c, a[n - 1].name) {
        InsertAtKeeps(c, n - 1, Tagged(a[n - 1].(xDiff := Removed), true), Tagged(b[j], false));
      }
    }
  }

  /** After the first loop every older name is present. */
  lemma {:induction false} WithRemovedHasOlderNames(a: seq<SpecSchema>, b: seq<SpecSchema>, n: nat, i: nat)
    requires i < n <= |a|
    ensures HasName(SchemasWithRemoved(a, b, n), a[i].name)
  {
    var c := SchemasWithRemoved(a, b, n - 1);
    var x := Tagged(a[n - 1].(xDiff := Removed), true);
    if !HasName(c, a[n - 1].name) {
      var r := InsertAt(c, n - 1, x);
      var y := x;
      if i < n - 1 {
        WithRemovedHasOlderNames(a, b, n - 1, i);
        var k :| 0 <= k < |c| && c[k].item.name == a[i].name;
        y := c[k];
        InsertAtKeeps(c, n - 1, x, y);
      } else {
        InsertAtKeeps(c, n - 1, x, x);
      }
      var k :| 0 <= k < |r| && r[k] == y;
      assert r[k].item.name == a[i].name;
    } else if i < n - 1 {
      WithRemovedHasOlderNames(a, b, n - 1, i);
    }
  }

  /** Where a "-" copy came from: an older entry whose name the newer list lacks. */
  ghost predicate CopyOfOlder(a: seq<SpecSchema>, b: seq<SpecSchema>, n: nat, t: Tagged<SpecSchema>)
    requires n <= |a|
  {
    exists i :: 0 <= i < n && t.item == a[i].(xDiff := Removed) && Lookup(Some(b), a[i].name).None?
  }

  /** Every entry after the first loop is a newer entry or a copy of an older one. */
  lemma {:induction false} WithRemovedOrigins(a: seq<SpecSchema>, b: seq<SpecSchema>, n: nat, k: nat)
    requires n <= |a| && k < |SchemasWithRemoved(a, b, n)|
    ensures !SchemasWithRemoved(a, b, n)[k].copy ==> SchemasWithRemoved(a, b, n)[k].item in b
    ensures SchemasWithRemoved(a, b, n)[k].copy ==> CopyOfOlder(a, b, n, SchemasWithRemoved(a, b, n)[k])
    decreases n, 1
  {
    var r := SchemasWithRemoved(a, b, n);
    if n == 0 {
      assert r[k] == Tagged(b[k], false);
    } else {
      var c := SchemasWithRemoved(a, b, n - 1);
      var x := Tagged(a[n - 1].(xDiff := Removed), true);
      if HasName(c, a[n - 1].name) {
        WithRemovedOrigins(a, b, n - 1, k);
        CopyOfOlderGrows(a, b, n, r[k]);
      } else {
        InsertedOrigin(a, b, n, k);
      }
    }
  }

  lemma {:induction false} InsertedOrigin(a: seq<SpecSchema>, b: seq<SpecSchema>, n: nat, k: nat)
    requires 0 < n <= |a| && k < |SchemasWithRemoved(a, b, n)|
    requires !HasName(SchemasWithRemoved(a, b, n - 1), a[n - 1].name)
    ensures !SchemasWithRemoved(a, b, n)[k].copy ==> SchemasWithRemoved(a, b, n)[k].item in b
    ensures SchemasWithRemoved(a, b, n)[k].copy ==> CopyOfOlder(a, b, n, SchemasWithRemoved(a, b, n)[k])
    decreases n, 0
  {
    var r := SchemasWithRemoved(a, b, n);
    var c := SchemasWithRemoved(a, b, n - 1);
    var x := Tagged(a[n - 1].(xDiff := Removed), true);
    assert r == InsertAt(c, n - 1, x);
    InsertAtOrigin(c, n - 1, x, k);
    if r[k] == x {
      NewerNamesKept(a, b, n - 1, a[n - 1].name);
      assert CopyOfOlder(a, b, n, r[k]) by {
        assert r[k].item == a[n - 1].(xDiff := Removed) && Lookup(Some(b), a[n - 1].name).None?;
      }
    } else {
      var k' :| 0 <= k' < |c| && c[k'] == r[k];
      WithRemovedOrigins(a, b, n - 1, k');
      CopyOfOlderGrows(a, b, n, r[k]);
    }
  }

  lemma CopyOfOlderGrows(a: seq<SpecSchema>, b: seq<SpecSchema>, n: nat, t: Tagged<SpecSchema>)
    requires 0 < n <= |a|
    ensures CopyOfOlder(a, b, n - 1, t) ==> CopyOfOlder(a, b, n, t)
  {
  }

  /** A name the list lacks after the first loop is lacked by the newer list too. */
  lemma NewerNamesKept(a: seq<SpecSchema>, b: seq<SpecSchema>, n: nat, name: string)
    requires n <= |a|
    requires !HasName(SchemasWithRemoved(a, b, n), name)
    ensures Lookup(Some(b), name).None?
  {
    if Lookup(Some(b), name).Some? {
      var j :| 0 <= j < |b| && b[j] == Lookup(Some(b), name).value;
      WithRemovedKeepsNewer(a, b, n, j);
    }
  }

  /** The final annotation of one entry: the inserted copies are skipped, unmatched names get "+", matched ones are diffed. */
  function MarkEntry(a: seq<SpecSchema>, t: Tagged<SpecSchema>, del: bool): SpecSchema
  {
    if t.copy then t.item
    else match Lookup(Some(a), t.item.name)
      case None => t.item.(xDiff := Added)
      case Some(s) => SchemaDiff(s, t.item, del)
  }

  function MarkEntries(a: seq<SpecSchema>, c: seq<Tagged<SpecSchema>>, del: bool): (r: seq<SpecSchema>)
    ensures |r| == |c|
  {
    seq(|c|, k requires 0 <= k < |c| => MarkEntry(a, c[k], del))
  }

  /** `equalSchemas(a, b, del)`: the annotated newer list. */
  function SchemasDiff(a: seq<SpecSchema>, b: seq<SpecSchema>, del: bool): (r: seq<SpecSchema>)
    ensures !del ==> |r| == |b|
    ensures |b| <= |r| <= |b| + |a|
  {
    MarkEntries(a, if del then SchemasWithRemoved(a, b, |a|) else Tag(b), del)
  }

  /** `equalSchemas` on possibly nil lists: a nil newer list stays nil unless a copy was appended to it. */
  function SchemasDiffOpt(a: Option<seq<SpecSchema>>, b: Option<seq<SpecSchema>>, del: bool): Option<seq<SpecSchema>>
  {
    var r := SchemasDiff(a.GetOr([]), b.GetOr([]), del);
    if b.None? && |r| == 0 then None else Some(r)
  }

  /** The first loop of `equalSchemas`. */
  method InsertRemovedSchemas(a: seq<SpecSchema>, b: seq<SpecSchema>) returns (c: seq<Tagged<SpecSchema>>)
    ensures c == SchemasWithRemoved(a, b, |a|)
  {
    c := Tag(b);
    for i := 0 to |a|
      invariant c == SchemasWithRemoved(a, b, i)
    {
      var found := FindName(c, a[i].name);
      if !found {
        c := InsertAt(c, i, Tagged(a[i].(xDiff := Removed), true));
      }
    }
  }

  /** The second loop of `equalSchemas`: every entry but the inserted copies is annotated in place. */
  method MarkSchemas(a: seq<SpecSchema>, c: seq<Tagged<SpecSchema>>, del: bool) returns (r: seq<SpecSchema>)
    ensures r == MarkEntries(a, c, del)
  {
    r := seq(|c|, k requires 0 <= k < |c| => c[k].item);
    for k := 0 to |c|
      invariant |r| == |c|
      invariant forall j :: 0 <= j < k ==> r[j] == MarkEntry(a, c[j], del)
      invariant forall j :: k <= j < |c| ==> r[j] == c[j].item
    {
      if !c[k].copy {
        var s := Lookup(Some(a), c[k].item.name);
        if s.None? {
          r := r[k := c[k].item.(xDiff := Added)];
        } else {
          var v := EqualSchema(s.value, c[k].item, del);
          r := r[k := v];
        }
      }
    }
  }

  method EqualSchemas(a: seq<SpecSchema>, b: seq<SpecSchema>, del: bool) returns (r: seq<SpecSchema>)
    ensures r == SchemasDiff(a, b, del)
  {
    var c := Tag(b);
    if del {
      c := InsertRemovedSchemas(a, b);
    }
    r := MarkSchemas(a, c, del);
  }

  method EqualSchemasOpt(a: Option<seq<SpecSchema>>, b: Option<seq<SpecSchema>>, del: bool) returns (r: Option<seq<SpecSchema>>)
    ensures r == SchemasDiffOpt(a, b, del)
  {
    var xs := EqualSchemas(a.GetOr([]), b.GetOr([]), del);
    r := if b.None? && |xs| == 0 then None else Some(xs);
  }

  /**
   * Every entry of the newer list is in the result, tagged "+" when the
   * older list has no entry of that name and diffed against the first older
   * entry of that name otherwise.
   */
  lemma SchemasDiffMarksNewer(a: seq<SpecSchema>, b: seq<SpecSchema>, del: bool, j: nat)
    requires j < |b|
    ensures Lookup(Some(a), b[j].name).None? ==> exists k :: 0 <= k < |SchemasDiff(a, b, del)| && SchemasDiff(a, b, del)[k] == b[j].(xDiff := Added)
    ensures Lookup(Some(a), b[j].name).Some? ==> exists k :: 0 <= k < |SchemasDiff(a, b, del)| && SchemasDiff(a, b, del)[k] == SchemaDiff(Lookup(Some(a), b[j].name).value, b[j], del)
  {
    var c := if del then SchemasWithRemoved(a, b, |a|) else Tag(b);
    if del {
      WithRemovedKeepsNewer(a, b, |a|, j);
    }
    var k :| 0 <= k < |c| && c[k] == Tagged(b[j], false);
    assert SchemasDiff(a, b, del)[k] == MarkEntry(a, c[k], del);
  }

  /**
   * Every entry of the result is the annotation of a newer entry or, with
   * `del` only, the "-" copy of an older entry whose name the newer list lacks.
   */
  lemma SchemasDiffEntries(a: seq<SpecSchema>, b: seq<SpecSchema>, del: bool, k: nat)
    requires k < |SchemasDiff(a, b, del)|
    ensures (exists j :: 0 <= j < |b| && SchemasDiff(a, b, del)[k] == MarkEntry(a, Tagged(b[j], false), del)) ||
            (del && CopyOfOlder(a, b, |a|, Tagged(SchemasDiff(a, b, del)[k], true)))
  {
    var c := if del then SchemasWithRemoved(a, b, |a|) else Tag(b);
    assert SchemasDiff(a, b, del)[k] == MarkEntry(a, c[k], del);
    if del {
      WithRemovedOrigins(a, b, |a|, k);
    }
    if !c[k].copy {
      var j :| 0 <= j < |b| && b[j] == c[k].item;
      assert c[k] == Tagged(b[j], false);
    }
  }

  /** With `del` every older name is present in the result. */
  lemma SchemasDiffKeepsOlderNames(a: seq<SpecSchema>, b: seq<SpecSchema>, i: nat)
    requires i < |a|
    ensures exists k :: 0 <= k < |SchemasDiff(a, b, true)| && SchemasDiff(a, b, true)[k].name == a[i].name
  {
    var c := SchemasWithRemoved(a, b, |a|);
    WithRemovedHasOlderNames(a, b, |a|, i);
    var k :| 0 <= k < |c| && c[k].item.name == a[i].name;
    assert SchemasDiff(a, b, true)[k] == MarkEntry(a, c[k], true);
  }

  // ----- bodies -----

  /** The annotated body of MIME type `k`: the "-" copies are diffed like the others. */
  function BodyValue(a: map<string, SpecSchema>, b: map<string, SpecSchema>, del: bool, k: string): SpecSchema
    requires k in b || k in a
  {
    if k in b then (if k in a then SchemaDiff(a[k], b[k], del) else b[k].(xDiff := Added))
    else SchemaDiff(a[k], a[k].(xDiff := Removed), del)
  }

  /** `equalContent(a, b, del)`: the annotated newer body map. */
  function ContentDiff(a: map<string, SpecSchema>, b: map<string, SpecSchema>, del: bool): map<string, SpecSchema>
  {
    map k | k in b.Keys + (if del then a.Keys else {}) :: BodyValue(a, b, del, k)
  }

  /** On possibly nil maps: a nil newer map stays nil. */
  function ContentDiffOpt(a: Option<map<string, SpecSchema>>, b: Option<map<string, SpecSchema>>, del: bool): Option<map<string, SpecSchema>>
  {
    if b.None? then None else Some(ContentDiff(a.GetOr(map[]), b.value, del))
  }

  /** The first loop of `equalContent`: each older-only MIME type is added as a "-" copy. */
  method AddRemovedBodies(a: map<string, SpecSchema>, b: map<string, SpecSchema>) returns (c: map<string, SpecSchema>)
    ensures forall k :: k in c <==> k in b || k in a
    ensures forall k :: k in b ==> c[k] == b[k]
    ensures forall k :: k in c && k !in b ==> c[k] == a[k].(xDiff := Removed)
  {
    c := b;
    var older := a.Keys;
    while older != {}
      invariant forall k :: k in older ==> k in a
      invariant forall k :: k in c <==> k in b || (k in a && k !in older)
      invariant forall k :: k in b ==> c[k] == b[k]
      invariant forall k :: k in c && k !in b ==> c[k] == a[k].(xDiff := Removed)
      decreases |older|
    {
      var k :| k in older;
      if k !in c {
        c := c[k := a[k].(xDiff := Removed)];
      }
      older := older - {k};
    }
  }

  /** The second loop of `equalContent`: every body is tagged "+" or diffed against the older one. */
  method MarkBodies(a: map<string, SpecSchema>, c: map<string, SpecSchema>, del: bool) returns (r: map<string, SpecSchema>)
    ensures forall k :: k in r <==> k in c
    ensures forall k :: k in r ==> r[k] == if k in a then SchemaDiff(a[k], c[k], del) else c[k].(xDiff := Added)
  {
    r := c;
    var todo := c.Keys;
    while todo != {}
      invariant forall k :: k in todo ==> k in c
      invariant forall k :: k in r <==> k in c
      invariant forall k :: k in r && k !in todo ==> r[k] == if k in a then SchemaDiff(a[k], c[k], del) else c[k].(xDiff := Added)
      decreases |todo|
    {
      var k :| k in todo;
      if k !in a {
        r := r[k := c[k].(xDiff := Added)];
      } else {
        var v := EqualSchema(a[k], c[k], del);
        r := r[k := v];
      }
      todo := todo - {k};
    }
  }

  method EqualContent(a: map<string, SpecSchema>, b: map<string, SpecSchema>, del: bool) returns (r: map<string, SpecSchema>)
    ensures r == ContentDiff(a, b, del)
  {
    var c := b;
    if del {
      c := AddRemovedBodies(a, b);
    }
    r := MarkBodies(a, c, del);
    var spec := ContentDiff(a, b, del);
    assert forall k :: k in spec <==> k in b || (del && k in a);
    assert forall k :: k in r ==> r[k] == BodyValue(a, b, del, k);
    MapsEqual(r, spec);
  }

  method EqualContentOpt(a: Option<map<string, SpecSchema>>, b: Option<map<string, SpecSchema>>, del: bool) returns (r: Option<map<string, SpecSchema>>)
    ensures r == ContentDiffOpt(a, b, del)
  {
    if b.None? {
      return None;
    }
    var m := EqualContent(a.GetOr(map[]), b.value, del);
    r := Some(m);
  }

  /**
   * The bodies after `equalContent`: a new MIME type is "+", a shared one is
   * diffed, and with `del` an older-only one comes back as its "-" copy,
   * unchanged by the diff it then goes through; nothing else is added.
   */
  lemma ContentDiffMarks(a: map<string, SpecSchema>, b: map<string, SpecSchema>, del: bool, k: string)
    ensures k in ContentDiff(a, b, del) <==> k in b || (del && k in a)
    ensures k in b && k !in a ==> ContentDiff(a, b, del)[k] == b[k].(xDiff := Added)
    ensures k in b && k in a ==> ContentDiff(a, b, del)[k] == SchemaDiff(a[k], b[k], del)
    ensures del && k in a && k !in b ==> ContentDiff(a, b, del)[k] == a[k].(xDiff := Removed)
  {
    if k in b || (del && k in a) {
      assert ContentDiff(a, b, del)[k] == BodyValue(a, b, del, k);
      if k !in b {
        SchemaDiffOfRemovedCopy(a[k], del);
      }
    }
  }

  // ----- responses -----

  /**
   * The first loop of `equalResponse` after `n` older responses: a response
   * whose code the newer list did not have on entry is re-inserted, marked
   * "-", at its own index or at the end.
   */
  function ResponsesWithRemoved(a: seq<Response>, codes: set<int>, b: seq<Response>, n: nat): (c: seq<Tagged<Response>>)
    requires n <= |a|
    ensures |b| <= |c| <= |b| + n
  {
    if n == 0 then Tag(b)
    else
      var c := ResponsesWithRemoved(a, codes, b, n - 1);
      if a[n - 1].code in codes then c
      else InsertAt(c, n - 1, Tagged(a[n - 1].(xDiff := Removed), true))
  }

  /**
   * The second loop of `equalResponse` on one entry: the re-inserted ones
   * are skipped; a code the older side lacks is "+"; a changed name or
   * description is "!" with nothing below it diffed; otherwise header and
   * bodies are diffed.
   */
  function ResponseEntry(aa: map<int, ResponseDefine>, t: Tagged<Response>, del: bool): Response
  {
    if t.copy then t.item
    else if t.item.code !in aa then t.item.(xDiff := Added)
    else
      var x, d := aa[t.item.code], t.item.define;
      if x.name != d.name || x.description != d.description then t.item.(xDiff := Changed)
      else t.item.(define := d.(header := SchemasDiffOpt(x.header, d.header, del), content := ContentDiffOpt(x.content, d.content, del)))
  }

  function ResponseEntries(aa: map<int, ResponseDefine>, c: seq<Tagged<Response>>, del: bool): (r: seq<Response>)
    ensures |r| == |c|
  {
    seq(|c|, k requires 0 <= k < |c| => ResponseEntry(aa, c[k], del))
  }

  /** `equalResponse(a, b, del)`: the annotated newer list. */
  function ResponsesDiff(a: seq<Response>, b: seq<Response>, del: bool): (r: seq<Response>)
    ensures !del ==> |r| == |b|
    ensures |b| <= |r| <= |b| + |a|
  {
    ResponseEntries(ResponsesMap(a), if del then ResponsesWithRemoved(a, ResponsesMap(b).Keys, b, |a|) else Tag(b), del)
  }

  /**
   * The older list after `equalResponse`: a re-inserted response is the
   * older side's own object, so with `del` it carries "-" there as well.
   */
  function OlderAfterDiff(a: seq<Response>, b: seq<Response>, del: bool): (r: seq<Response>)
    ensures |r| == |a|
  {
    seq(|a|, i requires 0 <= i < |a| => if del && a[i].code !in ResponsesMap(b) then a[i].(xDiff := Removed) else a[i])
  }

  /** The first loop of `equalResponse`. */
  method InsertRemovedResponses(a: seq<Response>, b: seq<Response>) returns (older: seq<Response>, c: seq<Tagged<Response>>)
    ensures c == ResponsesWithRemoved(a, ResponsesMap(b).Keys, b, |a|)
    ensures older == OlderAfterDiff(a, b, true)
  {
    var codes := ResponsesMap(b).Keys;
    c := Tag(b);
    older := a;
    for i := 0 to |a|
      invariant c == ResponsesWithRemoved(a, codes, b, i)
      invariant |older| == |a|
      invariant forall j :: 0 <= j < |a| ==> older[j] == if j < i && a[j].code !in codes then a[j].(xDiff := Removed) else a[j]
    {
      if a[i].code !in codes {
        var copy := a[i].(xDiff := Removed);
        older := older[i := copy];
        c := InsertAt(c, i, Tagged(copy, true));
      }
    }
  }

  /** The second loop of `equalResponse`: every entry but the re-inserted ones is annotated. */
  method MarkResponses(aa: map<int, ResponseDefine>, c: seq<Tagged<Response>>, del: bool) returns (r: seq<Response>)
    ensures r == ResponseEntries(aa, c, del)
  {
    r := seq(|c|, k requires 0 <= k < |c| => c[k].item);
    for k := 0 to |c|
      invariant |r| == |c|
      invariant forall j :: 0 <= j < k ==> r[j] == ResponseEntry(aa, c[j], del)
      invariant forall j :: k <= j < |c| ==> r[j] == c[j].item
    {
      var v := MarkResponse(aa, c[k], del);
      r := r[k := v];
    }
  }

  method MarkResponse(aa: map<int, ResponseDefine>, t: Tagged<Response>, del: bool) returns (v: Response)
    ensures v == ResponseEntry(aa, t, del)
  {
    v := t.item;
    if t.copy {
      return;
    }
    if v.code in aa {
      var x, d := aa[v.code], v.define;
      if x.name != d.name || x.description != d.description {
        v := v.(xDiff := Changed);
      } else {
        var header := EqualSchemasOpt(x.header, d.header, del);
        var content := EqualContentOpt(x.content, d.content, del);
        v := v.(define := d.(header := header, content := content));
      }
    } else {
      v := v.(xDiff := Added);
    }
  }

  method EqualResponse(a: seq<Response>, b: seq<Response>, del: bool) returns (older: seq<Response>, r: seq<Response>)
    ensures r == ResponsesDiff(a, b, del)
    ensures older == OlderAfterDiff(a, b, del)
  {
    var c := Tag(b);
    older := a;
    if del {
      older, c := InsertRemovedResponses(a, b);
    } else {
      assert older == OlderAfterDiff(a, b, del);
    }
    r := MarkResponses(ResponsesMap(a), c, del);
  }

  /** The older responses survive the first loop, uncopied. */
  lemma {:induction false} ResponsesWithRemovedKeeps(a: seq<Response>, codes: set<int>, b: seq<Response>, n: nat, j: nat)
    requires n <= |a| && j < |b|
    ensures Tagged(b[j], false) in ResponsesWithRemoved(a, codes, b, n)
  {
    if n > 0 {
      var c := ResponsesWithRemoved(a, codes, b, n - 1);
      ResponsesWithRemovedKeeps(a, codes, b, n - 1, j);
      if a[n - 1].code !in codes {
        InsertAtKeeps(c, n - 1, Tagged(a[n - 1].(xDiff := Removed), true), Tagged(b[j], false));
      }
    }
  }

  /** Each older response whose code is missing is re-inserted, once per occurrence. */
  lemma {:induction false} ResponsesWithRemovedAdds(a: seq<Response>, codes: set<int>, b: seq<Response>, n: nat, i: nat)
    requires i < n <= |a| && a[i].code !in codes
    ensures Tagged(a[i].(xDiff := Removed), true) in ResponsesWithRemoved(a, codes, b, n)
  {
    var c := ResponsesWithRemoved(a, codes, b, n - 1);
    var x := Tagged(a[n - 1].(xDiff := Removed), true);
    if i < n - 1 {
      ResponsesWithRemovedAdds(a, codes, b, n - 1, i);
      if a[n - 1].code !in codes {
        InsertAtKeeps(c, n - 1, x, Tagged(a[i].(xDiff := Removed), true));
      }
    } else {
      InsertAtKeeps(c, n - 1, x, x);
    }
  }

  /**
   * Every newer response is in the result: "+" when the older list lacks its
   * code, "!" (and nothing below it touched) when the name or description of
   * the older response with that code differs.
   */
  lemma ResponsesDiffMarksNewer(a: seq<Response>, b: seq<Response>, del: bool, j: nat)
    requires j < |b|
    ensures exists k :: 0 <= k < |ResponsesDiff(a, b, del)| && ResponsesDiff(a, b, del)[k] == ResponseEntry(ResponsesMap(a), Tagged(b[j], false), del)
    ensures b[j].code !in ResponsesMap(a) ==> ResponseEntry(ResponsesMap(a), Tagged(b[j], false), del) == b[j].(xDiff := Added)
    ensures b[j].code in ResponsesMap(a) && (ResponsesMap(a)[b[j].code].name != b[j].define.name || ResponsesMap(a)[b[j].code].description != b[j].define.description) ==>
      ResponseEntry(ResponsesMap(a), Tagged(b[j], false), del) == b[j].(xDiff := Changed)
  {
    var c := if del then ResponsesWithRemoved(a, ResponsesMap(b).Keys, b, |a|) else Tag(b);
    if del {
      ResponsesWithRemovedKeeps(a, ResponsesMap(b).Keys, b, |a|, j);
    }
    var k :| 0 <= k < |c| && c[k] == Tagged(b[j], false);
    assert ResponsesDiff(a, b, del)[k] == ResponseEntry(ResponsesMap(a), c[k], del);
  }

  /** With `del` every older response whose code the newer list lacks is in the result, marked "-". */
  lemma ResponsesDiffKeepsOlder(a: seq<Response>, b: seq<Response>, i: nat)
    requires i < |a| && a[i].code !in ResponsesMap(b)
    ensures exists k :: 0 <= k < |ResponsesDiff(a, b, true)| && ResponsesDiff(a, b, true)[k] == a[i].(xDiff := Removed)
  {
    var c := ResponsesWithRemoved(a, ResponsesMap(b).Keys, b, |a|);
    ResponsesWithRemovedAdds(a, ResponsesMap(b).Keys, b, |a|, i);
    var k :| 0 <= k < |c| && c[k] == Tagged(a[i].(xDiff := Removed), true);
    assert ResponsesDiff(a, b, true)[k] == ResponseEntry(ResponsesMap(a), c[k], true);
  }

  // ----- parameters and request -----

  /** `equalSchemas` applied to one bucket: a nil newer bucket is left alone. */
  function ParamDiff(a: Option<seq<SpecSchema>>, b: Option<seq<SpecSchema>>, del: bool): Option<seq<SpecSchema>>
  {
    if b.None? then None else Some(SchemasDiff(a.GetOr([]), b.value, del))
  }

  /** `equalParam`: each non-nil newer bucket is replaced by its annotation against the older one (empty when nil). */
  method EqualParam(a: HTTPParameters, b: HTTPParameters, del: bool)
    modifies b
    ensures forall loc :: b.Bucket(loc) == ParamDiff(old(a.Bucket(loc)), old(b.Bucket(loc)), del)
  {
    var a1 := a.Map();
    var b1 := b.Map();
    assert forall loc :: (if loc in a1 then a1[loc] else []) == old(a.Bucket(loc)).GetOr([]);
    UpdateBuckets(a1, b1, b, del);
  }

  /** The loop of `equalParam` over the newer side's non-nil buckets. */
  method UpdateBuckets(a1: map<string, seq<SpecSchema>>, b1: map<string, seq<SpecSchema>>, b: HTTPParameters, del: bool)
    requires forall loc :: loc in b1 ==> loc in Locations
    modifies b
    ensures forall loc :: loc in b1 ==> b.Bucket(loc) == Some(SchemasDiff(if loc in a1 then a1[loc] else [], b1[loc], del))
    ensures forall loc :: loc !in b1 ==> b.Bucket(loc) == old(b.Bucket(loc))
  {
    var todo := b1.Keys;
    while todo != {}
      invariant forall loc :: loc in todo ==> loc in b1
      invariant forall loc :: loc in b1 && loc !in todo ==> b.Bucket(loc) == Some(SchemasDiff(if loc in a1 then a1[loc] else [], b1[loc], del))
      invariant forall loc :: !(loc in b1 && loc !in todo) ==> b.Bucket(loc) == old(b.Bucket(loc))
      decreases |todo|
    {
      var k :| k in todo;
      var newv := EqualSchemas(if k in a1 then a1[k] else [], b1[k], del);
      SetBucket(b, k, newv);
      todo := todo - {k};
    }
  }

  /** The `switch` of `equalParam`: the bucket of a known location is replaced. */
  method SetBucket(b: HTTPParameters, loc: string, v: seq<SpecSchema>)
    requires loc in Locations
    modifies b
    ensures b.Bucket(loc) == Some(v)
    ensures forall l :: l != loc ==> b.Bucket(l) == old(b.Bucket(l))
  {
    if loc == "path" {
      b.path := Some(v);
    } else if loc == "header" {
      b.header := Some(v);
    } else if loc == "query" {
      b.query := Some(v);
    } else if loc == "cookie" {
      b.cookie := Some(v);
    }
  }

  /** `equalRequest`: parameters bucket by bucket, then the bodies. */
  method EqualRequest(a: HTTPRequestNode, b: HTTPRequestNode, del: bool)
    modifies b, b.parameters
    ensures b.parameters == old(b.parameters) && b.globalExcepts == old(b.globalExcepts)
    ensures forall loc :: b.parameters.Bucket(loc) == ParamDiff(old(a.parameters.Bucket(loc)), old(b.parameters.Bucket(loc)), del)
    ensures b.content == ContentDiffOpt(old(a.content), old(b.content), del)
  {
    var ac, bc := a.content, b.content;
    EqualParam(a.parameters, b.parameters, del);
    var c := EqualContentOpt(ac, bc, del);
    b.content := c;
  }

  // ----- operations -----

  /** `HTTPURLNode`. */
  datatype URLNode = URLNode(path: string, httpMethod: string, xDiff: Marker)

  /** `HTTPPart`: the request node and the response list of one operation. */
  class HTTPPart {
    var request: HTTPRequestNode
    var responses: seq<Response>

    constructor (request: HTTPRequestNode, responses: seq<Response>)
      ensures this.request == request && this.responses == responses
    {
      this.request, this.responses := request, responses;
    }
  }

  /** One entry of a spec's collections, as `CollectionsMap` yields it. */
  datatype Collection = Collection(url: URLNode, part: HTTPPart)

  /** The two items `Diff` returns, and the older responses as the older item carries them. */
  datatype Diffed = Diffed(sourceURL: URLNode, targetURL: URLNode, sourceResponses: seq<Response>)

  /** The objects of the newer operation that `Diff` annotates. */
  function Annotated(target: seq<Collection>): set<object>
  {
    if |target| == 1 then {target[0].part} else {}
  }

  /**
   * `Diff(source, target, del)`: refused (a panic in the source) unless both
   * sides hold exactly one operation; otherwise the newer URL node is "!"
   * exactly when the paths differ (methods are not compared), and the newer
   * part carries the annotated request and responses.
   */
  method Diff(source: seq<Collection>, target: seq<Collection>, del: bool) returns (r: Result<Diffed>)
    modifies Annotated(target), if |target| == 1 then {target[0].part.request, target[0].part.request.parameters} else {}
    ensures r.Err? <==> |source| != 1 || |target| != 1
    ensures r.Ok? ==> r.value.sourceURL == URLNode(source[0].url.path, source[0].url.httpMethod, Unset)
    ensures r.Ok? ==> r.value.targetURL == URLNode(target[0].url.path, target[0].url.httpMethod, if source[0].url.path != target[0].url.path then Changed else Unset)
    ensures r.Ok? ==> target[0].part.responses == ResponsesDiff(old(source[0].part.responses), old(target[0].part.responses), del)
    ensures r.Ok? ==> r.value.sourceResponses == OlderAfterDiff(old(source[0].part.responses), old(target[0].part.responses), del)
    ensures r.Ok? ==> target[0].part.request == old(target[0].part.request)
    ensures r.Ok? ==> target[0].part.request.content == ContentDiffOpt(old(source[0].part.request.content), old(target[0].part.request.content), del)
    ensures r.Ok? ==> (forall loc ::
      target[0].part.request.parameters.Bucket(loc) == ParamDiff(old(source[0].part.request.parameters.Bucket(loc)), old(target[0].part.request.parameters.Bucket(loc)), del))
  {
    if |source| != 1 || |target| != 1 {
      return Err("source,target Collections length error");
    }
    var a, b := source[0], target[0];
    var au := URLNode(a.url.path, a.url.httpMethod, Unset);
    var bu := URLNode(b.url.path, b.url.httpMethod, Unset);
    if au.path != bu.path {
      bu := bu.(xDiff := Changed);
    }
    var aResponses, bResponses := a.part.responses, b.part.responses;
    EqualRequest(a.part.request, b.part.request, del);
    var older, newer := EqualResponse(aResponses, bResponses, del);
    b.part.responses := newer;
    return Ok(Diffed(au, bu, older));
  }
}
