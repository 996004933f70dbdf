/**
 * The operation containers of backend/common/spec: the named schema wrapper
 * (`spec.Schema`, here `SpecSchema`) with its examples, the four parameter
 * buckets, the request node's global-parameter exception lists and the
 * response list.
 *
 * The JSON schema inside a wrapper is `JsonSchema.Schema`; the package
 * backend/common/spec/jsonschema is not part of this model and is taken to
 * behave like backend/module/spec/jsonschema.
 */
module CommonSpec {
  import opened Wrappers
  import opened Text
  import Lists
  import opened JsonSchema

  /** `any` values (examples) are opaque: only compared for equality. */
  type Opaque = Option<string>

  datatype Example = Example(summary: string, value: Opaque, xDiff: Marker)

  /** `spec.Schema`: a named parameter, header or body. A nil `Examples` map is `None`. */
  datatype SpecSchema = SpecSchema(
    id: Int64,
    name: string,
    description: string,
    required: bool,
    example: Opaque,
    examples: Option<map<string, Example>>,
    schema: Option<Schema>,
    ref: Option<string>,
    xDiff: Marker)

  /** `Schema.Ref()`. */
  predicate IsRef(s: SpecSchema)
  {
    s.ref.Some?
  }

  /** `Schemas.Lookup`: the first entry with that name; nil for a nil list or no match. */
  function Lookup(xs: Option<seq<SpecSchema>>, name: string): (r: Option<SpecSchema>)
    ensures xs.None? ==> r.None?
    ensures r.None? ==> xs.None? || forall i :: 0 <= i < |xs.value| ==> xs.value[i].name != name
    ensures r.Some? ==> r.value.name == name && (exists i :: 0 <= i < |xs.value| && xs.value[i] == r.value && forall j :: 0 <= j < i ==> xs.value[j].name != name)
  {
    if xs.None? then None
    else
      match Lists.FindFirst(xs.value, (v: SpecSchema) => v.name == name)
      case None => None
      case Some(i) => Some(xs.value[i])
  }

  /** `Schemas.LookupID`: the first entry with that id; nil for a nil list or no match. */
  function LookupID(xs: Option<seq<SpecSchema>>, id: Int64): (r: Option<SpecSchema>)
    ensures xs.None? ==> r.None?
    ensures r.None? ==> xs.None? || forall i :: 0 <= i < |xs.value| ==> xs.value[i].id != id
    ensures r.Some? ==> r.value.id == id && (exists i :: 0 <= i < |xs.value| && xs.value[i] == r.value && forall j :: 0 <= j < i ==> xs.value[j].id != id)
  {
    if xs.None? then None
    else
      match Lists.FindFirst(xs.value, (v: SpecSchema) => v.id == id)
      case None => None
      case Some(i) => Some(xs.value[i])
  }

  /**
   * `Lookup` and `LookupID` hand back the stored wrapper itself: a wrapper
   * that is a `Ref()` is found as that reference, never resolved.
   */
  lemma LookupKeepsRef(xs: seq<SpecSchema>, i: int)
    requires 0 <= i < |xs| && IsRef(xs[i])
    ensures (forall j :: 0 <= j < i ==> xs[j].name != xs[i].name) ==>
      Lookup(Some(xs), xs[i].name) == Some(xs[i]) && IsRef(Lookup(Some(xs), xs[i].name).value)
    ensures (forall j :: 0 <= j < i ==> xs[j].id != xs[i].id) ==>
      LookupID(Some(xs), xs[i].id) == Some(xs[i]) && IsRef(LookupID(Some(xs), xs[i].id).value)
  {
    if forall j :: 0 <= j < i ==> xs[j].name != xs[i].name {
      var r := Lookup(Some(xs), xs[i].name);
      var k :| 0 <= k < |xs| && xs[k] == r.value && forall j :: 0 <= j < k ==> xs[j].name != xs[i].name;
      assert k == i;
    }
    if forall j :: 0 <= j < i ==> xs[j].id != xs[i].id {
      var r := LookupID(Some(xs), xs[i].id);
      var k :| 0 <= k < |xs| && xs[k] == r.value && forall j :: 0 <= j < k ==> xs[j].id != xs[i].id;
      assert k == i;
    }
  }

  /**
   * `Schema.SetXDiff(x)`: marks the JSON schema tree when there is one, and
   * otherwise only the wrapper's own marker (which a nil marker clears).
   */
  function SpecSetXDiff(s: SpecSchema, x: Marker): (r: SpecSchema)
    ensures r.schema.Some? == s.schema.Some?
    ensures s.schema.None? ==> r.xDiff == x && r.(xDiff := s.xDiff) == s
    ensures s.schema.Some? ==> r.(schema := s.schema) == s && (x != Unset ==> r.schema.value.xDiff == x)
  {
    if s.schema.Some? then s.(schema := Some(SetXDiff(s.schema.value, x))) else s.(xDiff := x)
  }

  lemma SpecSetXDiffTwice(s: SpecSchema, x: Marker)
    ensures SpecSetXDiff(SpecSetXDiff(s, x), x) == SpecSetXDiff(s, x)
  {
    if s.schema.Some? {
      SetXDiffTwice(s.schema.value, x, x);
    }
  }

  /** `Schemas.SetXDiff`: every entry of the list (a nil list stays nil). */
  function SchemasSetXDiff(xs: Option<seq<SpecSchema>>, x: Marker): (r: Option<seq<SpecSchema>>)
    ensures r.Some? == xs.Some?
    ensures xs.Some? ==> |r.value| == |xs.value| && forall i :: 0 <= i < |xs.value| ==> r.value[i] == SpecSetXDiff(xs.value[i], x)
  {
    if xs.None? then None else Some(seq(|xs.value|, i requires 0 <= i < |xs.value| => SpecSetXDiff(xs.value[i], x)))
  }

  /** `HTTPBody.SetXDiff`: every body of the map, under the same content types. */
  function BodySetXDiff(b: Option<map<string, SpecSchema>>, x: Marker): (r: Option<map<string, SpecSchema>>)
    ensures r.Some? == b.Some?
    ensures b.Some? ==> r.value.Keys == b.value.Keys && forall k :: k in b.value ==> r.value[k] == SpecSetXDiff(b.value[k], x)
  {
    if b.None? then None else Some(map k | k in b.value :: SpecSetXDiff(b.value[k], x))
  }

  lemma SchemasSetXDiffTwice(xs: Option<seq<SpecSchema>>, x: Marker)
    ensures SchemasSetXDiff(SchemasSetXDiff(xs, x), x) == SchemasSetXDiff(xs, x)
  {
    if xs.Some? {
      forall i | 0 <= i < |xs.value| ensures SpecSetXDiff(SpecSetXDiff(xs.value[i], x), x) == SpecSetXDiff(xs.value[i], x) {
        SpecSetXDiffTwice(xs.value[i], x);
      }
      assert SchemasSetXDiff(SchemasSetXDiff(xs, x), x).value == SchemasSetXDiff(xs, x).value;
    }
  }

  lemma BodySetXDiffTwice(b: Option<map<string, SpecSchema>>, x: Marker)
    ensures BodySetXDiff(BodySetXDiff(b, x), x) == BodySetXDiff(b, x)
  {
    if b.Some? {
      forall k | k in b.value ensures SpecSetXDiff(SpecSetXDiff(b.value[k], x), x) == SpecSetXDiff(b.value[k], x) {
        SpecSetXDiffTwice(b.value[k], x);
      }
      assert BodySetXDiff(BodySetXDiff(b, x), x).value == BodySetXDiff(b, x).value;
    }
  }

  // ----- examples -----

  function ExamplesOf(s: SpecSchema): map<string, Example>
  {
    if s.examples.Some? then s.examples.value else map[]
  }

  /** The summaries of a wrapper's examples. */
  function Summaries(s: SpecSchema): set<string>
  {
    set k | k in ExamplesOf(s) :: ExamplesOf(s)[k].summary
  }

  /** `FindExample(summary)`: some example with that summary (the map is scanned in no fixed order). */
  method FindExample(s: SpecSchema, summary: string) returns (key: string, found: bool)
    ensures found ==> key in ExamplesOf(s) && ExamplesOf(s)[key].summary == summary
    ensures found <==> summary in Summaries(s)
  {
    var e := ExamplesOf(s);
    var keys := e.Keys;
    while keys != {}
      invariant keys <= e.Keys
      invariant forall k :: k in e && k !in keys ==> e[k].summary != summary
      decreases keys
    {
      var k :| k in keys;
      if e[k].summary == summary {
        return k, true;
      }
      keys := keys - {k};
    }
    return "", false;
  }

  /**
   * The key the source files a removed example under, `strconv.Itoa(len(o.Examples))`,
   * which can already be in use.
   */
  function InsertRemovedAsWritten(e: map<string, Example>, ex: Example): map<string, Example>
  {
    e[FormatNat(|e|) := ex]
  }

  /** With keys "1" and a second example, the source's key overwrites the existing example. */
  lemma InsertRemovedAsWrittenOverwrites()
    ensures var e := map["1" := Example("b", None, Unset)];
            var r := InsertRemovedAsWritten(e, Example("a", None, Removed));
            |r| == 1 && forall k :: k in r ==> r[k].summary != "b"
  {
    var e := map["1" := Example("b", None, Unset)];
    assert FormatNat(|e|) == "1";
    var r := InsertRemovedAsWritten(e, Example("a", None, Removed));
    assert r == map["1" := Example("a", None, Removed)];
  }

  lemma FormatNatInjective(a: nat, b: nat)
    requires FormatNat(a) == FormatNat(b)
    ensures a == b
  {
    DigitsValueOfFormatNat(a);
    DigitsValueOfFormatNat(b);
  }

  /** The first decimal key from `n` on that is not in use. */
  function NextFreeKey(keys: set<string>, n: nat): (k: string)
    ensures k !in keys
    ensures exists m: nat :: m >= n && k == FormatNat(m)
    decreases |keys|
  {
    if FormatNat(n) !in keys then FormatNat(n)
    else
      var k := NextFreeKey(keys - {FormatNat(n)}, n + 1);
      var m: nat :| m >= n + 1 && k == FormatNat(m);
      assert k != FormatNat(n) by {
        if k == FormatNat(n) {
          FormatNatInjective(m, n);
        }
      }
      k
  }

  /** Filing a removed example under a key that is not in use keeps every example already there. */
  function InsertRemoved(e: map<string, Example>, ex: Example): (r: map<string, Example>)
    ensures |r| == |e| + 1
    ensures forall k :: k in e ==> k in r && r[k] == e[k]
    ensures exists k :: k in r && k !in e && r[k] == ex
    ensures forall k :: k in r && k !in e ==> r[k] == ex
  {
    var k := NextFreeKey(e.Keys, |e|);
    e[k := ex]
  }

  /** Every summary is then present in the second wrapper. */
  lemma InsertRemovedSummaries(o: SpecSchema, ex: Example)
    ensures Summaries(o.(examples := Some(InsertRemoved(ExamplesOf(o), ex)))) == Summaries(o) + {ex.summary}
  {
    var e := ExamplesOf(o);
    var r := InsertRemoved(e, ex);
    var o' := o.(examples := Some(r));
    assert ExamplesOf(o') == r;
    forall t | t in Summaries(o) + {ex.summary} ensures t in Summaries(o') {
      if t == ex.summary {
        var k :| k in r && k !in e && r[k] == ex;
        assert r[k].summary == t;
      } else {
        var k :| k in e && e[k].summary == t;
        assert r[k].summary == t;
      }
    }
    forall t | t in Summaries(o') ensures t in Summaries(o) + {ex.summary} {
      var k :| k in r && r[k].summary == t;
      if k in e {
        assert e[k].summary == t;
      }
    }
  }

  /** The two wrappers have the same summaries, and examples that share a summary share their value. */
  predicate AgreeingExamples(s: SpecSchema, o: SpecSchema)
  {
    Summaries(s) == Summaries(o) &&
    forall k1, k2 :: k1 in ExamplesOf(s) && k2 in ExamplesOf(o) && ExamplesOf(s)[k1].summary == ExamplesOf(o)[k2].summary ==>
      ExamplesOf(s)[k1].value == ExamplesOf(o)[k2].value
  }

  function MarkExample(s: SpecSchema, key: string, x: Marker): (r: SpecSchema)
    requires key in ExamplesOf(s)
    ensures Summaries(r) == Summaries(s)
  {
    var e := ExamplesOf(s);
    var r := s.(examples := Some(e[key := e[key].(xDiff := x)]));
    assert Summaries(r) == Summaries(s) by {
      assert ExamplesOf(r).Keys == e.Keys;
      forall t | t in Summaries(s) ensures t in Summaries(r) {
        var k :| k in e && e[k].summary == t;
        assert ExamplesOf(r)[k].summary == t;
      }
    }
    r
  }

  /** The decimal keys "0" to "n-1". */
  function KeyRange(n: nat): set<string>
  {
    set i: nat | i < n :: FormatNat(i)
  }

  lemma KeyRangeSnoc(n: nat)
    ensures KeyRange(n + 1) == KeyRange(n) + {FormatNat(n)}
  {
    forall k | k in KeyRange(n + 1) ensures k in KeyRange(n) + {FormatNat(n)} {
      var i: nat :| i < n + 1 && k == FormatNat(i);
      if i < n {
        assert k in KeyRange(n);
      }
    }
  }

  lemma KeyRangeFresh(n: nat)
    ensures FormatNat(n) !in KeyRange(n)
  {
    if FormatNat(n) in KeyRange(n) {
      var i: nat :| i < n && FormatNat(i) == FormatNat(n);
      FormatNatInjective(i, n);
    }
  }

  /** Example keys "0" to "n-1" for n examples. */
  predicate DenseKeys(e: map<string, Example>)
  {
    e.Keys == KeyRange(|e|)
  }

  /** On dense keys the source's key is still free: both ways of filing agree, and the keys stay dense. */
  lemma InsertRemovedDense(e: map<string, Example>, ex: Example)
    requires DenseKeys(e)
    ensures InsertRemovedAsWritten(e, ex) == InsertRemoved(e, ex)
    ensures DenseKeys(InsertRemoved(e, ex))
  {
    var n := |e|;
    KeyRangeFresh(n);
    KeyRangeSnoc(n);
    assert FormatNat(n) !in e.Keys;
    assert NextFreeKey(e.Keys, n) == FormatNat(n);
    var r := e[FormatNat(n) := ex];
    assert r.Keys == e.Keys + {FormatNat(n)};
    assert |r.Keys| == |e.Keys| + 1;
  }

  /** Some example of `w` with summary `t` carries marker `x`. */
  predicate MarkedIn(w: SpecSchema, t: string, x: Marker)
  {
    exists k :: k in ExamplesOf(w) && ExamplesOf(w)[k].summary == t && ExamplesOf(w)[k].xDiff == x
  }

  /** Both wrappers have summary `t`, and every pair of examples under it differs in value. */
  predicate ValuesDiffer(s: SpecSchema, o: SpecSchema, t: string)
  {
    t in Summaries(s) && t in Summaries(o) &&
    forall k1, k2 :: k1 in ExamplesOf(s) && k2 in ExamplesOf(o) && ExamplesOf(s)[k1].summary == t && ExamplesOf(o)[k2].summary == t ==>
      ExamplesOf(s)[k1].value != ExamplesOf(o)[k2].value
  }

  /**
   * The markers `EqualExamples` leaves for summary `t`: "+" on an example of
   * `o` for a summary only `o` has; "-" on an example of `s`, and on its copy
   * filed in `o`, for a summary only `s` has; "!" on an example of `o` when
   * its values differ from those of `s`.
   */
  predicate MarkedFor(s: SpecSchema, o: SpecSchema, s': SpecSchema, o': SpecSchema, t: string)
  {
    (t in Summaries(o) && t !in Summaries(s) ==> MarkedIn(o', t, Added)) &&
    (t in Summaries(s) && t !in Summaries(o) ==> MarkedIn(s', t, Removed) && MarkedIn(o', t, Removed)) &&
    (ValuesDiffer(s, o, t) ==> MarkedIn(o', t, Changed))
  }

  lemma MarkExampleSets(w: SpecSchema, key: string, x: Marker)
    requires key in ExamplesOf(w)
    ensures MarkedIn(MarkExample(w, key, x), ExamplesOf(w)[key].summary, x)
  {
    assert ExamplesOf(MarkExample(w, key, x))[key].xDiff == x;
  }

  /** Marking an example of another summary keeps a marker. */
  lemma MarkExampleKeeps(w: SpecSchema, key: string, x: Marker, t: string, y: Marker)
    requires key in ExamplesOf(w) && ExamplesOf(w)[key].summary != t && MarkedIn(w, t, y)
    ensures MarkedIn(MarkExample(w, key, x), t, y)
  {
    var k :| k in ExamplesOf(w) && ExamplesOf(w)[k].summary == t && ExamplesOf(w)[k].xDiff == y;
    assert ExamplesOf(MarkExample(w, key, x))[k] == ExamplesOf(w)[k];
  }

  /** Filing under an unused key keeps every marker and adds the filed example's. */
  lemma InsertRemovedMarks(w: SpecSchema, ex: Example, t: string, y: Marker)
    ensures MarkedIn(w, t, y) ==> MarkedIn(w.(examples := Some(InsertRemoved(ExamplesOf(w), ex))), t, y)
    ensures MarkedIn(w.(examples := Some(InsertRemoved(ExamplesOf(w), ex))), ex.summary, ex.xDiff)
  {
    var r := InsertRemoved(ExamplesOf(w), ex);
    var w' := w.(examples := Some(r));
    assert ExamplesOf(w') == r;
    if MarkedIn(w, t, y) {
      var k :| k in ExamplesOf(w) && ExamplesOf(w)[k].summary == t && ExamplesOf(w)[k].xDiff == y;
      assert r[k] == ExamplesOf(w)[k];
    }
    var k :| k in r && k !in ExamplesOf(w) && r[k] == ex;
  }

  /** Where `EqualExamples` files a removed example in `o`. */
  function FileRemoved(e: map<string, Example>, ex: Example, variant: Variant): map<string, Example>
  {
    if variant == AsWritten then InsertRemovedAsWritten(e, ex) else InsertRemoved(e, ex)
  }

  /** As written and intended filing agree, and the filed example joins the others, unless as written keys are not dense. */
  predicate Full(o: SpecSchema, variant: Variant)
  {
    variant == Intended || DenseKeys(ExamplesOf(o))
  }

  /** The examples of `w'` whose summary is still to be compared are those of `w`, unchanged. */
  ghost predicate Untouched(w: SpecSchema, w': SpecSchema, todo: set<string>)
  {
    forall j :: j in ExamplesOf(w') && ExamplesOf(w')[j].summary in todo ==> j in ExamplesOf(w) && ExamplesOf(w')[j] == ExamplesOf(w)[j]
  }

  /** The result so far: true leaves both wrappers alone, and each difference already compared made it false. */
  ghost predicate ResultInv(s: SpecSchema, o: SpecSchema, s': SpecSchema, o': SpecSchema, b: bool, names: set<string>, todo: set<string>)
  {
    (b ==> s' == s && o' == o) &&
    (forall t :: t in names && t !in todo && (t in Summaries(s) <==> t !in Summaries(o)) ==> !b) &&
    (forall t :: t in names && t !in todo && ValuesDiffer(s, o, t) ==> !b) &&
    (AgreeingExamples(s, o) ==> b)
  }

  /** The markers of the summaries already compared. */
  ghost predicate MarksInv(s: SpecSchema, o: SpecSchema, s': SpecSchema, o': SpecSchema, variant: Variant, names: set<string>, todo: set<string>)
  {
    (forall t :: t in names && t !in todo && t in Summaries(s) && t !in Summaries(o) ==> MarkedIn(s', t, Removed)) &&
    (Full(o, variant) ==> Full(o', variant) && Summaries(o') == Summaries(o) + Summaries(s) * (names - todo)) &&
    (Full(o, variant) ==> forall t :: t in names && t !in todo ==> MarkedFor(s, o, s', o', t))
  }

  /** What `EqualExamples` keeps true, with `todo` the summaries not yet compared. */
  ghost predicate ExamplesInv(s: SpecSchema, o: SpecSchema, s': SpecSchema, o': SpecSchema, b: bool, variant: Variant, names: set<string>, todo: set<string>)
  {
    names == Summaries(s) + Summaries(o) && todo <= names &&
    Summaries(s') == Summaries(s) && Summaries(o') <= names &&
    Untouched(s, s', todo) && Untouched(o, o', todo) &&
    ResultInv(s, o, s', o', b, names, todo) &&
    MarksInv(s, o, s', o', variant, names, todo) &&
    s'.(examples := s.examples) == s && o'.(examples := o.examples) == o
  }

  /** Marking an example under summary `k` leaves the other summaries' examples untouched. */
  lemma MarkUntouched(w: SpecSchema, w': SpecSchema, todo: set<string>, key: string, x: Marker, k: string)
    requires Untouched(w, w', todo) && key in ExamplesOf(w') && ExamplesOf(w')[key].summary == k
    ensures Untouched(w, MarkExample(w', key, x), todo - {k})
  {
    assert ExamplesOf(MarkExample(w', key, x)) == ExamplesOf(w')[key := ExamplesOf(w')[key].(xDiff := x)];
  }

  /** Marking an example under summary `k` keeps the markers of every other summary. */
  lemma MarkKeepsMarkedFor(s: SpecSchema, o: SpecSchema, s': SpecSchema, o': SpecSchema, key: string, x: Marker, k: string, done: set<string>)
    requires key in ExamplesOf(o') && ExamplesOf(o')[key].summary == k
    requires forall t :: t in done ==> MarkedFor(s, o, s', o', t)
    ensures forall t :: t in done && t != k ==> MarkedFor(s, o, s', MarkExample(o', key, x), t)
  {
    forall t | t in done && t != k ensures MarkedFor(s, o, s', MarkExample(o', key, x), t) {
      assert MarkedFor(s, o, s', o', t);
      if MarkedIn(o', t, Added) { MarkExampleKeeps(o', key, x, t, Added); }
      if MarkedIn(o', t, Removed) { MarkExampleKeeps(o', key, x, t, Removed); }
      if MarkedIn(o', t, Changed) { MarkExampleKeeps(o', key, x, t, Changed); }
    }
  }

  /** Once a difference has been found, the result invariant holds for false. */
  lemma ResultFalse(s: SpecSchema, o: SpecSchema, s': SpecSchema, o': SpecSchema, names: set<string>, todo: set<string>)
    requires !AgreeingExamples(s, o)
    ensures ResultInv(s, o, s', o', false, names, todo)
  {
  }

  /** Marking an example of `o'` under summary `k` with `x`, which `MarkedFor` asks of `k`. */
  lemma MarkOtherMarks(s: SpecSchema, o: SpecSchema, s': SpecSchema, o': SpecSchema, variant: Variant, names: set<string>, todo: set<string>, k: string, ok: string, x: Marker)
    requires MarksInv(s, o, s', o', variant, names, todo) && k in todo && todo <= names && k in names
    requires ok in ExamplesOf(o') && ExamplesOf(o')[ok].summary == k && k in Summaries(o)
    requires Full(o, variant) && k !in Summaries(s) ==> x == Added
    requires Full(o, variant) && ValuesDiffer(s, o, k) ==> x == Changed
    ensures MarksInv(s, o, s', MarkExample(o', ok, x), variant, names, todo - {k})
  {
    var o'' := MarkExample(o', ok, x);
    assert ExamplesOf(o'').Keys == ExamplesOf(o').Keys;
    if Full(o, variant) {
      MarkExampleSets(o', ok, x);
      MarkKeepsMarkedFor(s, o, s', o', ok, x, k, names - todo);
      assert MarkedFor(s, o, s', o'', k);
    }
  }

  /** A summary only the second wrapper has: its example is marked "+". */
  lemma AddedStep(s: SpecSchema, o: SpecSchema, s': SpecSchema, o': SpecSchema, b: bool, variant: Variant, names: set<string>, todo: set<string>, k: string, ok: string)
    requires ExamplesInv(s, o, s', o', b, variant, names, todo) && k in todo
    requires k !in Summaries(s') && ok in ExamplesOf(o') && ExamplesOf(o')[ok].summary == k
    ensures ExamplesInv(s, o, s', MarkExample(o', ok, Added), false, variant, names, todo - {k})
  {
    var o'' := MarkExample(o', ok, Added);
    assert ok in ExamplesOf(o) && k in Summaries(o);
    assert !AgreeingExamples(s, o);
    ResultFalse(s, o, s', o'', names, todo - {k});
    MarkUntouched(o, o', todo, ok, Added, k);
    assert Untouched(s, s', todo - {k});
    MarkOtherMarks(s, o, s', o', variant, names, todo, k, ok, Added);
  }

  /** The second wrapper after filing: its summaries grow by the filed one at most, and by exactly it when `Full`. */
  lemma FileRemovedSummaries(o': SpecSchema, se: Example, variant: Variant)
    ensures Summaries(o'.(examples := Some(FileRemoved(ExamplesOf(o'), se, variant)))) <= Summaries(o') + {se.summary}
    ensures Full(o', variant) ==> Summaries(o'.(examples := Some(FileRemoved(ExamplesOf(o'), se, variant)))) == Summaries(o') + {se.summary}
    ensures Full(o', variant) ==> FileRemoved(ExamplesOf(o'), se, variant) == InsertRemoved(ExamplesOf(o'), se)
    ensures Full(o', variant) ==> Full(o'.(examples := Some(FileRemoved(ExamplesOf(o'), se, variant))), variant)
  {
    var e := ExamplesOf(o');
    var o'' := o'.(examples := Some(FileRemoved(e, se, variant)));
    if variant == AsWritten {
      var r := InsertRemovedAsWritten(e, se);
      assert ExamplesOf(o'') == r;
      forall t | t in Summaries(o'') ensures t in Summaries(o') + {se.summary} {
        var j :| j in r && r[j].summary == t;
        if j != FormatNat(|e|) {
          assert e[j].summary == t;
        }
      }
      if Full(o', variant) {
        InsertRemovedDense(e, se);
        InsertRemovedSummaries(o', se);
      }
    } else {
      InsertRemovedSummaries(o', se);
    }
  }

  /** Filing a copy under summary `k` leaves the other summaries' examples untouched. */
  lemma FileUntouched(w: SpecSchema, w': SpecSchema, todo: set<string>, se: Example, variant: Variant)
    requires Untouched(w, w', todo)
    ensures Untouched(w, w'.(examples := Some(FileRemoved(ExamplesOf(w'), se, variant))), todo - {se.summary})
  {
    var e := ExamplesOf(w');
    var r := FileRemoved(e, se, variant);
    assert ExamplesOf(w'.(examples := Some(r))) == r;
    forall j | j in r && r[j].summary in todo - {se.summary} ensures j in ExamplesOf(w) && r[j] == ExamplesOf(w)[j] {
      assert j in e && r[j] == e[j];
    }
  }

  /** Filing keeps the markers of every other summary. */
  lemma FileKeepsMarkedFor(s: SpecSchema, o: SpecSchema, s': SpecSchema, s'': SpecSchema, o': SpecSchema, se: Example, done: set<string>, sk: string)
    requires sk in ExamplesOf(s') && ExamplesOf(s')[sk].summary == se.summary && s'' == MarkExample(s', sk, Removed)
    requires forall t :: t in done ==> MarkedFor(s, o, s', o', t)
    ensures forall t :: t in done && t != se.summary ==> MarkedFor(s, o, s'', o'.(examples := Some(InsertRemoved(ExamplesOf(o'), se))), t)
  {
    forall t | t in done && t != se.summary ensures MarkedFor(s, o, s'', o'.(examples := Some(InsertRemoved(ExamplesOf(o'), se))), t) {
      assert MarkedFor(s, o, s', o', t);
      if MarkedIn(s', t, Removed) { MarkExampleKeeps(s', sk, Removed, t, Removed); }
      InsertRemovedMarks(o', se, t, Added);
      InsertRemovedMarks(o', se, t, Removed);
      InsertRemovedMarks(o', se, t, Changed);
    }
  }

  /** Marking `s'` and filing the copy in `o'`, the markers `MarkedFor` asks of `k`. */
  lemma RemovedMarks(s: SpecSchema, o: SpecSchema, s': SpecSchema, o': SpecSchema, variant: Variant, names: set<string>, todo: set<string>, k: string, sk: string)
    requires MarksInv(s, o, s', o', variant, names, todo) && k in todo && todo <= names && k in names
    requires sk in ExamplesOf(s') && ExamplesOf(s')[sk].summary == k && k in Summaries(s)
    requires Full(o, variant) ==> k !in Summaries(o)
    ensures var se := ExamplesOf(s')[sk].(xDiff := Removed);
      MarksInv(s, o, MarkExample(s', sk, Removed), o'.(examples := Some(FileRemoved(ExamplesOf(o'), se, variant))), variant, names, todo - {k})
  {
    var se := ExamplesOf(s')[sk].(xDiff := Removed);
    var s'' := MarkExample(s', sk, Removed);
    var o'' := o'.(examples := Some(FileRemoved(ExamplesOf(o'), se, variant)));
    RemovedMarksFirst(s, o, s', names, todo, k, sk);
    if Full(o, variant) {
      RemovedMarksFull(s, o, s', o', variant, names, todo, k, sk);
    }
  }

  /** The summaries only `s` has, `k` now included, are marked "-" in `s'`. */
  lemma RemovedMarksFirst(s: SpecSchema, o: SpecSchema, s': SpecSchema, names: set<string>, todo: set<string>, k: string, sk: string)
    requires forall t :: t in names && t !in todo && t in Summaries(s) && t !in Summaries(o) ==> MarkedIn(s', t, Removed)
    requires sk in ExamplesOf(s') && ExamplesOf(s')[sk].summary == k
    ensures forall t :: t in names && t !in todo - {k} && t in Summaries(s) && t !in Summaries(o) ==> MarkedIn(MarkExample(s', sk, Removed), t, Removed)
  {
    var s'' := MarkExample(s', sk, Removed);
    MarkExampleSets(s', sk, Removed);
    forall t | t in names && t !in todo - {k} && t in Summaries(s) && t !in Summaries(o) ensures MarkedIn(s'', t, Removed) {
      if t != k {
        MarkExampleKeeps(s', sk, Removed, t, Removed);
      }
    }
  }

  /** When the second wrapper is full, filing keeps it full, adds `k`'s summary and gives `k` its markers. */
  lemma RemovedMarksFull(s: SpecSchema, o: SpecSchema, s': SpecSchema, o': SpecSchema, variant: Variant, names: set<string>, todo: set<string>, k: string, sk: string)
    requires MarksInv(s, o, s', o', variant, names, todo) && k in todo && todo <= names && k in names && Full(o, variant)
    requires sk in ExamplesOf(s') && ExamplesOf(s')[sk].summary == k && k in Summaries(s) && k !in Summaries(o)
    ensures var se := ExamplesOf(s')[sk].(xDiff := Removed);
      var o'' := o'.(examples := Some(FileRemoved(ExamplesOf(o'), se, variant)));
      Full(o'', variant) && Summaries(o'') == Summaries(o) + Summaries(s) * (names - (todo - {k})) &&
      forall t :: t in names && t !in todo - {k} ==> MarkedFor(s, o, MarkExample(s', sk, Removed), o'', t)
  {
    var se := ExamplesOf(s')[sk].(xDiff := Removed);
    FileRemovedSummaries(o', se, variant);
    RemovedSummariesFull(s, o, o', names, todo, k, se);
    RemovedMarkedForFull(s, o, s', o', names, todo, k, sk);
  }

  lemma RemovedSummariesFull(s: SpecSchema, o: SpecSchema, o': SpecSchema, names: set<string>, todo: set<string>, k: string, se: Example)
    requires Summaries(o') == Summaries(o) + Summaries(s) * (names - todo) && k in todo && k in names && k in Summaries(s) && se.summary == k
    ensures Summaries(o') + {se.summary} == Summaries(o) + Summaries(s) * (names - (todo - {k}))
  {
  }

  lemma RemovedMarkedForFull(s: SpecSchema, o: SpecSchema, s': SpecSchema, o': SpecSchema, names: set<string>, todo: set<string>, k: string, sk: string)
    requires forall t :: t in names && t !in todo ==> MarkedFor(s, o, s', o', t)
    requires k in Summaries(s) && k !in Summaries(o)
    requires sk in ExamplesOf(s') && ExamplesOf(s')[sk].summary == k
    ensures var se := ExamplesOf(s')[sk].(xDiff := Removed);
      forall t :: t in names && t !in todo - {k} ==> MarkedFor(s, o, MarkExample(s', sk, Removed), o'.(examples := Some(InsertRemoved(ExamplesOf(o'), se))), t)
  {
    var se := ExamplesOf(s')[sk].(xDiff := Removed);
    var s'' := MarkExample(s', sk, Removed);
    var o'' := o'.(examples := Some(InsertRemoved(ExamplesOf(o'), se)));
    MarkExampleSets(s', sk, Removed);
    InsertRemovedMarks(o', se, k, Removed);
    FileKeepsMarkedFor(s, o, s', s'', o', se, names - todo, sk);
    assert MarkedFor(s, o, s'', o'', k);
  }

  /** A summary only the first wrapper has: its example is marked "-" and filed in the second. */
  lemma RemovedStep(s: SpecSchema, o: SpecSchema, s': SpecSchema, o': SpecSchema, b: bool, variant: Variant, names: set<string>, todo: set<string>, k: string, sk: string)
    requires ExamplesInv(s, o, s', o', b, variant, names, todo) && k in todo
    requires k !in Summaries(o') && sk in ExamplesOf(s') && ExamplesOf(s')[sk].summary == k
    ensures var se := ExamplesOf(s')[sk].(xDiff := Removed);
      ExamplesInv(s, o, MarkExample(s', sk, Removed), o'.(examples := Some(FileRemoved(ExamplesOf(o'), se, variant))), false, variant, names, todo - {k})
  {
    var se := ExamplesOf(s')[sk].(xDiff := Removed);
    var s'' := MarkExample(s', sk, Removed);
    var o'' := o'.(examples := Some(FileRemoved(ExamplesOf(o'), se, variant)));
    assert sk in ExamplesOf(s) && k in Summaries(s);
    assert b || Full(o, variant) ==> k !in Summaries(o);
    assert !AgreeingExamples(s, o);
    ResultFalse(s, o, s'', o'', names, todo - {k});
    MarkUntouched(s, s', todo, sk, Removed, k);
    FileUntouched(o, o', todo, se, variant);
    FileRemovedSummaries(o', se, variant);
    RemovedMarks(s, o, s', o', variant, names, todo, k, sk);
  }

  /** Differing values under a summary both have: the second wrapper's example is marked "!". */
  lemma ChangedStep(s: SpecSchema, o: SpecSchema, s': SpecSchema, o': SpecSchema, b: bool, variant: Variant, names: set<string>, todo: set<string>, k: string, sk: string, ok: string)
    requires ExamplesInv(s, o, s', o', b, variant, names, todo) && k in todo
    requires sk in ExamplesOf(s') && ExamplesOf(s')[sk].summary == k
    requires ok in ExamplesOf(o') && ExamplesOf(o')[ok].summary == k
    requires ExamplesOf(s')[sk].value != ExamplesOf(o')[ok].value
    ensures ExamplesInv(s, o, s', MarkExample(o', ok, Changed), false, variant, names, todo - {k})
  {
    var o'' := MarkExample(o', ok, Changed);
    assert sk in ExamplesOf(s) && ok in ExamplesOf(o) && k in Summaries(s) && k in Summaries(o);
    assert !AgreeingExamples(s, o);
    ResultFalse(s, o, s', o'', names, todo - {k});
    MarkUntouched(o, o', todo, ok, Changed, k);
    assert Untouched(s, s', todo - {k});
    MarkOtherMarks(s, o, s', o', variant, names, todo, k, ok, Changed);
  }

  /** A summary both wrappers have, with no pair of differing values: the result invariant carries over. */
  lemma ResultShrink(s: SpecSchema, o: SpecSchema, s': SpecSchema, o': SpecSchema, b: bool, names: set<string>, todo: set<string>, k: string)
    requires ResultInv(s, o, s', o', b, names, todo)
    requires k in Summaries(s) && k in Summaries(o) && !ValuesDiffer(s, o, k)
    ensures ResultInv(s, o, s', o', b, names, todo - {k})
  {
  }

  /** The same summary: nothing to mark, and the marker invariant carries over. */
  lemma MarksShrink(s: SpecSchema, o: SpecSchema, s': SpecSchema, o': SpecSchema, variant: Variant, names: set<string>, todo: set<string>, k: string)
    requires MarksInv(s, o, s', o', variant, names, todo)
    requires k in Summaries(s) && k in Summaries(o) && !ValuesDiffer(s, o, k)
    ensures MarksInv(s, o, s', o', variant, names, todo - {k})
  {
    if Full(o, variant) {
      assert MarkedFor(s, o, s', o', k);
      assert Summaries(o) + Summaries(s) * (names - (todo - {k})) == Summaries(o) + Summaries(s) * (names - todo);
    }
  }

  /** Equal values under a summary both have: nothing is marked. */
  lemma UnchangedStep(s: SpecSchema, o: SpecSchema, s': SpecSchema, o': SpecSchema, b: bool, variant: Variant, names: set<string>, todo: set<string>, k: string, sk: string, ok: string)
    requires ExamplesInv(s, o, s', o', b, variant, names, todo) && k in todo
    requires sk in ExamplesOf(s') && ExamplesOf(s')[sk].summary == k && ok in ExamplesOf(o') && ExamplesOf(o')[ok].summary == k
    requires ExamplesOf(s')[sk].value == ExamplesOf(o')[ok].value
    ensures ExamplesInv(s, o, s', o', b, variant, names, todo - {k})
  {
    assert sk in ExamplesOf(s) && ok in ExamplesOf(o) && k in Summaries(s) && k in Summaries(o);
    assert ExamplesOf(s)[sk].value == ExamplesOf(o)[ok].value;
    assert !ValuesDiffer(s, o, k);
    ResultShrink(s, o, s', o', b, names, todo, k);
    MarksShrink(s, o, s', o', variant, names, todo, k);
    assert Untouched(s, s', todo - {k}) && Untouched(o, o', todo - {k});
  }

  /** As written only: after an overwrite, a summary neither wrapper has any more is skipped. */
  lemma VanishedStep(s: SpecSchema, o: SpecSchema, s': SpecSchema, o': SpecSchema, b: bool, variant: Variant, names: set<string>, todo: set<string>, k: string)
    requires ExamplesInv(s, o, s', o', b, variant, names, todo) && k in todo
    requires k !in Summaries(s') && k !in Summaries(o')
    ensures !b && !Full(o, variant)
    ensures ExamplesInv(s, o, s', o', b, variant, names, todo - {k})
  {
    assert k in Summaries(o);
    assert Untouched(s, s', todo - {k}) && Untouched(o, o', todo - {k});
  }

  /**
   * `EqualExamples`, over the union of summaries: a summary only in `o` marks
   * `o`'s example "+"; one only in `s` marks `s`'s example "-" and files it in
   * `o` too; differing values mark `o`'s example "!". The result is false
   * when one of these happened. `variant` chooses where a removed example is
   * filed: under `strconv.Itoa(len(o.Examples))` as written, which may
   * overwrite an example of `o`, or under an unused key. With dense keys in
   * `o` the two agree, and then every statement below holds as written.
   */
  method EqualExamples(s: SpecSchema, o: SpecSchema, variant: Variant) returns (b: bool, s': SpecSchema, o': SpecSchema)
    ensures b ==> s' == s && o' == o
    ensures Summaries(s) != Summaries(o) ==> !b
    ensures (exists t :: ValuesDiffer(s, o, t)) ==> !b
    ensures AgreeingExamples(s, o) ==> b
    ensures Summaries(s') == Summaries(s) && Summaries(o') <= Summaries(s) + Summaries(o)
    ensures forall t :: t in Summaries(s) && t !in Summaries(o) ==> MarkedIn(s', t, Removed)
    ensures Full(o, variant) ==> Summaries(o') == Summaries(s) + Summaries(o) && forall t :: MarkedFor(s, o, s', o', t)
    ensures s'.(examples := s.examples) == s && o'.(examples := o.examples) == o
  {
    b, s', o' := true, s, o;
    var names := Summaries(s) + Summaries(o);
    var todo := names;
    while todo != {}
      invariant ExamplesInv(s, o, s', o', b, variant, names, todo)
      decreases todo
    {
      var k :| k in todo;
      var sk, sHas := FindExample(s', k);
      var ok, oHas := FindExample(o', k);
      if !sHas && oHas {
        AddedStep(s, o, s', o', b, variant, names, todo, k, ok);
        o' := MarkExample(o', ok, Added);
        b := false;
      } else if sHas && !oHas {
        RemovedStep(s, o, s', o', b, variant, names, todo, k, sk);
        var se := ExamplesOf(s')[sk].(xDiff := Removed);
        s' := MarkExample(s', sk, Removed);
        o' := o'.(examples := Some(FileRemoved(ExamplesOf(o'), se, variant)));
        b := false;
      } else if sHas && oHas && ExamplesOf(s')[sk].value != ExamplesOf(o')[ok].value {
        ChangedStep(s, o, s', o', b, variant, names, todo, k, sk, ok);
        o' := MarkExample(o', ok, Changed);
        b := false;
      } else if sHas && oHas {
        UnchangedStep(s, o, s', o', b, variant, names, todo, k, sk, ok);
      } else {
        VanishedStep(s, o, s', o', b, variant, names, todo, k);
      }
      todo := todo - {k};
    }
    EqualExamplesDone(s, o, s', o', b, variant, names);
  }

  lemma EqualExamplesDone(s: SpecSchema, o: SpecSchema, s': SpecSchema, o': SpecSchema, b: bool, variant: Variant, names: set<string>)
    requires ExamplesInv(s, o, s', o', b, variant, names, {})
    ensures Summaries(s) != Summaries(o) ==> !b
    ensures (exists t :: ValuesDiffer(s, o, t)) ==> !b
    ensures forall t :: t in Summaries(s) && t !in Summaries(o) ==> MarkedIn(s', t, Removed)
    ensures Full(o, variant) ==> Summaries(o') == Summaries(s) + Summaries(o) && forall t :: MarkedFor(s, o, s', o', t)
  {
    if Summaries(s) != Summaries(o) {
      var t :| t in names && (t in Summaries(s) <==> t !in Summaries(o));
    }
    if Full(o, variant) {
      forall t ensures MarkedFor(s, o, s', o', t) {
        if t in names {
          assert t !in {};
        }
      }
    }
  }

  /**
   * `EqualNomal`: false when description, required flag or example differ;
   * only otherwise are the examples compared (and marked).
   */
  method EqualNomal(s: SpecSchema, o: SpecSchema, variant: Variant) returns (b: bool, s': SpecSchema, o': SpecSchema)
    ensures s.description != o.description || s.required != o.required || s.example != o.example ==>
      !b && s' == s && o' == o
    ensures b ==> s' == s && o' == o && s.description == o.description && Summaries(s) == Summaries(o)
    ensures s.description == o.description && s.required == o.required && s.example == o.example && AgreeingExamples(s, o) ==> b
  {
    if s.description != o.description || s.required != o.required || s.example != o.example {
      return false, s, o;
    }
    b, s', o' := EqualExamples(s, o, variant);
  }

  // ----- parameters -----

  /** The four locations, in the order of `HttpParameter`. */
  const Locations: seq<string> := ["query", "path", "cookie", "header"]

  /** `HTTPParameters`: four buckets, each possibly nil. */
  class HTTPParameters {
    var query: Option<seq<SpecSchema>>
    var path: Option<seq<SpecSchema>>
    var cookie: Option<seq<SpecSchema>>
    var header: Option<seq<SpecSchema>>

    constructor (query: Option<seq<SpecSchema>>, path: Option<seq<SpecSchema>>, cookie: Option<seq<SpecSchema>>, header: Option<seq<SpecSchema>>)
      ensures this.query == query && this.path == path && this.cookie == cookie && this.header == header
    {
      this.query, this.path, this.cookie, this.header := query, path, cookie, header;
    }

    /** The bucket for a location; nil for any other name. */
    function Bucket(loc: string): Option<seq<SpecSchema>>
      reads this
    {
      match loc
      case "query" => query
      case "path" => path
      case "cookie" => cookie
      case "header" => header
      case _ => None
    }

    predicate Filled()
      reads this
    {
      query.Some? && path.Some? && cookie.Some? && header.Some?
    }

    /** `Fill`: every nil bucket becomes empty; the others are untouched. */
    method Fill()
      modifies this
      ensures Filled()
      ensures forall loc :: old(Bucket(loc)).Some? ==> Bucket(loc) == old(Bucket(loc))
      ensures forall loc :: loc in Locations && old(Bucket(loc)).None? ==> Bucket(loc) == Some([])
    {
      if query.None? { query := Some([]); }
      if path.None? { path := Some([]); }
      if cookie.None? { cookie := Some([]); }
      if header.None? { header := Some([]); }
    }

    /** `Add(in, v)`: appends to the bucket of a known location; any other location is ignored. */
    method Add(loc: string, v: SpecSchema)
      modifies this
      ensures loc in Locations ==> Bucket(loc) == Some(old(Bucket(loc)).GetOr([]) + [v])
      ensures forall l :: l != loc ==> Bucket(l) == old(Bucket(l))
      ensures loc !in Locations ==> unchanged(this)
    {
      match loc
      case "query" => query := Some(query.GetOr([]) + [v]);
      case "path" => path := Some(path.GetOr([]) + [v]);
      case "cookie" => cookie := Some(cookie.GetOr([]) + [v]);
      case "header" => header := Some(header.GetOr([]) + [v]);
      case _ =>
    }

    /** `Map`: exactly the non-nil buckets, under their location names. */
    function Map(): (m: map<string, seq<SpecSchema>>)
      reads this
      ensures forall loc :: loc in m <==> loc in Locations && Bucket(loc).Some?
      ensures forall loc :: loc in m ==> m[loc] == Bucket(loc).value
    {
      var m: map<string, seq<SpecSchema>> := map[];
      var m := if query.Some? then m["query" := query.value] else m;
      var m := if path.Some? then m["path" := path.value] else m;
      var m := if header.Some? then m["header" := header.value] else m;
      if cookie.Some? then m["cookie" := cookie.value] else m
    }
  }

  // ----- request node -----

  /**
   * `HTTPRequestNode`: per-location lists of excepted global-parameter ids
   * (a nil map is `None`), the parameters and the body map.
   */
  class HTTPRequestNode {
    var globalExcepts: Option<map<string, seq<Int64>>>
    var parameters: HTTPParameters
    var content: Option<map<string, SpecSchema>>

    constructor (globalExcepts: Option<map<string, seq<Int64>>>, parameters: HTTPParameters, content: Option<map<string, SpecSchema>>)
      ensures this.globalExcepts == globalExcepts && this.parameters == parameters && this.content == content
    {
      this.globalExcepts, this.parameters, this.content := globalExcepts, parameters, content;
    }

    /** The list for a location; a nil map or a missing key reads as empty. */
    function Excepts(loc: string): seq<Int64>
      reads this
    {
      if globalExcepts.Some? && loc in globalExcepts.value then globalExcepts.value[loc] else []
    }

    /**
     * `AddGlobalExcept`: appends the id, duplicates allowed, for the four
     * locations; others are ignored. Writing to a nil map panics in the
     * source, hence the precondition.
     */
    method AddGlobalExcept(loc: string, id: Int64)
      requires loc in Locations ==> globalExcepts.Some?
      modifies this
      ensures loc in Locations ==> globalExcepts == Some(old(globalExcepts).value[loc := old(Excepts(loc)) + [id]])
      ensures loc !in Locations ==> unchanged(this)
      ensures parameters == old(parameters) && content == old(content)
    {
      if loc in Locations {
        globalExcepts := Some(globalExcepts.value[loc := Excepts(loc) + [id]]);
      }
    }

    /** `RemoveGlobalExcept`/`removeId`: drops the first occurrence of the id from the named list only. */
    method RemoveGlobalExcept(loc: string, id: Int64)
      requires loc in Locations ==> globalExcepts.Some?
      modifies this
      ensures loc in Locations ==> globalExcepts == Some(old(globalExcepts).value[loc := Lists.RemoveFirst(old(Excepts(loc)), id)])
      ensures loc !in Locations ==> unchanged(this)
      ensures forall l :: l != loc ==> Excepts(l) == old(Excepts(l))
      ensures parameters == old(parameters) && content == old(content)
    {
      if loc in Locations {
        var rest := Lists.DeleteFirst(Excepts(loc), id);
        globalExcepts := Some(globalExcepts.value[loc := rest]);
      }
    }

    /**
     * `tryRemoveGlobalExcept`: true exactly when the id is listed; the list
     * then loses its first occurrence (for one of the four locations). A nil
     * map lists nothing, so the answer is then false and nothing changes.
     */
    method TryRemoveGlobalExcept(loc: string, id: Int64) returns (r: bool)
      modifies this
      ensures r <==> id in old(Excepts(loc))
      ensures old(globalExcepts).None? ==> !r && unchanged(this)
      ensures r && loc in Locations ==> Excepts(loc) == Lists.RemoveFirst(old(Excepts(loc)), id)
      ensures !r || loc !in Locations ==> unchanged(this)
      ensures forall l :: l != loc ==> Excepts(l) == old(Excepts(l))
    {
      var ids := Excepts(loc);
      for i := 0 to |ids|
        invariant id !in ids[..i]
      {
        if ids[i] == id {
          assert globalExcepts.Some?;
          RemoveGlobalExcept(loc, id);
          return true;
        }
        assert ids[..i + 1] == ids[..i] + [ids[i]];
      }
      assert ids[..|ids|] == ids;
      return false;
    }
  }

  // ----- responses -----

  /** `HTTPResponseDefine`: a response, possibly a reference to a shared one. */
  datatype ResponseDefine = ResponseDefine(
    id: Int64,
    name: string,
    typ: string,
    parentId: nat,
    description: string,
    content: Option<map<string, SpecSchema>>,
    header: Option<seq<SpecSchema>>,
    items: seq<ResponseDefine>,
    ref: Option<string>,
    xDiff: Marker)

  /** `HTTPResponse`: a status code with its own marker, and the embedded define. */
  datatype Response = Response(code: int, xDiff: Marker, define: ResponseDefine)

  /** `HTTPResponseDefine.Ref()`: the define carries a `$ref`. */
  predicate IsRefDefine(h: ResponseDefine)
  {
    h.ref.Some?
  }

  /** `IsRefId(id)`: false for nil or non-ref defines; otherwise the `$ref` text after its last "/" is `id`. */
  function IsRefId(h: Option<ResponseDefine>, id: string): (r: bool)
    ensures r <==> h.Some? && IsRefDefine(h.value) && LastSegmentIs(h.value.ref.value, id)
  {
    h.Some? && IsRefID(Some(EmptySchema().(ref := h.value.ref)), id)
  }

  /** `HTTPResponseDefine.DereferenceResponses(sub)`: a define that references `sub` becomes `sub`. */
  function DereferencedDefine(h: ResponseDefine, sub: ResponseDefine): (r: ResponseDefine)
    ensures IsRefId(Some(h), FormatInt(sub.id)) ==> r == sub
    ensures !IsRefId(Some(h), FormatInt(sub.id)) ==> r == h
  {
    if IsRefId(Some(h), FormatInt(sub.id)) then sub else h
  }

  /** Unless `sub` refers to its own id, nothing refers to `sub` afterwards. */
  lemma DereferencedDefineNoLongerRefers(h: ResponseDefine, sub: ResponseDefine)
    requires !IsRefId(Some(sub), FormatInt(sub.id))
    ensures !IsRefId(Some(DereferencedDefine(h, sub)), FormatInt(sub.id))
  {
  }

  predicate UniqueCodes(xs: seq<Response>)
  {
    forall i, j :: 0 <= i < j < |xs| ==> xs[i].code != xs[j].code
  }

  /** `HTTPResponses.Map`: code to define, over exactly the codes of the list. */
  function ResponsesMap(xs: seq<Response>): (m: map<int, ResponseDefine>)
    ensures forall i :: 0 <= i < |xs| ==> xs[i].code in m
    ensures forall c :: c in m ==> exists i :: 0 <= i < |xs| && xs[i].code == c
  {
    if |xs| == 0 then map[]
    else
      var init := xs[..|xs| - 1];
      var last := xs[|xs| - 1];
      assert forall i :: 0 <= i < |init| ==> init[i] == xs[i];
      ResponsesMap(init)[last.code := last.define]
  }

  /** For a repeated code the last entry wins. */
  lemma {:induction false} ResponsesMapLastWins(xs: seq<Response>, i: nat)
    requires i < |xs| && forall j :: i < j < |xs| ==> xs[j].code != xs[i].code
    ensures ResponsesMap(xs)[xs[i].code] == xs[i].define
  {
    if i < |xs| - 1 {
      var init := xs[..|xs| - 1];
      assert init[i] == xs[i];
      ResponsesMapLastWins(init, i);
    }
  }

  /** Entry `i` is the first one with the code. */
  predicate FirstWithCode(xs: seq<Response>, code: int, i: nat)
    requires i < |xs|
  {
    xs[i].code == code && forall j :: 0 <= j < i ==> xs[j].code != code
  }

  /** `HTTPResponses.Add` on the list: replace the first entry with that code, or append. */
  function AddResponse(xs: seq<Response>, code: int, hrd: ResponseDefine): (r: seq<Response>)
    ensures exists i :: 0 <= i < |r| && r[i] == Response(code, hrd.xDiff, hrd)
    ensures |r| == if exists i :: 0 <= i < |xs| && xs[i].code == code then |xs| else |xs| + 1
    ensures forall i :: 0 <= i < |xs| && xs[i].code != code ==> r[i] == xs[i]
    ensures UniqueCodes(xs) ==> UniqueCodes(r)
    ensures forall i :: 0 <= i < |xs| ==>
      r[i] == if FirstWithCode(xs, code, i) then Response(code, hrd.xDiff, hrd) else xs[i]
    ensures (forall i :: 0 <= i < |xs| ==> xs[i].code != code) ==> r == xs + [Response(code, hrd.xDiff, hrd)]
  {
    match Lists.FindFirst(xs, (v: Response) => v.code == code)
    case Some(i) =>
      var r := xs[i := Response(code, hrd.xDiff, hrd)];
      assert xs[i].code == code && r[i] == Response(code, hrd.xDiff, hrd);
      assert forall j :: 0 <= j < |xs| ==> r[j].code == xs[j].code;
      r
    case None =>
      var r := xs + [Response(code, hrd.xDiff, hrd)];
      assert r[|xs|] == Response(code, hrd.xDiff, hrd);
      r
  }

  /** With distinct codes, the added define is what `Map` gives for its code. */
  lemma AddResponseMap(xs: seq<Response>, code: int, hrd: ResponseDefine)
    requires UniqueCodes(xs)
    ensures code in ResponsesMap(AddResponse(xs, code, hrd)) && ResponsesMap(AddResponse(xs, code, hrd))[code] == hrd
  {
    var r := AddResponse(xs, code, hrd);
    var i :| 0 <= i < |r| && r[i] == Response(code, hrd.xDiff, hrd);
    assert UniqueCodes(r);
    ResponsesMapLastWins(r, i);
  }

  /** `HTTPResponses`: the list `Add` appends to. */
  class HTTPResponses {
    var list: seq<Response>

    constructor (list: seq<Response>)
      ensures this.list == list
    {
      this.list := list;
    }

    /** `Add(code, hrd)`: the define and marker of the first entry with the code are replaced, or a new entry is appended. */
    method Add(code: int, hrd: ResponseDefine)
      modifies this
      ensures list == AddResponse(old(list), code, hrd)
    {
      for i := 0 to |list|
        invariant list == old(list)
        invariant forall j :: 0 <= j < i ==> list[j].code != code
      {
        if list[i].code == code {
          assert Lists.FindFirst(list, (v: Response) => v.code == code) == Some(i);
          list := list[i := Response(code, hrd.xDiff, hrd)];
          return;
        }
      }
      list := list + [Response(code, hrd.xDiff, hrd)];
    }
  }

  /** The responses whose define does not reference the id, in order. */
  function WithoutRefsTo(xs: seq<Response>, id: string): (r: seq<Response>)
    ensures |r| <= |xs|
  {
    if |xs| == 0 then []
    else if IsRefId(Some(xs[0].define), id) then WithoutRefsTo(xs[1..], id)
    else [xs[0]] + WithoutRefsTo(xs[1..], id)
  }

  /** Nothing kept references the id, everything kept was there, and every other entry is kept. */
  lemma {:induction false} WithoutRefsToKeeps(xs: seq<Response>, id: string)
    ensures forall k :: 0 <= k < |WithoutRefsTo(xs, id)| ==> !IsRefId(Some(WithoutRefsTo(xs, id)[k].define), id)
    ensures forall k :: 0 <= k < |WithoutRefsTo(xs, id)| ==> WithoutRefsTo(xs, id)[k] in xs
    ensures forall k :: 0 <= k < |xs| && !IsRefId(Some(xs[k].define), id) ==> xs[k] in WithoutRefsTo(xs, id)
  {
    if |xs| > 0 {
      WithoutRefsToKeeps(xs[1..], id);
      assert forall k :: 1 <= k < |xs| ==> xs[k] == xs[1..][k - 1];
    }
  }

  lemma WithoutRefsToAt(xs: seq<Response>, i: nat, id: string)
    requires i < |xs|
    ensures WithoutRefsTo(xs[i..], id) ==
      if IsRefId(Some(xs[i].define), id) then WithoutRefsTo(xs[i + 1..], id) else [xs[i]] + WithoutRefsTo(xs[i + 1..], id)
  {
    assert xs[i..][0] == xs[i] && xs[i..][1..] == xs[i + 1..];
  }

  /** Splicing out a referencing entry at `i` keeps what the loop has still to produce. */
  lemma SpliceRefStep(xs: seq<Response>, i: nat, id: string)
    requires i < |xs| && IsRefId(Some(xs[i].define), id)
    ensures (xs[..i] + xs[i + 1..])[..i] + WithoutRefsTo((xs[..i] + xs[i + 1..])[i..], id) == xs[..i] + WithoutRefsTo(xs[i..], id)
  {
    WithoutRefsToAt(xs, i, id);
    var next := xs[..i] + xs[i + 1..];
    assert next[..i] == xs[..i] && next[i..] == xs[i + 1..];
  }

  /** Stepping past a kept entry at `i` keeps what the loop has still to produce. */
  lemma KeepStep(xs: seq<Response>, i: nat, id: string)
    requires i < |xs| && !IsRefId(Some(xs[i].define), id)
    ensures xs[..i + 1] + WithoutRefsTo(xs[i + 1..], id) == xs[..i] + WithoutRefsTo(xs[i..], id)
  {
    WithoutRefsToAt(xs, i, id);
    assert xs[..i + 1] == xs[..i] + [xs[i]];
  }

  /** The index loop of `RemoveResponse`: splice out the current entry, or step past it. */
  method RemoveRefsTo(list: seq<Response>, id: string) returns (xs: seq<Response>)
    ensures xs == WithoutRefsTo(list, id)
  {
    xs := list;
    var i := 0;
    while i < |xs|
      invariant 0 <= i <= |xs|
      invariant xs[..i] + WithoutRefsTo(xs[i..], id) == WithoutRefsTo(list, id)
      decreases |xs| - i
    {
      if IsRefId(Some(xs[i].define), id) {
        SpliceRefStep(xs, i, id);
        xs := xs[..i] + xs[i + 1..];
        continue;
      }
      KeepStep(xs, i, id);
      i := i + 1;
    }
    assert xs[..i] == xs;
  }

  /** `HTTPResponsesNode`: the response list of an operation. */
  class HTTPResponsesNode {
    var list: seq<Response>

    constructor (list: seq<Response>)
      ensures this.list == list
    {
      this.list := list;
    }

    /**
     * `RemoveResponse(sub)`: every entry whose `$ref` ends in `sub`'s id is
     * spliced out; the others keep their order.
     */
    method RemoveResponse(sub: ResponseDefine)
      modifies this
      ensures list == WithoutRefsTo(old(list), FormatInt(sub.id))
    {
      list := RemoveRefsTo(list, FormatInt(sub.id));
    }

    /** `DereferenceResponses(sub)`: every define that references `sub` becomes `sub`; codes and markers stay. */
    method DereferenceResponses(sub: ResponseDefine)
      modifies this
      ensures |list| == |old(list)|
      ensures forall i :: 0 <= i < |list| ==> list[i] == old(list)[i].(define := DereferencedDefine(old(list)[i].define, sub))
    {
      for i := 0 to |list|
        invariant |list| == |old(list)|
        invariant forall j :: 0 <= j < i ==> list[j] == old(list)[j].(define := DereferencedDefine(old(list)[j].define, sub))
        invariant forall j :: i <= j < |list| ==> list[j] == old(list)[j]
      {
        list := list[i := list[i].(define := DereferencedDefine(list[i].define, sub))];
      }
    }
  }

  /** `HTTPResponseDefines.Lookup`: a copy of the first define with that name, or nil. */
  function LookupDefine(xs: seq<ResponseDefine>, name: string): (r: Option<ResponseDefine>)
    ensures r.None? ==> forall i :: 0 <= i < |xs| ==> xs[i].name != name
    ensures r.Some? ==> exists i :: 0 <= i < |xs| && xs[i] == r.value && r.value.name == name && forall j :: 0 <= j < i ==> xs[j].name != name
  {
    match Lists.FindFirst(xs, (v: ResponseDefine) => v.name == name)
    case None => None
    case Some(i) => Some(xs[i])
  }

  /** `HTTPResponseDefines.LookupID`: a copy of the first define with that id, or nil. */
  function LookupDefineID(xs: seq<ResponseDefine>, id: Int64): (r: Option<ResponseDefine>)
    ensures r.None? ==> forall i :: 0 <= i < |xs| ==> xs[i].id != id
    ensures r.Some? ==> exists i :: 0 <= i < |xs| && xs[i] == r.value && r.value.id == id && forall j :: 0 <= j < i ==> xs[j].id != id
  {
    match Lists.FindFirst(xs, (v: ResponseDefine) => v.id == id)
    case None => None
    case Some(i) => Some(xs[i])
  }

  /** `HTTPResponseDefine.SetXDiff`: headers, bodies and the define's own marker. */
  function DefineSetXDiff(h: ResponseDefine, x: Marker): (r: ResponseDefine)
    ensures r.xDiff == x
    ensures r.header == SchemasSetXDiff(h.header, x) && r.content == BodySetXDiff(h.content, x)
    ensures r.(header := h.header, content := h.content, xDiff := h.xDiff) == h
  {
    h.(header := SchemasSetXDiff(h.header, x), content := BodySetXDiff(h.content, x), xDiff := x)
  }

  /**
   * `HTTPResponse.SetXDiff`: marks headers and bodies (twice, which is the
   * same as once) and the embedded define's marker; the response's own
   * marker, which shadows the define's, is left alone.
   */
  function ResponseSetXDiff(r: Response, x: Marker): (r': Response)
    ensures r'.code == r.code && r'.xDiff == r.xDiff
    ensures r'.define == DefineSetXDiff(r.define, x)
  {
    var d := r.define;
    var once := d.(header := SchemasSetXDiff(d.header, x), content := BodySetXDiff(d.content, x));
    SchemasSetXDiffTwice(d.header, x);
    BodySetXDiffTwice(d.content, x);
    r.(define := DefineSetXDiff(once, x))
  }

  /**
   * `HTTPResponseDefines.SetXDiff` as written: the loop variable is a copy of
   * each define, so headers and bodies (shared through pointers) are marked
   * but every define's own marker is lost.
   */
  function DefinesSetXDiffAsWritten(xs: seq<ResponseDefine>, x: Marker): (r: seq<ResponseDefine>)
    ensures |r| == |xs|
    ensures forall i :: 0 <= i < |xs| ==> r[i].xDiff == xs[i].xDiff && r[i] == DefineSetXDiff(xs[i], x).(xDiff := xs[i].xDiff)
  {
    seq(|xs|, i requires 0 <= i < |xs| => DefineSetXDiff(xs[i], x).(xDiff := xs[i].xDiff))
  }

  /** `HTTPResponseDefines.SetXDiff` as intended: every define is marked like `HTTPResponseDefine.SetXDiff`. */
  function DefinesSetXDiff(xs: seq<ResponseDefine>, x: Marker): (r: seq<ResponseDefine>)
    ensures |r| == |xs|
    ensures forall i :: 0 <= i < |xs| ==> r[i] == DefineSetXDiff(xs[i], x) && r[i].xDiff == x
  {
    seq(|xs|, i requires 0 <= i < |xs| => DefineSetXDiff(xs[i], x))
  }

  /** An unmarked define stays unmarked under the loop as written, while the intended loop marks it. */
  lemma DefinesSetXDiffLosesMarker(d: ResponseDefine)
    requires d.xDiff == Unset
    ensures DefinesSetXDiffAsWritten([d], Added)[0].xDiff == Unset
    ensures DefinesSetXDiff([d], Added)[0].xDiff == Added
  {
  }
}
