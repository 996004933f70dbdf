/**
 * `DefinitionIdToName` (backend/models/definition_schemas.go): in a stored
 * document, every model reference `#/definitions/schemas/<id>` is rewritten
 * to `#/definitions/schemas/<name>` by repeatedly finding the leftmost
 * reference (the regular expression `#/definitions/schemas/\d+`), parsing its
 * digits with `strconv.Atoi`, and replacing every occurrence of the matched
 * text with `strings.Replace(…, -1)`.
 *
 * The Go loop has no bound; the model runs at most `fuel` rounds and answers
 * `None` when the fuel runs out with a reference still present.
 */
module DefinitionNames {
  import opened Wrappers
  import opened Text

  const SchemaRefPrefix: string := "#/definitions/schemas/"

  /** A match of `#/definitions/schemas/\d+` starts at `i`. */
  predicate RefAt(s: string, i: nat)
  {
    OccursAt(s, SchemaRefPrefix, i) && i + |SchemaRefPrefix| < |s| && IsDigit(s[i + |SchemaRefPrefix|])
  }

  /**
   * `strings.Replace(s, from, to, -1)` for a non-empty `from`, scanning
   * from position `i`: every leftmost, non-overlapping occurrence is replaced.
   */
  function ReplaceFrom(s: string, from: string, to: string, i: nat): string
    requires |from| > 0 && i <= |s|
    decreases |s| - i
  {
    if i + |from| > |s| then s[i..]
    else if OccursAt(s, from, i) then to + ReplaceFrom(s, from, to, i + |from|)
    else [s[i]] + ReplaceFrom(s, from, to, i + 1)
  }

  /** `strings.Replace(s, from, to, -1)`. */
  function ReplaceAll(s: string, from: string, to: string): string
    requires |from| > 0
  {
    ReplaceFrom(s, from, to, 0)
  }

  /** Text with no occurrence from position `i` on comes back unchanged. */
  lemma {:induction false} ReplaceFromAbsent(s: string, from: string, to: string, i: nat)
    requires |from| > 0 && i <= |s|
    requires forall k: nat :: i <= k ==> !OccursAt(s, from, k)
    ensures ReplaceFrom(s, from, to, i) == s[i..]
    decreases |s| - i
  {
    if i + |from| <= |s| {
      ReplaceFromAbsent(s, from, to, i + 1);
      assert s[i..] == [s[i]] + s[i + 1..];
    }
  }

  /** The text up to the next occurrence is kept, and the occurrence becomes `to`. */
  lemma {:induction false} ReplaceFromSkip(s: string, from: string, to: string, i: nat, p: nat)
    requires |from| > 0 && i <= p && OccursAt(s, from, p)
    requires forall k: nat :: i <= k < p ==> !OccursAt(s, from, k)
    ensures ReplaceFrom(s, from, to, i) == s[i..p] + to + ReplaceFrom(s, from, to, p + |from|)
    decreases p - i
  {
    if i < p {
      ReplaceFromSkip(s, from, to, i + 1, p);
      assert s[i..p] == [s[i]] + s[i + 1..p];
    }
  }

  /** The leftmost match at or after `i` (`regexp.FindString`'s start). */
  function FindRef(s: string, i: nat): (r: Option<nat>)
    requires i <= |s|
    ensures r.Some? ==> i <= r.value < |s| && RefAt(s, r.value) && forall k: nat :: i <= k < r.value ==> !RefAt(s, k)
    ensures r.None? ==> forall k: nat :: i <= k ==> !RefAt(s, k)
    decreases |s| - i
  {
    if i == |s| then None
    else if RefAt(s, i) then Some(i)
    else FindRef(s, i + 1)
  }

  /** The length of the run of digits starting at `i`; `\d+` is greedy. */
  function DigitRun(s: string, i: nat): (n: nat)
    requires i <= |s|
    ensures i + n <= |s| && AllDigits(s[i..i + n])
    ensures i + n == |s| || !IsDigit(s[i + n])
    decreases |s| - i
  {
    if i < |s| && IsDigit(s[i]) then
      var n := DigitRun(s, i + 1);
      assert s[i..i + 1 + n] == [s[i]] + s[i + 1..i + 1 + n];
      1 + n
    else 0
  }

  /** The digits of the reference at `p`; `\d+` applied to the match finds exactly these, as the prefix holds no digit. */
  function RefDigits(s: string, p: nat): (d: string)
    requires RefAt(s, p)
    ensures |d| > 0 && AllDigits(d)
  {
    s[p + |SchemaRefPrefix|..p + |SchemaRefPrefix| + DigitRun(s, p + |SchemaRefPrefix|)]
  }

  /** The whole matched text at `p`. */
  function RefMatch(s: string, p: nat): (m: string)
    requires RefAt(s, p)
    ensures m == SchemaRefPrefix + RefDigits(s, p)
    ensures OccursAt(s, m, p)
  {
    s[p..p + |SchemaRefPrefix| + DigitRun(s, p + |SchemaRefPrefix|)]
  }

  /**
   * `strconv.Atoi` on the reference's digits: the id, or `None` for the
   * range error of an id that does not fit a 64-bit `int`.
   */
  function RefId(s: string, p: nat): Option<nat>
    requires RefAt(s, p)
  {
    var v := DigitsValue(RefDigits(s, p));
    if v <= MaxInt64 then Some(v) else None
  }

  /** `RefId` is what `strconv.Atoi` answers on the digits. */
  lemma RefIdIsAtoi(s: string, p: nat)
    requires RefAt(s, p)
    ensures ParseInt(RefDigits(s, p)) == if RefId(s, p).Some? then Parsed(RefId(s, p).value) else RangeError(MaxInt64)
  {
    var d := RefDigits(s, p);
    assert IsDigit(d[0]);
  }

  /** `idToNameMap[id]`: a missing id reads as the empty name. */
  function NameOf(names: map<nat, string>, id: nat): string
  {
    if id in names then names[id] else ""
  }

  /**
   * One round of the loop on a text holding a reference: when the digits
   * parse, every occurrence of the matched text becomes the prefix followed
   * by the name; when `Atoi` fails (the id does not fit an `int`) the text
   * stays as it is.
   */
  function Rewrite(s: string, names: map<nat, string>): string
    requires FindRef(s, 0).Some?
  {
    var p := FindRef(s, 0).value;
    match RefId(s, p)
    case Some(n) => ReplaceAll(s, RefMatch(s, p), SchemaRefPrefix + NameOf(names, n))
    case None => s
  }

  /**
   * The loop of `DefinitionIdToName`, given what one round does: it returns
   * as soon as no reference remains, and gives `None` once `fuel` rounds
   * are spent with a reference still present.
   */
  function Loop(content: string, round: string -> string, fuel: nat): (r: Option<string>)
    ensures r.Some? ==> FindRef(r.value, 0).None?
    decreases fuel
  {
    if FindRef(content, 0).None? then Some(content)
    else if fuel == 0 then None
    else Loop(round(content), round, fuel - 1)
  }

  /** The `for` loop itself, over any round. */
  method RunLoop(content: string, round: string -> string, fuel: nat) returns (r: Option<string>)
    ensures r == Loop(content, round, fuel)
  {
    var c := content;
    var n := fuel;
    while true
      invariant Loop(c, round, n) == Loop(content, round, fuel)
      decreases n
    {
      var found := FindRef(c, 0);
      if found.None? {
        return Some(c);
      }
      if n == 0 {
        return None;
      }
      c := round(c);
      n := n - 1;
    }
  }

  /** The round as written; the loop applies it only to a text that holds a reference. */
  function RoundOf(names: map<nat, string>): string -> string
  {
    s => if FindRef(s, 0).Some? then Rewrite(s, names) else s
  }

  /** The result of `DefinitionIdToName` within `fuel` rounds, or `None`. */
  function IdToName(content: string, names: map<nat, string>, fuel: nat): (r: Option<string>)
    ensures r.Some? ==> FindRef(r.value, 0).None?
  {
    Loop(content, RoundOf(names), fuel)
  }

  /** `DefinitionIdToName`, cut after `fuel` rounds. */
  method DefinitionIdToName(content: string, names: map<nat, string>, fuel: nat) returns (r: Option<string>)
    ensures r == IdToName(content, names, fuel)
  {
    r := RunLoop(content, RoundOf(names), fuel);
  }

  /** A round spent: a text holding a reference goes on as its rewrite, with one round less. */
  lemma IdToNameStep(c: string, names: map<nat, string>, n: nat)
    requires FindRef(c, 0).Some? && n > 0
    ensures IdToName(c, names, n) == IdToName(Rewrite(c, names), names, n - 1)
  {
  }

  /** A text without a reference comes back unchanged, with no round spent. */
  lemma NoRefUnchanged(content: string, names: map<nat, string>)
    requires forall k: nat :: !RefAt(content, k)
    ensures IdToName(content, names, 0) == Some(content)
  {
  }

  /** A reference always begins with the prefix's `#`. */
  lemma RefStartsWithHash(s: string, k: nat)
    requires RefAt(s, k)
    ensures s[k] == '#'
  {
    assert s[k..k + |SchemaRefPrefix|][0] == s[k];
  }

  /** The matched text cannot occur before the leftmost reference: each occurrence would be a reference itself. */
  lemma NoEarlierMatch(s: string, p: nat)
    requires FindRef(s, 0) == Some(p)
    ensures forall k: nat :: k < p ==> !OccursAt(s, RefMatch(s, p), k)
  {
    var m := RefMatch(s, p);
    var n := |SchemaRefPrefix|;
    forall k: nat | k < p && OccursAt(s, m, k)
      ensures false
    {
      assert s[k..k + n] == m[..n];
      assert s[k + n] == m[n];
      assert RefAt(s, k);
    }
  }

  /**
   * A round rewrites the leftmost reference into the prefix and the name of
   * its id (the empty name for an unknown id), keeps every character before
   * it, and goes on replacing the same text in the rest; an id too large
   * for `Atoi` leaves the text unchanged.
   */
  lemma RewriteFirst(s: string, names: map<nat, string>)
    requires FindRef(s, 0).Some?
    ensures var p := FindRef(s, 0).value; var m := RefMatch(s, p);
      match RefId(s, p)
      case Some(n) => var t := SchemaRefPrefix + NameOf(names, n); Rewrite(s, names) == s[..p] + t + ReplaceFrom(s, m, t, p + |m|)
      case None => Rewrite(s, names) == s
  {
    var p := FindRef(s, 0).value;
    var m := RefMatch(s, p);
    NoEarlierMatch(s, p);
    if RefId(s, p).Some? {
      var n := RefId(s, p).value;
      ReplaceFromSkip(s, m, SchemaRefPrefix + NameOf(names, n), 0, p);
      assert s[0..p] == s[..p];
    }
  }

  /** A reference whose id overflows `int` is never rewritten, so the Go loop spins for ever: no amount of fuel finishes it. */
  lemma {:induction false} OverflowSpins(content: string, names: map<nat, string>, fuel: nat)
    requires FindRef(content, 0).Some?
    requires RefId(content, FindRef(content, 0).value).None?
    ensures IdToName(content, names, fuel) == None
    decreases fuel
  {
    if fuel > 0 {
      OverflowSpins(content, names, fuel - 1);
    }
  }

  // ---------------------------------------------------------------------
  // The rewrite as evidently intended: only whole references are replaced
  // (an occurrence followed by a further digit belongs to a longer id), and
  // an id `Atoi` cannot read is treated as unknown.
  // ---------------------------------------------------------------------

  /** `m` occurs at `i` and is not followed by a digit. */
  predicate WholeAt(s: string, m: string, i: nat)
  {
    OccursAt(s, m, i) && (i + |m| == |s| || !IsDigit(s[i + |m|]))
  }

  /** Replaces, left to right from position `i`, every whole occurrence of `m`. */
  function ReplaceWholeFrom(s: string, m: string, t: string, i: nat): string
    requires |m| > 0 && i <= |s|
    decreases |s| - i
  {
    if i + |m| > |s| then s[i..]
    else if WholeAt(s, m, i) then t + ReplaceWholeFrom(s, m, t, i + |m|)
    else [s[i]] + ReplaceWholeFrom(s, m, t, i + 1)
  }

  /** The replaced text begins with the scanned character or with the replacement. */
  lemma ReplaceWholeHead(s: string, m: string, t: string, i: nat)
    requires |m| > 0 && i < |s| && |t| > 0
    ensures var r := ReplaceWholeFrom(s, m, t, i); |r| > 0 && (r[0] == s[i] || r[0] == t[0])
  {
  }

  /** One corrected round: whole occurrences of the leftmost reference become the name. */
  function RewriteWhole(s: string, names: map<nat, string>): string
    requires FindRef(s, 0).Some?
  {
    var p := FindRef(s, 0).value;
    var id := match RefId(s, p) case Some(n) => NameOf(names, n) case None => "";
    ReplaceWholeFrom(s, RefMatch(s, p), SchemaRefPrefix + id, 0)
  }

  /** The corrected round; the loop applies it only to a text that holds a reference. */
  function RoundWholeOf(names: map<nat, string>): string -> string
  {
    s => if FindRef(s, 0).Some? then RewriteWhole(s, names) else s
  }

  /** The corrected loop: the same loop over rounds of `RewriteWhole`. */
  function IdToNameWhole(content: string, names: map<nat, string>, fuel: nat): (r: Option<string>)
    ensures r.Some? ==> FindRef(r.value, 0).None?
  {
    Loop(content, RoundWholeOf(names), fuel)
  }

  /** A text that holds no whole occurrence of `m` is left alone, whatever longer ids share its digits. */
  lemma {:induction false} WholeKeepsOtherIds(s: string, m: string, t: string, i: nat)
    requires |m| > 0 && i <= |s|
    requires forall k: nat :: i <= k ==> !WholeAt(s, m, k)
    ensures ReplaceWholeFrom(s, m, t, i) == s[i..]
    decreases |s| - i
  {
    if i + |m| <= |s| {
      WholeKeepsOtherIds(s, m, t, i + 1);
      assert s[i..] == [s[i]] + s[i + 1..];
    }
  }

  lemma {:induction false} ReplaceWholeSkip(s: string, m: string, t: string, i: nat, p: nat)
    requires |m| > 0 && i <= p && WholeAt(s, m, p)
    requires forall k: nat :: i <= k < p ==> !WholeAt(s, m, k)
    ensures ReplaceWholeFrom(s, m, t, i) == s[i..p] + t + ReplaceWholeFrom(s, m, t, p + |m|)
    decreases p - i
  {
    if i < p {
      ReplaceWholeSkip(s, m, t, i + 1, p);
      assert s[i..p] == [s[i]] + s[i + 1..p];
    }
  }

  /**
   * Each corrected round makes progress: the leftmost reference is gone
   * from its place, and the text before it is kept, as long as the name it
   * receives does not itself begin with a digit.
   */
  lemma RewriteWholeProgress(s: string, names: map<nat, string>)
    requires FindRef(s, 0).Some?
    requires var p := FindRef(s, 0).value;
      match RefId(s, p) case Some(n) => NameOf(names, n) == "" || !IsDigit(NameOf(names, n)[0]) case None => true
    ensures var p := FindRef(s, 0).value; var r := RewriteWhole(s, names);
      p <= |r| && r[..p] == s[..p] && !RefAt(r, p)
  {
    var p := FindRef(s, 0).value;
    var m := RefMatch(s, p);
    var name := match RefId(s, p) case Some(n) => NameOf(names, n) case None => "";
    var t := SchemaRefPrefix + name;
    assert WholeAt(s, m, p);
    NoEarlierMatch(s, p);
    ReplaceWholeSkip(s, m, t, 0, p);
    var tail := ReplaceWholeFrom(s, m, t, p + |m|);
    var r := RewriteWhole(s, names);
    assert r == s[..p] + t + tail;
    var q := p + |SchemaRefPrefix|;
    assert r[..p] == s[..p];
    if name != "" {
      assert r[q] == name[0];
    } else if p + |m| < |s| {
      assert !IsDigit(s[p + |m|]);
      ReplaceWholeHead(s, m, t, p + |m|);
      assert r[q] == tail[0];
    }
  }

  // ---------------------------------------------------------------------
  // The input that tells the two apart: a reference to id 1 followed by a
  // reference to id 12.
  // ---------------------------------------------------------------------

  const ShortThenLong: string := SchemaRefPrefix + "1" + SchemaRefPrefix + "12"

  lemma PrefixHashOnlyFirst()
    ensures SchemaRefPrefix[0] == '#' && forall k :: 0 < k < |SchemaRefPrefix| ==> SchemaRefPrefix[k] != '#'
  {
  }

  /** After the as-written round, the reference to 12 has become `<name of 1>2` and no reference is left. */
  lemma ShorterIdCorruptsLonger()
    ensures IdToName(ShortThenLong, map[1 := "A", 12 := "B"], 1) == Some(SchemaRefPrefix + "A" + SchemaRefPrefix + "A2")
  {
    var s := ShortThenLong;
    var names := map[1 := "A", 12 := "B"];
    var P := SchemaRefPrefix;
    assert s[..|P|] == P;
    assert RefAt(s, 0);
    assert FindRef(s, 0) == Some(0);
    assert DigitRun(s, |P| + 1) == 0;
    assert DigitRun(s, |P|) == 1;
    assert RefDigits(s, 0) == "1";
    assert DigitsValue("1") == 1;
    var m := P + "1";
    assert RefMatch(s, 0) == m;
    RewriteFirst(s, names);
    assert s[|m|..|m| + |m|] == m;
    assert ReplaceFrom(s, m, P + "A", |m|) == P + "A" + ReplaceFrom(s, m, P + "A", 2 * |m|);
    assert ReplaceFrom(s, m, P + "A", 2 * |m|) == "2";
    var r := P + "A" + P + "A2";
    assert Rewrite(s, names) == r;
    NoRefInNamed(r, "A2");
  }

  /** Two references already named by single-letter names: no reference is left. */
  lemma NoRefInNamed(r: string, x: string)
    requires r == SchemaRefPrefix + "A" + SchemaRefPrefix + x
    requires |x| > 0 && !IsDigit(x[0]) && forall k :: 0 <= k < |x| ==> x[k] != '#'
    ensures FindRef(r, 0).None?
  {
    var P := SchemaRefPrefix;
    PrefixHashOnlyFirst();
    forall k: nat | RefAt(r, k)
      ensures false
    {
      RefStartsWithHash(r, k);
    }
  }

  /** The corrected round on the same input keeps the reference to 12 for the next round. */
  lemma WholeKeepsLonger()
    ensures RewriteWhole(ShortThenLong, map[1 := "A", 12 := "B"]) == SchemaRefPrefix + "A" + SchemaRefPrefix + "12"
  {
    var s := ShortThenLong;
    var P := SchemaRefPrefix;
    assert s[..|P|] == P;
    assert RefAt(s, 0);
    assert FindRef(s, 0) == Some(0);
    assert DigitRun(s, |P| + 1) == 0;
    assert DigitRun(s, |P|) == 1;
    assert RefDigits(s, 0) == "1";
    assert DigitsValue("1") == 1;
    var m := P + "1";
    assert RefMatch(s, 0) == m;
    assert WholeAt(s, m, 0);
    forall k: nat | |m| <= k
      ensures !WholeAt(s, m, k)
    {
      PrefixHashOnlyFirst();
    }
    WholeKeepsOtherIds(s, m, P + "A", |m|);
    assert s[|m|..] == P + "12";
  }

  /** After the corrected first round the leftmost reference is the one to 12. */
  lemma SecondRoundFindsLonger(s: string)
    requires s == SchemaRefPrefix + "A" + SchemaRefPrefix + "12"
    ensures FindRef(s, 0) == Some(|SchemaRefPrefix| + 1)
    ensures RefMatch(s, |SchemaRefPrefix| + 1) == SchemaRefPrefix + "12"
    ensures RefId(s, |SchemaRefPrefix| + 1) == Some(12)
  {
    var P := SchemaRefPrefix;
    var p := |P| + 1;
    PrefixHashOnlyFirst();
    forall k: nat | k < p
      ensures !RefAt(s, k)
    {
      if k == 0 {
        assert s[|P|] == 'A';
      } else {
        assert s[k] != '#';
      }
    }
    assert s[p..p + |P|] == P;
    assert RefAt(s, p);
    assert FindRef(s, 0) == FindRef(s, p) by {
      FindRefSkips(s, 0, p);
    }
    assert DigitRun(s, p + |P| + 2) == 0;
    assert DigitRun(s, p + |P|) == 2;
    assert RefDigits(s, p) == "12";
    assert DigitsValue("12") == 12 by {
      assert "12"[..1] == "1";
    }
  }

  /** With no reference in `[i, p)`, the search from `i` is the search from `p`. */
  lemma {:induction false} FindRefSkips(s: string, i: nat, p: nat)
    requires i <= p <= |s|
    requires forall k: nat :: i <= k < p ==> !RefAt(s, k)
    ensures FindRef(s, i) == FindRef(s, p)
    decreases p - i
  {
    if i < p {
      FindRefSkips(s, i + 1, p);
    }
  }

  /**
   * The corrected loop on the same input names both references: the
   * reference to 12 receives the name of 12, where the loop as written
   * leaves `<name of 1>2` (`ShorterIdCorruptsLonger`).
   */
  lemma WholeLoopNamesBoth()
    ensures IdToNameWhole(ShortThenLong, map[1 := "A", 12 := "B"], 2) == Some(SchemaRefPrefix + "A" + SchemaRefPrefix + "B")
  {
    var names := map[1 := "A", 12 := "B"];
    var P := SchemaRefPrefix;
    var s := ShortThenLong;
    assert s[..|P|] == P;
    assert RefAt(s, 0);
    WholeKeepsLonger();
    var s2 := P + "A" + P + "12";
    assert RewriteWhole(s, names) == s2;
    SecondRoundFindsLonger(s2);
    var p := |P| + 1;
    var m := P + "12";
    var t := P + "B";
    assert WholeAt(s2, m, p);
    NoEarlierMatch(s2, p);
    ReplaceWholeSkip(s2, m, t, 0, p);
    assert s2[0..p] == P + "A";
    assert p + |m| == |s2|;
    var r := P + "A" + P + "B";
    assert RewriteWhole(s2, names) == r;
    NoRefInNamed(r, "B");
  }
}
