/** Slice operations shared by the containers: first-occurrence removal, first match, de-duplication. */
module Lists {
  import opened Wrappers

  /** An element of a non-empty list is in the list without its last element, or is that last element. */
  lemma InSnoc<T>(xs: seq<T>, x: T)
    requires |xs| > 0
    ensures x in xs <==> x in xs[..|xs| - 1] || x == xs[|xs| - 1]
  {
    assert xs == xs[..|xs| - 1] + [xs[|xs| - 1]];
  }

  /** Position of the first `x` in `xs`. */
  function FirstIndex<T(==)>(xs: seq<T>, x: T): (i: nat)
    requires x in xs
    ensures i < |xs| && xs[i] == x && x !in xs[..i]
  {
    if xs[0] == x then 0
    else
      var i := FirstIndex(xs[1..], x);
      assert xs[..i + 1] == [xs[0]] + xs[1..][..i];
      i + 1
  }

  /**
   * The list without its first `x`: the splice `append(xs[:i], xs[i+1:]...)`
   * at the first matching index, and the list itself when there is none.
   */
  function RemoveFirst<T(==)>(xs: seq<T>, x: T): (r: seq<T>)
    ensures x !in xs ==> r == xs
    ensures |r| == if x in xs then |xs| - 1 else |xs|
  {
    if |xs| == 0 then []
    else if xs[0] == x then xs[1..]
    else [xs[0]] + RemoveFirst(xs[1..], x)
  }

  /** Exactly the element at the first matching index is dropped; the rest keep their order. */
  lemma {:induction false} RemoveFirstSplices<T>(xs: seq<T>, x: T)
    requires x in xs
    ensures RemoveFirst(xs, x) == xs[..FirstIndex(xs, x)] + xs[FirstIndex(xs, x) + 1..]
  {
    if xs[0] != x {
      RemoveFirstSplices(xs[1..], x);
      SpliceCons(xs, FirstIndex(xs[1..], x) + 1);
    }
  }

  /** A splice past the head keeps the head in front of the tail's splice. */
  lemma SpliceCons<T>(xs: seq<T>, k: nat)
    requires 1 <= k < |xs|
    ensures xs[..k] + xs[k + 1..] == [xs[0]] + (xs[1..][..k - 1] + xs[1..][k..])
  {
    assert xs[..k] == [xs[0]] + xs[1..][..k - 1];
    assert xs[k + 1..] == xs[1..][k..];
  }

  /** One copy of `x` leaves the multiset of elements, and nothing else does. */
  lemma {:induction false} RemoveFirstMultiset<T>(xs: seq<T>, x: T)
    ensures multiset(RemoveFirst(xs, x)) == multiset(xs) - multiset{x}
  {
    if |xs| > 0 {
      assert xs == [xs[0]] + xs[1..];
      if xs[0] != x {
        RemoveFirstMultiset(xs[1..], x);
      }
    }
  }

  /** Appending an absent element and removing its first occurrence restores the list. */
  lemma {:induction false} RemoveFirstAppended<T>(xs: seq<T>, x: T)
    requires x !in xs
    ensures RemoveFirst(xs + [x], x) == xs
  {
    if |xs| > 0 {
      assert (xs + [x])[0] == xs[0] && (xs + [x])[1..] == xs[1..] + [x];
      RemoveFirstAppended(xs[1..], x);
      assert xs == [xs[0]] + xs[1..];
    }
  }

  /** The index loop with a splice-and-break that the source writes for every first-occurrence removal. */
  method DeleteFirst<T(==)>(xs: seq<T>, x: T) returns (r: seq<T>)
    ensures r == RemoveFirst(xs, x)
  {
    r := xs;
    var i := 0;
    while i < |r|
      invariant 0 <= i <= |r| && r == xs
      invariant x !in xs[..i]
    {
      if r[i] == x {
        var k := FirstIndex(xs, x);
        assert k == i;
        RemoveFirstSplices(xs, x);
        r := r[..i] + r[i + 1..];
        return;
      }
      assert xs[..i + 1] == xs[..i] + [xs[i]];
      i := i + 1;
    }
    assert xs[..|xs|] == xs;
  }

  /** Every element that satisfies `keep`, in order. */
  function Filter<T>(xs: seq<T>, keep: T -> bool): (r: seq<T>)
    ensures |r| <= |xs|
    ensures forall i :: 0 <= i < |r| ==> r[i] in xs && keep(r[i])
    ensures forall i :: 0 <= i < |xs| && keep(xs[i]) ==> xs[i] in r
  {
    if |xs| == 0 then []
    else if keep(xs[0]) then [xs[0]] + Filter(xs[1..], keep)
    else Filter(xs[1..], keep)
  }

  /** Filtering a concatenation filters each part. */
  lemma {:induction false} FilterAppend<T>(a: seq<T>, b: seq<T>, keep: T -> bool)
    ensures Filter(a + b, keep) == Filter(a, keep) + Filter(b, keep)
  {
    if |a| > 0 {
      assert (a + b)[0] == a[0] && (a + b)[1..] == a[1..] + b;
      FilterAppend(a[1..], b, keep);
    } else {
      assert a + b == b;
    }
  }

  lemma FilterSnoc<T>(xs: seq<T>, i: nat, keep: T -> bool)
    requires i < |xs|
    ensures Filter(xs[..i + 1], keep) == Filter(xs[..i], keep) + (if keep(xs[i]) then [xs[i]] else [])
  {
    assert xs[..i + 1] == xs[..i] + [xs[i]];
    FilterAppend(xs[..i], [xs[i]], keep);
  }

  /** The present results of `f` over `xs`, in order. */
  function FilterMap<A, B>(xs: seq<A>, f: A -> Option<B>): seq<B>
  {
    if |xs| == 0 then []
    else
      var y := f(xs[|xs| - 1]);
      FilterMap(xs[..|xs| - 1], f) + (if y.Some? then [y.value] else [])
  }

  /** A value is kept exactly when some element yields it. */
  lemma {:induction false} FilterMapMembers<A, B>(xs: seq<A>, f: A -> Option<B>, y: B)
    ensures y in FilterMap(xs, f) <==> exists j :: 0 <= j < |xs| && f(xs[j]) == Some(y)
  {
    if |xs| > 0 {
      var n := |xs| - 1;
      FilterMapMembers(xs[..n], f, y);
      if j :| 0 <= j < |xs| && f(xs[j]) == Some(y) {
        if j < n {
          assert xs[..n][j] == xs[j];
        }
      }
      if j :| 0 <= j < n && f(xs[..n][j]) == Some(y) {
        assert xs[j] == xs[..n][j];
      }
    }
  }

  /** `f` applied to every element, or the first error it gives. */
  function TryMap<A, B>(xs: seq<A>, f: A -> Result<B>): (r: Result<seq<B>>)
    ensures r.Ok? <==> forall i :: 0 <= i < |xs| ==> f(xs[i]).Ok?
    ensures r.Ok? ==> |r.value| == |xs| && forall i :: 0 <= i < |xs| ==> r.value[i] == f(xs[i]).value
  {
    if |xs| == 0 then Ok([])
    else
      match TryMap(xs[..|xs| - 1], f)
      case Err(m) => Err(m)
      case Ok(l) =>
        match f(xs[|xs| - 1])
        case Err(m) => Err(m)
        case Ok(y) => Ok(l + [y])
  }

  /** Once a prefix has failed, its error is the result. */
  lemma {:induction false} TryMapErrPersists<A, B>(xs: seq<A>, i: nat, f: A -> Result<B>)
    requires i <= |xs| && TryMap(xs[..i], f).Err?
    ensures TryMap(xs, f) == TryMap(xs[..i], f)
    decreases |xs| - i
  {
    if i < |xs| {
      assert xs[..i + 1][..i] == xs[..i];
      TryMapErrPersists(xs, i + 1, f);
    } else {
      assert xs[..i] == xs;
    }
  }

  /** The results of `f` over `xs`, concatenated in order. */
  function FlatMap<A, B>(xs: seq<A>, f: A -> seq<B>): seq<B>
  {
    if |xs| == 0 then [] else FlatMap(xs[..|xs| - 1], f) + f(xs[|xs| - 1])
  }

  /** A value is in the concatenation exactly when it is in the result of some element. */
  lemma {:induction false} FlatMapMembers<A, B>(xs: seq<A>, f: A -> seq<B>, y: B)
    ensures y in FlatMap(xs, f) <==> exists j :: 0 <= j < |xs| && y in f(xs[j])
  {
    if |xs| > 0 {
      var n := |xs| - 1;
      FlatMapMembers(xs[..n], f, y);
      if j :| 0 <= j < |xs| && y in f(xs[j]) {
        if j < n {
          assert xs[..n][j] == xs[j];
        }
      }
      if j :| 0 <= j < n && y in f(xs[..n][j]) {
        assert xs[j] == xs[..n][j];
      }
    }
  }

  /** Index of the first element satisfying `p`, if any. */
  function FindFirst<T>(xs: seq<T>, p: T -> bool): (r: Option<nat>)
    ensures r.Some? ==> r.value < |xs| && p(xs[r.value]) && forall j :: 0 <= j < r.value ==> !p(xs[j])
    ensures r.None? ==> forall j :: 0 <= j < |xs| ==> !p(xs[j])
  {
    if |xs| == 0 then None
    else if p(xs[0]) then Some(0)
    else
      match FindFirst(xs[1..], p)
      case None => None
      case Some(i) => Some(i + 1)
  }

  predicate NoDuplicates<T(==)>(xs: seq<T>)
  {
    forall i, j :: 0 <= i < j < |xs| ==> xs[i] != xs[j]
  }

  /** The elements of `xs` in order of first occurrence, each once. */
  function Dedup<T(==)>(xs: seq<T>): (r: seq<T>)
    ensures NoDuplicates(r)
    ensures forall i :: 0 <= i < |r| ==> r[i] in xs
    ensures forall i :: 0 <= i < |xs| ==> xs[i] in r
    ensures NoDuplicates(xs) ==> r == xs
  {
    if |xs| == 0 then []
    else
      var init := xs[..|xs| - 1];
      var last := xs[|xs| - 1];
      var d := Dedup(init);
      assert xs == init + [last];
      if last in d then d else d + [last]
  }

  /** The loop the source writes with a `map[…]struct{}` of seen values. */
  method DedupLoop<T(==)>(xs: seq<T>) returns (r: seq<T>)
    ensures r == Dedup(xs)
  {
    r := [];
    var seen: set<T> := {};
    for i := 0 to |xs|
      invariant r == Dedup(xs[..i])
      invariant forall y :: y in seen <==> y in r
    {
      assert xs[..i + 1][..i] == xs[..i];
      if xs[i] !in seen {
        r := r + [xs[i]];
        seen := seen + {xs[i]};
      }
    }
    assert xs[..|xs|] == xs;
  }
}
