/**
 * The category tree of a project's collections, built from the flat rows
 * that name their parent (backend/route/api/collection/func.go and the
 * `buildTree` family of collections.go). In an iteration view every node
 * carries a "selected" flag: a node is selected when its own id is listed,
 * or when one of its children is selected.
 *
 * Go recursion has no bound (a row whose parent chain loops recurses without
 * end); the model descends at most `depth` levels.
 */
module CollectionTree {
  import opened Wrappers

  /** One stored collection: its id, its parent's id (0 at the root), title and type. */
  datatype Row = Row(id: nat, parentId: nat, title: string, typ: string)

  /** A tree node; `selected` is Go's `*bool`, nil outside an iteration view. */
  datatype Node = Node(id: nat, parentId: nat, title: string, typ: string, items: seq<Node>, selected: Option<bool>)

  /** The rows whose parent is `parent`, in input order. */
  function Matching(rows: seq<Row>, parent: nat): (r: seq<Row>)
    ensures |r| <= |rows|
    ensures forall j :: 0 <= j < |r| ==> r[j] in rows && r[j].parentId == parent
  {
    if |rows| == 0 then []
    else Matching(rows[..|rows| - 1], parent) + (if rows[|rows| - 1].parentId == parent then [rows[|rows| - 1]] else [])
  }

  /** Every row under `parent` is kept, and nothing else: `Matching` is exactly the filter. */
  lemma {:induction false} MatchingMembers(rows: seq<Row>, parent: nat, x: Row)
    ensures x in Matching(rows, parent) <==> x in rows && x.parentId == parent
  {
    if |rows| > 0 {
      var n := |rows| - 1;
      MatchingMembers(rows[..n], parent, x);
      assert rows == rows[..n] + [rows[n]];
    }
  }

  /** Input order is kept: filtering a concatenation filters each part. */
  lemma {:induction false} MatchingAppend(a: seq<Row>, b: seq<Row>, parent: nat)
    ensures Matching(a + b, parent) == Matching(a, parent) + Matching(b, parent)
    decreases |b|
  {
    if |b| > 0 {
      var n := |b| - 1;
      assert (a + b)[..|a + b| - 1] == a + b[..n];
      MatchingAppend(a, b[..n], parent);
    } else {
      assert a + b == a;
    }
  }

  /** Some child of the node is selected. */
  predicate SomeChildSelected(items: seq<Node>)
  {
    exists j :: 0 <= j < |items| && items[j].selected == Some(true)
  }

  /**
   * The flag a node gets: none without a selection list; otherwise whether
   * its id is listed, or a child is selected while the list is non-empty.
   */
  function Selection(id: nat, sel: Option<seq<nat>>, items: seq<Node>): Option<bool>
  {
    match sel
    case None => None
    case Some(s) => Some(id in s || (|s| > 0 && SomeChildSelected(items)))
  }

  /** The node for row `c`, with its subtree built `depth - 1` levels deep. */
  function NodeOf(depth: nat, c: Row, rows: seq<Row>, sel: Option<seq<nat>>): Node
    requires depth > 0
    decreases depth, 0
  {
    var items := Tree(depth - 1, c.id, rows, sel);
    Node(c.id, c.parentId, c.title, c.typ, items, Selection(c.id, sel, items))
  }

  /** The nodes `buildTree` makes from the first `k` rows. */
  function TreePrefix(depth: nat, parent: nat, rows: seq<Row>, k: nat, sel: Option<seq<nat>>): seq<Node>
    requires depth > 0 && k <= |rows|
    decreases depth, 1, k
  {
    if k == 0 then []
    else TreePrefix(depth, parent, rows, k - 1, sel) + (if rows[k - 1].parentId == parent then [NodeOf(depth, rows[k - 1], rows, sel)] else [])
  }

  /** `buildTree(parent, rows, sel)`, cut `depth` levels down. */
  function Tree(depth: nat, parent: nat, rows: seq<Row>, sel: Option<seq<nat>>): seq<Node>
    decreases depth, 2
  {
    if depth == 0 then [] else TreePrefix(depth, parent, rows, |rows|, sel)
  }

  /**
   * The selection scan of func.go: over each listed id, stop on the node's
   * own id; otherwise look for a selected child.
   */
  method IsSelected(id: nat, sel: seq<nat>, items: seq<Node>) returns (b: bool)
    ensures b == (id in sel || (|sel| > 0 && SomeChildSelected(items)))
  {
    b := false;
    var i := 0;
    while i < |sel|
      invariant 0 <= i <= |sel|
      invariant b ==> id in sel[..i] || (i > 0 && SomeChildSelected(items))
      invariant id in sel[..i] ==> b
      invariant i > 0 && SomeChildSelected(items) ==> b
    {
      if sel[i] == id {
        b := true;
        break;
      }
      if !b {
        var j := 0;
        while j < |items|
          invariant 0 <= j <= |items|
          invariant b ==> SomeChildSelected(items)
          invariant !b ==> forall t :: 0 <= t < j ==> items[t].selected != Some(true)
        {
          if items[j].selected == Some(true) {
            b := true;
            break;
          }
          j := j + 1;
        }
      }
      assert sel[..i + 1] == sel[..i] + [sel[i]];
      i := i + 1;
    }
    assert sel[..|sel|] == sel;
  }

  /** func.go's `buildTree`: one node per row under `parent`, in order, each with its own subtree. */
  method BuildTree(depth: nat, parent: nat, rows: seq<Row>, sel: Option<seq<nat>>) returns (r: seq<Node>)
    ensures r == Tree(depth, parent, rows, sel)
    decreases depth
  {
    r := [];
    if depth == 0 {
      return;
    }
    var i := 0;
    while i < |rows|
      invariant 0 <= i <= |rows|
      invariant r == TreePrefix(depth, parent, rows, i, sel)
    {
      var c := rows[i];
      if c.parentId == parent {
        var children := BuildTree(depth - 1, c.id, rows, sel);
        var selected := None;
        if sel.Some? {
          var b := IsSelected(c.id, sel.value, children);
          selected := Some(b);
        }
        r := r + [Node(c.id, c.parentId, c.title, c.typ, children, selected)];
      }
      i := i + 1;
    }
  }

  /**
   * collections.go's `buildTree`: the selection scan runs only when
   * `isIteration`; otherwise no node carries a flag.
   */
  method BuildTreeFor(depth: nat, parent: nat, rows: seq<Row>, isIteration: bool, sel: seq<nat>) returns (r: seq<Node>)
    ensures isIteration ==> r == Tree(depth, parent, rows, Some(sel)) && Flagged(r, true)
    ensures !isIteration ==> r == Tree(depth, parent, rows, None) && Flagged(r, false)
  {
    r := BuildTree(depth, parent, rows, if isIteration then Some(sel) else None);
    TreeFlagged(depth, parent, rows, if isIteration then Some(sel) else None);
  }

  /** `buildProjectTree`: a tree without any selected flag. */
  method BuildProjectTree(depth: nat, parent: nat, rows: seq<Row>) returns (r: seq<Node>)
    ensures r == Tree(depth, parent, rows, None) && Flagged(r, false)
  {
    r := BuildTreeFor(depth, parent, rows, false, []);
  }

  /** `buildIterationTree`: a tree whose every node carries a flag. */
  method BuildIterationTree(depth: nat, parent: nat, rows: seq<Row>, sel: seq<nat>) returns (r: seq<Node>)
    ensures r == Tree(depth, parent, rows, Some(sel)) && Flagged(r, true)
  {
    r := BuildTreeFor(depth, parent, rows, true, sel);
  }

  /** Every node of the forest carries a flag (`flag`) or none (`!flag`). */
  predicate Flagged(ts: seq<Node>, flag: bool)
    decreases ts
  {
    forall j :: 0 <= j < |ts| ==> ts[j].selected.Some? == flag && Flagged(ts[j].items, flag)
  }

  /** Every node of the forest carries the flag `Some(false)`. */
  predicate Unselected(ts: seq<Node>)
    decreases ts
  {
    forall j :: 0 <= j < |ts| ==> ts[j].selected == Some(false) && Unselected(ts[j].items)
  }

  /** The node or one of its descendants has a listed id. */
  predicate Listed(n: Node, s: seq<nat>)
    decreases n
  {
    n.id in s || exists j :: 0 <= j < |n.items| && Listed(n.items[j], s)
  }

  /** Every node's flag says whether its subtree holds a listed id. */
  predicate Propagated(ts: seq<Node>, s: seq<nat>)
    decreases ts
  {
    forall j :: 0 <= j < |ts| ==> ts[j].selected == Some(Listed(ts[j], s)) && Propagated(ts[j].items, s)
  }

  lemma {:induction false} PrefixLevel(depth: nat, parent: nat, rows: seq<Row>, k: nat, sel: Option<seq<nat>>)
    requires depth > 0 && k <= |rows|
    ensures TreePrefix(depth, parent, rows, k, sel) == Level(depth, Matching(rows[..k], parent), rows, sel)
    decreases k
  {
    if k > 0 {
      PrefixLevel(depth, parent, rows, k - 1, sel);
      var m := Matching(rows[..k - 1], parent);
      var extra := if rows[k - 1].parentId == parent then [rows[k - 1]] else [];
      MatchingStep(rows, parent, k);
      LevelAppend(depth, m, extra, rows, sel);
      LevelExtra(depth, parent, rows[k - 1], rows, sel);
    }
  }

  /** The rows kept from the first `k` are those kept from the first `k - 1`, then row `k - 1` if it matches. */
  lemma MatchingStep(rows: seq<Row>, parent: nat, k: nat)
    requires 0 < k <= |rows|
    ensures Matching(rows[..k], parent) == Matching(rows[..k - 1], parent) + (if rows[k - 1].parentId == parent then [rows[k - 1]] else [])
  {
    assert rows[..k][..k - 1] == rows[..k - 1];
  }

  /** The node of one row, or none when it does not match. */
  lemma LevelExtra(depth: nat, parent: nat, c: Row, rows: seq<Row>, sel: Option<seq<nat>>)
    requires depth > 0
    ensures Level(depth, if c.parentId == parent then [c] else [], rows, sel) == if c.parentId == parent then [NodeOf(depth, c, rows, sel)] else []
  {
  }

  /** The nodes for a list of rows, one each, in order. */
  function Level(depth: nat, cs: seq<Row>, rows: seq<Row>, sel: Option<seq<nat>>): (r: seq<Node>)
    requires depth > 0
    ensures |r| == |cs|
  {
    if |cs| == 0 then [] else [NodeOf(depth, cs[0], rows, sel)] + Level(depth, cs[1..], rows, sel)
  }

  /** Node `j` of a level is the node of row `j`. */
  lemma {:induction false} LevelNodes(depth: nat, cs: seq<Row>, rows: seq<Row>, sel: Option<seq<nat>>)
    requires depth > 0
    ensures forall j :: 0 <= j < |cs| ==> Level(depth, cs, rows, sel)[j] == NodeOf(depth, cs[j], rows, sel)
  {
    if |cs| > 0 {
      LevelNodes(depth, cs[1..], rows, sel);
    }
  }

  lemma {:induction false} LevelAppend(depth: nat, xs: seq<Row>, ys: seq<Row>, rows: seq<Row>, sel: Option<seq<nat>>)
    requires depth > 0
    ensures Level(depth, xs + ys, rows, sel) == Level(depth, xs, rows, sel) + Level(depth, ys, rows, sel)
  {
    if |xs| > 0 {
      assert (xs + ys)[1..] == xs[1..] + ys;
      LevelAppend(depth, xs[1..], ys, rows, sel);
    } else {
      assert xs + ys == ys;
    }
  }

  /** Two depths that give every row the same node give the same level. */
  lemma {:induction false} LevelSame(d1: nat, d2: nat, cs: seq<Row>, rows: seq<Row>, sel: Option<seq<nat>>)
    requires d1 > 0 && d2 > 0
    requires forall j :: 0 <= j < |cs| ==> NodeOf(d1, cs[j], rows, sel) == NodeOf(d2, cs[j], rows, sel)
    ensures Level(d1, cs, rows, sel) == Level(d2, cs, rows, sel)
  {
    if |cs| > 0 {
      assert NodeOf(d1, cs[0], rows, sel) == NodeOf(d2, cs[0], rows, sel);
      LevelSame(d1, d2, cs[1..], rows, sel);
    }
  }

  /**
   * One level of the tree: exactly the rows under `parent`, in input order,
   * each carrying its row's fields, the subtree below its own id and its flag.
   */
  lemma TreeLevel(depth: nat, parent: nat, rows: seq<Row>, sel: Option<seq<nat>>)
    requires depth > 0
    ensures var t := Tree(depth, parent, rows, sel); var m := Matching(rows, parent);
      |t| == |m| &&
      forall j :: 0 <= j < |m| ==>
        t[j].id == m[j].id && t[j].parentId == parent && t[j].title == m[j].title && t[j].typ == m[j].typ &&
        t[j].items == Tree(depth - 1, m[j].id, rows, sel) &&
        t[j].selected == Selection(m[j].id, sel, t[j].items)
  {
    PrefixLevel(depth, parent, rows, |rows|, sel);
    assert rows[..|rows|] == rows;
    LevelNodes(depth, Matching(rows, parent), rows, sel);
  }

  /** Without a selection list no node carries a flag; with one every node does. */
  lemma {:induction false} TreeFlagged(depth: nat, parent: nat, rows: seq<Row>, sel: Option<seq<nat>>)
    ensures Flagged(Tree(depth, parent, rows, sel), sel.Some?)
    decreases depth
  {
    if depth > 0 {
      var t := Tree(depth, parent, rows, sel);
      var m := Matching(rows, parent);
      TreeLevel(depth, parent, rows, sel);
      forall j | 0 <= j < |t|
        ensures t[j].selected.Some? == sel.Some? && Flagged(t[j].items, sel.Some?)
      {
        TreeFlagged(depth - 1, m[j].id, rows, sel);
      }
    }
  }

  /** With an empty (non-nil) selection list every node is unselected. */
  lemma {:induction false} EmptySelectionUnselected(depth: nat, parent: nat, rows: seq<Row>)
    ensures Unselected(Tree(depth, parent, rows, Some([])))
    decreases depth
  {
    if depth > 0 {
      var t := Tree(depth, parent, rows, Some([]));
      var m := Matching(rows, parent);
      TreeLevel(depth, parent, rows, Some([]));
      forall j | 0 <= j < |t|
        ensures t[j].selected == Some(false) && Unselected(t[j].items)
      {
        EmptySelectionUnselected(depth - 1, m[j].id, rows);
      }
    }
  }

  /**
   * With a non-empty list, selection propagates upwards: a node is selected
   * exactly when its own id or the id of one of its descendants is listed.
   */
  lemma {:induction false} SelectionPropagates(depth: nat, parent: nat, rows: seq<Row>, s: seq<nat>)
    requires |s| > 0
    ensures Propagated(Tree(depth, parent, rows, Some(s)), s)
    decreases depth
  {
    if depth > 0 {
      var t := Tree(depth, parent, rows, Some(s));
      var m := Matching(rows, parent);
      TreeLevel(depth, parent, rows, Some(s));
      forall j | 0 <= j < |t|
        ensures t[j].selected == Some(Listed(t[j], s)) && Propagated(t[j].items, s)
      {
        SelectionPropagates(depth - 1, m[j].id, rows, s);
        var items := t[j].items;
        assert SomeChildSelected(items) <==> exists i :: 0 <= i < |items| && Listed(items[i], s) by {
          if SomeChildSelected(items) {
            var i :| 0 <= i < |items| && items[i].selected == Some(true);
            assert Listed(items[i], s);
          }
          if exists i :: 0 <= i < |items| && Listed(items[i], s) {
            var i :| 0 <= i < |items| && Listed(items[i], s);
            assert items[i].selected == Some(true);
          }
        }
      }
    }
  }
  /**
   * No chain of rows under `parent` is more than `d` levels long: the height
   * of the subtree below `parent` is at most `d`.
   */
  predicate Shallow(rows: seq<Row>, parent: nat, d: nat)
    decreases d
  {
    forall j :: 0 <= j < |rows| && rows[j].parentId == parent ==> d > 0 && Shallow(rows, rows[j].id, d - 1)
  }

  /** A height bound stays a bound when it grows. */
  lemma {:induction false} ShallowMono(rows: seq<Row>, parent: nat, d: nat, e: nat)
    requires Shallow(rows, parent, d) && d <= e
    ensures Shallow(rows, parent, e)
    decreases d
  {
    forall j | 0 <= j < |rows| && rows[j].parentId == parent
      ensures e > 0 && Shallow(rows, rows[j].id, e - 1)
    {
      ShallowMono(rows, rows[j].id, d - 1, e - 1);
    }
  }

  /**
   * Once the depth reaches the height of the subtree, one more level changes
   * nothing: the cut-off tree is the tree Go's unbounded recursion builds.
   */
  lemma {:induction false} TreeSettled(depth: nat, d: nat, parent: nat, rows: seq<Row>, sel: Option<seq<nat>>)
    requires Shallow(rows, parent, d) && depth >= d
    ensures Tree(depth, parent, rows, sel) == Tree(depth + 1, parent, rows, sel)
    decreases d
  {
    var m := Matching(rows, parent);
    if |m| > 0 {
      ChildrenShallow(rows, parent, d, m[0]);
    }
    PrefixLevel(depth + 1, parent, rows, |rows|, sel);
    assert rows[..|rows|] == rows;
    if depth > 0 {
      PrefixLevel(depth, parent, rows, |rows|, sel);
      forall j | 0 <= j < |m|
        ensures NodeOf(depth, m[j], rows, sel) == NodeOf(depth + 1, m[j], rows, sel)
      {
        ChildrenShallow(rows, parent, d, m[j]);
        TreeSettled(depth - 1, d - 1, m[j].id, rows, sel);
      }
      LevelSame(depth, depth + 1, m, rows, sel);
    }
  }

  /** Below a parent of height at most `d`, each child has height at most `d - 1`. */
  lemma ChildrenShallow(rows: seq<Row>, parent: nat, d: nat, x: Row)
    requires Shallow(rows, parent, d) && x in Matching(rows, parent)
    ensures d > 0 && Shallow(rows, x.id, d - 1)
  {
    MatchingMembers(rows, parent, x);
    var k :| 0 <= k < |rows| && rows[k] == x;
  }

  /** The ids rank strictly below their parents' ids: the parent chains never loop. */
  predicate Ranked(rows: seq<Row>, rank: nat -> nat)
  {
    forall j :: 0 <= j < |rows| ==> rank(rows[j].id) < rank(rows[j].parentId)
  }

  /** Under a ranking, the subtree below `parent` is at most `rank(parent)` levels high. */
  lemma {:induction false} RankedShallow(rows: seq<Row>, rank: nat -> nat, parent: nat)
    requires Ranked(rows, rank)
    ensures Shallow(rows, parent, rank(parent))
    decreases rank(parent)
  {
    forall j | 0 <= j < |rows| && rows[j].parentId == parent
      ensures rank(parent) > 0 && Shallow(rows, rows[j].id, rank(parent) - 1)
    {
      RankedShallow(rows, rank, rows[j].id);
      ShallowMono(rows, rows[j].id, rank(rows[j].id), rank(parent) - 1);
    }
  }

  /**
   * For rows whose parent chains do not loop, the depth bound is harmless:
   * from `rank(parent)` levels on, every deeper cut gives the same tree.
   */
  lemma {:induction false} AcyclicDepthHarmless(depth: nat, parent: nat, rows: seq<Row>, sel: Option<seq<nat>>, rank: nat -> nat)
    requires Ranked(rows, rank) && depth >= rank(parent)
    ensures Tree(depth, parent, rows, sel) == Tree(depth + 1, parent, rows, sel)
  {
    RankedShallow(rows, rank, parent);
    TreeSettled(depth, rank(parent), parent, rows, sel);
  }
}
