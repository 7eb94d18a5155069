/**
 * The back end's comment tree (buildNestedComments in
 * stars/code/backend/controllers/comment_controller.go).
 *
 * The rows of one goal arrive as a flat list in creation order. The tree sent to
 * the client is described here without references: a node's children are the rows
 * whose parent id is the node's id, in input order, and the roots are the rows with
 * no parent id. A row is in the tree exactly when following parent ids from it
 * reaches a root; rows whose parent is missing, and rows on a parent cycle, are
 * dropped together with everything below them.
 */
module CommentTree {
  import opened Wrappers
  import opened Models
  import opened SeqFacts

  /** One node of the nested JSON: the row's fields and the nested children. */
  datatype Node = Node(comment: Comment, children: seq<Node>)

  /** Comment ids are the table's primary key. */
  predicate UniqueIds(rows: seq<Comment>) {
    forall i, j :: 0 <= i < j < |rows| ==> rows[i].id != rows[j].id
  }

  lemma UniqueIdsDistinct(rows: seq<Comment>)
    requires UniqueIds(rows)
    ensures Distinct(rows)
  {
  }

  /** The row with the given id, if there is one. */
  function Find(rows: seq<Comment>, id: int): (r: Option<Comment>)
    ensures r.Some? ==> r.value in rows && r.value.id == id
    ensures r.None? ==> forall x :: x in rows ==> x.id != id
  {
    if rows == [] then None
    else if rows[0].id == id then Some(rows[0])
    else Find(rows[1..], id)
  }

  lemma FindRow(rows: seq<Comment>, x: Comment)
    requires UniqueIds(rows) && x in rows
    ensures Find(rows, x.id) == Some(x)
  {
    var y := Find(rows, x.id).value;
    var i :| 0 <= i < |rows| && rows[i] == x;
    var j :| 0 <= j < |rows| && rows[j] == y;
    assert i == j;
  }

  /** The row a row replies to, when its parent id names a row of the input. */
  function ParentRow(rows: seq<Comment>, x: Comment): Option<Comment> {
    match x.parentId
    case None => None
    case Some(p) => Find(rows, p)
  }

  /** The n-th ancestor of x: follow the parent id n times. */
  function Up(rows: seq<Comment>, x: Comment, n: nat): (r: Option<Comment>)
    ensures n > 0 && r.Some? ==> r.value in rows
    decreases n
  {
    if n == 0 then Some(x)
    else match ParentRow(rows, x)
      case None => None
      case Some(p) => Up(rows, p, n - 1)
  }

  /** x is a row whose d-th ancestor is a top-level comment. */
  predicate RootedAt(rows: seq<Comment>, x: Comment, d: nat) {
    x in rows && Up(rows, x, d).Some? && Up(rows, x, d).value.parentId.None?
  }

  /** Following parent ids from x reaches a top-level comment. */
  ghost predicate Rooted(rows: seq<Comment>, x: Comment) {
    exists d: nat :: RootedAt(rows, x, d)
  }

  /** The top-level rows, in input order. */
  function RootRows(rows: seq<Comment>): (r: seq<Comment>)
    ensures |r| <= |rows|
  {
    if rows == [] then []
    else
      var last := rows[|rows| - 1];
      RootRows(rows[..|rows| - 1]) + (if last.parentId.None? then [last] else [])
  }

  /** The rows replying to the comment with id `pid`, in input order. */
  function ChildRows(rows: seq<Comment>, pid: int): (r: seq<Comment>)
    ensures |r| <= |rows|
  {
    if rows == [] then []
    else
      var last := rows[|rows| - 1];
      ChildRows(rows[..|rows| - 1], pid) + (if last.parentId == Some(pid) then [last] else [])
  }

  /** The top-level rows are exactly the rows without a parent id. */
  lemma {:induction false} RootRowsIn(rows: seq<Comment>, x: Comment)
    ensures x in RootRows(rows) <==> x in rows && x.parentId.None?
  {
    if rows != [] {
      var init := rows[..|rows| - 1];
      RootRowsIn(init, x);
      assert rows == init + [rows[|rows| - 1]];
    }
  }

  /** The replies to `pid` are exactly the rows whose parent id is `pid`. */
  lemma {:induction false} ChildRowsIn(rows: seq<Comment>, pid: int, x: Comment)
    ensures x in ChildRows(rows, pid) <==> x in rows && x.parentId == Some(pid)
  {
    if rows != [] {
      var init := rows[..|rows| - 1];
      ChildRowsIn(init, pid, x);
      assert rows == init + [rows[|rows| - 1]];
    }
  }

  // ---------------------------------------------------------------------------
  // Ancestor chains

  lemma {:induction false} UpAdd(rows: seq<Comment>, x: Comment, a: nat, b: nat)
    ensures Up(rows, x, a + b) == match Up(rows, x, a) case None => None case Some(y) => Up(rows, y, b)
    decreases a
  {
    if a > 0 {
      match ParentRow(rows, x)
      case None =>
      case Some(p) => UpAdd(rows, p, a - 1, b);
    }
  }

  lemma UpDefinedBelow(rows: seq<Comment>, x: Comment, i: nat, d: nat)
    requires i <= d && Up(rows, x, d).Some?
    ensures Up(rows, x, i).Some?
  {
    UpAdd(rows, x, i, d - i);
  }

  /** A row that reaches a root is not its own proper ancestor. */
  lemma {:induction false} RootedNotCyclic(rows: seq<Comment>, x: Comment, d: nat, m: nat)
    requires RootedAt(rows, x, d) && m > 0
    ensures Up(rows, x, m) != Some(x)
    decreases d
  {
    if d < m {
      UpAdd(rows, x, d, m - d);
    } else {
      UpAdd(rows, x, m, d - m);
      if Up(rows, x, m) == Some(x) {
        RootedNotCyclic(rows, x, d - m, m);
        assert false;
      }
    }
  }

  /** The ancestors of a rooted row are pairwise different. */
  lemma AncestorsDistinct(rows: seq<Comment>, x: Comment, d: nat, i: nat, j: nat)
    requires RootedAt(rows, x, d) && i < j <= d
    ensures Up(rows, x, i).Some? && Up(rows, x, j).Some?
    ensures Up(rows, x, i) != Up(rows, x, j)
  {
    UpDefinedBelow(rows, x, i, d);
    UpDefinedBelow(rows, x, j, d);
    var y := Up(rows, x, i).value;
    UpAdd(rows, x, i, j - i);
    UpAdd(rows, x, i, d - i);
    assert RootedAt(rows, y, d - i);
    RootedNotCyclic(rows, y, d - i, j - i);
  }

  /** A row at distance d from its root has d distinct ancestors, so d < |rows|. */
  lemma ChainBound(rows: seq<Comment>, x: Comment, d: nat)
    requires RootedAt(rows, x, d)
    ensures d < |rows|
  {
    var chain := seq(d + 1, i requires 0 <= i <= d => (UpDefinedBelow(rows, x, i, d); Up(rows, x, i).value));
    forall i, j | 0 <= i < j < |chain| ensures chain[i] != chain[j] {
      AncestorsDistinct(rows, x, d, i, j);
    }
    forall y | y in chain ensures y in rows {
      var i :| 0 <= i < |chain| && chain[i] == y;
      UpDefinedBelow(rows, x, i, d);
      if i == 0 { assert y == x; }
    }
    DistinctBound(chain, rows);
  }

  lemma ChildRootedAt(rows: seq<Comment>, x: Comment, d: nat, c: Comment)
    requires UniqueIds(rows) && RootedAt(rows, x, d) && c in ChildRows(rows, x.id)
    ensures ParentRow(rows, c) == Some(x)
    ensures RootedAt(rows, c, d + 1)
    ensures d + 1 < |rows|
  {
    ChildRowsIn(rows, x.id, c);
    FindRow(rows, x);
    assert Up(rows, c, 1) == Some(x);
    UpAdd(rows, c, 1, d);
    ChainBound(rows, c, d + 1);
  }

  // ---------------------------------------------------------------------------
  // The nested output

  /** The replies of a rooted row are rooted one step further away. */
  lemma ChildrenRooted(rows: seq<Comment>, x: Comment, d: nat)
    requires UniqueIds(rows) && RootedAt(rows, x, d)
    ensures d + 1 <= |rows|
    ensures forall c :: c in ChildRows(rows, x.id) ==> RootedAt(rows, c, d + 1)
  {
    ChainBound(rows, x, d);
    forall c | c in ChildRows(rows, x.id) ensures RootedAt(rows, c, d + 1) {
      ChildRootedAt(rows, x, d, c);
    }
  }

  /** The node of a rooted row with all its replies nested below it. */
  function Subtree(rows: seq<Comment>, x: Comment, d: nat): (t: Node)
    requires UniqueIds(rows) && RootedAt(rows, x, d)
    ensures t.comment == x && |t.children| == |ChildRows(rows, x.id)|
    decreases |rows| - d, 0, 0
  {
    ChildrenRooted(rows, x, d);
    Node(x, Subtrees(rows, ChildRows(rows, x.id), d + 1))
  }

  /** The nodes of the rows `cs`, all rooted at the same distance, in order. */
  function Subtrees(rows: seq<Comment>, cs: seq<Comment>, e: nat): (ts: seq<Node>)
    requires UniqueIds(rows) && e <= |rows|
    requires forall c :: c in cs ==> RootedAt(rows, c, e)
    ensures |ts| == |cs|
    decreases |rows| - e, 1, |cs|
  {
    if cs == [] then [] else [Subtree(rows, cs[0], e)] + Subtrees(rows, cs[1..], e)
  }

  lemma {:induction false} SubtreesIndex(rows: seq<Comment>, cs: seq<Comment>, e: nat)
    requires UniqueIds(rows) && e <= |rows|
    requires forall c :: c in cs ==> RootedAt(rows, c, e)
    ensures |Subtrees(rows, cs, e)| == |cs|
    ensures forall i :: 0 <= i < |cs| ==> Subtrees(rows, cs, e)[i] == Subtree(rows, cs[i], e)
  {
    if cs != [] {
      SubtreesIndex(rows, cs[1..], e);
    }
  }

  lemma SubtreeShape(rows: seq<Comment>, x: Comment, d: nat)
    requires UniqueIds(rows) && RootedAt(rows, x, d)
    ensures Subtree(rows, x, d).comment == x
    ensures |Subtree(rows, x, d).children| == |ChildRows(rows, x.id)|
  {
    ChildrenRooted(rows, x, d);
    SubtreesIndex(rows, ChildRows(rows, x.id), d + 1);
  }

  /** The i-th child of the node of x is the node of x's i-th reply. */
  lemma SubtreeChild(rows: seq<Comment>, x: Comment, d: nat, i: nat)
    requires UniqueIds(rows) && RootedAt(rows, x, d)
    requires i < |ChildRows(rows, x.id)|
    ensures RootedAt(rows, ChildRows(rows, x.id)[i], d + 1)
    ensures i < |Subtree(rows, x, d).children|
    ensures Subtree(rows, x, d).children[i] == Subtree(rows, ChildRows(rows, x.id)[i], d + 1)
  {
    ChildrenRooted(rows, x, d);
    SubtreesIndex(rows, ChildRows(rows, x.id), d + 1);
  }

  /** The forest buildNestedComments returns: one tree per top-level row, in input order. */
  function Nest(rows: seq<Comment>): (f: seq<Node>)
    requires UniqueIds(rows)
    ensures |f| == |RootRows(rows)|
  {
    RootsRooted(rows);
    Subtrees(rows, RootRows(rows), 0)
  }

  lemma RootsRooted(rows: seq<Comment>)
    ensures forall c :: c in RootRows(rows) ==> RootedAt(rows, c, 0)
  {
    forall c | c in RootRows(rows) ensures RootedAt(rows, c, 0) {
      RootRowsIn(rows, c);
    }
  }

  lemma NestShape(rows: seq<Comment>)
    requires UniqueIds(rows)
    ensures |Nest(rows)| == |RootRows(rows)|
  {
    RootsRooted(rows);
    SubtreesIndex(rows, RootRows(rows), 0);
  }

  /** The i-th tree of the output is the node of the i-th top-level row. */
  lemma NestTree(rows: seq<Comment>, i: nat)
    requires UniqueIds(rows) && i < |RootRows(rows)|
    ensures RootedAt(rows, RootRows(rows)[i], 0)
    ensures i < |Nest(rows)|
    ensures Nest(rows)[i] == Subtree(rows, RootRows(rows)[i], 0)
  {
    RootsRooted(rows);
    SubtreesIndex(rows, RootRows(rows), 0);
  }

  /** The rows of a tree in pre-order: the node, then each child's subtree in turn. */
  function Flat(t: Node): seq<Comment> {
    [t.comment] + FlatAll(t.children)
  }

  function FlatAll(ts: seq<Node>): seq<Comment> {
    if ts == [] then [] else Flat(ts[0]) + FlatAll(ts[1..])
  }

  /** The number of nodes in a forest, each counted once. */
  function NodeCount(ts: seq<Node>): nat {
    |FlatAll(ts)|
  }

  lemma {:induction false} FlatAllIn(ts: seq<Node>, y: Comment)
    ensures y in FlatAll(ts) <==> exists i :: 0 <= i < |ts| && y in Flat(ts[i])
  {
    if ts != [] {
      FlatAllIn(ts[1..], y);
      if y in FlatAll(ts[1..]) {
        var i :| 0 <= i < |ts[1..]| && y in Flat(ts[1..][i]);
        assert y in Flat(ts[i + 1]);
      }
      if exists i :: 0 <= i < |ts| && y in Flat(ts[i]) {
        var i :| 0 <= i < |ts| && y in Flat(ts[i]);
        if i > 0 { assert ts[1..][i - 1] == ts[i]; }
      }
    }
  }

  lemma {:induction false} FlatAllAppend(ts: seq<Node>, t: Node)
    ensures FlatAll(ts + [t]) == FlatAll(ts) + Flat(t)
  {
    if ts == [] {
      assert [t][1..] == [];
    } else {
      assert (ts + [t])[1..] == ts[1..] + [t];
      FlatAllAppend(ts[1..], t);
    }
  }

  /** A row is in a tree when it is the root or in one of the children's trees. */
  lemma FlatIn(t: Node, y: Comment)
    ensures y in Flat(t) <==> y == t.comment || exists i :: 0 <= i < |t.children| && y in Flat(t.children[i])
  {
    FlatAllIn(t.children, y);
  }

  /** Every row in the subtree of x is x or a descendant of x: it reaches x after k steps. */
  lemma {:induction false} SubtreeDescends(rows: seq<Comment>, x: Comment, d: nat, y: Comment) returns (k: nat)
    requires UniqueIds(rows) && RootedAt(rows, x, d)
    requires y in Flat(Subtree(rows, x, d))
    ensures y in rows && Up(rows, y, k) == Some(x)
    decreases |rows| - d, 0, 0
  {
    ChildrenRooted(rows, x, d);
    if y == x {
      k := 0;
    } else {
      var c, k' := SubtreesDescend(rows, ChildRows(rows, x.id), d + 1, y);
      ChildRootedAt(rows, x, d, c);
      UpAdd(rows, y, k', 1);
      k := k' + 1;
    }
  }

  /** A row in the trees of the rows `cs` descends from one of them. */
  lemma {:induction false} SubtreesDescend(rows: seq<Comment>, cs: seq<Comment>, e: nat, y: Comment) returns (c: Comment, k: nat)
    requires UniqueIds(rows) && e <= |rows|
    requires forall c :: c in cs ==> RootedAt(rows, c, e)
    requires y in FlatAll(Subtrees(rows, cs, e))
    ensures c in cs && y in rows && Up(rows, y, k) == Some(c)
    decreases |rows| - e, 1, |cs|
  {
    var ts := Subtrees(rows, cs, e);
    assert ts[0] == Subtree(rows, cs[0], e) && ts[1..] == Subtrees(rows, cs[1..], e);
    if y in Flat(Subtree(rows, cs[0], e)) {
      c := cs[0];
      k := SubtreeDescends(rows, c, e, y);
    } else {
      c, k := SubtreesDescend(rows, cs[1..], e, y);
    }
  }

  /** Conversely every descendant of x is in the subtree of x. */
  lemma {:induction false} SubtreeContains(rows: seq<Comment>, x: Comment, d: nat, y: Comment, k: nat)
    requires UniqueIds(rows) && RootedAt(rows, x, d)
    requires y in rows && Up(rows, y, k) == Some(x)
    ensures y in Flat(Subtree(rows, x, d))
    decreases k
  {
    var t := Subtree(rows, x, d);
    if k > 0 {
      var i := ChildOnPath(rows, x, d, y, k);
      SubtreeContains(rows, ChildRows(rows, x.id)[i], d + 1, y, k - 1);
      FlatIn(t, y);
    } else {
      SubtreeShape(rows, x, d);
      assert Flat(t)[0] == x;
    }
  }

  /** A row k > 0 steps below x lies k - 1 steps below one of x's replies, whose node is a child of x's node. */
  lemma ChildOnPath(rows: seq<Comment>, x: Comment, d: nat, y: Comment, k: nat) returns (i: nat)
    requires UniqueIds(rows) && RootedAt(rows, x, d)
    requires y in rows && k > 0 && Up(rows, y, k) == Some(x)
    ensures i < |ChildRows(rows, x.id)|
    ensures RootedAt(rows, ChildRows(rows, x.id)[i], d + 1)
    ensures Up(rows, y, k - 1) == Some(ChildRows(rows, x.id)[i])
    ensures i < |Subtree(rows, x, d).children|
    ensures Subtree(rows, x, d).children[i] == Subtree(rows, ChildRows(rows, x.id)[i], d + 1)
  {
    UpAdd(rows, y, k - 1, 1);
    var z := Up(rows, y, k - 1).value;
    assert ParentRow(rows, z) == Some(x);
    FindRow(rows, x);
    var kids := ChildRows(rows, x.id);
    ChildRowsIn(rows, x.id, z);
    i :| 0 <= i < |kids| && kids[i] == z;
    SubtreeChild(rows, x, d, i);
  }

  /** Two different replies to the same rooted comment have no descendant in common. */
  lemma SiblingsDisjoint(rows: seq<Comment>, p: Comment, dp: nat, c1: Comment, c2: Comment,
                         y: Comment, k1: nat, k2: nat)
    requires RootedAt(rows, p, dp)
    requires ParentRow(rows, c1) == Some(p) && ParentRow(rows, c2) == Some(p)
    requires Up(rows, y, k1) == Some(c1) && Up(rows, y, k2) == Some(c2)
    ensures c1 == c2
  {
    if k1 < k2 {
      SiblingsApart(rows, p, dp, c1, c2, y, k1, k2);
      RootedNotCyclic(rows, p, dp, k2 - k1);
      assert false;
    } else if k2 < k1 {
      SiblingsApart(rows, p, dp, c2, c1, y, k2, k1);
      RootedNotCyclic(rows, p, dp, k1 - k2);
      assert false;
    }
  }

  /** Were one sibling an ancestor of the other, their common parent would be its own ancestor. */
  lemma SiblingsApart(rows: seq<Comment>, p: Comment, dp: nat, c1: Comment, c2: Comment,
                      y: Comment, k1: nat, k2: nat)
    requires RootedAt(rows, p, dp)
    requires ParentRow(rows, c1) == Some(p) && ParentRow(rows, c2) == Some(p)
    requires Up(rows, y, k1) == Some(c1) && Up(rows, y, k2) == Some(c2)
    requires k1 < k2
    ensures Up(rows, p, k2 - k1) == Some(p)
  {
    UpAdd(rows, y, k1, k2 - k1);
    UpAdd(rows, c1, k2 - k1, 1);
    UpAdd(rows, c1, 1, k2 - k1);
  }

  /** Two different top-level comments have no descendant in common. */
  lemma RootsDisjoint(rows: seq<Comment>, r1: Comment, r2: Comment, y: Comment, k1: nat, k2: nat)
    requires r1.parentId.None? && r2.parentId.None?
    requires Up(rows, y, k1) == Some(r1) && Up(rows, y, k2) == Some(r2)
    ensures r1 == r2
  {
    if k1 < k2 {
      UpAdd(rows, y, k1, k2 - k1);
    } else if k2 < k1 {
      UpAdd(rows, y, k2, k1 - k2);
    }
  }

  /** No row occurs twice in a subtree. */
  lemma {:induction false} SubtreeDistinct(rows: seq<Comment>, x: Comment, d: nat)
    requires UniqueIds(rows) && RootedAt(rows, x, d)
    ensures Distinct(Flat(Subtree(rows, x, d)))
    decreases |rows| - d, 3
  {
    var t := Subtree(rows, x, d);
    SubtreeShape(rows, x, d);
    ChildrenDistinct(rows, x, d);
    forall i | 0 <= i < |t.children| ensures x !in Flat(t.children[i]) {
      NotBelowItself(rows, x, d, i);
    }
    FlatAllIn(t.children, x);
    DistinctConcat([x], FlatAll(t.children));
  }

  /** The trees of the replies to x, flattened together, hold no row twice. */
  lemma {:induction false} ChildrenDistinct(rows: seq<Comment>, x: Comment, d: nat)
    requires UniqueIds(rows) && RootedAt(rows, x, d)
    ensures Distinct(FlatAll(Subtree(rows, x, d).children))
    decreases |rows| - d, 2
  {
    ChildTreesDistinct(rows, x, d);
    ChildTreesApart(rows, x, d);
    ForestDistinct(Subtree(rows, x, d).children);
  }

  /** The tree of each reply to x holds no row twice. */
  lemma {:induction false} ChildTreesDistinct(rows: seq<Comment>, x: Comment, d: nat)
    requires UniqueIds(rows) && RootedAt(rows, x, d)
    ensures forall i :: 0 <= i < |Subtree(rows, x, d).children| ==> Distinct(Flat(Subtree(rows, x, d).children[i]))
    decreases |rows| - d, 1
  {
    forall i | 0 <= i < |Subtree(rows, x, d).children| ensures Distinct(Flat(Subtree(rows, x, d).children[i])) {
      ChildTreeDistinct(rows, x, d, i);
    }
  }

  lemma {:induction false} ChildTreeDistinct(rows: seq<Comment>, x: Comment, d: nat, i: nat)
    requires UniqueIds(rows) && RootedAt(rows, x, d)
    requires i < |Subtree(rows, x, d).children|
    ensures Distinct(Flat(Subtree(rows, x, d).children[i]))
    decreases |rows| - d, 0
  {
    SubtreeShape(rows, x, d);
    var c := ChildRows(rows, x.id)[i];
    SubtreeChild(rows, x, d, i);
    ChildRootedAt(rows, x, d, c);
    SubtreeDistinct(rows, c, d + 1);
  }

  /** No row is in the trees of two different replies to x. */
  lemma ChildTreesApart(rows: seq<Comment>, x: Comment, d: nat)
    requires UniqueIds(rows) && RootedAt(rows, x, d)
    ensures forall i, j, y :: 0 <= i < j < |Subtree(rows, x, d).children| && y in Flat(Subtree(rows, x, d).children[i]) ==>
              y !in Flat(Subtree(rows, x, d).children[j])
  {
    var t := Subtree(rows, x, d);
    forall i, j, y | 0 <= i < j < |t.children| && y in Flat(t.children[i])
      ensures y !in Flat(t.children[j])
    {
      ChildTreesDisjoint(rows, x, d, i, j, y);
    }
  }

  /** The trees of two different replies to x share no row. */
  lemma ChildTreesDisjoint(rows: seq<Comment>, x: Comment, d: nat, i: nat, j: nat, y: Comment)
    requires UniqueIds(rows) && RootedAt(rows, x, d)
    requires i < j < |Subtree(rows, x, d).children|
    requires y in Flat(Subtree(rows, x, d).children[i])
    ensures y !in Flat(Subtree(rows, x, d).children[j])
  {
    var kids := ChildRows(rows, x.id);
    SubtreeShape(rows, x, d);
    SubtreeChild(rows, x, d, i);
    SubtreeChild(rows, x, d, j);
    ChildRowsUnique(rows, x.id);
    ChildRootedAt(rows, x, d, kids[i]);
    ChildRootedAt(rows, x, d, kids[j]);
    var k1 := SubtreeDescends(rows, kids[i], d + 1, y);
    if y in Flat(Subtree(rows, kids[j], d + 1)) {
      var k2 := SubtreeDescends(rows, kids[j], d + 1, y);
      SiblingsDisjoint(rows, x, d, kids[i], kids[j], y, k1, k2);
      assert false;
    }
  }

  /** A rooted row is not in the tree of any of its replies. */
  lemma NotBelowItself(rows: seq<Comment>, x: Comment, d: nat, i: nat)
    requires UniqueIds(rows) && RootedAt(rows, x, d)
    requires i < |Subtree(rows, x, d).children|
    ensures x !in Flat(Subtree(rows, x, d).children[i])
  {
    SubtreeShape(rows, x, d);
    SubtreeChild(rows, x, d, i);
    var c := ChildRows(rows, x.id)[i];
    ChildRootedAt(rows, x, d, c);
    if x in Flat(Subtree(rows, c, d + 1)) {
      var k := SubtreeDescends(rows, c, d + 1, x);
      UpAdd(rows, x, k, 1);
      RootedNotCyclic(rows, x, d, k + 1);
      assert false;
    }
  }

  lemma UniqueSnoc(cs: seq<Comment>, x: Comment)
    requires UniqueIds(cs)
    requires forall y :: y in cs ==> y.id != x.id
    ensures UniqueIds(cs + [x])
  {
    forall a, b | 0 <= a < b < |cs + [x]| ensures (cs + [x])[a].id != (cs + [x])[b].id {
      assert (cs + [x])[a] == cs[a];
    }
  }

  /** The replies to `pid` keep the order they have among the rows. */
  lemma {:induction false} ChildRowsOrder(rows: seq<Comment>, pid: int)
    ensures IsSubsequence(ChildRows(rows, pid), rows)
  {
    if rows != [] {
      var init := rows[..|rows| - 1];
      var last := rows[|rows| - 1];
      ChildRowsOrder(init, pid);
      var r := ChildRows(rows, pid);
      if last.parentId == Some(pid) {
        assert r[..|r| - 1] == ChildRows(init, pid);
      } else {
        assert ChildRows(rows, pid) == ChildRows(init, pid);
        SubsequenceExtend(ChildRows(init, pid), init, last);
      }
    }
  }

  /** The rows that reply to `pid` carry distinct ids when all rows do. */
  lemma {:induction false} ChildRowsIds(rows: seq<Comment>, pid: int)
    requires UniqueIds(rows)
    ensures UniqueIds(ChildRows(rows, pid))
  {
    if rows != [] {
      var init := rows[..|rows| - 1];
      var last := rows[|rows| - 1];
      assert UniqueIds(init);
      ChildRowsIds(init, pid);
      if last.parentId == Some(pid) {
        forall y | y in ChildRows(init, pid) ensures y.id != last.id {
          ChildRowsIn(init, pid, y);
          var k :| 0 <= k < |init| && init[k] == y;
          assert rows[k] == y;
        }
        UniqueSnoc(ChildRows(init, pid), last);
      }
    }
  }

  lemma ChildRowsUnique(rows: seq<Comment>, pid: int)
    requires UniqueIds(rows)
    ensures UniqueIds(ChildRows(rows, pid))
    ensures Distinct(ChildRows(rows, pid))
    ensures IsSubsequence(ChildRows(rows, pid), rows)
  {
    ChildRowsIds(rows, pid);
    UniqueIdsDistinct(ChildRows(rows, pid));
    ChildRowsOrder(rows, pid);
  }

  /** The top-level rows keep the order they have among the rows. */
  lemma {:induction false} RootRowsOrder(rows: seq<Comment>)
    ensures IsSubsequence(RootRows(rows), rows)
  {
    if rows != [] {
      var init := rows[..|rows| - 1];
      var last := rows[|rows| - 1];
      RootRowsOrder(init);
      var r := RootRows(rows);
      if last.parentId.None? {
        assert r[..|r| - 1] == RootRows(init);
      } else {
        assert RootRows(rows) == RootRows(init);
        SubsequenceExtend(RootRows(init), init, last);
      }
    }
  }

  /** The top-level rows carry distinct ids when all rows do. */
  lemma {:induction false} RootRowsIds(rows: seq<Comment>)
    requires UniqueIds(rows)
    ensures UniqueIds(RootRows(rows))
  {
    if rows != [] {
      var init := rows[..|rows| - 1];
      var last := rows[|rows| - 1];
      assert UniqueIds(init);
      RootRowsIds(init);
      if last.parentId.None? {
        forall y | y in RootRows(init) ensures y.id != last.id {
          RootRowsIn(init, y);
          var k :| 0 <= k < |init| && init[k] == y;
          assert rows[k] == y;
        }
        UniqueSnoc(RootRows(init), last);
      }
    }
  }

  lemma RootRowsUnique(rows: seq<Comment>)
    requires UniqueIds(rows)
    ensures UniqueIds(RootRows(rows))
    ensures Distinct(RootRows(rows))
    ensures IsSubsequence(RootRows(rows), rows)
  {
    RootRowsIds(rows);
    UniqueIdsDistinct(RootRows(rows));
    RootRowsOrder(rows);
  }

  /** Trees that are each duplicate-free and pairwise disjoint flatten without duplicates. */
  lemma {:induction false} ForestDistinct(ts: seq<Node>)
    requires forall i :: 0 <= i < |ts| ==> Distinct(Flat(ts[i]))
    requires forall i, j, y :: 0 <= i < j < |ts| && y in Flat(ts[i]) ==> y !in Flat(ts[j])
    ensures Distinct(FlatAll(ts))
  {
    if ts != [] {
      ForestDistinct(ts[1..]);
      forall y | y in Flat(ts[0]) ensures y !in FlatAll(ts[1..]) {
        FlatAllIn(ts[1..], y);
      }
      DistinctConcat(Flat(ts[0]), FlatAll(ts[1..]));
    }
  }

  // ---------------------------------------------------------------------------
  // Properties of the nested output

  /** No row occurs twice in the output. */
  lemma NestDistinct(rows: seq<Comment>)
    requires UniqueIds(rows)
    ensures Distinct(FlatAll(Nest(rows)))
  {
    var f := Nest(rows);
    var roots := RootRows(rows);
    NestShape(rows);
    RootRowsUnique(rows);
    forall i | 0 <= i < |f| ensures Distinct(Flat(f[i])) {
      NestTree(rows, i);
      SubtreeDistinct(rows, roots[i], 0);
    }
    forall i, j, y | 0 <= i < j < |f| && y in Flat(f[i]) ensures y !in Flat(f[j]) {
      NestTree(rows, i);
      NestTree(rows, j);
      var k1 := SubtreeDescends(rows, roots[i], 0, y);
      if y in Flat(f[j]) {
        var k2 := SubtreeDescends(rows, roots[j], 0, y);
        RootsDisjoint(rows, roots[i], roots[j], y, k1, k2);
        assert false;
      }
    }
    ForestDistinct(f);
  }

  /** The output holds exactly the rows that reach a top-level comment by parent ids. */
  lemma NestMembers(rows: seq<Comment>, y: Comment)
    requires UniqueIds(rows)
    ensures y in FlatAll(Nest(rows)) <==> y in rows && Rooted(rows, y)
  {
    var f := Nest(rows);
    var roots := RootRows(rows);
    NestShape(rows);
    FlatAllIn(f, y);
    if y in FlatAll(f) {
      var i :| 0 <= i < |f| && y in Flat(f[i]);
      NestTree(rows, i);
      var k := SubtreeDescends(rows, roots[i], 0, y);
      assert RootedAt(rows, y, k);
    }
    if y in rows && Rooted(rows, y) {
      var d: nat :| RootedAt(rows, y, d);
      var r := Up(rows, y, d).value;
      RootRowsIn(rows, r);
      var i :| 0 <= i < |roots| && roots[i] == r;
      NestTree(rows, i);
      SubtreeContains(rows, r, 0, y, d);
      assert y in Flat(f[i]);
    }
  }

  /** The number of nodes in the output is the number of rows that reach a root. */
  lemma NestCount(rows: seq<Comment>)
    requires UniqueIds(rows)
    ensures NodeCount(Nest(rows)) == |set y | y in rows && Rooted(rows, y)|
    ensures NodeCount(Nest(rows)) <= |rows|
  {
    var flat := FlatAll(Nest(rows));
    NestDistinct(rows);
    ElementsCard(flat);
    forall y ensures y in Elements(flat) <==> y in rows && Rooted(rows, y) {
      NestMembers(rows, y);
    }
    assert Elements(flat) == set y | y in rows && Rooted(rows, y);
    ElementsCard(rows);
    SubsetCard(Elements(flat), Elements(rows));
  }

  /** A reply whose parent id names no row of the input is not in the output. */
  lemma OrphanDropped(rows: seq<Comment>, x: Comment)
    requires UniqueIds(rows)
    requires x.parentId.Some? && Find(rows, x.parentId.value).None?
    ensures x !in FlatAll(Nest(rows))
  {
    forall d: nat ensures !RootedAt(rows, x, d) {
    }
    NestMembers(rows, x);
  }

  /** A row that is its own ancestor (a parent-id cycle) is not in the output. */
  lemma CycleDropped(rows: seq<Comment>, x: Comment, m: nat)
    requires UniqueIds(rows)
    requires m > 0 && Up(rows, x, m) == Some(x)
    ensures x !in FlatAll(Nest(rows))
  {
    forall d: nat | RootedAt(rows, x, d) ensures false {
      RootedNotCyclic(rows, x, d, m);
    }
    NestMembers(rows, x);
  }

  /** When every row reaches a root, the output has one node per row. */
  lemma NestCountAllRooted(rows: seq<Comment>)
    requires UniqueIds(rows)
    requires forall y :: y in rows ==> Rooted(rows, y)
    ensures NodeCount(Nest(rows)) == |rows|
  {
    NestCount(rows);
    assert (set y | y in rows && Rooted(rows, y)) == Elements(rows);
    UniqueIdsDistinct(rows);
    ElementsCard(rows);
  }

  /** The rows at the top of a list of trees, in order. */
  function Heads(ts: seq<Node>): (r: seq<Comment>)
    ensures |r| == |ts|
    ensures forall i :: 0 <= i < |ts| ==> r[i] == ts[i].comment
  {
    if ts == [] then [] else [ts[0].comment] + Heads(ts[1..])
  }

  /** The trees of the output are headed by the top-level rows, in input order. */
  lemma NestHeads(rows: seq<Comment>)
    requires UniqueIds(rows)
    ensures Heads(Nest(rows)) == RootRows(rows)
  {
    NestShape(rows);
    forall i | 0 <= i < |RootRows(rows)| ensures Heads(Nest(rows))[i] == RootRows(rows)[i] {
      NestTree(rows, i);
      SubtreeShape(rows, RootRows(rows)[i], 0);
    }
  }

  /** The children of a node are headed by the replies to its row, in input order. */
  lemma SubtreeHeads(rows: seq<Comment>, x: Comment, d: nat)
    requires UniqueIds(rows) && RootedAt(rows, x, d)
    ensures Heads(Subtree(rows, x, d).children) == ChildRows(rows, x.id)
  {
    SubtreeShape(rows, x, d);
    var kids := ChildRows(rows, x.id);
    forall i | 0 <= i < |kids| ensures Heads(Subtree(rows, x, d).children)[i] == kids[i] {
      SubtreeChild(rows, x, d, i);
      SubtreeShape(rows, kids[i], d + 1);
    }
  }

  /**
   * Every top-level row heads exactly one tree of the output, and the trees keep the
   * order of the rows.
   */
  lemma RootsOnceInOrder(rows: seq<Comment>, x: Comment)
    requires UniqueIds(rows) && x in rows && x.parentId.None?
    ensures multiset(Heads(Nest(rows)))[x] == 1
    ensures IsSubsequence(Heads(Nest(rows)), rows)
  {
    NestHeads(rows);
    RootRowsUnique(rows);
    RootRowsIn(rows, x);
    DistinctOnce(RootRows(rows), x);
  }

  /**
   * Below a node of the output, every reply to its row heads exactly one child, and
   * the children keep the order of the rows.
   */
  lemma RepliesOnceInOrder(rows: seq<Comment>, x: Comment, d: nat, c: Comment)
    requires UniqueIds(rows) && RootedAt(rows, x, d)
    requires c in rows && c.parentId == Some(x.id)
    ensures multiset(Heads(Subtree(rows, x, d).children))[c] == 1
    ensures IsSubsequence(Heads(Subtree(rows, x, d).children), rows)
  {
    SubtreeHeads(rows, x, d);
    ChildRowsUnique(rows, x.id);
    ChildRowsIn(rows, x.id, c);
    DistinctOnce(ChildRows(rows, x.id), c);
  }

  // ---------------------------------------------------------------------------
  // The map-based construction and its serialisation

  /** The ids of a list of rows, in order. */
  function Ids(cs: seq<Comment>): (r: seq<int>)
    ensures |r| == |cs|
    ensures forall i :: 0 <= i < |cs| ==> r[i] == cs[i].id
  {
    if cs == [] then [] else Ids(cs[..|cs| - 1]) + [cs[|cs| - 1].id]
  }

  /**
   * One value of the id-indexed map buildNestedComments fills: the row's fields and
   * the ids of the entries appended to its "children" list. Go shares the inner maps
   * by reference; an id stands for such a reference.
   */
  datatype Entry = Entry(comment: Comment, children: seq<int>)

  /**
   * buildNestedComments: a first pass puts an entry with no children in the map for
   * every row; a second pass appends each top-level row to the roots and every other
   * row to the children of its parent's entry, when that entry exists.
   */
  method BuildNested(rows: seq<Comment>) returns (roots: seq<int>, nodes: map<int, Entry>)
    requires UniqueIds(rows)
    ensures roots == Ids(RootRows(rows))
    ensures nodes.Keys == set x | x in rows :: x.id
    ensures forall x :: x in rows ==> nodes[x.id] == Entry(x, Ids(ChildRows(rows, x.id)))
  {
    nodes := IndexRows(rows);
    roots, nodes := LinkRows(rows, nodes);
    assert rows[..|rows|] == rows;
    forall x | x in rows ensures nodes[x.id] == Entry(x, Ids(ChildRows(rows, x.id))) {
      FindRow(rows, x);
    }
  }

  /** The first pass: an entry without children for every row, under the row's id. */
  method IndexRows(rows: seq<Comment>) returns (nodes: map<int, Entry>)
    requires UniqueIds(rows)
    ensures nodes.Keys == set x | x in rows :: x.id
    ensures Linked(rows, 0, nodes)
  {
    nodes := map[];
    var i := 0;
    while i < |rows|
      invariant 0 <= i <= |rows|
      invariant nodes.Keys == set x | x in rows[..i] :: x.id
      invariant Linked(rows, 0, nodes)
    {
      FindRow(rows, rows[i]);
      assert rows[..i + 1] == rows[..i] + [rows[i]];
      nodes := nodes[rows[i].id := Entry(rows[i], [])];
      i := i + 1;
    }
    assert rows[..i] == rows;
  }

  /** The second pass: link every row into the roots or under its parent's entry. */
  method LinkRows(rows: seq<Comment>, nodes0: map<int, Entry>) returns (roots: seq<int>, nodes: map<int, Entry>)
    requires Linked(rows, 0, nodes0)
    ensures roots == Ids(RootRows(rows))
    ensures nodes.Keys == nodes0.Keys
    ensures Linked(rows, |rows|, nodes)
  {
    nodes := nodes0;
    roots := [];
    var i := 0;
    while i < |rows|
      invariant 0 <= i <= |rows|
      invariant roots == Ids(RootRows(rows[..i]))
      invariant nodes.Keys == nodes0.Keys
      invariant Linked(rows, i, nodes)
    {
      roots, nodes := LinkRow(rows, i, roots, nodes);
      i := i + 1;
    }
    assert rows[..i] == rows;
  }

  /** One step of the second pass: row i joins the roots, its parent's replies, or neither when the parent is unknown. */
  method LinkRow(rows: seq<Comment>, i: nat, roots0: seq<int>, nodes0: map<int, Entry>) returns (roots: seq<int>, nodes: map<int, Entry>)
    requires i < |rows| && roots0 == Ids(RootRows(rows[..i])) && Linked(rows, i, nodes0)
    ensures roots == Ids(RootRows(rows[..i + 1]))
    ensures nodes.Keys == nodes0.Keys
    ensures Linked(rows, i + 1, nodes)
  {
    var c := rows[i];
    RootRowsStep(rows, i);
    roots, nodes := roots0, nodes0;
    if c.parentId.None? {
      IdsSnoc(RootRows(rows[..i]), [c]);
      roots := roots + [c.id];
      LinkedSkip(rows, i, nodes);
    } else if c.parentId.value in nodes {
      var pid := c.parentId.value;
      var parent := nodes[pid];
      LinkedAppend(rows, i, nodes);
      nodes := nodes[pid := parent.(children := parent.children + [c.id])];
    } else {
      LinkedSkip(rows, i, nodes);
    }
  }

  /**
   * The map after linking the first n rows: every entry holds its row and the ids of
   * the replies to it among those rows, in order.
   */
  predicate Linked(rows: seq<Comment>, n: nat, nodes: map<int, Entry>)
    requires n <= |rows|
  {
    forall id :: id in nodes ==>
      Find(rows, id).Some? && nodes[id] == Entry(Find(rows, id).value, Ids(ChildRows(rows[..n], id)))
  }

  lemma LinkedSkip(rows: seq<Comment>, i: nat, nodes: map<int, Entry>)
    requires i < |rows| && Linked(rows, i, nodes)
    requires rows[i].parentId.None? || rows[i].parentId.value !in nodes
    ensures Linked(rows, i + 1, nodes)
  {
    forall id | id in nodes ensures ChildRows(rows[..i + 1], id) == ChildRows(rows[..i], id) {
      ChildRowsStep(rows, i, id);
    }
  }

  lemma LinkedAppend(rows: seq<Comment>, i: nat, nodes: map<int, Entry>)
    requires i < |rows| && Linked(rows, i, nodes)
    requires rows[i].parentId.Some? && rows[i].parentId.value in nodes
    ensures var pid := rows[i].parentId.value;
      Linked(rows, i + 1, nodes[pid := nodes[pid].(children := nodes[pid].children + [rows[i].id])])
  {
    var pid := rows[i].parentId.value;
    IdsSnoc(ChildRows(rows[..i], pid), [rows[i]]);
    forall id | id in nodes
      ensures ChildRows(rows[..i + 1], id) ==
                ChildRows(rows[..i], id) + (if id == pid then [rows[i]] else [])
    {
      ChildRowsStep(rows, i, id);
    }
  }

  lemma RootRowsStep(rows: seq<Comment>, i: nat)
    requires i < |rows|
    ensures RootRows(rows[..i + 1]) == RootRows(rows[..i]) + (if rows[i].parentId.None? then [rows[i]] else [])
  {
    assert rows[..i + 1][..i] == rows[..i];
  }

  lemma ChildRowsStep(rows: seq<Comment>, i: nat, pid: int)
    requires i < |rows|
    ensures rows[i].parentId == Some(pid) ==> ChildRows(rows[..i + 1], pid) == ChildRows(rows[..i], pid) + [rows[i]]
    ensures rows[i].parentId != Some(pid) ==> ChildRows(rows[..i + 1], pid) == ChildRows(rows[..i], pid)
  {
    assert rows[..i + 1][..i] == rows[..i];
  }

  lemma IdsSnoc(cs: seq<Comment>, extra: seq<Comment>)
    ensures Ids(cs + extra) == Ids(cs) + Ids(extra)
  {
  }

  /**
   * `t` is what the JSON encoder writes when it follows the references of the map
   * from the entry of `t`'s row.
   */
  predicate Unfolds(nodes: map<int, Entry>, t: Node)
    decreases t, 1
  {
    t.comment.id in nodes && nodes[t.comment.id].comment == t.comment &&
    UnfoldsAll(nodes, t.children, nodes[t.comment.id].children)
  }

  /** `ts` is what the encoder writes for the list of references `ids`, one tree per id. */
  predicate UnfoldsAll(nodes: map<int, Entry>, ts: seq<Node>, ids: seq<int>)
    decreases ts, 0
  {
    if ts == [] then ids == []
    else ids != [] && ts[0].comment.id == ids[0] && Unfolds(nodes, ts[0]) && UnfoldsAll(nodes, ts[1..], ids[1..])
  }

  /** Following the references from one entry writes out one tree only. */
  lemma {:induction false} UnfoldsUnique(nodes: map<int, Entry>, t1: Node, t2: Node)
    requires Unfolds(nodes, t1) && Unfolds(nodes, t2) && t1.comment.id == t2.comment.id
    ensures t1 == t2
    decreases t1, 1
  {
    UnfoldsAllUnique(nodes, t1.children, t2.children, nodes[t1.comment.id].children);
  }

  lemma {:induction false} UnfoldsAllUnique(nodes: map<int, Entry>, ts1: seq<Node>, ts2: seq<Node>, ids: seq<int>)
    requires UnfoldsAll(nodes, ts1, ids) && UnfoldsAll(nodes, ts2, ids)
    ensures ts1 == ts2
    decreases ts1, 0
  {
    if ts1 != [] {
      UnfoldsUnique(nodes, ts1[0], ts2[0]);
      UnfoldsAllUnique(nodes, ts1[1..], ts2[1..], ids[1..]);
      assert ts1 == [ts1[0]] + ts1[1..] && ts2 == [ts2[0]] + ts2[1..];
    }
  }

  /** Every row has its entry, listing the ids of its replies in order. */
  predicate Indexed(rows: seq<Comment>, nodes: map<int, Entry>) {
    forall k :: 0 <= k < |rows| ==> rows[k].id in nodes && nodes[rows[k].id] == Entry(rows[k], Ids(ChildRows(rows, rows[k].id)))
  }

  lemma IndexedAt(rows: seq<Comment>, nodes: map<int, Entry>, y: Comment)
    requires Indexed(rows, nodes) && y in rows
    ensures y.id in nodes && nodes[y.id] == Entry(y, Ids(ChildRows(rows, y.id)))
  {
    var k :| 0 <= k < |rows| && rows[k] == y;
  }

  lemma IdsTail(cs: seq<Comment>)
    requires cs != []
    ensures Ids(cs)[0] == cs[0].id && Ids(cs)[1..] == Ids(cs[1..])
  {
  }

  /** The node of a rooted row is what the encoder writes from that row's entry. */
  lemma {:induction false} SubtreeUnfolds(rows: seq<Comment>, nodes: map<int, Entry>, x: Comment, d: nat)
    requires UniqueIds(rows) && RootedAt(rows, x, d)
    requires Indexed(rows, nodes)
    ensures Unfolds(nodes, Subtree(rows, x, d))
    decreases |rows| - d, 0, 0
  {
    IndexedAt(rows, nodes, x);
    ChildrenRooted(rows, x, d);
    SubtreesUnfold(rows, nodes, ChildRows(rows, x.id), d + 1);
  }

  lemma {:induction false} SubtreesUnfold(rows: seq<Comment>, nodes: map<int, Entry>, cs: seq<Comment>, e: nat)
    requires UniqueIds(rows) && e <= |rows|
    requires forall c :: c in cs ==> RootedAt(rows, c, e)
    requires Indexed(rows, nodes)
    ensures UnfoldsAll(nodes, Subtrees(rows, cs, e), Ids(cs))
    decreases |rows| - e, 1, |cs|
  {
    if cs != [] {
      SubtreeUnfolds(rows, nodes, cs[0], e);
      SubtreesUnfold(rows, nodes, cs[1..], e);
      IdsTail(cs);
      var ts := Subtrees(rows, cs, e);
      assert ts[0] == Subtree(rows, cs[0], e) && ts[1..] == Subtrees(rows, cs[1..], e);
    }
  }

  /**
   * The JSON written from the roots and the map that BuildNested returns is the
   * forest Nest describes, tree for tree.
   */
  lemma NestSerialises(rows: seq<Comment>, roots: seq<int>, nodes: map<int, Entry>)
    requires UniqueIds(rows)
    requires roots == Ids(RootRows(rows))
    requires Indexed(rows, nodes)
    ensures |Nest(rows)| == |roots|
    ensures forall i :: 0 <= i < |roots| ==>
              Nest(rows)[i].comment.id == roots[i] && Unfolds(nodes, Nest(rows)[i])
  {
    NestShape(rows);
    forall i | 0 <= i < |roots|
      ensures Nest(rows)[i].comment.id == roots[i] && Unfolds(nodes, Nest(rows)[i])
    {
      NestTree(rows, i);
      SubtreeShape(rows, RootRows(rows)[i], 0);
      SubtreeUnfolds(rows, nodes, RootRows(rows)[i], 0);
    }
  }

  // ---------------------------------------------------------------------------
  // The reported total

  /** countTotalComments: the number of rows the query returned. */
  function CountTotalComments(rows: seq<Comment>): (n: nat)
    ensures UniqueIds(rows) ==> NodeCount(Nest(rows)) <= n
  {
    if UniqueIds(rows) then NestCount(rows); |rows| else |rows|
  }

  /** The total never undercounts the nodes in the tree. */
  lemma TotalBoundsTree(rows: seq<Comment>)
    requires UniqueIds(rows)
    ensures NodeCount(Nest(rows)) <= CountTotalComments(rows)
  {
    NestCount(rows);
  }

  /**
   * Every reply comes after a row of the same goal that it replies to. CreateComment
   * only inserts a reply once its parent is stored under the same goal, so the table
   * keeps this.
   */
  predicate RepliesPrecede(rows: seq<Comment>) {
    forall i :: 0 <= i < |rows| ==> ParentBefore(rows, i)
  }

  /** Row i is top-level, or an earlier row of the same goal has its parent id. */
  predicate ParentBefore(rows: seq<Comment>, i: nat)
    requires i < |rows|
  {
    rows[i].parentId.Some? ==>
      exists j :: 0 <= j < i && rows[j].id == rows[i].parentId.value && rows[j].goalId == rows[i].goalId
  }

  lemma {:induction false} PrecedingRowRooted(rows: seq<Comment>, i: nat) returns (d: nat)
    requires UniqueIds(rows) && RepliesPrecede(rows) && i < |rows|
    ensures RootedAt(rows, rows[i], d)
    decreases i
  {
    match rows[i].parentId
    case None => d := 0;
    case Some(p) =>
      assert ParentBefore(rows, i);
      var j :| 0 <= j < i && rows[j].id == p && rows[j].goalId == rows[i].goalId;
      var d' := PrecedingRowRooted(rows, j);
      FindRow(rows, rows[j]);
      UpAdd(rows, rows[i], 1, d');
      d := d' + 1;
  }

  /**
   * When replies follow their parents, no row is dropped: the tree has as many nodes
   * as the total the handler reports next to it.
   */
  lemma TotalMatchesTree(rows: seq<Comment>)
    requires UniqueIds(rows) && RepliesPrecede(rows)
    ensures NodeCount(Nest(rows)) == CountTotalComments(rows)
  {
    forall y | y in rows ensures Rooted(rows, y) {
      var i :| 0 <= i < |rows| && rows[i] == y;
      var d := PrecedingRowRooted(rows, i);
    }
    NestCountAllRooted(rows);
  }
}
