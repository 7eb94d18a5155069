/**
 * The comment section of the goal page: loadComments and its renderComment
 * (stars/code/fronted/js/goals.js:327-393), and countTotalComments (:416-428).
 * The HTML is kept as a tree of records, one per comment, holding what the markup
 * decides: the CSS class, the toggle button, the reply button and form, and the
 * replies container.
 */
module CommentView {
  import opened Wrappers
  import opened Models
  import opened SeqFacts
  import opened CommentTree
  import opened Store
  import opened Responses
  import opened Api
  import opened CommentController

  /** Replies deeper than this are styled like this level. */
  const MaxStyleLevel := 5

  /** An element's inline style.display: unset, 'block' or 'none'. */
  datatype Display = Unset | Block | Hidden

  /** `comment-item`, or `comment-item reply-item reply-level-<n>`. */
  datatype Css = CommentItem | ReplyItem(level: nat)

  /** The reply form under a comment: its display and which controls it holds. */
  datatype ReplyForm = ReplyForm(display: Display, hasTextarea: bool, hasSubmit: bool, hasCancel: bool)

  /** The replies container under a comment, when the markup has one. */
  datatype Replies = NoContainer | Container(items: seq<Item>)

  /** One rendered comment. */
  datatype Item = Item(
    id: int, content: string, createdAt: int, css: Css,
    hasToggle: bool, hasReplyButton: bool, form: ReplyForm, replies: Replies)

  /** The class of a comment rendered at a logical depth: plain at the top, the depth capped at 5 below. */
  function CssFor(level: nat): (c: Css)
    ensures c == CommentItem <==> level == 0
    ensures c.ReplyItem? ==> 1 <= c.level <= MaxStyleLevel && (c.level == level || c.level == MaxStyleLevel < level)
  {
    if level == 0 then CommentItem
    else ReplyItem(if level < MaxStyleLevel then level else MaxStyleLevel)
  }

  /** renderComment(comment, level): the children are rendered one level deeper. */
  function RenderComment(t: Node, level: nat): (it: Item)
    ensures it.id == t.comment.id && it.content == t.comment.content && it.createdAt == t.comment.createdAt
    ensures it.css == CssFor(level) && it.hasReplyButton && it.form == ReplyForm(Hidden, true, true, false)
    ensures it.hasToggle <==> |t.children| > 0
    ensures it.replies.Container? <==> |t.children| > 0
    ensures it.replies.Container? ==> |it.replies.items| == |t.children|
  {
    var hasReplies := |t.children| > 0;
    Item(t.comment.id, t.comment.content, t.comment.createdAt, CssFor(level),
         hasReplies, true, ReplyForm(Hidden, true, true, false),
         if hasReplies then Container(RenderAll(t.children, level + 1)) else NoContainer)
  }

  /** comments.map(c => renderComment(c, level)) */
  function RenderAll(ts: seq<Node>, level: nat): (r: seq<Item>)
    ensures |r| == |ts|
  {
    if ts == [] then [] else [RenderComment(ts[0], level)] + RenderAll(ts[1..], level)
  }

  lemma {:induction false} RenderAllIndex(ts: seq<Node>, level: nat, i: nat)
    requires i < |ts|
    ensures RenderAll(ts, level)[i] == RenderComment(ts[i], level)
  {
    if i > 0 {
      RenderAllIndex(ts[1..], level, i - 1);
    }
  }

  /** The ids of a rendered tree in document order. */
  function ItemIds(it: Item): seq<int>
    decreases it, 1
  {
    [it.id] + match it.replies case NoContainer => [] case Container(rs) => AllItemIds(rs)
  }

  function AllItemIds(its: seq<Item>): seq<int>
    decreases its, 0
  {
    if its == [] then [] else ItemIds(its[0]) + AllItemIds(its[1..])
  }

  /**
   * The markup rules at every depth: the class fits the depth, every comment has a
   * reply button and a hidden form with a textarea and a submit button but no
   * cancel button, and a toggle button comes exactly with a non-empty replies
   * container whose comments follow the same rules one level deeper.
   */
  predicate WellFormed(it: Item, level: nat)
    decreases it
  {
    && it.css == CssFor(level)
    && it.hasReplyButton
    && it.form == ReplyForm(Hidden, true, true, false)
    && (it.hasToggle <==> it.replies.Container?)
    && (it.replies.Container? ==>
          |it.replies.items| > 0 && forall i :: 0 <= i < |it.replies.items| ==> WellFormed(it.replies.items[i], level + 1))
  }

  /** A rendered comment carries its row's id and text, follows the markup rules, and has a toggle exactly when it has replies. */
  lemma {:induction false} RenderWellFormed(t: Node, level: nat)
    ensures WellFormed(RenderComment(t, level), level)
    ensures RenderComment(t, level).id == t.comment.id && RenderComment(t, level).content == t.comment.content
    ensures RenderComment(t, level).hasToggle <==> |t.children| > 0
    decreases t
  {
    var kids := RenderAll(t.children, level + 1);
    forall i | 0 <= i < |kids| ensures WellFormed(kids[i], level + 1) {
      RenderAllIndex(t.children, level + 1, i);
      RenderWellFormed(t.children[i], level + 1);
    }
  }

  /** Rendering shows every node of the forest once, in pre-order: the ids on the page are the tree's ids. */
  lemma {:induction false} RenderIds(t: Node, level: nat)
    ensures ItemIds(RenderComment(t, level)) == Ids(Flat(t))
    decreases t, 1
  {
    RenderAllIds(t.children, level + 1);
    IdsSnoc([t.comment], FlatAll(t.children));
  }

  lemma {:induction false} RenderAllIds(ts: seq<Node>, level: nat)
    ensures AllItemIds(RenderAll(ts, level)) == Ids(FlatAll(ts))
    decreases ts, 0
  {
    if ts != [] {
      RenderIds(ts[0], level);
      RenderAllIds(ts[1..], level);
      IdsSnoc(Flat(ts[0]), FlatAll(ts[1..]));
    }
  }

  /** What the comments container shows. */
  datatype CommentsPanel = LoadFailed | NoComments | CommentsList(total: int, items: seq<Item>)

  /**
   * loadComments: a failed request shows the error text; a comments body with a
   * null or empty list shows the placeholder (any other body counts as one without
   * comments: only this endpoint's own bodies are meant, since on a bare JSON null
   * the page's destructuring throws and shows the error); otherwise the header shows
   * the total the server sent and the list shows each top-level comment rendered
   * at level 0.
   */
  function LoadComments(reply: Option<Response>): (p: CommentsPanel)
    ensures p.LoadFailed? <==> Settle(reply).Failure?
    ensures p.NoComments? <==>
      Settle(reply).Success? &&
      (!Settle(reply).value.CommentsBody? || Settle(reply).value.comments.None? || Settle(reply).value.comments == Some([]))
    ensures p.CommentsList? ==>
      && Settle(reply).value.CommentsBody?
      && p.total == Settle(reply).value.total
      && p.items == RenderAll(Settle(reply).value.comments.value, 0)
      && |p.items| > 0
  {
    match Settle(reply)
    case Failure(_) => LoadFailed
    case Success(body) =>
      if !body.CommentsBody? || body.comments.None? || body.comments.value == [] then NoComments
      else CommentsList(body.total, RenderAll(body.comments.value, 0))
  }

  /**
   * Fed the answer GetCommentsByGoalID gives for a stored goal, the page shows the
   * placeholder exactly when the goal has no comment; otherwise every comment of the
   * goal is on the page, nothing else is, and the header's total is the number of
   * comments shown.
   */
  lemma PageShowsEveryComment(db: Database, goalId: int)
    requires db.Valid()
    ensures var rows := GoalComments(db, goalId);
      var p := LoadComments(Some(Response(StatusOK, CommentsBody(SliceJson(Nest(rows)), |rows|))));
      && (p.NoComments? <==> rows == [])
      && (p.CommentsList? ==>
            && p.total == |AllItemIds(p.items)|
            && (forall c :: c in rows ==> c.id in AllItemIds(p.items))
            && (forall id :: id in AllItemIds(p.items) ==> Find(rows, id).Some?))
  {
    var rows := GoalComments(db, goalId);
    var f := Nest(rows);
    TotalMatchesTree(rows);
    if f != [] {
      RenderAllIds(f, 0);
      var ids := AllItemIds(RenderAll(f, 0));
      assert ids == Ids(FlatAll(f));
      forall c | c in rows ensures c.id in ids {
        var i :| 0 <= i < |rows| && rows[i] == c;
        var d := PrecedingRowRooted(rows, i);
        NestMembers(rows, c);
        var k :| 0 <= k < |FlatAll(f)| && FlatAll(f)[k] == c;
        assert ids[k] == c.id;
      }
      forall id | id in ids ensures Find(rows, id).Some? {
        var k :| 0 <= k < |ids| && ids[k] == id;
        var y := FlatAll(f)[k];
        NestMembers(rows, y);
      }
    } else {
      assert NodeCount(f) == 0;
    }
  }

  // ---------------------------------------------------------------------------
  // countTotalComments

  /** The `count` variable the traversal closes over. */
  class Counter {
    var count: int

    constructor ()
      ensures count == 0
    {
      count := 0;
    }

    /** traverse(comment): count the comment, then each child's subtree in turn. */
    method Traverse(t: Node)
      modifies this
      ensures count == old(count) + |Flat(t)|
      decreases t
    {
      count := count + 1;
      var i := 0;
      while i < |t.children|
        invariant 0 <= i <= |t.children|
        invariant count == old(count) + 1 + |FlatAll(t.children[..i])|
      {
        FlatAllAppend(t.children[..i], t.children[i]);
        assert t.children[..i + 1] == t.children[..i] + [t.children[i]];
        Traverse(t.children[i]);
        i := i + 1;
      }
      assert t.children[..i] == t.children;
    }
  }

  /** countTotalComments(comments): every node of the forest, each counted once. */
  method CountComments(comments: seq<Node>) returns (count: int)
    ensures count == NodeCount(comments)
  {
    var counter := new Counter();
    var i := 0;
    while i < |comments|
      invariant 0 <= i <= |comments|
      invariant counter.count == |FlatAll(comments[..i])|
    {
      FlatAllAppend(comments[..i], comments[i]);
      assert comments[..i + 1] == comments[..i] + [comments[i]];
      counter.Traverse(comments[i]);
      i := i + 1;
    }
    assert comments[..i] == comments;
    count := counter.count;
  }
}
