/**
 * The comment handlers of stars/code/backend/controllers/comment_controller.go over
 * the in-memory tables: posting a comment or reply, and fetching a goal's comments
 * as a tree with its total.
 */
module CommentController {
  import opened Wrappers
  import opened Models
  import opened SeqFacts
  import opened Text
  import opened CommentTree
  import opened Store
  import opened Responses

  /** SELECT id FROM comments WHERE id = ? AND goal_id = ?: the parent check of a reply. */
  function ParentQuery(comments: seq<Comment>, parentId: int, goalId: int): (r: Option<Comment>)
    ensures r.Some? ==> r.value in comments && r.value.id == parentId && r.value.goalId == goalId
    ensures r.None? ==> forall c :: c in comments ==> !(c.id == parentId && c.goalId == goalId)
  {
    if comments == [] then None
    else if comments[0].id == parentId && comments[0].goalId == goalId then Some(comments[0])
    else ParentQuery(comments[1..], parentId, goalId)
  }

  /** Every check of CreateComment passes: a numeric goal id, a body that binds, a stored goal, and for a reply a parent stored under that goal. */
  predicate CommentAccepted(db: Database, idParam: string, body: Option<Comment>)
    reads db
  {
    && Atoi(idParam).Some? && body.Some?
    && FindGoal(db.goals, Atoi(idParam).value).Some?
    && (body.value.parentId.Some? ==> ParentQuery(db.comments, body.value.parentId.value, Atoi(idParam).value).Some?)
  }

  /**
   * POST /goals/:id/comments. `body` is None when the JSON does not bind; `now`
   * is the clock both NOW() and time.Now() read. The checks run in order, and the
   * first that fails answers without touching the tables. On success the stored
   * row and the answer are the same comment: the fresh id, the path's goal id
   * (whatever goal id the body carried), the body's parent id and content, and `now`.
   */
  method CreateComment(db: Database, idParam: string, body: Option<Comment>, now: int) returns (r: Response)
    requires db.Valid()
    modifies db
    ensures db.Valid()
    ensures Atoi(idParam).None? ==>
      r == Response(StatusBadRequest, ErrorBody(InvalidGoalId)) && unchanged(db)
    ensures Atoi(idParam).Some? && body.None? ==>
      r == Response(StatusBadRequest, BindError) && unchanged(db)
    ensures Atoi(idParam).Some? && body.Some? && FindGoal(old(db.goals), Atoi(idParam).value).None? ==>
      r == Response(StatusNotFound, ErrorBody(GoalNotFound)) && unchanged(db)
    ensures Atoi(idParam).Some? && body.Some? && FindGoal(old(db.goals), Atoi(idParam).value).Some? &&
            body.value.parentId.Some? &&
            ParentQuery(old(db.comments), body.value.parentId.value, Atoi(idParam).value).None? ==>
      r == Response(StatusNotFound, ErrorBody(ParentNotFound)) && unchanged(db)
    ensures old(CommentAccepted(db, idParam, body)) ==>
      var c := Comment(old(db.nextCommentId), Atoi(idParam).value, body.value.parentId, body.value.content, now);
      && (forall x :: x in old(db.comments) ==> x.id != c.id)
      && r == Response(StatusCreated, CommentBody(c))
      && db.comments == old(db.comments) + [c]
      && db.nextCommentId == old(db.nextCommentId) + 1
      && db.goals == old(db.goals) && db.ratings == old(db.ratings)
      && db.nextGoalId == old(db.nextGoalId) && db.nextRatingId == old(db.nextRatingId)
  {
    var parsed := Atoi(idParam);
    if parsed.None? {
      return Response(StatusBadRequest, ErrorBody(InvalidGoalId));
    }
    var goalId := parsed.value;
    if body.None? {
      return Response(StatusBadRequest, BindError);
    }
    var comment := body.value;
    if FindGoal(db.goals, goalId).None? {
      return Response(StatusNotFound, ErrorBody(GoalNotFound));
    }
    if comment.parentId.Some? && ParentQuery(db.comments, comment.parentId.value, goalId).None? {
      return Response(StatusNotFound, ErrorBody(ParentNotFound));
    }
    var id := db.nextCommentId;
    var row := Comment(id, goalId, comment.parentId, comment.content, now);
    UniqueSnoc(db.comments, row);
    if row.parentId.Some? {
      var p := ParentQuery(db.comments, row.parentId.value, goalId).value;
      assert p in db.comments && p.id == row.parentId.value && p.goalId == row.goalId;
    }
    RepliesPrecedeSnoc(db.comments, row);
    db.comments := db.comments + [row];
    db.nextCommentId := id + 1;
    comment := comment.(id := id, goalId := goalId, createdAt := now);
    r := Response(StatusCreated, CommentBody(comment));
  }

  /**
   * Whatever was stored through CreateComment shows up in its goal's tree: the
   * goal's rows keep unique ids and parents before replies, so each of them is
   * reached from a top-level comment.
   */
  lemma StoredCommentShown(db: Database, c: Comment)
    requires db.Valid() && c in db.comments
    ensures c in FlatAll(Nest(GoalComments(db, c.goalId)))
  {
    var rows := GoalComments(db, c.goalId);
    CommentsOfIn(db.comments, c.goalId, c);
    var i :| 0 <= i < |rows| && rows[i] == c;
    var d := PrecedingRowRooted(rows, i);
    NestMembers(rows, c);
  }

  /** The rows the comment query returns for a goal, with the guarantees the table keeps. */
  function GoalComments(db: Database, goalId: int): (rows: seq<Comment>)
    reads db
    requires db.Valid()
    ensures UniqueIds(rows) && RepliesPrecede(rows)
    ensures IsSubsequence(rows, db.comments)
  {
    CommentsOfUnique(db.comments, goalId);
    CommentsOfPrecede(db.comments, goalId);
    CommentsOfOrder(db.comments, goalId);
    CommentsOf(db.comments, goalId)
  }

  /**
   * GET /goals/:id/comments. The goal's rows, oldest first, go through
   * buildNestedComments; the JSON encoder then walks the root list and the shared
   * node map, which writes out Nest(rows) (NestSerialises). The roots are null when
   * there is no top-level comment, and the total is the number of rows, which
   * equals the number of nodes in the tree for rows stored through CreateComment.
   */
  method GetCommentsByGoalID(db: Database, idParam: string) returns (r: Response)
    requires db.Valid()
    ensures Atoi(idParam).None? ==> r == Response(StatusBadRequest, ErrorBody(InvalidGoalId))
    ensures Atoi(idParam).Some? && FindGoal(db.goals, Atoi(idParam).value).None? ==>
      r == Response(StatusNotFound, ErrorBody(GoalNotFound))
    ensures Atoi(idParam).Some? && FindGoal(db.goals, Atoi(idParam).value).Some? ==>
      var rows := GoalComments(db, Atoi(idParam).value);
      && r.status == StatusOK && r.body.CommentsBody?
      && r.body.comments == SliceJson(Nest(rows))
      && r.body.total == |rows|
      && r.body.total == NodeCount(Nest(rows))
  {
    var parsed := Atoi(idParam);
    if parsed.None? {
      return Response(StatusBadRequest, ErrorBody(InvalidGoalId));
    }
    var goalId := parsed.value;
    if FindGoal(db.goals, goalId).None? {
      return Response(StatusNotFound, ErrorBody(GoalNotFound));
    }
    var rows := GoalComments(db, goalId);
    var roots, nodes := BuildNested(rows);
    NestSerialises(rows, roots, nodes);
    var total := CountTotalComments(rows);
    TotalMatchesTree(rows);
    r := Response(StatusOK, CommentsBody(SliceJson(Nest(rows)), total));
  }
}
