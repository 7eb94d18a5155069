/**
 * The goal and rating handlers of stars/code/backend/controllers/goal_controller.go
 * over the in-memory tables. `now` is the clock NOW() reads; a body is None when
 * the JSON does not bind.
 */
module GoalController {
  import opened Wrappers
  import opened Models
  import opened SeqFacts
  import opened Text
  import opened Store
  import opened Responses

  /**
   * POST /goals. The row stores `now` as both timestamps; the answer is the body
   * with the new id and with the timestamps the body carried.
   */
  method CreateGoal(db: Database, body: Option<StarGoal>, now: int) returns (r: Response)
    requires db.Valid()
    modifies db
    ensures db.Valid()
    ensures body.None? ==> r == Response(StatusBadRequest, BindError) && unchanged(db)
    ensures body.Some? ==>
      var id := old(db.nextGoalId);
      var g := body.value;
      && FindGoal(old(db.goals), id).None?
      && r == Response(StatusCreated, GoalBody(g.(id := id)))
      && db.goals == old(db.goals) + [StarGoal(id, g.title, g.description, g.category, g.stars, now, now)]
      && db.nextGoalId == id + 1
      && db.ratings == old(db.ratings) && db.comments == old(db.comments)
      && db.nextRatingId == old(db.nextRatingId) && db.nextCommentId == old(db.nextCommentId)
  {
    if body.None? {
      return Response(StatusBadRequest, BindError);
    }
    var goal := body.value;
    var id := db.nextGoalId;
    var row := StarGoal(id, goal.title, goal.description, goal.category, goal.stars, now, now);
    db.goals := db.goals + [row];
    db.nextGoalId := id + 1;
    goal := goal.(id := id);
    r := Response(StatusCreated, GoalBody(goal));
  }

  /** GET /goals/:id */
  method GetGoalByID(db: Database, idParam: string) returns (r: Response)
    ensures Atoi(idParam).None? ==> r == Response(StatusBadRequest, ErrorBody(InvalidGoalId))
    ensures Atoi(idParam).Some? ==>
      match FindGoal(db.goals, Atoi(idParam).value)
      case None => r == Response(StatusNotFound, ErrorBody(GoalNotFound))
      case Some(g) => r == Response(StatusOK, GoalBody(g)) && g in db.goals && g.id == Atoi(idParam).value
  {
    var parsed := Atoi(idParam);
    if parsed.None? {
      return Response(StatusBadRequest, ErrorBody(InvalidGoalId));
    }
    var found := FindGoal(db.goals, parsed.value);
    if found.None? {
      return Response(StatusNotFound, ErrorBody(GoalNotFound));
    }
    r := Response(StatusOK, GoalBody(found.value));
  }

  /** A statement keyed by an id no row carries changes nothing. */
  lemma NoMatchNoChange(goals: seq<StarGoal>, id: int, body: StarGoal, now: int)
    requires FindGoal(goals, id).None?
    ensures SetGoalFields(goals, id, body, now) == goals
    ensures DeleteGoalRows(goals, id) == goals
  {
    CountIdZero(goals, id);
    DeleteGoalRowsIn(goals, id);
    DeleteKeepsAll(goals, id);
  }

  lemma {:induction false} DeleteKeepsAll(goals: seq<StarGoal>, id: int)
    requires forall g :: g in goals ==> g.id != id
    ensures DeleteGoalRows(goals, id) == goals
  {
    if goals != [] {
      var init := goals[..|goals| - 1];
      assert goals == init + [goals[|goals| - 1]];
      DeleteKeepsAll(init, id);
    }
  }

  /**
   * PUT /goals/:id. The update runs before anything is looked up; when it matched
   * no row the answer is 404. Otherwise the addressed goal takes the body's title,
   * description, category and stars and `now` as its update time, every other goal
   * is left as it was, and the answer is the body with the path id.
   */
  method UpdateGoal(db: Database, idParam: string, body: Option<StarGoal>, now: int) returns (r: Response)
    requires db.Valid()
    modifies db
    ensures db.Valid()
    ensures Atoi(idParam).None? ==> r == Response(StatusBadRequest, ErrorBody(InvalidGoalId)) && unchanged(db)
    ensures Atoi(idParam).Some? && body.None? ==> r == Response(StatusBadRequest, BindError) && unchanged(db)
    ensures Atoi(idParam).Some? && body.Some? ==>
      var id := Atoi(idParam).value;
      var g := body.value;
      && db.ratings == old(db.ratings) && db.comments == old(db.comments)
      && db.nextGoalId == old(db.nextGoalId) && db.nextRatingId == old(db.nextRatingId)
      && db.nextCommentId == old(db.nextCommentId)
      && (forall other :: other != id ==> FindGoal(db.goals, other) == FindGoal(old(db.goals), other))
      && match FindGoal(old(db.goals), id)
         case None => r == Response(StatusNotFound, ErrorBody(GoalNotFound)) && db.goals == old(db.goals)
         case Some(old_g) =>
           && r == Response(StatusOK, GoalBody(g.(id := id)))
           && FindGoal(db.goals, id) == Some(old_g.(title := g.title, description := g.description,
                                                   category := g.category, stars := g.stars, updatedAt := now))
  {
    var parsed := Atoi(idParam);
    if parsed.None? {
      return Response(StatusBadRequest, ErrorBody(InvalidGoalId));
    }
    var id := parsed.value;
    if body.None? {
      return Response(StatusBadRequest, BindError);
    }
    var goal := body.value;
    ghost var before := db.goals;
    SetGoalFieldsKeeps(before, id, goal, now, db.nextGoalId);
    SetGoalFieldsEffect(before, id, goal, now, id);
    CountIdZero(before, id);
    var rowsAffected := CountId(db.goals, id);
    db.goals := SetGoalFields(db.goals, id, goal, now);
    if rowsAffected == 0 {
      NoMatchNoChange(before, id, goal, now);
      return Response(StatusNotFound, ErrorBody(GoalNotFound));
    }
    goal := goal.(id := id);
    r := Response(StatusOK, GoalBody(goal));
  }

  /**
   * DELETE /goals/:id. The addressed goal is gone and every other goal is as it
   * was; the answer is 204 without a body. An id no goal carries gives 404 and
   * leaves the table as it was. Ratings and comments of the goal are not touched.
   */
  method DeleteGoal(db: Database, idParam: string) returns (r: Response)
    requires db.Valid()
    modifies db
    ensures db.Valid()
    ensures Atoi(idParam).None? ==> r == Response(StatusBadRequest, ErrorBody(InvalidGoalId)) && unchanged(db)
    ensures Atoi(idParam).Some? ==>
      var id := Atoi(idParam).value;
      && db.ratings == old(db.ratings) && db.comments == old(db.comments)
      && db.nextGoalId == old(db.nextGoalId) && db.nextRatingId == old(db.nextRatingId)
      && db.nextCommentId == old(db.nextCommentId)
      && FindGoal(db.goals, id).None?
      && (forall other :: other != id ==> FindGoal(db.goals, other) == FindGoal(old(db.goals), other))
      && (FindGoal(old(db.goals), id).None? ==>
            r == Response(StatusNotFound, ErrorBody(GoalNotFound)) && db.goals == old(db.goals))
      && (FindGoal(old(db.goals), id).Some? ==> r == Response(StatusNoContent, NoBody))
  {
    var parsed := Atoi(idParam);
    if parsed.None? {
      return Response(StatusBadRequest, ErrorBody(InvalidGoalId));
    }
    var id := parsed.value;
    ghost var before := db.goals;
    forall other ensures other != id ==> FindGoal(DeleteGoalRows(before, id), other) == FindGoal(before, other) {
      DeleteGoalRowsEffect(before, id, other);
    }
    DeleteGoalRowsEffect(before, id, id);
    DeleteGoalRowsIn(before, id);
    var rowsAffected := CountId(db.goals, id);
    db.goals := DeleteGoalRows(db.goals, id);
    CountIdZero(before, id);
    if rowsAffected == 0 {
      NoMatchNoChange(before, id, StarGoal(id, "", "", "", 0, 0, 0), 0);
      return Response(StatusNotFound, ErrorBody(GoalNotFound));
    }
    r := Response(StatusNoContent, NoBody);
  }

  /**
   * GET /goals/category/:category. The rows loop appends each goal of the
   * category, in table order; the list is null when none matched.
   */
  method GetGoalsByCategory(db: Database, category: string) returns (r: Response)
    ensures r == Response(StatusOK, GoalsBody(SliceJson(InCategory(db.goals, category))))
  {
    var goals: seq<StarGoal> := [];
    var i := 0;
    while i < |db.goals|
      invariant 0 <= i <= |db.goals|
      invariant goals == InCategory(db.goals[..i], category)
    {
      var goal := db.goals[i];
      assert db.goals[..i + 1][..i] == db.goals[..i];
      if goal.category == category {
        goals := goals + [goal];
      }
      i := i + 1;
    }
    assert db.goals[..i] == db.goals;
    r := Response(StatusOK, GoalsBody(SliceJson(goals)));
  }

  /** GET /stars: the sum of all goals' stars, 0 for an empty table. */
  method GetTotalStars(db: Database) returns (r: Response)
    ensures r == Response(StatusOK, TotalStarsBody(SumStars(db.goals)))
  {
    r := Response(StatusOK, TotalStarsBody(SumStars(db.goals)));
  }

  /** Every check of AddDailyRating passes: numeric id, a body that binds, a rating in 1..5, a stored goal. */
  predicate RatingAccepted(db: Database, idParam: string, body: Option<DailyRating>)
    reads db
  {
    Atoi(idParam).Some? && body.Some? && InRange(body.value.rating) && FindGoal(db.goals, Atoi(idParam).value).Some?
  }

  /**
   * POST /goals/:id/daily-rating. The checks run in order and the first that fails
   * answers without touching the tables; the range check comes before the goal is
   * looked up. Then the rating is inserted, or written over the row `clash` names
   * when the insert collides with a stored one, and the goal's stars become the sum
   * of all of that goal's ratings. Every other goal is left as it was.
   */
  method AddDailyRating(db: Database, idParam: string, body: Option<DailyRating>, clash: Option<nat>, now: int)
    returns (r: Response)
    requires db.Valid()
    requires clash.Some? ==> clash.value < |db.ratings|
    modifies db
    ensures db.Valid()
    ensures Atoi(idParam).None? ==> r == Response(StatusBadRequest, ErrorBody(InvalidGoalId)) && unchanged(db)
    ensures Atoi(idParam).Some? && body.None? ==> r == Response(StatusBadRequest, BindError) && unchanged(db)
    ensures Atoi(idParam).Some? && body.Some? && !InRange(body.value.rating) ==>
      r == Response(StatusBadRequest, ErrorBody(RatingOutOfRange)) && unchanged(db)
    ensures Atoi(idParam).Some? && body.Some? && InRange(body.value.rating) &&
            FindGoal(old(db.goals), Atoi(idParam).value).None? ==>
      r == Response(StatusNotFound, ErrorBody(GoalNotFound)) && unchanged(db)
    ensures old(RatingAccepted(db, idParam, body)) ==>
      var goalId := Atoi(idParam).value;
      var row := DailyRating(old(db.nextRatingId), goalId, body.value.rating, body.value.date, now);
      && r == Response(StatusOK, MessageBody(RatingRecorded))
      && db.ratings == Upsert(old(db.ratings), clash, row)
      && FindGoal(db.goals, goalId) ==
           Some(FindGoal(old(db.goals), goalId).value.(stars := RatingSum(db.ratings, goalId), updatedAt := now))
      && (forall other :: other != goalId ==> FindGoal(db.goals, other) == FindGoal(old(db.goals), other))
      && db.comments == old(db.comments)
      && db.nextGoalId == old(db.nextGoalId) && db.nextCommentId == old(db.nextCommentId)
      && db.nextRatingId == old(db.nextRatingId) + (if clash.None? then 1 else 0)
  {
    var parsed := Atoi(idParam);
    if parsed.None? {
      return Response(StatusBadRequest, ErrorBody(InvalidGoalId));
    }
    var goalId := parsed.value;
    if body.None? {
      return Response(StatusBadRequest, BindError);
    }
    var rating := body.value;
    if rating.rating < 1 || rating.rating > 5 {
      return Response(StatusBadRequest, ErrorBody(RatingOutOfRange));
    }
    if FindGoal(db.goals, goalId).None? {
      return Response(StatusNotFound, ErrorBody(GoalNotFound));
    }
    var row := DailyRating(db.nextRatingId, goalId, rating.rating, rating.date, now);
    UpsertValid(db.ratings, clash, row, db.nextRatingId);
    db.ratings := Upsert(db.ratings, clash, row);
    if clash.None? {
      db.nextRatingId := db.nextRatingId + 1;
    }
    var totalStars := RatingSum(db.ratings, goalId);
    ghost var before := db.goals;
    SetGoalStarsKeeps(before, goalId, totalStars, now, db.nextGoalId);
    SetGoalStarsEffect(before, goalId, totalStars, now, goalId);
    db.goals := SetGoalStars(db.goals, goalId, totalStars, now);
    r := Response(StatusOK, MessageBody(RatingRecorded));
  }

  /** The upsert keeps rating ids unique and below the counter, and stored ratings in range. */
  lemma UpsertValid(ratings: seq<DailyRating>, clash: Option<nat>, row: DailyRating, next: int)
    requires clash.Some? ==> clash.value < |ratings|
    requires RatingIdsUnique(ratings) && (forall x :: x in ratings ==> x.id < next && InRange(x.rating))
    requires row.id == next && InRange(row.rating)
    ensures RatingIdsUnique(Upsert(ratings, clash, row))
    ensures forall x :: x in Upsert(ratings, clash, row) ==> x.id < next + (if clash.None? then 1 else 0) && InRange(x.rating)
  {
    var u := Upsert(ratings, clash, row);
    forall x | x in u ensures x.id < next + (if clash.None? then 1 else 0) && InRange(x.rating) {
      var i :| 0 <= i < |u| && u[i] == x;
      if i < |ratings| && (clash.None? || i != clash.value) {
        assert ratings[i] in ratings;
      }
      if clash.Some? && i == clash.value {
        assert ratings[i] in ratings;
      }
    }
    forall i, j | 0 <= i < j < |u| ensures u[i].id != u[j].id {
      if j == |ratings| {
        assert ratings[i] in ratings;
      }
    }
  }

  /**
   * GET /goals/:id/daily-ratings: the goal's latest ratings (the latest-ratings
   * query: at most seven, newest first), null when it has none.
   */
  method GetDailyRatings(db: Database, idParam: string) returns (r: Response)
    ensures Atoi(idParam).None? ==> r == Response(StatusBadRequest, ErrorBody(InvalidGoalId))
    ensures Atoi(idParam).Some? && FindGoal(db.goals, Atoi(idParam).value).None? ==>
      r == Response(StatusNotFound, ErrorBody(GoalNotFound))
    ensures Atoi(idParam).Some? && FindGoal(db.goals, Atoi(idParam).value).Some? ==>
      && r == Response(StatusOK, RatingsBody(SliceJson(LatestRatings(db.ratings, Atoi(idParam).value))))
      && r.body.RatingsBody?
      && (r.body.ratings.None? <==> RatingsOf(db.ratings, Atoi(idParam).value) == [])
      && (r.body.ratings.Some? ==>
            && NewestFirst(r.body.ratings.value)
            && 1 <= |r.body.ratings.value| <= 7
            && forall x :: x in r.body.ratings.value ==> x in db.ratings && x.goalId == Atoi(idParam).value)
  {
    var parsed := Atoi(idParam);
    if parsed.None? {
      return Response(StatusBadRequest, ErrorBody(InvalidGoalId));
    }
    var goalId := parsed.value;
    if FindGoal(db.goals, goalId).None? {
      return Response(StatusNotFound, ErrorBody(GoalNotFound));
    }
    var ratings := LatestRatings(db.ratings, goalId);
    LatestRatingsOrder(db.ratings, goalId);
    forall x | x in ratings ensures x in db.ratings && x.goalId == goalId {
      LatestRatingsOfGoal(db.ratings, goalId, x);
    }
    r := Response(StatusOK, RatingsBody(SliceJson(ratings)));
  }

  /**
   * A recorded rating moves the total of GET /stars by the change in that goal's
   * stars, and by nothing else.
   */
  lemma TotalAfterRating(goals: seq<StarGoal>, goalId: int, stars: int, now: int)
    requires GoalIdsUnique(goals) && FindGoal(goals, goalId).Some?
    ensures SumStars(SetGoalStars(goals, goalId, stars, now)) ==
      SumStars(goals) - FindGoal(goals, goalId).value.stars + stars
  {
    var g := FindGoal(goals, goalId).value;
    var k :| 0 <= k < |goals| && goals[k] == g;
    SumStarsChange(goals, SetGoalStars(goals, goalId, stars, now), k);
  }
}
