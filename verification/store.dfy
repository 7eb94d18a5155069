/**
 * The three MySQL tables the handlers use (star_goals, daily_ratings, comments),
 * held in memory, and the SQL statements the handlers issue, written as functions
 * over the tables. A table is a sequence of rows in insertion order; an
 * auto-increment counter per table hands out the ids LastInsertId returns.
 */
module Store {
  import opened Wrappers
  import opened Models
  import opened SeqFacts
  import opened CommentTree

  // ---------------------------------------------------------------------------
  // star_goals

  /** Goal ids are the table's primary key. */
  predicate GoalIdsUnique(goals: seq<StarGoal>) {
    forall i, j :: 0 <= i < j < |goals| ==> goals[i].id != goals[j].id
  }

  /** SELECT ... FROM star_goals WHERE id = ?: the goal with that id, if any. */
  function FindGoal(goals: seq<StarGoal>, id: int): (r: Option<StarGoal>)
    ensures r.Some? ==> r.value in goals && r.value.id == id
    ensures r.None? ==> forall g :: g in goals ==> g.id != id
  {
    if goals == [] then None
    else if goals[0].id == id then Some(goals[0])
    else FindGoal(goals[1..], id)
  }

  /** With unique ids, the lookup finds the one row carrying the id. */
  lemma FindGoalRow(goals: seq<StarGoal>, i: nat)
    requires GoalIdsUnique(goals) && i < |goals|
    ensures FindGoal(goals, goals[i].id) == Some(goals[i])
  {
    var y := FindGoal(goals, goals[i].id).value;
    var j :| 0 <= j < |goals| && goals[j] == y;
    assert i == j;
  }

  /** The number of rows with the given id: what RowsAffected reports for a statement keyed by id. */
  function CountId(goals: seq<StarGoal>, id: int): (n: nat)
    ensures n <= |goals|
  {
    if goals == [] then 0
    else CountId(goals[..|goals| - 1], id) + (if goals[|goals| - 1].id == id then 1 else 0)
  }

  /** No row is affected exactly when no goal has the id, so a 404 means "no such goal". */
  lemma {:induction false} CountIdZero(goals: seq<StarGoal>, id: int)
    ensures CountId(goals, id) == 0 <==> FindGoal(goals, id).None?
  {
    if goals != [] {
      var init := goals[..|goals| - 1];
      CountIdZero(init, id);
      assert goals == init + [goals[|goals| - 1]];
      if FindGoal(init, id).Some? {
        assert FindGoal(init, id).value in goals;
      }
    }
  }

  /** UPDATE star_goals SET title, description, category, stars, updated_at = NOW() WHERE id = ? */
  function SetGoalFields(goals: seq<StarGoal>, id: int, body: StarGoal, now: int): (r: seq<StarGoal>)
    ensures |r| == |goals|
    ensures forall i :: 0 <= i < |goals| ==> r[i].id == goals[i].id && r[i].createdAt == goals[i].createdAt
    ensures forall i :: 0 <= i < |goals| && goals[i].id != id ==> r[i] == goals[i]
    ensures forall i :: 0 <= i < |goals| && goals[i].id == id ==>
      && r[i].title == body.title && r[i].description == body.description
      && r[i].category == body.category && r[i].stars == body.stars && r[i].updatedAt == now
  {
    seq(|goals|, i requires 0 <= i < |goals| =>
      if goals[i].id == id
      then goals[i].(title := body.title, description := body.description,
                     category := body.category, stars := body.stars, updatedAt := now)
      else goals[i])
  }

  /** UPDATE star_goals SET stars = ?, updated_at = NOW() WHERE id = ? */
  function SetGoalStars(goals: seq<StarGoal>, id: int, stars: int, now: int): (r: seq<StarGoal>)
    ensures |r| == |goals|
    ensures forall i :: 0 <= i < |goals| && goals[i].id != id ==> r[i] == goals[i]
    ensures forall i :: 0 <= i < |goals| && goals[i].id == id ==>
      r[i] == StarGoal(id, goals[i].title, goals[i].description, goals[i].category, stars, goals[i].createdAt, now)
  {
    seq(|goals|, i requires 0 <= i < |goals| =>
      if goals[i].id == id then goals[i].(stars := stars, updatedAt := now) else goals[i])
  }

  /**
   * The full update leaves every other goal as it was, keeps the ids unique, and
   * gives the addressed goal the body's fields while keeping its id and creation time.
   */
  lemma SetGoalFieldsEffect(goals: seq<StarGoal>, id: int, body: StarGoal, now: int, other: int)
    requires GoalIdsUnique(goals)
    ensures GoalIdsUnique(SetGoalFields(goals, id, body, now))
    ensures other != id ==> FindGoal(SetGoalFields(goals, id, body, now), other) == FindGoal(goals, other)
    ensures FindGoal(SetGoalFields(goals, id, body, now), id) ==
      match FindGoal(goals, id)
      case None => None
      case Some(g) => Some(g.(title := body.title, description := body.description,
                              category := body.category, stars := body.stars, updatedAt := now))
  {
    var r := SetGoalFields(goals, id, body, now);
    FindAfterMap(goals, r, id, other);
  }

  /** The field update keeps ids and every goal other than the addressed one, so bounds on ids still hold. */
  lemma SetGoalFieldsKeeps(goals: seq<StarGoal>, id: int, body: StarGoal, now: int, next: int)
    requires GoalIdsUnique(goals) && forall g :: g in goals ==> g.id < next
    ensures forall g :: g in SetGoalFields(goals, id, body, now) ==> g.id < next
    ensures forall other :: other != id ==> FindGoal(SetGoalFields(goals, id, body, now), other) == FindGoal(goals, other)
  {
    var r := SetGoalFields(goals, id, body, now);
    forall g | g in r ensures g.id < next {
      var i :| 0 <= i < |r| && r[i] == g;
      assert goals[i] in goals;
    }
    forall other | other != id ensures FindGoal(r, other) == FindGoal(goals, other) {
      SetGoalFieldsEffect(goals, id, body, now, other);
    }
  }

  /** The stars update leaves every other goal as it was and changes only the addressed goal's stars and update time. */
  lemma SetGoalStarsEffect(goals: seq<StarGoal>, id: int, stars: int, now: int, other: int)
    requires GoalIdsUnique(goals)
    ensures GoalIdsUnique(SetGoalStars(goals, id, stars, now))
    ensures other != id ==> FindGoal(SetGoalStars(goals, id, stars, now), other) == FindGoal(goals, other)
    ensures FindGoal(SetGoalStars(goals, id, stars, now), id) ==
      match FindGoal(goals, id)
      case None => None
      case Some(g) => Some(g.(stars := stars, updatedAt := now))
  {
    var r := SetGoalStars(goals, id, stars, now);
    FindAfterMap(goals, r, id, other);
  }

  /** The stars update keeps ids and every goal other than the addressed one, so bounds on ids still hold. */
  lemma SetGoalStarsKeeps(goals: seq<StarGoal>, id: int, stars: int, now: int, next: int)
    requires GoalIdsUnique(goals) && forall g :: g in goals ==> g.id < next
    ensures forall g :: g in SetGoalStars(goals, id, stars, now) ==> g.id < next
    ensures forall other :: other != id ==> FindGoal(SetGoalStars(goals, id, stars, now), other) == FindGoal(goals, other)
  {
    var r := SetGoalStars(goals, id, stars, now);
    forall g | g in r ensures g.id < next {
      var i :| 0 <= i < |r| && r[i] == g;
      assert goals[i] in goals;
    }
    forall other | other != id ensures FindGoal(r, other) == FindGoal(goals, other) {
      SetGoalStarsEffect(goals, id, stars, now, other);
    }
  }

  /** Shared step of the two update lemmas: a row-wise rewrite of the row with `id` that keeps ids. */
  lemma FindAfterMap(goals: seq<StarGoal>, r: seq<StarGoal>, id: int, other: int)
    requires GoalIdsUnique(goals) && |r| == |goals|
    requires forall i :: 0 <= i < |goals| ==> r[i].id == goals[i].id
    requires forall i :: 0 <= i < |goals| && goals[i].id != id ==> r[i] == goals[i]
    ensures GoalIdsUnique(r)
    ensures other != id ==> FindGoal(r, other) == FindGoal(goals, other)
    ensures FindGoal(goals, id).None? ==> FindGoal(r, id).None?
    ensures forall i :: 0 <= i < |goals| && goals[i].id == id ==>
      FindGoal(goals, id) == Some(goals[i]) && FindGoal(r, id) == Some(r[i])
  {
    forall i | 0 <= i < |goals| ensures FindGoal(goals, goals[i].id) == Some(goals[i]) && FindGoal(r, r[i].id) == Some(r[i]) {
      FindGoalRow(goals, i);
      FindGoalRow(r, i);
    }
    if other != id {
      match FindGoal(goals, other)
      case None =>
        forall g | g in r ensures g.id != other {
          var i :| 0 <= i < |r| && r[i] == g;
          assert goals[i] in goals;
        }
      case Some(g) =>
        var i :| 0 <= i < |goals| && goals[i] == g;
    }
    if FindGoal(goals, id).None? {
      forall g | g in r ensures g.id != id {
        var i :| 0 <= i < |r| && r[i] == g;
        assert goals[i] in goals;
      }
    }
  }

  /** DELETE FROM star_goals WHERE id = ? */
  function DeleteGoalRows(goals: seq<StarGoal>, id: int): (r: seq<StarGoal>)
    ensures |r| + CountId(goals, id) == |goals|
  {
    if goals == [] then []
    else
      var last := goals[|goals| - 1];
      DeleteGoalRows(goals[..|goals| - 1], id) + (if last.id == id then [] else [last])
  }

  /** The delete keeps exactly the rows with another id. */
  lemma {:induction false} DeleteGoalRowsIn(goals: seq<StarGoal>, id: int)
    ensures forall g :: g in DeleteGoalRows(goals, id) <==> g in goals && g.id != id
  {
    if goals != [] {
      var init := goals[..|goals| - 1];
      DeleteGoalRowsIn(init, id);
      assert goals == init + [goals[|goals| - 1]];
    }
  }

  /** The rows the delete keeps still have unique ids. */
  lemma {:induction false} DeleteGoalRowsUnique(goals: seq<StarGoal>, id: int)
    requires GoalIdsUnique(goals)
    ensures GoalIdsUnique(DeleteGoalRows(goals, id))
  {
    if goals != [] {
      var init := goals[..|goals| - 1];
      var last := goals[|goals| - 1];
      assert GoalIdsUnique(init);
      DeleteGoalRowsUnique(init, id);
      if last.id != id {
        var r0 := DeleteGoalRows(init, id);
        DeleteGoalRowsIn(init, id);
        forall k | 0 <= k < |r0| ensures r0[k].id != last.id {
          assert r0[k] in init;
          var i :| 0 <= i < |init| && init[i] == r0[k];
        }
      }
    }
  }

  /** After the delete no goal has the id, and the other goals are still found, unchanged. */
  lemma DeleteGoalRowsEffect(goals: seq<StarGoal>, id: int, other: int)
    requires GoalIdsUnique(goals)
    ensures GoalIdsUnique(DeleteGoalRows(goals, id))
    ensures FindGoal(DeleteGoalRows(goals, id), id).None?
    ensures other != id ==> FindGoal(DeleteGoalRows(goals, id), other) == FindGoal(goals, other)
  {
    var r := DeleteGoalRows(goals, id);
    DeleteGoalRowsIn(goals, id);
    DeleteGoalRowsUnique(goals, id);
    if other != id {
      match FindGoal(goals, other)
      case None =>
      case Some(g) =>
        var i :| 0 <= i < |goals| && goals[i] == g;
        var j :| 0 <= j < |r| && r[j] == g;
        FindGoalRow(r, j);
    }
  }

  /** SELECT COALESCE(SUM(stars), 0) FROM star_goals */
  function SumStars(goals: seq<StarGoal>): (s: int)
    ensures goals == [] ==> s == 0
    ensures (forall i :: 0 <= i < |goals| ==> goals[i].stars >= 0) ==> s >= 0
  {
    if goals == [] then 0 else SumStars(goals[..|goals| - 1]) + goals[|goals| - 1].stars
  }

  /** Rewriting one row's stars moves the total by the difference and by nothing else. */
  lemma {:induction false} SumStarsChange(goals: seq<StarGoal>, r: seq<StarGoal>, k: nat)
    requires |r| == |goals| && k < |goals|
    requires forall i :: 0 <= i < |goals| && i != k ==> r[i].stars == goals[i].stars
    ensures SumStars(r) == SumStars(goals) - goals[k].stars + r[k].stars
  {
    var n := |goals|;
    if k == n - 1 {
      SumStarsSame(goals[..n - 1], r[..n - 1]);
    } else {
      SumStarsChange(goals[..n - 1], r[..n - 1], k);
    }
  }

  lemma {:induction false} SumStarsSame(goals: seq<StarGoal>, r: seq<StarGoal>)
    requires |r| == |goals|
    requires forall i :: 0 <= i < |goals| ==> r[i].stars == goals[i].stars
    ensures SumStars(r) == SumStars(goals)
  {
    if goals != [] {
      SumStarsSame(goals[..|goals| - 1], r[..|r| - 1]);
    }
  }

  /** SELECT ... FROM star_goals WHERE category = ?, in table order. */
  function InCategory(goals: seq<StarGoal>, category: string): (r: seq<StarGoal>)
    ensures |r| <= |goals|
    ensures forall i :: 0 <= i < |r| ==> r[i].category == category
  {
    if goals == [] then []
    else
      var last := goals[|goals| - 1];
      InCategory(goals[..|goals| - 1], category) + (if last.category == category then [last] else [])
  }

  /** The category query returns exactly the goals of that category, each as often as in the table. */
  lemma InCategoryExact(goals: seq<StarGoal>, category: string, g: StarGoal)
    ensures g in InCategory(goals, category) <==> g in goals && g.category == category
    ensures multiset(InCategory(goals, category))[g] == if g.category == category then multiset(goals)[g] else 0
  {
    InCategoryCount(goals, category, g);
  }

  lemma {:induction false} InCategoryCount(goals: seq<StarGoal>, category: string, g: StarGoal)
    ensures multiset(InCategory(goals, category))[g] == if g.category == category then multiset(goals)[g] else 0
  {
    if goals != [] {
      var init := goals[..|goals| - 1];
      var last := goals[|goals| - 1];
      InCategoryCount(init, category, g);
      assert goals == init + [last];
      assert multiset(goals) == multiset(init) + multiset{last};
    }
  }

  /** The category query keeps table order. */
  lemma {:induction false} InCategoryOrder(goals: seq<StarGoal>, category: string)
    ensures IsSubsequence(InCategory(goals, category), goals)
  {
    if goals != [] {
      var init := goals[..|goals| - 1];
      var last := goals[|goals| - 1];
      InCategoryOrder(init, category);
      assert goals == init + [last];
      var r := InCategory(goals, category);
      if last.category == category {
        assert r[..|r| - 1] == InCategory(init, category);
      } else {
        assert r == InCategory(init, category);
        SubsequenceExtend(InCategory(init, category), init, last);
      }
    }
  }

  // ---------------------------------------------------------------------------
  // daily_ratings

  predicate RatingIdsUnique(ratings: seq<DailyRating>) {
    forall i, j :: 0 <= i < j < |ratings| ==> ratings[i].id != ratings[j].id
  }

  /** The handler accepts ratings from 1 to 5 stars. */
  predicate InRange(rating: int) {
    1 <= rating <= 5
  }

  /** SELECT ... FROM daily_ratings WHERE goal_id = ?, in table order. */
  function RatingsOf(ratings: seq<DailyRating>, goalId: int): (r: seq<DailyRating>)
    ensures |r| <= |ratings|
    ensures forall i :: 0 <= i < |r| ==> r[i].goalId == goalId
  {
    if ratings == [] then []
    else
      var last := ratings[|ratings| - 1];
      RatingsOf(ratings[..|ratings| - 1], goalId) + (if last.goalId == goalId then [last] else [])
  }

  lemma RatingsOfIn(ratings: seq<DailyRating>, goalId: int, x: DailyRating)
    ensures x in RatingsOf(ratings, goalId) <==> x in ratings && x.goalId == goalId
    ensures multiset(RatingsOf(ratings, goalId))[x] == if x.goalId == goalId then multiset(ratings)[x] else 0
  {
    RatingsOfCount(ratings, goalId, x);
  }

  lemma {:induction false} RatingsOfCount(ratings: seq<DailyRating>, goalId: int, x: DailyRating)
    ensures multiset(RatingsOf(ratings, goalId))[x] == if x.goalId == goalId then multiset(ratings)[x] else 0
  {
    if ratings != [] {
      var init := ratings[..|ratings| - 1];
      var last := ratings[|ratings| - 1];
      RatingsOfCount(init, goalId, x);
      assert ratings == init + [last];
      assert multiset(ratings) == multiset(init) + multiset{last};
    }
  }

  /** SELECT COALESCE(SUM(rating), 0) FROM daily_ratings WHERE goal_id = ? */
  function RatingSum(ratings: seq<DailyRating>, goalId: int): (s: int)
    ensures RatingsOf(ratings, goalId) == [] ==> s == 0
  {
    if ratings == [] then 0
    else
      var last := ratings[|ratings| - 1];
      RatingSum(ratings[..|ratings| - 1], goalId) + (if last.goalId == goalId then last.rating else 0)
  }

  /** With every stored rating in 1..5, a goal's sum lies between one and five stars per rating row. */
  lemma {:induction false} RatingSumBounds(ratings: seq<DailyRating>, goalId: int)
    requires forall x :: x in ratings ==> InRange(x.rating)
    ensures |RatingsOf(ratings, goalId)| <= RatingSum(ratings, goalId) <= 5 * |RatingsOf(ratings, goalId)|
  {
    if ratings != [] {
      var init := ratings[..|ratings| - 1];
      assert forall x :: x in init ==> x in ratings;
      RatingSumBounds(init, goalId);
    }
  }

  /**
   * INSERT INTO daily_ratings ... ON DUPLICATE KEY UPDATE rating = ?, created_at = NOW().
   * Which stored row the new one collides with depends on a unique key the schema
   * defines; `clash` names that row, or None when there is no collision.
   */
  function Upsert(ratings: seq<DailyRating>, clash: Option<nat>, row: DailyRating): (r: seq<DailyRating>)
    requires clash.Some? ==> clash.value < |ratings|
    ensures clash.None? ==> |r| == |ratings| + 1 && r[..|ratings|] == ratings && r[|ratings|] == row
    ensures clash.Some? ==>
      var k := clash.value;
      && |r| == |ratings|
      && (forall i :: 0 <= i < |ratings| && i != k ==> r[i] == ratings[i])
      && r[k] == DailyRating(ratings[k].id, ratings[k].goalId, row.rating, ratings[k].date, row.createdAt)
  {
    match clash
    case None => ratings + [row]
    case Some(k) => ratings[k := ratings[k].(rating := row.rating, createdAt := row.createdAt)]
  }

  /**
   * How the upsert moves the sum the handler recomputes next: a new row adds its
   * rating to its goal's sum; an updated row swaps its old rating for the new one.
   */
  lemma UpsertSum(ratings: seq<DailyRating>, clash: Option<nat>, row: DailyRating, goalId: int)
    requires clash.Some? ==> clash.value < |ratings|
    ensures clash.None? ==>
      RatingSum(Upsert(ratings, clash, row), goalId) ==
        RatingSum(ratings, goalId) + (if row.goalId == goalId then row.rating else 0)
    ensures clash.Some? ==>
      RatingSum(Upsert(ratings, clash, row), goalId) ==
        RatingSum(ratings, goalId) +
        (if ratings[clash.value].goalId == goalId then row.rating - ratings[clash.value].rating else 0)
  {
    if clash.None? {
      assert (ratings + [row])[..|ratings|] == ratings;
    } else {
      RatingSumChange(ratings, Upsert(ratings, clash, row), clash.value, goalId);
    }
  }

  lemma {:induction false} RatingSumChange(ratings: seq<DailyRating>, r: seq<DailyRating>, k: nat, goalId: int)
    requires |r| == |ratings| && k < |ratings| && r[k].goalId == ratings[k].goalId
    requires forall i :: 0 <= i < |ratings| && i != k ==> r[i] == ratings[i]
    ensures RatingSum(r, goalId) ==
      RatingSum(ratings, goalId) + (if ratings[k].goalId == goalId then r[k].rating - ratings[k].rating else 0)
  {
    var n := |ratings|;
    if k == n - 1 {
      assert r[..n - 1] == ratings[..n - 1];
    } else {
      RatingSumChange(ratings[..n - 1], r[..n - 1], k, goalId);
    }
  }

  /** Ratings ordered from the newest date to the oldest. */
  predicate NewestFirst(rs: seq<DailyRating>) {
    forall i, j :: 0 <= i < j < |rs| ==> rs[i].date >= rs[j].date
  }

  /** Puts x before the first rating that is not newer than it. */
  function InsertByDate(x: DailyRating, s: seq<DailyRating>): (r: seq<DailyRating>)
    ensures multiset(r) == multiset(s) + multiset{x}
    ensures |r| == |s| + 1
  {
    if s == [] || x.date >= s[0].date then [x] + s
    else
      assert s == [s[0]] + s[1..];
      [s[0]] + InsertByDate(x, s[1..])
  }

  lemma {:induction false} InsertByDateSorted(x: DailyRating, s: seq<DailyRating>)
    requires NewestFirst(s)
    ensures NewestFirst(InsertByDate(x, s))
  {
    if s != [] && x.date < s[0].date {
      var t := s[1..];
      InsertByDateSorted(x, t);
      var r := InsertByDate(x, t);
      forall k | 0 <= k < |r| ensures s[0].date >= r[k].date {
        assert r[k] in multiset(r);
        assert r[k] in multiset(t) || r[k] == x;
        if r[k] != x {
          var m :| 0 <= m < |t| && t[m] == r[k];
          assert s[m + 1] == r[k];
        }
      }
    }
  }

  /**
   * ORDER BY date DESC. MySQL leaves the order of rows with the same date open; this
   * model's choice is to keep them in table order (InsertByDate puts the earlier row first).
   */
  function SortByDateDesc(s: seq<DailyRating>): (r: seq<DailyRating>)
    ensures multiset(r) == multiset(s)
    ensures |r| == |s|
  {
    if s == [] then []
    else
      assert s == [s[0]] + s[1..];
      InsertByDate(s[0], SortByDateDesc(s[1..]))
  }

  lemma {:induction false} SortByDateDescSorted(s: seq<DailyRating>)
    ensures NewestFirst(SortByDateDesc(s))
  {
    if s != [] {
      SortByDateDescSorted(s[1..]);
      InsertByDateSorted(s[0], SortByDateDesc(s[1..]));
    }
  }

  /** ... WHERE goal_id = ? ORDER BY date DESC LIMIT 7 */
  function LatestRatings(ratings: seq<DailyRating>, goalId: int): (r: seq<DailyRating>)
    ensures |r| <= 7 && |r| <= |RatingsOf(ratings, goalId)|
  {
    var s := SortByDateDesc(RatingsOf(ratings, goalId));
    if |s| <= 7 then s else s[..7]
  }

  /**
   * The latest-ratings query returns the goal's ratings newest first, seven of them
   * when the goal has more, all of them otherwise.
   */
  lemma LatestRatingsOrder(ratings: seq<DailyRating>, goalId: int)
    ensures NewestFirst(LatestRatings(ratings, goalId))
    ensures |LatestRatings(ratings, goalId)| == if |RatingsOf(ratings, goalId)| <= 7 then |RatingsOf(ratings, goalId)| else 7
    ensures |RatingsOf(ratings, goalId)| <= 7 ==> multiset(LatestRatings(ratings, goalId)) == multiset(RatingsOf(ratings, goalId))
  {
    SortByDateDescSorted(RatingsOf(ratings, goalId));
  }

  /** Every rating the latest-ratings query returns is a stored rating of that goal. */
  lemma LatestRatingsOfGoal(ratings: seq<DailyRating>, goalId: int, x: DailyRating)
    requires x in LatestRatings(ratings, goalId)
    ensures x in ratings && x.goalId == goalId
  {
    var s := SortByDateDesc(RatingsOf(ratings, goalId));
    assert x in s;
    assert x in multiset(s);
    RatingsOfIn(ratings, goalId, x);
  }

  /** A rating of the goal that the query leaves out is no newer than any rating it returns. */
  lemma LatestRatingsNewest(ratings: seq<DailyRating>, goalId: int, x: DailyRating, y: DailyRating)
    requires x in RatingsOf(ratings, goalId) && x !in LatestRatings(ratings, goalId)
    requires y in LatestRatings(ratings, goalId)
    ensures y.date >= x.date
  {
    var s := SortByDateDesc(RatingsOf(ratings, goalId));
    var r := LatestRatings(ratings, goalId);
    SortByDateDescSorted(RatingsOf(ratings, goalId));
    assert x in multiset(s);
    var i :| 0 <= i < |s| && s[i] == x;
    var j :| 0 <= j < |r| && r[j] == y;
    assert r == s[..|r|];
    assert s[j] == y;
    assert forall k :: 0 <= k < |r| ==> s[k] != x;
    assert j < i;
  }

  // ---------------------------------------------------------------------------
  // comments

  /** SELECT ... FROM comments WHERE goal_id = ?, in table order. */
  function CommentsOf(table: seq<Comment>, goalId: int): (r: seq<Comment>)
    ensures |r| <= |table|
    ensures forall i :: 0 <= i < |r| ==> r[i].goalId == goalId
  {
    if table == [] then []
    else
      var last := table[|table| - 1];
      CommentsOf(table[..|table| - 1], goalId) + (if last.goalId == goalId then [last] else [])
  }

  lemma {:induction false} CommentsOfIn(table: seq<Comment>, goalId: int, x: Comment)
    ensures x in CommentsOf(table, goalId) <==> x in table && x.goalId == goalId
  {
    if table != [] {
      var init := table[..|table| - 1];
      CommentsOfIn(init, goalId, x);
      assert table == init + [table[|table| - 1]];
    }
  }

  /** Appending a reply whose parent is stored under the same goal keeps replies after their parents. */
  lemma RepliesPrecedeSnoc(rows: seq<Comment>, x: Comment)
    requires RepliesPrecede(rows)
    requires x.parentId.Some? ==> exists y :: y in rows && y.id == x.parentId.value && y.goalId == x.goalId
    ensures RepliesPrecede(rows + [x])
  {
    var r := rows + [x];
    forall i | 0 <= i < |r| ensures ParentBefore(r, i) {
      if i < |rows| {
        assert ParentBefore(rows, i);
        if rows[i].parentId.Some? {
          var j :| 0 <= j < i && rows[j].id == rows[i].parentId.value && rows[j].goalId == rows[i].goalId;
          assert r[j] == rows[j];
        }
      } else if x.parentId.Some? {
        var y :| y in rows && y.id == x.parentId.value && y.goalId == x.goalId;
        var j :| 0 <= j < |rows| && rows[j] == y;
        assert r[j] == y;
      }
    }
  }

  /** The rows one goal's query returns keep unique ids. */
  lemma {:induction false} CommentsOfUnique(table: seq<Comment>, goalId: int)
    requires UniqueIds(table)
    ensures UniqueIds(CommentsOf(table, goalId))
  {
    if table != [] {
      var n := |table|;
      var init := table[..n - 1];
      var last := table[n - 1];
      CommentsOfUnique(init, goalId);
      var r0 := CommentsOf(init, goalId);
      if last.goalId == goalId {
        forall y | y in r0 ensures y.id != last.id {
          CommentsOfIn(init, goalId, y);
          var i :| 0 <= i < |init| && init[i] == y;
          assert table[i] == y;
        }
        UniqueSnoc(r0, last);
      }
    }
  }

  /** The rows one goal's query returns keep table order. */
  lemma {:induction false} CommentsOfOrder(table: seq<Comment>, goalId: int)
    ensures IsSubsequence(CommentsOf(table, goalId), table)
  {
    if table != [] {
      var n := |table|;
      var init := table[..n - 1];
      var last := table[n - 1];
      assert table == init + [last];
      CommentsOfOrder(init, goalId);
      var r0 := CommentsOf(init, goalId);
      var r := CommentsOf(table, goalId);
      if last.goalId == goalId {
        assert r[..|r| - 1] == r0;
      } else {
        assert r == r0;
        SubsequenceExtend(r0, init, last);
      }
    }
  }

  /**
   * In the rows one goal's query returns, replies still follow their parents: a
   * reply's parent has the same goal, so the filter keeps it.
   */
  lemma {:induction false} CommentsOfPrecede(table: seq<Comment>, goalId: int)
    requires RepliesPrecede(table)
    ensures RepliesPrecede(CommentsOf(table, goalId))
  {
    if table != [] {
      var n := |table|;
      var init := table[..n - 1];
      var last := table[n - 1];
      assert RepliesPrecede(init) by {
        forall i | 0 <= i < |init| ensures ParentBefore(init, i) {
          assert ParentBefore(table, i);
        }
      }
      CommentsOfPrecede(init, goalId);
      var r0 := CommentsOf(init, goalId);
      if last.goalId == goalId {
        assert ParentBefore(table, n - 1);
        if last.parentId.Some? {
          var j :| 0 <= j < n - 1 && table[j].id == last.parentId.value && table[j].goalId == last.goalId;
          CommentsOfIn(init, goalId, table[j]);
          assert table[j] in r0;
        }
        RepliesPrecedeSnoc(r0, last);
        assert CommentsOf(table, goalId) == r0 + [last];
      } else {
        assert CommentsOf(table, goalId) == r0;
      }
    }
  }

  // ---------------------------------------------------------------------------
  // The database

  /** The three tables and their auto-increment counters. */
  class Database {
    var goals: seq<StarGoal>
    var ratings: seq<DailyRating>
    var comments: seq<Comment>
    var nextGoalId: int
    var nextRatingId: int
    var nextCommentId: int

    /**
     * Ids are unique and below their counters, stored ratings are in 1..5 (the only
     * writer checks the range), and every reply follows a comment of the same goal
     * with its parent id (the only writer checks that parent).
     */
    predicate Valid()
      reads this
    {
      && GoalIdsUnique(goals) && (forall g :: g in goals ==> g.id < nextGoalId)
      && RatingIdsUnique(ratings) && (forall x :: x in ratings ==> x.id < nextRatingId)
      && (forall x :: x in ratings ==> InRange(x.rating))
      && UniqueIds(comments) && (forall c :: c in comments ==> c.id < nextCommentId)
      && RepliesPrecede(comments)
    }

    /** Empty tables; auto-increment starts at 1. */
    constructor ()
      ensures Valid()
      ensures goals == [] && ratings == [] && comments == []
      ensures nextGoalId == 1 && nextRatingId == 1 && nextCommentId == 1
    {
      goals := [];
      ratings := [];
      comments := [];
      nextGoalId := 1;
      nextRatingId := 1;
      nextCommentId := 1;
    }
  }
}
