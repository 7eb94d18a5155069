/**
 * The goal page of stars/code/fronted/js/goals.js outside the comment section:
 * the star widget (renderStarRating :6-14), the new-goal form (createGoal
 * :491-531), the delete button (deleteGoal :557-571), and the daily-ratings panel
 * (loadDailyRatings :183-215).
 */
module GoalView {
  import opened Wrappers
  import opened Models
  import opened Store
  import opened Responses
  import opened Api
  import opened Page

  // ---------------------------------------------------------------------------
  // The star widget

  /** One star of the widget: its goal, its number from 1 to 5, and whether it is drawn filled. */
  datatype Star = Star(goalId: int, number: int, filled: bool)

  const WidgetStars := 5

  /** How many stars of the widget a star count fills: none below zero, all five from five up. */
  function FilledStars(currentStars: int): (n: nat)
    ensures n <= WidgetStars
    ensures 0 <= currentStars <= WidgetStars ==> n == currentStars
    ensures currentStars < 0 ==> n == 0
    ensures currentStars > WidgetStars ==> n == WidgetStars
  {
    if currentStars < 0 then 0 else if currentStars > WidgetStars then WidgetStars else currentStars
  }

  /**
   * renderStarRating(goalId, currentStars): five stars numbered 1 to 5 in order,
   * star i filled exactly when i <= currentStars, so the filled ones are the first
   * FilledStars(currentStars).
   */
  method RenderStarRating(goalId: int, currentStars: int) returns (stars: seq<Star>)
    ensures |stars| == WidgetStars
    ensures forall k :: 0 <= k < |stars| ==> stars[k].goalId == goalId && stars[k].number == k + 1
    ensures forall k :: 0 <= k < |stars| ==> (stars[k].filled <==> stars[k].number <= currentStars)
    ensures forall k :: 0 <= k < |stars| ==> (stars[k].filled <==> k < FilledStars(currentStars))
  {
    stars := [];
    var i := 1;
    while i <= WidgetStars
      invariant 1 <= i <= WidgetStars + 1
      invariant |stars| == i - 1
      invariant forall k :: 0 <= k < |stars| ==> stars[k] == Star(goalId, k + 1, k + 1 <= currentStars)
    {
      stars := stars + [Star(goalId, i, i <= currentStars)];
      i := i + 1;
    }
  }

  /**
   * A goal whose stars were last recomputed from five or more in-range ratings
   * shows a full widget: its star count is at least the number of its ratings.
   */
  lemma FullWidgetAfterFiveRatings(ratings: seq<DailyRating>, goalId: int)
    requires forall i :: 0 <= i < |ratings| ==> InRange(ratings[i].rating)
    requires |RatingsOf(ratings, goalId)| >= WidgetStars
    ensures FilledStars(RatingSum(ratings, goalId)) == WidgetStars
  {
    RatingSumBounds(ratings, goalId);
  }

  // ---------------------------------------------------------------------------
  // The new-goal form

  /**
   * createGoal: an empty title or category (no trimming: blanks pass) only raises
   * an alert. Otherwise the form is posted as a goal with zero stars; a settled post
   * announces success and resets the form, a failed one announces the failure.
   */
  function CreateGoalFlow(title: string, description: string, category: string, reply: Option<Response>): (r: seq<Effect>)
    ensures Calls(r) == [] <==> title == [] || category == []
    ensures title == [] || category == [] ==> r == [Alert(FillRequired)]
    ensures title != [] && category != [] ==>
      && Calls(r) == [Send(Post, GoalsPath, GoalPayload(title, description, category, 0))]
      && r[0] == Call(Send(Post, GoalsPath, GoalPayload(title, description, category, 0)))
    ensures title != [] && category != [] && Settle(reply).Success? ==> r[1..] == [Alert(GoalCreated), ResetGoalForm]
    ensures title != [] && category != [] && Settle(reply).Failure? ==> r[1..] == [Alert(GoalCreateFailed)]
  {
    if title == [] || category == [] then [Alert(FillRequired)]
    else
      var q := Send(Post, GoalsPath, GoalPayload(title, description, category, 0));
      var outcome := if Settle(reply).Success? then [Alert(GoalCreated), ResetGoalForm] else [Alert(GoalCreateFailed)];
      CallsFront(q, outcome);
      [Call(q)] + outcome
  }

  // ---------------------------------------------------------------------------
  // The delete button

  /**
   * deleteGoal as written: the DELETE request settles through the helper that
   * parses the body; success is announced and the page leaves for the goal list,
   * and any failure is announced instead.
   */
  function DeleteGoalFlow(goalId: int, reply: Option<Response>): (r: seq<Effect>)
    ensures Calls(r) == [Send(Delete, GoalByIdPath(goalId), NoPayload)]
    ensures Settle(reply).Success? ==> r[1..] == [Alert(GoalDeleted), Navigate(GoalListPage)]
    ensures Settle(reply).Failure? ==> r[1..] == [Alert(GoalDeleteFailed)]
  {
    var q := Send(Delete, GoalByIdPath(goalId), NoPayload);
    var outcome := if Settle(reply).Success? then [Alert(GoalDeleted), Navigate(GoalListPage)] else [Alert(GoalDeleteFailed)];
    CallsFront(q, outcome);
    [Call(q)] + outcome
  }

  /**
   * The server's answer to a deletion that took place (204, no body) is reported as
   * a failure by the page as written: the user is told the deletion failed and
   * stays on the page of a goal that no longer exists.
   */
  lemma DeletedGoalReportedFailed(goalId: int)
    ensures DeleteGoalFlow(goalId, Some(Response(StatusNoContent, NoBody)))[1..] == [Alert(GoalDeleteFailed)]
    ensures Navigate(GoalListPage) !in DeleteGoalFlow(goalId, Some(Response(StatusNoContent, NoBody)))
  {
    DeleteSuccessThrows();
    var r := DeleteGoalFlow(goalId, Some(Response(StatusNoContent, NoBody)));
    assert r == [r[0]] + r[1..];
  }

  /** deleteGoal as intended: the DELETE request settles through the helper that accepts an empty ok body. */
  function DeleteGoalFlowFixed(goalId: int, reply: Option<Response>): (r: seq<Effect>)
    ensures Calls(r) == [Send(Delete, GoalByIdPath(goalId), NoPayload)]
    ensures SettleEmptyOk(reply).Success? ==> r[1..] == [Alert(GoalDeleted), Navigate(GoalListPage)]
    ensures SettleEmptyOk(reply).Failure? ==> r[1..] == [Alert(GoalDeleteFailed)]
  {
    var q := Send(Delete, GoalByIdPath(goalId), NoPayload);
    var outcome := if SettleEmptyOk(reply).Success? then [Alert(GoalDeleted), Navigate(GoalListPage)] else [Alert(GoalDeleteFailed)];
    CallsFront(q, outcome);
    [Call(q)] + outcome
  }

  /**
   * With the corrected helper the page announces a deletion exactly when the
   * server answered with an ok status, and leaves for the goal list exactly then.
   */
  lemma DeleteReportedIffOk(goalId: int, reply: Option<Response>)
    ensures DeleteGoalFlowFixed(goalId, reply)[1..] == [Alert(GoalDeleted), Navigate(GoalListPage)]
            <==> reply.Some? && IsOk(reply.value.status)
    ensures DeleteGoalFlowFixed(goalId, reply)[1..] == [Alert(GoalDeleteFailed)]
            <==> !(reply.Some? && IsOk(reply.value.status))
  {
    var r := DeleteGoalFlowFixed(goalId, reply);
    if reply.Some? && IsOk(reply.value.status) {
      assert SettleEmptyOk(reply).Success?;
    } else {
      assert SettleEmptyOk(reply).Failure?;
      assert r[1..][0] == Alert(GoalDeleteFailed);
    }
  }

  // ---------------------------------------------------------------------------
  // The daily-ratings panel

  /**
   * ratings.sort((a, b) => new Date(b.date) - new Date(a.date)), in place: an
   * insertion sort that moves a rating ahead only past strictly older ones, so the
   * array ends up newest first and holds the same ratings.
   */
  method SortNewestFirst(a: array<DailyRating>)
    modifies a
    ensures NewestFirst(a[..])
    ensures multiset(a[..]) == multiset(old(a[..]))
  {
    var i := 0;
    while i < a.Length
      invariant 0 <= i <= a.Length
      invariant forall k, l :: 0 <= k < l < i ==> a[k].date >= a[l].date
      invariant multiset(a[..]) == multiset(old(a[..]))
    {
      MoveAhead(a, i);
      i := i + 1;
    }
  }

  /** One insertion step: a[i] moves ahead past the strictly older ratings before it, into the newest-first prefix. */
  method MoveAhead(a: array<DailyRating>, i: int)
    requires 0 <= i < a.Length
    requires forall k, l :: 0 <= k < l < i ==> a[k].date >= a[l].date
    modifies a
    ensures forall k, l :: 0 <= k < l <= i ==> a[k].date >= a[l].date
    ensures multiset(a[..]) == multiset(old(a[..]))
  {
    var j := i;
    while j > 0 && a[j - 1].date < a[j].date
      invariant 0 <= j <= i
      invariant forall k, l :: 0 <= k < l <= i && l != j ==> a[k].date >= a[l].date
      invariant multiset(a[..]) == multiset(old(a[..]))
    {
      a[j - 1], a[j] := a[j], a[j - 1];
      j := j - 1;
    }
  }

  /** '⭐'.repeat(n): one star per rating point. */
  function StarText(n: nat): (t: string)
    ensures |t| == n
    ensures forall k :: 0 <= k < |t| ==> t[k] == '⭐'
  {
    if n == 0 then [] else StarText(n - 1) + ['⭐']
  }

  /** One line of the panel: the rating's date and its stars. */
  datatype RatingLine = RatingLine(date: int, stars: string)

  function Lines(s: seq<DailyRating>): (lines: seq<RatingLine>)
    requires forall k :: 0 <= k < |s| ==> s[k].rating >= 0
    ensures |lines| == |s|
    ensures forall k :: 0 <= k < |s| ==> lines[k].date == s[k].date && |lines[k].stars| == s[k].rating
  {
    seq(|s|, k requires 0 <= k < |s| => RatingLine(s[k].date, StarText(s[k].rating)))
  }

  /** What the daily-ratings container shows. */
  datatype RatingsPanel = RatingsFailed | NoRatings | RatingsList(lines: seq<RatingLine>)

  /** The ratings of a settled reply, when it is a list of ratings. */
  predicate HasRatings(reply: Option<Response>) {
    Settle(reply).Success? && Settle(reply).value.RatingsBody?
  }

  /**
   * loadDailyRatings: a failed request, a body that is no list, or a negative rating
   * (on which repeat throws) shows the error text; a null or empty list shows the
   * placeholder; otherwise the list shows the ratings sorted newest first, each as
   * its date and one star per rating point. Only this endpoint's own bodies are
   * meant: its null list is RatingsBody(None); a bare JSON null of another shape
   * would show the placeholder on the page.
   */
  method LoadDailyRatings(reply: Option<Response>) returns (p: RatingsPanel)
    ensures !HasRatings(reply) ==> p == RatingsFailed
    ensures HasRatings(reply) ==>
      var rs := Settle(reply).value.ratings;
      && (p == NoRatings <==> rs.None? || rs == Some([]))
      && (p == RatingsFailed <==> rs.Some? && exists k :: 0 <= k < |rs.value| && rs.value[k].rating < 0)
      && (p.RatingsList? ==>
            exists s: seq<DailyRating> :: && NewestFirst(s) && multiset(s) == multiset(rs.value)
                        && (forall k :: 0 <= k < |s| ==> s[k].rating >= 0)
                        && p.lines == Lines(s))
  {
    if !HasRatings(reply) {
      return RatingsFailed;
    }
    var rs := Settle(reply).value.ratings;
    if rs.None? || rs.value == [] {
      return NoRatings;
    }
    var a := new DailyRating[|rs.value|](k requires 0 <= k < |rs.value| => rs.value[k]);
    assert a[..] == rs.value;
    SortNewestFirst(a);
    var s := a[..];
    var i := 0;
    while i < a.Length
      invariant 0 <= i <= a.Length
      invariant forall k :: 0 <= k < i ==> s[k].rating >= 0
    {
      if a[i].rating < 0 {
        assert a[i] in multiset(rs.value);
        return RatingsFailed;
      }
      i := i + 1;
    }
    forall k | 0 <= k < |rs.value| ensures rs.value[k].rating >= 0 {
      assert rs.value[k] in multiset(s);
    }
    p := RatingsList(Lines(s));
  }
}
