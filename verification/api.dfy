/**
 * The browser's API layer (stars/code/fronted/js/api.js): the endpoint paths, the
 * request URLs, and how a fetch result becomes a value or a thrown error. The
 * gin route table the paths are meant for (stars/code/backend/routes/goal_routes.go)
 * is written out as a dispatcher, so that each path builder can be checked against
 * the handler it reaches.
 */
module Api {
  import opened Wrappers
  import opened Text
  import opened Responses

  const BaseUrl := "http://localhost:8080"

  const GoalsPath := "/goals"
  const TotalStarsPath := "/stars"

  /** `/goals/${id}`: the goals path and one more segment, the id's decimal text. */
  function GoalByIdPath(id: int): (p: string)
    ensures |p| > |GoalsPath| + 1 && p[..|GoalsPath| + 1] == GoalsPath + "/"
    ensures Plain(p[|GoalsPath| + 1..])
  {
    "/goals/" + DecimalString(id)
  }

  function GoalsByCategoryPath(category: string): (p: string)
    ensures p == GoalsPath + "/category/" + category
  {
    "/goals/category/" + category
  }

  /** `/goals/${id}/daily-rating`: the goal's path followed by a fixed suffix. */
  function DailyRatingPath(id: int): (p: string)
    ensures p == GoalByIdPath(id) + "/daily-rating"
  {
    "/goals/" + DecimalString(id) + "/daily-rating"
  }

  /** `/goals/${id}/daily-ratings`: the goal's path followed by a fixed suffix. */
  function DailyRatingsPath(id: int): (p: string)
    ensures p == GoalByIdPath(id) + "/daily-ratings"
  {
    "/goals/" + DecimalString(id) + "/daily-ratings"
  }

  /** `/goals/${id}/comments`: the goal's path followed by a fixed suffix. */
  function CommentsPath(id: int): (p: string)
    ensures p == GoalByIdPath(id) + "/comments"
  {
    "/goals/" + DecimalString(id) + "/comments"
  }

  // ---------------------------------------------------------------------------
  // Requests

  datatype Verb = Get | Post | Put | Delete

  /** The JSON objects the page sends. */
  datatype Payload =
    | NoPayload
    | GoalPayload(title: string, description: string, category: string, stars: int)
    | CommentPayload(goalId: int, parentId: Option<int>, content: string)

  datatype Request = Request(verb: Verb, url: string, payload: Payload)

  /** fetch(BASE_URL + url, ...): every request goes to the base URL followed by the endpoint path. */
  function Send(verb: Verb, path: string, payload: Payload): (q: Request)
    ensures |q.url| == |BaseUrl| + |path|
    ensures q.url[..|BaseUrl|] == BaseUrl && q.url[|BaseUrl|..] == path
    ensures q.verb == verb && q.payload == payload
  {
    Request(verb, BaseUrl + path, payload)
  }

  // ---------------------------------------------------------------------------
  // The route table

  /** A path's segments: the text between slashes. */
  function Split(s: string): (r: seq<string>)
    ensures |r| >= 1
  {
    if s == [] then [""]
    else if s[0] == '/' then [""] + Split(s[1..])
    else
      var rest := Split(s[1..]);
      [[s[0]] + rest[0]] + rest[1..]
  }

  /** A segment without a slash is one piece, and a slash ends it. */
  lemma {:induction false} SplitJoin(a: string, b: string)
    requires Plain(a)
    ensures Split(a) == [a]
    ensures Split(a + "/" + b) == [a] + Split(b)
  {
    if a != [] {
      SplitJoin(a[1..], b);
      assert (a + "/" + b)[1..] == a[1..] + "/" + b;
      assert [a[0]] + a[1..] == a;
    } else {
      assert a + "/" + b == "/" + b;
      assert ("/" + b)[1..] == b;
    }
  }

  /** No slash in a segment. */
  predicate Plain(a: string) {
    forall i :: 0 <= i < |a| ==> a[i] != '/'
  }

  /** Two plain segments joined by a slash split back into the two. */
  lemma SplitTwo(a: string, b: string)
    requires Plain(a) && Plain(b)
    ensures Split(a + "/" + b) == [a, b]
  {
    SplitJoin(a, b);
    SplitJoin(b, "");
  }

  /** Three plain segments joined by slashes split back into the three. */
  lemma SplitThree(a: string, b: string, c: string)
    requires Plain(a) && Plain(b) && Plain(c)
    ensures Split(a + "/" + b + "/" + c) == [a, b, c]
  {
    SplitTwo(b, c);
    SplitJoin(a, b + "/" + c);
    assert a + "/" + b + "/" + c == a + "/" + (b + "/" + c);
  }

  datatype Route =
    | CreateGoalRoute | ListGoalsRoute
    | GetGoalRoute(id: string) | UpdateGoalRoute(id: string) | DeleteGoalRoute(id: string)
    | CategoryRoute(category: string) | TotalStarsRoute
    | AddRatingRoute(id: string) | RatingsRoute(id: string)
    | CreateCommentRoute(id: string) | CommentsRoute(id: string)

  /**
   * gin's route table: one tree per verb, `:name` matching one non-empty segment
   * and a static segment taking priority over a parameter, so in the GET tree
   * `/goals/category/x` is the category route.
   */
  function Dispatch(verb: Verb, path: string): (r: Option<Route>)
    ensures path == [] || path[0] != '/' ==> r.None?
    ensures r.Some? && verb == Put ==> r.value.UpdateGoalRoute?
    ensures r.Some? && verb == Delete ==> r.value.DeleteGoalRoute?
  {
    if path == [] || path[0] != '/' then None else Match(verb, Split(path[1..]))
  }

  /** The route a verb and a path's segments select. */
  function Match(verb: Verb, s: seq<string>): (r: Option<Route>)
    ensures r.Some? ==> |s| >= 1 && (s[0] == "goals" || s == ["stars"])
    ensures r.Some? && verb == Post ==> r.value.CreateGoalRoute? || r.value.AddRatingRoute? || r.value.CreateCommentRoute?
    ensures r.Some? && verb == Put ==> r.value.UpdateGoalRoute?
    ensures r.Some? && verb == Delete ==> r.value.DeleteGoalRoute?
    ensures r.Some? && verb == Get ==>
      || r.value.ListGoalsRoute? || r.value.GetGoalRoute? || r.value.CategoryRoute?
      || r.value.TotalStarsRoute? || r.value.RatingsRoute? || r.value.CommentsRoute?
  {
      if s == ["goals"] then
        (if verb == Post then Some(CreateGoalRoute) else if verb == Get then Some(ListGoalsRoute) else None)
      else if s == ["stars"] then
        (if verb == Get then Some(TotalStarsRoute) else None)
      else if |s| == 2 && s[0] == "goals" && s[1] != "" then
        match verb
        case Get => Some(GetGoalRoute(s[1]))
        case Put => Some(UpdateGoalRoute(s[1]))
        case Delete => Some(DeleteGoalRoute(s[1]))
        case Post => None
      else if |s| == 3 && s[0] == "goals" && verb == Get && s[1] == "category" && s[2] != "" then
        Some(CategoryRoute(s[2]))
      else if |s| == 3 && s[0] == "goals" && s[1] != "" then
        if s[2] == "daily-rating" && verb == Post then Some(AddRatingRoute(s[1]))
        else if s[2] == "daily-ratings" && verb == Get then Some(RatingsRoute(s[1]))
        else if s[2] == "comments" && verb == Post then Some(CreateCommentRoute(s[1]))
        else if s[2] == "comments" && verb == Get then Some(CommentsRoute(s[1]))
        else None
      else None
  }

  /** The segments of `/goals/${id}`. */
  lemma GoalPathSegments(id: int)
    ensures Split(GoalByIdPath(id)[1..]) == ["goals", DecimalString(id)]
  {
    var d := DecimalString(id);
    SplitTwo("goals", d);
    assert GoalByIdPath(id)[1..] == "goals" + "/" + d;
  }

  /** The segments of `/goals/${id}/<suffix>`. */
  lemma SuffixPathSegments(id: int, suffix: string)
    requires Plain(suffix)
    ensures Split((GoalByIdPath(id) + "/" + suffix)[1..]) == ["goals", DecimalString(id), suffix]
  {
    var d := DecimalString(id);
    SplitThree("goals", d, suffix);
    assert (GoalByIdPath(id) + "/" + suffix)[1..] == "goals" + "/" + d + "/" + suffix;
  }

  /**
   * The goal path reaches the goal handlers, and the `:id` they read parses back
   * to the id the page put in (for any id Go's int holds).
   */
  lemma GoalPathRoutes(id: int)
    requires MinInt64 <= id <= MaxInt64
    ensures Atoi(DecimalString(id)) == Some(id)
    ensures Dispatch(Get, GoalByIdPath(id)) == Some(GetGoalRoute(DecimalString(id)))
    ensures Dispatch(Put, GoalByIdPath(id)) == Some(UpdateGoalRoute(DecimalString(id)))
    ensures Dispatch(Delete, GoalByIdPath(id)) == Some(DeleteGoalRoute(DecimalString(id)))
  {
    AtoiDecimalString(id);
    GoalPathSegments(id);
  }

  /** A path under a goal routes by its three segments. */
  lemma SuffixDispatch(verb: Verb, id: int, suffix: string)
    requires Plain(suffix)
    ensures Dispatch(verb, GoalByIdPath(id) + "/" + suffix) == Match(verb, ["goals", DecimalString(id), suffix])
  {
    SuffixPathSegments(id, suffix);
  }

  /** The id segment of a goal path is neither empty nor the word `category`. */
  lemma IdSegmentPlain(id: int)
    ensures DecimalString(id) != "" && DecimalString(id) != "category"
  {
    var d := DecimalString(id);
    assert d[0] == '-' || IsDigit(d[0]);
  }

  /** The rating path reaches AddDailyRating, with the page's id as `:id`. */
  lemma AddRatingPathRoute(id: int)
    ensures Dispatch(Post, DailyRatingPath(id)) == Some(AddRatingRoute(DecimalString(id)))
  {
    IdSegmentPlain(id);
    SuffixDispatch(Post, id, "daily-rating");
    var s: seq<string> := ["goals", DecimalString(id), "daily-rating"];
    assert |s| == 3 && s[0] == "goals" && s[1] != "" && s[2] == "daily-rating";
    assert Match(Post, s) == Some(AddRatingRoute(DecimalString(id)));
    assert DailyRatingPath(id) == GoalByIdPath(id) + "/" + "daily-rating";
  }

  /** The ratings path reaches GetDailyRatings, with the page's id as `:id`. */
  lemma RatingsPathRoute(id: int)
    ensures Dispatch(Get, DailyRatingsPath(id)) == Some(RatingsRoute(DecimalString(id)))
  {
    IdSegmentPlain(id);
    SuffixDispatch(Get, id, "daily-ratings");
    assert |"daily-ratings"| != |"daily-rating"| && |"daily-ratings"| != |"comments"|;
    assert DailyRatingsPath(id) == GoalByIdPath(id) + "/" + "daily-ratings";
  }

  /** The comments path reaches the comment handlers, with the page's id as `:id`. */
  lemma CommentPathsRoute(id: int)
    ensures Dispatch(Post, CommentsPath(id)) == Some(CreateCommentRoute(DecimalString(id)))
    ensures Dispatch(Get, CommentsPath(id)) == Some(CommentsRoute(DecimalString(id)))
  {
    IdSegmentPlain(id);
    SuffixDispatch(Post, id, "comments");
    SuffixDispatch(Get, id, "comments");
    assert CommentsPath(id) == GoalByIdPath(id) + "/" + "comments";
  }

  /** The segments of `/goals/category/${category}` for a category without a slash. */
  lemma CategoryPathSegments(category: string)
    requires Plain(category)
    ensures Split(GoalsByCategoryPath(category)[1..]) == ["goals", "category", category]
  {
    SplitThree("goals", "category", category);
    assert GoalsByCategoryPath(category)[1..] == "goals" + "/" + "category" + "/" + category;
  }

  /** A category that is one plain path segment reaches the category handler unchanged. */
  lemma CategoryPathRoutes(category: string)
    requires category != [] && Plain(category)
    ensures Dispatch(Get, GoalsByCategoryPath(category)) == Some(CategoryRoute(category))
  {
    CategoryPathSegments(category);
    var s: seq<string> := ["goals", "category", category];
    assert |s| == 3 && s[0] == "goals" && s[1] == "category" && s[2] == category;
    assert Match(Get, s) == Some(CategoryRoute(category));
  }

  /** A path of one plain segment routes by that segment alone. */
  lemma OneSegmentDispatch(verb: Verb, a: string)
    requires Plain(a)
    ensures Dispatch(verb, "/" + a) == Match(verb, [a])
  {
    SplitJoin(a, "");
    assert ("/" + a)[1..] == a;
  }

  /** The goals path reaches the goal list and goal creation. */
  lemma GoalsPathRoutes()
    ensures Dispatch(Get, GoalsPath) == Some(ListGoalsRoute)
    ensures Dispatch(Post, GoalsPath) == Some(CreateGoalRoute)
  {
    OneSegmentDispatch(Get, "goals");
    OneSegmentDispatch(Post, "goals");
  }

  /** The stars path reaches the star total. */
  lemma StarsPathRoute()
    ensures Dispatch(Get, TotalStarsPath) == Some(TotalStarsRoute)
  {
    OneSegmentDispatch(Get, "stars");
    var s: seq<string> := ["stars"];
    assert s != ["goals"] by {
      assert s[0][0] != "goals"[0];
    }
  }

  // ---------------------------------------------------------------------------
  // Settling a request

  /** Why a request threw. */
  datatype Fault = NetworkError | HttpError(status: int) | ParseError

  /** response.ok: a status from 200 to 299. */
  predicate IsOk(status: int) {
    200 <= status <= 299
  }

  /**
   * What `await http.get/post/put/delete(...)` gives: `reply` is None when fetch
   * itself rejects. A status outside 2xx throws; otherwise the body is parsed as
   * JSON, and an empty body does not parse.
   */
  function Settle(reply: Option<Response>): (r: Result<Body, Fault>)
    ensures r.Success? ==> reply.Some? && IsOk(reply.value.status) && r.value == reply.value.body
  {
    match reply
    case None => Failure(NetworkError)
    case Some(resp) =>
      if !IsOk(resp.status) then Failure(HttpError(resp.status))
      else if resp.body.NoBody? then Failure(ParseError)
      else Success(resp.body)
  }

  /** A response with a non-ok status always throws, with that status, and never yields a body. */
  lemma NonOkThrows(resp: Response)
    requires !IsOk(resp.status)
    ensures Settle(Some(resp)) == Failure(HttpError(resp.status))
    ensures SettleEmptyOk(Some(resp)) == Failure(HttpError(resp.status))
  {
  }

  /**
   * The DELETE helper as written parses the body too, but a successful DeleteGoal
   * answers 204 with no body: the deletion is reported to the page as an error.
   */
  lemma DeleteSuccessThrows()
    ensures Settle(Some(Response(StatusNoContent, NoBody))) == Failure(ParseError)
  {
  }

  /**
   * The DELETE helper as intended: an ok status with an empty body settles with no
   * value instead of failing to parse. Everything else settles as before.
   */
  function SettleEmptyOk(reply: Option<Response>): (r: Result<Body, Fault>)
    ensures reply.Some? && IsOk(reply.value.status) ==> r == Success(reply.value.body)
    ensures reply.None? || !IsOk(reply.value.status) || !reply.value.body.NoBody? ==> r == Settle(reply)
  {
    match reply
    case Some(resp) =>
      if IsOk(resp.status) && resp.body.NoBody? then Success(NoBody) else Settle(reply)
    case None => Settle(reply)
  }
}
