/**
 * What the gin handlers send back: a status code and a JSON body, the body kept
 * abstract as the value it encodes.
 */
module Responses {
  import opened Wrappers
  import opened Models
  import opened CommentTree

  const StatusOK := 200
  const StatusCreated := 201
  const StatusNoContent := 204
  const StatusBadRequest := 400
  const StatusNotFound := 404

  const InvalidGoalId := "无效的目标ID"
  const GoalNotFound := "目标未找到"
  const ParentNotFound := "父评论未找到或不属于该目标"
  const RatingOutOfRange := "评分必须在1-5之间"
  const RatingRecorded := "评分记录成功"

  /**
   * A JSON body. A list is None when the handler's slice stayed nil, which gin
   * writes as `null`; `BindError` stands for the decoder's own error text.
   */
  datatype Body =
    | ErrorBody(error: string)
    | BindError
    | GoalBody(goal: StarGoal)
    | GoalsBody(goals: Option<seq<StarGoal>>)
    | TotalStarsBody(totalStars: int)
    | MessageBody(message: string)
    | RatingsBody(ratings: Option<seq<DailyRating>>)
    | CommentBody(comment: Comment)
    | CommentsBody(comments: Option<seq<Node>>, total: int)
    | NoBody

  datatype Response = Response(status: int, body: Body)

  /** A Go slice grown by append from nil: encoded as null when nothing was appended. */
  function SliceJson<T>(s: seq<T>): (r: Option<seq<T>>)
    ensures r.None? <==> s == []
    ensures r.Some? ==> r.value == s
  {
    if s == [] then None else Some(s)
  }
}
