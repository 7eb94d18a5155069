/**
 * What the goal page's handlers do that a user or the server can observe: an
 * alert, a request, and the page updates that follow (stars/code/fronted/js/goals.js).
 */
module Page {
  import opened Api

  datatype Effect =
    | Alert(message: string)
    | Call(request: Request)
    | ClearCommentInput
    | ReloadComments
    | ResetGoalForm
    | Navigate(page: string)

  /**
   * The requests a handler itself sends. ReloadComments stands for the page's
   * loadComments, whose own GET of the comments path is not listed here.
   */
  function Calls(effects: seq<Effect>): (r: seq<Request>)
    ensures |r| <= |effects|
  {
    if effects == [] then []
    else (if effects[0].Call? then [effects[0].request] else []) + Calls(effects[1..])
  }

  /** A handler itself sends a request exactly when a Call of it is among its effects. */
  lemma {:induction false} CallsIn(effects: seq<Effect>, q: Request)
    ensures q in Calls(effects) <==> Call(q) in effects
  {
    if effects != [] {
      CallsIn(effects[1..], q);
      assert Call(q) in effects <==> effects[0] == Call(q) || Call(q) in effects[1..];
    }
  }

  /** Effects without a Call send nothing. */
  lemma {:induction false} NoCalls(effects: seq<Effect>)
    requires forall i :: 0 <= i < |effects| ==> !effects[i].Call?
    ensures Calls(effects) == []
  {
    if effects != [] {
      NoCalls(effects[1..]);
    }
  }

  /** A request followed by effects that send nothing: the request is the only one sent. */
  lemma CallsFront(q: Request, rest: seq<Effect>)
    requires forall i :: 0 <= i < |rest| ==> !rest[i].Call?
    ensures Calls([Call(q)] + rest) == [q]
  {
    assert ([Call(q)] + rest)[1..] == rest;
    NoCalls(rest);
  }

  const EnterComment := "请输入评论内容"
  const CommentPosted := "评论发布成功！"
  const CommentFailed := "发布评论失败，请稍后重试"
  const EnterReply := "请输入回复内容"
  const ReplyPosted := "回复发布成功！"
  const ReplyFailed := "发布回复失败，请稍后重试"
  const FillRequired := "请填写必填字段"
  const GoalCreated := "目标创建成功！"
  const GoalCreateFailed := "创建目标失败，请稍后重试"
  const GoalDeleted := "目标删除成功！"
  const GoalDeleteFailed := "删除目标失败，请稍后重试"
  const GoalListPage := "goal-list.html"
}
