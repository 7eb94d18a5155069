/**
 * The comment section's handlers in stars/code/fronted/js/goals.js: posting a
 * comment or a reply (submitComment :431-459, submitReply :462-488), and the
 * reply, cancel and expand/collapse buttons (bindReplyEvents :291-324,
 * bindToggleReplyEvents :396-413).
 */
module CommentControls {
  import opened Wrappers
  import opened Text
  import opened Responses
  import opened Api
  import opened Page
  import opened CommentView

  /** The request both submit handlers send: goalAPI.createComment(goalId, data). */
  function CreateCommentCall(goalId: int, parentId: Option<int>, content: string): Request {
    Send(Post, CommentsPath(goalId), CommentPayload(goalId, parentId, content))
  }

  /**
   * What submitComment does with the trimmed text: an empty one only raises an
   * alert. Otherwise it is posted as a top-level comment; once the post settles the
   * input is cleared, the list reloaded and success announced, and a failed post
   * only announces the failure.
   */
  function CommentFlow(goalId: int, content: string, reply: Option<Response>): (r: seq<Effect>)
    ensures Calls(r) == [] <==> content == []
    ensures content != [] ==> Calls(r) == [CreateCommentCall(goalId, None, content)] && r[0] == Call(CreateCommentCall(goalId, None, content))
    ensures content == [] ==> r == [Alert(EnterComment)]
    ensures content != [] && Settle(reply).Success? ==> r[1..] == [ClearCommentInput, ReloadComments, Alert(CommentPosted)]
    ensures content != [] && Settle(reply).Failure? ==> r[1..] == [Alert(CommentFailed)]
  {
    if content == [] then [Alert(EnterComment)]
    else
      var outcome := if Settle(reply).Success? then [ClearCommentInput, ReloadComments, Alert(CommentPosted)]
                     else [Alert(CommentFailed)];
      CallsFront(CreateCommentCall(goalId, None, content), outcome);
      [Call(CreateCommentCall(goalId, None, content))] + outcome
  }

  /**
   * What submitReply does with the trimmed text: as CommentFlow, but the payload
   * names the parent, and a posted reply reloads the list without clearing anything.
   */
  function ReplyFlow(goalId: int, parentId: int, content: string, reply: Option<Response>): (r: seq<Effect>)
    ensures Calls(r) == [] <==> content == []
    ensures content != [] ==> Calls(r) == [CreateCommentCall(goalId, Some(parentId), content)] && r[0] == Call(CreateCommentCall(goalId, Some(parentId), content))
    ensures content == [] ==> r == [Alert(EnterReply)]
    ensures content != [] && Settle(reply).Success? ==> r[1..] == [ReloadComments, Alert(ReplyPosted)]
    ensures content != [] && Settle(reply).Failure? ==> r[1..] == [Alert(ReplyFailed)]
  {
    if content == [] then [Alert(EnterReply)]
    else
      var outcome := if Settle(reply).Success? then [ReloadComments, Alert(ReplyPosted)] else [Alert(ReplyFailed)];
      CallsFront(CreateCommentCall(goalId, Some(parentId), content), outcome);
      [Call(CreateCommentCall(goalId, Some(parentId), content))] + outcome
  }

  /** submitComment(goalId): the input's trimmed text goes through CommentFlow; only a blank input sends nothing. */
  function SubmitComment(goalId: int, input: string, reply: Option<Response>): (r: seq<Effect>)
    ensures Calls(r) == [] <==> Blank(input)
  {
    CommentFlow(goalId, Trim(input), reply)
  }

  /** submitReply(goalId, parentId, content): the same for a reply. */
  function SubmitReply(goalId: int, parentId: int, input: string, reply: Option<Response>): (r: seq<Effect>)
    ensures Calls(r) == [] <==> Blank(input)
  {
    ReplyFlow(goalId, parentId, Trim(input), reply)
  }

  /**
   * Whatever submitComment sends is a POST to the goal's comments path of a
   * top-level comment whose text is the trimmed input: not empty, and without
   * white space at either end.
   */
  lemma CommentSent(goalId: int, input: string, reply: Option<Response>, q: Request)
    requires q in Calls(SubmitComment(goalId, input, reply))
    ensures q.verb == Post && q.url == BaseUrl + CommentsPath(goalId)
    ensures q.payload == CommentPayload(goalId, None, Trim(input))
    ensures Trim(input) != [] && !IsJsSpace(Trim(input)[0]) && !IsJsSpace(Trim(input)[|Trim(input)| - 1])
  {
    assert Trim(input) != [];
    assert Calls(SubmitComment(goalId, input, reply)) == [CreateCommentCall(goalId, None, Trim(input))];
  }

  /** Whatever submitReply sends is the same, except that the payload names the parent. */
  lemma ReplySent(goalId: int, parentId: int, input: string, reply: Option<Response>, q: Request)
    requires q in Calls(SubmitReply(goalId, parentId, input, reply))
    ensures q.verb == Post && q.url == BaseUrl + CommentsPath(goalId)
    ensures q.payload == CommentPayload(goalId, Some(parentId), Trim(input))
    ensures Trim(input) != [] && !IsJsSpace(Trim(input)[0]) && !IsJsSpace(Trim(input)[|Trim(input)| - 1])
  {
    assert Trim(input) != [];
    assert Calls(SubmitReply(goalId, parentId, input, reply)) == [CreateCommentCall(goalId, Some(parentId), Trim(input))];
  }

  // ---------------------------------------------------------------------------
  // The buttons

  /** `el.style.display = el.style.display === 'none' ? 'block' : 'none'`. */
  function Flip(d: Display): (e: Display)
    ensures e == Hidden <==> d != Hidden
    ensures e != Unset
  {
    if d == Hidden then Block else Hidden
  }

  /** Two clicks restore a display that a click already set; the first click on an unset display hides it. */
  lemma FlipTwice(d: Display)
    ensures d != Unset ==> Flip(Flip(d)) == d
    ensures Flip(Unset) == Hidden && Flip(Flip(Unset)) == Block
  {
  }

  const CollapseLabel := "收起回复"
  const ExpandLabel := "展开回复"

  /** The toggle button's text for the state of its replies: expand when hidden, collapse when shown. */
  function ToggleLabel(d: Display): (s: string)
    ensures s == ExpandLabel <==> d == Hidden
    ensures s == CollapseLabel <==> d != Hidden
  {
    if d == Hidden then ExpandLabel else CollapseLabel
  }

  /**
   * The parts of the rendered comment list the handlers change, keyed by comment
   * id: each reply form's display and its textarea's text, and for comments with
   * replies the replies container's display and the toggle button's text.
   */
  class ReplyControls {
    var forms: map<int, Display>
    var drafts: map<int, string>
    var containers: map<int, Display>
    var labels: map<int, string>

    /** Every form has its textarea, only comments with a form have replies, and each toggle's text matches its container. */
    predicate Valid()
      reads this
    {
      && drafts.Keys == forms.Keys
      && containers.Keys <= forms.Keys
      && labels.Keys == containers.Keys
      && forall id :: id in labels ==> labels[id] == ToggleLabel(containers[id])
    }

    /**
     * The state loadComments leaves behind for the comments `shown`, of which
     * `withReplies` have replies: every form hidden and empty, every replies
     * container displayed with its button offering to collapse it.
     */
    constructor (shown: set<int>, withReplies: set<int>)
      requires withReplies <= shown
      ensures Valid()
      ensures forms == map id | id in shown :: Hidden
      ensures drafts == map id | id in shown :: ""
      ensures containers == map id | id in withReplies :: Unset
      ensures labels == map id | id in withReplies :: CollapseLabel
    {
      forms := map id | id in shown :: Hidden;
      drafts := map id | id in shown :: "";
      containers := map id | id in withReplies :: Unset;
      labels := map id | id in withReplies :: CollapseLabel;
    }

    /** The reply button under comment `id`: shows its form when hidden, hides it otherwise. */
    method ClickReply(id: int)
      requires Valid() && id in forms
      modifies this
      ensures Valid()
      ensures forms == old(forms)[id := Flip(old(forms)[id])]
      ensures forms[id] == Block <==> old(forms)[id] == Hidden
      ensures drafts == old(drafts) && containers == old(containers) && labels == old(labels)
    {
      forms := forms[id := Flip(forms[id])];
    }

    /** A cancel button: hides the form and empties its textarea. */
    method ClickCancel(id: int)
      requires Valid() && id in forms
      modifies this
      ensures Valid()
      ensures forms == old(forms)[id := Hidden] && drafts == old(drafts)[id := ""]
      ensures containers == old(containers) && labels == old(labels)
    {
      forms := forms[id := Hidden];
      drafts := drafts[id := ""];
    }

    /**
     * The toggle button of comment `id`: when its replies container exists, flips
     * its display and relabels the button to match; otherwise nothing changes.
     */
    method ClickToggle(id: int)
      requires Valid()
      modifies this
      ensures Valid()
      ensures id in old(containers) ==>
        && containers == old(containers)[id := Flip(old(containers)[id])]
        && labels == old(labels)[id := ToggleLabel(containers[id])]
      ensures id !in old(containers) ==> containers == old(containers) && labels == old(labels)
      ensures forms == old(forms) && drafts == old(drafts)
    {
      if id in containers {
        var shown := containers[id] != Hidden;
        containers := containers[id := if shown then Hidden else Block];
        labels := labels[id := if shown then ExpandLabel else CollapseLabel];
      }
    }

    /** Typing into the textarea of comment `id`. */
    method EditDraft(id: int, text: string)
      requires Valid() && id in drafts
      modifies this
      ensures Valid()
      ensures drafts == old(drafts)[id := text]
      ensures forms == old(forms) && containers == old(containers) && labels == old(labels)
    {
      drafts := drafts[id := text];
    }

    /**
     * The submit button of comment `id`: submitReply with the textarea's current
     * text as the reply to `id`. The draft is left as it is (the reload re-renders
     * the list).
     */
    method ClickSubmit(goalId: int, id: int, reply: Option<Response>) returns (effects: seq<Effect>)
      requires Valid() && id in drafts
      ensures Calls(effects) == [] <==> Blank(drafts[id])
      ensures effects == SubmitReply(goalId, id, drafts[id], reply)
    {
      effects := SubmitReply(goalId, id, drafts[id], reply);
    }
  }
}
