/** The page-level comment list of client/src/App.tsx. Each handler awaits a
    service call and, only when it resolves, replaces the list by a pure
    transform of the previous one; a rejected call (transport error, HTTP
    error status, schema mismatch) is logged and changes nothing. */
module App {
  import opened Threads
  import CommentThread
  import AddCommentForm

  /** How an awaited service call settled. */
  datatype Outcome<T> = Resolved(value: T) | Rejected

  /** The updater in `handleMoreReplies`: the fetched replies are appended to
      every comment with that id; nothing else changes. */
  function MergeReplies(cs: seq<Comment>, commentId: string, fetched: seq<Reply>): (r: seq<Comment>)
    ensures |r| == |cs|
    ensures forall i :: 0 <= i < |cs| && cs[i].id != commentId ==> r[i] == cs[i]
    ensures forall i :: 0 <= i < |cs| && cs[i].id == commentId ==>
              |r[i].replies| == |cs[i].replies| + |fetched| &&
              r[i].replies[..|cs[i].replies|] == cs[i].replies &&
              r[i].replies[|cs[i].replies|..] == fetched &&
              r[i].(replies := cs[i].replies) == cs[i]
  {
    seq(|cs|, i requires 0 <= i < |cs| =>
        if cs[i].id == commentId then cs[i].(replies := cs[i].replies + fetched) else cs[i])
  }

  /** The updater in `handleSubmit`: the created comment goes last. */
  function AppendCreated(cs: seq<Comment>, created: Comment): (r: seq<Comment>)
    ensures |r| == |cs| + 1 && r[..|cs|] == cs && r[|cs|] == created
  {
    cs + [created]
  }

  /** The updater in `handleDeleteReply`: every comment with that id loses the
      reply from its loaded replies and has its count lowered by exactly one,
      whether or not that reply was loaded; nothing else changes. */
  function DropReply(cs: seq<Comment>, commentId: string, replyId: string): (r: seq<Comment>)
    ensures |r| == |cs|
    ensures forall i :: 0 <= i < |cs| && cs[i].id != commentId ==> r[i] == cs[i]
    ensures forall i :: 0 <= i < |cs| && cs[i].id == commentId ==>
              r[i].repliesCount == cs[i].repliesCount - 1 &&
              r[i].replies == WithoutReply(cs[i].replies, replyId) &&
              (forall x :: x in r[i].replies <==> x in cs[i].replies && x.id != replyId) &&
              r[i].(replies := cs[i].replies, repliesCount := cs[i].repliesCount) == cs[i]
  {
    seq(|cs|, i requires 0 <= i < |cs| =>
        if cs[i].id == commentId
        then cs[i].(replies := WithoutReply(cs[i].replies, replyId), repliesCount := cs[i].repliesCount - 1)
        else cs[i])
  }

  /** `handleMoreReplies`. */
  function HandleMoreReplies(cs: seq<Comment>, commentId: string, fetched: Outcome<seq<Reply>>): (r: seq<Comment>)
    ensures fetched.Rejected? ==> r == cs
    ensures fetched.Resolved? ==> r == MergeReplies(cs, commentId, fetched.value)
  {
    match fetched
    case Resolved(replies) => MergeReplies(cs, commentId, replies)
    case Rejected => cs
  }

  /** The effect of `handleSubmit`: the new list and whether the callback ran. */
  datatype SubmitEffect = SubmitEffect(comments: seq<Comment>, callbackRan: bool)

  /** `handleSubmit`: on success the created comment is appended and then the
      callback, if one was passed, runs; on failure neither happens. */
  function HandleSubmit(cs: seq<Comment>, created: Outcome<Comment>, hasCallback: bool): (e: SubmitEffect)
    ensures e.callbackRan <==> created.Resolved? && hasCallback
    ensures created.Rejected? ==> e.comments == cs
    ensures created.Resolved? ==> e.comments == AppendCreated(cs, created.value)
  {
    match created
    case Resolved(c) => SubmitEffect(AppendCreated(cs, c), hasCallback)
    case Rejected => SubmitEffect(cs, false)
  }

  /** `handleDeleteComment`: the same filter the store applies. */
  function HandleDeleteComment(cs: seq<Comment>, commentId: string, done: Outcome<()>): (r: seq<Comment>)
    ensures done.Rejected? ==> r == cs
    ensures done.Resolved? ==> r == WithoutComment(cs, commentId)
  {
    if done.Resolved? then WithoutComment(cs, commentId) else cs
  }

  /** `handleDeleteReply`. */
  function HandleDeleteReply(cs: seq<Comment>, commentId: string, replyId: string, done: Outcome<()>): (r: seq<Comment>)
    ensures done.Rejected? ==> r == cs
    ensures done.Resolved? ==> r == DropReply(cs, commentId, replyId)
  {
    if done.Resolved? then DropReply(cs, commentId, replyId) else cs
  }

  /** Fetching exactly as many replies as a thread reports missing leaves
      nothing missing, so its "show more" button disappears. */
  lemma MergeExactRemainderHidesShowMore(cs: seq<Comment>, commentId: string, fetched: seq<Reply>)
    requires forall i :: 0 <= i < |cs| && cs[i].id == commentId ==> |fetched| == CommentThread.RemainingReplies(cs[i])
    ensures forall i :: 0 <= i < |cs| && cs[i].id == commentId ==>
              CommentThread.RemainingReplies(MergeReplies(cs, commentId, fetched)[i]) == 0 &&
              CommentThread.RenderThread(MergeReplies(cs, commentId, fetched)[i]).showMore.None?
  {
    var r := MergeReplies(cs, commentId, fetched);
    forall i | 0 <= i < |cs| && cs[i].id == commentId
      ensures CommentThread.RemainingReplies(r[i]) == 0
    {
      assert r[i].replies == cs[i].replies + fetched;
    }
  }

  /** A form submission as the page sees it: the form hands over its fields
      and its reset, the service's `createComment` settles with `created`, and
      the page updates its list; the form is reset only when the comment was
      created. */
  method SubmitComment(form: AddCommentForm.Form, cs: seq<Comment>, created: Outcome<Comment>)
    returns (payload: NewComment, next: seq<Comment>)
    modifies form
    ensures payload == NewComment(old(form.author), old(form.body))
    ensures created.Resolved? ==> next == cs + [created.value] && form.author == "" && form.body == ""
    ensures created.Rejected? ==> next == cs && form.author == old(form.author) && form.body == old(form.body)
  {
    payload := form.Submit();
    var effect := HandleSubmit(cs, created, true);
    next := effect.comments;
    if effect.callbackRan {
      form.Reset();
    }
  }
}
