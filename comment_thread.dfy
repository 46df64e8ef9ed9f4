/** One rendered thread (client/src/components/CommentThread.tsx): the parent
    card, the list of loaded replies, and the "show more" button, with the
    callback each control invokes. */
module CommentThread {
  import opened Threads
  import opened CommentCard

  /** The callbacks a thread hands its controls, with the ids they pass:
      `onDeleteComment`, `onDeleteReply` and `onMoreReplies`. */
  datatype Action = DeleteComment(commentId: string)
                  | DeleteReply(commentId: string, replyId: string)
                  | MoreReplies(commentId: string)

  datatype ShowMoreButton = ShowMoreButton(text: string, onClick: Action)

  /** The rendered thread: `replies` is `None` when the replies block is not
      rendered at all, `showMore` when the button is absent. */
  datatype Thread = Thread(parent: Card<Action>, replies: Option<seq<Card<Action>>>,
                           showMore: Option<ShowMoreButton>)

  /** The controls a user can activate in a thread. */
  datatype Control = ParentDelete | ReplyDelete(index: nat) | ShowMore

  /** `remainingReplies`: how many of the counted replies are not loaded; it
      is negative when more replies are loaded than counted. */
  function RemainingReplies(c: Comment): (r: int)
    ensures r > 0 <==> |c.replies| < c.repliesCount
    ensures r == 0 <==> |c.replies| == c.repliesCount
    ensures r < 0 <==> |c.replies| > c.repliesCount
  {
    c.repliesCount - |c.replies|
  }

  predicate IsDigits(s: string) {
    forall i :: 0 <= i < |s| ==> '0' <= s[i] <= '9'
  }

  function Digit(d: nat): (c: char)
    requires d < 10
    ensures '0' <= c <= '9' && c as int - '0' as int == d
  {
    (d + '0' as int) as char
  }

  /** A number as JavaScript writes it into a template: decimal digits with no
      leading zero. */
  function Decimal(n: nat): (s: string)
    ensures |s| >= 1 && IsDigits(s)
    ensures |s| > 1 ==> s[0] != '0'
  {
    if n < 10 then [Digit(n)] else Decimal(n / 10) + [Digit(n % 10)]
  }

  /** The value of a string of decimal digits. */
  function DigitsValue(s: string): nat
    requires IsDigits(s)
  {
    if s == [] then 0 else DigitsValue(s[..|s| - 1]) * 10 + (s[|s| - 1] as int - '0' as int)
  }

  /** Reading the written number back gives the number. */
  lemma {:induction false} DecimalRoundTrip(n: nat)
    ensures DigitsValue(Decimal(n)) == n
  {
    if n >= 10 {
      var s := Decimal(n);
      assert s[..|s| - 1] == Decimal(n / 10);
      DecimalRoundTrip(n / 10);
    }
  }

  /** The button text, "Show N more reply" for one and "Show N more replies"
      otherwise: it states the number of unloaded replies, which reads back as
      that number, and uses the singular noun exactly when it is one. */
  function ShowMoreLabel(n: int): (text: string)
    requires n > 0
    ensures var d := |Decimal(n)|;
            5 + d <= |text| && text[..5] == "Show " &&
            IsDigits(text[5..5 + d]) && DigitsValue(text[5..5 + d]) == n
    ensures text[5 + |Decimal(n)|..] == if n == 1 then " more reply" else " more replies"
    ensures EndsWith(text, "reply") <==> n == 1
    ensures EndsWith(text, "replies") <==> n != 1
  {
    var text := "Show " + Decimal(n) + " more " + (if n == 1 then "reply" else "replies");
    assert text[5..5 + |Decimal(n)|] == Decimal(n);
    assert text[5 + |Decimal(n)|..] == " more " + (if n == 1 then "reply" else "replies");
    DecimalRoundTrip(n);
    assert if n == 1 then text == "Show 1 more reply" else text[|text| - 5..] == "plies";
    text
  }

  predicate EndsWith(s: string, suffix: string) {
    |suffix| <= |s| && s[|s| - |suffix|..] == suffix
  }

  /** The component's output for one comment. */
  function RenderThread(c: Comment): (t: Thread)
    ensures t.parent == RenderCard(c.author, c.body, c.postedAt, DeleteComment(c.id), true)
    ensures t.replies.Some? <==> c.replies != []
    ensures t.replies.Some? ==> |t.replies.value| == |c.replies|
    ensures t.replies.Some? ==>
              forall i :: 0 <= i < |c.replies| ==>
                t.replies.value[i] == RenderCard(c.replies[i].author, c.replies[i].body, c.replies[i].postedAt,
                                                 DeleteReply(c.id, c.replies[i].id), false)
    ensures t.showMore.Some? <==> RemainingReplies(c) > 0
    ensures t.showMore.Some? ==> t.showMore.value == ShowMoreButton(ShowMoreLabel(RemainingReplies(c)), MoreReplies(c.id))
  {
    var replyCards := seq(|c.replies|, i requires 0 <= i < |c.replies| =>
                          RenderCard(c.replies[i].author, c.replies[i].body, c.replies[i].postedAt,
                                     DeleteReply(c.id, c.replies[i].id), false));
    var remaining := RemainingReplies(c);
    Thread(RenderCard(c.author, c.body, c.postedAt, DeleteComment(c.id), true),
           if |c.replies| > 0 then Some(replyCards) else None,
           if remaining > 0 then Some(ShowMoreButton(ShowMoreLabel(remaining), MoreReplies(c.id))) else None)
  }

  /** The callbacks one activation of a control invokes, in order; a control
      that is not rendered invokes nothing. */
  function Activate(t: Thread, control: Control): seq<Action>
  {
    match control
    case ParentDelete => [t.parent.onDelete]
    case ReplyDelete(i) =>
      if t.replies.Some? && i < |t.replies.value| then [t.replies.value[i].onDelete] else []
    case ShowMore => if t.showMore.Some? then [t.showMore.value.onClick] else []
  }

  /** Each control invokes its callback exactly once, with the thread's
      comment id (and the reply's id for a reply's delete button). */
  lemma ControlsInvokeOnce(c: Comment, control: Control)
    ensures Activate(RenderThread(c), control) ==
              match control
              case ParentDelete => [DeleteComment(c.id)]
              case ReplyDelete(i) => if i < |c.replies| then [DeleteReply(c.id, c.replies[i].id)] else []
              case ShowMore => if RemainingReplies(c) > 0 then [MoreReplies(c.id)] else []
  {
  }
}
