/** The file-backed comment store of server/data/data.js. The JSON file is
    the field `comments` of a `CommentStore`; every operation reads it,
    scans it linearly and, when it changes something, writes it back
    whole (counted in `writes`). The fresh uuid and the clock reading that
    `saveComment` takes are parameters. */
module Store {
  import opened Threads

  /** The parsed request body handed to `saveComment`: the author and body,
      plus whatever same-named fields the caller sent for the four fields the
      store assigns itself (each `None` when absent). */
  datatype CommentFields = CommentFields(author: string, body: string,
                                         id: Option<string>, postedAt: Option<int>,
                                         repliesCount: Option<int>, replies: Option<seq<Reply>>)

  /** The record `saveComment` builds: the caller's fields, then the fresh id,
      the timestamp, a zero count and no replies written over them. */
  function NewStoredComment(fields: CommentFields, id: string, now: int): (c: Comment)
    ensures c.id == id && c.postedAt == now
    ensures c.repliesCount == 0 && c.replies == []
    ensures c.author == fields.author && c.body == fields.body
  {
    Comment(id, fields.author, fields.body, now, 0, [])
  }

  /** The fields the store assigns override whatever same-named fields the
      caller sent: two requests that agree on author and body produce the
      same record. */
  lemma ReservedFieldsOverridden(f: CommentFields, g: CommentFields, id: string, now: int)
    requires f.author == g.author && f.body == g.body
    ensures NewStoredComment(f, id, now) == NewStoredComment(g, id, now)
  {
  }

  /** The index `findIndex` returns for a comment id: the first match, or -1. */
  function IndexOfComment(cs: seq<Comment>, id: string): (k: int)
    ensures -1 <= k < |cs|
    ensures k == -1 <==> !HasComment(cs, id)
    ensures k >= 0 ==> cs[k].id == id && forall j :: 0 <= j < k ==> cs[j].id != id
  {
    if cs == [] then -1
    else if cs[0].id == id then 0
    else
      var k := IndexOfComment(cs[1..], id);
      assert HasComment(cs, id) ==> HasComment(cs[1..], id) by {
        if HasComment(cs, id) {
          var i :| 0 <= i < |cs| && cs[i].id == id;
          assert cs[1..][i - 1].id == id;
        }
      }
      if k == -1 then -1 else k + 1
  }

  /** The listing `getCommentsWithOneReply` returns: every comment, in order,
      cut down to its first reply. */
  function OneReplyView(cs: seq<Comment>): (r: seq<Comment>)
    ensures |r| == |cs|
    ensures forall i :: 0 <= i < |cs| ==>
              r[i].replies == FirstReply(cs[i].replies) && r[i].(replies := cs[i].replies) == cs[i]
  {
    seq(|cs|, i requires 0 <= i < |cs| => cs[i].(replies := FirstReply(cs[i].replies)))
  }

  /** What `getRepliesForComment` returns: the replies after the first of the
      first comment with that id; `None` where the source throws because
      `find` found nothing. */
  function MoreReplies(cs: seq<Comment>, id: string): (r: Option<seq<Reply>>)
    ensures r.None? <==> !HasComment(cs, id)
    ensures r.Some? ==> var k := IndexOfComment(cs, id);
              0 <= k && FirstReply(cs[k].replies) + r.value == cs[k].replies
  {
    var k := IndexOfComment(cs, id);
    if k < 0 then None else Some(AfterFirstReply(cs[k].replies))
  }

  /** The comment `deleteReply` leaves behind: the reply filtered out and the
      count recomputed from what remains. */
  function DropStoredReply(c: Comment, replyId: string): (d: Comment)
    ensures !HasReply(d.replies, replyId)
    ensures d.replies == WithoutReply(c.replies, replyId)
    ensures forall x :: x in d.replies <==> x in c.replies && x.id != replyId
    ensures d.repliesCount == |d.replies|
    ensures d.(replies := c.replies, repliesCount := c.repliesCount) == c
  {
    var rest := WithoutReply(c.replies, replyId);
    c.(replies := rest, repliesCount := |rest|)
  }

  /** The store `deleteReply` writes, or `None` when it returns null without
      writing: no comment has `commentId`, or the first that has it holds no
      reply `replyId`. */
  function AfterDeleteReply(cs: seq<Comment>, commentId: string, replyId: string): (r: Option<seq<Comment>>)
    ensures r.Some? <==> HasComment(cs, commentId) && HasReply(cs[IndexOfComment(cs, commentId)].replies, replyId)
    ensures r.Some? ==> var k := IndexOfComment(cs, commentId);
              |r.value| == |cs| && r.value[k] == DropStoredReply(cs[k], replyId) &&
              forall i :: 0 <= i < |cs| && i != k ==> r.value[i] == cs[i]
  {
    var k := IndexOfComment(cs, commentId);
    if k < 0 || !HasReply(cs[k].replies, replyId) then None
    else Some(cs[k := DropStoredReply(cs[k], replyId)])
  }

  /** `findIndex`/`find` as the linear scan they are: the first index whose
      element satisfies `p`, or -1. */
  method FirstIndexWhere<T>(s: seq<T>, p: T -> bool) returns (k: int)
    ensures -1 <= k < |s|
    ensures k >= 0 ==> p(s[k])
    ensures forall j :: 0 <= j < |s| && (k == -1 || j < k) ==> !p(s[j])
  {
    var i := 0;
    while i < |s|
      invariant 0 <= i <= |s|
      invariant forall j :: 0 <= j < i ==> !p(s[j])
    {
      if p(s[i]) {
        return i;
      }
      i := i + 1;
    }
    return -1;
  }

  /** The persisted comment array and the number of times it was rewritten. */
  class CommentStore {
    var comments: seq<Comment>
    var writes: nat

    constructor (initial: seq<Comment>)
      ensures comments == initial && writes == 0
    {
      comments := initial;
      writes := 0;
    }

    /** `getCommentsWithOneReply`: the same comments in the same order, each
        with at most its first reply and every other field as stored. */
    method GetCommentsWithOneReply() returns (r: seq<Comment>)
      ensures |r| == |comments|
      ensures forall i :: 0 <= i < |r| ==>
                |r[i].replies| <= 1 && r[i].replies <= comments[i].replies &&
                (comments[i].replies != [] ==> r[i].replies != []) &&
                r[i].(replies := comments[i].replies) == comments[i]
      ensures r == OneReplyView(comments)
    {
      r := [];
      var i := 0;
      while i < |comments|
        invariant 0 <= i <= |comments|
        invariant r == OneReplyView(comments)[..i]
      {
        r := r + [comments[i].(replies := FirstReply(comments[i].replies))];
        i := i + 1;
      }
    }

    /** `getRepliesForComment`: the replies after the first of the first
        comment with that id, or `None` (the source throws) when there is none. */
    method GetRepliesForComment(id: string) returns (r: Option<seq<Reply>>)
      ensures r.None? <==> !HasComment(comments, id)
      ensures r.Some? ==> (exists k :: 0 <= k < |comments| && comments[k].id == id &&
                                       FirstReply(comments[k].replies) + r.value == comments[k].replies)
      ensures r == MoreReplies(comments, id)
    {
      var k := FirstIndexWhere(comments, (c: Comment) => c.id == id);
      if k == -1 {
        r := None;
      } else {
        r := Some(AfterFirstReply(comments[k].replies));
      }
    }

    /** `saveComment`: appends one new record and returns it. */
    method SaveComment(fields: CommentFields, id: string, now: int) returns (created: Comment)
      modifies this
      ensures created == NewStoredComment(fields, id, now)
      ensures comments == old(comments) + [created]
      ensures writes == old(writes) + 1
    {
      created := Comment(id, fields.author, fields.body, now, 0, []);
      comments := comments + [created];
      writes := writes + 1;
    }

    /** `deleteComment`: `true` and every record with that id filtered out
        when one exists; otherwise `null` (here `false`) and no write. */
    method DeleteComment(id: string) returns (deleted: bool)
      modifies this
      ensures deleted == HasComment(old(comments), id)
      ensures comments == if deleted then WithoutComment(old(comments), id) else old(comments)
      ensures writes == if deleted then old(writes) + 1 else old(writes)
    {
      var k := FirstIndexWhere(comments, (c: Comment) => c.id == id);
      if k == -1 {
        return false;
      }
      comments := WithoutComment(comments, id);
      writes := writes + 1;
      deleted := true;
    }

    /** `deleteReply`: `true` after removing the reply from the first comment
        with `commentId` and recomputing its count; otherwise `null` (here
        `false`) and no write. */
    method DeleteReply(commentId: string, replyId: string) returns (deleted: bool)
      modifies this
      ensures deleted == AfterDeleteReply(old(comments), commentId, replyId).Some?
      ensures comments == if deleted then AfterDeleteReply(old(comments), commentId, replyId).value
                          else old(comments)
      ensures writes == if deleted then old(writes) + 1 else old(writes)
    {
      var k := FirstIndexWhere(comments, (c: Comment) => c.id == commentId);
      if k == -1 {
        return false;
      }
      var replyIndex := FirstIndexWhere(comments[k].replies, (r: Reply) => r.id == replyId);
      if replyIndex == -1 {
        return false;
      }
      var comment := comments[k];
      var remaining := WithoutReply(comment.replies, replyId);
      comment := comment.(replies := remaining, repliesCount := |remaining|);
      comments := comments[k := comment];
      writes := writes + 1;
      deleted := true;
    }
  }

  /** The invariants the stored data is meant to keep: unique comment ids,
      unique reply ids within a comment, each reply pointing back at its
      parent, and `replies_count` equal to the number of stored replies. */
  predicate WellFormed(cs: seq<Comment>) {
    UniqueCommentIds(cs) &&
    forall i :: 0 <= i < |cs| ==>
      cs[i].repliesCount == |cs[i].replies| && UniqueReplyIds(cs[i].replies) &&
      forall x :: x in cs[i].replies ==> x.commentId == cs[i].id
  }

  /** Saving under an id not yet in the store keeps it well formed. */
  lemma SaveKeepsWellFormed(cs: seq<Comment>, fields: CommentFields, id: string, now: int)
    requires WellFormed(cs) && !HasComment(cs, id)
    ensures WellFormed(cs + [NewStoredComment(fields, id, now)])
  {
    var r := cs + [NewStoredComment(fields, id, now)];
    forall i, j | 0 <= i < j < |r| ensures r[i].id != r[j].id {
      if j == |cs| {
        assert r[i] == cs[i];
      }
    }
  }

  /** Deleting a comment keeps the store well formed. */
  lemma DeleteCommentKeepsWellFormed(cs: seq<Comment>, id: string)
    requires WellFormed(cs)
    ensures WellFormed(WithoutComment(cs, id))
  {
    WithoutCommentKeepsUniqueIds(cs, id);
    var r := WithoutComment(cs, id);
    forall i | 0 <= i < |r|
      ensures r[i].repliesCount == |r[i].replies| && UniqueReplyIds(r[i].replies)
      ensures forall x :: x in r[i].replies ==> x.commentId == r[i].id
    {
      assert r[i] in cs;
    }
  }

  /** Deleting a reply keeps the store well formed; in a well-formed store the
      recomputed count is exactly one less than before. */
  lemma DeleteReplyKeepsWellFormed(cs: seq<Comment>, commentId: string, replyId: string)
    requires WellFormed(cs) && AfterDeleteReply(cs, commentId, replyId).Some?
    ensures WellFormed(AfterDeleteReply(cs, commentId, replyId).value)
    ensures var k := IndexOfComment(cs, commentId);
            AfterDeleteReply(cs, commentId, replyId).value[k].repliesCount == cs[k].repliesCount - 1
  {
    var k := IndexOfComment(cs, commentId);
    var r := AfterDeleteReply(cs, commentId, replyId).value;
    WithoutReplyKeepsUniqueIds(cs[k].replies, replyId);
    WithoutUniqueReplyLength(cs[k].replies, replyId);
    forall i, j | 0 <= i < j < |r| ensures r[i].id != r[j].id {
      assert r[i].id == cs[i].id && r[j].id == cs[j].id;
    }
  }

  /** Pagination round trip: a comment's entry in the listing followed by the
      replies fetched for it gives back its stored replies, the fetched part
      being all but the first. */
  lemma PaginationRoundTrip(cs: seq<Comment>, id: string)
    requires HasComment(cs, id)
    ensures var k := IndexOfComment(cs, id);
            OneReplyView(cs)[k].replies + MoreReplies(cs, id).value == cs[k].replies &&
            |MoreReplies(cs, id).value| == if cs[k].replies == [] then 0 else |cs[k].replies| - 1
  {
  }
}
