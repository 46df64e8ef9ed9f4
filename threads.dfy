/** The records that the comment store persists and that the client holds,
    with the reply slicing and the id filters that both tiers use. */
module Threads {

  datatype Option<T> = None | Some(value: T)

  /** A reply, stored inside its parent comment; `commentId` is the
      `comment_id` back-reference to that parent. */
  datatype Reply = Reply(id: string, commentId: string, author: string, body: string, postedAt: int)

  /** A top-level comment. `repliesCount` is `replies_count`, the total the
      store reports; on the client `replies` may hold only the first few. */
  datatype Comment = Comment(id: string, author: string, body: string, postedAt: int,
                             repliesCount: int, replies: seq<Reply>)

  /** The `{author, body}` payload the form submits. */
  datatype NewComment = NewComment(author: string, body: string)

  predicate HasComment(cs: seq<Comment>, id: string) {
    exists i :: 0 <= i < |cs| && cs[i].id == id
  }

  predicate HasReply(rs: seq<Reply>, id: string) {
    exists i :: 0 <= i < |rs| && rs[i].id == id
  }

  predicate UniqueCommentIds(cs: seq<Comment>) {
    forall i, j :: 0 <= i < j < |cs| ==> cs[i].id != cs[j].id
  }

  predicate UniqueReplyIds(rs: seq<Reply>) {
    forall i, j :: 0 <= i < j < |rs| ==> rs[i].id != rs[j].id
  }

  /** `replies.slice(0, 1)`: the first reply, if there is one. */
  function FirstReply(rs: seq<Reply>): (r: seq<Reply>)
    ensures |r| == if rs == [] then 0 else 1
    ensures r <= rs
  {
    if rs == [] then [] else rs[..1]
  }

  /** `replies.slice(1)`: every reply after the first; the two slices
      put back together give the whole sequence. */
  function AfterFirstReply(rs: seq<Reply>): (r: seq<Reply>)
    ensures FirstReply(rs) + r == rs
    ensures |r| == if rs == [] then 0 else |rs| - 1
  {
    if rs == [] then [] else rs[1..]
  }

  /** `comments.filter((c) => c.id !== id)`. */
  function WithoutComment(cs: seq<Comment>, id: string): (r: seq<Comment>)
    ensures forall c :: c in r <==> c in cs && c.id != id
    ensures |r| <= |cs|
    ensures |r| == |cs| <==> !HasComment(cs, id)
  {
    if cs == [] then []
    else
      var rest := WithoutComment(cs[1..], id);
      assert cs == [cs[0]] + cs[1..];
      assert HasComment(cs[1..], id) ==> HasComment(cs, id) by {
        if HasComment(cs[1..], id) {
          var i :| 0 <= i < |cs[1..]| && cs[1..][i].id == id;
          assert cs[i + 1].id == id;
        }
      }
      if cs[0].id == id then rest else [cs[0]] + rest
  }

  /** `replies.filter((r) => r.id !== id)`. */
  function WithoutReply(rs: seq<Reply>, id: string): (r: seq<Reply>)
    ensures forall x :: x in r <==> x in rs && x.id != id
    ensures |r| <= |rs|
    ensures |r| == |rs| <==> !HasReply(rs, id)
  {
    if rs == [] then []
    else
      var rest := WithoutReply(rs[1..], id);
      assert rs == [rs[0]] + rs[1..];
      assert HasReply(rs[1..], id) ==> HasReply(rs, id) by {
        if HasReply(rs[1..], id) {
          var i :| 0 <= i < |rs[1..]| && rs[1..][i].id == id;
          assert rs[i + 1].id == id;
        }
      }
      if rs[0].id == id then rest else [rs[0]] + rest
  }

  /** Filtering keeps the relative order: it distributes over concatenation. */
  lemma {:induction false} WithoutCommentDistributes(a: seq<Comment>, b: seq<Comment>, id: string)
    ensures WithoutComment(a + b, id) == WithoutComment(a, id) + WithoutComment(b, id)
  {
    if a != [] {
      assert (a + b)[1..] == a[1..] + b;
      WithoutCommentDistributes(a[1..], b, id);
    } else {
      assert a + b == b;
    }
  }

  /** Filtering keeps the relative order: it distributes over concatenation. */
  lemma {:induction false} WithoutReplyDistributes(a: seq<Reply>, b: seq<Reply>, id: string)
    ensures WithoutReply(a + b, id) == WithoutReply(a, id) + WithoutReply(b, id)
  {
    if a != [] {
      assert (a + b)[1..] == a[1..] + b;
      WithoutReplyDistributes(a[1..], b, id);
    } else {
      assert a + b == b;
    }
  }

  /** Removing a reply id that occurs exactly once shortens the sequence by one. */
  lemma {:induction false} WithoutUniqueReplyLength(rs: seq<Reply>, id: string)
    requires UniqueReplyIds(rs) && HasReply(rs, id)
    ensures |WithoutReply(rs, id)| == |rs| - 1
  {
    if rs[0].id == id {
      forall i | 0 <= i < |rs[1..]| ensures rs[1..][i].id != id {
        assert rs[1..][i] == rs[i + 1];
      }
    } else {
      var i :| 0 <= i < |rs| && rs[i].id == id;
      assert rs[1..][i - 1].id == id;
      WithoutUniqueReplyLength(rs[1..], id);
    }
  }

  /** Filtering cannot introduce duplicate ids. */
  lemma {:induction false} WithoutCommentKeepsUniqueIds(cs: seq<Comment>, id: string)
    requires UniqueCommentIds(cs)
    ensures UniqueCommentIds(WithoutComment(cs, id))
  {
    if cs != [] {
      WithoutCommentKeepsUniqueIds(cs[1..], id);
      var rest := WithoutComment(cs[1..], id);
      forall c | c in rest ensures c.id != cs[0].id {
        var j :| 0 <= j < |cs[1..]| && cs[1..][j] == c;
        assert cs[j + 1] == c;
      }
    }
  }

  /** Filtering cannot introduce duplicate ids. */
  lemma {:induction false} WithoutReplyKeepsUniqueIds(rs: seq<Reply>, id: string)
    requires UniqueReplyIds(rs)
    ensures UniqueReplyIds(WithoutReply(rs, id))
  {
    if rs != [] {
      WithoutReplyKeepsUniqueIds(rs[1..], id);
      var rest := WithoutReply(rs[1..], id);
      forall x | x in rest ensures x.id != rs[0].id {
        var j :| 0 <= j < |rs[1..]| && rs[1..][j] == x;
        assert rs[j + 1] == x;
      }
    }
  }
}
