/** How the client's list follows the store. The client starts from the
    store's one-reply listing and then applies its own updater after each
    successful request instead of fetching again. `InSync` says that the
    list still shows the store: every field agrees, and each comment holds
    either the first reply, as listed, or all of them, after "show more".
    The lemmas below show which request/updater pairs keep that relation. */
module Sync {
  import opened Threads
  import opened Store
  import opened App
  import CommentThread

  /** A client comment shows a stored comment. */
  predicate Mirrors(c: Comment, s: Comment) {
    c.(replies := s.replies) == s &&
    (c.replies == FirstReply(s.replies) || c.replies == s.replies)
  }

  predicate InSync(client: seq<Comment>, server: seq<Comment>) {
    |client| == |server| && forall i :: 0 <= i < |client| ==> Mirrors(client[i], server[i])
  }

  /** The listing the client loads first shows the store. */
  lemma ListingIsInSync(server: seq<Comment>)
    ensures InSync(OneReplyView(server), server)
  {
  }

  /** "Show more" on a thread whose button is shown fetches exactly the
      missing replies: afterwards that thread holds all its stored replies,
      nothing is missing, and the list still shows the store. */
  lemma MoreRepliesKeepsSync(client: seq<Comment>, server: seq<Comment>, id: string)
    requires WellFormed(server) && InSync(client, server) && HasComment(server, id)
    requires CommentThread.RemainingReplies(client[IndexOfComment(server, id)]) > 0
    ensures var k, next := IndexOfComment(server, id), MergeReplies(client, id, MoreReplies(server, id).value);
            InSync(next, server) && next[k].replies == server[k].replies &&
            CommentThread.RemainingReplies(next[k]) == 0
  {
    var k := IndexOfComment(server, id);
    var fetched := MoreReplies(server, id).value;
    var next := MergeReplies(client, id, fetched);
    assert client[k].replies == FirstReply(server[k].replies);
    forall i | 0 <= i < |client| ensures Mirrors(next[i], server[i]) {
      if i != k {
        assert server[i].id != server[k].id;
        assert next[i] == client[i];
      } else {
        assert next[k].replies == client[k].replies + fetched;
      }
    }
  }

  /** Creating a comment appends the same record on both sides. */
  lemma CreateKeepsSync(client: seq<Comment>, server: seq<Comment>, fields: CommentFields, id: string, now: int)
    requires InSync(client, server)
    ensures var created := NewStoredComment(fields, id, now);
            InSync(AppendCreated(client, created), server + [created])
  {
  }

  /** Deleting a comment applies the same filter on both sides. */
  lemma {:induction false} DeleteCommentKeepsSync(client: seq<Comment>, server: seq<Comment>, id: string)
    requires InSync(client, server)
    ensures InSync(WithoutComment(client, id), WithoutComment(server, id))
  {
    if client != [] {
      assert client[0].id == server[0].id;
      DeleteCommentKeepsSync(client[1..], server[1..], id);
      var rest, restServer := WithoutComment(client[1..], id), WithoutComment(server[1..], id);
      if client[0].id != id {
        assert WithoutComment(client, id) == [client[0]] + rest;
        assert WithoutComment(server, id) == [server[0]] + restServer;
      }
    }
  }

  /** Deleting a reply keeps the list in sync when the store is well formed
      and the thread is fully loaded or the reply is not its first: the
      client's "count minus one" then equals the store's recomputed count.
      (When the thread shows only its first reply and that reply is deleted,
      the relation breaks; see `DeletingFirstShownReplySkipsNext`.) */
  lemma DeleteReplyKeepsSync(client: seq<Comment>, server: seq<Comment>, commentId: string, replyId: string)
    requires WellFormed(server) && InSync(client, server)
    requires AfterDeleteReply(server, commentId, replyId).Some?
    requires var k := IndexOfComment(server, commentId);
             client[k].replies == server[k].replies || server[k].replies[0].id != replyId
    ensures InSync(DropReply(client, commentId, replyId), AfterDeleteReply(server, commentId, replyId).value)
  {
    var k := IndexOfComment(server, commentId);
    var next, stored := DropReply(client, commentId, replyId), AfterDeleteReply(server, commentId, replyId).value;
    var rs := server[k].replies;
    WithoutUniqueReplyLength(rs, replyId);
    forall i | 0 <= i < |client| ensures Mirrors(next[i], stored[i]) {
      if i != k {
        assert server[i].id != server[k].id;
        assert next[i] == client[i];
      } else {
        assert next[k].replies == WithoutReply(client[k].replies, replyId);
        if client[k].replies != rs {
          assert rs == [rs[0]] + rs[1..];
          assert client[k].replies == [rs[0]];
          assert WithoutReply(rs, replyId) == [rs[0]] + WithoutReply(rs[1..], replyId);
          assert WithoutReply([rs[0]], replyId) == [rs[0]];
        }
      }
    }
  }

  /** Exactly when the two counts agree after deleting a reply: the client
      lowers the listed count by one, the store recounts the replies left, so
      they agree iff the old count minus one is that number. */
  lemma DeleteReplyCountsAgreeIff(client: seq<Comment>, server: seq<Comment>, commentId: string, replyId: string)
    requires InSync(client, server)
    requires AfterDeleteReply(server, commentId, replyId).Some?
    ensures var k := IndexOfComment(server, commentId);
            DropReply(client, commentId, replyId)[k].repliesCount ==
              AfterDeleteReply(server, commentId, replyId).value[k].repliesCount
            <==> server[k].repliesCount - 1 == |WithoutReply(server[k].replies, replyId)|
  {
    var k := IndexOfComment(server, commentId);
    assert Mirrors(client[k], server[k]);
    assert client[k].id == commentId && client[k].repliesCount == server[k].repliesCount;
  }

  /** The two counts part ways once the stored count is stale: the store
      recomputes it from the replies left, the client subtracts one. */
  lemma StaleCountDiverges()
    ensures var r := Reply("r1", "c1", "Kathleen Nikolaus", "Reply text", 1550419941546);
            var c := Comment("c1", "Reed Fisher", "Parent comment", 1550488214207, 3, [r]);
            AfterDeleteReply([c], "c1", "r1") == Some([c.(replies := [], repliesCount := 0)]) &&
            DropReply([c], "c1", "r1")[0].repliesCount == 2
  {
    var r := Reply("r1", "c1", "Kathleen Nikolaus", "Reply text", 1550419941546);
    var c := Comment("c1", "Reed Fisher", "Parent comment", 1550488214207, 3, [r]);
    assert IndexOfComment([c], "c1") == 0;
    assert HasReply(c.replies, "r1") by { assert c.replies[0].id == "r1"; }
    assert WithoutReply([r], "r1") == [];
    assert DropStoredReply(c, "r1") == c.(replies := [], repliesCount := 0);
    assert [c][0] == c && HasReply([c][0].replies, "r1");
    assert [c][0 := c.(replies := [], repliesCount := 0)] == [c.(replies := [], repliesCount := 0)];
    assert AfterDeleteReply([c], "c1", "r1") == Some([c.(replies := [], repliesCount := 0)]);
    assert DropReply([c], "c1", "r1")[0].repliesCount == 2;
  }

  /** Deleting the only shown reply of a thread that has more: the store's
      next reply moves to the front, but "show more" fetches everything after
      the front, so the client never shows that reply and still reports one
      missing. */
  lemma DeletingFirstShownReplySkipsNext()
    ensures var r1, r2, r3 := Reply("r1", "c1", "A", "one", 1), Reply("r2", "c1", "B", "two", 2),
                              Reply("r3", "c1", "C", "three", 3);
            var server := [Comment("c1", "Reed Fisher", "Parent", 0, 3, [r1, r2, r3])];
            var client := OneReplyView(server);
            var server2 := [Comment("c1", "Reed Fisher", "Parent", 0, 2, [r2, r3])];
            var client2 := DropReply(client, "c1", "r1");
            var client3 := MergeReplies(client2, "c1", [r3]);
            AfterDeleteReply(server, "c1", "r1") == Some(server2) &&
            CommentThread.RemainingReplies(client2[0]) == 2 &&
            MoreReplies(server2, "c1") == Some([r3]) &&
            client3[0].replies == [r3] &&
            CommentThread.RemainingReplies(client3[0]) == 1
  {
    var r1, r2, r3 := Reply("r1", "c1", "A", "one", 1), Reply("r2", "c1", "B", "two", 2),
                      Reply("r3", "c1", "C", "three", 3);
    assert WithoutReply([r1, r2, r3], "r1") == [r2, r3] by {
      assert [r1, r2, r3][1..] == [r2, r3];
      assert [r2, r3][1..] == [r3];
    }
    var server := [Comment("c1", "Reed Fisher", "Parent", 0, 3, [r1, r2, r3])];
    var server2 := [Comment("c1", "Reed Fisher", "Parent", 0, 2, [r2, r3])];
    assert IndexOfComment(server, "c1") == 0 && IndexOfComment(server2, "c1") == 0;
    assert HasReply(server[0].replies, "r1") by { assert [r1, r2, r3][0].id == "r1"; }
    assert DropStoredReply(server[0], "r1") == server2[0];
    assert server[0 := server2[0]] == server2;
    assert AfterDeleteReply(server, "c1", "r1") == Some(server2);
    assert MoreReplies(server2, "c1") == Some([r3]) by {
      assert AfterFirstReply([r2, r3]) == [r3];
    }
    var client := OneReplyView(server);
    assert client[0].replies == [r1];
    assert WithoutReply([r1], "r1") == [];
    var client2 := DropReply(client, "c1", "r1");
    assert client2[0].replies == [] && client2[0].repliesCount == 2;
    var client3 := MergeReplies(client2, "c1", [r3]);
    assert client3[0].replies == [] + [r3];
  }
}
