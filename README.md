# Threaded comment board — Dafny model

This project models a small threaded comment board with two tiers.

- **The server store** (`server/data/data.js`) keeps an array of comments in one JSON file. Each comment embeds its replies. The store offers two reads:
  - a listing that cuts every comment down to its first reply;
  - a fetch of a comment's remaining replies.

  It offers three mutations: create a comment, delete a comment, delete a reply. Each operation reads the whole array, scans it linearly, and rewrites the whole file when it changes something.
- **The browser client** holds the comment list and updates it locally after each successful request, instead of fetching again (`client/src/App.tsx`). It renders each thread with its controls (`CommentThread.tsx`, `Comment.tsx`) and keeps a small new-comment form (`AddCommentForm.tsx`).

Modules, one per source file, plus two shared ones:

| file | module | models |
|---|---|---|
| `threads.dfy` | `Threads` | `Comment`/`Reply` records; `slice(0, 1)`, `slice(1)` and the two id filters both tiers use |
| `store.dfy` | `Store` | `data.js` as class `CommentStore` (see below) |
| `app.dfy` | `App` | the four list updaters and handlers of `App.tsx`, over the outcome of the service call |
| `comment_thread.dfy` | `CommentThread` | `remainingReplies`, the show-more button and its label, the callbacks wired to each control |
| `comment_card.dfy` | `CommentCard` | initials (`split`/`map`/`join`/`toUpperCase`/`slice`), the avatar colour bucket, the delete button's name |
| `add_comment_form.dfy` | `AddCommentForm` | ECMAScript `trim`, and class `Form` with the two field values |
| `sync.dfy` | `Sync` | how the client list follows the store across pairs of operations |

Details of the class `CommentStore`:
- Its field `comments: seq<Comment>` is the file's contents.
- Its field `writes` counts whole-file rewrites, so "returns null and writes nothing" is stated directly.

`Sync` defines `InSync(client, server)`. It holds when:
- every field of every comment agrees between the client list and the store;
- each client comment holds either its first stored reply (as listed) or all of its stored replies (after "show more").

The lemmas prove:
- the initial listing is in sync;
- "show more", create and delete-comment keep the lists in sync;
- delete-reply keeps them in sync when the store is well formed and the deleted reply is not the only reply the client shows of a longer thread.

Two places where the client and the store part ways:

- **Reply counts.** After deleting a reply, the store recomputes `replies_count` from the replies left (`data.js:63`). The client subtracts one (`App.tsx:89`). `DeleteReplyCountsAgreeIff` proves when they agree: exactly when the old count minus one equals the number of replies left. In a well-formed store this always holds. There, comment ids and reply ids are unique and every count equals its replies' length. `DeleteReplyKeepsSync` proves this case, under one more condition: the client does not show only the deleted first reply of a longer thread. `StaleCountDiverges` shows the two values differing on a store whose count is stale.
- **A skipped reply.** Suppose a thread shows only its first reply and the user deletes it. The store's second reply moves to the front. "Show more" then fetches `slice(1)`, which skips that reply, so the client never shows it until a reload. `DeletingFirstShownReplySkipsNext` shows this.

Where the code differs from what its names and tests suggest, the model follows the code:
- Reply deletion recomputes the count from the remaining replies; it does not decrement the old count.
- `getRepliesForComment` on an unknown id throws (`find` yields `undefined`). It does not return a not-found value. It is modelled as `None`.
- For a comment with no replies, the fetched remainder is empty; it is not "N−1" entries.
- `saveComment` always returns the created record. The create route's 401 branch (`server/server.js:30-31`) is therefore unreachable.
- `CommentThread.test.tsx:31-37` expects a link named "Show More Replies (N)". The code renders a button labelled "Show N more reply" or "Show N more replies", and the model follows the code.

## Model

| member | source | states |
|---|---|---|
| `Threads.FirstReply` | server/data/data.js:10 | `slice(0, 1)` is the prefix of length min(1, n) |
| `Threads.AfterFirstReply` | server/data/data.js:15 | `slice(1)` is what follows the first reply: the first-reply slice followed by it is the whole sequence; its length is max(0, n−1) |
| `Threads.WithoutComment` | server/data/data.js:44 | a comment is in the result iff it is in the input with a different id; the result is shorter exactly when the id occurs |
| `Threads.WithoutReply` | server/data/data.js:62 | a reply is in the result iff it is in the input with a different id; the result is shorter exactly when the id occurs |
| `Threads.WithoutCommentDistributes` | server/data/data.js:44 | the comment filter keeps order: it distributes over concatenation |
| `Threads.WithoutReplyDistributes` | server/data/data.js:62 | the reply filter keeps order: it distributes over concatenation |
| `Threads.WithoutUniqueReplyLength` | server/data/data.js:62-63 | removing a reply id that occurs exactly once shortens the replies by exactly one |
| `Threads.WithoutCommentKeepsUniqueIds` | server/data/data.js:44 | filtering comments keeps their ids unique |
| `Threads.WithoutReplyKeepsUniqueIds` | server/data/data.js:62 | filtering replies keeps their ids unique |
| `Store.NewStoredComment` | server/data/data.js:19-28 | the new record carries the given id and timestamp, count 0, no replies, and the caller's author and body |
| `Store.ReservedFieldsOverridden` | server/data/data.js:19-28 | caller-supplied `id`, `postedAt`, `replies_count`, `replies` have no effect on the created record |
| `Store.IndexOfComment` | server/data/data.js:38 | `findIndex`: -1 iff no comment has the id, else the first index holding it |
| `Store.OneReplyView` | server/data/data.js:10 | same length and order; each comment keeps every field but `replies`, which becomes its first reply |
| `Store.MoreReplies` | server/data/data.js:15 | `None` (the source throws) iff no comment has the id; otherwise the first matching comment's first reply followed by the result is its stored replies |
| `Store.DropStoredReply` | server/data/data.js:62-63 | the replies become the order-preserving filter `WithoutReply` of the old ones: the reply id no longer occurs, the other replies stay in their order, the count equals the remaining replies' length, the other fields are unchanged |
| `Store.AfterDeleteReply` | server/data/data.js:49-66 | a new store exists iff the comment exists and its first match holds the reply; then only that comment changes |
| `Store.FirstIndexWhere` | server/data/data.js:38-42 | the linear scan returns the first index satisfying the test, or -1 when none does |
| `Store.CommentStore.GetCommentsWithOneReply` | server/data/data.js:8-11 | same comments in the same order, each with at most its first reply and every other field as stored; nothing is modified |
| `Store.CommentStore.GetRepliesForComment` | server/data/data.js:13-16 | `None` iff no comment has the id; otherwise the first reply of a comment with that id followed by the result is its stored replies |
| `Store.CommentStore.SaveComment` | server/data/data.js:18-34 | appends exactly the new record at the end, returns it, writes once |
| `Store.CommentStore.DeleteComment` | server/data/data.js:36-47 | absent id: `false`, store and write count unchanged; present: `true`, every entry with the id filtered out, one write |
| `Store.CommentStore.DeleteReply` | server/data/data.js:49-67 | missing comment or reply: `false`, nothing written; otherwise only the first matching comment changes, as `AfterDeleteReply` says, one write |
| `Store.SaveKeepsWellFormed` | server/data/data.js:19-31 | saving under a fresh id keeps ids unique and every count equal to its replies' length |
| `Store.DeleteCommentKeepsWellFormed` | server/data/data.js:44 | deleting a comment keeps the store well formed |
| `Store.DeleteReplyKeepsWellFormed` | server/data/data.js:62-63 | deleting a reply keeps the store well formed and lowers that comment's count by exactly one |
| `Store.PaginationRoundTrip` | server/data/data.js:8-16 | for an existing comment, its listed reply followed by the fetched replies is its stored replies; the fetched part has max(0, n−1) entries |
| `CommentCard.Split` | client/src/components/Comment.tsx:20 | `split(" ")` yields at least one piece and no piece contains a space |
| `CommentCard.JoinSplit` | client/src/components/Comment.tsx:20 | joining the pieces with single spaces gives the name back |
| `CommentCard.Join` | client/src/components/Comment.tsx:22 | the result starts with the first piece, and its length is the pieces' total plus one separator per gap; its full content is fixed only for single-space joins of space-free pieces, by `JoinSplit` and `SplitJoin` |
| `CommentCard.SplitJoin` | client/src/components/Comment.tsx:20 | the other round trip: pieces without spaces, joined with single spaces, split back into the same pieces |
| `CommentCard.Leaders` | client/src/components/Comment.tsx:21-22 | at most one character per piece; when no piece is empty, exactly the first character of each piece, in order |
| `CommentCard.LeadersAreWordStarts` | client/src/components/Comment.tsx:19-22 | the first characters of the pieces are exactly the characters that begin a word, in order; empty pieces contribute nothing |
| `CommentCard.Upper` | client/src/components/Comment.tsx:23 | same length; no lower-case letter is left; each lower-case letter becomes the capital at the same place in the alphabet; every other character is unchanged |
| `CommentCard.UpperIdempotent` | client/src/components/Comment.tsx:23 | upper-casing twice is upper-casing once |
| `CommentCard.Initials` | client/src/components/Comment.tsx:19-24 | the initials have at most two characters |
| `CommentCard.InitialsAreFirstWordStarts` | client/src/components/Comment.tsx:19-24 | the initials are the upper-cased first two word-initial characters of the name, and contain no space |
| `CommentCard.FirstCodeUnit` | client/src/components/Comment.tsx:26 | `charCodeAt(0)` is a UTF-16 code unit: the character itself below U+10000, its high surrogate above, the unit that carries the top ten bits of the offset from U+10000 |
| `CommentCard.AvatarColorIndex` | client/src/components/Comment.tsx:26 | for a non-empty name the colour index lies in 1..5 |
| `CommentCard.DeleteLabel` | client/src/components/Comment.tsx:55 | the delete button's name is "Delete comment by " followed by the author |
| `CommentCard.DeleteLabelNamesAuthor` | client/src/components/Comment.tsx:55 | two delete buttons have the same name iff their authors are equal |
| `CommentCard.RenderCard` | client/src/components/Comment.tsx:19-55 | a card shows the given author, body and time, initials equal to `Initials(author)` (at most two characters), a colour present iff the name is non-empty and then equal to `AvatarColorIndex(author)` (in 1..5), and the delete name; it invokes the given callback |
| `CommentThread.Decimal` | client/src/components/CommentThread.tsx:73 | the number is written as decimal digits with no leading zero |
| `CommentThread.DecimalRoundTrip` | client/src/components/CommentThread.tsx:73 | reading the written digits back gives the number |
| `CommentThread.RemainingReplies` | client/src/components/CommentThread.tsx:19 | positive iff fewer replies are loaded than counted, zero iff as many, negative iff more |
| `CommentThread.ShowMoreLabel` | client/src/components/CommentThread.tsx:72-75 | the label is "Show ", then digits that read back as the remaining count, then exactly " more reply" when the count is 1 and " more replies" otherwise |
| `CommentThread.RenderThread` | client/src/components/CommentThread.tsx:19-78 | the parent card deletes the comment id; the replies block is present iff replies are loaded and lists them in stored order, each deleting (comment id, reply id); the show-more button is present iff `replies_count - replies.length > 0`, with that number in its label, and requests the comment id |
| `CommentThread.ControlsInvokeOnce` | client/src/components/CommentThread.tsx:26-57 | activating a rendered control invokes exactly one callback with the right ids; a control that is not rendered invokes none |
| `AddCommentForm.TrimStart` | client/src/components/AddCommentForm.tsx:22 | drops exactly the leading whitespace: a suffix, everything before it whitespace, not starting with whitespace |
| `AddCommentForm.TrimEnd` | client/src/components/AddCommentForm.tsx:22 | drops exactly the trailing whitespace: a prefix, everything after it whitespace, not ending with whitespace |
| `AddCommentForm.Trim` | client/src/components/AddCommentForm.tsx:22 | `trim()` is a stretch of the input with only whitespace before and after it, and it neither starts nor ends with whitespace |
| `AddCommentForm.TrimEmptyIffBlank` | client/src/components/AddCommentForm.tsx:22 | `trim()` is empty iff every character is whitespace |
| `AddCommentForm.Form.constructor` | client/src/components/AddCommentForm.tsx:9-10 | both fields start as "" |
| `AddCommentForm.Form.IsValid` | client/src/components/AddCommentForm.tsx:22 | valid iff both author and body contain a non-whitespace character |
| `AddCommentForm.Form.SubmitDisabled` | client/src/components/AddCommentForm.tsx:64 | submit is disabled iff the author or the body is blank |
| `AddCommentForm.Form.ChangeAuthor` | client/src/components/AddCommentForm.tsx:42 | the author becomes exactly the typed value; the body is unchanged |
| `AddCommentForm.Form.ChangeBody` | client/src/components/AddCommentForm.tsx:56 | the body becomes exactly the typed value; the author is unchanged |
| `AddCommentForm.Form.Reset` | client/src/components/AddCommentForm.tsx:12-15 | both fields become "", after which the form is invalid and submit disabled |
| `AddCommentForm.Form.Submit` | client/src/components/AddCommentForm.tsx:17-20 | the payload is the fields as typed, untrimmed, with no validity check |
| `App.MergeReplies` | client/src/App.tsx:40-48 | same length and order; non-matching comments unchanged; matching ones get their loaded replies followed by the fetched ones, other fields unchanged |
| `App.AppendCreated` | client/src/App.tsx:60 | the old list is kept as a prefix and the created comment is last |
| `App.DropReply` | client/src/App.tsx:83-94 | non-matching comments unchanged; in matching ones the replies become the order-preserving filter `WithoutReply` of the loaded ones, and the count is lowered by exactly one, whether or not the reply was loaded |
| `App.HandleMoreReplies` | client/src/App.tsx:36-52 | a rejected fetch leaves the list unchanged; a resolved one merges the replies |
| `App.HandleSubmit` | client/src/App.tsx:54-67 | the callback runs iff creation resolved and a callback was passed; a rejection leaves the list unchanged, success appends |
| `App.HandleDeleteComment` | client/src/App.tsx:69-78 | a rejection leaves the list unchanged; success removes every entry with the id, in order |
| `App.HandleDeleteReply` | client/src/App.tsx:80-98 | a rejection leaves the list unchanged; success applies the reply updater |
| `App.MergeExactRemainderHidesShowMore` | client/src/App.tsx:40-48 | fetching exactly the missing number of replies leaves 0 missing and no show-more button |
| `App.SubmitComment` | client/src/App.tsx:58-63 | the payload is the form's fields; on success the list gains the created comment and the form is reset; on failure list and form are unchanged |
| `Sync.ListingIsInSync` | client/src/App.tsx:17-21 | the one-reply listing the client loads first is in sync with the store |
| `Sync.MoreRepliesKeepsSync` | client/src/App.tsx:40-48 | after "show more" on a thread that shows the button, the thread holds all stored replies, 0 are missing, and the list stays in sync |
| `Sync.CreateKeepsSync` | client/src/App.tsx:60 | appending the created record on both sides keeps the lists in sync |
| `Sync.DeleteCommentKeepsSync` | client/src/App.tsx:72-74 | filtering by comment id on both sides keeps the lists in sync |
| `Sync.DeleteReplyKeepsSync` | client/src/App.tsx:83-94 | in a well-formed store, the client's count minus one equals the store's recomputed count and the lists stay in sync, unless the client shows only the deleted first reply of a longer thread |
| `Sync.DeleteReplyCountsAgreeIff` | client/src/App.tsx:89 | after a reply is deleted, the client's decremented count equals the store's recount (data.js:63) iff the old count minus one is the number of replies left |
| `Sync.StaleCountDiverges` | server/data/data.js:63 | with a stale stored count the store's recomputed count (0) and the client's decremented one (2) differ |
| `Sync.DeletingFirstShownReplySkipsNext` | server/data/data.js:15 | deleting the only shown reply of a three-reply thread and then fetching more shows the third reply but never the second, and the client still reports one missing |

## Left out

- File I/O and serialisation are not modelled: `readFileSync`, `writeFileSync`, `JSON.parse` and the pretty-printing. The file is the `comments` field, and `writes` counts rewrites.
- `uuidv4()` and `Date.now()` are parameters of `SaveComment`. Uniqueness of the new id is a precondition only where it matters, in `SaveKeepsWellFormed`.
- The request body of `saveComment` is modelled with author, body and the four fields the store overrides. Any other fields the body carries are left out, because `Object.assign` copies them unchanged. A missing author or body is left out too.
- `deleteReply` mutates the found comment object inside the parsed array. The model replaces that element of the sequence instead. The parsed array has no other alias, so the two are equivalent.
- `server/server.js` is left out: it holds routing, CORS and body parsing, and its mapping of results to 204/404 is a thin wrapper. Its create-reply route calls a store function that does not exist and is not modelled.
- `client/src/services/comments.ts` is left out: its HTTP calls and schema checks appear only as the `Outcome` a handler receives.
- React rendering, hooks, effects and the async sequencing of handlers are left out; the list state is replaced wholesale and modelled as old-list to new-list functions.
- Also left out: `Comments.tsx`, the animation delay, CSS classes, SVG icons, and the `moment`/`toISOString` time display, which depends on the clock and the time zone.
- Concurrent requests racing on the shared file are left out: the model is sequential.
- CommentCard.Upper: models `toUpperCase` for the ASCII letters only. Other letters are left unchanged, whereas JavaScript also maps them and can change the length (for example, "ß" becomes "SS").
- CommentCard.AvatarColorIndex: requires a non-empty name. For an empty name the source computes NaN, which `RenderCard` represents as `None`.
- CommentCard.Split: characters are Unicode scalar values. A JavaScript `name[0]` on a name that starts outside the Basic Multilingual Plane takes half a surrogate pair, and this is not modelled.
- CommentThread.Decimal: only positive counts are written. The label is rendered only when the remaining count is positive.
