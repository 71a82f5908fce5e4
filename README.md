# uconnect-backend: the post and user controllers, modelled in Dafny

This project models the in-memory mutation logic of the uconnect social
network's post and user controllers. Each HTTP handler is one atomic step
over a store of records. The store holds users keyed by id and the posts
collection in storage order. Every handler answers with a `Reply`, which is
one of:

- an error with its HTTP status and message;
- a success with its status and message. A flag on the success, `applied`,
  is false for a read and for the soft outcomes that the source reports as
  success under a message of their own (already connected, nothing to block,
  not commented yet). It does not say whether any stored data changed.

The files are:

- `lists.dfy` (module `Lists`): the JavaScript list idioms the controllers
  use.
  - `indexOf`, which returns -1 on a miss.
  - `splice(start, 1)`, where a negative start counts from the end, so
    `splice(-1, 1)` drops the last entry.
  - The `for…of` scans that set a flag and `break` on the first hit. The
    flag keeps its earlier value on an empty list.
- `entities.dfy` (module `Entities`): the `User`, `Post`, `Comment` and
  `MediaFile` records, `Reply`, and `findById` on the posts collection.
- `interactions.dfy` (module `Interactions`):
  - the like toggle of `likePost`;
  - the comment upsert of `postComment`;
  - the comment removal of `deleteComment` and `deleteCommentFromMyPost`;
  - the scanning loops of those handlers, as methods proved against the
    functions.
- `graph.dfy` (module `Graph`):
  - the verdicts of `connectUser` and `blockUser`, which come from two
    overwriting flag scans;
  - the two pushes of connect and the two splices of block;
  - the connection-graph invariant those handlers keep: symmetric, no
    duplicates, no self-links, no dangling ids.
- `cascade.dfy` (module `Cascade`): the three loops of `deleteUser`.
  1. Drop the user's posts.
  2. Splice one like and one comment out of every remaining post.
  3. Splice the user out of each listed peer's connections.
- `feed.dfy` (module `Feed`): the ordering of `getPostsForHome`, where every
  connection's posts are `unshift`ed one by one. It also has the
  `AssembleFeed` loop proved equal to that ordering.
- `edits.dfy` (module `Edits`): the `x ? x : old` keep-or-replace updates of
  `updatePostCaption` and `writeAboutUser`.
- `controllers.dfy` (module `Controllers`): the class `Store`, whose fields
  are `users: map<Id, User>` and `posts: seq<Post>`, with one method per
  handler. Every method states:
  - its status code and message for each error path, in the source's order
    of checks;
  - the exact new state on each path.

  The lemmas in the other modules then prove what that new state means.

Conventions of the model:

- Ids are strings and are compared by equality.
- The acting identity (`req.user._id`) is the parameter `actor`.
- The outcome of request validation is the parameter `validationError`. It
  holds the first validation message, if there is one. The source answers
  that message with status 500.
- An `HttpError` raised without a status answers 500, as the error handler
  of `backend/server.js:52-54` does. This applies to the empty-feed error of
  `getPostsForHome`.
- A `null` record dereferenced after an earlier write lands in the
  handler's `catch` and answers 500 "Server Error". The earlier writes stay.
  Three places do this:
  - `deletePost` when the owner has no record;
  - `deleteCommentFromMyPost` when the post's creator has no record, since
    the populated `creator` is then `null`; nothing has been written yet;
  - `deleteUser` when a listed peer has no record.
- The `indexOf` + `splice` removal idiom is kept exactly: a miss removes
  the last entry. The overwriting flag scans of connect and block are kept
  exactly as well.

## Model

| member | source | states |
|---|---|---|
| Lists.IndexOf | controller/postController.js:272 | the result is -1 exactly when the value is absent; otherwise it holds the value and no earlier position does |
| Lists.IndexOfIsFirst | controller/postController.js:272 | a position holding the value with no earlier occurrence is the one indexOf returns |
| Lists.SpliceIndex | controller/postController.js:273 | the position splice(start, 1) deletes lies within the list (or is its length when nothing goes) |
| Lists.Splice | controller/postController.js:273 | splice(start, 1) removes one element at the normalised start (a negative start counts from the end) and keeps the order of the rest |
| Lists.SpliceIndexOf | controller/postController.js:228-229 | splice(indexOf(x), 1) shortens a non-empty list by one: it drops the first x, or the last entry when x is absent; an empty list stays empty |
| Lists.SpliceIndexOfMultiset | controller/postController.js:272-273 | removing a present value takes out exactly one copy of it and nothing else |
| Lists.SpliceIndexOfKeepsOthers | controller/postController.js:272-273 | removing a present value keeps every other value's membership |
| Lists.SpliceIndexOfNoDup | controller/userController.js:291-296 | on a duplicate-free list the removal keeps it duplicate-free and leaves no copy of the value |
| Lists.AppendThenSpliceIndexOf | controller/userController.js:234-235 | pushing an absent id and then removing it gives the original list back |
| Lists.Scanned | controller/userController.js:213-231 | the flag a for…of scan leaves, defined element by element, keeps its earlier value on an empty list and otherwise is true exactly when the id occurs |
| Lists.ScanFor | controller/postController.js:259-267 | the flag loop ends with its initial value on an empty list and otherwise with the membership of the searched id |
| Entities.PostIndex | controller/postController.js:145-150 | findById finds the post with that id, or reports -1 exactly when no post has it |
| Entities.ReplacePostKeepsIds | controller/postController.js:157-158 | saving a post back under its own id keeps the collection's ids |
| Entities.AppendPostKeepsUniqueIds | controller/postController.js:117-122 | saving a new post with a fresh id keeps the ids unique |
| Entities.RemovePostKeepsUniqueIds | controller/postController.js:225 | removing a post keeps the ids unique and leaves no post with the removed id |
| Interactions.ToggleLike | controller/postController.js:256-275 | an absent user is put in front of the likes; a present user's first like is removed, the rest in order, exactly one copy gone |
| Interactions.ToggleLikeTwiceFromUnliked | controller/postController.js:256-275 | like then unlike, starting unliked, restores the likes exactly |
| Interactions.ToggleLikeTwiceFromLiked | controller/postController.js:256-275 | unlike then like, starting liked once at position k, gives the same likes with the user moved to the front |
| Interactions.ToggleLikeFlips | controller/postController.js:256-275 | on duplicate-free likes the toggle flips the user's membership, keeps everyone else's, and stays duplicate-free |
| Interactions.UpsertComment | controller/postController.js:309-332 | the user's first comment gets the new text in place, with length and every other comment unchanged; with no comment by the user, one is appended |
| Interactions.AuthorsOfUpsert | controller/postController.js:309-332 | the authors are unchanged by an update, and gain the user at the end on an append |
| Interactions.UpsertLatestWins | controller/postController.js:309-332 | two upserts by one user equal one upsert with the later text |
| Interactions.UpsertLeavesOneComment | controller/postController.js:309-332 | from at most one comment by the user, an upsert leaves exactly one, holding the new text |
| Interactions.UpsertTwiceLeavesOneComment | controller/postController.js:309-332 | two successive upserts leave exactly one comment by the user, holding the latest text |
| Interactions.UpsertKeepsAuthorsUnique | controller/postController.js:309-332 | one comment per author is preserved by an upsert |
| Interactions.WithoutCommentBy | controller/postController.js:367-368 | the first comment by the user is removed, the rest in order; with none by the user the last comment goes |
| Interactions.AuthorsOfWithout | controller/postController.js:367-368 | removal by author acts on the author list as the id-list removal |
| Interactions.UpsertThenRemove | controller/postController.js:309-332 | removing the comment an upsert appended gives the comments back |
| Interactions.WithoutCommentByClears | controller/postController.js:367-368 | with one comment per author, removal leaves none by the user and keeps one per author |
| Interactions.UpsertScan | controller/postController.js:309-332 | the overwrite-and-break loop yields the upsert, and its flag is whether the user had commented |
| Interactions.RemoveCommentScan | controller/postController.js:361-375 | the splice-and-break loop removes the user's first comment; its flag is set exactly when the user has none, and then nothing changes |
| Graph.ConnectVerdict | controller/userController.js:213-231 | "already connected" is other-in-user's-list when that list is non-empty, else user-in-other's-list |
| Graph.BlockVerdict | controller/userController.js:269-287 | Block is user-in-other's-list when that list is non-empty, else other-in-user's-list |
| Graph.Connect | controller/userController.js:233-236 | only the two users change (each id pushed on the other's list) and no user is added or dropped |
| Graph.Block | controller/userController.js:289-297 | only the two users change, each non-empty list shrinking by exactly one, and no user is added or dropped |
| Graph.VerdictsAreMembership | controller/userController.js:213-231 | on a valid graph both verdicts equal plain membership, and membership is symmetric |
| Graph.ConnectKeepsGraphValid | controller/userController.js:213-246 | connecting two unconnected users of a valid graph links them both ways and keeps the graph valid |
| Graph.ConnectAgainFindsLink | controller/userController.js:213-246 | after a connect, a second connect's verdict is "already connected" |
| Graph.ConnectIsSymmetric | controller/userController.js:233-236 | the two pushes give the same users whichever of the pair asks |
| Graph.UnpushConnection | controller/userController.js:234-235 | splicing a user's list at the indexOf of the id just pushed gives back the user record unchanged |
| Graph.BlockAfterConnect | controller/userController.js:289-297 | blocking right after a connect between unlinked users removes exactly the two pushed entries |
| Graph.BlockKeepsGraphValid | controller/userController.js:269-297 | blocking a connected pair of a valid graph unlinks them both ways and keeps the graph valid |
| Graph.BlockUndoesConnect | controller/userController.js:233-236 | blocking (by either party) right after a connect restores the users exactly |
| Graph.ConnectOnOneSidedLinkDuplicates | controller/userController.js:213-236 | for any users where the requester's non-empty list lacks the other but the other lists the requester, the verdict is "not connected" and the other's list ends with the requester twice |
| Graph.BlockAsWritten | controller/userController.js:291-296 | as written, block changes only the two users (each drops its last entry) |
| Graph.BlockAsWrittenCutsBystander | controller/userController.js:291-296 | as written, when the blocked user is not the requester's last connection, the link survives and the graph stops being valid |
| Cascade.DropOwned | controller/userController.js:96-102 | exactly the posts not created by the user remain |
| Cascade.DropOwnedKeepsUniqueIds | controller/userController.js:96-102 | removing the user's posts keeps the post ids unique |
| Cascade.StripUser | controller/userController.js:112-121 | only likes and comments change, and each non-empty list shrinks by exactly one |
| Cascade.StripUserRemovesUsersEntry | controller/userController.js:112-121 | where the user liked or commented, the entry removed is one copy of the user's own |
| Cascade.StripUserClears | controller/userController.js:112-121 | on a post with duplicate-free likes and one comment per author, the step leaves no like and no comment by the user |
| Cascade.StripTable | controller/userController.js:105-125 | the loop over all posts keeps every post's id and creator |
| Cascade.StripTableClears | controller/userController.js:105-125 | after the loop over all posts, no post with duplicate-free lists keeps a like or comment by the user |
| Cascade.DetachFromPeers | controller/userController.js:128-135 | the peer loop never adds or drops a user record |
| Cascade.DetachFromPeersEffect | controller/userController.js:128-135 | with distinct existing peers the loop completes, each peer loses the entry at indexOf(user), and nobody else changes |
| Cascade.DetachShrinksEachPeer | controller/userController.js:128-135 | every listed peer with a non-empty list loses exactly one entry |
| Cascade.CascadeKeepsGraphValid | controller/userController.js:128-139 | from a valid graph the peer loop completes, and once the user record is gone the graph is valid and nobody lists the user |
| Cascade.RemoveOwnedPosts | controller/userController.js:96-102 | the loop over the user's posts leaves exactly DropOwned of the collection |
| Cascade.StripOnePost | controller/userController.js:108-121 | one turn of the loop over all posts performs exactly the strip step on that post |
| Cascade.StripEachPost | controller/userController.js:105-125 | the loop over all posts applies the strip step to every post, in place |
| Cascade.DetachEachPeer | controller/userController.js:128-135 | the loop over the connections updates the peers as DetachFromPeers says, stopping at a missing record |
| Cascade.StripUserCutsBystander | controller/userController.js:112-121 | a post the user never liked still loses its last like |
| Cascade.StripUserIntended | controller/userController.js:112-121 | the corrected step changes only likes and comments |
| Cascade.StripUserIntendedIsExact | controller/userController.js:112-121 | the corrected step removes one copy of the user's like and comment, leaves no trace of the user, and takes nothing else |
| Feed.PostsBy | controller/postController.js:76-77 | the posts found for a creator are exactly that creator's posts |
| Feed.ReverseAppend | controller/postController.js:80-82 | unshifting a batch after earlier ones puts its reverse in front |
| Feed.ReverseMembership | controller/postController.js:80-82 | unshifting keeps exactly the posts gathered |
| Feed.GatheredMembership | controller/postController.js:74-83 | the gathered posts are exactly those whose creator is listed |
| Feed.HomeFeed | controller/postController.js:74-83 | the home feed holds exactly the posts whose creator is one of the connections |
| Feed.HomeFeedLaterConnectionFirst | controller/postController.js:75-82 | a later connection's posts come first, in reverse collection order |
| Feed.UnshiftEach | controller/postController.js:80-82 | unshifting a batch one by one puts the batch, reversed, in front of the earlier posts |
| Feed.AssembleFeed | controller/postController.js:74-83 | the nested unshift loop builds exactly the home feed |
| Edits.KeepOrReplace | controller/userController.js:163-165 | the field becomes a present non-empty incoming value, else keeps its old value; a set field stays set |
| Edits.KeepOrReplaceText | controller/postController.js:157 | the caption becomes a present non-empty incoming caption, else keeps its old value; a non-empty caption stays non-empty |
| Edits.KeepOrReplaceIdempotent | controller/userController.js:163-165 | sending the same values twice has the effect of sending them once |
| Controllers.Store.CreatePost | controller/postController.js:97-130 | validation 500, owner/actor 403, missing image 500; otherwise the post is added with empty likes and comments, and its id is pushed on the creator's posts |
| Controllers.Store.UpdatePostCaption | controller/postController.js:133-164 | validation 500, missing post 404, non-owner 403; otherwise only that post's caption changes, by keep-or-replace |
| Controllers.Store.DeletePost | controller/postController.js:203-237 | missing post 404, non-owner 403 with nothing changed; otherwise the post is gone, then the owner's posts lose the entry at indexOf (last on a miss), or 500 with no owner record |
| Controllers.Store.LikePost | controller/postController.js:240-283 | missing post 404, missing user or other actor 401, post unchanged; otherwise only that post's likes change, by the toggle |
| Controllers.Store.PostComment | controller/postController.js:286-341 | validation 500, missing post 404, missing user or other actor 401; otherwise only that post's comments change, by the upsert |
| Controllers.Store.DeleteComment | controller/postController.js:344-388 | 404 for a missing post, user or other actor; 200 "not commented yet" with nothing changed, or 200 "deleted" with the user's first comment removed |
| Controllers.Store.DeleteCommentFromMyPost | controller/postController.js:391-430 | 404 for a missing post or user; 500 when the post's creator has no record; unless the creator is authId acting as themself, 403 with nothing changed; otherwise the user's first comment, if any, goes, and the reply is the same success either way |
| Controllers.Store.GetPostsForHome | controller/postController.js:65-94 | missing user or other actor 404; otherwise the feed is exactly the connections' posts in unshift order, and empty gives 500 |
| Controllers.Store.ConnectUser | controller/userController.js:198-250 | 401 with nothing changed for a missing or identical user or another actor; the verdict decides between "already connected" and the two pushes; a valid graph stays valid with the pair linked |
| Controllers.Store.BlockUser | controller/userController.js:254-311 | 401 with nothing changed for a missing or identical user or another actor; the verdict decides between "can not block" and the two splices; a valid graph stays valid with the pair unlinked |
| Controllers.Store.WriteAboutUser | controller/userController.js:147-174 | validation 500, missing user or other actor 403; otherwise only that user's profession, bio and location change, each by keep-or-replace |
| Controllers.Store.DeleteUser | controller/userController.js:86-144 | 404 with nothing changed for a missing user or another actor; otherwise the posts are the user's dropped then stripped (no like or comment by the user survives on posts whose lists were duplicate-free), the peers detached, and the record removed (500 and no removal on a missing peer); a valid graph stays valid with no one listing the user |

## Left out

- Persistence and timing are not modelled.
  - `await`, `save` and `remove` become plain state updates.
  - Interleaving between concurrent requests is left out; each handler is
    one atomic step.
  - Storage failures other than dereferencing a missing record are left
    out.
- The socket notifications (`io.getIO().emit`) are fire-and-forget, so they
  are left out.
- The media service calls (`destroyMedia`) in `deletePost` and `deleteUser`
  are foreign network calls. They are omitted, and their result is ignored
  by the source anyway.
- Authentication (JWT, OAuth, passwords) is left out. The authenticated
  user is the `actor` parameter.
- Request validation is reduced to its outcome. The length and format
  bounds of the route validators are not modelled; `validationError` stands
  for their first message.
- The id the database assigns to a new post is the `newId` parameter of
  `Store.CreatePost`, which requires it to be fresh.
- `populate` is left out, except that a creator with no record makes the
  populated `creator` `null`. `deleteCommentFromMyPost` dereferences it at
  `controller/postController.js:409`, and the model answers that with 500.
- `Store.CreatePost` does not separate a `null` image path from a missing
  one. Both count as missing; the source rejects only `undefined` and `''`.
- Id comparison is equality throughout, including where the source compares
  a list of string ids against an `ObjectId` with `indexOf`. The `deleteUser`
  lookups at `controller/userController.js:113,119,131` have this mismatch.
  If `map` returns a plain Array, they would always miss as written and so
  always drop the last entry. Only
  the `blockUser` instance is modelled as written, as a finding.
- The handlers that only read or write whole fields and have no list logic
  are left out: `getPosts`, `getPost`, `getPostByUser`, `updatePostMedia`,
  `getUsers`, `getUser`, `getUserByName`, `updateProfilePic` and
  `deleteAboutUser`.
- User fields that the modelled handlers never touch are left out, and so
  are credentials. User fields that are carried unchanged are kept.
- Store.ConnectUser, Store.BlockUser and Store.DeleteUser promise
  connection-graph validity only when the graph was valid before. The source
  never checks the graph, so validity is not a class invariant.
- Store.DeleteUser keeps the cascade step of the source as written. That
  step removes an entry from every non-empty like and comment list. The
  corrected step, `Cascade.StripUserIntended`, is proved beside it but is
  not what the store runs.

## Findings

| source | as written | input that shows it | evidently intended | confidence | as-written member | corrected member |
|---|---|---|---|---|---|---|
| controller/userController.js:291-296 | each list of string ids is searched with `indexOf` for an `ObjectId`; strict comparison never matches, so `splice(-1, 1)` drops each list's last entry | user u with connections [o, c], o with [u], c with [u]; u blocks o: u keeps o and loses c, o loses u, c still lists u | remove o from u's list and u from o's list | medium (depends on the array `map` returning plain strings); not executed | Graph.BlockAsWrittenCutsBystander | Graph.BlockKeepsGraphValid |
| controller/userController.js:112-121 | every post with a non-empty like or comment list loses an entry, whether or not the deleted user is in it | a post liked only by b; a deletes their account: b's like is gone | remove the deleted user's like and comment only where they exist | high; not executed | Cascade.StripUserCutsBystander | Cascade.StripUserIntendedIsExact |

Two things follow for the store:

- `Store.BlockUser` runs the corrected block, because ids are compared by
  equality throughout the model.
- `Store.DeleteUser` keeps the cascade step as written. Its wrong removal
  does not depend on how ids are compared, and the model reproduces the
  handler's effect on the data.
