/** The handlers of the post and user controllers, each as one atomic step
    over the entity store. The acting identity (`actor`) is what the
    authentication layer put on the request; the outcome of request
    validation is passed in as the first validation message, if any. */
module Controllers {
  import opened Lists
  import opened Entities
  import opened Interactions
  import opened Graph
  import opened Cascade
  import opened Feed
  import opened Edits

  /** The stored records: users by id, and the posts collection in storage
      order (the order `Post.find` returns them in). */
  class Store {
    var users: map<Id, User>
    var posts: seq<Post>

    ghost predicate Valid()
      reads this
    {
      UniqueIds(posts)
    }

    constructor (users0: map<Id, User>, posts0: seq<Post>)
      requires UniqueIds(posts0)
      ensures Valid() && users == users0 && posts == posts0
    {
      users := users0;
      posts := posts0;
    }

    // ------------------------------------------------------- post handlers

    /** createPost: validation, then owner check, then the image check; on
        success the new post goes into the collection and its id to the end
        of the creator's `posts`. `newId` is the id the storage assigns. */
    method CreatePost(actor: Id, creator: Id, caption: string, mediaFile: MediaFile,
                      validationError: Option<string>, newId: Id) returns (reply: Reply)
      requires Valid()
      requires forall p | p in posts :: p.id != newId
      modifies this
      ensures Valid()
      ensures
        if validationError.Some? then
          reply == Err(500, validationError.value) && unchanged(this)
        else if creator !in old(users) || actor != creator then
          reply == Err(403, "Can not create post") && unchanged(this)
        else if !Truthy(mediaFile.filePath) then
          reply == Err(500, "Please provide image file") && unchanged(this)
        else
          && reply == Ok(201, "Post Created", true)
          && posts == old(posts) + [Post(newId, caption, mediaFile, creator, [], [])]
          && users == old(users)[creator := old(users)[creator].(posts := old(users)[creator].posts + [newId])]
    {
      if validationError.Some? {
        return Err(500, validationError.value);
      }
      if creator !in users || actor != creator {
        return Err(403, "Can not create post");
      }
      if !Truthy(mediaFile.filePath) {
        return Err(500, "Please provide image file");
      }
      var post := Post(newId, caption, mediaFile, creator, [], []);
      AppendPostKeepsUniqueIds(posts, post);
      posts := posts + [post];
      var user := users[creator];
      users := users[creator := user.(posts := user.posts + [newId])];
      reply := Ok(201, "Post Created", true);
    }

    /** updatePostCaption: a present, non-empty caption replaces the old one;
        otherwise the old caption stays. */
    method UpdatePostCaption(actor: Id, postId: Id, creator: Id, caption: Option<string>,
                             validationError: Option<string>) returns (reply: Reply)
      requires Valid()
      modifies this
      ensures Valid() && users == old(users)
      ensures var i := PostIndex(old(posts), postId);
        if validationError.Some? then
          reply == Err(500, validationError.value) && posts == old(posts)
        else if i < 0 then
          reply == Err(404, "Can not update post") && posts == old(posts)
        else if old(posts)[i].creator != creator || actor != creator then
          reply == Err(403, "Sorry you can not update this post") && posts == old(posts)
        else
          && reply == Ok(200, "Post Caption Updated", true)
          && posts == old(posts)[i := old(posts)[i].(caption := KeepOrReplaceText(old(posts)[i].caption, caption))]
    {
      if validationError.Some? {
        return Err(500, validationError.value);
      }
      var i := PostIndex(posts, postId);
      if i < 0 {
        return Err(404, "Can not update post");
      }
      var post := posts[i];
      if post.creator != creator || actor != creator {
        return Err(403, "Sorry you can not update this post");
      }
      post := post.(caption := KeepOrReplaceText(post.caption, caption));
      ReplacePostKeepsIds(posts, i, post);
      posts := posts[i := post];
      reply := Ok(200, "Post Caption Updated", true);
    }

    /** deletePost: the owner, acting as themself, removes the post; the
        owner's `posts` then loses the entry at indexOf(postId), or its last
        entry when the id is not listed. A missing owner record fails with a
        server error after the post is already gone. */
    method DeletePost(actor: Id, postId: Id, userId: Id) returns (reply: Reply)
      requires Valid()
      modifies this
      ensures Valid()
      ensures var i := PostIndex(old(posts), postId);
        if i < 0 then
          reply == Err(404, "Can not delete post") && unchanged(this)
        else if old(posts)[i].creator != userId || actor != userId then
          reply == Err(403, "Sorry you can't delete this post") && unchanged(this)
        else
          && posts == old(posts)[..i] + old(posts)[i + 1..]
          && (forall p | p in posts :: p.id != postId)
          && if userId !in old(users) then
               reply == Err(500, "Server Error") && users == old(users)
             else
               && reply == Ok(200, "Post Deleted", true)
               && users == old(users)[userId := old(users)[userId].(posts := SpliceIndexOf(old(users)[userId].posts, postId))]
    {
      var i := PostIndex(posts, postId);
      if i < 0 {
        return Err(404, "Can not delete post");
      }
      if posts[i].creator != userId || actor != userId {
        return Err(403, "Sorry you can't delete this post");
      }
      RemovePostKeepsUniqueIds(posts, i);
      posts := posts[..i] + posts[i + 1..];
      if userId !in users {
        return Err(500, "Server Error");
      }
      var creator := users[userId];
      var removeIndex := IndexOf(creator.posts, postId);
      creator := creator.(posts := Splice(creator.posts, removeIndex));
      users := users[userId := creator];
      reply := Ok(200, "Post Deleted", true);
    }

    /** likePost: the like toggle, for the acting user only. */
    method LikePost(actor: Id, postId: Id, userId: Id) returns (reply: Reply)
      requires Valid()
      modifies this
      ensures Valid() && users == old(users)
      ensures var i := PostIndex(old(posts), postId);
        if i < 0 then
          reply == Err(404, "Can't like or dislike this post") && posts == old(posts)
        else if userId !in users || actor != userId then
          reply == Err(401, "Can't like or dislike this post") && posts == old(posts)
        else
          && reply == Ok(200, "Success Like or UnLike", true)
          && posts == old(posts)[i := old(posts)[i].(likes := ToggleLike(old(posts)[i].likes, userId))]
    {
      var i := PostIndex(posts, postId);
      if i < 0 {
        return Err(404, "Can't like or dislike this post");
      }
      if userId !in users || actor != userId {
        return Err(401, "Can't like or dislike this post");
      }
      var post := posts[i];
      var likes := post.likes;
      if |likes| == 0 {
        likes := [userId] + likes;
      } else {
        var alreadyLiked := ScanFor(likes, userId, true);
        if !alreadyLiked {
          likes := [userId] + likes;
        } else {
          var removeIndex := IndexOf(likes, userId);
          likes := Splice(likes, removeIndex);
        }
      }
      post := post.(likes := likes);
      ReplacePostKeepsIds(posts, i, post);
      posts := posts[i := post];
      reply := Ok(200, "Success Like or UnLike", true);
    }

    /** postComment: the comment upsert, for the acting user only. */
    method PostComment(actor: Id, postId: Id, userId: Id, text: string,
                       validationError: Option<string>) returns (reply: Reply)
      requires Valid()
      modifies this
      ensures Valid() && users == old(users)
      ensures var i := PostIndex(old(posts), postId);
        if validationError.Some? then
          reply == Err(500, validationError.value) && posts == old(posts)
        else if i < 0 then
          reply == Err(404, "Can't comment on this post") && posts == old(posts)
        else if userId !in users || actor != userId then
          reply == Err(401, "Can't comment on this post") && posts == old(posts)
        else
          && reply == Ok(201, "Comment posted successfully", true)
          && posts == old(posts)[i := old(posts)[i].(comments := UpsertComment(old(posts)[i].comments, userId, text))]
    {
      if validationError.Some? {
        return Err(500, validationError.value);
      }
      var i := PostIndex(posts, postId);
      if i < 0 {
        return Err(404, "Can't comment on this post");
      }
      if userId !in users || actor != userId {
        return Err(401, "Can't comment on this post");
      }
      var post := posts[i];
      var comments, _ := UpsertScan(post.comments, userId, text);
      post := post.(comments := comments);
      ReplacePostKeepsIds(posts, i, post);
      posts := posts[i := post];
      reply := Ok(201, "Comment posted successfully", true);
    }

    /** deleteComment: the acting user removes their own first comment, or
        learns that they have none; both answers are 200. */
    method DeleteComment(actor: Id, postId: Id, userId: Id) returns (reply: Reply)
      requires Valid()
      modifies this
      ensures Valid() && users == old(users)
      ensures var i := PostIndex(old(posts), postId);
        if i < 0 then
          reply == Err(404, "Can't delete comment") && posts == old(posts)
        else if userId !in users || actor != userId then
          reply == Err(404, "Can't delete comment") && posts == old(posts)
        else if userId !in Authors(old(posts)[i].comments) then
          reply == Ok(200, "You have not commented on this post yet", false) && posts == old(posts)
        else
          && reply == Ok(200, "Comment deleted successfully", true)
          && posts == old(posts)[i := old(posts)[i].(comments := WithoutCommentBy(old(posts)[i].comments, userId))]
    {
      var i := PostIndex(posts, postId);
      if i < 0 {
        return Err(404, "Can't delete comment");
      }
      if userId !in users || actor != userId {
        return Err(404, "Can't delete comment");
      }
      var post := posts[i];
      var comments, haveNotCommented := RemoveCommentScan(post.comments, userId);
      post := post.(comments := comments);
      ReplacePostKeepsIds(posts, i, post);
      posts := posts[i := post];
      if haveNotCommented {
        reply := Ok(200, "You have not commented on this post yet", false);
      } else {
        reply := Ok(200, "Comment deleted successfully", true);
      }
    }

    /** deleteCommentFromMyPost: the post's creator, acting as themself,
        removes the first comment by `userId`, if there is one. The creator
        is read through the populated reference, so a post whose creator has
        no record fails with a server error before the authorisation test. */
    method DeleteCommentFromMyPost(actor: Id, postId: Id, userId: Id, authId: Id) returns (reply: Reply)
      requires Valid()
      modifies this
      ensures Valid() && users == old(users)
      ensures var i := PostIndex(old(posts), postId);
        if i < 0 then
          reply == Err(404, "Can't delete comment") && posts == old(posts)
        else if userId !in users then
          reply == Err(404, "Can't delete comment") && posts == old(posts)
        else if old(posts)[i].creator !in users then
          reply == Err(500, "Server Error") && posts == old(posts)
        else if old(posts)[i].creator != authId || actor != authId then
          reply == Err(403, "Not Authorized") && posts == old(posts)
        else
          var cs := old(posts)[i].comments;
          && reply == Ok(200, "Comment deleted successfully", true)
          && posts == old(posts)[i := old(posts)[i].(comments :=
               if userId in Authors(cs) then WithoutCommentBy(cs, userId) else cs)]
    {
      var i := PostIndex(posts, postId);
      if i < 0 {
        return Err(404, "Can't delete comment");
      }
      if userId !in users {
        return Err(404, "Can't delete comment");
      }
      var post := posts[i];
      if post.creator !in users {
        return Err(500, "Server Error");
      }
      if post.creator == authId && actor == authId {
        var comments, haveNotCommented := RemoveCommentScan(post.comments, userId);
        post := post.(comments := comments);
      } else {
        return Err(403, "Not Authorized");
      }
      ReplacePostKeepsIds(posts, i, post);
      posts := posts[i := post];
      reply := Ok(200, "Comment deleted successfully", true);
    }

    /** getPostsForHome: the acting user's feed, built from their
        connections' posts. */
    method GetPostsForHome(actor: Id, userId: Id) returns (reply: Reply, feed: seq<Post>)
      ensures userId !in users || actor != userId ==>
        reply == Err(404, "Can not find posts of your connections.") && feed == []
      ensures userId in users && actor == userId ==>
        var all := HomeFeed(posts, users[userId].connections);
        && (forall p :: p in all <==> p in posts && p.creator in users[userId].connections)
        && if all == [] then
             reply == Err(500, "Sorry, No posts for now but you can follow other users to see their posts!")
             && feed == []
           else
             reply == Ok(200, "Posts for home page", false) && feed == all
    {
      feed := [];
      if userId !in users || actor != userId {
        return Err(404, "Can not find posts of your connections."), [];
      }
      var all := AssembleFeed(posts, users[userId].connections);
      if |all| == 0 {
        return Err(500, "Sorry, No posts for now but you can follow other users to see their posts!"), [];
      }
      reply, feed := Ok(200, "Posts for home page", false), all;
    }

    // ------------------------------------------------------- user handlers

    /** connectUser: `userId` (acting as themself) connects to `otherId`
        unless the overwriting scans find them connected already. */
    method ConnectUser(actor: Id, otherId: Id, userId: Id) returns (reply: Reply)
      requires Valid()
      modifies this
      ensures Valid() && posts == old(posts)
      ensures
        if otherId !in old(users) || userId !in old(users) || otherId == userId || actor != userId then
          reply == Err(401, "Can not connect user") && users == old(users)
        else if ConnectVerdict(old(users), userId, otherId) then
          reply == Ok(200, "You allready connected with this user", false) && users == old(users)
        else
          && reply == Ok(200, "You made a new connection", true)
          && users == Connect(old(users), userId, otherId)
      ensures reply.Ok? && GraphValid(old(users)) ==>
        && GraphValid(users)
        && otherId in users[userId].connections
        && userId in users[otherId].connections
    {
      if otherId !in users || userId !in users || otherId == userId || actor != userId {
        return Err(401, "Can not connect user");
      }
      var allreadyConnected := false;
      allreadyConnected := ScanFor(users[otherId].connections, userId, allreadyConnected);
      allreadyConnected := ScanFor(users[userId].connections, otherId, allreadyConnected);
      if !allreadyConnected {
        if GraphValid(users) {
          ConnectKeepsGraphValid(users, userId, otherId);
        }
        var otherUser, user := users[otherId], users[userId];
        otherUser := otherUser.(connections := otherUser.connections + [userId]);
        user := user.(connections := user.connections + [otherId]);
        users := users[otherId := otherUser][userId := user];
        reply := Ok(200, "You made a new connection", true);
      } else {
        if GraphValid(users) {
          VerdictsAreMembership(users, userId, otherId);
        }
        reply := Ok(200, "You allready connected with this user", false);
      }
    }

    /** blockUser: when the overwriting scans find a link, each user's id is
        spliced out of the other's list at its indexOf position. */
    method BlockUser(actor: Id, otherId: Id, userId: Id) returns (reply: Reply)
      requires Valid()
      modifies this
      ensures Valid() && posts == old(posts)
      ensures
        if otherId !in old(users) || userId !in old(users) || otherId == userId || actor != userId then
          reply == Err(401, "Can not block user") && users == old(users)
        else if !BlockVerdict(old(users), userId, otherId) then
          reply == Ok(200, "You can not Block a user which does not exits", false) && users == old(users)
        else
          && reply == Ok(200, "You Blocked a user", true)
          && users == Block(old(users), userId, otherId)
      ensures reply.Ok? && GraphValid(old(users)) ==>
        && GraphValid(users)
        && otherId !in users[userId].connections
        && userId !in users[otherId].connections
    {
      if otherId !in users || userId !in users || otherId == userId || actor != userId {
        return Err(401, "Can not block user");
      }
      var block := false;
      block := ScanFor(users[userId].connections, otherId, block);
      block := ScanFor(users[otherId].connections, userId, block);
      if block {
        if GraphValid(users) {
          BlockKeepsGraphValid(users, userId, otherId);
        }
        var user, otherUser := users[userId], users[otherId];
        var removeIndexOfOtherUser := IndexOf(user.connections, otherId);
        user := user.(connections := Splice(user.connections, removeIndexOfOtherUser));
        var removeIndexOfUser := IndexOf(otherUser.connections, userId);
        otherUser := otherUser.(connections := Splice(otherUser.connections, removeIndexOfUser));
        users := users[userId := user][otherId := otherUser];
        reply := Ok(200, "You Blocked a user", true);
      } else {
        if GraphValid(users) {
          VerdictsAreMembership(users, userId, otherId);
        }
        reply := Ok(200, "You can not Block a user which does not exits", false);
      }
    }

    /** writeAboutUser: each of profession, bio and location is replaced when
        a present, non-empty value is sent and kept otherwise. */
    method WriteAboutUser(actor: Id, userId: Id, profession: Option<string>, bio: Option<string>,
                          location: Option<string>, validationError: Option<string>) returns (reply: Reply)
      requires Valid()
      modifies this
      ensures Valid() && posts == old(posts)
      ensures
        if validationError.Some? then
          reply == Err(500, validationError.value) && users == old(users)
        else if userId !in old(users) || actor != userId then
          reply == Err(403, "Not Authorized") && users == old(users)
        else
          var u := old(users)[userId];
          && reply == Ok(201, "User Bio updated", true)
          && users == old(users)[userId := u.(
               profession := KeepOrReplace(u.profession, profession),
               bio := KeepOrReplace(u.bio, bio),
               location := KeepOrReplace(u.location, location))]
    {
      if validationError.Some? {
        return Err(500, validationError.value);
      }
      if userId !in users || actor != userId {
        return Err(403, "Not Authorized");
      }
      var user := users[userId];
      user := user.(profession := KeepOrReplace(user.profession, profession));
      user := user.(bio := KeepOrReplace(user.bio, bio));
      user := user.(location := KeepOrReplace(user.location, location));
      users := users[userId := user];
      reply := Ok(201, "User Bio updated", true);
    }

    /** deleteUser: the acting user deletes themself. Their posts go; every
        remaining post loses a like and a comment (see StripUser); every
        listed peer loses an entry; last, the user record goes. A listed peer
        with no record stops the cascade with a server error, keeping the
        steps already taken. */
    method DeleteUser(actor: Id, userId: Id) returns (reply: Reply)
      requires Valid()
      modifies this
      ensures Valid()
      ensures
        if userId !in old(users) || actor != userId then
          reply == Err(404, "Can not delete user") && unchanged(this)
        else
          var detached := DetachFromPeers(old(users), old(users)[userId].connections, userId);
          && posts == StripTable(DropOwned(old(posts), userId), userId)
          && if detached.1 then
               reply == Ok(200, "User Deleted", true) && users == detached.0 - {userId}
             else
               reply == Err(500, "Server Error") && users == detached.0
      ensures reply.Ok? ==> forall p | p in posts :: p.creator != userId
      ensures userId in old(users) && actor == userId &&
              (forall p | p in old(posts) :: NoDup(p.likes) && NoDup(Authors(p.comments))) ==>
        forall p | p in posts :: userId !in p.likes && userId !in Authors(p.comments)
      ensures reply.Ok? && GraphValid(old(users)) ==>
        && GraphValid(users)
        && forall a | a in users :: userId !in users[a].connections
    {
      if userId !in users || actor != userId {
        return Err(404, "Can not delete user");
      }
      var user := users[userId];
      var kept := RemoveOwnedPosts(posts, userId);
      if forall p | p in posts :: NoDup(p.likes) && NoDup(Authors(p.comments)) {
        StripTableClears(kept, userId);
      }
      DropOwnedKeepsUniqueIds(posts, userId);
      posts := StripEachPost(kept, userId);
      var peers, done := DetachEachPeer(users, user.connections, userId);
      if !done {
        users := peers;
        return Err(500, "Server Error");
      }
      if GraphValid(users) {
        CascadeKeepsGraphValid(users, userId);
      }
      users := peers - {userId};
      reply := Ok(200, "User Deleted", true);
    }
  }
}
