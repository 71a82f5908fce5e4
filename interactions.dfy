/** The changes likePost, postComment, deleteComment and
    deleteCommentFromMyPost make to a post's `likes` and `comments`. */
module Interactions {
  import opened Lists
  import opened Entities

  // ---------------------------------------------------------------- likes

  /** The like list after likePost: `userId` is put in front when it is not
      there, otherwise its first occurrence is spliced out. */
  function ToggleLike(likes: seq<Id>, u: Id): (r: seq<Id>)
    ensures u !in likes ==> r == [u] + likes
    ensures u in likes ==> multiset(r) == multiset(likes) - multiset{u}
    ensures u in likes ==> var k := IndexOf(likes, u);
      r == likes[..k] + likes[k + 1..]
  {
    if u in likes then
      SpliceIndexOfMultiset(likes, u);
      SpliceIndexOf(likes, u)
    else
      [u] + likes
  }

  /** Liking and unliking a post you had not liked gives back exactly the
      like list you started from, order included. */
  lemma ToggleLikeTwiceFromUnliked(likes: seq<Id>, u: Id)
    requires u !in likes
    ensures ToggleLike(ToggleLike(likes, u), u) == likes
  {
    IndexOfIsFirst([u] + likes, u, 0);
  }

  /** Unliking and liking again, when the like was held once at position `k`,
      gives back the same likes with `u` moved to the front. */
  lemma ToggleLikeTwiceFromLiked(likes: seq<Id>, u: Id)
    requires multiset(likes)[u] == 1
    ensures var k := IndexOf(likes, u);
      ToggleLike(ToggleLike(likes, u), u) == [u] + likes[..k] + likes[k + 1..]
  {
    var once := ToggleLike(likes, u);
    assert multiset(once)[u] == 0;
    assert u !in once;
  }

  /** On a duplicate-free like list the toggle flips `u`'s membership,
      keeps every other user's, and keeps the list duplicate-free. */
  lemma ToggleLikeFlips(likes: seq<Id>, u: Id)
    requires NoDup(likes)
    ensures var r := ToggleLike(likes, u);
      && NoDup(r)
      && (u in r <==> u !in likes)
      && forall v | v != u :: v in r <==> v in likes
  {
    if u in likes {
      SpliceIndexOfNoDup(likes, u);
      SpliceIndexOfKeepsOthers(likes, u);
    } else {
      var r := [u] + likes;
      assert forall j | 1 <= j < |r| :: r[j] == likes[j - 1];
    }
  }

  // ------------------------------------------------------------- comments

  /** postComment's upsert: the first comment by `u` gets the new text in
      place; when `u` has none, `{text, user: u}` is appended. */
  function UpsertComment(cs: seq<Comment>, u: Id, text: string): (r: seq<Comment>)
    ensures u !in Authors(cs) ==> r == cs + [Comment(text, u)]
    ensures u in Authors(cs) ==> var k := IndexOf(Authors(cs), u);
      && |r| == |cs|
      && r[k] == Comment(text, u)
      && forall j | 0 <= j < |cs| && j != k :: r[j] == cs[j]
  {
    var k := IndexOf(Authors(cs), u);
    if k < 0 then cs + [Comment(text, u)] else cs[k := cs[k].(text := text)]
  }

  /** The authors after an upsert: unchanged when `u` had commented,
      otherwise `u` joins at the end. */
  lemma AuthorsOfUpsert(cs: seq<Comment>, u: Id, text: string)
    ensures Authors(UpsertComment(cs, u, text))
         == if u in Authors(cs) then Authors(cs) else Authors(cs) + [u]
  {
    var r := UpsertComment(cs, u, text);
    if u in Authors(cs) {
      assert Authors(r) == Authors(cs);
    } else {
      assert Authors(r) == Authors(cs) + [u];
    }
  }

  /** Two upserts by the same user are one upsert with the later text. */
  lemma UpsertLatestWins(cs: seq<Comment>, u: Id, a: string, b: string)
    ensures UpsertComment(UpsertComment(cs, u, a), u, b) == UpsertComment(cs, u, b)
  {
    AuthorsOfUpsert(cs, u, a);
    if u !in Authors(cs) {
      IndexOfIsFirst(Authors(cs) + [u], u, |cs|);
    }
  }

  /** After an upsert `u` has exactly one comment, holding the new text,
      provided `u` had at most one before. */
  lemma UpsertLeavesOneComment(cs: seq<Comment>, u: Id, text: string)
    requires multiset(Authors(cs))[u] <= 1
    ensures var r := UpsertComment(cs, u, text);
      && multiset(Authors(r))[u] == 1
      && r[IndexOf(Authors(r), u)] == Comment(text, u)
  {
    AuthorsOfUpsert(cs, u, text);
    if u !in Authors(cs) {
      IndexOfIsFirst(Authors(cs) + [u], u, |cs|);
    }
  }

  /** The two-call scenario: after upserting `a` and then `b`, `u` has
      exactly one comment and it says `b`. */
  lemma UpsertTwiceLeavesOneComment(cs: seq<Comment>, u: Id, a: string, b: string)
    requires multiset(Authors(cs))[u] <= 1
    ensures var r := UpsertComment(UpsertComment(cs, u, a), u, b);
      && multiset(Authors(r))[u] == 1
      && r[IndexOf(Authors(r), u)] == Comment(b, u)
  {
    UpsertLatestWins(cs, u, a, b);
    UpsertLeavesOneComment(cs, u, b);
  }

  /** Keeping every author to one comment is preserved by an upsert. */
  lemma UpsertKeepsAuthorsUnique(cs: seq<Comment>, u: Id, text: string)
    requires NoDup(Authors(cs))
    ensures NoDup(Authors(UpsertComment(cs, u, text)))
  {
    AuthorsOfUpsert(cs, u, text);
  }

  /** `comments.splice(comments.map(c => c.user).indexOf(u), 1)`: the first
      comment by `u` goes; when `u` has none, the LAST comment goes. */
  function WithoutCommentBy(cs: seq<Comment>, u: Id): (r: seq<Comment>)
    ensures |cs| > 0 ==> |r| == |cs| - 1
    ensures |cs| == 0 ==> r == []
    ensures u in Authors(cs) ==> var k := IndexOf(Authors(cs), u);
      r == cs[..k] + cs[k + 1..]
    ensures u !in Authors(cs) && |cs| > 0 ==> r == cs[..|cs| - 1]
  {
    Splice(cs, IndexOf(Authors(cs), u))
  }

  /** Removing by author acts on the author list as the id-list removal. */
  lemma AuthorsOfWithout(cs: seq<Comment>, u: Id)
    ensures Authors(WithoutCommentBy(cs, u)) == SpliceIndexOf(Authors(cs), u)
  {
  }

  /** Removal undoes an upsert that added a comment. */
  lemma UpsertThenRemove(cs: seq<Comment>, u: Id, text: string)
    requires u !in Authors(cs)
    ensures WithoutCommentBy(UpsertComment(cs, u, text), u) == cs
  {
    AuthorsOfUpsert(cs, u, text);
    IndexOfIsFirst(Authors(cs) + [u], u, |cs|);
  }

  /** With one comment per author, removing `u`'s comment leaves none by `u`
      and keeps one comment per author. */
  lemma WithoutCommentByClears(cs: seq<Comment>, u: Id)
    requires NoDup(Authors(cs))
    ensures NoDup(Authors(WithoutCommentBy(cs, u)))
    ensures u !in Authors(WithoutCommentBy(cs, u))
  {
    AuthorsOfWithout(cs, u);
    SpliceIndexOfNoDup(Authors(cs), u);
  }

  /** The loop of postComment: scan for the user's comment, overwrite its text
      and stop at the first one; append when the scan found none. */
  method UpsertScan(cs: seq<Comment>, u: Id, text: string) returns (r: seq<Comment>, alreadyCommented: bool)
    ensures alreadyCommented <==> u in Authors(cs)
    ensures r == UpsertComment(cs, u, text)
  {
    r := cs;
    if |r| == 0 {
      r := r + [Comment(text, u)];
      alreadyCommented := false;
      return;
    }
    alreadyCommented := true;
    var i := 0;
    while i < |r|
      invariant 0 <= i <= |r| && r == cs
      invariant u !in Authors(cs)[..i]
      invariant if i == 0 then alreadyCommented else !alreadyCommented
    {
      if r[i].user == u {
        IndexOfIsFirst(Authors(cs), u, i);
        r := r[i := r[i].(text := text)];
        alreadyCommented := true;
        break;
      } else {
        alreadyCommented := false;
      }
      assert Authors(cs)[..i + 1] == Authors(cs)[..i] + [cs[i].user];
      i := i + 1;
    }
    if !alreadyCommented {
      assert Authors(cs)[..i] == Authors(cs);
      r := r + [Comment(text, u)];
    }
  }

  /** The loop of deleteComment (and of deleteCommentFromMyPost): at the first
      comment by `u`, splice it out by indexOf and stop. The flag reports that
      `u` had not commented, which is also the answer for an empty list. */
  method RemoveCommentScan(cs: seq<Comment>, u: Id) returns (r: seq<Comment>, haveNotCommented: bool)
    ensures haveNotCommented <==> u !in Authors(cs)
    ensures r == if haveNotCommented then cs else WithoutCommentBy(cs, u)
  {
    r := cs;
    haveNotCommented := false;
    if |r| == 0 {
      haveNotCommented := true;
      return;
    }
    var i := 0;
    while i < |r|
      invariant 0 <= i <= |r| && r == cs
      invariant u !in Authors(cs)[..i]
      invariant haveNotCommented <==> i > 0
    {
      if r[i].user == u {
        assert Authors(cs)[i] == u;
        r := Splice(r, IndexOf(Authors(r), u));
        haveNotCommented := false;
        break;
      } else {
        haveNotCommented := true;
      }
      assert Authors(cs)[..i + 1] == Authors(cs)[..i] + [cs[i].user];
      i := i + 1;
    }
    assert !haveNotCommented ==> u in Authors(cs);
    assert haveNotCommented ==> Authors(cs)[..i] == Authors(cs);
  }
}
