/** The two stored records, User and Post, with the fields the controllers
    read and write, and the tagged reply every handler returns. */
module Entities {
  import opened Lists

  /** An opaque record id (a MongoDB ObjectId in its string form). */
  type Id = string

  datatype Option<T> = None | Some(value: T)

  /** A comment embedded in a post: its text and its author. */
  datatype Comment = Comment(text: string, user: Id)

  /** Where a post's image lives in the external media service. */
  datatype MediaFile = MediaFile(mediaId: Option<string>, fileName: Option<string>, filePath: Option<string>)

  /** A post. `likes` is most-recent-first; `comments` is in posting order. */
  datatype Post = Post(
    id: Id,
    caption: string,
    mediaFile: MediaFile,
    creator: Id,
    comments: seq<Comment>,
    likes: seq<Id>)

  /** A user. `posts` lists the ids of the user's posts in creation order;
      `connections` lists connected users in the order the links were made.
      Credentials are not part of this model. */
  datatype User = User(
    username: string,
    email: Option<string>,
    image: Option<string>,
    imgId: Option<string>,
    profession: Option<string>,
    bio: Option<string>,
    location: Option<string>,
    posts: seq<Id>,
    connections: seq<Id>)

  /** What a handler answers: an error with its HTTP status and message, or
      success with its status and message. `applied` is false for a read and
      for the soft outcomes the source reports as success with a message of
      their own (already connected, nothing to block, not commented yet).
      It does not record whether any stored data changed. */
  datatype Reply =
    | Err(status: nat, message: string)
    | Ok(status: nat, message: string, applied: bool)

  /** `comments.map(c => c.user)` */
  function Authors(cs: seq<Comment>): seq<Id> {
    seq(|cs|, i requires 0 <= i < |cs| => cs[i].user)
  }

  /** The ids of a table of posts, in table order. */
  function PostIds(t: seq<Post>): seq<Id> {
    seq(|t|, i requires 0 <= i < |t| => t[i].id)
  }

  /** No two posts of the table share an id. */
  predicate UniqueIds(t: seq<Post>) {
    NoDup(PostIds(t))
  }

  /** `Post.findById(id)` on a table: the position of the post, or -1. */
  function PostIndex(t: seq<Post>, id: Id): (i: int)
    ensures -1 <= i < |t|
    ensures 0 <= i ==> t[i].id == id
    ensures i < 0 <==> forall p | p in t :: p.id != id
  {
    var i := IndexOf(PostIds(t), id);
    assert forall j | 0 <= j < |t| :: PostIds(t)[j] == t[j].id;
    i
  }

  /** JavaScript truthiness of an optional string: present and non-empty. */
  predicate Truthy(v: Option<string>) {
    v.Some? && v.value != ""
  }

  /** Replacing a post by one with the same id keeps the table's ids. */
  lemma ReplacePostKeepsIds(t: seq<Post>, i: nat, p: Post)
    requires i < |t| && p.id == t[i].id
    ensures PostIds(t[i := p]) == PostIds(t)
  {
  }

  /** Appending a post with a fresh id keeps ids unique. */
  lemma AppendPostKeepsUniqueIds(t: seq<Post>, p: Post)
    requires UniqueIds(t)
    requires forall q | q in t :: q.id != p.id
    ensures UniqueIds(t + [p])
  {
    assert PostIds(t + [p]) == PostIds(t) + [p.id];
    assert forall j | 0 <= j < |t| :: t[j] in t;
  }

  /** Removing the post at `i` keeps ids unique and leaves no post with its id. */
  lemma RemovePostKeepsUniqueIds(t: seq<Post>, i: nat)
    requires UniqueIds(t) && i < |t|
    ensures UniqueIds(t[..i] + t[i + 1..])
    ensures forall p | p in t[..i] + t[i + 1..] :: p.id != t[i].id
  {
    var r := t[..i] + t[i + 1..];
    var ids, rids := PostIds(t), PostIds(r);
    forall j | 0 <= j < |r|
      ensures rids[j] == if j < i then ids[j] else ids[j + 1]
    {
      assert r[j] == if j < i then t[j] else t[j + 1];
    }
    assert NoDup(ids);
    forall a, b | 0 <= a < b < |r|
      ensures rids[a] != rids[b]
    {
      var a', b' := if a < i then a else a + 1, if b < i then b else b + 1;
      assert a' < b' && ids[a'] != ids[b'];
    }
    forall p | p in r
      ensures p.id != t[i].id
    {
      var j :| 0 <= j < |r| && r[j] == p;
      var j' := if j < i then j else j + 1;
      assert j' != i && ids[j'] != ids[i];
      assert rids[j] == p.id && ids[i] == t[i].id;
    }
  }
}
