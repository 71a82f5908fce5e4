/** deleteUser's cascade: drop the user's posts, splice one like and one
    comment out of every remaining post, splice the user out of each peer's
    connections, then drop the user record. */
module Cascade {
  import opened Lists
  import opened Entities
  import opened Interactions
  import opened Graph

  /** The posts left after the user's own posts are removed, in table order. */
  function DropOwned(t: seq<Post>, uid: Id): (r: seq<Post>)
    ensures forall p | p in r :: p in t && p.creator != uid
    ensures forall p | p in t && p.creator != uid :: p in r
    decreases |t|
  {
    if |t| == 0 then []
    else
      var last := t[|t| - 1];
      assert t == t[..|t| - 1] + [last];
      DropOwned(t[..|t| - 1], uid) + (if last.creator == uid then [] else [last])
  }

  /** Removing posts never creates a clash of ids. */
  lemma {:induction false} DropOwnedKeepsUniqueIds(t: seq<Post>, uid: Id)
    requires UniqueIds(t)
    ensures UniqueIds(DropOwned(t, uid))
    decreases |t|
  {
    if |t| > 0 {
      var front := t[..|t| - 1];
      var last := t[|t| - 1];
      assert PostIds(front) == PostIds(t)[..|t| - 1];
      DropOwnedKeepsUniqueIds(front, uid);
      var r0 := DropOwned(front, uid);
      if last.creator != uid {
        forall p | p in r0
          ensures p.id != last.id
        {
          var m :| 0 <= m < |front| && front[m] == p;
          assert PostIds(t)[m] == p.id && PostIds(t)[|t| - 1] == last.id;
        }
        var r := r0 + [last];
        assert DropOwned(t, uid) == r;
        assert PostIds(r) == PostIds(r0) + [last.id];
        forall i, j | 0 <= i < j < |r|
          ensures PostIds(r)[i] != PostIds(r)[j]
        {
          if j == |r| - 1 {
            assert r[i] in r0;
          } else {
            assert PostIds(r)[i] == PostIds(r0)[i] && PostIds(r)[j] == PostIds(r0)[j];
          }
        }
      } else {
        assert DropOwned(t, uid) == r0;
      }
    }
  }

  /** One turn of the loop over all posts: a non-empty like list loses the
      entry at indexOf(user) and a non-empty comment list the comment at the
      user's indexOf, both removing the last entry when the user is not
      there. Nothing else in the post changes. */
  function StripUser(p: Post, uid: Id): (q: Post)
    ensures q == p.(likes := q.likes, comments := q.comments)
    ensures |q.likes| == if |p.likes| > 0 then |p.likes| - 1 else 0
    ensures |q.comments| == if |p.comments| > 0 then |p.comments| - 1 else 0
  {
    p.(likes := if |p.likes| > 0 then SpliceIndexOf(p.likes, uid) else p.likes,
       comments := if |p.comments| > 0 then WithoutCommentBy(p.comments, uid) else p.comments)
  }

  /** Where the user did like or comment, the entry removed is the user's:
      exactly one copy of the user's id leaves the likes, or the authors. */
  lemma StripUserRemovesUsersEntry(p: Post, uid: Id)
    ensures var q := StripUser(p, uid);
      && (uid in p.likes ==> multiset(q.likes) == multiset(p.likes) - multiset{uid})
      && (uid in Authors(p.comments) ==>
            multiset(Authors(q.comments)) == multiset(Authors(p.comments)) - multiset{uid})
  {
    if uid in p.likes {
      SpliceIndexOfMultiset(p.likes, uid);
    }
    if uid in Authors(p.comments) {
      AuthorsOfWithout(p.comments, uid);
      SpliceIndexOfMultiset(Authors(p.comments), uid);
    }
  }

  /** On a post whose likes and comment authors are duplicate-free, the
      step leaves no like and no comment by the user, whether or not the user
      had one (a miss removes someone else's entry, never adds the user). */
  lemma StripUserClears(p: Post, uid: Id)
    requires NoDup(p.likes) && NoDup(Authors(p.comments))
    ensures uid !in StripUser(p, uid).likes
    ensures uid !in Authors(StripUser(p, uid).comments)
  {
    if |p.likes| > 0 {
      SpliceIndexOfNoDup(p.likes, uid);
    }
    if |p.comments| > 0 {
      WithoutCommentByClears(p.comments, uid);
    }
  }

  /** The loop over all posts, applied to every post of the table. */
  function StripTable(t: seq<Post>, uid: Id): (r: seq<Post>)
    ensures PostIds(r) == PostIds(t)
    ensures forall j | 0 <= j < |t| :: r[j].creator == t[j].creator
  {
    seq(|t|, j requires 0 <= j < |t| => StripUser(t[j], uid))
  }

  /** After the loop over all posts, no post whose lists were duplicate-free
      keeps a like or a comment by the user. */
  lemma StripTableClears(t: seq<Post>, uid: Id)
    requires forall p | p in t :: NoDup(p.likes) && NoDup(Authors(p.comments))
    ensures forall q | q in StripTable(t, uid) :: uid !in q.likes && uid !in Authors(q.comments)
  {
    var r := StripTable(t, uid);
    forall q | q in r
      ensures uid !in q.likes && uid !in Authors(q.comments)
    {
      var j :| 0 <= j < |r| && r[j] == q;
      assert t[j] in t;
      StripUserClears(t[j], uid);
    }
  }

  /** The loop over the user's connections: each listed peer in turn has the
      entry at indexOf(user) spliced from its list. A listed id with no user
      record stops the cascade (the handler fails with a server error) and
      keeps the peers already updated; the flag says whether all were done. */
  function DetachFromPeers(users: map<Id, User>, conns: seq<Id>, uid: Id): (r: (map<Id, User>, bool))
    ensures r.0.Keys == users.Keys
    decreases |conns|
  {
    if |conns| == 0 then (users, true)
    else if conns[0] !in users then (users, false)
    else
      var c := conns[0];
      var peer := users[c];
      DetachFromPeers(users[c := peer.(connections := SpliceIndexOf(peer.connections, uid))], conns[1..], uid)
  }

  /** With distinct, existing peers the loop completes; each peer's list is
      the removal applied once, and every other user is untouched. */
  lemma {:induction false} DetachFromPeersEffect(users: map<Id, User>, conns: seq<Id>, uid: Id)
    requires NoDup(conns)
    requires forall c | c in conns :: c in users
    ensures var r := DetachFromPeers(users, conns, uid);
      && r.1
      && (forall c | c in conns ::
            r.0[c] == users[c].(connections := SpliceIndexOf(users[c].connections, uid)))
      && (forall a | a in users && a !in conns :: r.0[a] == users[a])
    decreases |conns|
  {
    if |conns| > 0 {
      var c := conns[0];
      var rest := conns[1..];
      var next := users[c := users[c].(connections := SpliceIndexOf(users[c].connections, uid))];
      forall a, b | 0 <= a < b < |rest|
        ensures rest[a] != rest[b]
      {
        assert rest[a] == conns[a + 1] && rest[b] == conns[b + 1];
      }
      forall j | 0 <= j < |rest|
        ensures rest[j] != c
      {
        assert rest[j] == conns[j + 1];
      }
      DetachFromPeersEffect(next, rest, uid);
      var r := DetachFromPeers(users, conns, uid);
      assert r == DetachFromPeers(next, rest, uid);
      forall d | d in conns
        ensures r.0[d] == users[d].(connections := SpliceIndexOf(users[d].connections, uid))
      {
        if d != c {
          var j :| 0 <= j < |conns| && conns[j] == d;
          assert rest[j - 1] == d;
        }
      }
      forall a | a in users && a !in conns
        ensures r.0[a] == users[a]
      {
        assert a != c && a !in rest;
      }
    }
  }

  /** Every peer listed in the user's connections loses exactly one entry. */
  lemma DetachShrinksEachPeer(users: map<Id, User>, conns: seq<Id>, uid: Id)
    requires NoDup(conns)
    requires forall c | c in conns :: c in users
    ensures var r := DetachFromPeers(users, conns, uid);
      forall c | c in conns && |users[c].connections| > 0 ::
        |r.0[c].connections| == |users[c].connections| - 1
  {
    DetachFromPeersEffect(users, conns, uid);
  }

  /** The graph side of the cascade: starting from a valid graph, the peer
      loop completes, and once the user record is dropped the graph is valid
      again and nobody lists the deleted user. */
  lemma CascadeKeepsGraphValid(users: map<Id, User>, uid: Id)
    requires GraphValid(users)
    requires uid in users
    ensures var r := DetachFromPeers(users, users[uid].connections, uid);
      && r.1
      && GraphValid(r.0 - {uid})
      && forall a | a in r.0 && a != uid :: uid !in r.0[a].connections
  {
    var conns := users[uid].connections;
    assert ConnectionsValid(users, uid);
    DetachFromPeersEffect(users, conns, uid);
    var r := DetachFromPeers(users, conns, uid).0;
    forall a | a in r && a != uid
      ensures uid !in r[a].connections
      ensures forall y | y != uid :: y in r[a].connections <==> y in users[a].connections
      ensures NoDup(r[a].connections)
    {
      assert ConnectionsValid(users, a);
      if a in conns {
        assert uid in users[a].connections;
        SpliceIndexOfNoDup(users[a].connections, uid);
        SpliceIndexOfKeepsOthers(users[a].connections, uid);
      } else {
        assert uid !in users[a].connections;
      }
    }
    var rest := r - {uid};
    forall a | a in rest
      ensures ConnectionsValid(rest, a)
    {
      assert ConnectionsValid(users, a);
      forall b | b in rest[a].connections
        ensures b != a && b in rest && a in rest[b].connections
      {
        assert b in users[a].connections;
      }
    }
  }

  // ------------------------------------------------- the loops themselves

  /** The first loop: every post whose creator is the user is removed. */
  method RemoveOwnedPosts(t: seq<Post>, uid: Id) returns (kept: seq<Post>)
    ensures kept == DropOwned(t, uid)
  {
    kept := [];
    var i := 0;
    while i < |t|
      invariant 0 <= i <= |t|
      invariant kept == DropOwned(t[..i], uid)
    {
      assert t[..i + 1][..i] == t[..i];
      if t[i].creator != uid {
        kept := kept + [t[i]];
      }
      i := i + 1;
    }
    assert t[..i] == t;
  }

  /** One turn of the second loop: `likeArr` and `commentArr` are spliced at
      the user's indexOf when they are not empty. */
  method StripOnePost(post: Post, uid: Id) returns (q: Post)
    ensures q == StripUser(post, uid)
  {
    var likeArr, commentArr := post.likes, post.comments;
    if |likeArr| > 0 {
      var myIndex := IndexOf(likeArr, uid);
      likeArr := Splice(likeArr, myIndex);
    }
    if |commentArr| > 0 {
      var myIndex := IndexOf(Authors(commentArr), uid);
      commentArr := Splice(commentArr, myIndex);
    }
    q := post.(likes := likeArr, comments := commentArr);
  }

  /** The second loop: every post of the collection, in turn, in place. */
  method StripEachPost(t: seq<Post>, uid: Id) returns (r: seq<Post>)
    ensures r == StripTable(t, uid)
  {
    r := t;
    var j := 0;
    while j < |r|
      invariant 0 <= j <= |r| == |t|
      invariant forall k | 0 <= k < j :: r[k] == StripUser(t[k], uid)
      invariant forall k | j <= k < |r| :: r[k] == t[k]
    {
      var q := StripOnePost(r[j], uid);
      r := r[j := q];
      j := j + 1;
    }
  }

  /** The third loop: each listed peer in turn loses the entry at
      indexOf(user); a listed id without a record stops the loop, with the
      peers already updated kept and `done` false. */
  method DetachEachPeer(users: map<Id, User>, conns: seq<Id>, uid: Id) returns (peers: map<Id, User>, done: bool)
    ensures (peers, done) == DetachFromPeers(users, conns, uid)
  {
    peers := users;
    var k := 0;
    while k < |conns|
      invariant 0 <= k <= |conns|
      invariant DetachFromPeers(users, conns, uid) == DetachFromPeers(peers, conns[k..], uid)
    {
      var connection := conns[k];
      assert conns[k..][1..] == conns[k + 1..];
      if connection !in peers {
        return peers, false;
      }
      var myConnection := peers[connection];
      var myIndex := IndexOf(myConnection.connections, uid);
      myConnection := myConnection.(connections := Splice(myConnection.connections, myIndex));
      peers := peers[connection := myConnection];
      k := k + 1;
    }
    done := true;
  }

  // --------------------------------------------- the intended strip step

  /** The loop over all posts takes an entry from EVERY post with likes or
      comments: a post the user never liked still loses its last-listed (that
      is, its oldest) like, and likewise its last comment. */
  lemma StripUserCutsBystander(p: Post, uid: Id)
    requires |p.likes| > 0 && uid !in p.likes
    ensures StripUser(p, uid).likes == p.likes[..|p.likes| - 1]
    ensures StripUser(p, uid).likes != p.likes
  {
  }

  /** What the loop evidently means to do: remove the user's like and the
      user's comment only from posts that hold them. */
  function StripUserIntended(p: Post, uid: Id): (q: Post)
    ensures q == p.(likes := q.likes, comments := q.comments)
  {
    p.(likes := if uid in p.likes then SpliceIndexOf(p.likes, uid) else p.likes,
       comments := if uid in Authors(p.comments) then WithoutCommentBy(p.comments, uid) else p.comments)
  }

  /** The intended step leaves no trace of the user on a post whose likes
      are duplicate-free and whose authors are one-comment-each, and removes
      nothing that belongs to anyone else. */
  lemma StripUserIntendedIsExact(p: Post, uid: Id)
    requires NoDup(p.likes) && NoDup(Authors(p.comments))
    ensures var q := StripUserIntended(p, uid);
      && uid !in q.likes
      && uid !in Authors(q.comments)
      && multiset(q.likes) == multiset(p.likes) - multiset{uid}
      && multiset(Authors(q.comments)) == multiset(Authors(p.comments)) - multiset{uid}
  {
    if uid in p.likes {
      SpliceIndexOfNoDup(p.likes, uid);
      SpliceIndexOfMultiset(p.likes, uid);
    }
    if uid in Authors(p.comments) {
      WithoutCommentByClears(p.comments, uid);
      AuthorsOfWithout(p.comments, uid);
      SpliceIndexOfMultiset(Authors(p.comments), uid);
    }
  }
}
