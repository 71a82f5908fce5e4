/** getPostsForHome's ordering: for each connection in turn, that user's
    posts (in table order) are unshifted one by one onto the feed. */
module Feed {
  import opened Entities

  /** `Post.find({ creator: u })`: the posts of `u`, in table order. */
  function PostsBy(t: seq<Post>, u: Id): (r: seq<Post>)
    ensures forall p | p in r :: p in t && p.creator == u
    ensures forall p | p in t && p.creator == u :: p in r
    decreases |t|
  {
    if |t| == 0 then []
    else
      var last := t[|t| - 1];
      assert t == t[..|t| - 1] + [last];
      PostsBy(t[..|t| - 1], u) + (if last.creator == u then [last] else [])
  }

  /** The connections' posts one connection after another. */
  function Gathered(t: seq<Post>, conns: seq<Id>): seq<Post>
    decreases |conns|
  {
    if |conns| == 0 then []
    else Gathered(t, conns[..|conns| - 1]) + PostsBy(t, conns[|conns| - 1])
  }

  /** The list in the opposite order. */
  function Reverse<T>(s: seq<T>): seq<T>
    decreases |s|
  {
    if |s| == 0 then [] else [s[|s| - 1]] + Reverse(s[..|s| - 1])
  }

  /** Reversing a concatenation reverses the parts and swaps them. */
  lemma {:induction false} ReverseAppend<T>(a: seq<T>, b: seq<T>)
    ensures Reverse(a + b) == Reverse(b) + Reverse(a)
    decreases |b|
  {
    if |b| == 0 {
      assert a + b == a;
    } else {
      var ab := a + b;
      var b' := b[..|b| - 1];
      assert ab[..|ab| - 1] == a + b';
      assert ab[|ab| - 1] == b[|b| - 1];
      ReverseAppend(a, b');
      assert Reverse(ab) == [b[|b| - 1]] + Reverse(a + b');
      assert Reverse(b) == [b[|b| - 1]] + Reverse(b');
    }
  }

  /** Reversal keeps exactly the same members. */
  lemma {:induction false} ReverseMembership<T>(s: seq<T>)
    ensures forall x :: x in Reverse(s) <==> x in s
    decreases |s|
  {
    if |s| > 0 {
      ReverseMembership(s[..|s| - 1]);
      assert s == s[..|s| - 1] + [s[|s| - 1]];
    }
  }

  /** The gathered posts are exactly those whose creator is a connection. */
  lemma {:induction false} GatheredMembership(t: seq<Post>, conns: seq<Id>)
    ensures forall p :: p in Gathered(t, conns) <==> p in t && p.creator in conns
    decreases |conns|
  {
    if |conns| > 0 {
      var front := conns[..|conns| - 1];
      GatheredMembership(t, front);
      assert conns == front + [conns[|conns| - 1]];
    }
  }

  /** The home feed: every `unshift` puts the newest-visited post in front.
      It holds exactly the posts whose creator is one of the connections. */
  function HomeFeed(t: seq<Post>, conns: seq<Id>): (r: seq<Post>)
    ensures forall p :: p in r <==> p in t && p.creator in conns
  {
    GatheredMembership(t, conns);
    ReverseMembership(Gathered(t, conns));
    Reverse(Gathered(t, conns))
  }

  /** A later connection's posts come first, newest-in-table first. */
  lemma HomeFeedLaterConnectionFirst(t: seq<Post>, conns: seq<Id>, c: Id)
    ensures HomeFeed(t, conns + [c]) == Reverse(PostsBy(t, c)) + HomeFeed(t, conns)
  {
    assert (conns + [c])[..|conns|] == conns;
    ReverseAppend(Gathered(t, conns), PostsBy(t, c));
  }

  /** `batch.map(post => all.unshift(post))`: the batch lands in front of
      the earlier posts, last one first. */
  method UnshiftEach(batch: seq<Post>, all: seq<Post>) returns (r: seq<Post>)
    ensures r == Reverse(batch) + all
  {
    r := all;
    var j := 0;
    while j < |batch|
      invariant 0 <= j <= |batch|
      invariant r == Reverse(batch[..j]) + all
    {
      r := [batch[j]] + r;
      assert batch[..j + 1][..j] == batch[..j];
      j := j + 1;
    }
    assert batch[..j] == batch;
  }

  /** The loop of getPostsForHome, unshift by unshift. */
  method AssembleFeed(t: seq<Post>, conns: seq<Id>) returns (all: seq<Post>)
    ensures all == HomeFeed(t, conns)
  {
    all := [];
    var i := 0;
    while i < |conns|
      invariant 0 <= i <= |conns|
      invariant all == HomeFeed(t, conns[..i])
    {
      var userPosts := PostsBy(t, conns[i]);
      all := UnshiftEach(userPosts, all);
      HomeFeedLaterConnectionFirst(t, conns[..i], conns[i]);
      assert conns[..i + 1] == conns[..i] + [conns[i]];
      i := i + 1;
    }
    assert conns[..i] == conns;
  }
}
