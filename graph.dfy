/** connectUser and blockUser on the users' `connections` lists, and the
    symmetric, duplicate-free shape of the connection graph they are meant to
    keep. */
module Graph {
  import opened Lists
  import opened Entities

  /** The connections of `a` are a set of other existing users, each of whom
      lists `a` back. */
  predicate ConnectionsValid(users: map<Id, User>, a: Id)
    requires a in users
  {
    && NoDup(users[a].connections)
    && forall b | b in users[a].connections ::
         b != a && b in users && a in users[b].connections
  }

  /** The whole graph is symmetric, duplicate-free, without self-links and
      without dangling ids. The handlers do not check this; it is what they
      keep when they start from it. */
  predicate GraphValid(users: map<Id, User>) {
    forall a | a in users :: ConnectionsValid(users, a)
  }

  /** connectUser's "already connected" flag: a scan of the other user's list
      for the requester, then a scan of the requester's list for the other
      user that overwrites it whenever that list is not empty. */
  function ConnectVerdict(users: map<Id, User>, userId: Id, otherId: Id): (r: bool)
    requires userId in users && otherId in users
    ensures |users[userId].connections| > 0 ==> r == (otherId in users[userId].connections)
    ensures |users[userId].connections| == 0 ==> r == (userId in users[otherId].connections)
  {
    Scanned(users[userId].connections, otherId,
      Scanned(users[otherId].connections, userId, false))
  }

  /** blockUser's `Block` flag: the same two scans in the opposite order, so
      the other user's list has the last word when it is not empty. */
  function BlockVerdict(users: map<Id, User>, userId: Id, otherId: Id): (r: bool)
    requires userId in users && otherId in users
    ensures |users[otherId].connections| > 0 ==> r == (userId in users[otherId].connections)
    ensures |users[otherId].connections| == 0 ==> r == (otherId in users[userId].connections)
  {
    Scanned(users[otherId].connections, userId,
      Scanned(users[userId].connections, otherId, false))
  }

  /** Both pushes of connectUser: each id goes to the end of the other's list. */
  function Connect(users: map<Id, User>, userId: Id, otherId: Id): (r: map<Id, User>)
    requires userId in users && otherId in users && userId != otherId
    ensures r.Keys == users.Keys
    ensures forall a | a in users && a != userId && a != otherId :: r[a] == users[a]
  {
    var other := users[otherId];
    var user := users[userId];
    users[otherId := other.(connections := other.connections + [userId])]
         [userId := user.(connections := user.connections + [otherId])]
  }

  /** Both splices of blockUser, each at the indexOf position of the other
      user's id (a miss drops the last entry). */
  function Block(users: map<Id, User>, userId: Id, otherId: Id): (r: map<Id, User>)
    requires userId in users && otherId in users && userId != otherId
    ensures r.Keys == users.Keys
    ensures forall a | a in users && a != userId && a != otherId :: r[a] == users[a]
    ensures |users[userId].connections| > 0 ==>
      |r[userId].connections| == |users[userId].connections| - 1
    ensures |users[otherId].connections| > 0 ==>
      |r[otherId].connections| == |users[otherId].connections| - 1
  {
    var user := users[userId];
    var other := users[otherId];
    var uc := SpliceIndexOf(user.connections, otherId);
    var oc := SpliceIndexOf(other.connections, userId);
    var r := users[userId := user.(connections := uc)][otherId := other.(connections := oc)];
    assert r[userId].connections == uc;
    assert r[otherId].connections == oc;
    r
  }

  /** On a valid graph both verdicts are plain membership, in either
      direction. */
  lemma VerdictsAreMembership(users: map<Id, User>, userId: Id, otherId: Id)
    requires GraphValid(users)
    requires userId in users && otherId in users
    ensures (otherId in users[userId].connections) <==> (userId in users[otherId].connections)
    ensures ConnectVerdict(users, userId, otherId) <==> otherId in users[userId].connections
    ensures BlockVerdict(users, userId, otherId) <==> otherId in users[userId].connections
  {
    assert ConnectionsValid(users, userId);
    assert ConnectionsValid(users, otherId);
  }

  /** On a valid graph where the two are not yet connected, connecting links
      them both ways and keeps the graph valid. */
  lemma ConnectKeepsGraphValid(users: map<Id, User>, userId: Id, otherId: Id)
    requires GraphValid(users)
    requires userId in users && otherId in users && userId != otherId
    requires !ConnectVerdict(users, userId, otherId)
    ensures var r := Connect(users, userId, otherId);
      && GraphValid(r)
      && otherId in r[userId].connections
      && userId in r[otherId].connections
  {
    VerdictsAreMembership(users, userId, otherId);
    var r := Connect(users, userId, otherId);
    forall a | a in r
      ensures ConnectionsValid(r, a)
    {
      assert ConnectionsValid(users, a);
      forall b | b in users[a].connections
        ensures a in r[b].connections
      {
        assert a in users[b].connections;
      }
      var cs := users[a].connections;
      if a == userId {
        assert r[a].connections == cs + [otherId];
        assert forall j | 0 <= j < |cs| :: cs[j] != otherId;
      } else if a == otherId {
        assert r[a].connections == cs + [userId];
        assert forall j | 0 <= j < |cs| :: cs[j] != userId;
      }
    }
  }

  /** A second connect finds the link and changes nothing. */
  lemma ConnectAgainFindsLink(users: map<Id, User>, userId: Id, otherId: Id)
    requires userId in users && otherId in users && userId != otherId
    ensures ConnectVerdict(Connect(users, userId, otherId), userId, otherId)
  {
  }

  /** On a valid graph where the two are connected, blocking removes each
      from the other's list and keeps the graph valid. */
  lemma BlockKeepsGraphValid(users: map<Id, User>, userId: Id, otherId: Id)
    requires GraphValid(users)
    requires userId in users && otherId in users && userId != otherId
    requires BlockVerdict(users, userId, otherId)
    ensures var r := Block(users, userId, otherId);
      && GraphValid(r)
      && otherId !in r[userId].connections
      && userId !in r[otherId].connections
  {
    VerdictsAreMembership(users, userId, otherId);
    var r := Block(users, userId, otherId);
    var uc := users[userId].connections;
    var oc := users[otherId].connections;
    assert ConnectionsValid(users, userId) && ConnectionsValid(users, otherId);
    SpliceIndexOfNoDup(uc, otherId);
    SpliceIndexOfKeepsOthers(uc, otherId);
    SpliceIndexOfNoDup(oc, userId);
    SpliceIndexOfKeepsOthers(oc, userId);
    forall a | a in r
      ensures ConnectionsValid(r, a)
    {
      assert ConnectionsValid(users, a);
      forall b | b in r[a].connections
        ensures b != a && b in r && a in r[b].connections
      {
        assert b in users[a].connections;
        assert a in users[b].connections;
      }
    }
  }

  /** Connecting is the same whichever of the two asks. */
  lemma ConnectIsSymmetric(users: map<Id, User>, userId: Id, otherId: Id)
    requires userId in users && otherId in users && userId != otherId
    ensures Connect(users, userId, otherId) == Connect(users, otherId, userId)
  {
  }

  /** One side of a block right after a connect: the splice takes off
      exactly the id the push added. */
  lemma UnpushConnection(u: User, x: Id)
    requires x !in u.connections
    ensures var pushed := u.(connections := u.connections + [x]);
      pushed.(connections := SpliceIndexOf(pushed.connections, x)) == u
  {
    AppendThenSpliceIndexOf(u.connections, x);
  }

  /** Blocking right after a connect made between two unlinked users removes
      exactly the two entries the connect pushed. */
  lemma BlockAfterConnect(users: map<Id, User>, userId: Id, otherId: Id)
    requires userId in users && otherId in users && userId != otherId
    requires otherId !in users[userId].connections && userId !in users[otherId].connections
    ensures Block(Connect(users, userId, otherId), userId, otherId) == users
  {
    var c := Connect(users, userId, otherId);
    var b := Block(c, userId, otherId);
    forall a | a in users
      ensures b[a] == users[a]
    {
      if a == userId {
        UnpushConnection(users[userId], otherId);
        assert c[userId] == users[userId].(connections := users[userId].connections + [otherId]);
      } else if a == otherId {
        UnpushConnection(users[otherId], userId);
        assert c[otherId] == users[otherId].(connections := users[otherId].connections + [userId]);
      }
    }
    assert b.Keys == users.Keys;
  }

  /** Blocking, by either party, right after a connect restores the graph. */
  lemma BlockUndoesConnect(users: map<Id, User>, userId: Id, otherId: Id)
    requires GraphValid(users)
    requires userId in users && otherId in users && userId != otherId
    requires !ConnectVerdict(users, userId, otherId)
    ensures Block(Connect(users, userId, otherId), userId, otherId) == users
    ensures Block(Connect(users, userId, otherId), otherId, userId) == users
  {
    VerdictsAreMembership(users, userId, otherId);
    BlockAfterConnect(users, userId, otherId);
    ConnectIsSymmetric(users, userId, otherId);
    BlockAfterConnect(users, otherId, userId);
  }

  /** On lists that already disagree, the overwriting scans miss a one-sided
      link: when the requester's list is non-empty and lacks the other user,
      while the other user lists the requester, the verdict is "not
      connected" and connectUser pushes the requester a second time. */
  lemma ConnectOnOneSidedLinkDuplicates(users: map<Id, User>, userId: Id, otherId: Id)
    requires userId in users && otherId in users && userId != otherId
    requires |users[userId].connections| > 0
    requires otherId !in users[userId].connections
    requires userId in users[otherId].connections
    ensures !ConnectVerdict(users, userId, otherId)
    ensures multiset(Connect(users, userId, otherId)[otherId].connections)[userId] >= 2
  {
    var oc := users[otherId].connections;
    assert Connect(users, userId, otherId)[otherId].connections == oc + [userId];
    assert multiset(oc + [userId]) == multiset(oc) + multiset{userId};
  }

  // ------------------------------------------------ blockUser as written

  /** blockUser as its lines 291-296 are written: the list of string ids is
      searched for an ObjectId, indexOf's strict comparison never matches,
      and splice(-1, 1) drops the last entry of each list. */
  function BlockAsWritten(users: map<Id, User>, userId: Id, otherId: Id): (r: map<Id, User>)
    requires userId in users && otherId in users && userId != otherId
    ensures r.Keys == users.Keys
    ensures forall a | a in users && a != userId && a != otherId :: r[a] == users[a]
  {
    var user := users[userId];
    var other := users[otherId];
    users[userId := user.(connections := Splice(user.connections, -1))]
         [otherId := other.(connections := Splice(other.connections, -1))]
  }

  /** When the blocked user is not the requester's newest connection, the
      written code keeps the link it was asked to cut, cuts a bystander's
      link on one side only, and leaves the graph asymmetric. */
  lemma BlockAsWrittenCutsBystander(users: map<Id, User>, userId: Id, otherId: Id)
    requires GraphValid(users)
    requires userId in users && otherId in users && userId != otherId
    requires BlockVerdict(users, userId, otherId)
    requires var uc := users[userId].connections; uc[|uc| - 1] != otherId
    ensures var r := BlockAsWritten(users, userId, otherId);
      && otherId in r[userId].connections
      && !GraphValid(r)
  {
    VerdictsAreMembership(users, userId, otherId);
    var uc := users[userId].connections;
    var r := BlockAsWritten(users, userId, otherId);
    assert ConnectionsValid(users, userId);
    var c := uc[|uc| - 1];
    assert c in users && c != userId && c != otherId;
    assert userId in users[c].connections;
    assert r[c] == users[c];
    assert r[userId].connections == uc[..|uc| - 1];
    assert c !in r[userId].connections;
    assert !ConnectionsValid(r, c);
  }
}
