/** While nothing expires, presence is a plain set of connected sockets, each belonging to one user: the
    Redis keys are a representation of that set and of nothing else. */
module PresenceRefinement {
  import opened Sequences
  import opened RedisValues
  import opened PresenceValues
  import opened PresenceInvariant
  import opened PresenceSafety

  /** The connected sockets of one user. */
  function OfUser(conn: set<string>, u: string, owner: string -> string): set<string> {
    set x | x in conn && owner(x) == u
  }

  predicate SetIs(s: Db, u: string, sockets: set<string>) {
    if sockets == {} then UserSockets(u) !in s.sets
    else UserSockets(u) in s.sets && s.sets[UserSockets(u)].value == sockets
  }

  /** The store represents exactly these connections. */
  ghost predicate Represents(s: Db, conn: set<string>, owner: string -> string) {
    && (forall u :: SetIs(s, u, OfUser(conn, u, owner)))
    && (forall u :: u in Online(s) <==> OfUser(conn, u, owner) != {})
    && (forall x :: SocketMeta(x) in s.hashes <==> x in conn)
  }

  ghost predicate NothingExpired(s: Db, now: int) {
    && (forall k :: k in s.sets ==> !Expired(s.sets[k], now))
    && (forall k :: k in s.hashes ==> !Expired(s.hashes[k], now))
  }

  /** The plain meaning of the operations. */
  function Connections(conn: set<string>, e: Event): set<string> {
    match e
    case Connect(x, _, _) => conn + {x}
    case Disconnect(x) => conn - {x}
    case _ => conn
  }

  // ---------------------------------------------------------------------------
  // Connecting
  // ---------------------------------------------------------------------------

  lemma Arrives(s: Db, t: Db, conn: set<string>, x: string, owner: string -> string)
    requires Represents(s, conn, owner)
    requires UserSockets(owner(x)) in t.sets
    requires t.sets[UserSockets(owner(x))].value == OfUser(conn + {x}, owner(x), owner)
    requires Online(t) == Online(s) + {owner(x)}
    requires forall v :: v != owner(x) ==> SameSet(s, t, v)
    requires forall y :: SocketMeta(y) in t.hashes <==> SocketMeta(y) in s.hashes || y == x
    ensures Represents(t, conn + {x}, owner)
  {
    var u := owner(x);
    assert x in OfUser(conn + {x}, u, owner);
    forall v ensures SetIs(t, v, OfUser(conn + {x}, v, owner)) && (v in Online(t) <==> OfUser(conn + {x}, v, owner) != {}) {
      assert SetIs(s, v, OfUser(conn, v, owner));
      if v != u {
        assert SameSet(s, t, v);
        assert OfUser(conn + {x}, v, owner) == OfUser(conn, v, owner);
      }
    }
  }

  lemma ConnectedIs(s: Db, u: string, x: string, m: Metadata, stamp: string, now: int)
    ensures var t := Connected(s, u, x, m, stamp, now);
      && UserSockets(u) in t.sets && t.sets[UserSockets(u)] == Timed(Members(s, UserSockets(u), now) + {x}, Some(now + LIFE))
      && Online(t) == Online(s) + {u}
      && (forall v :: v != u ==> SameSet(s, t, v))
      && (forall y :: SocketMeta(y) in t.hashes <==> SocketMeta(y) in s.hashes || y == x)
  {
    hide UserFields, SocketFields, Members, Fields;
  }

  lemma MembersAre(s: Db, conn: set<string>, u: string, owner: string -> string, now: int)
    requires Represents(s, conn, owner) && NothingExpired(s, now)
    ensures Members(s, UserSockets(u), now) == OfUser(conn, u, owner)
  {
    assert SetIs(s, u, OfUser(conn, u, owner));
  }

  lemma ConnectRefines(s: Db, conn: set<string>, x: string, m: Metadata, stamp: string,
                       owner: string -> string, now: int)
    requires Represents(s, conn, owner) && NothingExpired(s, now) && Inv(s, owner, now)
    ensures Represents(MarkOnline(s, owner(x), x, m, stamp, now), conn + {x}, owner)
    ensures Members(MarkOnline(s, owner(x), x, m, stamp, now), UserSockets(owner(x)), now)
         == OfUser(conn + {x}, owner(x), owner)
  {
    hide Inv, Represents, NothingExpired, Connected, MarkOnline, SameSet;
    var u := owner(x);
    InvParts(s, owner, now);
    MarkOnlineIs(s, u, x, m, stamp, now);
    ConnectedIs(s, u, x, m, stamp, now);
    MembersAre(s, conn, u, owner, now);
    assert OfUser(conn + {x}, u, owner) == OfUser(conn, u, owner) + {x};
    Arrives(s, Connected(s, u, x, m, stamp, now), conn, x, owner);
  }

  // ---------------------------------------------------------------------------
  // Disconnecting
  // ---------------------------------------------------------------------------

  /** The record of a connected socket names its user; a socket that is not connected has no record. */
  lemma RecordedIs(s: Db, conn: set<string>, x: string, owner: string -> string, now: int)
    requires Represents(s, conn, owner) && NothingExpired(s, now) && Inv(s, owner, now)
    ensures RecordedUser(s, x, now) == if x in conn then Some(owner(x)) else None
  {
    assert Named(s, x, owner);
  }

  /** Forgetting a socket's record leaves the sets as they were. */
  lemma ForgetRefines(s: Db, conn: set<string>, x: string, owner: string -> string, now: int)
    requires Represents(s, conn, owner) && Kinds(s)
    ensures var t := ForgetSocket(s, x, now);
      && t == s.(hashes := s.hashes - {SocketMeta(x)})
      && (x !in conn ==> Represents(t, conn - {x}, owner))
  {
    hide ForgetSocket;
    ForgetSocketIs(s, x, now);
    var t := ForgetSocket(s, x, now);
    if x !in conn {
      assert conn - {x} == conn;
      forall u ensures SetIs(t, u, OfUser(conn, u, owner)) {
        assert SetIs(s, u, OfUser(conn, u, owner));
      }
    }
  }

  lemma LastLeaves(s: Db, t: Db, conn: set<string>, x: string, owner: string -> string)
    requires Represents(s, conn, owner) && OfUser(conn - {x}, owner(x), owner) == {}
    requires UserSockets(owner(x)) !in t.sets && Online(t) == Online(s) - {owner(x)}
    requires forall v :: v != owner(x) ==> SameSet(s, t, v)
    requires forall y :: SocketMeta(y) in t.hashes <==> SocketMeta(y) in s.hashes && y != x
    ensures Represents(t, conn - {x}, owner)
  {
    var u := owner(x);
    forall v ensures SetIs(t, v, OfUser(conn - {x}, v, owner)) && (v in Online(t) <==> OfUser(conn - {x}, v, owner) != {}) {
      assert SetIs(s, v, OfUser(conn, v, owner));
      if v != u {
        assert SameSet(s, t, v);
        assert OfUser(conn - {x}, v, owner) == OfUser(conn, v, owner);
      }
    }
  }

  lemma OthersStay(s: Db, t: Db, conn: set<string>, x: string, owner: string -> string)
    requires Represents(s, conn, owner) && OfUser(conn - {x}, owner(x), owner) != {}
    requires UserSockets(owner(x)) in t.sets && t.sets[UserSockets(owner(x))].value == OfUser(conn - {x}, owner(x), owner)
    requires Online(t) == Online(s)
    requires forall v :: v != owner(x) ==> SameSet(s, t, v)
    requires forall y :: SocketMeta(y) in t.hashes <==> SocketMeta(y) in s.hashes && y != x
    ensures Represents(t, conn - {x}, owner)
  {
    var u := owner(x);
    var y :| y in OfUser(conn - {x}, u, owner);
    assert y in OfUser(conn, u, owner);
    forall v ensures SetIs(t, v, OfUser(conn - {x}, v, owner)) && (v in Online(t) <==> OfUser(conn - {x}, v, owner) != {}) {
      assert SetIs(s, v, OfUser(conn, v, owner));
      if v != u {
        assert SameSet(s, t, v);
        assert OfUser(conn - {x}, v, owner) == OfUser(conn, v, owner);
      }
    }
  }

  /** Disconnecting a socket removes that socket, and the user when it was the user's last; it reports the last
      socket exactly when the user has no other, and what it reports as left is what is left. */
  lemma DisconnectRefines(s: Db, conn: set<string>, x: string, owner: string -> string, now: int)
    requires Represents(s, conn, owner) && NothingExpired(s, now) && Inv(s, owner, now)
    ensures Represents(MarkOffline(s, x, now), conn - {x}, owner)
    ensures x in conn ==> RemainingSockets(s, x, now) == OfUser(conn - {x}, owner(x), owner)
  {
    var t1 := ForgetSocket(s, x, now);
    InvParts(s, owner, now);
    RecordedIs(s, conn, x, owner, now);
    ForgetRefines(s, conn, x, owner, now);
    if x in conn {
      DisconnectConnected(s, conn, x, owner, now);
    }
  }

  lemma MarkOfflineNamed(s: Db, x: string, u: string, now: int)
    requires RecordedUser(s, x, now) == Some(u)
    ensures var t := TakeSocket(ForgetSocket(s, x, now), u, x, now);
      && RemainingSockets(s, x, now) == Members(t, UserSockets(u), now)
      && MarkOffline(s, x, now) ==
           if Members(t, UserSockets(u), now) == {} then Evict(SRead(t, UserSockets(u), now), u, now)
           else Expire(Expire(SRead(t, UserSockets(u), now), UserSockets(u), TTL, now), UserMeta(u), TTL, now)
  {
    hide RecordedUser, TakeSocket, ForgetSocket, Members, SRead, Expire, Evict;
  }

  /** The store once the record of `x` is gone and `x` is out of its user's set. */
  ghost predicate Taken(s: Db, t: Db, x: string, u: string) {
    && Kinds(t) && OnlineKept(t) && Online(t) == Online(s)
    && t.hashes == s.hashes - {SocketMeta(x)}
    && (forall v :: v != u ==> SameSet(s, t, v))
  }

  lemma LastCase(s: Db, t: Db, conn: set<string>, x: string, owner: string -> string, now: int)
    requires Represents(s, conn, owner) && Taken(s, t, x, owner(x)) && OfUser(conn - {x}, owner(x), owner) == {}
    ensures Represents(Evict(t, owner(x), now), conn - {x}, owner)
  {
    hide Represents, Kinds, OnlineKept, Evict, Evicted, OfUser;
    var u := owner(x);
    EvictIs(t, u, now);
    Evicts(t, u);
    var r := Evicted(t, u);
    forall v | v != u ensures SameSet(s, r, v) {
      assert SameSet(s, t, v) && SameSet(t, r, v);
    }
    forall y ensures SocketMeta(y) in r.hashes <==> SocketMeta(y) in s.hashes && y != x {
      assert SameRecord(t, r, y);
    }
    LastLeaves(s, r, conn, x, owner);
  }

  lemma OthersCase(s: Db, t: Db, conn: set<string>, x: string, owner: string -> string, now: int)
    requires Represents(s, conn, owner) && Taken(s, t, x, owner(x)) && OfUser(conn - {x}, owner(x), owner) != {}
    requires UserSockets(owner(x)) in t.sets
    requires t.sets[UserSockets(owner(x))].value == OfUser(conn - {x}, owner(x), owner)
    ensures Represents(Expire(Expire(t, UserSockets(owner(x)), TTL, now), UserMeta(owner(x)), TTL, now), conn - {x}, owner)
  {
    hide Represents, Kinds, OnlineKept, Expire, OfUser;
    var u := owner(x);
    Refreshes(t, u, now);
    var r := Expire(Expire(t, UserSockets(u), TTL, now), UserMeta(u), TTL, now);
    forall v | v != u ensures SameSet(s, r, v) {
      assert SameSet(s, t, v) && SameSet(t, r, v);
    }
    OthersStay(s, r, conn, x, owner);
  }

  lemma DisconnectConnected(s: Db, conn: set<string>, x: string, owner: string -> string, now: int)
    requires Represents(s, conn, owner) && NothingExpired(s, now) && Inv(s, owner, now) && x in conn
    requires RecordedUser(s, x, now) == Some(owner(x))
    requires ForgetSocket(s, x, now) == s.(hashes := s.hashes - {SocketMeta(x)})
    ensures Represents(MarkOffline(s, x, now), conn - {x}, owner)
    ensures RemainingSockets(s, x, now) == OfUser(conn - {x}, owner(x), owner)
  {
    hide Inv, NothingExpired, Represents, ForgetSocket, TakeSocket, RecordedUser, Members, SRead, Evict, Expire,
         MarkOffline, RemainingSockets, OfUser, Kinds, OnlineKept, SameSet;
    var u := owner(x);
    var t := TakeSocket(ForgetSocket(s, x, now), u, x, now);
    MarkOfflineNamed(s, x, u, now);
    TakeForgotten(s, conn, x, owner, now);
    OfflineKinds(s, x, owner, now);
    assert Taken(s, t, x, u);
    if OfUser(conn - {x}, u, owner) == {} {
      LastCase(s, t, conn, x, owner, now);
    } else {
      OthersCase(s, t, conn, x, owner, now);
    }
  }

  lemma TakeForgotten(s: Db, conn: set<string>, x: string, owner: string -> string, now: int)
    requires Represents(s, conn, owner) && NothingExpired(s, now) && x in conn
    requires ForgetSocket(s, x, now) == s.(hashes := s.hashes - {SocketMeta(x)})
    ensures var u := owner(x);
      var rest := OfUser(conn - {x}, u, owner);
      var t := TakeSocket(ForgetSocket(s, x, now), u, x, now);
      && Members(t, UserSockets(u), now) == rest
      && SRead(t, UserSockets(u), now) == t
      && t.hashes == s.hashes - {SocketMeta(x)}
      && Online(t) == Online(s)
      && (forall v :: v != u ==> SameSet(s, t, v))
      && (rest != {} ==> UserSockets(u) in t.sets && t.sets[UserSockets(u)].value == rest)
  {
    var u := owner(x);
    assert SetIs(s, u, OfUser(conn, u, owner));
    assert x in OfUser(conn, u, owner);
    assert OfUser(conn - {x}, u, owner) == OfUser(conn, u, owner) - {x};
  }

  lemma OfflineKinds(s: Db, x: string, owner: string -> string, now: int)
    requires Inv(s, owner, now)
    ensures var t := TakeSocket(ForgetSocket(s, x, now), owner(x), x, now);
      Kinds(t) && OnlineKept(t)
  {
    hide Inv, SRem, ForgetSocket;
    InvParts(s, owner, now);
    ForgetSocketIs(s, x, now);
    HashRemoved(s, SocketMeta(x), owner, now);
    SRemKeeps(ForgetSocket(s, x, now), owner(x), {x}, owner, now);
    InvParts(TakeSocket(ForgetSocket(s, x, now), owner(x), x, now), owner, now);
  }

  /** Giving a user's entries a full life changes no members and no records. */
  lemma Refreshes(s: Db, u: string, now: int)
    requires Kinds(s)
    ensures var t := Expire(Expire(s, UserSockets(u), TTL, now), UserMeta(u), TTL, now);
      && (UserSockets(u) in s.sets ==>
            UserSockets(u) in t.sets && t.sets[UserSockets(u)].value == s.sets[UserSockets(u)].value)
      && (UserSockets(u) !in s.sets ==> UserSockets(u) !in t.sets)
      && Online(t) == Online(s)
      && (forall v :: v != u ==> SameSet(s, t, v))
      && (forall y :: SocketMeta(y) in t.hashes <==> SocketMeta(y) in s.hashes)
  {
  }

  // ---------------------------------------------------------------------------
  // Everything else
  // ---------------------------------------------------------------------------

  predicate SameMembers(s: Db, t: Db, u: string) {
    (UserSockets(u) in s.sets <==> UserSockets(u) in t.sets) &&
    (UserSockets(u) in s.sets ==> s.sets[UserSockets(u)].value == t.sets[UserSockets(u)].value)
  }

  lemma Unmoved(s: Db, t: Db, conn: set<string>, owner: string -> string)
    requires Represents(s, conn, owner) && Online(t) == Online(s)
    requires forall u :: SameMembers(s, t, u)
    requires forall x :: SocketMeta(x) in t.hashes <==> SocketMeta(x) in s.hashes
    ensures Represents(t, conn, owner)
  {
    forall u ensures SetIs(t, u, OfUser(conn, u, owner)) {
      assert SetIs(s, u, OfUser(conn, u, owner)) && SameMembers(s, t, u);
    }
  }

  ghost predicate Alike(s: Db, t: Db) {
    && Online(t) == Online(s)
    && (forall u :: SameMembers(s, t, u))
    && (forall x :: SocketMeta(x) in t.hashes <==> SocketMeta(x) in s.hashes)
  }

  lemma ExpireAlike(s: Db, k: Key, now: int)
    requires Kinds(s) && !k.OnlineUsers?
    ensures Alike(s, Expire(s, k, TTL, now))
  {
  }

  lemma PutUserAlike(s: Db, u: string, fields: map<string, string>, now: int)
    requires Kinds(s)
    ensures Alike(s, PutTimed(s, UserMeta(u), fields, now))
  {
    PutTimedIs(s, UserMeta(u), fields, now);
  }

  lemma AlikeThen(s: Db, t: Db, r: Db)
    requires Alike(s, t) && Alike(t, r)
    ensures Alike(s, r)
  {
    forall u ensures SameMembers(s, r, u) {
      assert SameMembers(s, t, u) && SameMembers(t, r, u);
    }
  }

  lemma HeartbeatAlike(s: Db, u: string, x: string, stamp: string, owner: string -> string, now: int)
    requires Inv(s, owner, now)
    ensures Alike(s, Heartbeat(s, u, Some(x), stamp, now))
  {
    hide Inv, PutTimed, Expire, Exists, Alike;
    AlikeItself(s);
    if Exists(s, UserMeta(u), now) {
      var beat := map["lastHeartbeat" := stamp];
      var s1 := PutTimed(s, UserMeta(u), beat, now);
      InvParts(s, owner, now);
      PutUserKeeps(s, u, beat, owner, now);
      InvParts(s1, owner, now);
      PutUserAlike(s, u, beat, now);
      TouchSetKeeps(s1, u, owner, now);
      var s2 := Expire(s1, UserSockets(u), TTL, now);
      InvParts(s2, owner, now);
      ExpireAlike(s1, UserSockets(u), now);
      ExpireAlike(s2, SocketMeta(x), now);
      AlikeThen(s, s1, s2);
      AlikeThen(s, s2, Expire(s2, SocketMeta(x), TTL, now));
    }
  }

  lemma AlikeItself(s: Db)
    ensures Alike(s, s)
  {
  }

  lemma StatusAlike(s: Db, u: string, status: string, custom: Option<string>, owner: string -> string, now: int)
    requires Inv(s, owner, now)
    ensures Alike(s, UpdateStatus(s, u, status, custom, now))
  {
    hide Inv, PutTimed, Alike;
    AlikeItself(s);
    InvParts(s, owner, now);
    if Exists(s, UserMeta(u), now) {
      UpdateStatusIs(s, u, status, custom, now);
      PutUserAlike(s, u, if custom.Some? then map["status" := status, "customStatus" := custom.value]
                         else map["status" := status], now);
    }
  }

  /** Reading removes nothing when nothing has expired. */
  lemma ReadsNothing(s: Db, u: string, x: string, now: int)
    requires NothingExpired(s, now)
    ensures LookUp(s, u, now) == s && SRead(s, UserSockets(u), now) == s && HReadAll(s, SocketMeta(x), now) == s
  {
  }

  lemma {:induction false} ReadsNothingAll(s: Db, users: seq<string>, now: int)
    requires NothingExpired(s, now)
    ensures LookUpAll(s, users, now) == s
    decreases |users|
  {
    if users != [] {
      ReadsNothing(s, users[0], "", now);
      ReadsNothingAll(s, users[1..], now);
    }
  }

  /** While nothing expires there is nothing to clean up. */
  lemma CleanUpAlike(s: Db, conn: set<string>, users: seq<string>, owner: string -> string, now: int)
    requires Represents(s, conn, owner) && NothingExpired(s, now) && Inv(s, owner, now)
    ensures Alike(s, CleanAll(s, users, now))
  {
    CleanAllDoes(s, users, owner, now);
    hide Inv, CleanAll;
    var t := CleanAll(s, users, now);
    forall u ensures LiveSockets(s, u, now) == OfUser(conn, u, owner) {
      MembersAre(s, conn, u, owner, now);
      AllLive(s, conn, u, owner, now);
    }
    assert Lost(s, AsSet(users), now) * Online(s) == {};
    forall u ensures SameMembers(s, t, u) {
      assert SetIs(s, u, OfUser(conn, u, owner));
      if u in users {
        assert Pruned(s, t, u, now);
      } else {
        assert SameSet(s, t, u);
      }
    }
    forall x ensures SocketMeta(x) in t.hashes <==> SocketMeta(x) in s.hashes {
      assert SameRecord(s, t, x);
    }
  }

  lemma AllLive(s: Db, conn: set<string>, u: string, owner: string -> string, now: int)
    requires Represents(s, conn, owner) && NothingExpired(s, now)
    ensures LiveSockets(s, u, now) == Members(s, UserSockets(u), now)
  {
    MembersAre(s, conn, u, owner, now);
  }

  // ---------------------------------------------------------------------------
  // Runs
  // ---------------------------------------------------------------------------

  lemma StepRefines(s: Db, conn: set<string>, e: Event, owner: string -> string, now: int)
    requires Represents(s, conn, owner) && NothingExpired(s, now) && Inv(s, owner, now)
    ensures Represents(Step(s, e, owner, now), Connections(conn, e), owner)
  {
    hide Inv, Represents, NothingExpired, MarkOnline, MarkOffline, Heartbeat, UpdateStatus, CleanAll, LookUp, LookUpAll,
         SRead, HReadAll;
    match e {
      case Connect(x, m, stamp) => ConnectRefines(s, conn, x, m, stamp, owner, now);
      case Disconnect(x) => DisconnectRefines(s, conn, x, owner, now);
      case Beat(x, stamp) =>
        HeartbeatAlike(s, owner(x), x, stamp, owner, now);
        Unmoved(s, Heartbeat(s, owner(x), Some(x), stamp, now), conn, owner);
      case SetStatus(x, status, custom) =>
        StatusAlike(s, owner(x), status, custom, owner, now);
        Unmoved(s, UpdateStatus(s, owner(x), status, custom, now), conn, owner);
      case AskUser(u) => ReadsNothing(s, u, "", now);
      case AskSockets(u) => ReadsNothing(s, u, "", now);
      case AskSocket(x) => ReadsNothing(s, "", x, now);
      case ListOnline(users) => ReadsNothingAll(s, users, now);
      case CleanUp(users) =>
        CleanUpAlike(s, conn, users, owner, now);
        Unmoved(s, CleanAll(s, users, now), conn, owner);
    }
  }

  /** At no step of the run does anything expired lie in the store. */
  ghost predicate NothingExpires(s: Db, es: seq<TimedEvent>, owner: string -> string)
    decreases |es|
  {
    es == [] ||
    (NothingExpired(s, es[0].now) && NothingExpires(Step(s, es[0].e, owner, es[0].now), es[1..], owner))
  }

  function ConnectionsAfter(conn: set<string>, es: seq<TimedEvent>): set<string>
    decreases |es|
  {
    if es == [] then conn else ConnectionsAfter(Connections(conn, es[0].e), es[1..])
  }

  lemma {:induction false} RunRefines(s: Db, conn: set<string>, es: seq<TimedEvent>, owner: string -> string, from: int)
    requires Represents(s, conn, owner) && Inv(s, owner, from) && NamedOwners(owner)
    requires Clocked(es, from) && NothingExpires(s, es, owner)
    ensures Represents(Run(s, es, owner), ConnectionsAfter(conn, es), owner)
    decreases |es|
  {
    hide Inv, Represents, NothingExpired, Step, Connections;
    if es != [] {
      var e, now := es[0].e, es[0].now;
      Later(s, owner, from, now);
      StepRefines(s, conn, e, owner, now);
      StepKeeps(s, e, owner, now);
      RunRefines(Step(s, e, owner, now), Connections(conn, e), es[1..], owner, now);
    }
  }

  /** MAIN: as long as nothing expires, in any order of connects, re-joins, heartbeats, status changes, queries,
      clean-ups and disconnects, a user is online exactly when one of their sockets is connected, and the
      user's set is exactly the set of those sockets. */
  lemma PresenceIsConnections(es: seq<TimedEvent>, owner: string -> string, from: int, u: string)
    requires NamedOwners(owner) && Clocked(es, from) && NothingExpires(Store(map[], map[], map[]), es, owner)
    ensures var t := Run(Store(map[], map[], map[]), es, owner);
      var mine := OfUser(ConnectionsAfter({}, es), u, owner);
      && (u in Online(t) <==> mine != {})
      && SetIs(t, u, mine)
  {
    hide Run, NothingExpires, Clocked, NamedOwners;
    var none: Db := Store(map[], map[], map[]);
    forall v ensures OfUser({}, v, owner) == {} {
    }
    RunRefines(none, {}, es, owner, from);
  }
}
