/** What every presence operation keeps, at every moment: a user's socket set never outlives the user's
    record, a socket's record never outlives the set the socket is in, and a user with a set is online. */
module PresenceInvariant {
  import opened Sequences
  import opened RedisValues
  import opened PresenceValues

  predicate Kinds(s: Db) {
    && s.strings == map[]
    && (forall k :: k in s.sets ==> k.OnlineUsers? || k.UserSockets?)
    && (forall k :: k in s.hashes ==> k.UserMeta? || k.SocketMeta?)
  }

  function Online(s: Db): set<string> {
    if OnlineUsers in s.sets then s.sets[OnlineUsers].value else {}
  }

  /** The set of online users has no deadline, and is removed rather than left empty. */
  predicate OnlineKept(s: Db) {
    OnlineUsers in s.sets ==> s.sets[OnlineUsers].expiresAt == None && s.sets[OnlineUsers].value != {}
  }

  /** A socket set that is there, expired or not, belongs to an online user whose record lives as long. */
  predicate Covered(s: Db, u: string, now: int) {
    UserSockets(u) in s.sets ==>
      && u in Online(s) && UserMeta(u) in s.hashes
      && s.sets[UserSockets(u)].expiresAt.Some? && s.hashes[UserMeta(u)].expiresAt.Some?
      && s.sets[UserSockets(u)].expiresAt.value <= s.hashes[UserMeta(u)].expiresAt.value <= now + LIFE
  }

  /** The record of a socket in a user's set lives no longer than the set. */
  predicate Outlived(s: Db, u: string, x: string) {
    UserSockets(u) in s.sets && x in s.sets[UserSockets(u)].value && SocketMeta(x) in s.hashes ==>
      && s.sets[UserSockets(u)].expiresAt.Some? && s.hashes[SocketMeta(x)].expiresAt.Some?
      && s.hashes[SocketMeta(x)].expiresAt.value <= s.sets[UserSockets(u)].expiresAt.value
  }

  /** A socket is only ever in the set of the user it belongs to, and its record names that user. */
  predicate Placed(s: Db, u: string, x: string, owner: string -> string) {
    UserSockets(u) in s.sets && x in s.sets[UserSockets(u)].value ==> owner(x) == u
  }

  predicate Named(s: Db, x: string, owner: string -> string) {
    SocketMeta(x) in s.hashes ==>
      "userId" in s.hashes[SocketMeta(x)].value && s.hashes[SocketMeta(x)].value["userId"] == owner(x) != ""
  }

  ghost predicate Inv(s: Db, owner: string -> string, now: int) {
    && Kinds(s) && OnlineKept(s)
    && (forall u :: Covered(s, u, now))
    && (forall u, x :: Outlived(s, u, x) && Placed(s, u, x, owner))
    && (forall x :: Named(s, x, owner))
  }

  // ---------------------------------------------------------------------------
  // Engine operations on presence keys
  // ---------------------------------------------------------------------------

  predicate SetKey(k: Key) {
    k.OnlineUsers? || k.UserSockets?
  }

  predicate HashKey(k: Key) {
    k.UserMeta? || k.SocketMeta?
  }

  function PutSet(s: Db, k: Key, e: Timed<set<string>>): Db {
    s.(sets := s.sets[k := e])
  }

  function PutHash(s: Db, k: Key, e: Timed<map<string, string>>): Db {
    s.(hashes := s.hashes[k := e])
  }

  lemma KindsPut(s: Db, k: Key, e: Timed<set<string>>, f: Timed<map<string, string>>)
    requires Kinds(s)
    ensures SetKey(k) ==> Kinds(PutSet(s, k, e))
    ensures HashKey(k) ==> Kinds(PutHash(s, k, f))
  {
  }

  lemma ExpireIs(s: Db, k: Key, now: int)
    requires Kinds(s)
    ensures SetKey(k) ==> Expire(s, k, TTL, now) == s.(sets := Touch(s.sets, k, now + LIFE))
    ensures HashKey(k) ==> Expire(s, k, TTL, now) == s.(hashes := Touch(s.hashes, k, now + LIFE))
  {
  }

  lemma AddTimedIs(s: Db, k: Key, x: string, now: int)
    requires Kinds(s) && SetKey(k)
    ensures AddTimed(s, k, x, now) == PutSet(s, k, Timed(Members(s, k, now) + {x}, Some(now + LIFE)))
  {
    var s1 := SAdd(s, k, {x}, now);
    KindsPut(s, k, s1.sets[k], Timed(map[], None));
    ExpireIs(s1, k, now);
  }

  lemma PutTimedIs(s: Db, k: Key, fields: map<string, string>, now: int)
    requires Kinds(s) && HashKey(k)
    ensures PutTimed(s, k, fields, now) == PutHash(s, k, Timed(Fields(s, k, now) + fields, Some(now + LIFE)))
  {
    var s1 := HSet(s, k, fields, now);
    KindsPut(s, k, Timed({}, None), s1.hashes[k]);
    ExpireIs(s1, k, now);
  }

  lemma AddOnlineIs(s: Db, u: string, now: int)
    requires OnlineKept(s)
    ensures SAdd(s, OnlineUsers, {u}, now) == PutSet(s, OnlineUsers, Timed(Online(s) + {u}, None))
  {
  }

  /** The explicit store after MARK ONLINE. */
  function Connected(s: Db, u: string, x: string, m: Metadata, stamp: string, now: int): Db {
    var t := Some(now + LIFE);
    var s1 := PutSet(s, OnlineUsers, Timed(Online(s) + {u}, None));
    var s2 := PutHash(s1, UserMeta(u), Timed(Fields(s, UserMeta(u), now) + UserFields(u, m, stamp), t));
    var s3 := PutSet(s2, UserSockets(u), Timed(Members(s, UserSockets(u), now) + {x}, t));
    PutHash(s3, SocketMeta(x), Timed(Fields(s, SocketMeta(x), now) + SocketFields(u, x, m, stamp), t))
  }

  lemma MarkOnlineIs(s: Db, u: string, x: string, m: Metadata, stamp: string, now: int)
    requires Kinds(s) && OnlineKept(s)
    ensures MarkOnline(s, u, x, m, stamp, now) == Connected(s, u, x, m, stamp, now)
  {
    hide UserFields, SocketFields, AddTimed, PutTimed, SAdd, Kinds;
    var t := Some(now + LIFE);
    var none: Timed<map<string, string>> := Timed(map[], None);
    var s1 := AddTimed(s, UserSockets(u), x, now);
    AddTimedIs(s, UserSockets(u), x, now);
    KindsPut(s, UserSockets(u), s1.sets[UserSockets(u)], none);
    var s2 := SAdd(s1, OnlineUsers, {u}, now);
    AddOnlineIs(s1, u, now);
    KindsPut(s1, OnlineUsers, s2.sets[OnlineUsers], none);
    var s3 := PutTimed(s2, UserMeta(u), UserFields(u, m, stamp), now);
    PutTimedIs(s2, UserMeta(u), UserFields(u, m, stamp), now);
    KindsPut(s2, UserMeta(u), Timed({}, None), s3.hashes[UserMeta(u)]);
    PutTimedIs(s3, SocketMeta(x), SocketFields(u, x, m, stamp), now);
    assert s2.sets == s.sets[OnlineUsers := s2.sets[OnlineUsers]][UserSockets(u) := s1.sets[UserSockets(u)]];
  }

  // ---------------------------------------------------------------------------
  // Elementary changes that keep the invariant
  // ---------------------------------------------------------------------------

  ghost predicate Keeps(s: Db, t: Db, owner: string -> string, now: int) {
    Inv(s, owner, now) ==> Inv(t, owner, now)
  }

  lemma Later(s: Db, owner: string -> string, before: int, now: int)
    requires Inv(s, owner, before) && before <= now
    ensures Inv(s, owner, now)
  {
    forall u ensures Covered(s, u, now) {
      assert Covered(s, u, before);
    }
  }

  /** A user's record may be written with a full life. */
  lemma UserWritten(s: Db, u: string, fields: map<string, string>, owner: string -> string, now: int)
    ensures Keeps(s, PutHash(s, UserMeta(u), Timed(fields, Some(now + LIFE))), owner, now)
  {
    if Inv(s, owner, now) {
      var t := PutHash(s, UserMeta(u), Timed(fields, Some(now + LIFE)));
      forall v ensures Covered(t, v, now) {
        assert Covered(s, v, now);
      }
      forall v, x ensures Outlived(t, v, x) && Placed(t, v, x, owner) {
        assert Outlived(s, v, x) && Placed(s, v, x, owner);
      }
      forall x ensures Named(t, x, owner) {
        assert Named(s, x, owner);
      }
    }
  }

  predicate FullUser(s: Db, u: string, now: int) {
    UserMeta(u) in s.hashes && s.hashes[UserMeta(u)].expiresAt == Some(now + LIFE)
  }

  /** A user's set may be given a full life once the user's record has one, and any of its sockets taken out. */
  lemma SetWritten(s: Db, u: string, e: Timed<set<string>>, owner: string -> string, now: int)
    requires UserSockets(u) in s.sets && e.value <= s.sets[UserSockets(u)].value
    requires e.expiresAt == s.sets[UserSockets(u)].expiresAt
          || (e.expiresAt == Some(now + LIFE) && FullUser(s, u, now))
    ensures Keeps(s, PutSet(s, UserSockets(u), e), owner, now)
  {
    if Inv(s, owner, now) {
      var t := PutSet(s, UserSockets(u), e);
      assert Covered(s, u, now);
      forall v ensures Covered(t, v, now) {
        assert Covered(s, v, now);
      }
      forall v, x ensures Outlived(t, v, x) && Placed(t, v, x, owner) {
        assert Outlived(s, v, x) && Placed(s, v, x, owner);
      }
      forall x ensures Named(t, x, owner) {
        assert Named(s, x, owner);
      }
    }
  }

  /** A socket's record may be given a full life when the set the socket is in, if any, has one. */
  lemma SocketWritten(s: Db, x: string, e: Timed<map<string, string>>, owner: string -> string, now: int)
    requires e.expiresAt == Some(now + LIFE) && "userId" in e.value && e.value["userId"] == owner(x) != ""
    requires var k := UserSockets(owner(x));
      k in s.sets && x in s.sets[k].value ==> s.sets[k].expiresAt == Some(now + LIFE)
    ensures Keeps(s, PutHash(s, SocketMeta(x), e), owner, now)
  {
    if Inv(s, owner, now) {
      var t := PutHash(s, SocketMeta(x), e);
      forall v ensures Covered(t, v, now) {
        assert Covered(s, v, now);
      }
      forall v, y ensures Outlived(t, v, y) && Placed(t, v, y, owner) {
        assert Outlived(s, v, y) && Placed(s, v, y, owner);
      }
      forall y ensures Named(t, y, owner) {
        assert Named(s, y, owner);
      }
    }
  }

  /** Entries may be removed, except a user's record while the user's set is there. */
  lemma HashRemoved(s: Db, k: Key, owner: string -> string, now: int)
    requires k.UserMeta? ==> UserSockets(k.user) !in s.sets
    ensures Keeps(s, s.(hashes := s.hashes - {k}), owner, now)
  {
    if Inv(s, owner, now) {
      var t := s.(hashes := s.hashes - {k});
      forall v ensures Covered(t, v, now) {
        assert Covered(s, v, now);
      }
      forall v, x ensures Outlived(t, v, x) && Placed(t, v, x, owner) {
        assert Outlived(s, v, x) && Placed(s, v, x, owner);
      }
      forall x ensures Named(t, x, owner) {
        assert Named(s, x, owner);
      }
    }
  }

  lemma SetRemoved(s: Db, u: string, owner: string -> string, now: int)
    ensures Keeps(s, s.(sets := s.sets - {UserSockets(u)}), owner, now)
  {
    if Inv(s, owner, now) {
      var t := s.(sets := s.sets - {UserSockets(u)});
      forall v ensures Covered(t, v, now) {
        assert Covered(s, v, now);
      }
      forall v, x ensures Outlived(t, v, x) && Placed(t, v, x, owner) {
        assert Outlived(s, v, x) && Placed(s, v, x, owner);
      }
      forall x ensures Named(t, x, owner) {
        assert Named(s, x, owner);
      }
    }
  }

  /** The set of online users without `u`. */
  function WithoutOnline(s: Db, u: string): Db {
    if Online(s) - {u} == {} then s.(sets := s.sets - {OnlineUsers})
    else PutSet(s, OnlineUsers, Timed(Online(s) - {u}, None))
  }

  /** A user without a set may be taken out of the set of online users. */
  lemma OnlineRemoved(s: Db, u: string, owner: string -> string, now: int)
    requires UserSockets(u) !in s.sets
    ensures Keeps(s, WithoutOnline(s, u), owner, now)
  {
    if Inv(s, owner, now) {
      var t := WithoutOnline(s, u);
      forall v ensures Covered(t, v, now) {
        assert Covered(s, v, now);
      }
      forall v, x ensures Outlived(t, v, x) && Placed(t, v, x, owner) {
        assert Outlived(s, v, x) && Placed(s, v, x, owner);
      }
      forall x ensures Named(t, x, owner) {
        assert Named(s, x, owner);
      }
    }
  }

  lemma OnlineAdded(s: Db, u: string, owner: string -> string, now: int)
    ensures Keeps(s, PutSet(s, OnlineUsers, Timed(Online(s) + {u}, None)), owner, now)
  {
    if Inv(s, owner, now) {
      var t := PutSet(s, OnlineUsers, Timed(Online(s) + {u}, None));
      forall v ensures Covered(t, v, now) {
        assert Covered(s, v, now);
      }
      forall v, x ensures Outlived(t, v, x) && Placed(t, v, x, owner) {
        assert Outlived(s, v, x) && Placed(s, v, x, owner);
      }
      forall x ensures Named(t, x, owner) {
        assert Named(s, x, owner);
      }
    }
  }

  /** A socket may join the set of its online user: set and records all get a full life. */
  lemma Joined(s: Db, u: string, x: string, sockets: set<string>, fields: map<string, string>,
               owner: string -> string, now: int)
    requires FullUser(s, u, now) && u in Online(s) && owner(x) == u != ""
    requires forall y :: y in sockets ==> UserSockets(u) in s.sets && y in s.sets[UserSockets(u)].value
    requires "userId" in fields && fields["userId"] == u
    ensures var t := Some(now + LIFE);
      Keeps(s, PutHash(PutSet(s, UserSockets(u), Timed(sockets + {x}, t)), SocketMeta(x), Timed(fields, t)), owner, now)
  {
    var life := Some(now + LIFE);
    var t := PutHash(PutSet(s, UserSockets(u), Timed(sockets + {x}, life)), SocketMeta(x), Timed(fields, life));
    if Inv(s, owner, now) {
      assert Covered(s, u, now);
      forall v ensures Covered(t, v, now) {
        assert Covered(s, v, now);
      }
      forall v, y ensures Outlived(t, v, y) && Placed(t, v, y, owner) {
        assert Outlived(s, v, y) && Placed(s, v, y, owner);
      }
      forall y ensures Named(t, y, owner) {
        assert Named(s, y, owner);
      }
    }
  }

  // ---------------------------------------------------------------------------
  // The operations keep the invariant
  // ---------------------------------------------------------------------------

  lemma InvParts(s: Db, owner: string -> string, now: int)
    requires Inv(s, owner, now)
    ensures Kinds(s) && OnlineKept(s)
  {
  }

  lemma MarkOnlineKeeps(s: Db, u: string, x: string, m: Metadata, stamp: string, owner: string -> string, now: int)
    requires Inv(s, owner, now) && owner(x) == u != ""
    ensures Inv(MarkOnline(s, u, x, m, stamp, now), owner, now)
  {
    hide Inv, MarkOnline;
    InvParts(s, owner, now);
    MarkOnlineIs(s, u, x, m, stamp, now);
    var t := Some(now + LIFE);
    var s1 := PutSet(s, OnlineUsers, Timed(Online(s) + {u}, None));
    OnlineAdded(s, u, owner, now);
    var userFields := Fields(s, UserMeta(u), now) + UserFields(u, m, stamp);
    var s2 := PutHash(s1, UserMeta(u), Timed(userFields, t));
    UserWritten(s1, u, userFields, owner, now);
    var socketFields := Fields(s, SocketMeta(x), now) + SocketFields(u, x, m, stamp);
    Joined(s2, u, x, Members(s, UserSockets(u), now), socketFields, owner, now);
  }

  // ----- MARK OFFLINE -----

  lemma ForgetSocketIs(s: Db, x: string, now: int)
    requires Kinds(s)
    ensures ForgetSocket(s, x, now) == s.(hashes := s.hashes - {SocketMeta(x)})
  {
    var t := ForgetSocket(s, x, now);
    assert t.sets == s.sets && t.strings == s.strings;
    assert t.hashes == s.hashes - {SocketMeta(x)};
  }

  function Evicted(s: Db, u: string): Db {
    var t := WithoutOnline(s, u);
    t.(sets := t.sets - {UserSockets(u)}, hashes := t.hashes - {UserMeta(u)})
  }

  lemma EvictIs(s: Db, u: string, now: int)
    requires Kinds(s) && OnlineKept(s)
    ensures Evict(s, u, now) == Evicted(s, u)
  {
    var t := SRem(s, OnlineUsers, {u}, now);
    assert t == WithoutOnline(s, u) by {
      if OnlineUsers !in s.sets {
        assert s.sets - {OnlineUsers} == s.sets;
      }
    }
    assert t.sets - {UserMeta(u)} == t.sets && t.hashes - {UserSockets(u)} == t.hashes;
    assert t.hashes - {UserMeta(u)} - {UserSockets(u)} == t.hashes - {UserMeta(u)};
    assert s.strings - {UserMeta(u)} - {UserSockets(u)} == s.strings;
  }

  lemma EvictKeeps(s: Db, u: string, owner: string -> string, now: int)
    requires Inv(s, owner, now)
    ensures Inv(Evict(s, u, now), owner, now)
  {
    hide Inv, Evict;
    InvParts(s, owner, now);
    EvictIs(s, u, now);
    var s1 := s.(sets := s.sets - {UserSockets(u)});
    SetRemoved(s, u, owner, now);
    var s2 := WithoutOnline(s1, u);
    OnlineRemoved(s1, u, owner, now);
    HashRemoved(s2, UserMeta(u), owner, now);
    assert s2.(hashes := s2.hashes - {UserMeta(u)}) == Evicted(s, u) by {
      RemovalsCommute(s, u);
    }
  }

  lemma RemovalsCommute(s: Db, u: string)
    ensures WithoutOnline(s.(sets := s.sets - {UserSockets(u)}), u)
         == WithoutOnline(s, u).(sets := WithoutOnline(s, u).sets - {UserSockets(u)})
  {
  }

  lemma SRemKeeps(s: Db, u: string, dead: set<string>, owner: string -> string, now: int)
    requires Inv(s, owner, now)
    ensures Inv(SRem(s, UserSockets(u), dead, now), owner, now)
  {
    hide Inv;
    var k := UserSockets(u);
    if Live(s.sets, k, now) {
      SetRemoved(s, u, owner, now);
      SetWritten(s, u, s.sets[k].(value := s.sets[k].value - dead), owner, now);
    }
  }

  lemma SReadKeeps(s: Db, u: string, owner: string -> string, now: int)
    requires Inv(s, owner, now)
    ensures Inv(SRead(s, UserSockets(u), now), owner, now)
  {
    hide Inv;
    SetRemoved(s, u, owner, now);
  }

  lemma HReadSocketKeeps(s: Db, x: string, owner: string -> string, now: int)
    requires Inv(s, owner, now)
    ensures Inv(HReadAll(s, SocketMeta(x), now), owner, now)
  {
    hide Inv;
    HashRemoved(s, SocketMeta(x), owner, now);
  }

  /** Giving a user's set and record a full life together. */
  lemma RefreshKeeps(s: Db, u: string, owner: string -> string, now: int)
    requires Inv(s, owner, now)
    ensures Inv(Expire(Expire(s, UserSockets(u), TTL, now), UserMeta(u), TTL, now), owner, now)
  {
    hide Inv;
    InvParts(s, owner, now);
    var k, m := UserSockets(u), UserMeta(u);
    var t := Expire(s, k, TTL, now);
    ExpireIs(s, k, now);
    TouchKinds(s, k, now);
    ExpireIs(t, m, now);
    if m in s.hashes {
      var s1 := PutHash(s, m, Timed(s.hashes[m].value, Some(now + LIFE)));
      UserWritten(s, u, s.hashes[m].value, owner, now);
      if k in s.sets {
        SetWritten(s1, u, s.sets[k].(expiresAt := Some(now + LIFE)), owner, now);
      }
    } else {
      NoSetWithoutUser(s, u, owner, now);
    }
  }

  lemma TouchKinds(s: Db, k: Key, now: int)
    requires Kinds(s)
    ensures Kinds(s.(sets := Touch(s.sets, k, now + LIFE))) && Kinds(s.(hashes := Touch(s.hashes, k, now + LIFE)))
  {
  }

  lemma NoSetWithoutUser(s: Db, u: string, owner: string -> string, now: int)
    requires Inv(s, owner, now) && UserMeta(u) !in s.hashes
    ensures UserSockets(u) !in s.sets
  {
    assert Covered(s, u, now);
  }

  lemma MarkOfflineKeeps(s: Db, x: string, owner: string -> string, now: int)
    requires Inv(s, owner, now)
    ensures Inv(MarkOffline(s, x, now), owner, now)
  {
    hide Inv, SRem, SRead, Expire, Evict, ForgetSocket, RecordedUser;
    InvParts(s, owner, now);
    ForgetSocketIs(s, x, now);
    HashRemoved(s, SocketMeta(x), owner, now);
    var s1 := ForgetSocket(s, x, now);
    var user := RecordedUser(s, x, now);
    if user.Some? {
      var u := user.value;
      SRemKeeps(s1, u, {x}, owner, now);
      var s2 := TakeSocket(s1, u, x, now);
      SReadKeeps(s2, u, owner, now);
      var s3 := SRead(s2, UserSockets(u), now);
      EvictKeeps(s3, u, owner, now);
      RefreshKeeps(s3, u, owner, now);
    }
  }

  // ----- HEARTBEAT and UPDATE STATUS -----

  lemma PutUserKeeps(s: Db, u: string, fields: map<string, string>, owner: string -> string, now: int)
    requires Inv(s, owner, now)
    ensures Inv(PutTimed(s, UserMeta(u), fields, now), owner, now)
    ensures FullUser(PutTimed(s, UserMeta(u), fields, now), u, now)
    ensures PutTimed(s, UserMeta(u), fields, now).sets == s.sets
  {
    hide Inv;
    InvParts(s, owner, now);
    PutTimedIs(s, UserMeta(u), fields, now);
    UserWritten(s, u, Fields(s, UserMeta(u), now) + fields, owner, now);
  }

  lemma TouchSetKeeps(s: Db, u: string, owner: string -> string, now: int)
    requires Inv(s, owner, now) && FullUser(s, u, now)
    ensures var t := Expire(s, UserSockets(u), TTL, now);
      && Inv(t, owner, now)
      && (UserSockets(u) in t.sets ==> t.sets[UserSockets(u)].expiresAt == Some(now + LIFE))
  {
    hide Inv;
    InvParts(s, owner, now);
    ExpireIs(s, UserSockets(u), now);
    if UserSockets(u) in s.sets {
      SetWritten(s, u, s.sets[UserSockets(u)].(expiresAt := Some(now + LIFE)), owner, now);
    }
  }

  lemma TouchSocketKeeps(s: Db, x: string, owner: string -> string, now: int)
    requires Inv(s, owner, now)
    requires var k := UserSockets(owner(x)); k in s.sets ==> s.sets[k].expiresAt == Some(now + LIFE)
    ensures Inv(Expire(s, SocketMeta(x), TTL, now), owner, now)
  {
    InvNamed(s, x, owner, now);
    hide Inv;
    InvParts(s, owner, now);
    ExpireIs(s, SocketMeta(x), now);
    if SocketMeta(x) in s.hashes {
      SocketWritten(s, x, s.hashes[SocketMeta(x)].(expiresAt := Some(now + LIFE)), owner, now);
    }
  }

  lemma InvNamed(s: Db, x: string, owner: string -> string, now: int)
    requires Inv(s, owner, now)
    ensures Named(s, x, owner)
  {
  }

  lemma HeartbeatKeeps(s: Db, u: string, x: Option<string>, stamp: string, owner: string -> string, now: int)
    requires Inv(s, owner, now) && (x.Some? ==> owner(x.value) == u)
    ensures Inv(Heartbeat(s, u, x, stamp, now), owner, now)
  {
    hide Inv, PutTimed, Expire, Exists;
    if Exists(s, UserMeta(u), now) {
      var beat := map["lastHeartbeat" := stamp];
      PutUserKeeps(s, u, beat, owner, now);
      var s1 := PutTimed(s, UserMeta(u), beat, now);
      TouchSetKeeps(s1, u, owner, now);
      if x.Some? {
        TouchSocketKeeps(Expire(s1, UserSockets(u), TTL, now), x.value, owner, now);
      }
    }
  }

  lemma UpdateStatusIs(s: Db, u: string, status: string, custom: Option<string>, now: int)
    requires Exists(s, UserMeta(u), now) && Kinds(s)
    ensures UpdateStatus(s, u, status, custom, now) ==
      PutTimed(s, UserMeta(u), if custom.Some? then map["status" := status, "customStatus" := custom.value]
                               else map["status" := status], now)
  {
    var k := UserMeta(u);
    assert Live(s.hashes, k, now);
    if custom.Some? {
      var first := map["status" := status];
      var both := map["status" := status, "customStatus" := custom.value];
      var s1 := HSet(s, k, first, now);
      assert HSet(s1, k, map["customStatus" := custom.value], now).hashes == HSet(s, k, both, now).hashes by {
        assert s.hashes[k].value + first + map["customStatus" := custom.value] == s.hashes[k].value + both;
      }
    }
  }

  lemma UpdateStatusKeeps(s: Db, u: string, status: string, custom: Option<string>, owner: string -> string, now: int)
    requires Inv(s, owner, now)
    ensures Inv(UpdateStatus(s, u, status, custom, now), owner, now)
  {
    hide Inv, PutTimed;
    InvParts(s, owner, now);
    if Exists(s, UserMeta(u), now) {
      UpdateStatusIs(s, u, status, custom, now);
      PutUserKeeps(s, u, if custom.Some? then map["status" := status, "customStatus" := custom.value]
                         else map["status" := status], owner, now);
    }
  }

  // ----- Reading -----

  /** A user whose record has expired has no set that has not: looking the user up removes both. */
  lemma LookUpKeeps(s: Db, u: string, owner: string -> string, now: int)
    requires Inv(s, owner, now)
    ensures Inv(LookUp(s, u, now), owner, now)
  {
    SetOutlivedByUser(s, u, owner, now);
    hide Inv;
    var s1 := SRead(s, UserSockets(u), now);
    SReadKeeps(s, u, owner, now);
    if Stale(s.hashes, UserMeta(u), now) {
      HashRemoved(s1, UserMeta(u), owner, now);
    }
  }

  lemma SetOutlivedByUser(s: Db, u: string, owner: string -> string, now: int)
    requires Inv(s, owner, now)
    ensures Live(s.sets, UserSockets(u), now) ==> Live(s.hashes, UserMeta(u), now) && u in Online(s)
  {
    assert Covered(s, u, now);
  }

  // ----- Cleaning up -----

  lemma CleanUserKeeps(s: Db, u: string, owner: string -> string, now: int)
    requires Inv(s, owner, now)
    ensures Inv(CleanUser(s, u, now), owner, now)
  {
    hide Inv, SRem, SRead, Evict, GivesUp, DeadSockets;
    SReadKeeps(s, u, owner, now);
    var s1 := SRead(s, UserSockets(u), now);
    var dead := DeadSockets(s1, u, now);
    SRemKeeps(s1, u, dead, owner, now);
    EvictKeeps(DropSockets(s1, u, dead, now), u, owner, now);
  }
}
