/** How long presence lasts after each call, to the millisecond, and what the records and the lists say. */
module PresenceLifetimes {
  import opened Sequences
  import opened RedisValues
  import opened PresenceValues
  import opened PresenceInvariant
  import opened PresenceSafety

  predicate IsShown(s: Db, u: string, now: int) {
    PresenceOf(s, u, now).Some?
  }

  /** A user's set and record, both full and both with a deadline. */
  predicate Runs(s: Db, u: string, at: int) {
    && UserMeta(u) in s.hashes && s.hashes[UserMeta(u)].value != map[] && s.hashes[UserMeta(u)].expiresAt == Some(at)
    && UserSockets(u) in s.sets && s.sets[UserSockets(u)].value != {} && s.sets[UserSockets(u)].expiresAt == Some(at)
  }

  lemma ShownUntil(s: Db, u: string, at: int, later: int)
    requires Runs(s, u, at)
    ensures IsShown(s, u, later) <==> later <= at
  {
  }

  lemma AddTimedRuns(s: Db, k: Key, x: string, now: int)
    ensures var t := AddTimed(s, k, x, now);
      && k in t.sets && t.sets[k].value != {} && t.sets[k].expiresAt == Some(now + 60000)
      && forall j :: j != k ==> (j in t.sets <==> j in s.sets) && (j in s.sets ==> t.sets[j] == s.sets[j])
    ensures forall j :: j != k ==>
      (j in AddTimed(s, k, x, now).hashes <==> j in s.hashes)
      && (j in s.hashes ==> AddTimed(s, k, x, now).hashes[j] == s.hashes[j])
  {
    var t := AddTimed(s, k, x, now);
    assert x in t.sets[k].value;
  }

  lemma PutTimedRuns(s: Db, k: Key, fields: map<string, string>, now: int)
    requires fields != map[]
    ensures var t := PutTimed(s, k, fields, now);
      && k in t.hashes && t.hashes[k].value == Fields(s, k, now) + fields
      && t.hashes[k].value != map[] && t.hashes[k].expiresAt == Some(now + 60000)
      && forall j :: j != k ==> (j in t.hashes <==> j in s.hashes) && (j in s.hashes ==> t.hashes[j] == s.hashes[j])
    ensures forall j :: j != k ==>
      (j in PutTimed(s, k, fields, now).sets <==> j in s.sets)
      && (j in s.sets ==> PutTimed(s, k, fields, now).sets[j] == s.sets[j])
  {
    var t := PutTimed(s, k, fields, now);
    var f :| f in fields;
    assert f in t.hashes[k].value;
  }

  lemma ReadRuns(s: Db, k: Key, now: int)
    ensures SRead(s, k, now).hashes == s.hashes
    ensures forall j :: j in s.sets && !Expired(s.sets[j], now) ==>
      j in SRead(s, k, now).sets && SRead(s, k, now).sets[j] == s.sets[j]
  {
  }

  lemma NotEmpty(u: string, x: string, m: Metadata, stamp: string)
    ensures UserFields(u, m, stamp) != map[] && SocketFields(u, x, m, stamp) != map[]
  {
    assert "userId" in UserFields(u, m, stamp) && "userId" in SocketFields(u, x, m, stamp);
  }

  /** The records a connection writes. */
  lemma ConnectRuns(s: Db, u: string, x: string, m: Metadata, stamp: string, now: int)
    ensures var t := MarkOnline(s, u, x, m, stamp, now);
      && Runs(t, u, now + 60000)
      && SocketMeta(x) in t.hashes && t.hashes[SocketMeta(x)].expiresAt == Some(now + 60000)
      && t.hashes[SocketMeta(x)].value == Fields(s, SocketMeta(x), now) + SocketFields(u, x, m, stamp)
      && t.hashes[UserMeta(u)].value == Fields(s, UserMeta(u), now) + UserFields(u, m, stamp)
  {
    hide AddTimed, PutTimed, SRead, UserFields, SocketFields, Fields, SAdd;
    NotEmpty(u, x, m, stamp);
    var s1 := AddTimed(s, UserSockets(u), x, now);
    var s2 := SAdd(s1, OnlineUsers, {u}, now);
    var s3 := PutTimed(s2, UserMeta(u), UserFields(u, m, stamp), now);
    var s4 := PutTimed(s3, SocketMeta(x), SocketFields(u, x, m, stamp), now);
    AddTimedRuns(s, UserSockets(u), x, now);
    AddTimedFields(s, UserSockets(u), x, now);
    JoinRuns(s1, u, now);
    AddFields(s1, OnlineUsers, u, now);
    PutTimedRuns(s2, UserMeta(u), UserFields(u, m, stamp), now);
    PutTimedFields(s2, UserMeta(u), UserFields(u, m, stamp), now);
    PutTimedRuns(s3, SocketMeta(x), SocketFields(u, x, m, stamp), now);
    ReadRuns(s4, UserSockets(u), now);
  }

  lemma JoinRuns(s: Db, u: string, now: int)
    ensures var t := SAdd(s, OnlineUsers, {u}, now);
      && t.hashes == s.hashes
      && forall j :: j != OnlineUsers ==> (j in t.sets <==> j in s.sets) && (j in s.sets ==> t.sets[j] == s.sets[j])
  {
  }

  /** MAIN: a user who connects is shown for sixty seconds from then, and so long their socket's record lives. */
  lemma ConnectLasts(s: Db, u: string, x: string, m: Metadata, stamp: string, now: int, later: int)
    ensures var t := MarkOnline(s, u, x, m, stamp, now);
      && (IsShown(t, u, later) <==> later <= now + 60000)
      && (Fields(t, SocketMeta(x), later) != map[] <==> later <= now + 60000)
  {
    hide MarkOnline, IsShown;
    ConnectRuns(s, u, x, m, stamp, now);
    ShownUntil(MarkOnline(s, u, x, m, stamp, now), u, now + 60000, later);
    NotEmpty(u, x, m, stamp);
    assert "userId" in SocketFields(u, x, m, stamp);
    assert "userId" in MarkOnline(s, u, x, m, stamp, now).hashes[SocketMeta(x)].value;
  }

  lemma SocketSays(was: map<string, string>, u: string, x: string, m: Metadata, stamp: string)
    ensures var socket := was + SocketFields(u, x, m, stamp);
      && Stored(socket, "userId") == Some(u) && Stored(socket, "socketId") == Some(x)
      && Stored(socket, "username") == Some(if m.username == "" then "unknown" else m.username)
      && Stored(socket, "room") == Some(if m.room == "" then "general" else m.room)
      && Stored(socket, "publicKey") == Some(m.publicKey) && Stored(socket, "connectedAt") == Some(stamp)
  {
  }

  lemma UserSays(was: map<string, string>, u: string, m: Metadata, stamp: string)
    ensures var user := was + UserFields(u, m, stamp);
      && Stored(user, "userId") == Some(u)
      && Stored(user, "username") == Some(if m.username == "" then "unknown" else m.username)
      && Stored(user, "status") == Some(if m.status == "" then "online" else m.status)
      && Stored(user, "customStatus") == Some(m.customStatus) && Stored(user, "publicKey") == Some(m.publicKey)
      && Stored(user, "connectedAt") == Stored(user, "lastHeartbeat") == Some(stamp)
  {
  }

  lemma FieldsOfLive(s: Db, k: Key, now: int)
    requires k in s.hashes && s.hashes[k].expiresAt == Some(now + 60000)
    ensures Fields(s, k, now) == s.hashes[k].value
  {
  }

  /** MAIN: a socket's record says whose it is, with the defaults filled in, and a user's record their key. */
  lemma RecordsSay(s: Db, u: string, x: string, m: Metadata, stamp: string, now: int)
    ensures var t := MarkOnline(s, u, x, m, stamp, now);
      var socket, user := Fields(t, SocketMeta(x), now), Fields(t, UserMeta(u), now);
      && Stored(socket, "userId") == Some(u) && Stored(socket, "socketId") == Some(x)
      && Stored(socket, "username") == Some(if m.username == "" then "unknown" else m.username)
      && Stored(socket, "room") == Some(if m.room == "" then "general" else m.room)
      && Stored(socket, "publicKey") == Stored(user, "publicKey") == Some(m.publicKey)
      && Stored(socket, "connectedAt") == Stored(user, "connectedAt") == Stored(user, "lastHeartbeat") == Some(stamp)
      && Stored(user, "userId") == Some(u)
      && Stored(user, "username") == Some(if m.username == "" then "unknown" else m.username)
      && Stored(user, "status") == Some(if m.status == "" then "online" else m.status)
      && Stored(user, "customStatus") == Some(m.customStatus)
  {
    hide MarkOnline, Stored, Fields, UserFields, SocketFields;
    ConnectRuns(s, u, x, m, stamp, now);
    var t := MarkOnline(s, u, x, m, stamp, now);
    FieldsOfLive(t, SocketMeta(x), now);
    FieldsOfLive(t, UserMeta(u), now);
    SocketSays(Fields(s, SocketMeta(x), now), u, x, m, stamp);
    UserSays(Fields(s, UserMeta(u), now), u, m, stamp);
  }

  lemma ShownRuns(s: Db, u: string, now: int)
    requires IsShown(s, u, now)
    ensures UserMeta(u) in s.hashes && s.hashes[UserMeta(u)].value != map[]
    ensures UserSockets(u) in s.sets && s.sets[UserSockets(u)].value != {}
  {
  }

  lemma ExpireRuns(s: Db, k: Key, now: int)
    ensures var t := Expire(s, k, TTL, now);
      && t.sets.Keys == s.sets.Keys && t.hashes.Keys == s.hashes.Keys
      && (forall j :: j in s.sets ==> t.sets[j].value == s.sets[j].value)
      && (forall j :: j in s.hashes ==> t.hashes[j].value == s.hashes[j].value)
      && (forall j :: j in s.sets ==>
            t.sets[j].expiresAt == (if j == k then Some(now + 60000) else s.sets[j].expiresAt))
      && (forall j :: j in s.hashes ==>
            t.hashes[j].expiresAt == (if j == k then Some(now + 60000) else s.hashes[j].expiresAt))
  {
  }

  /** MAIN: a heartbeat of a user who is shown gives them sixty seconds more, and its socket's record too. */
  lemma HeartbeatLasts(s: Db, u: string, x: string, stamp: string, now: int, later: int)
    requires IsShown(s, u, now) && x != ""
    ensures var t := Heartbeat(s, u, Some(x), stamp, now);
      && (IsShown(t, u, later) <==> later <= now + 60000)
      && (SocketMeta(x) in s.hashes ==>
            SocketMeta(x) in t.hashes && t.hashes[SocketMeta(x)].expiresAt == Some(now + 60000))
  {
    hide PutTimed, Expire, IsShown, Exists;
    var beat := map["lastHeartbeat" := stamp];
    assert "lastHeartbeat" in beat;
    ShownRuns(s, u, now);
    RecordIsThere(s, u, now);
    var s1 := PutTimed(s, UserMeta(u), beat, now);
    var s2 := Expire(s1, UserSockets(u), TTL, now);
    PutTimedRuns(s, UserMeta(u), beat, now);
    ExpireRuns(s1, UserSockets(u), now);
    ExpireRuns(s2, SocketMeta(x), now);
    ShownUntil(Expire(s2, SocketMeta(x), TTL, now), u, now + 60000, later);
  }

  lemma RecordIsThere(s: Db, u: string, now: int)
    requires IsShown(s, u, now)
    ensures Exists(s, UserMeta(u), now)
  {
  }

  /** MAIN: when one of several sockets of a user disconnects, the user is shown for sixty seconds from then. */
  lemma DisconnectLasts(s: Db, x: string, u: string, now: int, later: int)
    requires RecordedUser(s, x, now) == Some(u) && RemainingSockets(s, x, now) != {}
    requires Fields(s, UserMeta(u), now) != map[]
    ensures IsShown(MarkOffline(s, x, now), u, later) <==> later <= now + 60000
  {
    hide Expire, IsShown, ForgetSocket, TakeSocket;
    var s1 := ForgetSocket(s, x, now);
    var s2 := TakeSocket(s1, u, x, now);
    var s3 := SRead(s2, UserSockets(u), now);
    TakenRuns(s, x, u, now);
    var s4 := Expire(s3, UserSockets(u), TTL, now);
    ExpireRuns(s3, UserSockets(u), now);
    ExpireRuns(s4, UserMeta(u), now);
    ShownUntil(Expire(s4, UserMeta(u), TTL, now), u, now + 60000, later);
  }

  lemma TakenRuns(s: Db, x: string, u: string, now: int)
    requires Members(TakeSocket(ForgetSocket(s, x, now), u, x, now), UserSockets(u), now) != {}
    requires Fields(s, UserMeta(u), now) != map[]
    ensures var t := SRead(TakeSocket(ForgetSocket(s, x, now), u, x, now), UserSockets(u), now);
      && UserSockets(u) in t.sets && t.sets[UserSockets(u)].value != {}
      && UserMeta(u) in t.hashes && t.hashes[UserMeta(u)].value != map[]
  {
  }

  lemma SetEndsFirst(s: Db, u: string, owner: string -> string, now: int)
    requires Inv(s, owner, now) && IsShown(s, u, now)
    ensures UserSockets(u) in s.sets && s.sets[UserSockets(u)].value != {}
    ensures s.sets[UserSockets(u)].expiresAt.Some? && s.sets[UserSockets(u)].expiresAt.value <= now + 60000
  {
    assert Covered(s, u, now);
  }

  lemma ShownUntilSet(s: Db, u: string, at: int, end: int, later: int)
    requires UserMeta(u) in s.hashes && s.hashes[UserMeta(u)].value != map[]
    requires UserSockets(u) in s.sets && s.sets[UserSockets(u)].value != {}
    requires s.hashes[UserMeta(u)].expiresAt == Some(end) && s.sets[UserSockets(u)].expiresAt == Some(at) && at <= end
    ensures IsShown(s, u, later) <==> later <= at
  {
  }

  /** MAIN: a status change renews the record alone: the user is shown until their set is over. */
  lemma StatusLasts(s: Db, u: string, status: string, custom: Option<string>, owner: string -> string, now: int, later: int)
    requires Inv(s, owner, now) && IsShown(s, u, now)
    ensures var t := UpdateStatus(s, u, status, custom, now);
      && UserSockets(u) in s.sets && s.sets[UserSockets(u)].expiresAt.Some?
      && UserMeta(u) in t.hashes && t.hashes[UserMeta(u)].expiresAt == Some(now + 60000)
      && (IsShown(t, u, later) <==> later <= s.sets[UserSockets(u)].expiresAt.value)
  {
    hide UpdateStatus, PutTimed, IsShown, Inv, Exists;
    SetEndsFirst(s, u, owner, now);
    RecordIsThere(s, u, now);
    StatusWritten(s, u, status, custom, now);
    assert "status" in StatusFields(status, custom);
    PutTimedRuns(s, UserMeta(u), StatusFields(status, custom), now);
    ShownUntilSet(UpdateStatus(s, u, status, custom, now), u, s.sets[UserSockets(u)].expiresAt.value, now + 60000, later);
  }

  // ---------------------------------------------------------------------------
  // Reading
  // ---------------------------------------------------------------------------

  /** Looking a user up leaves them what has not expired and nothing else, and leaves everyone else what they had. */
  lemma LookUpRemovesExpired(s: Db, u: string, now: int)
    ensures var t := LookUp(s, u, now);
      && (UserSockets(u) in t.sets <==> UserSockets(u) in s.sets && !Expired(s.sets[UserSockets(u)], now))
      && (UserMeta(u) in t.hashes <==> UserMeta(u) in s.hashes && !Expired(s.hashes[UserMeta(u)], now))
      && (forall k :: k in s.sets && k != UserSockets(u) ==> k in t.sets)
      && (forall k :: k in s.hashes && k != UserMeta(u) ==> k in t.hashes)
      && (forall k :: k in t.sets ==> k in s.sets && t.sets[k] == s.sets[k])
      && (forall k :: k in t.hashes ==> k in s.hashes && t.hashes[k] == s.hashes[k])
  {
  }

  /** MAIN: the list of online users has an entry for each user asked for who is shown, and no other. */
  lemma {:induction false} ListedAreShown(s: Db, users: seq<string>, now: int)
    ensures |Presences(s, users, now)| == Count(users, u => IsShown(s, u, now))
    ensures forall p :: p in Presences(s, users, now) <==> exists u :: u in users && PresenceOf(s, u, now) == Some(p)
    decreases |users|
  {
    hide PresenceOf;
    if users != [] {
      var n := |users| - 1;
      var last := users[n];
      ListedAreShown(s, users[..n], now);
      assert users == users[..n] + [last];
      FilterSnoc(users[..n], last, u => IsShown(s, u, now));
      forall p ensures p in Presences(s, users, now) <==> exists u :: u in users && PresenceOf(s, u, now) == Some(p) {
        assert forall u :: u in users <==> u in users[..n] || u == last;
      }
    }
  }

  /** The collector gives a user up who has no live record or no live socket, whatever else the store holds. */
  lemma GivenUpIff(s: Db, u: string, now: int)
    ensures GivesUp(s, u, now) <==> !Exists(s, UserMeta(u), now) || LiveSockets(s, u, now) == {}
  {
    hide LiveSockets, Exists, CleanSockets, SRead;
    DropsDead(s, u, now);
    RecordKept(s, u, now);
  }

  lemma RecordKept(s: Db, u: string, now: int)
    ensures Exists(CleanSockets(s, u, now), UserMeta(u), now) == Exists(s, UserMeta(u), now)
  {
  }
}
