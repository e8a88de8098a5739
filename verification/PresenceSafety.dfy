/** The invariant over every run; what the garbage collector does: it evicts exactly the users without a live
    socket and leaves every other user exactly their live sockets; and what others see of a user. */
module PresenceSafety {
  import opened Sequences
  import opened RedisValues
  import opened PresenceValues
  import opened PresenceInvariant

  // ---------------------------------------------------------------------------
  // Runs
  // ---------------------------------------------------------------------------

  /** What the socket handlers ask of the service. A socket belongs to the user who authenticated on it. */
  datatype Event =
    | Connect(x: string, m: Metadata, stamp: string)
    | Disconnect(x: string)
    | Beat(x: string, stamp: string)
    | SetStatus(x: string, status: string, custom: Option<string>)
    | AskUser(u: string)
    | AskSockets(u: string)
    | AskSocket(x: string)
    | ListOnline(users: seq<string>)
    | CleanUp(users: seq<string>)

  function LookUpAll(s: Db, users: seq<string>, now: int): Db
    decreases |users|
  {
    if users == [] then s else LookUpAll(LookUp(s, users[0], now), users[1..], now)
  }

  function Step(s: Db, e: Event, owner: string -> string, now: int): Db {
    match e
    case Connect(x, m, stamp) => MarkOnline(s, owner(x), x, m, stamp, now)
    case Disconnect(x) => MarkOffline(s, x, now)
    case Beat(x, stamp) => Heartbeat(s, owner(x), Some(x), stamp, now)
    case SetStatus(x, status, custom) => UpdateStatus(s, owner(x), status, custom, now)
    case AskUser(u) => LookUp(s, u, now)
    case AskSockets(u) => SRead(s, UserSockets(u), now)
    case AskSocket(x) => HReadAll(s, SocketMeta(x), now)
    case ListOnline(users) => LookUpAll(s, users, now)
    case CleanUp(users) => CleanAll(s, users, now)
  }

  datatype TimedEvent = At(e: Event, now: int)

  function Run(s: Db, es: seq<TimedEvent>, owner: string -> string): Db
    decreases |es|
  {
    if es == [] then s else Run(Step(s, es[0].e, owner, es[0].now), es[1..], owner)
  }

  ghost predicate Clocked(es: seq<TimedEvent>, from: int)
    decreases |es|
  {
    es == [] || (es[0].now >= from && Clocked(es[1..], es[0].now))
  }

  function End(es: seq<TimedEvent>, from: int): int {
    if es == [] then from else es[|es| - 1].now
  }

  ghost predicate NamedOwners(owner: string -> string) {
    forall x :: owner(x) != ""
  }

  lemma {:induction false} LookUpAllKeeps(s: Db, users: seq<string>, owner: string -> string, now: int)
    requires Inv(s, owner, now)
    ensures Inv(LookUpAll(s, users, now), owner, now)
    decreases |users|
  {
    hide Inv, LookUp;
    if users != [] {
      LookUpKeeps(s, users[0], owner, now);
      LookUpAllKeeps(LookUp(s, users[0], now), users[1..], owner, now);
    }
  }

  lemma {:induction false} CleanAllKeeps(s: Db, users: seq<string>, owner: string -> string, now: int)
    requires Inv(s, owner, now)
    ensures Inv(CleanAll(s, users, now), owner, now)
    decreases |users|
  {
    hide Inv, CleanUser;
    if users != [] {
      CleanUserKeeps(s, users[0], owner, now);
      CleanAllKeeps(CleanUser(s, users[0], now), users[1..], owner, now);
    }
  }

  lemma StepKeeps(s: Db, e: Event, owner: string -> string, now: int)
    requires Inv(s, owner, now) && NamedOwners(owner)
    ensures Inv(Step(s, e, owner, now), owner, now)
  {
    hide Inv, MarkOnline, MarkOffline, Heartbeat, UpdateStatus, LookUp, SRead, HReadAll, LookUpAll, CleanAll;
    match e {
      case Connect(x, m, stamp) => MarkOnlineKeeps(s, owner(x), x, m, stamp, owner, now);
      case Disconnect(x) => MarkOfflineKeeps(s, x, owner, now);
      case Beat(x, stamp) => HeartbeatKeeps(s, owner(x), Some(x), stamp, owner, now);
      case SetStatus(x, status, custom) => UpdateStatusKeeps(s, owner(x), status, custom, owner, now);
      case AskUser(u) => LookUpKeeps(s, u, owner, now);
      case AskSockets(u) => SReadKeeps(s, u, owner, now);
      case AskSocket(x) => HReadSocketKeeps(s, x, owner, now);
      case ListOnline(users) => LookUpAllKeeps(s, users, owner, now);
      case CleanUp(users) => CleanAllKeeps(s, users, owner, now);
    }
  }

  lemma {:induction false} RunKeeps(s: Db, es: seq<TimedEvent>, owner: string -> string, from: int)
    requires Inv(s, owner, from) && NamedOwners(owner) && Clocked(es, from)
    ensures Inv(Run(s, es, owner), owner, End(es, from))
    decreases |es|
  {
    hide Inv, Step;
    if es != [] {
      var e, now := es[0].e, es[0].now;
      Later(s, owner, from, now);
      StepKeeps(s, e, owner, now);
      RunKeeps(Step(s, e, owner, now), es[1..], owner, now);
    }
  }

  /** MAIN: the expiries stay in order over every run from an empty store, however the clock moves on between
      the calls. */
  lemma ExpiriesStayOrdered(es: seq<TimedEvent>, owner: string -> string, from: int)
    requires NamedOwners(owner) && Clocked(es, from)
    ensures Inv(Run(Store(map[], map[], map[]), es, owner), owner, End(es, from))
  {
    RunKeeps(Store(map[], map[], map[]), es, owner, from);
  }

  // ---------------------------------------------------------------------------
  // Garbage collection
  // ---------------------------------------------------------------------------

  predicate SameSet(s: Db, t: Db, u: string) {
    (UserSockets(u) in s.sets <==> UserSockets(u) in t.sets) &&
    (UserSockets(u) in s.sets ==> s.sets[UserSockets(u)] == t.sets[UserSockets(u)])
  }

  predicate SameRecord(s: Db, t: Db, x: string) {
    (SocketMeta(x) in s.hashes <==> SocketMeta(x) in t.hashes) &&
    (SocketMeta(x) in s.hashes ==> s.hashes[SocketMeta(x)] == t.hashes[SocketMeta(x)])
  }

  /** Of a user's set exactly the live sockets are left, or the set is gone when there are none. */
  predicate Pruned(s: Db, t: Db, u: string, now: int) {
    if LiveSockets(s, u, now) == {} then UserSockets(u) !in t.sets
    else
      && UserSockets(u) in t.sets && !Expired(t.sets[UserSockets(u)], now)
      && t.sets[UserSockets(u)].value == LiveSockets(s, u, now)
  }

  /** The users among `us` who lose their place: those without a live socket. */
  function Lost(s: Db, us: set<string>, now: int): set<string> {
    set u | u in us && LiveSockets(s, u, now) == {}
  }

  ghost predicate Cleaned(s: Db, t: Db, us: set<string>, now: int) {
    && (forall v :: v !in us ==> SameSet(s, t, v))
    && (forall u :: u in us ==> Pruned(s, t, u, now))
    && (forall x :: SameRecord(s, t, x))
    && Online(t) == Online(s) - Lost(s, us, now)
  }

  lemma Evicts(s: Db, u: string)
    ensures var t := Evicted(s, u);
      && UserSockets(u) !in t.sets && Online(t) == Online(s) - {u}
      && (forall v :: v != u ==> SameSet(s, t, v)) && (forall x :: SameRecord(s, t, x))
  {
  }

  /** With nothing expired in its record's place, reading, splitting and dropping the dead leaves the live. */
  lemma DropsDead(s: Db, u: string, now: int)
    ensures var r := SRead(s, UserSockets(u), now);
      var t := CleanSockets(s, u, now);
      && LiveSockets(r, u, now) == LiveSockets(s, u, now)
      && (LiveSockets(s, u, now) != {} ==> Pruned(s, t, u, now))
      && (forall v :: v != u ==> SameSet(s, t, v)) && t.hashes == s.hashes && t.strings == s.strings
      && Online(t) == Online(s) && (OnlineKept(s) ==> OnlineKept(t))
  {
    var k := UserSockets(u);
    var r := SRead(s, k, now);
    var live, dead := LiveSockets(r, u, now), DeadSockets(r, u, now);
    assert Members(r, k, now) == Members(s, k, now);
    assert forall x :: Exists(r, SocketMeta(x), now) <==> Exists(s, SocketMeta(x), now);
    assert live == LiveSockets(s, u, now);
    assert Members(s, k, now) - dead == live;
  }

  lemma CleanUserDoes(s: Db, u: string, owner: string -> string, now: int)
    requires Inv(s, owner, now)
    ensures Cleaned(s, CleanUser(s, u, now), {u}, now)
  {
    LiveUserKept(s, u, owner, now);
    CleanUserKindsKept(s, u, owner, now);
    hide Inv, SRead, CleanSockets, LiveSockets, Exists, Evict, Evicted, SameSet, SameRecord, Kinds, OnlineKept;
    DropsDead(s, u, now);
    var t := CleanSockets(s, u, now);
    SameHashes(s, t);
    EvictIs(t, u, now);
    Evicts(t, u);
    assert Lost(s, {u}, now) == if LiveSockets(s, u, now) == {} then {u} else {};
    if LiveSockets(s, u, now) == {} {
      SameThrough(s, t, Evicted(t, u), u);
    }
  }

  lemma SameHashes(s: Db, t: Db)
    requires t.hashes == s.hashes
    ensures forall x :: SameRecord(s, t, x)
    ensures forall u, now :: t.strings == s.strings && t.sets == s.sets ==> Exists(t, UserMeta(u), now) == Exists(s, UserMeta(u), now)
  {
  }

  lemma SameThrough(s: Db, t: Db, r: Db, u: string)
    requires forall v :: v != u ==> SameSet(s, t, v) && SameSet(t, r, v)
    requires forall x :: SameRecord(s, t, x) && SameRecord(t, r, x)
    ensures forall v :: v != u ==> SameSet(s, r, v)
    ensures forall x :: SameRecord(s, r, x)
  {
    forall v | v != u ensures SameSet(s, r, v) {
      assert SameSet(s, t, v) && SameSet(t, r, v);
    }
    forall x ensures SameRecord(s, r, x) {
      assert SameRecord(s, t, x) && SameRecord(t, r, x);
    }
  }

  lemma CleanUserKindsKept(s: Db, u: string, owner: string -> string, now: int)
    requires Inv(s, owner, now)
    ensures Kinds(CleanSockets(s, u, now)) && OnlineKept(CleanSockets(s, u, now))
  {
    hide Inv, SRead, SRem;
    SReadKeeps(s, u, owner, now);
    var r := SRead(s, UserSockets(u), now);
    SRemKeeps(r, u, DeadSockets(r, u, now), owner, now);
    InvParts(DropSockets(r, u, DeadSockets(r, u, now), now), owner, now);
  }

  /** SAFETY: a user whose set has a live socket has a live record. */
  lemma LiveUserKept(s: Db, u: string, owner: string -> string, now: int)
    requires Inv(s, owner, now)
    ensures LiveSockets(s, u, now) != {} ==> Exists(CleanSockets(s, u, now), UserMeta(u), now)
  {
    SetOutlivedByUser(s, u, owner, now);
    if x :| x in LiveSockets(s, u, now) {
      assert Live(s.sets, UserSockets(u), now);
    }
  }

  lemma LiveRecords(s: Db, t: Db, x: string, now: int)
    requires Kinds(s) && Kinds(t) && SameRecord(s, t, x)
    ensures Exists(s, SocketMeta(x), now) == Exists(t, SocketMeta(x), now)
  {
  }

  /** Cleaning changes nobody's live sockets. */
  lemma LiveSocketsKept(s: Db, t: Db, us: set<string>, u: string, now: int)
    requires Cleaned(s, t, us, now) && Kinds(s) && Kinds(t)
    ensures LiveSockets(t, u, now) == LiveSockets(s, u, now)
  {
    forall x ensures Exists(s, SocketMeta(x), now) == Exists(t, SocketMeta(x), now) {
      assert SameRecord(s, t, x);
      LiveRecords(s, t, x, now);
    }
    if u in us {
      assert Pruned(s, t, u, now);
    } else {
      assert SameSet(s, t, u);
    }
  }

  lemma CleanedThen(s: Db, t: Db, r: Db, a: set<string>, b: set<string>, now: int)
    requires Cleaned(s, t, a, now) && Cleaned(t, r, b, now) && Kinds(s) && Kinds(t)
    ensures Cleaned(s, r, a + b, now)
  {
    hide Kinds, LiveSockets;
    forall u ensures LiveSockets(t, u, now) == LiveSockets(s, u, now) {
      LiveSocketsKept(s, t, a, u, now);
    }
    forall v | v !in a + b ensures SameSet(s, r, v) {
      assert SameSet(s, t, v) && SameSet(t, r, v);
    }
    forall u | u in a + b ensures Pruned(s, r, u, now) {
      if u in b {
        assert Pruned(t, r, u, now);
      } else {
        assert Pruned(s, t, u, now) && SameSet(t, r, u);
      }
    }
    forall x ensures SameRecord(s, r, x) {
      assert SameRecord(s, t, x) && SameRecord(t, r, x);
    }
    assert Lost(s, a + b, now) == Lost(s, a, now) + Lost(t, b, now);
  }

  lemma {:induction false} CleanAllDoes(s: Db, users: seq<string>, owner: string -> string, now: int)
    requires Inv(s, owner, now)
    ensures Cleaned(s, CleanAll(s, users, now), AsSet(users), now)
    decreases |users|
  {
    hide Inv, CleanUser, Cleaned;
    if users == [] {
      NothingCleaned(s, now);
      assert AsSet(users) == {};
    } else {
      var u, rest := users[0], users[1..];
      var t := CleanUser(s, u, now);
      CleanUserDoes(s, u, owner, now);
      CleanUserKeeps(s, u, owner, now);
      CleanAllDoes(t, rest, owner, now);
      InvParts(s, owner, now);
      InvParts(t, owner, now);
      CleanedThen(s, t, CleanAll(t, rest, now), {u}, AsSet(rest), now);
      assert AsSet(users) == {u} + AsSet(rest);
    }
  }

  lemma NothingCleaned(s: Db, now: int)
    ensures Cleaned(s, s, {}, now)
  {
  }

  /** The set of online users is always read whole: it has no deadline. */
  lemma OnlineNeverExpires(s: Db, owner: string -> string, now: int)
    requires Inv(s, owner, now)
    ensures SRead(s, OnlineUsers, now) == s && Members(s, OnlineUsers, now) == Online(s)
  {
  }

  /** MAIN: a full clean-up, in any order of the online users it read, leaves online exactly the users who had a
      live socket: it evicts no one else and keeps no one else. */
  lemma CleanUpIsExact(s: Db, users: seq<string>, owner: string -> string, now: int)
    requires Inv(s, owner, now) && AsSet(users) == Members(s, OnlineUsers, now)
    ensures forall u ::
      u in Online(CleanAll(SRead(s, OnlineUsers, now), users, now)) <==> LiveSockets(s, u, now) != {}
  {
    OnlineNeverExpires(s, owner, now);
    var t := CleanAll(s, users, now);
    CleanAllDoes(s, users, owner, now);
    hide Inv, CleanAll;
    forall u ensures u in Online(t) <==> LiveSockets(s, u, now) != {} {
      if LiveSockets(s, u, now) != {} {
        LiveIsOnline(s, u, owner, now);
      }
    }
  }

  lemma LiveIsOnline(s: Db, u: string, owner: string -> string, now: int)
    requires Inv(s, owner, now) && LiveSockets(s, u, now) != {}
    ensures u in Online(s)
  {
    SetOutlivedByUser(s, u, owner, now);
    var x :| x in LiveSockets(s, u, now);
    assert Live(s.sets, UserSockets(u), now);
  }

  /** MAIN: after it, whatever set is left holds live sockets only, all that were live before, and belongs to
      an online user. */
  lemma CleanUpLeavesLiveSockets(s: Db, users: seq<string>, owner: string -> string, now: int, u: string)
    requires Inv(s, owner, now) && AsSet(users) == Members(s, OnlineUsers, now)
    ensures var t := CleanAll(SRead(s, OnlineUsers, now), users, now);
      && LiveSockets(t, u, now) == LiveSockets(s, u, now)
      && (UserSockets(u) in t.sets <==> u in Online(t))
      && (u in Online(t) ==> t.sets[UserSockets(u)].value == LiveSockets(t, u, now) != {})
  {
    OnlineNeverExpires(s, owner, now);
    var t := CleanAll(s, users, now);
    CleanAllDoes(s, users, owner, now);
    CleanAllKeeps(s, users, owner, now);
    CleanUpIsExact(s, users, owner, now);
    InvParts(s, owner, now);
    InvParts(t, owner, now);
    InvCovered(s, u, owner, now);
    hide Inv, CleanAll, Kinds, LiveSockets, SRead, Members;
    LiveSocketsKept(s, t, AsSet(users), u, now);
    if u in users {
      assert Pruned(s, t, u, now);
    } else {
      assert SameSet(s, t, u);
    }
  }

  lemma InvCovered(s: Db, u: string, owner: string -> string, now: int)
    requires Inv(s, owner, now)
    ensures UserSockets(u) in s.sets ==> u in Online(s)
  {
    assert Covered(s, u, now);
  }

  /** The users the collector gives up are those without a live socket. */
  lemma GivesUpIff(s: Db, u: string, owner: string -> string, now: int)
    requires Inv(s, owner, now)
    ensures GivesUp(s, u, now) <==> LiveSockets(s, u, now) == {}
  {
    hide Inv, CleanSockets, Exists, LiveSockets, SRead;
    LiveUserKept(s, u, owner, now);
    DropsDead(s, u, now);
  }

  /** A clean-up reports exactly the users it evicts. */
  lemma {:induction false} ExpiredAreLost(s: Db, users: seq<string>, owner: string -> string, now: int)
    requires Inv(s, owner, now)
    ensures AsSet(ExpiredUsers(s, users, now)) == Lost(s, AsSet(users), now)
    decreases |users|
  {
    hide Inv, CleanUser, GivesUp, Cleaned, LiveSockets, Kinds;
    if users != [] {
      var u, rest := users[0], users[1..];
      var t := CleanUser(s, u, now);
      GivesUpIff(s, u, owner, now);
      CleanUserDoes(s, u, owner, now);
      CleanUserKeeps(s, u, owner, now);
      InvParts(s, owner, now);
      InvParts(t, owner, now);
      forall v ensures LiveSockets(t, v, now) == LiveSockets(s, v, now) {
        LiveSocketsKept(s, t, {u}, v, now);
      }
      ExpiredAreLost(t, rest, owner, now);
      assert AsSet(users) == {u} + AsSet(rest);
      var first := if GivesUp(s, u, now) then [u] else [];
      assert AsSet(first + ExpiredUsers(t, rest, now)) == AsSet(first) + AsSet(ExpiredUsers(t, rest, now));
    }
  }

  /** Cleaning one user leaves them no dead socket and everyone else theirs. */
  lemma DeadSocketsAfter(s: Db, t: Db, u: string, v: string, now: int)
    requires Cleaned(s, t, {u}, now) && Kinds(s) && Kinds(t)
    ensures DeadSockets(t, v, now) == if v == u then {} else DeadSockets(s, v, now)
  {
    forall x ensures Exists(s, SocketMeta(x), now) == Exists(t, SocketMeta(x), now) {
      assert SameRecord(s, t, x);
      LiveRecords(s, t, x, now);
    }
    if v == u {
      assert Pruned(s, t, u, now);
    } else {
      assert SameSet(s, t, v);
    }
  }

  lemma DeadAreOwned(s: Db, u: string, x: string, owner: string -> string, now: int)
    requires Inv(s, owner, now) && x in DeadSockets(s, u, now)
    ensures owner(x) == u
  {
    assert Placed(s, u, x, owner);
  }

  /** MAIN: a clean-up reports every dead socket of the users it goes through, once, and no other. */
  lemma {:induction false} CleanedAreDead(s: Db, users: seq<string>, owner: string -> string, now: int, x: string)
    requires Inv(s, owner, now)
    ensures CleanedSockets(s, users, now)[x] ==
      if owner(x) in users && x in DeadSockets(s, owner(x), now) then 1 else 0
    decreases |users|
  {
    hide Inv, CleanUser, Cleaned, DeadSockets, Kinds;
    if users != [] {
      var u, rest := users[0], users[1..];
      var t := CleanUser(s, u, now);
      CleanUserDoes(s, u, owner, now);
      CleanUserKeeps(s, u, owner, now);
      InvParts(s, owner, now);
      InvParts(t, owner, now);
      DeadSocketsAfter(s, t, u, owner(x), now);
      CleanedAreDead(t, rest, owner, now, x);
      assert owner(x) in users <==> owner(x) == u || owner(x) in rest;
      if x in DeadSockets(s, u, now) {
        DeadAreOwned(s, u, x, owner, now);
      }
    }
  }

  // ---------------------------------------------------------------------------
  // What others see
  // ---------------------------------------------------------------------------

  lemma PutTimedFields(s: Db, k: Key, fields: map<string, string>, now: int)
    ensures Fields(PutTimed(s, k, fields, now), k, now) == Fields(s, k, now) + fields
    ensures forall j :: j != k ==> Fields(PutTimed(s, k, fields, now), j, now) == Fields(s, j, now)
    ensures forall j :: j != k ==> Members(PutTimed(s, k, fields, now), j, now) == Members(s, j, now)
  {
  }

  lemma AddTimedFields(s: Db, k: Key, x: string, now: int)
    ensures Members(AddTimed(s, k, x, now), k, now) == Members(s, k, now) + {x}
    ensures forall j :: j != k ==> Members(AddTimed(s, k, x, now), j, now) == Members(s, j, now)
    ensures forall j :: j != k ==> Fields(AddTimed(s, k, x, now), j, now) == Fields(s, j, now)
  {
  }

  lemma AddFields(s: Db, k: Key, x: string, now: int)
    ensures forall j :: j != k ==> Members(SAdd(s, k, {x}, now), j, now) == Members(s, j, now)
    ensures forall j :: Fields(SAdd(s, k, {x}, now), j, now) == Fields(s, j, now)
  {
  }

  /** EXPIRE keeps what is alive. */
  lemma ExpireFields(s: Db, k: Key, now: int)
    ensures forall j :: j != k || Members(s, j, now) != {} ==>
      Members(Expire(s, k, TTL, now), j, now) == Members(s, j, now)
    ensures forall j :: j != k || Fields(s, j, now) != map[] ==>
      Fields(Expire(s, k, TTL, now), j, now) == Fields(s, j, now)
  {
  }

  lemma ReadFields(s: Db, k: Key, now: int)
    ensures forall j :: Members(SRead(s, k, now), j, now) == Members(s, j, now)
    ensures forall j :: Fields(SRead(s, k, now), j, now) == Fields(s, j, now)
  {
  }

  /** A user who connects is shown with what they connected with, and with the new socket; everyone else as
      before. */
  lemma ConnectIsShown(s: Db, u: string, x: string, m: Metadata, stamp: string, now: int)
    ensures PresenceOf(MarkOnline(s, u, x, m, stamp, now), u, now) ==
      Some(UserPresence(u, OrElse(m.username, "unknown"), OrElse(m.status, "online"), m.customStatus,
                        Members(s, UserSockets(u), now) + {x}, Some(stamp), Some(stamp)))
    ensures forall v :: v != u ==> PresenceOf(MarkOnline(s, u, x, m, stamp, now), v, now) == PresenceOf(s, v, now)
  {
    hide AddTimed, PutTimed, SAdd, SRead, Profile, UserFields, SocketFields, Members, Fields;
    var s1 := AddTimed(s, UserSockets(u), x, now);
    var s2 := SAdd(s1, OnlineUsers, {u}, now);
    var s3 := PutTimed(s2, UserMeta(u), UserFields(u, m, stamp), now);
    var s4 := PutTimed(s3, SocketMeta(x), SocketFields(u, x, m, stamp), now);
    AddTimedFields(s, UserSockets(u), x, now);
    AddFields(s1, OnlineUsers, u, now);
    PutTimedFields(s2, UserMeta(u), UserFields(u, m, stamp), now);
    PutTimedFields(s3, SocketMeta(x), SocketFields(u, x, m, stamp), now);
    ReadFields(s4, UserSockets(u), now);
    ProfileOf(u, m, stamp, Fields(s, UserMeta(u), now), Members(s, UserSockets(u), now) + {x});
  }

  lemma ProfileOf(u: string, m: Metadata, stamp: string, meta: map<string, string>, sockets: set<string>)
    requires sockets != {}
    ensures Profile(u, meta + UserFields(u, m, stamp), sockets) ==
      Some(UserPresence(u, OrElse(m.username, "unknown"), OrElse(m.status, "online"), m.customStatus, sockets,
                        Some(stamp), Some(stamp)))
  {
    assert (meta + UserFields(u, m, stamp))["userId"] == u;
  }

  /** A heartbeat shows as the new time and nothing else. */
  lemma HeartbeatIsShown(s: Db, u: string, x: Option<string>, stamp: string, now: int)
    requires PresenceOf(s, u, now).Some?
    ensures PresenceOf(Heartbeat(s, u, x, stamp, now), u, now) ==
      Some(PresenceOf(s, u, now).value.(lastHeartbeat := Some(stamp)))
    ensures forall v :: v != u ==> PresenceOf(Heartbeat(s, u, x, stamp, now), v, now) == PresenceOf(s, v, now)
  {
    hide PutTimed, Expire, Members, Fields;
    var beat := map["lastHeartbeat" := stamp];
    RecordExists(s, u, now);
    var s1 := PutTimed(s, UserMeta(u), beat, now);
    var s2 := Expire(s1, UserSockets(u), TTL, now);
    PutTimedFields(s, UserMeta(u), beat, now);
    ExpireFields(s1, UserSockets(u), now);
    if x.Some? && x.value != "" {
      ExpireFields(s2, SocketMeta(x.value), now);
    }
  }

  lemma RecordExists(s: Db, u: string, now: int)
    requires Fields(s, UserMeta(u), now) != map[]
    ensures Exists(s, UserMeta(u), now)
  {
  }

  function StatusFields(status: string, custom: Option<string>): map<string, string> {
    if custom.Some? then map["status" := status, "customStatus" := custom.value] else map["status" := status]
  }

  lemma HSetTwice(s: Db, k: Key, a: map<string, string>, b: map<string, string>, now: int)
    ensures HSet(HSet(s, k, a, now), k, b, now) == HSet(s, k, a + b, now)
  {
    var was := if Live(s.hashes, k, now) then s.hashes[k].value else map[];
    assert was + a + b == was + (a + b);
    var e := if Live(s.hashes, k, now) then s.hashes[k] else Timed(map[], None);
    var f, g := e.(value := was + a), e.(value := was + (a + b));
    assert s.hashes[k := f][k := g] == s.hashes[k := g];
  }

  /** The fields a status change writes, in the order it writes them. */
  lemma StatusWritten(s: Db, u: string, status: string, custom: Option<string>, now: int)
    requires Exists(s, UserMeta(u), now)
    ensures UpdateStatus(s, u, status, custom, now) == PutTimed(s, UserMeta(u), StatusFields(status, custom), now)
  {
    hide Expire, Exists, HSet;
    if custom.Some? {
      HSetTwice(s, UserMeta(u), map["status" := status], map["customStatus" := custom.value], now);
      assert map["status" := status] + map["customStatus" := custom.value] == StatusFields(status, custom);
    }
  }

  lemma StatusProfile(u: string, meta: map<string, string>, sockets: set<string>, status: string,
                      custom: Option<string>)
    requires Profile(u, meta, sockets).Some?
    ensures var p := Profile(u, meta, sockets).value;
      Profile(u, meta + StatusFields(status, custom), sockets) ==
        Some(p.(status := OrElse(status, "online"),
                customStatus := if custom.Some? then custom.value else p.customStatus))
  {
    assert (meta + StatusFields(status, custom))["status"] == status;
  }

  /** A status change shows as the new status and nothing else. */
  lemma StatusIsShown(s: Db, u: string, status: string, custom: Option<string>, now: int)
    requires PresenceOf(s, u, now).Some?
    ensures var p := PresenceOf(s, u, now).value;
      PresenceOf(UpdateStatus(s, u, status, custom, now), u, now) ==
        Some(p.(status := OrElse(status, "online"),
                customStatus := if custom.Some? then custom.value else p.customStatus))
    ensures forall v :: v != u ==> PresenceOf(UpdateStatus(s, u, status, custom, now), v, now) == PresenceOf(s, v, now)
  {
    RecordExists(s, u, now);
    hide PutTimed, UpdateStatus, Expire, Members, Fields, StatusFields, Profile;
    StatusWritten(s, u, status, custom, now);
    PutTimedFields(s, UserMeta(u), StatusFields(status, custom), now);
    StatusProfile(u, Fields(s, UserMeta(u), now), Members(s, UserSockets(u), now), status, custom);
  }

  // ---------------------------------------------------------------------------
  // Heartbeats
  // ---------------------------------------------------------------------------

  lemma TouchedIsLive<K, T>(m: map<K, RedisValues.Timed<T>>, k: K, now: int)
    ensures Live(Touch(m, k, now + LIFE), k, now) <==> k in m
    ensures k in m ==> Touch(m, k, now + LIFE)[k].value == m[k].value
  {
  }

  /** The store after a heartbeat: three expiries moved, nothing else. */
  lemma HeartbeatIs(s: Db, u: string, x: string, stamp: string, owner: string -> string, now: int)
    requires Inv(s, owner, now) && Exists(s, UserMeta(u), now) && x != ""
    ensures var t := Heartbeat(s, u, Some(x), stamp, now);
      && Kinds(t) && t.sets == Touch(s.sets, UserSockets(u), now + LIFE)
      && (SocketMeta(x) in t.hashes <==> SocketMeta(x) in s.hashes)
      && (SocketMeta(x) in t.hashes ==> t.hashes[SocketMeta(x)].expiresAt == Some(now + LIFE))
  {
    var beat := map["lastHeartbeat" := stamp];
    InvParts(s, owner, now);
    PutUserKeeps(s, u, beat, owner, now);
    PutTimedIs(s, UserMeta(u), beat, now);
    hide Inv, PutTimed, Expire, Exists;
    var s1 := PutTimed(s, UserMeta(u), beat, now);
    InvParts(s1, owner, now);
    ExpireIs(s1, UserSockets(u), now);
    TouchKinds(s1, UserSockets(u), now);
    var s2 := Expire(s1, UserSockets(u), TTL, now);
    ExpireIs(s2, SocketMeta(x), now);
    TouchKinds(s2, SocketMeta(x), now);
  }

  /** A heartbeat brings its socket back to life exactly when the socket is still in its user's set and still has
      its record, expired or not. A socket whose set has been replaced stays out of it, its record alone
      living on with every heartbeat, until it joins again. */
  lemma HeartbeatRevivesIff(s: Db, x: string, stamp: string, owner: string -> string, now: int)
    requires Inv(s, owner, now) && Exists(s, UserMeta(owner(x)), now) && x != ""
    ensures x in LiveSockets(Heartbeat(s, owner(x), Some(x), stamp, now), owner(x), now) <==>
      var k := UserSockets(owner(x)); k in s.sets && x in s.sets[k].value && SocketMeta(x) in s.hashes
  {
    var u := owner(x);
    HeartbeatIs(s, u, x, stamp, owner, now);
    TouchedIsLive(s.sets, UserSockets(u), now);
    hide Inv, Heartbeat;
  }
}
