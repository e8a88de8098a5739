/** Who is online, kept in the Redis engine under four kinds of key. Each operation is the sequence of engine
    operations it performs, at one moment of the clock. */
module PresenceValues {
  import opened Sequences
  import opened RedisValues

  datatype Key =
    | OnlineUsers
    | UserSockets(user: string)
    | UserMeta(user: string)
    | SocketMeta(socket: string)

  type Db = Store<Key>

  function KeyText(k: Key): string {
    match k
    case OnlineUsers => "presence:online_users"
    case UserSockets(u) => "presence:user_sockets:" + u
    case UserMeta(u) => "presence:user:" + u
    case SocketMeta(x) => "presence:socket:" + x
  }

  /** Different keys have different texts, whatever the ids: keys of one kind by their id, keys of two kinds by
      the characters at 9 and 13. */
  lemma KeysDiffer(a: Key, b: Key)
    ensures KeyText(a) == KeyText(b) <==> a == b
  {
    if KeyText(a) == KeyText(b) {
      assert KeyText(a)[9] == KeyText(b)[9] && KeyText(a)[13] == KeyText(b)[13];
      match a {
        case OnlineUsers =>
        case UserSockets(u) => assert KeyText(a)[22..] == u && KeyText(b)[22..] == b.user;
        case UserMeta(u) => assert KeyText(a)[14..] == u && KeyText(b)[14..] == b.user;
        case SocketMeta(x) => assert KeyText(a)[16..] == x && KeyText(b)[16..] == b.socket;
      }
    }
  }

  /** Seconds every presence entry lives without a heartbeat, and the same in milliseconds. */
  const TTL := 60
  const LIFE := 60000

  datatype Metadata = Metadata(username: string, status: string, customStatus: string, room: string, publicKey: string)

  function OrElse(v: string, other: string): string {
    if v == "" then other else v
  }

  function UserFields(u: string, m: Metadata, stamp: string): map<string, string> {
    map["userId" := u, "username" := OrElse(m.username, "unknown"), "status" := OrElse(m.status, "online"),
        "customStatus" := m.customStatus, "publicKey" := m.publicKey, "lastHeartbeat" := stamp, "connectedAt" := stamp]
  }

  function SocketFields(u: string, x: string, m: Metadata, stamp: string): map<string, string> {
    map["userId" := u, "username" := OrElse(m.username, "unknown"), "socketId" := x,
        "room" := OrElse(m.room, "general"), "publicKey" := m.publicKey, "connectedAt" := stamp]
  }

  // ---------------------------------------------------------------------------
  // The operations
  // ---------------------------------------------------------------------------

  function AddTimed(s: Db, k: Key, member: string, now: int): Db {
    Expire(SAdd(s, k, {member}, now), k, TTL, now)
  }

  function PutTimed(s: Db, k: Key, fields: map<string, string>, now: int): Db {
    Expire(HSet(s, k, fields, now), k, TTL, now)
  }

  function MarkOnline(s: Db, u: string, x: string, m: Metadata, stamp: string, now: int): Db {
    var s := AddTimed(s, UserSockets(u), x, now);
    var s := SAdd(s, OnlineUsers, {u}, now);
    var s := PutTimed(s, UserMeta(u), UserFields(u, m, stamp), now);
    var s := PutTimed(s, SocketMeta(x), SocketFields(u, x, m, stamp), now);
    SRead(s, UserSockets(u), now)
  }

  /** The user a socket's record names, if there is a record and it names one. */
  function RecordedUser(s: Db, x: string, now: int): Option<string> {
    FieldOf(Fields(s, SocketMeta(x), now), "userId")
  }

  function ForgetSocket(s: Db, x: string, now: int): Db {
    Del(HReadAll(s, SocketMeta(x), now), {SocketMeta(x)})
  }

  function TakeSocket(s: Db, u: string, x: string, now: int): Db {
    SRem(s, UserSockets(u), {x}, now)
  }

  function Evict(s: Db, u: string, now: int): Db {
    Del(Del(SRem(s, OnlineUsers, {u}, now), {UserMeta(u)}), {UserSockets(u)})
  }

  function MarkOffline(s: Db, x: string, now: int): Db {
    var user := RecordedUser(s, x, now);
    var s := ForgetSocket(s, x, now);
    if user.None? then s
    else
      var u := user.value;
      var s := TakeSocket(s, u, x, now);
      var remaining := Members(s, UserSockets(u), now);
      var s := SRead(s, UserSockets(u), now);
      if remaining == {} then Evict(s, u, now)
      else Expire(Expire(s, UserSockets(u), TTL, now), UserMeta(u), TTL, now)
  }

  /** The sockets MARK OFFLINE reports as left. */
  function RemainingSockets(s: Db, x: string, now: int): set<string> {
    var user := RecordedUser(s, x, now);
    if user.None? then {} else Members(TakeSocket(ForgetSocket(s, x, now), user.value, x, now), UserSockets(user.value), now)
  }

  function Heartbeat(s: Db, u: string, x: Option<string>, stamp: string, now: int): Db {
    if !Exists(s, UserMeta(u), now) then s
    else
      var s := PutTimed(s, UserMeta(u), map["lastHeartbeat" := stamp], now);
      var s := Expire(s, UserSockets(u), TTL, now);
      if x.Some? && x.value != "" then Expire(s, SocketMeta(x.value), TTL, now) else s
  }

  function UpdateStatus(s: Db, u: string, status: string, custom: Option<string>, now: int): Db {
    if !Exists(s, UserMeta(u), now) then s
    else
      var s := HSet(s, UserMeta(u), map["status" := status], now);
      var s := if custom.Some? then HSet(s, UserMeta(u), map["customStatus" := custom.value], now) else s;
      Expire(s, UserMeta(u), TTL, now)
  }

  /** Looking a user up removes what of theirs has expired. */
  function LookUp(s: Db, u: string, now: int): Db {
    SRead(HReadAll(s, UserMeta(u), now), UserSockets(u), now)
  }

  datatype UserPresence = UserPresence(userId: string, username: string, status: string, customStatus: string,
                                       sockets: set<string>, lastHeartbeat: Option<string>, connectedAt: Option<string>)

  /** A field, or a default when it is missing or empty. */
  function Shown(hash: map<string, string>, field: string, other: string): string {
    if field in hash then OrElse(hash[field], other) else other
  }

  /** A field as it is. */
  function Stored(hash: map<string, string>, field: string): Option<string> {
    if field in hash then Some(hash[field]) else None
  }

  /** A user is shown who has a record and a socket. */
  function Profile(u: string, meta: map<string, string>, sockets: set<string>): Option<UserPresence> {
    if meta == map[] || sockets == {} then None
    else Some(UserPresence(u, Shown(meta, "username", "unknown"), Shown(meta, "status", "online"),
                           Shown(meta, "customStatus", ""), sockets, Stored(meta, "lastHeartbeat"),
                           Stored(meta, "connectedAt")))
  }

  function PresenceOf(s: Db, u: string, now: int): Option<UserPresence> {
    Profile(u, Fields(s, UserMeta(u), now), Members(s, UserSockets(u), now))
  }

  function Presences(s: Db, users: seq<string>, now: int): seq<UserPresence> {
    if users == [] then []
    else
      var before, last := Presences(s, users[..|users| - 1], now), PresenceOf(s, users[|users| - 1], now);
      if last.Some? then before + [last.value] else before
  }

  // ---------------------------------------------------------------------------
  // Cleaning up
  // ---------------------------------------------------------------------------

  /** The sockets of a user's live set that still have a live record, and those that do not. */
  function LiveSockets(s: Db, u: string, now: int): set<string> {
    set x | x in Members(s, UserSockets(u), now) && Exists(s, SocketMeta(x), now)
  }

  function DeadSockets(s: Db, u: string, now: int): set<string> {
    set x | x in Members(s, UserSockets(u), now) && !Exists(s, SocketMeta(x), now)
  }

  function DropSockets(s: Db, u: string, dead: set<string>, now: int): Db {
    if dead == {} then s else SRem(s, UserSockets(u), dead, now)
  }

  /** The user's set without its dead sockets. */
  function CleanSockets(s: Db, u: string, now: int): Db {
    var s := SRead(s, UserSockets(u), now);
    DropSockets(s, u, DeadSockets(s, u, now), now)
  }

  /** The collector gives a user up who has no live record or no live socket. */
  predicate GivesUp(s: Db, u: string, now: int) {
    !Exists(CleanSockets(s, u, now), UserMeta(u), now) || LiveSockets(SRead(s, UserSockets(u), now), u, now) == {}
  }

  function CleanUser(s: Db, u: string, now: int): Db {
    if GivesUp(s, u, now) then Evict(CleanSockets(s, u, now), u, now) else CleanSockets(s, u, now)
  }

  function CleanAll(s: Db, users: seq<string>, now: int): Db
    decreases |users|
  {
    if users == [] then s else CleanAll(CleanUser(s, users[0], now), users[1..], now)
  }

  /** The users a clean-up reports as expired. */
  function ExpiredUsers(s: Db, users: seq<string>, now: int): seq<string>
    decreases |users|
  {
    if users == [] then []
    else (if GivesUp(s, users[0], now) then [users[0]] else []) + ExpiredUsers(CleanUser(s, users[0], now), users[1..], now)
  }

  /** The sockets a clean-up takes out of the sets, each as often as it is taken out. */
  function CleanedSockets(s: Db, users: seq<string>, now: int): multiset<string>
    decreases |users|
  {
    if users == [] then multiset{}
    else multiset(DeadSockets(s, users[0], now)) + CleanedSockets(CleanUser(s, users[0], now), users[1..], now)
  }
}
