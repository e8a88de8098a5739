/** The presence service as it runs on the Redis engine. Every method takes the time at which it is called. */
module PresenceService {
  import opened Sequences
  import opened RedisValues
  import opened PresenceValues
  import Safety = PresenceSafety
  import RedisStore

  lemma One<T>(x: T)
    ensures AsSet([x]) == {x}
  {
  }

  lemma AsSetMore<T>(s: seq<T>, x: T)
    ensures AsSet(s + [x]) == AsSet(s) + {x}
  {
  }

  lemma ExistsOne(s: Db, k: Key, now: int)
    ensures CountExists(s, [k], now) == if Exists(s, k, now) then 1 else 0
  {
    assert [k][1..] == [];
  }

  class PresenceService {
    const redis: RedisStore.MemoryRedisStore<Key>

    constructor (redis: RedisStore.MemoryRedisStore<Key>)
      ensures this.redis == redis
    {
      this.redis := redis;
    }

    method MarkOnline(userId: string, socketId: string, metadata: Metadata, stamp: string, now: int)
      returns (isFirstSocket: bool, socketCount: int)
      modifies redis
      ensures redis.Contents() == PresenceValues.MarkOnline(old(redis.Contents()), userId, socketId, metadata, stamp, now)
      ensures socketCount == |Members(redis.Contents(), UserSockets(userId), now)|
      ensures isFirstSocket <==> socketCount == 1
    {
      hide UserFields, SocketFields, SAdd, HSet, Expire, AsSet, Members;
      One(socketId);
      One(userId);
      var _ := redis.SAdd(UserSockets(userId), [socketId], now);
      var _ := redis.Expire(UserSockets(userId), TTL, now);
      var _ := redis.SAdd(OnlineUsers, [userId], now);
      var _ := redis.HSet(UserMeta(userId), UserFields(userId, metadata, stamp), now);
      var _ := redis.Expire(UserMeta(userId), TTL, now);
      var _ := redis.HSet(SocketMeta(socketId), SocketFields(userId, socketId, metadata, stamp), now);
      var _ := redis.Expire(SocketMeta(socketId), TTL, now);
      MembersAfterRead(redis.Contents(), UserSockets(userId), now);
      socketCount := redis.SCard(UserSockets(userId), now);
      isFirstSocket := socketCount == 1;
    }

    method MarkOffline(socketId: string, now: int)
      returns (userId: Option<string>, isLastSocket: bool, remainingSockets: set<string>)
      modifies redis
      ensures redis.Contents() == PresenceValues.MarkOffline(old(redis.Contents()), socketId, now)
      ensures userId == RecordedUser(old(redis.Contents()), socketId, now)
      ensures remainingSockets == RemainingSockets(old(redis.Contents()), socketId, now)
      ensures isLastSocket <==> remainingSockets == {}
    {
      hide SRem, HReadAll, SRead, Expire, Del, AsSet, Members, Fields;
      One(socketId);
      One(SocketMeta(socketId));
      var socketMeta := redis.HGetAll(SocketMeta(socketId), now);
      userId := FieldOf(socketMeta, "userId");
      var _ := redis.Del([SocketMeta(socketId)]);
      if userId.None? {
        return None, true, {};
      }
      var u := userId.value;
      One(u);
      One(UserMeta(u));
      One(UserSockets(u));
      var _ := redis.SRem(UserSockets(u), [socketId], now);
      remainingSockets := redis.SMembers(UserSockets(u), now);
      isLastSocket := |remainingSockets| == 0;
      if isLastSocket {
        var _ := redis.SRem(OnlineUsers, [u], now);
        var _ := redis.Del([UserMeta(u)]);
        var _ := redis.Del([UserSockets(u)]);
      } else {
        var _ := redis.Expire(UserSockets(u), TTL, now);
        var _ := redis.Expire(UserMeta(u), TTL, now);
      }
    }

    method Heartbeat(userId: string, socketId: Option<string>, stamp: string, now: int) returns (alive: bool)
      modifies redis
      ensures redis.Contents() == PresenceValues.Heartbeat(old(redis.Contents()), userId, socketId, stamp, now)
      ensures alive <==> Exists(old(redis.Contents()), UserMeta(userId), now)
    {
      hide HSet, Expire, Exists;
      ExistsOne(redis.Contents(), UserMeta(userId), now);
      var found := redis.Exists([UserMeta(userId)], now);
      if found == 0 {
        return false;
      }
      var _ := redis.HSet(UserMeta(userId), map["lastHeartbeat" := stamp], now);
      var _ := redis.Expire(UserMeta(userId), TTL, now);
      var _ := redis.Expire(UserSockets(userId), TTL, now);
      if socketId.Some? && socketId.value != "" {
        var _ := redis.Expire(SocketMeta(socketId.value), TTL, now);
      }
      return true;
    }

    method UpdateStatus(userId: string, status: string, customStatus: Option<string>, now: int) returns (alive: bool)
      modifies redis
      ensures redis.Contents() == PresenceValues.UpdateStatus(old(redis.Contents()), userId, status, customStatus, now)
      ensures alive <==> Exists(old(redis.Contents()), UserMeta(userId), now)
    {
      hide HSet, Expire, Exists;
      ExistsOne(redis.Contents(), UserMeta(userId), now);
      var found := redis.Exists([UserMeta(userId)], now);
      if found == 0 {
        return false;
      }
      var _ := redis.HSet(UserMeta(userId), map["status" := status], now);
      if customStatus.Some? {
        var _ := redis.HSet(UserMeta(userId), map["customStatus" := customStatus.value], now);
      }
      var _ := redis.Expire(UserMeta(userId), TTL, now);
      return true;
    }

    method GetPresence(userId: string, now: int) returns (presence: Option<UserPresence>)
      modifies redis
      ensures redis.Contents() == LookUp(old(redis.Contents()), userId, now)
      ensures presence == PresenceOf(old(redis.Contents()), userId, now)
    {
      hide HReadAll, SRead, Fields, Shown, Stored;
      HashReadKeepsSets(redis.Contents(), UserMeta(userId), UserSockets(userId), now);
      var userMeta := redis.HGetAll(UserMeta(userId), now);
      var sockets := redis.SMembers(UserSockets(userId), now);
      if userMeta == map[] || |sockets| == 0 {
        return None;
      }
      return Some(UserPresence(userId, Shown(userMeta, "username", "unknown"), Shown(userMeta, "status", "online"),
                               Shown(userMeta, "customStatus", ""), sockets, Stored(userMeta, "lastHeartbeat"),
                               Stored(userMeta, "connectedAt")));
    }

    method GetUserSockets(userId: string, now: int) returns (sockets: set<string>)
      modifies redis
      ensures redis.Contents() == SRead(old(redis.Contents()), UserSockets(userId), now)
      ensures sockets == Members(old(redis.Contents()), UserSockets(userId), now)
    {
      sockets := redis.SMembers(UserSockets(userId), now);
    }

    /** Everyone in the set of online users who is shown, in the order `order` they are read, each once. */
    method GetOnlineUsers(now: int) returns (results: seq<UserPresence>, ghost order: seq<string>)
      modifies redis
      ensures AsSet(order) == Members(old(redis.Contents()), OnlineUsers, now) && |order| == |AsSet(order)|
      ensures redis.Contents() == Safety.LookUpAll(SRead(old(redis.Contents()), OnlineUsers, now), order, now)
      ensures results == Presences(old(redis.Contents()), order, now)
    {
      hide LookUp, PresenceOf, Members;
      ghost var s := redis.Contents();
      ReadKeepsShown(s, now);
      var userIds := redis.SMembers(OnlineUsers, now);
      ghost var s1, all := redis.Contents(), userIds;
      results := [];
      order := [];
      while userIds != {}
        invariant userIds <= all && AsSet(order) == all - userIds && |order| + |userIds| == |all|
        invariant redis.Contents() == Safety.LookUpAll(s1, order, now)
        invariant forall u :: PresenceOf(redis.Contents(), u, now) == PresenceOf(s, u, now)
        invariant results == Presences(s, order, now)
        decreases userIds
      {
        var userId :| userId in userIds;
        userIds := userIds - {userId};
        LookUpSnoc(s1, order, userId, now);
        LookUpKeepsShown(redis.Contents(), userId, now);
        var presence := GetPresence(userId, now);
        if presence.Some? {
          results := results + [presence.value];
        }
        AsSetMore(order, userId);
        assert (order + [userId])[..|order|] == order;
        order := order + [userId];
      }
    }

    /** The clean-up, user by user in the order `order`, each once. */
    method CleanupExpiredPresence(now: int)
      returns (expiredUsers: seq<string>, cleanedSockets: seq<string>, ghost order: seq<string>)
      modifies redis
      ensures AsSet(order) == Members(old(redis.Contents()), OnlineUsers, now) && |order| == |AsSet(order)|
      ensures redis.Contents() == CleanAll(SRead(old(redis.Contents()), OnlineUsers, now), order, now)
      ensures expiredUsers == ExpiredUsers(SRead(old(redis.Contents()), OnlineUsers, now), order, now)
      ensures multiset(cleanedSockets) == CleanedSockets(SRead(old(redis.Contents()), OnlineUsers, now), order, now)
    {
      hide CleanUser, Members, GivesUp, DeadSockets;
      var userIds := redis.SMembers(OnlineUsers, now);
      ghost var s1, all := redis.Contents(), userIds;
      order := [];
      expiredUsers, cleanedSockets := [], [];
      while userIds != {}
        invariant userIds <= all && AsSet(order) == all - userIds && |order| + |userIds| == |all|
        invariant redis.Contents() == CleanAll(s1, order, now)
        invariant expiredUsers == ExpiredUsers(s1, order, now)
        invariant multiset(cleanedSockets) == CleanedSockets(s1, order, now)
        decreases userIds
      {
        var userId :| userId in userIds;
        userIds := userIds - {userId};
        CleanSnoc(s1, order, userId, now);
        var expired, cleaned := CleanOneUser(userId, now);
        if expired {
          expiredUsers := expiredUsers + [userId];
        }
        cleanedSockets := cleanedSockets + cleaned;
        AsSetMore(order, userId);
        order := order + [userId];
      }
    }

    method CleanOneUser(userId: string, now: int) returns (expired: bool, cleaned: seq<string>)
      modifies redis
      ensures multiset(cleaned) == multiset(DeadSockets(old(redis.Contents()), userId, now))
      ensures redis.Contents() == CleanUser(old(redis.Contents()), userId, now)
      ensures expired == GivesUp(old(redis.Contents()), userId, now)
    {
      hide SRem, Del, AsSet, Exists, LiveSockets, DeadSockets, PresenceValues.CleanSockets, SRead, Members;
      var activeSocketsForUser: set<string>;
      activeSocketsForUser, cleaned := CleanSockets(userId, now);
      ExistsOne(redis.Contents(), UserMeta(userId), now);
      One(userId);
      One(UserMeta(userId));
      One(UserSockets(userId));
      var userExists := redis.Exists([UserMeta(userId)], now);
      expired := userExists == 0 || |activeSocketsForUser| == 0;
      if expired {
        var _ := redis.SRem(OnlineUsers, [userId], now);
        var _ := redis.Del([UserMeta(userId)]);
        var _ := redis.Del([UserSockets(userId)]);
      }
    }

    /** The loop over a user's sockets: those without a live record are taken out of the set. */
    method CleanSockets(userId: string, now: int) returns (active: set<string>, cleaned: seq<string>)
      modifies redis
      ensures multiset(cleaned) == multiset(DeadSockets(old(redis.Contents()), userId, now))
      ensures active == LiveSockets(SRead(old(redis.Contents()), UserSockets(userId), now), userId, now)
      ensures redis.Contents() == PresenceValues.CleanSockets(old(redis.Contents()), userId, now)
    {
      hide DropSockets, Exists, SRead, AsSet, SRem, Members;
      MembersAfterRead(redis.Contents(), UserSockets(userId), now);
      DeadAfterRead(redis.Contents(), userId, now);
      var sockets := redis.SMembers(UserSockets(userId), now);
      ghost var s, all, dead := redis.Contents(), sockets, {};
      active, cleaned := {}, [];
      DropNone(s, userId, now);
      while sockets != {}
        invariant sockets <= all
        invariant active == set x | x in all - sockets && Exists(s, SocketMeta(x), now)
        invariant dead == set x | x in all - sockets && !Exists(s, SocketMeta(x), now)
        invariant redis.Contents() == DropSockets(s, userId, dead, now)
        invariant multiset(cleaned) == multiset(dead)
        decreases sockets
      {
        var x :| x in sockets;
        sockets := sockets - {x};
        ExistsOne(redis.Contents(), SocketMeta(x), now);
        DropKeepsRecords(s, userId, dead, x, now);
        var sockExists := redis.Exists([SocketMeta(x)], now);
        if sockExists == 0 {
          One(x);
          DropMore(s, userId, dead, x, now);
          var _ := redis.SRem(UserSockets(userId), [x], now);
          cleaned, dead := cleaned + [x], dead + {x};
        } else {
          active := active + {x};
        }
      }
      assert all == Members(s, UserSockets(userId), now) && all - {} == all;
      assert dead == DeadSockets(s, userId, now) && active == LiveSockets(s, userId, now);
    }
  }

  lemma MembersAfterRead(s: Db, k: Key, now: int)
    ensures Members(SRead(s, k, now), k, now) == Members(s, k, now)
  {
  }

  lemma HashReadKeepsSets(s: Db, h: Key, k: Key, now: int)
    ensures Members(HReadAll(s, h, now), k, now) == Members(s, k, now)
  {
  }

  lemma DeadAfterRead(s: Db, u: string, now: int)
    ensures DeadSockets(SRead(s, UserSockets(u), now), u, now) == DeadSockets(s, u, now)
  {
  }

  lemma ReadKeepsShown(s: Db, now: int)
    ensures forall u :: PresenceOf(SRead(s, OnlineUsers, now), u, now) == PresenceOf(s, u, now)
  {
    hide Profile;
  }

  lemma LookUpKeepsShown(s: Db, v: string, now: int)
    ensures forall u :: PresenceOf(LookUp(s, v, now), u, now) == PresenceOf(s, u, now)
  {
    hide Profile;
  }

  lemma {:induction false} LookUpSnoc(s: Db, order: seq<string>, u: string, now: int)
    ensures Safety.LookUpAll(s, order + [u], now) == LookUp(Safety.LookUpAll(s, order, now), u, now)
    decreases |order|
  {
    hide LookUp;
    if order == [] {
      assert order + [u] == [u] && [u][1..] == [];
    } else {
      assert (order + [u])[0] == order[0] && (order + [u])[1..] == order[1..] + [u];
      LookUpSnoc(LookUp(s, order[0], now), order[1..], u, now);
    }
  }

  lemma {:induction false} CleanSnoc(s: Db, order: seq<string>, u: string, now: int)
    ensures CleanAll(s, order + [u], now) == CleanUser(CleanAll(s, order, now), u, now)
    ensures ExpiredUsers(s, order + [u], now) ==
      ExpiredUsers(s, order, now) + if GivesUp(CleanAll(s, order, now), u, now) then [u] else []
    ensures CleanedSockets(s, order + [u], now) ==
      CleanedSockets(s, order, now) + multiset(DeadSockets(CleanAll(s, order, now), u, now))
    decreases |order|
  {
    hide CleanUser, GivesUp, DeadSockets;
    if order == [] {
      assert order + [u] == [u] && [u][1..] == [];
    } else {
      assert (order + [u])[0] == order[0] && (order + [u])[1..] == order[1..] + [u];
      CleanSnoc(CleanUser(s, order[0], now), order[1..], u, now);
    }
  }

  lemma DropNone(s: Db, u: string, now: int)
    ensures DropSockets(s, u, {}, now) == s
  {
  }

  lemma DropKeepsRecords(s: Db, u: string, dead: set<string>, x: string, now: int)
    ensures Exists(DropSockets(s, u, dead, now), SocketMeta(x), now) == Exists(s, SocketMeta(x), now)
  {
  }

  /** Taking one more dead socket out. */
  lemma DropMore(s: Db, u: string, dead: set<string>, x: string, now: int)
    ensures SRem(DropSockets(s, u, dead, now), UserSockets(u), {x}, now) == DropSockets(s, u, dead + {x}, now)
  {
    var k := UserSockets(u);
    if Live(s.sets, k, now) && dead != {} {
      var v := s.sets[k].value;
      assert v - dead - {x} == v - (dead + {x});
      if v - dead != {} {
        assert s.sets[k := s.sets[k].(value := v - dead)] - {k} == s.sets - {k};
        assert s.sets[k := s.sets[k].(value := v - dead)][k := s.sets[k].(value := v - (dead + {x}))]
            == s.sets[k := s.sets[k].(value := v - (dead + {x}))];
      }
    } else {
      assert {} + {x} == {x};
    }
  }
}
