/** Expiring lazily looks the same as expiring at once: a caller cannot tell the engine from one that throws
    every entry away the moment its time has passed and never looks at the clock to read. */
module RedisExpiry {
  import opened Sequences
  import opened RedisValues

  function Fresh<K, T>(m: map<K, Timed<T>>, now: int): map<K, Timed<T>> {
    map k | k in m && !Expired(m[k], now) :: m[k]
  }

  /** Everything whose time has passed, thrown away. */
  function Purge<K>(s: Store<K>, now: int): Store<K> {
    Store(Fresh(s.strings, now), Fresh(s.sets, now), Fresh(s.hashes, now))
  }

  function Entry<K, T>(m: map<K, Timed<T>>, k: K, none: T): Timed<T> {
    if k in m then m[k] else Timed(none, None)
  }

  function CountHas<K>(s: Store<K>, ks: seq<K>): (n: nat) {
    if ks == [] then 0 else (if Has(s, ks[0]) then 1 else 0) + CountHas(s, ks[1..])
  }

  /** The operations on a store that holds nothing expired; the clock is only used to set deadlines. */
  function Plain<K>(s: Store<K>, op: Op<K>, now: int): (Store<K>, Reply<K>) {
    match op
    case OpSet(k, str, ex, px) => (SetString(s, k, str, Deadline(ex, px, now)), Done)
    case OpSetEx(k, seconds, str) => (SetString(s, k, str, Some(now + seconds * 1000)), Done)
    case OpGet(k) => (s, Text(if k in s.strings then Some(s.strings[k].value) else None))
    case OpDel(ks) => (Del(s, AsSet(ks)), Number(Removed(s, AsSet(ks))))
    case OpExists(ks) => (s, Number(CountHas(s, ks)))
    case OpExpire(k, seconds) => (Expire(s, k, seconds, now), Bool(Has(s, k)))
    case OpTtl(k) => (s, Number(Ttl(s, k, now)))
    case OpSAdd(k, ms) =>
      var e := Entry(s.sets, k, {});
      (s.(sets := s.sets[k := e.(value := e.value + AsSet(ms))]), Number(Added(e.value, AsSet(ms))))
    case OpSRem(k, ms) =>
      var e := Entry(s.sets, k, {});
      var rest := e.value - AsSet(ms);
      (s.(sets := if k !in s.sets || rest == {} then s.sets - {k} else s.sets[k := e.(value := rest)]),
       Number(Taken(e.value, AsSet(ms))))
    case OpSMembers(k) => (s, SetOf(Entry(s.sets, k, {}).value))
    case OpSCard(k) => (s, Number(|Entry(s.sets, k, {}).value|))
    case OpSIsMember(k, m) => (s, Bool(m in Entry(s.sets, k, {}).value))
    case OpHSet(k, fs) =>
      var e := Entry(s.hashes, k, map[]);
      (s.(hashes := s.hashes[k := e.(value := e.value + fs)]), Number(Added(e.value.Keys, fs.Keys)))
    case OpHGet(k, f) => (s, Text(FieldOf(Entry(s.hashes, k, map[]).value, f)))
    case OpHGetAll(k) => (s, HashOf(Entry(s.hashes, k, map[]).value))
    case OpHDel(k, names) =>
      var e := Entry(s.hashes, k, map[]);
      (if k in s.hashes then s.(hashes := s.hashes[k := e.(value := e.value - AsSet(names))]) else s,
       Number(Taken(e.value.Keys, AsSet(names))))
    case OpKeys(p) => (s, KeySet(MatchingKeys(s, p)))
  }

  /** What a caller may rely on: not the result of TTL, nor the count DEL gives. */
  function Observed<K>(op: Op<K>, reply: Reply<K>): Reply<K> {
    if op.OpTtl? || op.OpDel? then Done else reply
  }

  /** Something under the key has expired and is still there. */
  predicate StaleUnder<K>(s: Store<K>, k: K, now: int) {
    Stale(s.strings, k, now) || Stale(s.sets, k, now) || Stale(s.hashes, k, now)
  }

  predicate Allowed<K>(s: Store<K>, op: Op<K>, now: int) {
    op.OpExpire? ==> !StaleUnder(s, op.key, now)
  }

  predicate PositiveIn<K, T>(m: map<K, Timed<T>>) {
    forall k :: k in m && m[k].expiresAt.Some? ==> m[k].expiresAt.value > 0
  }

  /** No deadline is zero or before it: true of every deadline set after the epoch. */
  predicate Positive<K>(s: Store<K>) {
    PositiveIn(s.strings) && PositiveIn(s.sets) && PositiveIn(s.hashes)
  }

  // ---------------------------------------------------------------------------
  // One map at a time
  // ---------------------------------------------------------------------------

  lemma FreshPut<K, T>(m: map<K, Timed<T>>, k: K, e: Timed<T>, now: int)
    requires !Expired(e, now)
    ensures Fresh(m[k := e], now) == Fresh(m, now)[k := e]
  {
  }

  lemma FreshDrop<K, T>(m: map<K, Timed<T>>, k: K, now: int)
    ensures Fresh(DropStale(m, k, now), now) == Fresh(m, now)
  {
  }

  lemma FreshWithout<K, T>(m: map<K, Timed<T>>, ks: set<K>, now: int)
    ensures Fresh(m - ks, now) == Fresh(m, now) - ks
  {
  }

  lemma FreshUnswept<K, T>(m: map<K, Timed<T>>, now: int)
    requires PositiveIn(m)
    ensures Unswept(m, now) == Fresh(m, now) == Fresh(Unswept(m, now), now)
  {
  }

  lemma FreshTouch<K, T>(m: map<K, Timed<T>>, k: K, at: int, now: int)
    requires !Stale(m, k, now) && at >= now
    ensures Fresh(Touch(m, k, at), now) == Touch(Fresh(m, now), k, at)
  {
  }

  lemma FreshAgain<K, T>(m: map<K, Timed<T>>, before: int, now: int)
    requires before <= now
    ensures Fresh(Fresh(m, before), now) == Fresh(m, now)
  {
  }

  lemma PurgeAgain<K>(s: Store<K>, before: int, now: int)
    requires before <= now
    ensures Purge(Purge(s, before), now) == Purge(s, now)
  {
    FreshAgain(s.strings, before, now);
    FreshAgain(s.sets, before, now);
    FreshAgain(s.hashes, before, now);
  }

  lemma {:induction false} CountsAgree<K>(s: Store<K>, ks: seq<K>, now: int)
    ensures CountExists(s, ks, now) == CountHas(Purge(s, now), ks)
    decreases |ks|
  {
    if ks != [] {
      CountsAgree(s, ks[1..], now);
    }
  }

  // ---------------------------------------------------------------------------
  // One operation
  // ---------------------------------------------------------------------------

  lemma StringReadsPurged<K>(s: Store<K>, k: K, now: int)
    ensures Live(s.strings, k, now) <==> k in Fresh(s.strings, now)
    ensures Live(s.strings, k, now) ==> Fresh(s.strings, now)[k] == s.strings[k]
  {
  }

  lemma StringsAgree<K>(s: Store<K>, op: Op<K>, now: int)
    requires op.OpSet? || op.OpSetEx? || op.OpGet?
    ensures Purge(Lazy(s, op, now).0, now) == Plain(Purge(s, now), op, now).0
    ensures Lazy(s, op, now).1 == Plain(Purge(s, now), op, now).1
  {
    hide Fresh, DropStale;
    StringReadsPurged(s, op.key, now);
    match op {
      case OpSet(k, str, ex, px) => FreshPut(s.strings, k, Timed(str, Deadline(ex, px, now)), now);
      case OpSetEx(k, seconds, str) => FreshPut(s.strings, k, Timed(str, Some(now + seconds * 1000)), now);
      case OpGet(k) => FreshDrop(s.strings, k, now);
    }
  }

  lemma MembersArePurged<K>(s: Store<K>, k: K, now: int)
    ensures Members(s, k, now) == Entry(Fresh(s.sets, now), k, {}).value
  {
  }

  lemma SAddAgrees<K>(s: Store<K>, k: K, ms: set<string>, now: int)
    ensures var e := Entry(Fresh(s.sets, now), k, {});
      Fresh(SAdd(s, k, ms, now).sets, now) == Fresh(s.sets, now)[k := e.(value := e.value + ms)]
    ensures SAdd(s, k, ms, now) == s.(sets := SAdd(s, k, ms, now).sets)
  {
    var e := Entry(Fresh(s.sets, now), k, {});
    FreshPut(s.sets, k, e.(value := e.value + ms), now);
  }

  lemma SRemAgrees<K>(s: Store<K>, k: K, ms: set<string>, now: int)
    ensures var f := Fresh(s.sets, now);
      var e := Entry(f, k, {});
      var rest := e.value - ms;
      Fresh(SRem(s, k, ms, now).sets, now) == if k !in f || rest == {} then f - {k} else f[k := e.(value := rest)]
    ensures SRem(s, k, ms, now) == s.(sets := SRem(s, k, ms, now).sets)
  {
    var f := Fresh(s.sets, now);
    var e := Entry(f, k, {});
    if Live(s.sets, k, now) {
      FreshPut(s.sets, k, e.(value := e.value - ms), now);
      FreshWithout(s.sets, {k}, now);
    } else {
      assert f - {k} == f;
    }
  }

  lemma SetsAgree<K>(s: Store<K>, op: Op<K>, now: int)
    requires op.OpSAdd? || op.OpSRem? || op.OpSMembers? || op.OpSCard? || op.OpSIsMember?
    ensures Purge(Lazy(s, op, now).0, now) == Plain(Purge(s, now), op, now).0
    ensures Lazy(s, op, now).1 == Plain(Purge(s, now), op, now).1
  {
    hide Members, Fresh, Entry, AsSet, Live, DropStale, SAdd, SRem;
    var k := op.key;
    MembersArePurged(s, k, now);
    match op {
      case OpSAdd(_, ms) =>
        SAddAgrees(s, k, AsSet(ms), now);
      case OpSRem(_, ms) =>
        SRemAgrees(s, k, AsSet(ms), now);
      case OpSMembers(_) => FreshDrop(s.sets, k, now);
      case OpSCard(_) => FreshDrop(s.sets, k, now);
      case OpSIsMember(_, _) => FreshDrop(s.sets, k, now);
    }
  }

  lemma FieldsArePurged<K>(s: Store<K>, k: K, now: int)
    ensures RedisValues.Fields(s, k, now) == Entry(Fresh(s.hashes, now), k, map[]).value
  {
  }

  lemma HSetAgrees<K>(s: Store<K>, k: K, fs: map<string, string>, now: int)
    ensures var e := Entry(Fresh(s.hashes, now), k, map[]);
      Fresh(HSet(s, k, fs, now).hashes, now) == Fresh(s.hashes, now)[k := e.(value := e.value + fs)]
    ensures HSet(s, k, fs, now) == s.(hashes := HSet(s, k, fs, now).hashes)
  {
    var e := Entry(Fresh(s.hashes, now), k, map[]);
    FreshPut(s.hashes, k, e.(value := e.value + fs), now);
  }

  lemma HDelAgrees<K>(s: Store<K>, k: K, names: set<string>, now: int)
    ensures var f := Fresh(s.hashes, now);
      var e := Entry(f, k, map[]);
      Fresh(HDel(s, k, names, now).hashes, now) == if k in f then f[k := e.(value := e.value - names)] else f
    ensures HDel(s, k, names, now) == s.(hashes := HDel(s, k, names, now).hashes)
  {
    var e := Entry(Fresh(s.hashes, now), k, map[]);
    if Live(s.hashes, k, now) {
      FreshPut(s.hashes, k, e.(value := e.value - names), now);
    }
  }

  lemma HSetOpAgrees<K>(s: Store<K>, k: K, fs: map<string, string>, now: int)
    ensures Purge(Lazy(s, OpHSet(k, fs), now).0, now) == Plain(Purge(s, now), OpHSet(k, fs), now).0
    ensures Lazy(s, OpHSet(k, fs), now).1 == Plain(Purge(s, now), OpHSet(k, fs), now).1
  {
    hide RedisValues.Fields, Fresh, Entry, HSet;
    FieldsArePurged(s, k, now);
    HSetAgrees(s, k, fs, now);
  }

  lemma HDelOpAgrees<K>(s: Store<K>, k: K, names: seq<string>, now: int)
    ensures Purge(Lazy(s, OpHDel(k, names), now).0, now) == Plain(Purge(s, now), OpHDel(k, names), now).0
    ensures Lazy(s, OpHDel(k, names), now).1 == Plain(Purge(s, now), OpHDel(k, names), now).1
  {
    hide RedisValues.Fields, Fresh, Entry, AsSet, HDel;
    FieldsArePurged(s, k, now);
    HDelAgrees(s, k, AsSet(names), now);
  }

  lemma HashReadsAgree<K>(s: Store<K>, op: Op<K>, now: int)
    requires op.OpHGet? || op.OpHGetAll?
    ensures Purge(Lazy(s, op, now).0, now) == Plain(Purge(s, now), op, now).0
    ensures Lazy(s, op, now).1 == Plain(Purge(s, now), op, now).1
  {
    hide RedisValues.Fields, Fresh, Entry, FieldOf, DropStale;
    FieldsArePurged(s, op.key, now);
    FreshDrop(s.hashes, op.key, now);
  }

  lemma ExpireAgrees<K>(s: Store<K>, k: K, seconds: nat, now: int)
    requires !StaleUnder(s, k, now)
    ensures Purge(Expire(s, k, seconds, now), now) == Expire(Purge(s, now), k, seconds, now)
    ensures Has(s, k) == Has(Purge(s, now), k)
  {
    var at := now + seconds * 1000;
    FreshTouch(s.strings, k, at, now);
    FreshTouch(s.sets, k, at, now);
    FreshTouch(s.hashes, k, at, now);
  }

  /** One operation: the engine's reply is the purged store's, and so is what it leaves behind. */
  lemma LazyIsEager<K>(s: Store<K>, op: Op<K>, now: int)
    requires Positive(s) && Allowed(s, op, now)
    ensures Purge(Lazy(s, op, now).0, now) == Plain(Purge(s, now), op, now).0
    ensures Observed(op, Lazy(s, op, now).1) == Observed(op, Plain(Purge(s, now), op, now).1)
  {
    hide Lazy, Plain, Purge, Positive, Allowed;
    if op.OpSet? || op.OpSetEx? || op.OpGet? {
      StringsAgree(s, op, now);
    } else if op.OpSAdd? || op.OpSRem? || op.OpSMembers? || op.OpSCard? || op.OpSIsMember? {
      SetsAgree(s, op, now);
    } else if op.OpHSet? {
      HSetOpAgrees(s, op.key, op.fields, now);
    } else if op.OpHDel? {
      HDelOpAgrees(s, op.key, op.names, now);
    } else if op.OpHGet? || op.OpHGetAll? {
      HashReadsAgree(s, op, now);
    } else {
      OthersAgree(s, op, now);
    }
  }

  lemma OthersAgree<K>(s: Store<K>, op: Op<K>, now: int)
    requires Positive(s) && Allowed(s, op, now)
    requires op.OpDel? || op.OpExists? || op.OpExpire? || op.OpTtl? || op.OpKeys?
    ensures Purge(Lazy(s, op, now).0, now) == Plain(Purge(s, now), op, now).0
    ensures Observed(op, Lazy(s, op, now).1) == Observed(op, Plain(Purge(s, now), op, now).1)
  {
    match op {
      case OpDel(ks) =>
        FreshWithout(s.strings, AsSet(ks), now);
        FreshWithout(s.sets, AsSet(ks), now);
        FreshWithout(s.hashes, AsSet(ks), now);
      case OpExists(ks) => CountsAgree(s, ks, now);
      case OpExpire(k, seconds) => ExpireAgrees(s, k, seconds, now);
      case OpTtl(_) =>
      case OpKeys(_) =>
        FreshUnswept(s.strings, now);
        FreshUnswept(s.sets, now);
        FreshUnswept(s.hashes, now);
    }
  }

  /** EXPIRE is the one operation that can tell: it agrees exactly when nothing expired is left under its
      key, because it gives an expired entry its life back. */
  lemma ExpireAgreesIff<K>(s: Store<K>, k: K, seconds: nat, now: int)
    ensures Purge(Expire(s, k, seconds, now), now) == Expire(Purge(s, now), k, seconds, now)
       <==> !StaleUnder(s, k, now)
  {
    if StaleUnder(s, k, now) {
      var lazy, eager := Purge(Expire(s, k, seconds, now), now), Expire(Purge(s, now), k, seconds, now);
      if Stale(s.strings, k, now) {
        assert k in lazy.strings && k !in eager.strings;
      } else if Stale(s.sets, k, now) {
        assert k in lazy.sets && k !in eager.sets;
      } else {
        assert k in lazy.hashes && k !in eager.hashes;
      }
    } else {
      ExpireAgrees(s, k, seconds, now);
    }
  }

  // ---------------------------------------------------------------------------
  // Whole runs
  // ---------------------------------------------------------------------------

  datatype TimedOp<!K> = At(op: Op<K>, now: int)

  /** The clock never goes back, and is past the epoch. */
  ghost predicate Clocked<K>(ops: seq<TimedOp<K>>, from: int)
    decreases |ops|
  {
    ops == [] || (ops[0].now >= from && ops[0].now > 0 && Clocked(ops[1..], ops[0].now))
  }

  ghost predicate AllowedRun<K>(s: Store<K>, ops: seq<TimedOp<K>>)
    decreases |ops|
  {
    ops == [] ||
    (Allowed(s, ops[0].op, ops[0].now) && AllowedRun(Lazy(s, ops[0].op, ops[0].now).0, ops[1..]))
  }

  function LazyReplies<K>(s: Store<K>, ops: seq<TimedOp<K>>): seq<Reply<K>>
    decreases |ops|
  {
    if ops == [] then []
    else
      var r := Lazy(s, ops[0].op, ops[0].now);
      [Observed(ops[0].op, r.1)] + LazyReplies(r.0, ops[1..])
  }

  /** The same run on a store from which everything expired is thrown away before each operation. */
  function EagerReplies<K>(s: Store<K>, ops: seq<TimedOp<K>>): seq<Reply<K>>
    decreases |ops|
  {
    if ops == [] then []
    else
      var r := Plain(Purge(s, ops[0].now), ops[0].op, ops[0].now);
      [Observed(ops[0].op, r.1)] + EagerReplies(r.0, ops[1..])
  }

  /** Every deadline in the new map was in the old one, or is after now. */
  ghost predicate DeadlinesFrom<K, T>(m: map<K, Timed<T>>, was: map<K, Timed<T>>, now: int) {
    forall k :: k in m && m[k].expiresAt.Some? ==>
      m[k].expiresAt.value >= now || (k in was && was[k].expiresAt == m[k].expiresAt)
  }

  lemma DeadlinesPositive<K, T>(m: map<K, Timed<T>>, was: map<K, Timed<T>>, now: int)
    requires DeadlinesFrom(m, was, now) && PositiveIn(was) && now > 0
    ensures PositiveIn(m)
  {
  }

  lemma SetDeadlines<K>(s: Store<K>, k: K, ms: set<string>, now: int)
    ensures DeadlinesFrom(SAdd(s, k, ms, now).sets, s.sets, now)
    ensures DeadlinesFrom(SRem(s, k, ms, now).sets, s.sets, now)
    ensures DeadlinesFrom(SRead(s, k, now).sets, s.sets, now)
  {
  }

  lemma HashDeadlines<K>(s: Store<K>, k: K, fs: map<string, string>, names: set<string>, now: int)
    ensures DeadlinesFrom(HSet(s, k, fs, now).hashes, s.hashes, now)
    ensures DeadlinesFrom(HDel(s, k, names, now).hashes, s.hashes, now)
    ensures DeadlinesFrom(HReadAll(s, k, now).hashes, s.hashes, now)
  {
  }

  lemma FewerDeadlines<K, T>(m: map<K, Timed<T>>, ks: set<K>, now: int)
    ensures DeadlinesFrom(m, m, now) && DeadlinesFrom(m - ks, m, now) && DeadlinesFrom(Unswept(m, now), m, now)
  {
  }

  lemma TouchDeadlines<K, T>(m: map<K, Timed<T>>, k: K, at: int, now: int)
    requires at >= now
    ensures DeadlinesFrom(Touch(m, k, at), m, now)
  {
  }

  lemma PutDeadlines<K, T>(m: map<K, Timed<T>>, k: K, e: Timed<T>, now: int)
    requires e.expiresAt.Some? ==> e.expiresAt.value >= now
    ensures DeadlinesFrom(m[k := e], m, now)
  {
  }

  lemma SetOpDeadlines<K>(s: Store<K>, op: Op<K>, now: int)
    requires op.OpSAdd? || op.OpSRem? || op.OpSMembers? || op.OpSCard? || op.OpSIsMember?
    ensures DeadlinesFrom(Lazy(s, op, now).0.strings, s.strings, now)
    ensures DeadlinesFrom(Lazy(s, op, now).0.sets, s.sets, now)
    ensures DeadlinesFrom(Lazy(s, op, now).0.hashes, s.hashes, now)
  {
    hide Members, AsSet, DeadlinesFrom, Added, Taken;
    FewerDeadlines(s.strings, {}, now);
    FewerDeadlines(s.hashes, {}, now);
    SetDeadlines(s, op.key, if op.OpSAdd? || op.OpSRem? then AsSet(op.members) else {}, now);
  }

  lemma HashOpDeadlines<K>(s: Store<K>, op: Op<K>, now: int)
    requires op.OpHSet? || op.OpHGet? || op.OpHGetAll? || op.OpHDel?
    ensures DeadlinesFrom(Lazy(s, op, now).0.strings, s.strings, now)
    ensures DeadlinesFrom(Lazy(s, op, now).0.sets, s.sets, now)
    ensures DeadlinesFrom(Lazy(s, op, now).0.hashes, s.hashes, now)
  {
    hide RedisValues.Fields, AsSet, DeadlinesFrom, Added, Taken, FieldOf;
    FewerDeadlines(s.strings, {}, now);
    FewerDeadlines(s.sets, {}, now);
    FewerDeadlines(s.hashes, {}, now);
    var names := if op.OpHDel? then AsSet(op.names) else {};
    HashDeadlines(s, op.key, if op.OpHSet? then op.fields else map[], names, now);
  }

  lemma StringDeadlines<K>(s: Store<K>, op: Op<K>, now: int)
    requires op.OpSet? || op.OpSetEx? || op.OpGet?
    ensures DeadlinesFrom(Lazy(s, op, now).0.strings, s.strings, now)
    ensures DeadlinesFrom(Lazy(s, op, now).0.sets, s.sets, now)
    ensures DeadlinesFrom(Lazy(s, op, now).0.hashes, s.hashes, now)
  {
    hide DeadlinesFrom;
    FewerDeadlines(s.sets, {}, now);
    FewerDeadlines(s.hashes, {}, now);
    match op {
      case OpSet(k, str, ex, px) => PutDeadlines(s.strings, k, Timed(str, Deadline(ex, px, now)), now);
      case OpSetEx(k, seconds, str) => PutDeadlines(s.strings, k, Timed(str, Some(now + seconds * 1000)), now);
      case OpGet(k) => FewerDeadlines(s.strings, {k}, now);
    }
  }

  lemma ManyDeadlines<K>(s: Store<K>, op: Op<K>, now: int)
    requires op.OpDel? || op.OpExists? || op.OpTtl? || op.OpKeys?
    ensures DeadlinesFrom(Lazy(s, op, now).0.strings, s.strings, now)
    ensures DeadlinesFrom(Lazy(s, op, now).0.sets, s.sets, now)
    ensures DeadlinesFrom(Lazy(s, op, now).0.hashes, s.hashes, now)
  {
    hide DeadlinesFrom, AsSet, CountExists, Ttl, Removed, Matching, Unswept;
    var ks := if op.OpDel? then AsSet(op.keys) else {};
    FewerDeadlines(s.strings, ks, now);
    FewerDeadlines(s.sets, ks, now);
    FewerDeadlines(s.hashes, ks, now);
  }

  lemma ExpireDeadlines<K>(s: Store<K>, k: K, seconds: nat, now: int)
    ensures DeadlinesFrom(Expire(s, k, seconds, now).strings, s.strings, now)
    ensures DeadlinesFrom(Expire(s, k, seconds, now).sets, s.sets, now)
    ensures DeadlinesFrom(Expire(s, k, seconds, now).hashes, s.hashes, now)
  {
    hide DeadlinesFrom, Touch;
    TouchDeadlines(s.strings, k, now + seconds * 1000, now);
    TouchDeadlines(s.sets, k, now + seconds * 1000, now);
    TouchDeadlines(s.hashes, k, now + seconds * 1000, now);
  }

  lemma LazyExpire<K>(s: Store<K>, op: Op<K>, now: int)
    requires op.OpExpire?
    ensures Lazy(s, op, now).0 == Expire(s, op.key, op.seconds, now)
  {
  }

  lemma LazyDeadlines<K>(s: Store<K>, op: Op<K>, now: int)
    ensures DeadlinesFrom(Lazy(s, op, now).0.strings, s.strings, now)
    ensures DeadlinesFrom(Lazy(s, op, now).0.sets, s.sets, now)
    ensures DeadlinesFrom(Lazy(s, op, now).0.hashes, s.hashes, now)
  {
    hide DeadlinesFrom, Lazy, Expire;
    if op.OpSet? || op.OpSetEx? || op.OpGet? {
      StringDeadlines(s, op, now);
    } else if op.OpDel? || op.OpExists? || op.OpTtl? || op.OpKeys? {
      ManyDeadlines(s, op, now);
    } else if op.OpExpire? {
      LazyExpire(s, op, now);
      ExpireDeadlines(s, op.key, op.seconds, now);
    } else if op.OpHSet? || op.OpHGet? || op.OpHGetAll? || op.OpHDel? {
      HashOpDeadlines(s, op, now);
    } else {
      SetOpDeadlines(s, op, now);
    }
  }

  lemma StaysPositive<K>(s: Store<K>, op: Op<K>, now: int)
    requires Positive(s) && now > 0
    ensures Positive(Lazy(s, op, now).0)
  {
    hide Lazy, DeadlinesFrom, PositiveIn;
    LazyDeadlines(s, op, now);
    var t := Lazy(s, op, now).0;
    DeadlinesPositive(t.strings, s.strings, now);
    DeadlinesPositive(t.sets, s.sets, now);
    DeadlinesPositive(t.hashes, s.hashes, now);
  }

  lemma {:induction false} RunsAgree<K>(s: Store<K>, e: Store<K>, ops: seq<TimedOp<K>>, from: int)
    requires Purge(s, from) == Purge(e, from) && Positive(s)
    requires Clocked(ops, from) && AllowedRun(s, ops)
    ensures LazyReplies(s, ops) == EagerReplies(e, ops)
    decreases |ops|
  {
    hide Lazy, Plain, Observed, Purge, Positive, Allowed;
    if ops != [] {
      var op, now := ops[0].op, ops[0].now;
      PurgeAgain(s, from, now);
      PurgeAgain(e, from, now);
      LazyIsEager(s, op, now);
      StaysPositive(s, op, now);
      var s', e' := Lazy(s, op, now).0, Plain(Purge(e, now), op, now).0;
      PurgeAgain(s', now, now);
      RunsAgree(s', e', ops[1..], now);
    }
  }

  /** MAIN: for every timed run, from an empty store, in which EXPIRE is used only on keys under which nothing
      expired is left, the engine gives the replies of a store that is purged at once. */
  lemma LazyExpiryIsTransparent<K>(ops: seq<TimedOp<K>>, from: int)
    requires Clocked(ops, from) && AllowedRun(Store(map[], map[], map[]), ops)
    ensures LazyReplies(Store(map[], map[], map[]), ops) == EagerReplies(Store(map[], map[], map[]), ops)
  {
    RunsAgree(Store(map[], map[], map[]), Store(map[], map[], map[]), ops, from);
  }
}
