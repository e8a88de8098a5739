/** What a client of the Redis engine relies on: it reads back what was written for as long as it lives, one key
    never touches another, and every count is of what really changed. */
module RedisLaws {
  import opened Sequences
  import opened RedisValues

  function After<K>(s: Store<K>, op: Op<K>, now: int): Store<K> {
    Lazy(s, op, now).0
  }

  function Answer<K>(s: Store<K>, op: Op<K>, now: int): Reply<K> {
    Lazy(s, op, now).1
  }

  /** When an entry is over: after its deadline, not at it. */
  predicate Over<T>(e: Timed<T>, now: int) {
    e.expiresAt != None && now > e.expiresAt.value
  }

  predicate Alive<K>(s: Store<K>, k: K, now: int) {
    || (k in s.strings && !Over(s.strings[k], now))
    || (k in s.sets && !Over(s.sets[k], now))
    || (k in s.hashes && !Over(s.hashes[k], now))
  }

  // ---------------------------------------------------------------------------
  // Strings
  // ---------------------------------------------------------------------------

  /** A string written with seconds, with milliseconds or with neither is read until that time is over. */
  predicate StillThere(ex: nat, px: nat, now: int, later: int) {
    if ex > 0 then later <= now + 1000 * ex else px > 0 ==> later <= now + px
  }

  /** MAIN: a string is read back as it was written until its time is over; other keys read as before. */
  lemma GetAfterSet<K>(s: Store<K>, k: K, str: string, ex: nat, px: nat, now: int, j: K, later: int)
    ensures Answer(After(s, OpSet(k, str, ex, px), now), OpGet(j), later) ==
      if j == k then Text(if StillThere(ex, px, now, later) then Some(str) else None) else Answer(s, OpGet(j), later)
    ensures Answer(After(s, OpSetEx(k, ex, str), now), OpGet(j), later) ==
      if j == k then Text(if later <= now + 1000 * ex then Some(str) else None) else Answer(s, OpGet(j), later)
  {
  }

  // ---------------------------------------------------------------------------
  // Sets
  // ---------------------------------------------------------------------------

  lemma CountsMean<T>(was: set<T>, more: set<T>)
    ensures Added(was, more) == |more - was| && Taken(was, more) == |more * was|
  {
    assert was + more == was + (more - was);
    assert was == (was - more) + (more * was);
  }

  lemma MembersAfter<K>(s: Store<K>, k: K, ms: set<string>, now: int, j: K)
    ensures Members(SAdd(s, k, ms, now), j, now) == if j == k then Members(s, k, now) + ms else Members(s, j, now)
    ensures Members(SRem(s, k, ms, now), j, now) == if j == k then Members(s, k, now) - ms else Members(s, j, now)
  {
  }

  /** MAIN: a set has what was put into it and not what was taken out since, other sets are as before, and the count
      is of the members that were new or were there. */
  lemma SetsReadBack<K>(s: Store<K>, k: K, ms: seq<string>, now: int, j: K)
    ensures var was, added, taken := Members(s, j, now), After(s, OpSAdd(k, ms), now), After(s, OpSRem(k, ms), now);
      && Answer(added, OpSMembers(j), now) == SetOf(if j == k then was + AsSet(ms) else was)
      && Answer(taken, OpSMembers(j), now) == SetOf(if j == k then was - AsSet(ms) else was)
      && Answer(s, OpSAdd(j, ms), now) == Number(|AsSet(ms) - was|)
      && Answer(s, OpSRem(j, ms), now) == Number(|AsSet(ms) * was|)
  {
    hide Members, SAdd, SRem, Added, Taken, AsSet;
    CountsMean(Members(s, j, now), AsSet(ms));
    MembersAfter(s, k, AsSet(ms), now, j);
  }

  /** MAIN: the three ways to read a set agree. */
  lemma SetReadsAgree<K>(s: Store<K>, k: K, m: string, now: int)
    ensures Answer(s, OpSMembers(k), now).SetOf?
    ensures var members := Answer(s, OpSMembers(k), now).members;
      && Answer(s, OpSCard(k), now) == Number(|members|)
      && Answer(s, OpSIsMember(k, m), now) == Bool(m in members)
  {
  }

  // ---------------------------------------------------------------------------
  // Hashes
  // ---------------------------------------------------------------------------

  lemma FieldsAfter<K>(s: Store<K>, k: K, fields: map<string, string>, names: set<string>, now: int, j: K)
    ensures RedisValues.Fields(HSet(s, k, fields, now), j, now) ==
      if j == k then RedisValues.Fields(s, k, now) + fields else RedisValues.Fields(s, j, now)
    ensures RedisValues.Fields(HDel(s, k, names, now), j, now) ==
      if j == k then RedisValues.Fields(s, k, now) - names else RedisValues.Fields(s, j, now)
  {
  }

  /** A hash is read whole, or field by field, where an empty field reads as none. */
  lemma HashReadsAgree<K>(s: Store<K>, k: K, f: string, now: int)
    ensures Answer(s, OpHGetAll(k), now).HashOf?
    ensures var hash := Answer(s, OpHGetAll(k), now).fields;
      Answer(s, OpHGet(k, f), now) == Text(if f in hash && |hash[f]| > 0 then Some(hash[f]) else None)
  {
    hide RedisValues.Fields;
  }

  /** MAIN: a hash has the fields written to it, the last write of each, without those taken out; other hashes are
      as before; and the counts are of fields new and fields there. */
  lemma HashesReadBack<K>(s: Store<K>, k: K, fields: map<string, string>, names: seq<string>, now: int, j: K)
    ensures Answer(s, OpHGetAll(j), now).HashOf?
    ensures var was := Answer(s, OpHGetAll(j), now).fields;
      && Answer(After(s, OpHSet(k, fields), now), OpHGetAll(j), now) == HashOf(if j == k then was + fields else was)
      && Answer(After(s, OpHDel(k, names), now), OpHGetAll(j), now) == HashOf(if j == k then was - AsSet(names) else was)
      && Answer(s, OpHSet(j, fields), now) == Number(|fields.Keys - was.Keys|)
      && Answer(s, OpHDel(j, names), now) == Number(|AsSet(names) * was.Keys|)
  {
    hide RedisValues.Fields, HSet, HDel, Added, Taken, AsSet, After, Answer;
    var was := RedisValues.Fields(s, j, now);
    AnswersFields(s, j, now);
    AnswersFields(HSet(s, k, fields, now), j, now);
    AnswersFields(HDel(s, k, AsSet(names), now), j, now);
    CountsMean(was.Keys, fields.Keys);
    CountsMean(was.Keys, AsSet(names));
    FieldsAfter(s, k, fields, AsSet(names), now, j);
    HashAnswers(s, j, fields, names, now);
    HashAnswers(s, k, fields, names, now);
  }

  lemma AnswersFields<K>(s: Store<K>, k: K, now: int)
    ensures Answer(s, OpHGetAll(k), now) == HashOf(RedisValues.Fields(s, k, now))
  {
  }

  lemma HashAnswers<K>(s: Store<K>, k: K, fields: map<string, string>, names: seq<string>, now: int)
    ensures After(s, OpHSet(k, fields), now) == HSet(s, k, fields, now)
    ensures After(s, OpHDel(k, names), now) == HDel(s, k, AsSet(names), now)
    ensures Answer(s, OpHSet(k, fields), now) == Number(Added(RedisValues.Fields(s, k, now).Keys, fields.Keys))
    ensures Answer(s, OpHDel(k, names), now) == Number(Taken(RedisValues.Fields(s, k, now).Keys, AsSet(names)))
  {
    hide RedisValues.Fields, HSet, HDel, Added, Taken, AsSet;
  }

  lemma AddedMembersLater<K>(s: Store<K>, k: K, ms: set<string>, now: int, later: int)
    ensures Members(SAdd(s, k, ms, now), k, later) ==
      if k !in s.sets || Over(s.sets[k], now) then ms
      else if Over(s.sets[k], later) then {} else s.sets[k].value + ms
  {
    assert {} + ms == ms;
  }

  lemma WrittenFieldsLater<K>(s: Store<K>, k: K, fields: map<string, string>, now: int, later: int)
    ensures RedisValues.Fields(HSet(s, k, fields, now), k, later) ==
      if k !in s.hashes || Over(s.hashes[k], now) then fields
      else if Over(s.hashes[k], later) then map[] else s.hashes[k].value + fields
  {
    assert map[] + fields == fields;
  }

  /** MAIN: writing into a set or hash leaves it the time it has; one that is over starts anew, without a deadline. */
  lemma WritesKeepTime<K>(s: Store<K>, k: K, ms: seq<string>, fields: map<string, string>, now: int, later: int)
    ensures Answer(After(s, OpSAdd(k, ms), now), OpSMembers(k), later) == SetOf(
      if k !in s.sets || Over(s.sets[k], now) then AsSet(ms)
      else if Over(s.sets[k], later) then {} else s.sets[k].value + AsSet(ms))
    ensures Answer(After(s, OpHSet(k, fields), now), OpHGetAll(k), later) == HashOf(
      if k !in s.hashes || Over(s.hashes[k], now) then fields
      else if Over(s.hashes[k], later) then map[] else s.hashes[k].value + fields)
  {
    hide AsSet, Added, Members, RedisValues.Fields, SAdd, HSet, Over;
    AddedMembersLater(s, k, AsSet(ms), now, later);
    WrittenFieldsLater(s, k, fields, now, later);
  }

  lemma NothingLeft<T>(a: set<T>, b: set<T>)
    ensures a - b == {} <==> a <= b
  {
    if a - b == {} {
      forall x | x in a ensures x in b {
        assert x !in a - b;
      }
    }
  }

  /** A set that loses its last member is gone; a hash that loses its last field is still there. */
  lemma EmptiedCollections<K>(s: Store<K>, k: K, ms: seq<string>, now: int)
    ensures Answer(s, OpSMembers(k), now).SetOf? && Answer(s, OpHGetAll(k), now).HashOf?
    ensures var members, fields := Answer(s, OpSMembers(k), now).members, Answer(s, OpHGetAll(k), now).fields;
      && (members != {} ==> (k in After(s, OpSRem(k, ms), now).sets <==> !(members <= AsSet(ms))))
      && (fields != map[] ==> k in After(s, OpHDel(k, ms), now).hashes)
  {
    hide AsSet, Taken;
    var members := Members(s, k, now);
    NothingLeft(members, AsSet(ms));
  }

  // ---------------------------------------------------------------------------
  // Keys of every kind
  // ---------------------------------------------------------------------------

  /** MAIN: EXISTS counts the keys under which something is alive, a key given twice twice. */
  lemma {:induction false} ExistsCounts<K>(s: Store<K>, ks: seq<K>, now: int)
    ensures Answer(s, OpExists(ks), now) == Number(Count(ks, k => Alive(s, k, now)))
    decreases |ks|
  {
    if ks != [] {
      ExistsCounts(s, ks[1..], now);
    }
  }

  lemma DelCounts<K>(s: Store<K>, ks: set<K>)
    ensures var t := Del(s, ks);
      Removed(s, ks) == |s.strings| - |t.strings| + |s.sets| - |t.sets| + |s.hashes| - |t.hashes|
  {
    Shrinks(s.strings, ks);
    Shrinks(s.sets, ks);
    Shrinks(s.hashes, ks);
  }

  lemma DelReads<K>(s: Store<K>, ks: set<K>, now: int, j: K)
    ensures j in ks ==> !Alive(Del(s, ks), j, now) && !Has(Del(s, ks), j)
    ensures j !in ks ==>
      && String(Del(s, ks), j, now) == String(s, j, now) && Members(Del(s, ks), j, now) == Members(s, j, now)
      && RedisValues.Fields(Del(s, ks), j, now) == RedisValues.Fields(s, j, now)
  {
  }

  /** MAIN: after a DEL nothing is left under its keys and everything under the others is; it counts an entry for
      each kind a key had. */
  lemma DelForgets<K>(s: Store<K>, ks: seq<K>, now: int, j: K)
    ensures var t := After(s, OpDel(ks), now);
      && (j in ks ==> !Alive(t, j, now) && !Has(t, j))
      && (j !in ks ==>
            && Answer(t, OpGet(j), now) == Answer(s, OpGet(j), now)
            && Answer(t, OpSMembers(j), now) == Answer(s, OpSMembers(j), now)
            && Answer(t, OpHGetAll(j), now) == Answer(s, OpHGetAll(j), now))
      && Answer(s, OpDel(ks), now) ==
           Number(|s.strings| - |t.strings| + |s.sets| - |t.sets| + |s.hashes| - |t.hashes|)
  {
    hide Del, Removed, Alive, Has, String, Members, RedisValues.Fields;
    DelCounts(s, AsSet(ks));
    DelReads(s, AsSet(ks), now, j);
  }

  lemma Shrinks<K, T>(m: map<K, T>, ks: set<K>)
    ensures |m - ks| == |m| - |m.Keys * ks|
  {
    assert (m - ks).Keys == m.Keys - ks;
    assert m.Keys == (m.Keys - ks) + (m.Keys * ks);
    assert |m| == |m.Keys| && |m - ks| == |(m - ks).Keys|;
  }

  /** MAIN: EXPIRE gives everything under its key the same time to live, and reports whether there is anything. */
  lemma ExpireMeans<K>(s: Store<K>, k: K, seconds: nat, now: int, j: K, later: int)
    ensures var t := After(s, OpExpire(k, seconds), now);
      && Answer(s, OpExpire(k, seconds), now) == Bool(k in s.strings || k in s.sets || k in s.hashes)
      && (j != k ==> (Alive(t, j, later) <==> Alive(s, j, later)))
      && (Alive(t, k, later) <==> (k in s.strings || k in s.sets || k in s.hashes) && later <= now + 1000 * seconds)
      && (k in s.strings ==>
            Answer(t, OpGet(k), later) == Text(if later <= now + 1000 * seconds then Some(s.strings[k].value) else None))
  {
  }

  /** MAIN: TTL of a key with one kind of entry is its remaining time in seconds, rounded up; -1 says it has no
      deadline or no entry, -2 that its time is over. */
  lemma TtlMeans<K>(s: Store<K>, k: K, now: int)
    ensures Answer(s, OpTtl(k), now).Number?
    ensures var n := Answer(s, OpTtl(k), now).n;
      && (!Has(s, k) ==> n == -1)
      && (k in s.hashes ==> TtlIs(s.hashes[k].expiresAt, n, now))
      && (k in s.sets && k !in s.hashes ==> TtlIs(s.sets[k].expiresAt, n, now))
      && (k in s.strings && k !in s.sets && k !in s.hashes ==> TtlIs(s.strings[k].expiresAt, n, now))
  {
  }

  predicate TtlIs(deadline: Option<int>, n: int, now: int) {
    match deadline
    case None => n == -1
    case Some(at) => if at <= now then n == -2 else n > 0 && 1000 * (n - 1) < at - now <= 1000 * n
  }

  ghost predicate AfterEpoch<K>(s: Store<K>) {
    && (forall k :: k in s.strings && s.strings[k].expiresAt.Some? ==> s.strings[k].expiresAt.value > 0)
    && (forall k :: k in s.sets && s.sets[k].expiresAt.Some? ==> s.sets[k].expiresAt.value > 0)
    && (forall k :: k in s.hashes && s.hashes[k].expiresAt.Some? ==> s.hashes[k].expiresAt.value > 0)
  }

  /** A read removes what it finds to be over, and nothing else. */
  lemma ReadsRemoveWhatIsOver<K>(s: Store<K>, k: K, now: int, j: K)
    ensures j in After(s, OpGet(k), now).strings <==> j in s.strings && !(j == k && Over(s.strings[j], now))
    ensures j in After(s, OpSMembers(k), now).sets <==> j in s.sets && !(j == k && Over(s.sets[j], now))
    ensures j in After(s, OpHGetAll(k), now).hashes <==> j in s.hashes && !(j == k && Over(s.hashes[j], now))
    ensures After(s, OpGet(k), now).sets == s.sets && After(s, OpGet(k), now).hashes == s.hashes
    ensures After(s, OpSCard(k), now) == After(s, OpSIsMember(k, ""), now) == After(s, OpSMembers(k), now)
  {
  }

  /** KEYS takes a deadline of zero for none. */
  predicate InKeys<T>(e: Timed<T>, now: int) {
    !Over(e, now) || e.expiresAt == Some(0)
  }

  /** MAIN: KEYS gives exactly the keys that match and have an entry that is not over or whose deadline is zero; when
      none is zero, those that have something alive. */
  lemma KeysMeans<K>(s: Store<K>, pattern: K -> bool, now: int, k: K)
    ensures Answer(s, OpKeys(pattern), now).KeySet?
    ensures k in Answer(s, OpKeys(pattern), now).keys <==>
      pattern(k) && ((k in s.strings && InKeys(s.strings[k], now)) || (k in s.sets && InKeys(s.sets[k], now))
                     || (k in s.hashes && InKeys(s.hashes[k], now)))
    ensures AfterEpoch(s) ==> (k in Answer(s, OpKeys(pattern), now).keys <==> pattern(k) && Alive(s, k, now))
  {
  }
}
