/** The in-memory Redis engine itself. Every method takes the time at which it is called. */
module RedisStore {
  import opened Sequences
  import opened RedisValues

  /** The loops over the arguments of SADD, SREM, HSET and HDEL. */
  method AddMembers(entry: set<string>, members: seq<string>) returns (all: set<string>, added: int)
    ensures all == entry + AsSet(members) && added == Added(entry, AsSet(members))
  {
    all := entry;
    added := 0;
    for i := 0 to |members|
      invariant all == entry + AsSet(members[..i]) && added == |all| - |entry|
    {
      AsSetSnoc(members, i);
      if members[i] !in all {
        all := all + {members[i]};
        added := added + 1;
      }
    }
    assert members[..|members|] == members;
  }

  method DeleteMembers(entry: set<string>, members: seq<string>) returns (rest: set<string>, removed: int)
    ensures rest == entry - AsSet(members) && removed == Taken(entry, AsSet(members))
  {
    rest := entry;
    removed := 0;
    for i := 0 to |members|
      invariant rest == entry - AsSet(members[..i]) && removed == |entry| - |rest|
    {
      AsSetSnoc(members, i);
      if members[i] in rest {
        rest := rest - {members[i]};
        removed := removed + 1;
      }
    }
    assert members[..|members|] == members;
  }

  method PutFields(entry: map<string, string>, fields: map<string, string>)
    returns (hash: map<string, string>, added: int)
    ensures hash == entry + fields && added == Added(entry.Keys, fields.Keys)
  {
    hide Added;
    hash := entry;
    added := 0;
    ghost var done: map<string, string> := map[];
    var names := fields.Keys;
    NothingAdded(entry.Keys);
    assert done.Keys == {};
    while names != {}
      invariant names <= fields.Keys && done == fields - names
      invariant hash == entry + done && added == Added(entry.Keys, done.Keys)
      decreases names
    {
      var f :| f in names;
      MergeOne(entry, fields, names, f);
      AddedOne(entry.Keys, done.Keys, f);
      if f !in hash {
        added := added + 1;
      }
      hash := hash[f := fields[f]];
      done := done[f := fields[f]];
      names := names - {f};
    }
    assert fields - {} == fields;
  }

  method DeleteFields(entry: map<string, string>, names: seq<string>) returns (hash: map<string, string>, removed: int)
    ensures hash == entry - AsSet(names) && removed == Taken(entry.Keys, AsSet(names))
  {
    hide Taken, AsSet;
    hash := entry;
    removed := 0;
    AsSetEmpty(names);
    NothingTaken(entry.Keys);
    for i := 0 to |names|
      invariant hash == entry - AsSet(names[..i]) && removed == Taken(entry.Keys, AsSet(names[..i]))
    {
      AsSetSnoc(names, i);
      WithoutOne(entry, AsSet(names[..i]), names[i]);
      TakenOne(entry.Keys, AsSet(names[..i]), names[i]);
      if names[i] in hash {
        hash := hash - {names[i]};
        removed := removed + 1;
      }
    }
    assert names[..|names|] == names;
  }

  /** `Map.delete`: what is left, and whether there was anything to delete. */
  method DeleteKey<K(==), T>(m: map<K, T>, k: K) returns (rest: map<K, T>, n: int)
    ensures rest == m - {k} && n == |m.Keys * {k}|
  {
    WithoutSingle(m, k);
    rest := m - {k};
    n := if k in m then 1 else 0;
  }

  class MemoryRedisStore<K(==)> {
    var stringStore: map<K, Timed<string>>
    var setStore: map<K, Timed<set<string>>>
    var hashStore: map<K, Timed<map<string, string>>>

    ghost function Contents(): Store<K>
      reads this
    {
      Store(stringStore, setStore, hashStore)
    }

    constructor ()
      ensures Contents() == Store(map[], map[], map[])
    {
      stringStore := map[];
      setStore := map[];
      hashStore := map[];
    }

    method Set(key: K, value: string, ex: nat, px: nat, now: int)
      modifies this
      ensures Contents() == SetString(old(Contents()), key, value, Deadline(ex, px, now))
    {
      var expiresAt := None;
      if ex != 0 {
        expiresAt := Some(now + ex * 1000);
      } else if px != 0 {
        expiresAt := Some(now + px);
      }
      stringStore := stringStore[key := Timed(value, expiresAt)];
    }

    method SetEx(key: K, seconds: nat, value: string, now: int)
      modifies this
      ensures Contents() == SetString(old(Contents()), key, value, Some(now + seconds * 1000))
    {
      stringStore := stringStore[key := Timed(value, Some(now + seconds * 1000))];
    }

    method Get(key: K, now: int) returns (value: Option<string>)
      modifies this
      ensures Contents() == ReadString(old(Contents()), key, now) && value == String(old(Contents()), key, now)
    {
      if key !in stringStore {
        return None;
      }
      var item := stringStore[key];
      if Expired(item, now) {
        stringStore := stringStore - {key};
        return None;
      }
      return Some(item.value);
    }

    method Del(keys: seq<K>) returns (deletedCount: int)
      modifies this
      ensures Contents() == RedisValues.Del(old(Contents()), AsSet(keys))
      ensures deletedCount == Removed(old(Contents()), AsSet(keys))
    {
      hide AsSet, RedisValues.Del, Removed;
      deletedCount := 0;
      AsSetEmpty(keys);
      DelNothing(Contents());
      for i := 0 to |keys|
        invariant Contents() == RedisValues.Del(old(Contents()), AsSet(keys[..i]))
        invariant deletedCount == Removed(old(Contents()), AsSet(keys[..i]))
      {
        AsSetSnoc(keys, i);
        DelOneMore(old(Contents()), AsSet(keys[..i]), keys[i]);
        var n := DelOne(keys[i]);
        deletedCount := deletedCount + n;
      }
      assert keys[..|keys|] == keys;
    }

    method DelOne(k: K) returns (n: int)
      modifies this
      ensures Contents() == RedisValues.Del(old(Contents()), {k}) && n == Removed(old(Contents()), {k})
    {
      var n0, n1, n2;
      stringStore, n0 := DeleteKey(stringStore, k);
      setStore, n1 := DeleteKey(setStore, k);
      hashStore, n2 := DeleteKey(hashStore, k);
      n := n0 + n1 + n2;
    }

    method Exists(keys: seq<K>, now: int) returns (count: int)
      ensures count == CountExists(Contents(), keys, now)
    {
      count := 0;
      assert keys[0..] == keys;
      for i := 0 to |keys|
        invariant count + CountExists(Contents(), keys[i..], now) == CountExists(Contents(), keys, now)
      {
        assert keys[i..][0] == keys[i] && keys[i..][1..] == keys[i + 1..];
        var k := keys[i];
        if k in stringStore && !Expired(stringStore[k], now) {
          count := count + 1;
          continue;
        }
        if k in setStore && !Expired(setStore[k], now) {
          count := count + 1;
          continue;
        }
        if k in hashStore && !Expired(hashStore[k], now) {
          count := count + 1;
        }
      }
    }

    method Expire(key: K, seconds: nat, now: int) returns (found: bool)
      modifies this
      ensures Contents() == RedisValues.Expire(old(Contents()), key, seconds, now)
      ensures found == Has(old(Contents()), key)
    {
      var expiresAt := Some(now + seconds * 1000);
      found := false;
      if key in stringStore {
        stringStore := stringStore[key := stringStore[key].(expiresAt := expiresAt)];
        found := true;
      }
      if key in setStore {
        setStore := setStore[key := setStore[key].(expiresAt := expiresAt)];
        found := true;
      }
      if key in hashStore {
        hashStore := hashStore[key := hashStore[key].(expiresAt := expiresAt)];
        found := true;
      }
    }

    method Ttl(key: K, now: int) returns (seconds: int)
      ensures seconds == RedisValues.Ttl(Contents(), key, now)
    {
      var expiresAt: Option<int> := None;
      if key in stringStore {
        expiresAt := stringStore[key].expiresAt;
      }
      if key in setStore {
        expiresAt := setStore[key].expiresAt;
      }
      if key in hashStore {
        expiresAt := hashStore[key].expiresAt;
      }
      match expiresAt {
        case None => return -1;
        case Some(at) =>
          var remaining := CeilSeconds(at - now);
          return if remaining > 0 then remaining else -2;
      }
    }

    method SAdd(key: K, members: seq<string>, now: int) returns (added: int)
      modifies this
      ensures Contents() == RedisValues.SAdd(old(Contents()), key, AsSet(members), now)
      ensures added == Added(Members(old(Contents()), key, now), AsSet(members))
    {
      hide AsSet, Added;
      if key !in setStore || Expired(setStore[key], now) {
        setStore := setStore[key := Timed({}, None)];
      }
      var entry := setStore[key];
      var all, n := AddMembers(entry.value, members);
      added := n;
      setStore := setStore[key := entry.(value := all)];
      assert setStore == old(setStore)[key := entry.(value := all)];
    }

    method SRem(key: K, members: seq<string>, now: int) returns (removed: int)
      modifies this
      ensures Contents() == RedisValues.SRem(old(Contents()), key, AsSet(members), now)
      ensures removed == Taken(Members(old(Contents()), key, now), AsSet(members))
    {
      hide AsSet, Taken;
      if key !in setStore || Expired(setStore[key], now) {
        removed := 0;
        NothingTaken<string>({});
        return;
      }
      var entry := setStore[key];
      var rest, n := DeleteMembers(entry.value, members);
      removed := n;
      setStore := setStore[key := entry.(value := rest)];
      if |rest| == 0 {
        setStore := setStore - {key};
        assert setStore == old(setStore) - {key};
      }
    }

    /** The entry when it can be read; an expired one is removed on the way. */
    method ReadSet(key: K, now: int) returns (members: set<string>)
      modifies this`setStore
      ensures Contents() == SRead(old(Contents()), key, now) && members == Members(old(Contents()), key, now)
    {
      if key !in setStore || Expired(setStore[key], now) {
        setStore := setStore - {key};
        return {};
      }
      return setStore[key].value;
    }

    method SMembers(key: K, now: int) returns (members: set<string>)
      modifies this
      ensures Contents() == SRead(old(Contents()), key, now) && members == Members(old(Contents()), key, now)
    {
      members := ReadSet(key, now);
    }

    method SCard(key: K, now: int) returns (size: int)
      modifies this
      ensures Contents() == SRead(old(Contents()), key, now) && size == |Members(old(Contents()), key, now)|
    {
      var members := ReadSet(key, now);
      size := |members|;
    }

    method SIsMember(key: K, member: string, now: int) returns (b: bool)
      modifies this
      ensures Contents() == SRead(old(Contents()), key, now) && b == (member in Members(old(Contents()), key, now))
    {
      var members := ReadSet(key, now);
      b := member in members;
    }

    method HSet(key: K, fields: map<string, string>, now: int) returns (added: int)
      modifies this
      ensures Contents() == RedisValues.HSet(old(Contents()), key, fields, now)
      ensures added == Added(RedisValues.Fields(old(Contents()), key, now).Keys, fields.Keys)
    {
      hide Added;
      if key !in hashStore || Expired(hashStore[key], now) {
        hashStore := hashStore[key := Timed(map[], None)];
      }
      var entry := hashStore[key];
      var hash, n := PutFields(entry.value, fields);
      added := n;
      hashStore := hashStore[key := entry.(value := hash)];
      assert hashStore == old(hashStore)[key := entry.(value := hash)];
    }

    method HGet(key: K, field: string, now: int) returns (value: Option<string>)
      ensures value == FieldOf(RedisValues.Fields(Contents(), key, now), field)
    {
      if key !in hashStore || Expired(hashStore[key], now) {
        return None;
      }
      var hash := hashStore[key].value;
      return if field in hash && hash[field] != "" then Some(hash[field]) else None;
    }

    method HGetAll(key: K, now: int) returns (fields: map<string, string>)
      modifies this
      ensures Contents() == HReadAll(old(Contents()), key, now)
      ensures fields == RedisValues.Fields(old(Contents()), key, now)
    {
      if key !in hashStore || Expired(hashStore[key], now) {
        hashStore := hashStore - {key};
        return map[];
      }
      return hashStore[key].value;
    }

    method HDel(key: K, names: seq<string>, now: int) returns (removed: int)
      modifies this
      ensures Contents() == RedisValues.HDel(old(Contents()), key, AsSet(names), now)
      ensures removed == Taken(RedisValues.Fields(old(Contents()), key, now).Keys, AsSet(names))
    {
      hide AsSet, Taken;
      if key !in hashStore || Expired(hashStore[key], now) {
        removed := 0;
        NothingTaken<string>({});
        assert RedisValues.Fields(Contents(), key, now).Keys == {};
        return;
      }
      var entry := hashStore[key];
      var hash, n := DeleteFields(entry.value, names);
      removed := n;
      hashStore := hashStore[key := entry.(value := hash)];
    }

    method Keys(pattern: K -> bool, now: int) returns (result: set<K>)
      modifies this
      ensures Contents() == Sweep(old(Contents()), now) && result == MatchingKeys(Contents(), pattern)
    {
      var strings, found0 := SweepMap(stringStore, pattern, now);
      var sets, found1 := SweepMap(setStore, pattern, now);
      var hashes, found2 := SweepMap(hashStore, pattern, now);
      stringStore, setStore, hashStore := strings, sets, hashes;
      result := found0 + found1 + found2;
    }
  }

  /** One of the three loops of KEYS: expired entries are deleted, the other keys matched. */
  method SweepMap<K(==), T>(m: map<K, Timed<T>>, pattern: K -> bool, now: int)
    returns (kept: map<K, Timed<T>>, found: set<K>)
    ensures kept == Unswept(m, now) && found == Matching(kept, pattern)
  {
    kept := m;
    found := {};
    var keys := m.Keys;
    while keys != {}
      invariant keys <= m.Keys && keys <= kept.Keys
      invariant forall k :: k in kept <==> k in m && (k in keys || !Swept(m[k], now))
      invariant forall k :: k in kept ==> kept[k] == m[k]
      invariant forall k :: k in found <==> k in kept && k !in keys && pattern(k)
      decreases keys
    {
      var k :| k in keys;
      keys := keys - {k};
      if Swept(m[k], now) {
        kept := kept - {k};
      } else if pattern(k) {
        found := found + {k};
      }
    }
  }

  lemma AsSetSnoc<T>(s: seq<T>, i: nat)
    requires i < |s|
    ensures AsSet(s[..i + 1]) == AsSet(s[..i]) + {s[i]}
  {
    assert s[..i + 1] == s[..i] + [s[i]];
  }

  lemma AsSetEmpty<T>(s: seq<T>)
    ensures AsSet(s[..0]) == {}
  {
  }

  lemma NothingAdded<T>(before: set<T>)
    ensures Added(before, {}) == 0
  {
    assert before + {} == before;
  }

  lemma AddedOne<T>(before: set<T>, more: set<T>, x: T)
    ensures Added(before, more + {x}) == Added(before, more) + if x in before + more then 0 else 1
  {
    if x in before + more {
      assert before + (more + {x}) == before + more;
    } else {
      assert before + (more + {x}) == before + more + {x};
    }
  }

  lemma NothingTaken<T>(before: set<T>)
    ensures Taken(before, {}) == 0 && forall less: set<T> :: Taken({}, less) == 0
  {
    assert before - {} == before;
    forall less: set<T> ensures Taken({}, less) == 0 {
      var none: set<T> := {};
      assert none - less == {};
    }
  }

  lemma TakenOne<T>(before: set<T>, less: set<T>, x: T)
    ensures Taken(before, less + {x}) == Taken(before, less) + if x in before - less then 1 else 0
  {
    if x in before - less {
      assert before - less == before - (less + {x}) + {x};
    } else {
      assert before - less == before - (less + {x});
    }
  }

  lemma MergeOne(entry: map<string, string>, fields: map<string, string>, names: set<string>, f: string)
    requires f in names && names <= fields.Keys
    ensures fields - (names - {f}) == (fields - names)[f := fields[f]]
    ensures entry + (fields - (names - {f})) == (entry + (fields - names))[f := fields[f]]
    ensures (fields - (names - {f})).Keys == (fields - names).Keys + {f}
    ensures f in entry + (fields - names) <==> f in entry.Keys + (fields - names).Keys
  {
  }

  lemma WithoutOne<K, T>(m: map<K, T>, ks: set<K>, k: K)
    ensures m - (ks + {k}) == (m - ks) - {k} && (k !in m - ks ==> m - (ks + {k}) == m - ks)
    ensures k in m - ks <==> k in m.Keys - ks
  {
  }

  lemma WithoutSingle<K, T>(m: map<K, T>, k: K)
    ensures |m.Keys * {k}| == if k in m then 1 else 0
    ensures k !in m ==> m - {k} == m
  {
    assert m.Keys * {k} == if k in m then {k} else {};
  }

  lemma DelNothing<K>(s: Store<K>)
    ensures RedisValues.Del(s, {}) == s && Removed(s, {}) == 0
  {
    WithoutNone(s.strings);
    WithoutNone(s.sets);
    WithoutNone(s.hashes);
  }

  lemma WithoutNone<K, T>(m: map<K, T>)
    ensures m - {} == m && |m.Keys * {}| == 0
  {
    assert m.Keys * {} == {};
  }

  lemma DelOneMore<K>(s: Store<K>, ks: set<K>, k: K)
    ensures RedisValues.Del(s, ks + {k}) == RedisValues.Del(RedisValues.Del(s, ks), {k})
    ensures Removed(s, ks + {k}) == Removed(s, ks) + Removed(RedisValues.Del(s, ks), {k})
  {
    WithoutOne(s.strings, ks, k);
    WithoutOne(s.sets, ks, k);
    WithoutOne(s.hashes, ks, k);
    WithoutSingle(s.strings - ks, k);
    WithoutSingle(s.sets - ks, k);
    WithoutSingle(s.hashes - ks, k);
    OneMore(s.strings.Keys, ks, k);
    OneMore(s.sets.Keys, ks, k);
    OneMore(s.hashes.Keys, ks, k);
  }

  lemma OneMore<K>(keys: set<K>, ks: set<K>, k: K)
    ensures |keys * (ks + {k})| == |keys * ks| + if k in keys - ks then 1 else 0
  {
    if k in keys - ks {
      assert keys * (ks + {k}) == keys * ks + {k};
    } else {
      assert keys * (ks + {k}) == keys * ks;
    }
  }
}
