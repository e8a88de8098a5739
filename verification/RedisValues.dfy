/** The in-memory Redis engine as values: three maps whose entries may carry an expiry time. Nothing removes
    an entry when its time comes; each operation looks at the clock when it meets one. */
module RedisValues {
  import opened Sequences

  datatype Timed<T> = Timed(value: T, expiresAt: Option<int>)

  predicate Expired<T>(e: Timed<T>, now: int) {
    e.expiresAt.Some? && now > e.expiresAt.value
  }

  /** An entry that is there and has not expired. */
  predicate Live<K, T>(m: map<K, Timed<T>>, k: K, now: int) {
    k in m && !Expired(m[k], now)
  }

  predicate Stale<K, T>(m: map<K, Timed<T>>, k: K, now: int) {
    k in m && Expired(m[k], now)
  }

  datatype Store<K> = Store(
    strings: map<K, Timed<string>>,
    sets: map<K, Timed<set<string>>>,
    hashes: map<K, Timed<map<string, string>>>)

  // ---------------------------------------------------------------------------
  // Single operations
  // ---------------------------------------------------------------------------

  /** SET's options: seconds if given, else milliseconds if given; zero counts as not given. */
  function Deadline(ex: nat, px: nat, now: int): Option<int> {
    if ex != 0 then Some(now + ex * 1000) else if px != 0 then Some(now + px) else None
  }

  function SetString<K>(s: Store<K>, k: K, str: string, deadline: Option<int>): Store<K> {
    s.(strings := s.strings[k := Timed(str, deadline)])
  }

  function DropStale<K, T>(m: map<K, Timed<T>>, k: K, now: int): map<K, Timed<T>> {
    if Stale(m, k, now) then m - {k} else m
  }

  function String<K>(s: Store<K>, k: K, now: int): Option<string> {
    if Live(s.strings, k, now) then Some(s.strings[k].value) else None
  }

  function ReadString<K>(s: Store<K>, k: K, now: int): Store<K> {
    s.(strings := DropStale(s.strings, k, now))
  }

  function Touch<K, T>(m: map<K, Timed<T>>, k: K, at: int): map<K, Timed<T>> {
    if k in m then m[k := m[k].(expiresAt := Some(at))] else m
  }

  /** EXPIRE moves the deadline of whatever is stored under the key, expired or not. */
  function Expire<K>(s: Store<K>, k: K, seconds: nat, now: int): Store<K> {
    var at := now + seconds * 1000;
    Store(Touch(s.strings, k, at), Touch(s.sets, k, at), Touch(s.hashes, k, at))
  }

  function Del<K>(s: Store<K>, ks: set<K>): Store<K> {
    Store(s.strings - ks, s.sets - ks, s.hashes - ks)
  }

  /** Something is stored under the key, expired or not. */
  predicate Has<K>(s: Store<K>, k: K) {
    k in s.strings || k in s.sets || k in s.hashes
  }

  predicate Exists<K>(s: Store<K>, k: K, now: int) {
    Live(s.strings, k, now) || Live(s.sets, k, now) || Live(s.hashes, k, now)
  }

  function CountExists<K>(s: Store<K>, ks: seq<K>, now: int): (n: nat)
    ensures n <= |ks|
  {
    if ks == [] then 0 else (if Exists(s, ks[0], now) then 1 else 0) + CountExists(s, ks[1..], now)
  }

  function Members<K>(s: Store<K>, k: K, now: int): set<string> {
    if Live(s.sets, k, now) then s.sets[k].value else {}
  }

  function SAdd<K>(s: Store<K>, k: K, members: set<string>, now: int): Store<K> {
    var entry := if Live(s.sets, k, now) then s.sets[k] else Timed({}, None);
    s.(sets := s.sets[k := entry.(value := entry.value + members)])
  }

  /** A set that loses its last member is removed. */
  function SRem<K>(s: Store<K>, k: K, members: set<string>, now: int): Store<K> {
    if !Live(s.sets, k, now) then s
    else
      var rest := s.sets[k].value - members;
      s.(sets := if rest == {} then s.sets - {k} else s.sets[k := s.sets[k].(value := rest)])
  }

  /** Reading a set removes it when it has expired. */
  function SRead<K>(s: Store<K>, k: K, now: int): Store<K> {
    s.(sets := DropStale(s.sets, k, now))
  }

  function Fields<K>(s: Store<K>, k: K, now: int): map<string, string> {
    if Live(s.hashes, k, now) then s.hashes[k].value else map[]
  }

  /** An empty field value reads as no value. */
  function FieldOf(hash: map<string, string>, field: string): Option<string> {
    if field in hash && hash[field] != "" then Some(hash[field]) else None
  }

  function HSet<K>(s: Store<K>, k: K, fields: map<string, string>, now: int): Store<K> {
    var entry := if Live(s.hashes, k, now) then s.hashes[k] else Timed(map[], None);
    s.(hashes := s.hashes[k := entry.(value := entry.value + fields)])
  }

  /** A hash that loses its last field stays. */
  function HDel<K>(s: Store<K>, k: K, fields: set<string>, now: int): Store<K> {
    if !Live(s.hashes, k, now) then s
    else s.(hashes := s.hashes[k := s.hashes[k].(value := s.hashes[k].value - fields)])
  }

  function HReadAll<K>(s: Store<K>, k: K, now: int): Store<K> {
    s.(hashes := DropStale(s.hashes, k, now))
  }

  /** KEYS takes a deadline of zero for none. */
  predicate Swept<T>(e: Timed<T>, now: int) {
    e.expiresAt.Some? && e.expiresAt.value != 0 && now > e.expiresAt.value
  }

  function Unswept<K, T>(m: map<K, Timed<T>>, now: int): map<K, Timed<T>> {
    map k | k in m && !Swept(m[k], now) :: m[k]
  }

  function Sweep<K>(s: Store<K>, now: int): Store<K> {
    Store(Unswept(s.strings, now), Unswept(s.sets, now), Unswept(s.hashes, now))
  }

  function Matching<K, T>(m: map<K, Timed<T>>, pattern: K -> bool): set<K> {
    set k | k in m && pattern(k)
  }

  function MatchingKeys<K>(s: Store<K>, pattern: K -> bool): set<K> {
    Matching(s.strings, pattern) + Matching(s.sets, pattern) + Matching(s.hashes, pattern)
  }

  /** The last of the three stores that has the key decides. */
  function RawDeadline<K>(s: Store<K>, k: K): Option<int> {
    if k in s.hashes then s.hashes[k].expiresAt
    else if k in s.sets then s.sets[k].expiresAt
    else if k in s.strings then s.strings[k].expiresAt
    else None
  }

  /** Milliseconds to whole seconds, rounded up. */
  function CeilSeconds(ms: int): int {
    -((-ms) / 1000)
  }

  function Ttl<K>(s: Store<K>, k: K, now: int): int {
    match RawDeadline(s, k)
    case None => -1
    case Some(at) => if CeilSeconds(at - now) > 0 then CeilSeconds(at - now) else -2
  }

  // ---------------------------------------------------------------------------
  // Operations and replies
  // ---------------------------------------------------------------------------

  datatype Op<!K> =
    | OpSet(key: K, str: string, ex: nat, px: nat)
    | OpSetEx(key: K, seconds: nat, str: string)
    | OpGet(key: K)
    | OpDel(keys: seq<K>)
    | OpExists(keys: seq<K>)
    | OpExpire(key: K, seconds: nat)
    | OpTtl(key: K)
    | OpSAdd(key: K, members: seq<string>)
    | OpSRem(key: K, members: seq<string>)
    | OpSMembers(key: K)
    | OpSCard(key: K)
    | OpSIsMember(key: K, member: string)
    | OpHSet(key: K, fields: map<string, string>)
    | OpHGet(key: K, field: string)
    | OpHGetAll(key: K)
    | OpHDel(key: K, names: seq<string>)
    | OpKeys(pattern: K -> bool)

  datatype Reply<K> =
    | Done
    | Text(text: Option<string>)
    | Number(n: int)
    | Bool(b: bool)
    | SetOf(members: set<string>)
    | HashOf(fields: map<string, string>)
    | KeySet(keys: set<K>)

  /** How many of `more` are new to `before`, and how many of `less` are in it. */
  function Added<T>(before: set<T>, more: set<T>): int {
    |before + more| - |before|
  }

  function Taken<T>(before: set<T>, less: set<T>): int {
    |before| - |before - less|
  }

  function AsSet<T>(s: seq<T>): set<T> {
    set x | x in s
  }

  /** What the engine does. */
  function Lazy<K>(s: Store<K>, op: Op<K>, now: int): (Store<K>, Reply<K>) {
    match op
    case OpSet(k, str, ex, px) => (SetString(s, k, str, Deadline(ex, px, now)), Done)
    case OpSetEx(k, seconds, str) => (SetString(s, k, str, Some(now + seconds * 1000)), Done)
    case OpGet(k) => (ReadString(s, k, now), Text(String(s, k, now)))
    case OpDel(ks) => (Del(s, AsSet(ks)), Number(Removed(s, AsSet(ks))))
    case OpExists(ks) => (s, Number(CountExists(s, ks, now)))
    case OpExpire(k, seconds) =>
      (Expire(s, k, seconds, now), Bool(Has(s, k)))
    case OpTtl(k) => (s, Number(Ttl(s, k, now)))
    case OpSAdd(k, ms) =>
      (SAdd(s, k, AsSet(ms), now), Number(Added(Members(s, k, now), AsSet(ms))))
    case OpSRem(k, ms) =>
      (SRem(s, k, AsSet(ms), now), Number(Taken(Members(s, k, now), AsSet(ms))))
    case OpSMembers(k) => (SRead(s, k, now), SetOf(Members(s, k, now)))
    case OpSCard(k) => (SRead(s, k, now), Number(|Members(s, k, now)|))
    case OpSIsMember(k, m) => (SRead(s, k, now), Bool(m in Members(s, k, now)))
    case OpHSet(k, fs) =>
      (HSet(s, k, fs, now), Number(Added(Fields(s, k, now).Keys, fs.Keys)))
    case OpHGet(k, f) => (s, Text(FieldOf(Fields(s, k, now), f)))
    case OpHGetAll(k) => (HReadAll(s, k, now), HashOf(Fields(s, k, now)))
    case OpHDel(k, names) =>
      (HDel(s, k, AsSet(names), now), Number(Taken(Fields(s, k, now).Keys, AsSet(names))))
    case OpKeys(p) => (Sweep(s, now), KeySet(MatchingKeys(Sweep(s, now), p)))
  }

  /** How many entries a DEL removes: one key can have one in each of the three maps. */
  function Removed<K>(s: Store<K>, ks: set<K>): int {
    |s.strings.Keys * ks| + |s.sets.Keys * ks| + |s.hashes.Keys * ks|
  }
}
