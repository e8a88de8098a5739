/** Refresh tokens: the table, the transactions on it, and the families that rotation grows. Ids, hashes and
    family names come from outside and are new; see section 10.4 of RFC 6749 for the theft that reuse shows. */
module RefreshTokens {
  import opened Sequences

  datatype Token = Token(id: string, user: string, hash: string, family: string, parent: Option<string>,
                         revoked: bool, replacedBy: Option<string>, expiresAt: int)

  /** Rows in the order they were inserted. */
  type Table = seq<Token>

  function Find(table: Table, hash: string): Option<Token> {
    if table == [] then None else if table[0].hash == hash then Some(table[0]) else Find(table[1..], hash)
  }

  lemma {:induction false} FindIn(table: Table, hash: string)
    ensures Find(table, hash).Some? ==> Find(table, hash).value in table && Find(table, hash).value.hash == hash
    ensures Find(table, hash).None? ==> forall t :: t in table ==> t.hash != hash
  {
    if table != [] && table[0].hash != hash {
      FindIn(table[1..], hash);
      assert forall t :: t in table ==> t == table[0] || t in table[1..];
    }
  }

  // ---------------------------------------------------------------------------
  // Updates
  // ---------------------------------------------------------------------------

  function RevokedOne(id: string, replacedBy: Option<string>): Token -> Token {
    (t: Token) => if t.id == id then t.(revoked := true, replacedBy := replacedBy) else t
  }

  function RevokedUser(user: string): Token -> Token {
    (t: Token) => if t.user == user && !t.revoked then t.(revoked := true) else t
  }

  function RevokedFamily(family: string): Token -> Token {
    (t: Token) => if t.family == family && !t.revoked then t.(revoked := true) else t
  }

  function Fresh(id: string, user: string, hash: string, family: string, parent: Option<string>, expiresAt: int): Token {
    Token(id, user, hash, family, parent, false, None, expiresAt)
  }

  datatype Outcome =
    | Invalid
    | Reuse(user: string)
    | Expired
    | UserMissing
    | Rotated(token: string, successor: string)

  /** What ROTATE finds; anything but a rotation leaves the table as it was, since the throw rolls it back. */
  function Verdict(table: Table, users: set<string>, hash: string, now: int, newId: string): Outcome {
    match Find(table, hash)
    case None => Invalid
    case Some(t) =>
      if t.revoked then Reuse(t.user)
      else if t.expiresAt <= now then Expired
      else if t.user !in users then UserMissing
      else Rotated(t.id, newId)
  }

  function Successor(t: Token, newId: string, newHash: string, expiresAt: int): Token {
    Fresh(newId, t.user, newHash, t.family, Some(t.id), expiresAt)
  }

  function RotateTx(table: Table, users: set<string>, hash: string, now: int,
                    newId: string, newHash: string, expiresAt: int): Table {
    if Verdict(table, users, hash, now, newId).Rotated? then
      var t := Find(table, hash).value;
      Map(table + [Successor(t, newId, newHash, expiresAt)], RevokedOne(t.id, Some(newId)))
    else table
  }

  /** Each step is one transaction, so a run is any interleaving of transactions of any number of servers. */
  datatype Step =
    | CreateSession(user: string, id: string, hash: string, family: string, expiresAt: int)
    | Rotate(users: set<string>, hash: string, now: int, newId: string, newHash: string, expiresAt: int)
    | Revoke(id: string)
    | RevokeAll(user: string)
    | RevokeFamily(family: string)

  function Apply(table: Table, step: Step): Table {
    match step
    case CreateSession(user, id, hash, family, expiresAt) => table + [Fresh(id, user, hash, family, None, expiresAt)]
    case Rotate(users, hash, now, newId, newHash, expiresAt) =>
      RotateTx(table, users, hash, now, newId, newHash, expiresAt)
    case Revoke(id) => Map(table, RevokedOne(id, None))
    case RevokeAll(user) => Map(table, RevokedUser(user))
    case RevokeFamily(family) => Map(table, RevokedFamily(family))
  }

  function ApplyAll(table: Table, steps: seq<Step>): Table
    decreases |steps|
  {
    if steps == [] then table else ApplyAll(Apply(table, steps[0]), steps[1..])
  }

  ghost predicate NewToken(table: Table, id: string, hash: string) {
    forall t :: t in table ==> t.id != id && t.hash != hash
  }

  /** What is generated is new. */
  ghost predicate Generates(table: Table, step: Step) {
    match step
    case CreateSession(_, id, hash, family, _) => NewToken(table, id, hash) && forall t :: t in table ==> t.family != family
    case Rotate(_, _, _, newId, newHash, _) => NewToken(table, newId, newHash)
    case _ => true
  }

  ghost predicate GeneratesAll(table: Table, steps: seq<Step>)
    decreases |steps|
  {
    steps == [] || (Generates(table, steps[0]) && GeneratesAll(Apply(table, steps[0]), steps[1..]))
  }

  // ---------------------------------------------------------------------------
  // Families
  // ---------------------------------------------------------------------------

  function InFamily(family: string): Token -> bool {
    (t: Token) => t.family == family
  }

  function Family(table: Table, family: string): Table {
    Filter(table, InFamily(family))
  }

  /** One line of descent of one user, in which only the last may be unrevoked. */
  ghost predicate Chain(ts: Table) {
    && (ts != [] ==> ts[0].parent == None)
    && (forall i :: 0 < i < |ts| ==> ts[i].parent == Some(ts[i - 1].id) && ts[i].user == ts[0].user)
    && (forall i :: 0 <= i < |ts| - 1 ==> ts[i].revoked)
  }

  ghost predicate Distinct(table: Table) {
    forall i, j :: 0 <= i < j < |table| ==> table[i].id != table[j].id && table[i].hash != table[j].hash
  }

  ghost predicate Inv(table: Table) {
    Distinct(table) && forall f :: Chain(Family(table, f))
  }

  /** A change that leaves a token what it is, and never takes a revocation back. */
  predicate Same(t: Token, u: Token) {
    && u.id == t.id && u.user == t.user && u.hash == t.hash && u.family == t.family && u.parent == t.parent
    && u.expiresAt == t.expiresAt && (t.revoked ==> u.revoked)
  }

  ghost predicate Sound(f: Token -> Token) {
    forall t :: Same(t, f(t))
  }

  lemma Updates(id: string, replacedBy: Option<string>, user: string, family: string)
    ensures Sound(RevokedOne(id, replacedBy)) && Sound(RevokedUser(user)) && Sound(RevokedFamily(family))
  {
  }

  lemma FamilyOfMap(table: Table, f: Token -> Token, family: string)
    requires Sound(f)
    ensures Family(Map(table, f), family) == Map(Family(table, family), f)
  {
    FilterOfMap(table, f, InFamily(family), InFamily(family));
  }

  lemma ChainOfMap(ts: Table, f: Token -> Token)
    requires Sound(f) && Chain(ts)
    ensures Chain(Map(ts, f))
  {
    var us := Map(ts, f);
    forall i | 0 <= i < |us| ensures Same(ts[i], us[i]) {
    }
  }

  lemma UpdateKeeps(table: Table, f: Token -> Token)
    requires Inv(table) && Sound(f)
    ensures Inv(Map(table, f))
  {
    hide Chain, Family;
    forall g ensures Chain(Family(Map(table, f), g)) {
      FamilyOfMap(table, f, g);
      ChainOfMap(Family(table, g), f);
    }
    forall i, j | 0 <= i < j < |table|
      ensures Map(table, f)[i].id != Map(table, f)[j].id && Map(table, f)[i].hash != Map(table, f)[j].hash
    {
      assert Same(table[i], f(table[i])) && Same(table[j], f(table[j]));
    }
  }

  lemma FamilySnoc(table: Table, t: Token, family: string)
    ensures Family(table + [t], family) == Family(table, family) + if t.family == family then [t] else []
  {
    FilterSnoc(table, t, InFamily(family));
  }

  lemma CreateKeeps(table: Table, t: Token)
    requires Inv(table) && NewToken(table, t.id, t.hash) && t.parent == None
    requires forall u :: u in table ==> u.family != t.family
    ensures Inv(table + [t])
  {
    forall f ensures Chain(Family(table + [t], f)) {
      FamilySnoc(table, t, f);
      assert Chain(Family(table, f));
      if f == t.family {
        FilterNone(table, InFamily(f));
      }
    }
  }

  /** In its family an unrevoked token is the last. */
  lemma UnrevokedIsLast(table: Table, t: Token)
    requires Inv(table) && t in table && !t.revoked
    ensures var ts := Family(table, t.family); ts != [] && ts[|ts| - 1] == t
  {
    var ts := Family(table, t.family);
    FilterIn(table, InFamily(t.family), t);
    var i :| 0 <= i < |ts| && ts[i] == t;
    assert Chain(ts);
  }

  lemma ChainGrows(ts: Table, t: Token, f: Token -> Token)
    requires Chain(ts) && ts != [] && Sound(f) && f(ts[|ts| - 1]).revoked
    requires t.parent == Some(ts[|ts| - 1].id) && t.user == ts[0].user
    ensures Chain(Map(ts + [t], f))
  {
    var us := Map(ts + [t], f);
    forall i | 0 <= i < |us| ensures Same((ts + [t])[i], us[i]) {
    }
    assert us[|ts| - 1] == f(ts[|ts| - 1]);
  }

  lemma RotateKeeps(table: Table, t: Token, s: Token)
    requires Inv(table) && t in table && !t.revoked && NewToken(table, s.id, s.hash)
    requires s.parent == Some(t.id) && s.family == t.family && s.user == t.user
    ensures Inv(Map(table + [s], RevokedOne(t.id, Some(s.id))))
  {
    var f := RevokedOne(t.id, Some(s.id));
    Updates(t.id, Some(s.id), "", "");
    forall g ensures Chain(Family(Map(table + [s], f), g)) {
      FamilyOfMap(table + [s], f, g);
      FamilySnoc(table, s, g);
      assert Chain(Family(table, g));
      if g == s.family {
        UnrevokedIsLast(table, t);
        ChainGrows(Family(table, g), s, f);
      } else {
        assert Family(table, g) + [] == Family(table, g);
        ChainOfMap(Family(table, g), f);
      }
    }
    DistinctGrows(table, s, f);
  }

  lemma DistinctGrows(table: Table, s: Token, f: Token -> Token)
    requires Distinct(table) && NewToken(table, s.id, s.hash) && Sound(f)
    ensures Distinct(Map(table + [s], f))
  {
    var us := Map(table + [s], f);
    forall i | 0 <= i < |us| ensures Same((table + [s])[i], us[i]) {
    }
  }

  /** One transaction keeps every family a chain. */
  lemma StepKeeps(table: Table, step: Step)
    requires Inv(table) && Generates(table, step)
    ensures Inv(Apply(table, step))
  {
    hide Inv, Same, Sound;
    match step {
      case CreateSession(user, id, hash, family, expiresAt) =>
        CreateKeeps(table, Fresh(id, user, hash, family, None, expiresAt));
      case Rotate(users, hash, now, newId, newHash, expiresAt) =>
        if Verdict(table, users, hash, now, newId).Rotated? {
          FindIn(table, hash);
          var t := Find(table, hash).value;
          RotateKeeps(table, t, Successor(t, newId, newHash, expiresAt));
        }
      case Revoke(id) =>
        Updates(id, None, "", "");
        UpdateKeeps(table, RevokedOne(id, None));
      case RevokeAll(user) =>
        Updates("", None, user, "");
        UpdateKeeps(table, RevokedUser(user));
      case RevokeFamily(family) =>
        Updates("", None, "", family);
        UpdateKeeps(table, RevokedFamily(family));
    }
  }

  lemma {:induction false} RunKeeps(table: Table, steps: seq<Step>)
    requires Inv(table) && GeneratesAll(table, steps)
    ensures Inv(ApplyAll(table, steps))
    decreases |steps|
  {
    hide Inv, Apply, Generates;
    if steps != [] {
      StepKeeps(table, steps[0]);
      RunKeeps(Apply(table, steps[0]), steps[1..]);
    }
  }

  /** MAIN: after any interleaving of transactions every family is one parent chain of one user, and only its
      last token can be unrevoked. */
  lemma FamiliesAreChains(steps: seq<Step>, family: string)
    requires GeneratesAll([], steps)
    ensures Chain(Family(ApplyAll([], steps), family))
  {
    hide ApplyAll, GeneratesAll;
    RunKeeps([], steps);
  }

  // ---------------------------------------------------------------------------
  // Revocation is final
  // ---------------------------------------------------------------------------

  /** The old rows are all there, in order, each what it was and revoked if it was. */
  ghost predicate Extends(table: Table, later: Table) {
    |table| <= |later| && forall i :: 0 <= i < |table| ==> Same(table[i], later[i])
  }

  lemma MapExtends(table: Table, more: Table, f: Token -> Token)
    requires Sound(f)
    ensures Extends(table, Map(table + more, f))
  {
    forall i | 0 <= i < |table| ensures Same(table[i], Map(table + more, f)[i]) {
      assert (table + more)[i] == table[i];
    }
  }

  lemma StepExtends(table: Table, step: Step)
    ensures Extends(table, Apply(table, step))
  {
    hide Same, Sound;
    SameItself(table);
    assert table + [] == table;
    match step {
      case CreateSession(user, id, hash, family, expiresAt) =>
        SameItself(table);
      case Rotate(users, hash, now, newId, newHash, expiresAt) =>
        if Verdict(table, users, hash, now, newId).Rotated? {
          var t := Find(table, hash).value;
          Updates(t.id, Some(newId), "", "");
          MapExtends(table, [Successor(t, newId, newHash, expiresAt)], RevokedOne(t.id, Some(newId)));
        }
      case Revoke(id) =>
        Updates(id, None, "", "");
        MapExtends(table, [], RevokedOne(id, None));
      case RevokeAll(user) =>
        Updates("", None, user, "");
        MapExtends(table, [], RevokedUser(user));
      case RevokeFamily(family) =>
        Updates("", None, "", family);
        MapExtends(table, [], RevokedFamily(family));
    }
  }

  lemma SameItself(table: Table)
    ensures forall i :: 0 <= i < |table| ==> Same(table[i], table[i])
  {
  }

  lemma ExtendsThen(a: Table, b: Table, c: Table)
    requires Extends(a, b) && Extends(b, c)
    ensures Extends(a, c)
  {
    forall i | 0 <= i < |a| ensures Same(a[i], c[i]) {
      assert Same(a[i], b[i]) && Same(b[i], c[i]);
    }
  }

  /** MAIN: over every run, under any interleaving, no row is lost or changed in what it is, and no revocation is
      ever taken back. */
  lemma {:induction false} RevocationIsFinal(table: Table, steps: seq<Step>)
    ensures Extends(table, ApplyAll(table, steps))
    decreases |steps|
  {
    hide Apply, Extends;
    if steps == [] {
      ExtendsItself(table);
    } else {
      StepExtends(table, steps[0]);
      RevocationIsFinal(Apply(table, steps[0]), steps[1..]);
      ExtendsThen(table, Apply(table, steps[0]), ApplyAll(table, steps));
    }
  }

  lemma ExtendsItself(table: Table)
    ensures Extends(table, table)
  {
  }

  // ---------------------------------------------------------------------------
  // One rotation per token
  // ---------------------------------------------------------------------------

  predicate Rotates(table: Table, step: Step, id: string) {
    step.Rotate? &&
    var v := Verdict(table, step.users, step.hash, step.now, step.newId);
    v.Rotated? && v.token == id
  }

  /** How many times the token `id` is rotated in a run. */
  function Rotations(table: Table, steps: seq<Step>, id: string): nat
    decreases |steps|
  {
    if steps == [] then 0
    else (if Rotates(table, steps[0], id) then 1 else 0) + Rotations(Apply(table, steps[0]), steps[1..], id)
  }

  predicate RevokedId(table: Table, id: string) {
    exists i :: 0 <= i < |table| && table[i].id == id && table[i].revoked
  }

  lemma RevokedNotRotated(table: Table, step: Step, id: string)
    requires Distinct(table) && RevokedId(table, id)
    ensures !Rotates(table, step, id)
  {
    if step.Rotate? {
      FindIn(table, step.hash);
    }
  }

  lemma RevokedIdKept(table: Table, later: Table, id: string)
    requires Extends(table, later) && RevokedId(table, id)
    ensures RevokedId(later, id)
  {
    var i :| 0 <= i < |table| && table[i].id == id && table[i].revoked;
    assert Same(table[i], later[i]);
  }

  lemma RotationRevokes(table: Table, step: Step, id: string)
    requires Rotates(table, step, id)
    ensures RevokedId(Apply(table, step), id)
  {
    FindIn(table, step.hash);
    var t := Find(table, step.hash).value;
    var i :| 0 <= i < |table| && table[i] == t;
    var later := Apply(table, step);
    assert (table + [Successor(t, step.newId, step.newHash, step.expiresAt)])[i] == t;
    assert later[i].id == id && later[i].revoked;
  }

  lemma {:induction false} NoneOnceRevoked(table: Table, steps: seq<Step>, id: string)
    requires Inv(table) && GeneratesAll(table, steps) && RevokedId(table, id)
    ensures Rotations(table, steps, id) == 0
    decreases |steps|
  {
    InvDistinct(table);
    hide Inv, Apply, Rotates, RevokedId, Distinct, Generates, Extends;
    if steps != [] {
      RevokedNotRotated(table, steps[0], id);
      StepKeeps(table, steps[0]);
      StepExtends(table, steps[0]);
      RevokedIdKept(table, Apply(table, steps[0]), id);
      NoneOnceRevoked(Apply(table, steps[0]), steps[1..], id);
    }
  }

  lemma InvDistinct(table: Table)
    requires Inv(table)
    ensures Distinct(table)
  {
  }

  /** MAIN: in any run a token is rotated at most once. */
  lemma {:induction false} RotatesAtMostOnce(table: Table, steps: seq<Step>, id: string)
    requires Inv(table) && GeneratesAll(table, steps)
    ensures Rotations(table, steps, id) <= 1
    decreases |steps|
  {
    hide Inv, Apply, Rotates, RevokedId, Generates;
    if steps != [] {
      StepKeeps(table, steps[0]);
      if Rotates(table, steps[0], id) {
        RotationRevokes(table, steps[0], id);
        NoneOnceRevoked(Apply(table, steps[0]), steps[1..], id);
      } else {
        RotatesAtMostOnce(Apply(table, steps[0]), steps[1..], id);
      }
    }
  }

  // ---------------------------------------------------------------------------
  // Reuse
  // ---------------------------------------------------------------------------

  /** What rotating a presented token does in all: its transaction, and on reuse a second one. */
  function Present(table: Table, users: set<string>, hash: string, now: int,
                   newId: string, newHash: string, expiresAt: int): Table {
    var after := RotateTx(table, users, hash, now, newId, newHash, expiresAt);
    match Verdict(table, users, hash, now, newId)
    case Reuse(user) => Map(after, RevokedUser(user))
    case _ => after
  }

  ghost predicate AllRevoked(table: Table, user: string) {
    forall t :: t in table && t.user == user ==> t.revoked
  }

  /** A revoked token presented again leaves its user without an unrevoked token; an unknown or expired one, or
      one whose user is gone, leaves the table as it was; any other is replaced by one successor. */
  lemma PresentDoes(table: Table, users: set<string>, hash: string, now: int,
                    newId: string, newHash: string, expiresAt: int)
    requires Distinct(table)
    ensures var later := Present(table, users, hash, now, newId, newHash, expiresAt);
      && (forall t :: t in table && t.hash == hash ==>
            && (t.revoked ==> AllRevoked(later, t.user))
            && (!t.revoked && t.expiresAt > now && t.user in users ==>
                  && |later| == |table| + 1
                  && later[|table|] ==
                       Token(newId, t.user, newHash, t.family, Some(t.id), newId == t.id, later[|table|].replacedBy, expiresAt)
                  && (newId != t.id ==> later[|table|].replacedBy == None)
                  && (forall i :: 0 <= i < |table| ==>
                        later[i] == (if table[i] == t then t.(revoked := true, replacedBy := Some(newId)) else table[i])))
            && (!t.revoked && (t.expiresAt <= now || t.user !in users) ==> later == table))
      && ((forall t :: t in table ==> t.hash != hash) ==> later == table)
  {
    FindIn(table, hash);
    forall t | t in table && t.hash == hash ensures Find(table, hash) == Some(t) {
      HashFinds(table, hash, t);
    }
  }

  lemma HashFinds(table: Table, hash: string, t: Token)
    requires Distinct(table) && t in table && t.hash == hash
    ensures Find(table, hash) == Some(t)
  {
    FindIn(table, hash);
    var u := Find(table, hash).value;
    assert u in table && u.hash == t.hash;
  }

  /** A token is good for its user as long as no one logs in: sessions of other users may come and go. */
  ghost predicate NoLogin(steps: seq<Step>, user: string)
    decreases |steps|
  {
    forall step :: step in steps && step.CreateSession? ==> step.user != user
  }

  lemma StaysRevoked(table: Table, step: Step, user: string)
    requires AllRevoked(table, user) && (step.CreateSession? ==> step.user != user)
    ensures AllRevoked(Apply(table, step), user)
  {
    if step.Rotate? {
      FindIn(table, step.hash);
    }
    var later := Apply(table, step);
    forall t | t in later && t.user == user ensures t.revoked {
      var i :| 0 <= i < |later| && later[i] == t;
    }
  }

  /** MAIN: once a user has no unrevoked token, no transaction but a login gives them one: every token anyone
      still holds for them is refused for the rest of the run. */
  lemma {:induction false} NoSessionWithoutLogin(table: Table, steps: seq<Step>, user: string)
    requires AllRevoked(table, user) && NoLogin(steps, user)
    ensures AllRevoked(ApplyAll(table, steps), user)
    decreases |steps|
  {
    hide Apply, AllRevoked;
    if steps != [] {
      assert steps[0] in steps && forall s :: s in steps[1..] ==> s in steps;
      StaysRevoked(table, steps[0], user);
      NoSessionWithoutLogin(Apply(table, steps[0]), steps[1..], user);
    }
  }

  // ---------------------------------------------------------------------------
  // What a token is good for
  // ---------------------------------------------------------------------------

  /** MAIN: the token a login hands out rotates for as long as it has not expired and its user is there. */
  lemma LoginIsGood(table: Table, user: string, id: string, hash: string, family: string, expiresAt: int,
                    users: set<string>, now: int, newId: string)
    requires Distinct(table) && NewToken(table, id, hash)
    ensures var later := Apply(table, CreateSession(user, id, hash, family, expiresAt));
      Verdict(later, users, hash, now, newId) ==
        if now >= expiresAt then Expired else if user !in users then UserMissing else Rotated(id, newId)
  {
    var later := Apply(table, CreateSession(user, id, hash, family, expiresAt));
    assert later[|table|] in later;
    HashFinds(later, hash, later[|table|]);
  }

  /** MAIN: so does the token a rotation hands out, up to the rotation's own expiry, while the token that was rotated
      is reuse from then on. */
  lemma SuccessorIsGood(table: Table, users: set<string>, hash: string, at: int, successor: string, newHash: string,
                        expiresAt: int, later: set<string>, now: int, newId: string)
    requires Distinct(table) && NewToken(table, successor, newHash)
    requires Verdict(table, users, hash, at, successor).Rotated?
    ensures var rotated := Apply(table, Rotate(users, hash, at, successor, newHash, expiresAt));
      var user := Find(table, hash).value.user;
      && Verdict(rotated, later, newHash, now, newId) == (
           if now >= expiresAt then Expired else if user !in later then UserMissing else Rotated(successor, newId))
      && Verdict(rotated, later, hash, now, newId) == Reuse(user)
  {
    FindIn(table, hash);
    var t := Find(table, hash).value;
    var f, next := RevokedOne(t.id, Some(successor)), Successor(t, successor, newHash, expiresAt);
    Updates(t.id, Some(successor), "", "");
    DistinctGrows(table, next, f);
    RotatedRows(table, t, next, f);
    hide Distinct, Sound, Map, Successor;
    var rotated := Map(table + [next], f);
    HashFinds(rotated, newHash, f(next));
    HashFinds(rotated, hash, f(t));
  }

  lemma RotatedRows(table: Table, t: Token, next: Token, f: Token -> Token)
    requires t in table
    ensures f(t) in Map(table + [next], f) && f(next) in Map(table + [next], f)
  {
    var rotated := Map(table + [next], f);
    var i :| 0 <= i < |table| && table[i] == t;
    assert rotated[i] == f(t) && rotated[|table|] == f(next);
  }

  /** The tokens a revocation is about. */
  predicate Hits(step: Step, t: Token) {
    match step
    case Revoke(id) => t.id == id
    case RevokeAll(user) => t.user == user
    case RevokeFamily(family) => t.family == family
    case _ => false
  }

  lemma MapEnds(table: Table, f: Token -> Token, hits: Token -> bool, users: set<string>, hash: string, now: int,
                newId: string)
    requires Distinct(table) && Sound(f)
    requires forall t :: if hits(t) then f(t).revoked else f(t) == t
    ensures var after := Verdict(Map(table, f), users, hash, now, newId);
      && (forall t :: t in table && t.hash == hash && hits(t) ==> after == Reuse(t.user))
      && ((forall t :: t in table && t.hash == hash ==> !hits(t)) ==> after == Verdict(table, users, hash, now, newId))
  {
    FindOfMap(table, f, hash);
    FindIn(table, hash);
    forall t | t in table && t.hash == hash ensures Find(table, hash) == Some(t) {
      HashFinds(table, hash, t);
    }
    if Find(table, hash).Some? {
      assert Same(Find(table, hash).value, f(Find(table, hash).value));
    }
  }

  lemma {:induction false} FindOfMap(table: Table, f: Token -> Token, hash: string)
    requires Sound(f)
    ensures Find(Map(table, f), hash) == if Find(table, hash).Some? then Some(f(Find(table, hash).value)) else None
    decreases |table|
  {
    if table != [] {
      assert Same(table[0], f(table[0]));
      assert Map(table, f)[1..] == Map(table[1..], f);
      FindOfMap(table[1..], f, hash);
    }
  }

  /** MAIN: after a revocation exactly the tokens it is about are reuse, and every other token is what it was. */
  lemma RevocationEnds(table: Table, step: Step, users: set<string>, hash: string, now: int, newId: string)
    requires Distinct(table) && (step.Revoke? || step.RevokeAll? || step.RevokeFamily?)
    ensures var after := Verdict(Apply(table, step), users, hash, now, newId);
      && (forall t :: t in table && t.hash == hash && Hits(step, t) ==> after == Reuse(t.user))
      && ((forall t :: t in table && t.hash == hash ==> !Hits(step, t)) ==>
            after == Verdict(table, users, hash, now, newId))
  {
    hide Verdict, Distinct, Sound;
    match step {
      case Revoke(id) =>
        Updates(id, None, "", "");
        MapEnds(table, RevokedOne(id, None), (t: Token) => t.id == id, users, hash, now, newId);
      case RevokeAll(user) =>
        Updates("", None, user, "");
        MapEnds(table, RevokedUser(user), (t: Token) => t.user == user, users, hash, now, newId);
      case RevokeFamily(family) =>
        Updates("", None, "", family);
        MapEnds(table, RevokedFamily(family), (t: Token) => t.family == family, users, hash, now, newId);
    }
  }
}
