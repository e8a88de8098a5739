/** The two tables, the timers and the cache agree in every state a run with conforming recipients
    reaches; and a recipient that does not conform breaks the agreement at once. */
module DeliveryInvariant {
  import opened Sequences
  import opened MailboxTables
  import opened DeliveryProtocol

  /** A mailbox row and the permanent record of its message tell the same story. */
  predicate RowAgrees(r: MailRow, deliveries: map<string, Delivery>, maxRetries: nat) {
    && r.messageId in deliveries
    && var d := deliveries[r.messageId];
      && !Terminal(d.status)
      && d.recipientId == r.recipientId
      && d.senderId == r.senderId
      && (d.status == r.status || d.status == DecryptionFailed)
      && (LiveStatus(r.status) || (r.status == Failed && d.attemptCount >= maxRetries))
  }

  ghost predicate TablesAgree(db: Db, maxRetries: nat) {
    && (forall r :: r in db.mailbox ==> RowAgrees(r, db.deliveries, maxRetries))
    && (forall m :: m in db.deliveries && !Terminal(db.deliveries[m].status) ==> HasMessage(db.mailbox, m))
  }

  predicate TimerAgrees(r: MailRow, t: Timer) {
    t == Timer(r.id, r.messageId, r.recipientId, r.senderId)
  }

  /** Every armed timer names a row that is still there, and whose message has been handed over. */
  ghost predicate TimersAgree(db: Db, timers: map<string, Timer>) {
    forall m :: m in timers ==>
      && (exists r :: r in db.mailbox && r.messageId == m && TimerAgrees(r, timers[m]))
      && m in db.deliveries && db.deliveries[m].attemptCount >= 1
  }

  /** The cache is bounded and holds only messages recorded as acknowledged or read. */
  ghost predicate CacheSound(db: Db, recent: seq<string>) {
    && |recent| <= RECENT_DELIVERED_CACHE_LIMIT
    && (forall i, j :: 0 <= i < j < |recent| ==> recent[i] != recent[j])
    && (forall m :: m in recent ==> m != "" && AlreadyDelivered(db, m))
  }

  ghost predicate Agreement(cfg: Config, s: State) {
    && TablesOk(s.db)
    && TablesAgree(s.db, cfg.maxRetries)
    && TimersAgree(s.db, s.timers)
    && CacheSound(s.db, s.recent)
  }

  lemma InitialAgreement(cfg: Config, users: set<string>)
    ensures Agreement(cfg, Initial(users))
  {
  }

  // ---------------------------------------------------------------------------
  // Bulk updates
  // ---------------------------------------------------------------------------

  /** `after` differs from `before` only in the statuses of rows. */
  ghost predicate SameRows(before: seq<MailRow>, after: seq<MailRow>) {
    && |after| == |before|
    && forall i :: 0 <= i < |before| ==> after[i] == before[i].(status := after[i].status)
  }

  lemma SameRowsMessages(before: seq<MailRow>, after: seq<MailRow>, m: string)
    requires SameRows(before, after)
    ensures HasMessage(before, m) <==> HasMessage(after, m)
  {
    if HasMessage(before, m) {
      var r :| r in before && r.messageId == m;
      var i :| 0 <= i < |before| && before[i] == r;
      assert after[i] in after;
    }
    if HasMessage(after, m) {
      var r :| r in after && r.messageId == m;
      var i :| 0 <= i < |after| && after[i] == r;
      assert before[i] in before;
    }
  }

  lemma SameRowsConstraints(before: Db, after: Db)
    requires TablesOk(before) && after.users == before.users && after.nextId == before.nextId
    requires SameRows(before.mailbox, after.mailbox)
    ensures TablesOk(after)
  {
    var a, b := before.mailbox, after.mailbox;
    forall i, j | 0 <= i < j < |b| ensures b[i].id < b[j].id && b[i].messageId != b[j].messageId {
      assert b[i] == a[i].(status := b[i].status) && b[j] == a[j].(status := b[j].status);
    }
    forall r | r in b ensures 1 <= r.id < after.nextId && r.senderId in after.users && r.recipientId in after.users {
      var i :| 0 <= i < |b| && b[i] == r;
      assert a[i] in a;
    }
  }

  /** Timers and cache survive any update that keeps the rows, the attempts and the terminal records. */
  lemma SameRowsSupport(before: Db, after: Db, timers: map<string, Timer>, recent: seq<string>)
    requires TimersAgree(before, timers) && CacheSound(before, recent)
    requires SameRows(before.mailbox, after.mailbox)
    requires forall m :: m in before.deliveries ==> m in after.deliveries
    requires forall m :: m in before.deliveries ==>
      after.deliveries[m].attemptCount >= before.deliveries[m].attemptCount
    requires forall m :: m in before.deliveries && Terminal(before.deliveries[m].status) ==>
      Terminal(after.deliveries[m].status)
    ensures TimersAgree(after, timers) && CacheSound(after, recent)
  {
    forall m | m in timers
      ensures exists r :: r in after.mailbox && r.messageId == m && TimerAgrees(r, timers[m])
    {
      var r :| r in before.mailbox && r.messageId == m && TimerAgrees(r, timers[m]);
      var i :| 0 <= i < |before.mailbox| && before.mailbox[i] == r;
      assert after.mailbox[i] in after.mailbox;
    }
  }

  /** Row by row agreement carries over to the tables when no record stops being terminal. */
  lemma SameRowsTables(before: Db, after: Db, maxRetries: nat)
    requires TablesAgree(before, maxRetries) && SameRows(before.mailbox, after.mailbox)
    requires after.deliveries.Keys == before.deliveries.Keys
    requires forall m :: m in before.deliveries && Terminal(before.deliveries[m].status) ==>
      Terminal(after.deliveries[m].status)
    requires forall i :: 0 <= i < |after.mailbox| ==> RowAgrees(after.mailbox[i], after.deliveries, maxRetries)
    ensures TablesAgree(after, maxRetries)
  {
    forall m | m in after.deliveries && !Terminal(after.deliveries[m].status)
      ensures HasMessage(after.mailbox, m)
    {
      assert HasMessage(before.mailbox, m);
      SameRowsMessages(before.mailbox, after.mailbox, m);
    }
  }

  /** Handing live messages over once more keeps the tables in agreement. */
  lemma DispatchAgrees(db: Db, messages: set<string>, delay: nat -> int, now: int, maxRetries: nat)
    requires TablesOk(db) && TablesAgree(db, maxRetries)
    requires forall m :: m in messages ==> HasMessage(db.mailbox, m)
    requires forall r :: r in db.mailbox && r.messageId in messages ==> r.status != Failed
    ensures var after := DispatchAll(db, messages, delay, now);
      && SameRows(db.mailbox, after.mailbox)
      && TablesOk(after) && TablesAgree(after, maxRetries)
      && after.deliveries.Keys == db.deliveries.Keys
  {
    var after := DispatchAll(db, messages, delay, now);
    SameRowsConstraints(db, after);
    forall i | 0 <= i < |after.mailbox| ensures RowAgrees(after.mailbox[i], after.deliveries, maxRetries) {
      DispatchedRowAgrees(db, messages, delay, now, maxRetries, i);
    }
    RowsAreNotTerminal(db, messages, maxRetries);
    SameRowsTables(db, after, maxRetries);
  }

  lemma DispatchedRowAgrees(db: Db, messages: set<string>, delay: nat -> int, now: int, maxRetries: nat, i: nat)
    requires i < |db.mailbox| && RowAgrees(db.mailbox[i], db.deliveries, maxRetries)
    requires db.mailbox[i].messageId in messages ==> db.mailbox[i].status != Failed
    ensures var after := DispatchAll(db, messages, delay, now);
      RowAgrees(after.mailbox[i], after.deliveries, maxRetries)
  {
  }

  /** Dead-lettering exhausted messages keeps the tables in agreement. */
  lemma FailAgrees(db: Db, messages: set<string>, maxRetries: nat)
    requires TablesOk(db) && TablesAgree(db, maxRetries)
    requires forall m :: m in messages ==> HasMessage(db.mailbox, m)
    requires forall m :: m in messages && m in db.deliveries ==> db.deliveries[m].attemptCount >= maxRetries
    ensures var after := FailAll(db, messages);
      && SameRows(db.mailbox, after.mailbox)
      && TablesOk(after) && TablesAgree(after, maxRetries)
      && after.deliveries.Keys == db.deliveries.Keys
  {
    var after := FailAll(db, messages);
    SameRowsConstraints(db, after);
    forall i | 0 <= i < |after.mailbox| ensures RowAgrees(after.mailbox[i], after.deliveries, maxRetries) {
      assert RowAgrees(db.mailbox[i], db.deliveries, maxRetries);
    }
    SameRowsTables(db, after, maxRetries);
  }

  /** A message with a row is not recorded as acknowledged or read. */
  lemma RowsAreNotTerminal(db: Db, messages: set<string>, maxRetries: nat)
    requires TablesAgree(db, maxRetries)
    requires forall m :: m in messages ==> HasMessage(db.mailbox, m)
    ensures forall m :: m in messages ==> m in db.deliveries && !Terminal(db.deliveries[m].status)
  {
    forall m | m in messages ensures m in db.deliveries && !Terminal(db.deliveries[m].status) {
      var r :| r in db.mailbox && r.messageId == m;
      assert RowAgrees(r, db.deliveries, maxRetries);
    }
  }

  lemma MessageHasRecord(db: Db, m: string, maxRetries: nat)
    requires TablesAgree(db, maxRetries)
    ensures HasMessage(db.mailbox, m) ==> m in db.deliveries && !Terminal(db.deliveries[m].status)
  {
    if HasMessage(db.mailbox, m) {
      RowsAreNotTerminal(db, {m}, maxRetries);
    }
  }

  lemma {:induction false} ArmAllEntry(timers: map<string, Timer>, rows: seq<MailRow>, m: string)
    ensures m in ArmAll(timers, rows) <==> m in timers || m in MessageIds(rows)
    ensures m in MessageIds(rows) ==>
      exists r :: r in rows && r.messageId == m && ArmAll(timers, rows)[m] == TimerOf(r)
    ensures m in timers && m !in MessageIds(rows) ==> ArmAll(timers, rows)[m] == timers[m]
  {
    if rows != [] {
      var n := |rows| - 1;
      ArmAllEntry(timers, rows[..n], m);
      assert rows == rows[..n] + [rows[n]];
      assert forall r :: r in rows <==> r in rows[..n] || r == rows[n];
    }
  }

  /** Arming timers for rows that have been handed over keeps the timers in agreement. */
  lemma ArmAgrees(db: Db, timers: map<string, Timer>, rows: seq<MailRow>)
    requires TimersAgree(db, timers)
    requires forall r :: r in rows ==>
      exists k :: k in db.mailbox && k.messageId == r.messageId && TimerOf(k) == TimerOf(r)
    requires forall r :: r in rows ==>
      r.messageId in db.deliveries && db.deliveries[r.messageId].attemptCount >= 1
    ensures TimersAgree(db, ArmAll(timers, rows))
  {
    var armed := ArmAll(timers, rows);
    forall m | m in armed
      ensures exists r :: r in db.mailbox && r.messageId == m && TimerAgrees(r, armed[m])
      ensures m in db.deliveries && db.deliveries[m].attemptCount >= 1
    {
      ArmAllEntry(timers, rows, m);
      if m in MessageIds(rows) {
        var r :| r in rows && r.messageId == m && armed[m] == TimerOf(r);
        var k :| k in db.mailbox && k.messageId == r.messageId && TimerOf(k) == TimerOf(r);
        assert TimerAgrees(k, armed[m]);
      }
    }
  }

  lemma DispatchRowsTables(cfg: Config, s: State, rows: seq<MailRow>, delay: nat -> int, now: int)
    requires Agreement(cfg, s)
    requires forall r :: r in rows ==> r in s.db.mailbox && r.status != Failed
    ensures Agreement(cfg, s.(db := DispatchAll(s.db, MessageIds(rows), delay, now)))
    ensures DispatchAll(s.db, MessageIds(rows), delay, now).deliveries.Keys == s.db.deliveries.Keys
    ensures SameRows(s.db.mailbox, DispatchAll(s.db, MessageIds(rows), delay, now).mailbox)
    ensures forall m :: m in MessageIds(rows) ==> m in s.db.deliveries
  {
    var messages := MessageIds(rows);
    forall r | r in s.db.mailbox && r.messageId in messages ensures r.status != Failed {
      var k :| k in rows && k.messageId == r.messageId;
      RowsUnique(s.db, r, k);
    }
    RowsAreNotTerminal(s.db, messages, cfg.maxRetries);
    DispatchAgrees(s.db, messages, delay, now, cfg.maxRetries);
    hide TablesAgree, TablesOk, RowAgrees;
    SameRowsSupport(s.db, DispatchAll(s.db, messages, delay, now), s.timers, s.recent);
  }

  /** A row and its dispatched version have the same timer. */
  lemma DispatchedTimer(db: Db, rows: seq<MailRow>, delay: nat -> int, now: int, r: MailRow)
    requires r in db.mailbox && r in rows && r.messageId in db.deliveries
    ensures var after := DispatchAll(db, MessageIds(rows), delay, now);
      && (exists k :: k in after.mailbox && k.messageId == r.messageId && TimerOf(k) == TimerOf(r))
      && after.deliveries[r.messageId].attemptCount >= 1
  {
    var after := DispatchAll(db, MessageIds(rows), delay, now);
    var i :| 0 <= i < |db.mailbox| && db.mailbox[i] == r;
    assert after.mailbox[i] in after.mailbox && TimerOf(after.mailbox[i]) == TimerOf(r);
  }

  /** Dispatching some rows of the table and arming timers for some of those. */
  lemma DispatchRowsAgrees(cfg: Config, s: State, rows: seq<MailRow>, armed: seq<MailRow>, delay: nat -> int, now: int)
    requires Agreement(cfg, s)
    requires forall r :: r in rows ==> r in s.db.mailbox && r.status != Failed
    requires forall r :: r in armed ==> r in rows
    ensures Agreement(cfg, s.(db := DispatchAll(s.db, MessageIds(rows), delay, now), timers := ArmAll(s.timers, armed)))
    ensures DispatchAll(s.db, MessageIds(rows), delay, now).deliveries.Keys == s.db.deliveries.Keys
    ensures SameRows(s.db.mailbox, DispatchAll(s.db, MessageIds(rows), delay, now).mailbox)
  {
    var after := DispatchAll(s.db, MessageIds(rows), delay, now);
    DispatchRowsTables(cfg, s, rows, delay, now);
    forall r | r in armed
      ensures exists k :: k in after.mailbox && k.messageId == r.messageId && TimerOf(k) == TimerOf(r)
      ensures r.messageId in after.deliveries && after.deliveries[r.messageId].attemptCount >= 1
    {
      DispatchedTimer(s.db, rows, delay, now, r);
    }
    hide TablesAgree, TablesOk, CacheSound;
    ArmAgrees(after, s.timers, armed);
  }

  // ---------------------------------------------------------------------------
  // One lemma per handler
  // ---------------------------------------------------------------------------

  /** A message enters the mailbox only when it has no delivery record at all. */
  lemma QueuesOnlyNewMessages(cfg: Config, db: Db, letter: Letter)
    requires TablesAgree(db, cfg.maxRetries) && !AlreadyDelivered(db, letter.messageId)
    ensures QueueOutcomeOf(db, letter).Inserted? ==> letter.messageId !in db.deliveries
  {
  }

  lemma QueuedConstraints(db: Db, letter: Letter, now: int)
    requires TablesOk(db) && QueueOutcomeOf(db, letter).Inserted?
    ensures TablesOk(QueueMessage(db, letter, now))
  {
    var row := NewRow(db.nextId, letter);
    forall i | 0 <= i < |db.mailbox|
      ensures db.mailbox[i].id < row.id && db.mailbox[i].messageId != row.messageId
    {
      assert db.mailbox[i] in db.mailbox;
    }
  }

  lemma QueuedTablesAgree(db: Db, letter: Letter, now: int, maxRetries: nat)
    requires TablesAgree(db, maxRetries) && QueueOutcomeOf(db, letter).Inserted?
    requires letter.messageId !in db.deliveries
    ensures TablesAgree(QueueMessage(db, letter, now), maxRetries)
  {
    var after, row := QueueMessage(db, letter, now), NewRow(db.nextId, letter);
    assert after.mailbox == db.mailbox + [row] && row in after.mailbox;
    forall r | r in after.mailbox ensures RowAgrees(r, after.deliveries, maxRetries) {
      if r != row {
        assert r in db.mailbox && RowAgrees(r, db.deliveries, maxRetries);
      }
    }
    forall m | m in after.deliveries && !Terminal(after.deliveries[m].status)
      ensures HasMessage(after.mailbox, m)
    {
      if m != letter.messageId {
        assert HasMessage(db.mailbox, m);
        var r :| r in db.mailbox && r.messageId == m;
        assert r in after.mailbox;
      }
    }
  }

  lemma QueueAgrees(cfg: Config, s: State, letter: Letter, now: int)
    requires Agreement(cfg, s)
    requires !AlreadyDelivered(s.db, letter.messageId)
    ensures Agreement(cfg, s.(db := QueueMessage(s.db, letter, now)))
  {
    var db, after := s.db, QueueMessage(s.db, letter, now);
    QueuesOnlyNewMessages(cfg, db, letter);
    if QueueOutcomeOf(db, letter).Inserted? {
      QueuedConstraints(db, letter, now);
      QueuedTablesAgree(db, letter, now, cfg.maxRetries);
      MoreRowsTimers(db, after, s.timers);
    }
  }

  lemma MoreRowsTimers(before: Db, after: Db, timers: map<string, Timer>)
    requires TimersAgree(before, timers)
    requires forall r :: r in before.mailbox ==> r in after.mailbox
    requires forall m :: m in before.deliveries ==>
      m in after.deliveries && after.deliveries[m].attemptCount >= before.deliveries[m].attemptCount
    ensures TimersAgree(after, timers)
  {
    forall m | m in timers
      ensures exists r :: r in after.mailbox && r.messageId == m && TimerAgrees(r, timers[m])
    {
      var r :| r in before.mailbox && r.messageId == m && TimerAgrees(r, timers[m]);
      assert r in after.mailbox;
    }
  }

  lemma SendAgrees(cfg: Config, s: State, letter: Letter, online: bool, now: int)
    requires cfg.Ok() && Agreement(cfg, s)
    ensures Agreement(cfg, SendStep(cfg, s, letter, online, now).state)
  {
    if letter.messageId != "" && letter.messageId !in s.recent && !AlreadyDelivered(s.db, letter.messageId) {
      QueueAgrees(cfg, s, letter, now);
      if QueueOutcomeOf(s.db, letter).Inserted? && online {
        var queued := s.(db := QueueMessage(s.db, letter, now));
        var row := NewRow(s.db.nextId, letter);
        assert row in queued.db.mailbox;
        assert MessageIds([row]) == {letter.messageId};
        assert [row][..0] == [];
        assert ArmAll(queued.timers, [row]) == queued.timers[letter.messageId := TimerOf(row)];
        DispatchRowsAgrees(cfg, queued, [row], [row], FirstDelay(cfg), now);
      }
    }
  }

  /** Every replayed row is one of the user's rows in the mailbox that has not failed. */
  lemma ReplayedRows(db: Db, userId: string, lastAcked: string)
    requires TablesOk(db)
    ensures forall r :: r in Replayed(db, userId, lastAcked) ==>
      r in db.mailbox && r.recipientId == userId && r.status != Failed
    ensures var rows := Replayed(db, userId, lastAcked);
      forall i, j :: 0 <= i < j < |rows| ==> rows[i].id < rows[j].id && rows[i].messageId != rows[j].messageId
  {
    var afterId := IdOfMessage(db.mailbox, lastAcked);
    QueryRows(db, IsPendingFor(userId), PENDING_LIMIT);
    QueryRows(db, IsPendingFor(userId), RESUME_LIMIT);
    QueryRows(db, IsPendingAfter(userId, afterId), RESUME_LIMIT);
  }

  lemma ReplayAgrees(cfg: Config, s: State, userId: string, lastAcked: string, now: int)
    requires cfg.Ok() && Agreement(cfg, s)
    ensures Agreement(cfg, ReplayStep(cfg, s, userId, lastAcked, now).state)
  {
    ReplayedRows(s.db, userId, lastAcked);
    var rows := Replayed(s.db, userId, lastAcked);
    DispatchRowsAgrees(cfg, s, rows, rows, FirstDelay(cfg), now);
  }

  lemma FailureRows(cfg: Config, db: Db)
    requires TablesOk(db)
    ensures forall r :: r in SweepFailures(cfg, db) ==>
      r in db.mailbox && IsExhausted(db.deliveries, cfg.maxRetries)(r) && r.messageId in db.deliveries
    ensures var rows := SweepFailures(cfg, db);
      forall i, j :: 0 <= i < j < |rows| ==> rows[i].id < rows[j].id && rows[i].messageId != rows[j].messageId
  {
    QueryRows(db, IsExhausted(db.deliveries, cfg.maxRetries), SWEEP_LIMIT);
    assert SweepFailures(cfg, db)
        == Take(Filter(db.mailbox, IsExhausted(db.deliveries, cfg.maxRetries)), SWEEP_LIMIT);
  }

  lemma DispatchRows(cfg: Config, db: Db, onlineUsers: set<string>, now: int)
    requires TablesOk(db)
    ensures forall r :: r in SweepDispatches(cfg, db, onlineUsers, now) ==>
      r in db.mailbox && IsCandidate(db.deliveries, cfg.maxRetries, now)(r) && r.recipientId in onlineUsers
    ensures var rows := SweepDispatches(cfg, db, onlineUsers, now);
      forall i, j :: 0 <= i < j < |rows| ==> rows[i].id < rows[j].id && rows[i].messageId != rows[j].messageId
  {
    QueryRows(db, IsCandidate(db.deliveries, cfg.maxRetries, now), SWEEP_LIMIT);
    var found := FindCandidates(db, cfg.maxRetries, now, SWEEP_LIMIT);
    FilterAllIn(found, ToUserIn(onlineUsers));
    var ordered := (a: MailRow, b: MailRow) => a.id < b.id && a.messageId != b.messageId;
    assert Pairwise(found, ordered);
    FilterPairwise(found, ToUserIn(onlineUsers), ordered);
    var rows := SweepDispatches(cfg, db, onlineUsers, now);
    assert forall i, j :: 0 <= i < j < |rows| ==> ordered(rows[i], rows[j]);
  }

  /** No message is both dead-lettered and dispatched by one sweep. */
  lemma SweepDisjoint(cfg: Config, db: Db, onlineUsers: set<string>, now: int)
    requires TablesOk(db)
    ensures MessageIds(SweepFailures(cfg, db)) !! MessageIds(SweepDispatches(cfg, db, onlineUsers, now))
  {
    FailureRows(cfg, db);
    DispatchRows(cfg, db, onlineUsers, now);
  }

  lemma SweepFailAgrees(cfg: Config, s: State)
    requires cfg.Ok() && Agreement(cfg, s)
    ensures Agreement(cfg, s.(db := FailAll(s.db, MessageIds(SweepFailures(cfg, s.db)))))
  {
    FailureRows(cfg, s.db);
    var messages := MessageIds(SweepFailures(cfg, s.db));
    RowsAreNotTerminal(s.db, messages, cfg.maxRetries);
    FailAgrees(s.db, messages, cfg.maxRetries);
    SameRowsSupport(s.db, FailAll(s.db, messages), s.timers, s.recent);
  }

  /** A row a sweep dispatches is still there, as it was, after the sweep's dead-lettering. */
  lemma DispatchesOutliveFailures(cfg: Config, db: Db, onlineUsers: set<string>, now: int)
    requires TablesOk(db)
    ensures forall r :: r in SweepDispatches(cfg, db, onlineUsers, now) ==>
      r in FailAll(db, MessageIds(SweepFailures(cfg, db))).mailbox && r.status != Failed
  {
    var messages := MessageIds(SweepFailures(cfg, db));
    var after := FailAll(db, messages);
    DispatchRows(cfg, db, onlineUsers, now);
    SweepDisjoint(cfg, db, onlineUsers, now);
    forall r | r in SweepDispatches(cfg, db, onlineUsers, now) ensures r in after.mailbox && r.status != Failed {
      assert r.messageId in MessageIds(SweepDispatches(cfg, db, onlineUsers, now));
      var i :| 0 <= i < |db.mailbox| && db.mailbox[i] == r;
      assert after.mailbox[i] == r;
    }
  }

  lemma SweepAgrees(cfg: Config, s: State, onlineUsers: set<string>, reachable: set<string>, now: int)
    requires cfg.Ok() && Agreement(cfg, s)
    ensures Agreement(cfg, SweepStep(cfg, s, onlineUsers, reachable, now).state)
  {
    var dispatches := SweepDispatches(cfg, s.db, onlineUsers, now);
    var failed := s.(db := FailAll(s.db, MessageIds(SweepFailures(cfg, s.db))));
    SweepFailAgrees(cfg, s);
    DispatchesOutliveFailures(cfg, s.db, onlineUsers, now);
    FilterAllIn(dispatches, ToUserIn(reachable));
    DispatchRowsAgrees(cfg, failed, dispatches, Filter(dispatches, ToUserIn(reachable)), SweepDelay(cfg), now);
  }

  lemma FailOne(db: Db, messageId: string)
    ensures messageId in db.deliveries ==> MarkFailed(db, messageId) == FailAll(db, {messageId})
  {
    if messageId in db.deliveries {
      assert MarkFailed(db, messageId).deliveries == FailAll(db, {messageId}).deliveries;
    }
  }

  lemma RetryTablesAgree(db: Db, messageId: string, delay: int, now: int, maxRetries: nat)
    requires TablesAgree(db, maxRetries) && messageId in db.deliveries
    requires !Terminal(db.deliveries[messageId].status)
    requires db.deliveries[messageId].attemptCount < maxRetries
    ensures SameRows(db.mailbox, ScheduleRetry(db, messageId, delay, now).mailbox)
    ensures TablesAgree(ScheduleRetry(db, messageId, delay, now), maxRetries)
  {
    var after := ScheduleRetry(db, messageId, delay, now);
    forall i | 0 <= i < |after.mailbox| ensures RowAgrees(after.mailbox[i], after.deliveries, maxRetries) {
      assert RowAgrees(db.mailbox[i], db.deliveries, maxRetries);
    }
    SameRowsTables(db, after, maxRetries);
  }

  lemma RetryAgrees(cfg: Config, s: State, messageId: string, delay: int, now: int)
    requires Agreement(cfg, s) && messageId in s.db.deliveries
    requires !Terminal(s.db.deliveries[messageId].status)
    requires s.db.deliveries[messageId].attemptCount < cfg.maxRetries
    ensures Agreement(cfg, s.(db := ScheduleRetry(s.db, messageId, delay, now)))
  {
    var after := ScheduleRetry(s.db, messageId, delay, now);
    RetryTablesAgree(s.db, messageId, delay, now, cfg.maxRetries);
    SameRowsConstraints(s.db, after);
    SameRowsSupport(s.db, after, s.timers, s.recent);
  }

  lemma FailOneAgrees(cfg: Config, s: State, messageId: string)
    requires Agreement(cfg, s) && HasMessage(s.db.mailbox, messageId) && messageId in s.db.deliveries
    requires s.db.deliveries[messageId].attemptCount >= cfg.maxRetries
    ensures Agreement(cfg, s.(db := MarkFailed(s.db, messageId)))
  {
    FailOne(s.db, messageId);
    RowsAreNotTerminal(s.db, {messageId}, cfg.maxRetries);
    FailAgrees(s.db, {messageId}, cfg.maxRetries);
    SameRowsSupport(s.db, FailAll(s.db, {messageId}), s.timers, s.recent);
  }

  lemma ClearedAgrees(cfg: Config, s: State, messageId: string)
    requires Agreement(cfg, s)
    ensures Agreement(cfg, s.(timers := s.timers - {messageId}))
  {
  }

  /** The message of an armed timer is in the mailbox, neither acknowledged nor read. */
  lemma TimerHasRecord(cfg: Config, s: State, messageId: string)
    requires Agreement(cfg, s) && messageId in s.timers
    ensures HasMessage(s.db.mailbox, messageId) && messageId in s.db.deliveries
    ensures !Terminal(s.db.deliveries[messageId].status)
    ensures TimeoutAttempts(s.db, messageId) == s.db.deliveries[messageId].attemptCount
  {
    MessageHasRecord(s.db, messageId, cfg.maxRetries);
  }

  lemma TimeoutAgrees(cfg: Config, s: State, messageId: string, now: int)
    requires cfg.Ok() && Agreement(cfg, s)
    ensures Agreement(cfg, TimeoutStep(cfg, s, messageId, now).state)
  {
    hide Agreement, ScheduleRetry, MarkFailed, RetryDelay, HasMessage, TimeoutAttempts;
    if messageId in s.timers {
      var cleared := s.(timers := s.timers - {messageId});
      TimerHasRecord(cfg, s, messageId);
      ClearedAgrees(cfg, s, messageId);
      if TimeoutAttempts(s.db, messageId) >= cfg.maxRetries {
        FailOneAgrees(cfg, cleared, messageId);
      } else {
        RetryAgrees(cfg, cleared, messageId, RetryDelay(TimeoutAttempts(s.db, messageId) + 1, cfg.retryDelays), now);
      }
    }
  }

  /** What a run does to the cache: it stays bounded and free of repeats, every entry was there before
      or is the new id, and the new id is there. */
  lemma RememberBounded(recent: seq<string>, messageId: string)
    requires |recent| <= RECENT_DELIVERED_CACHE_LIMIT && messageId != ""
    requires forall i, j :: 0 <= i < j < |recent| ==> recent[i] != recent[j]
    requires "" !in recent
    ensures var after := Remember(recent, messageId);
      && |after| <= RECENT_DELIVERED_CACHE_LIMIT
      && (forall i, j :: 0 <= i < j < |after| ==> after[i] != after[j])
      && messageId in after
      && (forall m :: m in after ==> m in recent || m == messageId)
      && (|recent| < RECENT_DELIVERED_CACHE_LIMIT ==> forall m :: m in recent ==> m in after)
      && (|recent| == RECENT_DELIVERED_CACHE_LIMIT ==> forall m :: m in recent[1..] ==> m in after)
  {
    if |recent| == RECENT_DELIVERED_CACHE_LIMIT {
      assert recent[0] in recent;
    }
  }

  lemma AckCacheSound(s: State, userId: string, messageId: string, mailboxId: nat)
    requires messageId != "" && CacheSound(s.db, s.recent)
    requires AckSucceeds(s.db, userId, messageId, mailboxId)
    ensures CacheSound(Acknowledge(s.db, userId, messageId, mailboxId), Remember(s.recent, messageId))
  {
    RememberBounded(s.recent, messageId);
  }

  lemma SenderOfRow(db: Db, r: MailRow)
    requires TablesOk(db) && r in db.mailbox
    ensures SenderOfId(db.mailbox, r.id) == r.senderId
  {
    SenderOfIdFound(db.mailbox, r.id);
    assert HasId(db.mailbox, r.id);
    var k :| k in db.mailbox && k.id == r.id && k.senderId == SenderOfId(db.mailbox, r.id);
    RowsUnique(db, k, r);
  }

  /** An acknowledgement that fails on the foreign key names no row of the user's. */
  lemma FailedAckNamesNothing(cfg: Config, db: Db, userId: string, messageId: string, mailboxId: nat)
    requires TablesOk(db) && TablesAgree(db, cfg.maxRetries)
    requires !AckSucceeds(db, userId, messageId, mailboxId)
    ensures forall r :: r in db.mailbox ==> r.messageId != messageId && !NamedByAck(r, userId, messageId, mailboxId)
  {
    forall r | r in db.mailbox ensures r.messageId != messageId && !NamedByAck(r, userId, messageId, mailboxId) {
      assert RowAgrees(r, db.deliveries, cfg.maxRetries);
      SenderOfRow(db, r);
    }
  }

  /** A conforming acknowledgement removes exactly the message's own row. */
  lemma ConformingAckRows(db: Db, userId: string, messageId: string, mailboxId: nat)
    requires TablesOk(db) && messageId != "" && AckSucceeds(db, userId, messageId, mailboxId)
    requires Conforming(db, Ack(userId, messageId, mailboxId))
    ensures var after := Acknowledge(db, userId, messageId, mailboxId);
      && TablesOk(after)
      && forall r :: r in after.mailbox <==> r in db.mailbox && r.messageId != messageId
  {
    var keep := NotNamed(userId, messageId, mailboxId);
    QueryRows(db, keep, |db.mailbox|);
    FilterAllIn(db.mailbox, keep);
    assert Acknowledge(db, userId, messageId, mailboxId).mailbox == Filter(db.mailbox, keep);
  }

  /** A record that has become terminal, and whose row is gone. */
  lemma RowGoneAgrees(db: Db, after: Db, messageId: string, maxRetries: nat)
    requires TablesAgree(db, maxRetries)
    requires forall r :: r in after.mailbox <==> r in db.mailbox && r.messageId != messageId
    requires after.deliveries.Keys == db.deliveries.Keys + {messageId} && Terminal(after.deliveries[messageId].status)
    requires forall m :: m in db.deliveries && m != messageId ==> after.deliveries[m] == db.deliveries[m]
    ensures TablesAgree(after, maxRetries)
  {
    forall r | r in after.mailbox ensures RowAgrees(r, after.deliveries, maxRetries) {
      assert RowAgrees(r, db.deliveries, maxRetries);
    }
    forall m | m in after.deliveries && !Terminal(after.deliveries[m].status)
      ensures HasMessage(after.mailbox, m)
    {
      assert HasMessage(db.mailbox, m);
      var r :| r in db.mailbox && r.messageId == m;
      assert r in after.mailbox;
    }
  }

  lemma RowGoneTimers(db: Db, after: Db, messageId: string, timers: map<string, Timer>)
    requires TimersAgree(db, timers)
    requires forall r :: r in after.mailbox <==> r in db.mailbox && r.messageId != messageId
    requires after.deliveries.Keys == db.deliveries.Keys + {messageId}
    requires forall m :: m in db.deliveries && m != messageId ==> after.deliveries[m] == db.deliveries[m]
    ensures TimersAgree(after, timers - {messageId})
  {
    var left := timers - {messageId};
    forall m | m in left
      ensures exists r :: r in after.mailbox && r.messageId == m && TimerAgrees(r, left[m])
    {
      var r :| r in db.mailbox && r.messageId == m && TimerAgrees(r, timers[m]);
      assert r in after.mailbox;
    }
  }

  lemma AckRecords(db: Db, userId: string, messageId: string, mailboxId: nat)
    requires AckSucceeds(db, userId, messageId, mailboxId)
    ensures var after := Acknowledge(db, userId, messageId, mailboxId);
      && after.deliveries.Keys == db.deliveries.Keys + {messageId} && Terminal(after.deliveries[messageId].status)
      && forall m :: m in db.deliveries && m != messageId ==> after.deliveries[m] == db.deliveries[m]
  {
  }

  lemma ConformingAckAgrees(cfg: Config, s: State, userId: string, messageId: string, mailboxId: nat)
    requires Agreement(cfg, s) && messageId != "" && AckSucceeds(s.db, userId, messageId, mailboxId)
    requires Conforming(s.db, Ack(userId, messageId, mailboxId))
    ensures Agreement(cfg, AckStep(s, userId, messageId, mailboxId).state)
  {
    hide TablesOk, TablesAgree, TimersAgree, CacheSound, Acknowledge, AckSucceeds, Conforming, Remember;
    var after := Acknowledge(s.db, userId, messageId, mailboxId);
    ConformingAckRows(s.db, userId, messageId, mailboxId);
    AckRecords(s.db, userId, messageId, mailboxId);
    RowGoneAgrees(s.db, after, messageId, cfg.maxRetries);
    RowGoneTimers(s.db, after, messageId, s.timers);
    AckCacheSound(s, userId, messageId, mailboxId);
  }

  lemma NonconformingAckBreaks(cfg: Config, s: State, userId: string, messageId: string, mailboxId: nat)
    requires Agreement(cfg, s) && messageId != "" && AckSucceeds(s.db, userId, messageId, mailboxId)
    requires !Conforming(s.db, Ack(userId, messageId, mailboxId))
    ensures !TablesAgree(Acknowledge(s.db, userId, messageId, mailboxId), cfg.maxRetries)
  {
    var db, after := s.db, Acknowledge(s.db, userId, messageId, mailboxId);
    FilterAllIn(db.mailbox, NotNamed(userId, messageId, mailboxId));
    var r :| r in db.mailbox && (r.messageId == messageId || NamedByAck(r, userId, messageId, mailboxId))
             && !(r.messageId == messageId && r.recipientId == userId);
    assert RowAgrees(r, db.deliveries, cfg.maxRetries);
    if r.messageId == messageId {
      assert r in after.mailbox && !RowAgrees(r, after.deliveries, cfg.maxRetries);
    } else {
      assert !Terminal(after.deliveries[r.messageId].status);
      if HasMessage(after.mailbox, r.messageId) {
        var k :| k in after.mailbox && k.messageId == r.messageId;
        RowsUnique(db, k, r);
      }
    }
  }

  lemma AckAgreesIffConforming(cfg: Config, s: State, userId: string, messageId: string, mailboxId: nat)
    requires Agreement(cfg, s)
    ensures Agreement(cfg, AckStep(s, userId, messageId, mailboxId).state)
            <==> Conforming(s.db, Ack(userId, messageId, mailboxId))
  {
    if messageId != "" {
      if !AckSucceeds(s.db, userId, messageId, mailboxId) {
        FailedAckNamesNothing(cfg, s.db, userId, messageId, mailboxId);
      } else if Conforming(s.db, Ack(userId, messageId, mailboxId)) {
        ConformingAckAgrees(cfg, s, userId, messageId, mailboxId);
      } else {
        NonconformingAckBreaks(cfg, s, userId, messageId, mailboxId);
      }
    }
  }

  /** Changing the status of one record keeps or breaks the agreement of the tables. */
  lemma RecordChange(cfg: Config, s: State, m: string, status: Status)
    requires Agreement(cfg, s) && m in s.db.deliveries && (status == Read || status == DecryptionFailed)
    ensures var after := s.(db := s.db.(deliveries := s.db.deliveries[m := s.db.deliveries[m].(status := status)]));
      Agreement(cfg, after) <==> Terminal(status) == Terminal(s.db.deliveries[m].status)
  {
    var db := s.db;
    var after := db.(deliveries := db.deliveries[m := db.deliveries[m].(status := status)]);
    if Terminal(status) == Terminal(db.deliveries[m].status) {
      forall r | r in after.mailbox ensures RowAgrees(r, after.deliveries, cfg.maxRetries) {
        assert RowAgrees(r, db.deliveries, cfg.maxRetries);
      }
      SameRowsSupport(db, after, s.timers, s.recent);
    } else if Terminal(status) {
      assert HasMessage(db.mailbox, m);
      var r :| r in db.mailbox && r.messageId == m;
      assert !RowAgrees(r, after.deliveries, cfg.maxRetries);
    } else {
      MessageHasRecord(db, m, cfg.maxRetries);
    }
  }

  /** A report about a message nobody queued leaves a record without a row. */
  lemma StrayRecordBreaks(cfg: Config, s: State, m: string, d: Delivery)
    requires Agreement(cfg, s) && m !in s.db.deliveries && !Terminal(d.status)
    ensures !TablesAgree(s.db.(deliveries := s.db.deliveries[m := d]), cfg.maxRetries)
  {
    MessageHasRecord(s.db, m, cfg.maxRetries);
  }

  lemma SchedulersAgree(cfg: Config, s: State)
    requires Agreement(cfg, s)
    ensures Agreement(cfg, s.(timers := map[])) && Agreement(cfg, s.(timers := map[], recent := []))
  {
  }

  lemma ReadAgreesIffConforming(cfg: Config, s: State, userId: string, messageId: string, now: int)
    requires cfg.Ok() && Agreement(cfg, s)
    ensures Agreement(cfg, Step(cfg, s, ReadReceipt(userId, messageId), now).state)
            <==> Conforming(s.db, ReadReceipt(userId, messageId))
  {
    hide Agreement;
    if messageId in s.db.deliveries {
      RecordChange(cfg, s, messageId, Read);
    }
  }

  lemma ReportAgreesIffConforming(cfg: Config, s: State, userId: string, messageId: string, senderId: string, now: int)
    requires cfg.Ok() && Agreement(cfg, s)
    ensures Agreement(cfg, Step(cfg, s, DecryptionError(userId, messageId, senderId), now).state)
            <==> Conforming(s.db, DecryptionError(userId, messageId, senderId))
  {
    hide TablesOk, TablesAgree, TimersAgree, CacheSound;
    if messageId in s.db.deliveries {
      RecordChange(cfg, s, messageId, DecryptionFailed);
    } else {
      StrayRecordBreaks(cfg, s, messageId, Delivery(senderId, userId, DecryptionFailed, 0, None));
    }
  }

  /** MAIN: one step keeps the agreement of tables, timers and cache if and only if the event conforms. */
  lemma AgreementIffConforming(cfg: Config, s: State, e: Event, now: int)
    requires cfg.Ok() && Agreement(cfg, s)
    ensures Agreement(cfg, Step(cfg, s, e, now).state) <==> Conforming(s.db, e)
  {
    hide Agreement, SendStep, ReplayStep, SweepStep, TimeoutStep, AckStep, MarkRead, RecordDecryptionFailure;
    match e {
      case Send(letter, online) => SendAgrees(cfg, s, letter, online, now);
      case Replay(userId, lastAcked) => ReplayAgrees(cfg, s, userId, lastAcked, now);
      case Sweep(onlineUsers, reachable) => SweepAgrees(cfg, s, onlineUsers, reachable, now);
      case AckTimeout(messageId) => TimeoutAgrees(cfg, s, messageId, now);
      case Ack(userId, messageId, mailboxId) => AckAgreesIffConforming(cfg, s, userId, messageId, mailboxId);
      case ReadReceipt(userId, messageId) => ReadAgreesIffConforming(cfg, s, userId, messageId, now);
      case DecryptionError(userId, messageId, senderId) =>
        ReportAgreesIffConforming(cfg, s, userId, messageId, senderId, now);
      case StopSchedulers => SchedulersAgree(cfg, s);
      case Restart => SchedulersAgree(cfg, s);
    }
  }

  /** MAIN: the agreement holds in every state of every run with conforming recipients. */
  lemma {:induction false} AgreementHolds(cfg: Config, s: State, events: seq<Timed>)
    requires cfg.Ok() && Agreement(cfg, s) && ConformingRun(cfg, s, events)
    ensures Agreement(cfg, Run(cfg, s, events).state)
    decreases |events|
  {
    if events != [] {
      var n := |events| - 1;
      ConformingPrefix(cfg, s, events, n);
      AgreementHolds(cfg, s, events[..n]);
      AgreementIffConforming(cfg, Run(cfg, s, events[..n]).state, events[n].event, events[n].now);
    }
  }

  /** What the agreement says about one message: it has a row exactly while its record is neither
      acknowledged nor read. */
  lemma RowIffNotTerminal(cfg: Config, s: State, m: string)
    requires Agreement(cfg, s)
    ensures HasMessage(s.db.mailbox, m) <==> m in s.db.deliveries && !Terminal(s.db.deliveries[m].status)
  {
    MessageHasRecord(s.db, m, cfg.maxRetries);
  }

  // ---------------------------------------------------------------------------
  // Acknowledged means done
  // ---------------------------------------------------------------------------

  lemma RowlessUnderBulk(cfg: Config, s: State, m: string, rows: seq<MailRow>)
    requires Agreement(cfg, s) && AlreadyDelivered(s.db, m)
    requires forall r :: r in rows ==> r in s.db.mailbox
    ensures m !in MessageIds(rows)
  {
    MessageHasRecord(s.db, m, cfg.maxRetries);
  }

  lemma SweepLeavesDelivered(cfg: Config, s: State, onlineUsers: set<string>, reachable: set<string>, now: int, m: string)
    requires cfg.Ok() && Agreement(cfg, s) && AlreadyDelivered(s.db, m)
    ensures AlreadyDelivered(SweepStep(cfg, s, onlineUsers, reachable, now).state.db, m)
  {
    FailureRows(cfg, s.db);
    DispatchRows(cfg, s.db, onlineUsers, now);
    RowlessUnderBulk(cfg, s, m, SweepFailures(cfg, s.db));
    RowlessUnderBulk(cfg, s, m, SweepDispatches(cfg, s.db, onlineUsers, now));
  }

  lemma ReplayLeavesDelivered(cfg: Config, s: State, userId: string, lastAcked: string, now: int, m: string)
    requires cfg.Ok() && Agreement(cfg, s) && AlreadyDelivered(s.db, m)
    ensures AlreadyDelivered(ReplayStep(cfg, s, userId, lastAcked, now).state.db, m)
  {
    ReplayedRows(s.db, userId, lastAcked);
    RowlessUnderBulk(cfg, s, m, Replayed(s.db, userId, lastAcked));
  }

  lemma TimeoutLeavesDelivered(cfg: Config, s: State, messageId: string, now: int, m: string)
    requires cfg.Ok() && Agreement(cfg, s) && AlreadyDelivered(s.db, m)
    ensures AlreadyDelivered(TimeoutStep(cfg, s, messageId, now).state.db, m)
  {
    hide Agreement, RetryDelay, TimeoutAttempts, HasMessage, Map, SetStatus;
    if messageId in s.timers {
      TimerHasRecord(cfg, s, messageId);
      assert messageId != m;
    }
  }

  lemma SendLeavesDelivered(cfg: Config, s: State, letter: Letter, online: bool, now: int, m: string)
    requires cfg.Ok() && AlreadyDelivered(s.db, m)
    ensures AlreadyDelivered(SendStep(cfg, s, letter, online, now).state.db, m)
  {
  }

  /** MAIN: from any state of a conforming run, and whatever the next event is, an acknowledged or read
      message stays acknowledged or read, unless that event is a decryption report about this message.
      No sweep, replay, late timeout, resend or foreign acknowledgement takes it back. */
  lemma DeliveredStaysDelivered(cfg: Config, s: State, e: Event, now: int, m: string)
    requires cfg.Ok() && Agreement(cfg, s) && AlreadyDelivered(s.db, m) && m != ""
    ensures AlreadyDelivered(Step(cfg, s, e, now).state.db, m)
            <==> !(e.DecryptionError? && e.messageId == m)
  {
    match e {
      case Send(letter, online) => SendLeavesDelivered(cfg, s, letter, online, now, m);
      case Replay(userId, lastAcked) => ReplayLeavesDelivered(cfg, s, userId, lastAcked, now, m);
      case Sweep(onlineUsers, reachable) => SweepLeavesDelivered(cfg, s, onlineUsers, reachable, now, m);
      case AckTimeout(messageId) => TimeoutLeavesDelivered(cfg, s, messageId, now, m);
      case _ =>
    }
  }

  /** MAIN: over a whole conforming run. */
  lemma {:induction false} DeliveredForGood(cfg: Config, s: State, events: seq<Timed>, m: string)
    requires cfg.Ok() && Agreement(cfg, s) && ConformingRun(cfg, s, events)
    requires AlreadyDelivered(s.db, m) && m != ""
    ensures AlreadyDelivered(Run(cfg, s, events).state.db, m)
    decreases |events|
  {
    if events != [] {
      var n := |events| - 1;
      ConformingPrefix(cfg, s, events, n);
      DeliveredForGood(cfg, s, events[..n], m);
      AgreementHolds(cfg, s, events[..n]);
      var before := Run(cfg, s, events[..n]).state;
      assert Conforming(before.db, events[n].event);
      DeliveredStaysDelivered(cfg, before, events[n].event, events[n].now, m);
    }
  }
}
