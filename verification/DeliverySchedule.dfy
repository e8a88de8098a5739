/** When a message is tried again: what each handler puts into `next_retry_at`, and that the sweep goes by it, no
    sooner and no later. */
module DeliverySchedule {
  import opened Sequences
  import opened MailboxTables
  import opened DeliveryProtocol
  import opened DeliveryInvariant
  import opened DeliveryHistory
  import opened DeliveryRetries
  import opened DeliveryTransactions

  // ---------------------------------------------------------------------------
  // What the sweep's queries ask
  // ---------------------------------------------------------------------------

  /** How many rows the sweep's second query puts before a row. */
  function Ahead(cfg: Config, db: Db, now: int, r: MailRow): nat {
    |Filter(db.mailbox, Before(IsCandidate(db.deliveries, cfg.maxRetries, now), r))|
  }

  /** MAIN: a sweep dispatches exactly the rows of online recipients that neither table calls anything but queued or
      delivered, whose time has come, that have attempts left, and that have fewer than a hundred such rows
      before them. */
  lemma SweepDispatchesIff(cfg: Config, db: Db, onlineUsers: set<string>, now: int, r: MailRow)
    requires TablesOk(db) && r in db.mailbox && r.messageId in db.deliveries
    ensures var d := db.deliveries[r.messageId];
      r in SweepDispatches(cfg, db, onlineUsers, now) <==>
        && r.recipientId in onlineUsers
        && (r.status == Queued || r.status == Delivered) && (d.status == Queued || d.status == Delivered)
        && d.attemptCount < cfg.maxRetries
        && (d.nextRetryAt == None || d.nextRetryAt.value <= now)
        && Ahead(cfg, db, now, r) < 100
  {
    FilterIn(FindCandidates(db, cfg.maxRetries, now, SWEEP_LIMIT), ToUserIn(onlineUsers), r);
    TakeIsAmongFirst(db.mailbox, IsCandidate(db.deliveries, cfg.maxRetries, now), SWEEP_LIMIT, r);
  }

  /** MAIN: and it gives up on exactly the first hundred of the rows so called that have no attempt left. */
  lemma SweepFailsIff(cfg: Config, db: Db, r: MailRow)
    requires TablesOk(db) && r in db.mailbox && r.messageId in db.deliveries
    ensures var d := db.deliveries[r.messageId];
      r in SweepFailures(cfg, db) <==>
        && (r.status == Queued || r.status == Delivered) && (d.status == Queued || d.status == Delivered)
        && d.attemptCount >= cfg.maxRetries
        && |Filter(db.mailbox, Before(IsExhausted(db.deliveries, cfg.maxRetries), r))| < 100
  {
    TakeIsAmongFirst(db.mailbox, IsExhausted(db.deliveries, cfg.maxRetries), SWEEP_LIMIT, r);
  }

  /** A mailbox of at most a hundred rows has no queue. */
  lemma NoneAhead(cfg: Config, db: Db, now: int, r: MailRow)
    requires r in db.mailbox && |db.mailbox| <= 100
    ensures Ahead(cfg, db, now, r) < 100
  {
    FewerBefore(db.mailbox, IsCandidate(db.deliveries, cfg.maxRetries, now), r);
  }

  lemma {:induction false} FewerBefore(rows: seq<MailRow>, p: MailRow -> bool, r: MailRow)
    requires r in rows
    ensures |Filter(rows, Before(p, r))| < |rows|
    decreases |rows|
  {
    if rows[0] != r {
      FewerBefore(rows[1..], p, r);
    }
  }

  // ---------------------------------------------------------------------------
  // What each handler schedules
  // ---------------------------------------------------------------------------

  /** A row with a live record whose next try is set for `due`: a sweep dispatches it from then on. */
  ghost predicate WaitsUntil(cfg: Config, db: Db, r: MailRow, due: int) {
    && r in db.mailbox && LiveStatus(r.status)
    && r.messageId in db.deliveries && LiveStatus(db.deliveries[r.messageId].status)
    && db.deliveries[r.messageId].nextRetryAt == Some(due)
    && forall onlineUsers, now :: r in SweepDispatches(cfg, db, onlineUsers, now) <==>
         r.recipientId in onlineUsers && due <= now && Ahead(cfg, db, now, r) < 100
  }

  lemma Waits(cfg: Config, db: Db, r: MailRow, due: int)
    requires TablesOk(db) && r in db.mailbox && r.messageId in db.deliveries
    requires r.status == Queued || r.status == Delivered
    requires var d := db.deliveries[r.messageId];
      && (d.status == Queued || d.status == Delivered)
      && d.attemptCount < cfg.maxRetries && d.nextRetryAt == Some(due)
    ensures WaitsUntil(cfg, db, r, due)
  {
    hide SweepDispatches, Ahead, TablesOk;
    forall onlineUsers, now
      ensures r in SweepDispatches(cfg, db, onlineUsers, now) <==>
        r.recipientId in onlineUsers && due <= now && Ahead(cfg, db, now, r) < 100
    {
      SweepDispatchesIff(cfg, db, onlineUsers, now, r);
    }
  }

  function AtLeastZero(delay: int): int {
    if delay > 0 then delay else 0
  }

  /** The row of the table that a row has become. */
  lemma RowStays(before: Db, after: Db, r: MailRow, status: Status)
    requires r in before.mailbox && SameRows(before.mailbox, after.mailbox)
    requires forall i :: 0 <= i < |after.mailbox| && before.mailbox[i] == r ==> after.mailbox[i].status == status
    ensures r.(status := status) in after.mailbox
  {
    var i :| 0 <= i < |before.mailbox| && before.mailbox[i] == r;
    assert after.mailbox[i] == r.(status := status);
  }

  lemma RetriedRow(db: Db, r: MailRow, delay: int, at: int)
    requires TablesOk(db) && r in db.mailbox && LiveStatus(r.status) && r.messageId in db.deliveries
    requires LiveStatus(db.deliveries[r.messageId].status)
    ensures var after := ScheduleRetry(db, r.messageId, delay, at);
      && TablesOk(after) && r.(status := Queued) in after.mailbox && r.messageId in after.deliveries
      && after.deliveries[r.messageId] ==
           db.deliveries[r.messageId].(status := Queued, nextRetryAt := Some(at + AtLeastZero(delay)))
  {
    var after := ScheduleRetry(db, r.messageId, delay, at);
    assert SameRows(db.mailbox, after.mailbox);
    SameRowsConstraints(db, after);
    RowStays(db, after, r, Queued);
  }

  /** MAIN: a timer that fires for a message with attempts left puts its next try off by the delay of the next
      attempt: a sweep dispatches it from that moment on and not before. */
  lemma TimeoutWaits(cfg: Config, s: State, r: MailRow, at: int)
    requires cfg.Ok() && TablesOk(s.db) && r in s.db.mailbox && LiveStatus(r.status)
    requires r.messageId in s.timers && r.messageId in s.db.deliveries
    requires LiveStatus(s.db.deliveries[r.messageId].status)
    requires s.db.deliveries[r.messageId].attemptCount < cfg.maxRetries && cfg.maxRetries > 1
    ensures var attempts := s.db.deliveries[r.messageId].attemptCount;
      var delay := RetryDelay(if attempts == 0 then 2 else attempts + 1, cfg.retryDelays);
      var after := Step(cfg, s, AckTimeout(r.messageId), at).state.db;
      && WaitsUntil(cfg, after, r.(status := Queued), at + AtLeastZero(delay))
      && DueAt(after, r.messageId, delay, at) == at + AtLeastZero(delay)
  {
    var attempts := TimeoutAttempts(s.db, r.messageId);
    RetriedRow(s.db, r, RetryDelay(attempts + 1, cfg.retryDelays), at);
    hide WaitsUntil, TablesOk, ScheduleRetry;
    var after := ScheduleRetry(s.db, r.messageId, RetryDelay(attempts + 1, cfg.retryDelays), at);
    Waits(cfg, after, r.(status := Queued), after.deliveries[r.messageId].nextRetryAt.value);
  }

  /** MAIN: a timer that fires gives its message up if and only if the message has used up its attempts, where a
      message without an attempt on record counts as tried once. */
  lemma TimeoutFailsIff(cfg: Config, s: State, m: string, at: int)
    requires cfg.Ok()
    ensures TimeoutFailed(m) in Step(cfg, s, AckTimeout(m), at).outputs <==>
      m in s.timers && (cfg.maxRetries == 1 || (m in s.db.deliveries && s.db.deliveries[m].attemptCount >= cfg.maxRetries))
  {
  }

  /** A timer that fires late, for a message settled meanwhile, reschedules nothing. */
  lemma TimeoutLeavesSettled(cfg: Config, s: State, m: string, at: int)
    requires cfg.Ok() && m in s.db.deliveries && TimeoutFailed(m) !in Step(cfg, s, AckTimeout(m), at).outputs
    requires s.db.deliveries[m].status in {Acknowledged, Read, Failed}
    ensures Step(cfg, s, AckTimeout(m), at).state.db.deliveries == s.db.deliveries
  {
  }

  /** What rescheduling reports: now plus the delay, unless the message is settled and keeps the time it has. */
  lemma RetryReported(db: Db, m: string, delay: int, now: int)
    ensures DueAt(ScheduleRetry(db, m, delay, now), m, delay, now) ==
      if m in db.deliveries && db.deliveries[m].status in {Acknowledged, Read, Failed}
         && db.deliveries[m].nextRetryAt.Some?
      then db.deliveries[m].nextRetryAt.value else now + AtLeastZero(delay)
  {
  }

  /** What counting an attempt reports: one more than before and the time of the next, if the message has a record. */
  lemma AttemptReported(db: Db, m: string, delay: int, now: int)
    ensures AttemptInfoOf(IncrementAttempt(db, m, delay, now), m) ==
      if m !in db.deliveries then AttemptInfo(1, None)
      else AttemptInfo(db.deliveries[m].attemptCount + 1,
                       if delay >= 0 then Some(now + delay) else db.deliveries[m].nextRetryAt)
  {
  }

  /** MAIN: a message queued for an offline recipient is due at once. */
  lemma QueuedIsDue(cfg: Config, s: State, letter: Letter, at: int)
    requires cfg.Ok() && TablesOk(s.db)
    requires var row := NewRow(s.db.nextId, letter); Enqueued(row) in Step(cfg, s, Send(letter, false), at).outputs
    ensures WaitsUntil(cfg, Step(cfg, s, Send(letter, false), at).state.db, NewRow(s.db.nextId, letter), at)
  {
    var after, row := Step(cfg, s, Send(letter, false), at).state.db, NewRow(s.db.nextId, letter);
    QueuedConstraints(s.db, letter, at);
    assert after.mailbox == s.db.mailbox + [row] && row in after.mailbox;
    hide WaitsUntil, TablesOk;
    Waits(cfg, after, row, at);
  }

  /** A dispatched row: delivered, one attempt more, and due after the delay, or as before when the delay is
      negative. */
  lemma DispatchWaits(cfg: Config, db: Db, rows: seq<MailRow>, delay: nat -> int, at: int, r: MailRow)
    requires TablesOk(db) && r in rows && r in db.mailbox && r.messageId in db.deliveries
    requires var d := db.deliveries[r.messageId];
      && d.attemptCount + 1 < cfg.maxRetries && (delay(d.attemptCount) >= 0 || d.nextRetryAt.Some?)
    ensures var d := db.deliveries[r.messageId]; var wait := delay(d.attemptCount);
      WaitsUntil(cfg, DispatchAll(db, MessageIds(rows), delay, at), r.(status := Delivered),
                 if wait >= 0 then at + wait else d.nextRetryAt.value)
  {
    var after := DispatchAll(db, MessageIds(rows), delay, at);
    assert r.messageId in MessageIds(rows);
    assert SameRows(db.mailbox, after.mailbox);
    SameRowsConstraints(db, after);
    RowStays(db, after, r, Delivered);
    hide WaitsUntil, TablesOk;
    Waits(cfg, after, r.(status := Delivered), after.deliveries[r.messageId].nextRetryAt.value);
  }

  /** MAIN: a message handed over as soon as it was queued waits for the delay of the second attempt. */
  lemma SentWaits(cfg: Config, s: State, letter: Letter, at: int)
    requires cfg.Ok() && TablesOk(s.db) && cfg.maxRetries > 1
    requires LiveDispatch(letter.messageId) in Step(cfg, s, Send(letter, true), at).outputs
    ensures WaitsUntil(cfg, Step(cfg, s, Send(letter, true), at).state.db,
                       NewRow(s.db.nextId, letter).(status := Delivered),
                       at + AtLeastZero(RetryDelay(2, cfg.retryDelays)))
  {
    var queued, row := QueueMessage(s.db, letter, at), NewRow(s.db.nextId, letter);
    QueuedConstraints(s.db, letter, at);
    assert queued.mailbox == s.db.mailbox + [row] && row in queued.mailbox && MessageIds([row]) == {letter.messageId};
    hide WaitsUntil, TablesOk;
    DispatchWaits(cfg, queued, [row], FirstDelay(cfg), at, row);
  }

  /** When a dispatched message is due: after the delay, or as before when the delay is negative. */
  function DueAfter(d: Delivery, delay: int, at: int): int
    requires delay >= 0 || d.nextRetryAt.Some?
  {
    if delay >= 0 then at + delay else d.nextRetryAt.value
  }

  /** MAIN: a replayed message waits for the delay of the second attempt, whatever its attempts. */
  lemma ReplayWaits(cfg: Config, s: State, userId: string, lastAcked: string, at: int, r: MailRow)
    requires cfg.Ok() && TablesOk(s.db) && r in Replayed(s.db, userId, lastAcked) && r.messageId in s.db.deliveries
    requires var d := s.db.deliveries[r.messageId];
      && d.attemptCount + 1 < cfg.maxRetries && (RetryDelay(2, cfg.retryDelays) >= 0 || d.nextRetryAt.Some?)
    ensures WaitsUntil(cfg, Step(cfg, s, Replay(userId, lastAcked), at).state.db, r.(status := Delivered),
                       DueAfter(s.db.deliveries[r.messageId], RetryDelay(2, cfg.retryDelays), at))
  {
    ReplayedRows(s.db, userId, lastAcked);
    hide WaitsUntil, TablesOk, Replayed;
    DispatchWaits(cfg, s.db, Replayed(s.db, userId, lastAcked), FirstDelay(cfg), at, r);
  }

  /** What the dead-lettering leaves of a row the sweep goes on to dispatch: everything. */
  lemma FailuresSpare(cfg: Config, db: Db, onlineUsers: set<string>, at: int, r: MailRow)
    requires TablesOk(db) && r in SweepDispatches(cfg, db, onlineUsers, at) && r.messageId in db.deliveries
    ensures var failed := FailAll(db, MessageIds(SweepFailures(cfg, db)));
      && TablesOk(failed) && r in failed.mailbox && r.messageId in failed.deliveries
      && failed.deliveries[r.messageId] == db.deliveries[r.messageId]
  {
    var failed := FailAll(db, MessageIds(SweepFailures(cfg, db)));
    SameRowsConstraints(db, failed);
    hide TablesOk, SweepFailures;
    DispatchesOutliveFailures(cfg, db, onlineUsers, at);
    SweepDisjoint(cfg, db, onlineUsers, at);
    assert r.messageId in MessageIds(SweepDispatches(cfg, db, onlineUsers, at));
  }

  /** MAIN: a message dispatched by a sweep after n attempts waits for the delay of attempt n + 2. */
  lemma SweptWaits(cfg: Config, s: State, onlineUsers: set<string>, reachable: set<string>, at: int, r: MailRow)
    requires cfg.Ok() && TablesOk(s.db) && r in SweepDispatches(cfg, s.db, onlineUsers, at)
    requires r.messageId in s.db.deliveries
    requires var d := s.db.deliveries[r.messageId];
      && d.attemptCount + 1 < cfg.maxRetries
      && (RetryDelay(d.attemptCount + 2, cfg.retryDelays) >= 0 || d.nextRetryAt.Some?)
    ensures var d := s.db.deliveries[r.messageId];
      WaitsUntil(cfg, Step(cfg, s, Sweep(onlineUsers, reachable), at).state.db, r.(status := Delivered),
                 DueAfter(d, RetryDelay(d.attemptCount + 2, cfg.retryDelays), at))
  {
    FailuresSpare(cfg, s.db, onlineUsers, at, r);
    var failed := FailAll(s.db, MessageIds(SweepFailures(cfg, s.db)));
    hide WaitsUntil, TablesOk, SweepDispatches, SweepFailures, FailAll, ArmAll, Map;
    DispatchWaits(cfg, failed, SweepDispatches(cfg, s.db, onlineUsers, at), SweepDelay(cfg), at, r);
  }

  // ---------------------------------------------------------------------------
  // The wait lasts
  // ---------------------------------------------------------------------------

  /** An event that is about the message, or that replays its recipient's mailbox. */
  predicate Concerns(e: Event, m: string, recipient: string) {
    match e
    case Send(letter, _) => letter.messageId == m
    case Replay(userId, _) => userId == recipient
    case AckTimeout(messageId) => messageId == m
    case Ack(_, messageId, _) => messageId == m
    case ReadReceipt(_, messageId) => messageId == m
    case DecryptionError(_, messageId, _) => messageId == m
    case _ => false
  }

  /** The message is set for `due`, or given up; its row, if any, is its recipient's. */
  ghost predicate Resting(db: Db, m: string, recipient: string, due: int) {
    && m in db.deliveries
    && (db.deliveries[m].nextRetryAt == Some(due) || db.deliveries[m].status == Failed)
    && forall r :: r in db.mailbox && r.messageId == m ==> r.recipientId == recipient
  }

  lemma RestingRows(before: Db, after: Db, m: string, recipient: string, due: int)
    requires Resting(before, m, recipient, due) && SameRows(before.mailbox, after.mailbox)
    requires m in after.deliveries && (after.deliveries[m] == before.deliveries[m] || after.deliveries[m].status == Failed)
    ensures Resting(after, m, recipient, due)
  {
    forall r | r in after.mailbox && r.messageId == m ensures r.recipientId == recipient {
      var i :| 0 <= i < |after.mailbox| && after.mailbox[i] == r;
      assert before.mailbox[i] in before.mailbox;
    }
  }

  /** A message that is not due is not among the rows a sweep dispatches. */
  lemma NotDispatched(cfg: Config, db: Db, onlineUsers: set<string>, now: int, m: string, recipient: string, due: int)
    requires Resting(db, m, recipient, due) && now < due
    ensures forall r :: r in SweepDispatches(cfg, db, onlineUsers, now) ==> r.messageId != m
  {
    forall r | r in SweepDispatches(cfg, db, onlineUsers, now) ensures r.messageId != m {
      FilterIn(FindCandidates(db, cfg.maxRetries, now, SWEEP_LIMIT), ToUserIn(onlineUsers), r);
      TakeIn(db, IsCandidate(db.deliveries, cfg.maxRetries, now), r);
    }
  }

  lemma SweepRests(cfg: Config, s: State, onlineUsers: set<string>, reachable: set<string>, now: int,
                   m: string, recipient: string, due: int)
    requires cfg.Ok() && Resting(s.db, m, recipient, due) && now < due
    ensures var after := SweepStep(cfg, s, onlineUsers, reachable, now);
      Resting(after.state.db, m, recipient, due) && forall x :: x in after.outputs ==> !IsDispatchOf(m)(x)
  {
    var after := SweepStep(cfg, s, onlineUsers, reachable, now);
    var failures, rows := SweepFailures(cfg, s.db), SweepDispatches(cfg, s.db, onlineUsers, now);
    NotDispatched(cfg, s.db, onlineUsers, now, m, recipient, due);
    hide SweepFailures, SweepDispatches, ArmAll;
    assert m !in MessageIds(rows);
    forall x | x in after.outputs ensures !IsDispatchOf(m)(x) {
      MapOutputs(failures, ToSweepFailed(), x);
      MapOutputs(rows, ToSweepDispatch(), x);
    }
    RestingRows(s.db, after.state.db, m, recipient, due);
  }

  lemma TakeIn(db: Db, p: MailRow -> bool, r: MailRow)
    requires r in Take(Filter(db.mailbox, p), SWEEP_LIMIT)
    ensures r in db.mailbox && p(r)
  {
    FilterIn(db.mailbox, p, r);
  }

  lemma ReplayRests(cfg: Config, s: State, userId: string, lastAcked: string, now: int,
                    m: string, recipient: string, due: int)
    requires cfg.Ok() && TablesOk(s.db) && Resting(s.db, m, recipient, due) && userId != recipient
    ensures var after := ReplayStep(cfg, s, userId, lastAcked, now);
      Resting(after.state.db, m, recipient, due) && forall x :: x in after.outputs ==> !IsDispatchOf(m)(x)
  {
    var after, rows := ReplayStep(cfg, s, userId, lastAcked, now), Replayed(s.db, userId, lastAcked);
    ReplayedRows(s.db, userId, lastAcked);
    assert m !in MessageIds(rows);
    forall x | x in after.outputs ensures !IsDispatchOf(m)(x) {
      MapOutputs(rows, ToReplayDispatch(), x);
    }
    hide Replayed, Resting;
    RestingRows(s.db, after.state.db, m, recipient, due);
  }

  lemma SendRests(cfg: Config, s: State, letter: Letter, online: bool, now: int, m: string, recipient: string, due: int)
    requires cfg.Ok() && Resting(s.db, m, recipient, due) && letter.messageId != m
    ensures var after := SendStep(cfg, s, letter, online, now);
      Resting(after.state.db, m, recipient, due) && forall x :: x in after.outputs ==> !IsDispatchOf(m)(x)
  {
  }

  lemma AckRests(s: State, userId: string, messageId: string, mailboxId: nat, m: string, recipient: string, due: int)
    requires Resting(s.db, m, recipient, due) && messageId != m
    ensures var after := AckStep(s, userId, messageId, mailboxId);
      Resting(after.state.db, m, recipient, due) && forall x :: x in after.outputs ==> !IsDispatchOf(m)(x)
  {
    FilterAllIn(s.db.mailbox, NotNamed(userId, messageId, mailboxId));
  }

  lemma TimeoutRests(cfg: Config, s: State, messageId: string, now: int, m: string, recipient: string, due: int)
    requires cfg.Ok() && Resting(s.db, m, recipient, due) && messageId != m
    ensures var after := TimeoutStep(cfg, s, messageId, now);
      Resting(after.state.db, m, recipient, due) && forall x :: x in after.outputs ==> !IsDispatchOf(m)(x)
  {
    var after := TimeoutStep(cfg, s, messageId, now);
    assert SameRows(s.db.mailbox, after.state.db.mailbox);
    RestingRows(s.db, after.state.db, m, recipient, due);
  }

  lemma StepRests(cfg: Config, s: State, e: Event, now: int, m: string, recipient: string, due: int)
    requires cfg.Ok() && TablesOk(s.db) && Resting(s.db, m, recipient, due)
    requires !Concerns(e, m, recipient) && (e.Sweep? ==> now < due)
    ensures var after := Step(cfg, s, e, now);
      Resting(after.state.db, m, recipient, due) && forall x :: x in after.outputs ==> !IsDispatchOf(m)(x)
  {
    hide SendStep, ReplayStep, SweepStep, TimeoutStep, AckStep, TablesOk;
    match e {
      case Send(letter, online) => SendRests(cfg, s, letter, online, now, m, recipient, due);
      case Replay(userId, lastAcked) => ReplayRests(cfg, s, userId, lastAcked, now, m, recipient, due);
      case Sweep(onlineUsers, reachable) => SweepRests(cfg, s, onlineUsers, reachable, now, m, recipient, due);
      case AckTimeout(messageId) => TimeoutRests(cfg, s, messageId, now, m, recipient, due);
      case Ack(userId, messageId, mailboxId) => AckRests(s, userId, messageId, mailboxId, m, recipient, due);
      case _ =>
    }
  }

  /** MAIN: back-off is kept. Over any run in which nothing else happens to a message that is set for `due`, it is
      not handed over once by sweeps before `due`, however many there are and whatever else goes on. */
  lemma {:induction false} BackOffIsKept(cfg: Config, s: State, events: seq<Timed>, m: string, recipient: string, due: int)
    requires cfg.Ok() && TablesOk(s.db) && Recorded(s.db) && Resting(s.db, m, recipient, due)
    requires forall t :: t in events ==> !Concerns(t.event, m, recipient) && (t.event.Sweep? ==> t.now < due)
    ensures var run := Run(cfg, s, events);
      Resting(run.state.db, m, recipient, due) && Attempts(run.outputs, m) == 0
    decreases |events|
  {
    hide Step, Resting, TablesOk, Recorded, Concerns, IsDispatchOf;
    if events == [] {
    } else {
      var n := |events| - 1;
      assert events == events[..n] + [events[n]];
      var before := Run(cfg, s, events[..n]);
      assert forall t :: t in events[..n] ==> t in events;
      BackOffIsKept(cfg, s, events[..n], m, recipient, due);
      RunKeepsConstraints(cfg, s, events[..n]);
      assert events[n] in events;
      StepRests(cfg, before.state, events[n].event, events[n].now, m, recipient, due);
      var more := Step(cfg, before.state, events[n].event, events[n].now).outputs;
      CountConcat(before.outputs, more, IsDispatchOf(m));
      FilterNone(more, IsDispatchOf(m));
    }
  }
}
