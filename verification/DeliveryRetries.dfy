/** Retrying: what one sweep does, how attempts are counted, and why retrying ends. */
module DeliveryRetries {
  import opened Sequences
  import opened MailboxTables
  import opened DeliveryProtocol
  import opened DeliveryInvariant
  import opened DeliveryHistory
  import opened DeliveryTransactions
  import opened DeliveryReplay

  // ---------------------------------------------------------------------------
  // Attempt counts
  // ---------------------------------------------------------------------------

  function AttemptsOf(db: Db, m: string): nat {
    if m in db.deliveries then db.deliveries[m].attemptCount else 0
  }

  ghost predicate DistinctMessages(rows: seq<MailRow>) {
    forall i, j :: 0 <= i < j < |rows| ==> rows[i].messageId != rows[j].messageId
  }

  /** Among outputs made one per row, a predicate that picks out one message counts it once or not at all. */
  lemma {:induction false} CountOneOutput(rows: seq<MailRow>, f: MailRow -> Output, p: Output -> bool, m: string)
    requires DistinctMessages(rows)
    requires forall r :: p(f(r)) <==> r.messageId == m
    ensures Count(Map(rows, f), p) == if m in MessageIds(rows) then 1 else 0
    decreases |rows|
  {
    if rows != [] {
      CountOneOutput(rows[1..], f, p, m);
      assert Map(rows, f)[1..] == Map(rows[1..], f);
      assert forall r :: r in rows <==> r == rows[0] || r in rows[1..];
      if rows[0].messageId == m {
        forall r | r in rows[1..] ensures r.messageId != m {
          var i :| 0 <= i < |rows[1..]| && rows[1..][i] == r;
          assert rows[i + 1] == r;
        }
      }
    }
  }

  lemma CountNoOutput(outputs: seq<Output>, p: Output -> bool)
    requires forall x :: x in outputs ==> !p(x)
    ensures Count(outputs, p) == 0
  {
    FilterNone(outputs, p);
  }

  lemma DispatchAttempts(db: Db, messages: set<string>, delay: nat -> int, now: int, m: string)
    requires m in messages ==> m in db.deliveries
    ensures AttemptsOf(DispatchAll(db, messages, delay, now), m) == AttemptsOf(db, m) + (if m in messages then 1 else 0)
  {
  }

  lemma ReplayOutputsCount(rows: seq<MailRow>, m: string)
    requires DistinctMessages(rows)
    ensures Attempts(Map(rows, ToReplayDispatch()), m) == if m in MessageIds(rows) then 1 else 0
    ensures Replays(Map(rows, ToReplayDispatch()), m) == if m in MessageIds(rows) then 1 else 0
  {
    CountOneOutput(rows, ToReplayDispatch(), IsDispatchOf(m), m);
    CountOneOutput(rows, ToReplayDispatch(), IsReplayOf(m), m);
  }

  lemma SweepOutputsCount(failures: seq<MailRow>, rows: seq<MailRow>, m: string)
    requires DistinctMessages(rows)
    ensures var outputs := Map(failures, ToSweepFailed()) + Map(rows, ToSweepDispatch());
      Attempts(outputs, m) == (if m in MessageIds(rows) then 1 else 0) && Replays(outputs, m) == 0
  {
    var a, b := Map(failures, ToSweepFailed()), Map(rows, ToSweepDispatch());
    AttemptsConcat(a, b, m);
    CountNoOutput(a, IsDispatchOf(m));
    CountNoOutput(a, IsReplayOf(m));
    CountNoOutput(b, IsReplayOf(m));
    CountOneOutput(rows, ToSweepDispatch(), IsDispatchOf(m), m);
  }

  lemma RowsHaveRecords(db: Db, rows: seq<MailRow>, m: string)
    requires Recorded(db) && forall r :: r in rows ==> r in db.mailbox
    ensures m in MessageIds(rows) ==> m in db.deliveries
  {
    if m in MessageIds(rows) {
      var r :| r in rows && r.messageId == m;
    }
  }

  // ---------------------------------------------------------------------------
  // Since a message was last queued
  // ---------------------------------------------------------------------------

  predicate Queues(outputs: seq<Output>, m: string) {
    exists x :: x in outputs && x.Enqueued? && x.row.messageId == m
  }

  /** What has been put out since the message was last queued; everything, if it never was. */
  function SinceQueued(outputs: seq<Output>, m: string): seq<Output>
    decreases |outputs|
  {
    if outputs == [] then []
    else
      var n := |outputs| - 1;
      if outputs[n].Enqueued? && outputs[n].row.messageId == m then []
      else SinceQueued(outputs[..n], m) + [outputs[n]]
  }

  lemma {:induction false} SinceQueuedConcat(a: seq<Output>, b: seq<Output>, m: string)
    ensures SinceQueued(a + b, m) == if Queues(b, m) then SinceQueued(b, m) else SinceQueued(a, m) + b
    decreases |b|
  {
    if b == [] {
      assert a + b == a && SinceQueued(a, m) + b == SinceQueued(a, m);
    } else {
      var n := |b| - 1;
      var init, last := b[..n], b[n];
      assert b == init + [last];
      assert (a + b)[..|a + b| - 1] == a + init && (a + b)[|a + b| - 1] == last;
      SinceQueuedConcat(a, init, m);
      assert forall x :: x in b <==> x in init || x == last;
      ConcatAssoc(SinceQueued(a, m), init, [last]);
    }
  }

  /** A message's attempts since it was last queued are what its record counts; its replays since then are all
      that can carry the count past the maximum. */
  ghost predicate AttemptsCounted(cfg: Config, db: Db, outputs: seq<Output>, m: string) {
    var since := SinceQueued(outputs, m);
    && AttemptsOf(db, m) == Attempts(since, m)
    && AttemptsOf(db, m) <= cfg.maxRetries + Replays(since, m)
  }

  /** What one step does to a message's count: a step that queues it starts the count anew, any other adds the
      times it hands the message over; and only a replay hands over a message that has used up its retries. */
  ghost predicate CountsStep(cfg: Config, before: Db, after: Db, outputs: seq<Output>, m: string) {
    var counted := if Queues(outputs, m) then 0 else AttemptsOf(before, m);
    var since := if Queues(outputs, m) then SinceQueued(outputs, m) else outputs;
    && AttemptsOf(after, m) == counted + Attempts(since, m)
    && (AttemptsOf(after, m) <= cfg.maxRetries || AttemptsOf(after, m) == counted + Replays(since, m))
  }

  lemma SendAttempts(cfg: Config, s: State, letter: Letter, online: bool, now: int, m: string)
    requires cfg.Ok() && TablesOk(s.db)
    ensures var after := SendStep(cfg, s, letter, online, now);
      && (!Queues(after.outputs, m) ==>
            AttemptsOf(after.state.db, m) == AttemptsOf(s.db, m) && Attempts(after.outputs, m) == 0)
      && (Queues(after.outputs, m) ==>
            AttemptsOf(after.state.db, m) == Attempts(SinceQueued(after.outputs, m), m) <= 1)
      && Replays(after.outputs, m) == 0
  {
    hide Attempts, Replays, TablesOk, SinceQueued;
    var after := SendStep(cfg, s, letter, online, now);
    var row := NewRow(s.db.nextId, letter);
    SendOutputsCount(row, m);
    if Enqueued(row) in after.outputs {
      SendAppends(cfg, s, letter, online, now);
    }
  }

  /** Of what a send puts out only the live dispatch counts as an attempt. */
  lemma SendOutputsCount(row: MailRow, m: string)
    ensures var live := [Enqueued(row), LiveDispatch(row.messageId)];
      && Attempts(live, m) == (if row.messageId == m then 1 else 0) && Replays(live, m) == 0
      && (row.messageId == m ==> Attempts(SinceQueued(live, m), m) == 1)
    ensures Attempts([Enqueued(row)], m) == 0 && Replays([Enqueued(row)], m) == 0
    ensures row.messageId == m ==> Attempts(SinceQueued([Enqueued(row)], m), m) == 0
    ensures Attempts([Suppressed(row.messageId)], m) == 0 && Replays([Suppressed(row.messageId)], m) == 0
    ensures Attempts([], m) == 0 && Replays([], m) == 0
  {
    var a, b := [Enqueued(row)], [LiveDispatch(row.messageId)];
    assert a + b == [Enqueued(row), LiveDispatch(row.messageId)];
    AttemptsConcat(a, b, m);
    CountNoOutput(a, IsDispatchOf(m));
    CountNoOutput(a, IsReplayOf(m));
    CountNoOutput(b, IsReplayOf(m));
    assert b[1..] == [];
    if row.messageId == m {
      SinceQueuedConcat(a, b, m);
      assert [] + b == b;
    }
    CountNoOutput([Suppressed(row.messageId)], IsDispatchOf(m));
    CountNoOutput([Suppressed(row.messageId)], IsReplayOf(m));
  }

  lemma QuietAttempts(cfg: Config, s: State, e: Event, now: int, m: string)
    requires cfg.Ok() && (e.AckTimeout? || e.Ack? || e.ReadReceipt? || e.DecryptionError? || e.StopSchedulers? || e.Restart?)
    ensures var after := Step(cfg, s, e, now);
      && AttemptsOf(after.state.db, m) == AttemptsOf(s.db, m)
      && Attempts(after.outputs, m) == 0 && Replays(after.outputs, m) == 0
  {
    hide Attempts, Replays, Remember, RetryDelay, TimeoutAttempts, NamedByAck, AckSucceeds;
    QuietOutputsCount(Step(cfg, s, e, now).outputs, m);
  }

  lemma QuietOutputsCount(outputs: seq<Output>, m: string)
    requires forall x :: x in outputs ==> x.Acked? || x.TimeoutFailed?
    ensures Attempts(outputs, m) == 0 && Replays(outputs, m) == 0
  {
    CountNoOutput(outputs, IsDispatchOf(m));
    CountNoOutput(outputs, IsReplayOf(m));
  }

  lemma ReplayAttempts(cfg: Config, s: State, userId: string, lastAcked: string, now: int, m: string)
    requires cfg.Ok() && TablesOk(s.db) && Recorded(s.db)
    ensures var after := ReplayStep(cfg, s, userId, lastAcked, now);
      && AttemptsOf(after.state.db, m) == AttemptsOf(s.db, m) + Attempts(after.outputs, m)
      && Attempts(after.outputs, m) == Replays(after.outputs, m)
  {
    hide Replayed, Attempts, Replays, TablesOk, Recorded, AttemptsOf, DispatchAll, FirstDelay;
    var rows := Replayed(s.db, userId, lastAcked);
    ReplayedRows(s.db, userId, lastAcked);
    RowsHaveRecords(s.db, rows, m);
    DispatchAttempts(s.db, MessageIds(rows), FirstDelay(cfg), now, m);
    ReplayOutputsCount(rows, m);
  }

  lemma SweepAttempts(cfg: Config, s: State, onlineUsers: set<string>, reachable: set<string>, now: int, m: string)
    requires cfg.Ok() && TablesOk(s.db) && Recorded(s.db)
    ensures var after := SweepStep(cfg, s, onlineUsers, reachable, now);
      && AttemptsOf(after.state.db, m) == AttemptsOf(s.db, m) + Attempts(after.outputs, m)
      && (AttemptsOf(after.state.db, m) <= cfg.maxRetries || Attempts(after.outputs, m) == 0)
      && Replays(after.outputs, m) == 0
  {
    hide SweepFailures, SweepDispatches, Attempts, Replays, TablesOk, Recorded, SweepDelay;
    var failures, rows := SweepFailures(cfg, s.db), SweepDispatches(cfg, s.db, onlineUsers, now);
    DispatchRows(cfg, s.db, onlineUsers, now);
    RowsHaveRecords(s.db, rows, m);
    DispatchAttempts(FailAll(s.db, MessageIds(failures)), MessageIds(rows), SweepDelay(cfg), now, m);
    SweepOutputsCount(failures, rows, m);
  }

  lemma StepQueuesNothing(cfg: Config, s: State, e: Event, now: int, m: string)
    requires cfg.Ok() && !e.Send?
    ensures !Queues(Step(cfg, s, e, now).outputs, m)
  {
    if !e.Ack? {
      StepKeepsRows(cfg, s, e, now);
    }
  }

  lemma StepCounts(cfg: Config, s: State, e: Event, now: int, m: string)
    requires cfg.Ok() && TablesOk(s.db) && Recorded(s.db)
    ensures var after := Step(cfg, s, e, now); CountsStep(cfg, s.db, after.state.db, after.outputs, m)
  {
    hide TablesOk, Recorded, AttemptsOf, Attempts, Replays, Queues, SinceQueued, SendStep, ReplayStep, SweepStep;
    match e {
      case Send(letter, online) =>
        SendAttempts(cfg, s, letter, online, now, m);
      case Replay(userId, lastAcked) =>
        ReplayAttempts(cfg, s, userId, lastAcked, now, m);
        StepQueuesNothing(cfg, s, e, now, m);
      case Sweep(onlineUsers, reachable) =>
        SweepAttempts(cfg, s, onlineUsers, reachable, now, m);
        StepQueuesNothing(cfg, s, e, now, m);
      case _ =>
        QuietAttempts(cfg, s, e, now, m);
        StepQueuesNothing(cfg, s, e, now, m);
    }
  }

  lemma CountedAfter(cfg: Config, before: Db, after: Db, outputs: seq<Output>, more: seq<Output>, m: string)
    requires AttemptsCounted(cfg, before, outputs, m) && CountsStep(cfg, before, after, more, m)
    ensures AttemptsCounted(cfg, after, outputs + more, m)
  {
    hide AttemptsOf, Attempts, Replays, SinceQueued;
    SinceQueuedConcat(outputs, more, m);
    if !Queues(more, m) {
      AttemptsConcat(SinceQueued(outputs, m), more, m);
    }
  }

  /** MAIN: over every run, whatever clients do, a message's attempt count is the number of times it was handed
      over, live, by a sweep or by a replay, since it was last queued; and it exceeds the maximum at most by
      the number of replays since then. */
  lemma {:induction false} AttemptsSinceQueued(cfg: Config, users: set<string>, events: seq<Timed>, m: string)
    requires cfg.Ok()
    ensures var run := Run(cfg, Initial(users), events); AttemptsCounted(cfg, run.state.db, run.outputs, m)
    decreases |events|
  {
    hide AttemptsCounted, Step, TablesOk, Recorded, CountsStep;
    if events == [] {
      NothingCounted(cfg, users, m);
    } else {
      var n := |events| - 1;
      AttemptsSinceQueued(cfg, users, events[..n], m);
      InitialConstraints(users);
      RunKeepsConstraints(cfg, Initial(users), events[..n]);
      var before := Run(cfg, Initial(users), events[..n]);
      var after := Step(cfg, before.state, events[n].event, events[n].now);
      StepCounts(cfg, before.state, events[n].event, events[n].now, m);
      CountedAfter(cfg, before.state.db, after.state.db, before.outputs, after.outputs, m);
    }
  }

  lemma NothingCounted(cfg: Config, users: set<string>, m: string)
    ensures AttemptsCounted(cfg, Initial(users).db, [], m)
  {
  }

  lemma ReplaysAreAttempts(outputs: seq<Output>, m: string)
    ensures Replays(outputs, m) <= Attempts(outputs, m)
  {
    var replays := Filter(outputs, IsReplayOf(m));
    FilterTwice(outputs, IsDispatchOf(m), IsReplayOf(m), IsReplayOf(m));
  }

  lemma QueuesOnlyUncounted(cfg: Config, s: State, e: Event, now: int, m: string)
    requires cfg.Ok() && Agreement(cfg, s) && Queues(Step(cfg, s, e, now).outputs, m)
    ensures AttemptsOf(s.db, m) == 0
  {
    hide Agreement;
    if e.Send? {
      NewMessageAttempts(cfg, s, e.letter);
    } else {
      StepQueuesNothing(cfg, s, e, now, m);
    }
  }

  lemma NewMessageAttempts(cfg: Config, s: State, letter: Letter)
    requires Agreement(cfg, s)
    ensures !AlreadyDelivered(s.db, letter.messageId) && QueueOutcomeOf(s.db, letter).Inserted? ==>
      letter.messageId !in s.db.deliveries
  {
    if !AlreadyDelivered(s.db, letter.messageId) {
      QueuesOnlyNewMessages(cfg, s.db, letter);
    }
  }

  /** Over a conforming run a message was never handed over before it was last queued. */
  lemma {:induction false} CountsWholeRun(cfg: Config, users: set<string>, events: seq<Timed>, m: string)
    requires cfg.Ok() && ConformingRun(cfg, Initial(users), events)
    ensures var outputs := Run(cfg, Initial(users), events).outputs;
      && Attempts(outputs, m) == Attempts(SinceQueued(outputs, m), m)
      && Replays(outputs, m) == Replays(SinceQueued(outputs, m), m)
    decreases |events|
  {
    hide Step, Agreement, Attempts, Replays, Queues, SinceQueued, AttemptsOf;
    if events == [] {
      NothingCounted(cfg, users, m);
      NothingSince(m);
    } else {
      var n := |events| - 1;
      InitialAgreement(cfg, users);
      ConformingPrefix(cfg, Initial(users), events, n);
      CountsWholeRun(cfg, users, events[..n], m);
      AttemptsSinceQueued(cfg, users, events[..n], m);
      AgreementHolds(cfg, Initial(users), events[..n]);
      var before := Run(cfg, Initial(users), events[..n]);
      var more := Step(cfg, before.state, events[n].event, events[n].now).outputs;
      SinceQueuedConcat(before.outputs, more, m);
      AttemptsConcat(before.outputs, more, m);
      ReplaysAreAttempts(before.outputs, m);
      if Queues(more, m) {
        QueuesOnlyUncounted(cfg, before.state, events[n].event, events[n].now, m);
        QueueingCounts(cfg, before.state, events[n].event, events[n].now, m);
      } else {
        AttemptsConcat(SinceQueued(before.outputs, m), more, m);
      }
    }
  }

  lemma NothingSince(m: string)
    ensures SinceQueued([], m) == []
  {
  }

  /** A step that queues a message hands it over only after that. */
  lemma QueueingCounts(cfg: Config, s: State, e: Event, now: int, m: string)
    requires cfg.Ok() && Queues(Step(cfg, s, e, now).outputs, m)
    ensures var more := Step(cfg, s, e, now).outputs;
      Attempts(more, m) == Attempts(SinceQueued(more, m), m) && Replays(more, m) == Replays(SinceQueued(more, m), m)
  {
    hide Attempts, Replays, SinceQueued;
    if e.Send? {
      var row := NewRow(s.db.nextId, e.letter);
      SendOutputsCount(row, m);
      SinceSend(row);
    } else {
      StepQueuesNothing(cfg, s, e, now, m);
    }
  }

  lemma SinceSend(row: MailRow)
    ensures var m := row.messageId;
      && Replays(SinceQueued([Enqueued(row), LiveDispatch(m)], m), m) == 0
      && Replays(SinceQueued([Enqueued(row)], m), m) == 0
  {
    var m := row.messageId;
    var a, b := [Enqueued(row)], [LiveDispatch(m)];
    assert a + b == [Enqueued(row), LiveDispatch(m)];
    SinceQueuedConcat(a, b, m);
    assert [] + b == b;
    CountNoOutput(b, IsReplayOf(m));
  }

  /** MAIN: so over a conforming run, which queues a message once, the count is all the times it was handed over;
      and it exceeds the maximum at most by the number of replays. */
  lemma AttemptsAreDispatches(cfg: Config, users: set<string>, events: seq<Timed>, m: string)
    requires cfg.Ok() && ConformingRun(cfg, Initial(users), events)
    ensures var run := Run(cfg, Initial(users), events);
      && AttemptsOf(run.state.db, m) == Attempts(run.outputs, m)
      && AttemptsOf(run.state.db, m) <= cfg.maxRetries + Replays(run.outputs, m)
  {
    hide Run, Attempts, Replays, SinceQueued, AttemptsOf, ConformingRun;
    AttemptsSinceQueued(cfg, users, events, m);
    CountsWholeRun(cfg, users, events, m);
  }

  // ---------------------------------------------------------------------------
  // One sweep
  // ---------------------------------------------------------------------------

  /** Dead-lettering does not change which rows are due: the sweep's second query, which runs after the
      dead-lettering, finds what it would have found before it. */
  lemma CandidatesUnaffected(cfg: Config, db: Db, now: int)
    requires TablesOk(db)
    ensures FindCandidates(FailAll(db, MessageIds(SweepFailures(cfg, db))), cfg.maxRetries, now, SWEEP_LIMIT)
         == FindCandidates(db, cfg.maxRetries, now, SWEEP_LIMIT)
  {
    var messages := MessageIds(SweepFailures(cfg, db));
    var after := FailAll(db, messages);
    var p, q := IsCandidate(after.deliveries, cfg.maxRetries, now), IsCandidate(db.deliveries, cfg.maxRetries, now);
    FailureRows(cfg, db);
    assert after.mailbox == SetStatus(db.mailbox, messages, Failed);
    FilterOfStatus(db.mailbox, messages, p, q);
  }

  /** Failing rows that neither predicate selects leaves the selection alone. */
  lemma {:induction false} FilterOfStatus(rows: seq<MailRow>, messages: set<string>, p: MailRow -> bool, q: MailRow -> bool)
    requires forall r :: r in rows && r.messageId in messages ==> !p(r.(status := Failed)) && !q(r)
    requires forall r :: r in rows && r.messageId !in messages ==> p(r) == q(r)
    ensures Filter(SetStatus(rows, messages, Failed), p) == Filter(rows, q)
    decreases |rows|
  {
    if rows != [] {
      assert rows[0] in rows;
      assert forall r :: r in rows[1..] ==> r in rows;
      FilterOfStatus(rows[1..], messages, p, q);
      assert SetStatus(rows, messages, Failed)[1..] == SetStatus(rows[1..], messages, Failed);
    }
  }

  function Before(p: MailRow -> bool, r: MailRow): MailRow -> bool {
    (k: MailRow) => p(k) && k.id < r.id
  }

  /** The row `r` stands among the first `limit` rows, by id, of those that satisfy `p`. */
  predicate AmongFirst(rows: seq<MailRow>, p: MailRow -> bool, limit: nat, r: MailRow) {
    r in rows && p(r) && |Filter(rows, Before(p, r))| < limit
  }

  lemma {:induction false} TakeIsAmongFirst(rows: seq<MailRow>, p: MailRow -> bool, limit: nat, r: MailRow)
    requires forall i, j :: 0 <= i < j < |rows| ==> rows[i].id < rows[j].id
    ensures r in Take(Filter(rows, p), limit) <==> AmongFirst(rows, p, limit, r)
    decreases |rows|
  {
    if rows != [] {
      var n := |rows| - 1;
      var init := rows[..n];
      assert rows == init + [rows[n]];
      forall k | k in init ensures k.id < rows[n].id {
        var i :| 0 <= i < n && init[i] == k;
      }
      TakeIsAmongFirst(init, p, limit, r);
      AmongFirstSnoc(init, rows[n], p, limit, r);
    }
  }

  lemma AmongFirstSnoc(init: seq<MailRow>, last: MailRow, p: MailRow -> bool, limit: nat, r: MailRow)
    requires forall k :: k in init ==> k.id < last.id
    requires r in Take(Filter(init, p), limit) <==> AmongFirst(init, p, limit, r)
    ensures r in Take(Filter(init + [last], p), limit) <==> AmongFirst(init + [last], p, limit, r)
  {
    FilterSnoc(init, last, p);
    if p(last) {
      TakeSnoc(Filter(init, p), last, limit, r);
    } else {
      assert Filter(init + [last], p) == Filter(init, p);
    }
    FilterIn(init, p, r);
    if r == last {
      LastAmongFirst(init, last, p, limit);
    } else {
      EarlierAmongFirst(init, last, p, limit, r);
    }
  }

  lemma LastAmongFirst(init: seq<MailRow>, last: MailRow, p: MailRow -> bool, limit: nat)
    requires forall k :: k in init ==> k.id < last.id
    ensures AmongFirst(init + [last], p, limit, last) <==> p(last) && |Filter(init, p)| < limit
    ensures last !in init
  {
    FilterSnoc(init, last, Before(p, last));
    FilterAgree(init, Before(p, last), p);
    assert last in init + [last];
  }

  lemma EarlierAmongFirst(init: seq<MailRow>, last: MailRow, p: MailRow -> bool, limit: nat, r: MailRow)
    requires forall k :: k in init ==> k.id < last.id
    requires r != last
    ensures AmongFirst(init + [last], p, limit, r) <==> AmongFirst(init, p, limit, r)
  {
    FilterSnoc(init, last, Before(p, r));
    assert r in init + [last] <==> r in init;
  }

  lemma TakeSnoc(s: seq<MailRow>, x: MailRow, n: nat, r: MailRow)
    ensures r in Take(s + [x], n) <==> r in Take(s, n) || (r == x && |s| < n)
  {
    if |s| < n {
      assert Take(s + [x], n) == s + [x];
    } else {
      assert Take(s + [x], n) == s[..n] == Take(s, n);
    }
  }

  /** MAIN: one sweep dead-letters exactly the first `limit` live rows that have used up their retries, and
      dispatches exactly the online recipients' rows among the first `limit` due rows that have not, both
      in id order; every other row and record is left as it was. */
  lemma SweepDoesExactly(cfg: Config, s: State, onlineUsers: set<string>, reachable: set<string>, now: int, i: nat)
    requires cfg.Ok() && TablesOk(s.db) && i < |s.db.mailbox|
    ensures var after := SweepStep(cfg, s, onlineUsers, reachable, now).state.db;
      var r := s.db.mailbox[i];
      var exhausted := AmongFirst(s.db.mailbox, IsExhausted(s.db.deliveries, cfg.maxRetries), SWEEP_LIMIT, r);
      var dispatched := r.recipientId in onlineUsers
        && AmongFirst(s.db.mailbox, IsCandidate(s.db.deliveries, cfg.maxRetries, now), SWEEP_LIMIT, r);
      && after.mailbox[i] == r.(status := if exhausted then Failed else if dispatched then Delivered else r.status)
      && !(exhausted && dispatched)
      && (exhausted <==> r in SweepFailures(cfg, s.db))
      && (dispatched <==> r in SweepDispatches(cfg, s.db, onlineUsers, now))
  {
    var r := s.db.mailbox[i];
    TakeIsAmongFirst(s.db.mailbox, IsExhausted(s.db.deliveries, cfg.maxRetries), SWEEP_LIMIT, r);
    TakeIsAmongFirst(s.db.mailbox, IsCandidate(s.db.deliveries, cfg.maxRetries, now), SWEEP_LIMIT, r);
    FilterIn(FindCandidates(s.db, cfg.maxRetries, now, SWEEP_LIMIT), ToUserIn(onlineUsers), r);
    FailureRows(cfg, s.db);
    DispatchRows(cfg, s.db, onlineUsers, now);
    InMessagesIffInRows(s.db, SweepFailures(cfg, s.db), r);
    InMessagesIffInRows(s.db, SweepDispatches(cfg, s.db, onlineUsers, now), r);
  }

  lemma InMessagesIffInRows(db: Db, rows: seq<MailRow>, r: MailRow)
    requires TablesOk(db) && r in db.mailbox && forall k :: k in rows ==> k in db.mailbox
    ensures r.messageId in MessageIds(rows) <==> r in rows
  {
    if r.messageId in MessageIds(rows) {
      var k :| k in rows && k.messageId == r.messageId;
      RowsUnique(db, k, r);
    }
  }

  lemma SweptRecords(cfg: Config, s: State, onlineUsers: set<string>, reachable: set<string>, now: int, m: string)
    requires cfg.Ok() && TablesOk(s.db) && m in s.db.deliveries
    ensures var after := SweepStep(cfg, s, onlineUsers, reachable, now).state.db;
      var d := s.db.deliveries[m];
      && after.deliveries.Keys == s.db.deliveries.Keys
      && after.deliveries[m] ==
           (if m in MessageIds(SweepFailures(cfg, s.db)) then d.(status := Failed, nextRetryAt := None)
            else if m in MessageIds(SweepDispatches(cfg, s.db, onlineUsers, now)) then
              Attempted(d, RetryDelay(d.attemptCount + 2, cfg.retryDelays), now).(status := Delivered)
            else d)
      && (!HasMessage(s.db.mailbox, m) ==> after.deliveries[m] == d)
  {
    FailureRows(cfg, s.db);
    DispatchRows(cfg, s.db, onlineUsers, now);
    if m in MessageIds(SweepFailures(cfg, s.db)) {
      var r :| r in SweepFailures(cfg, s.db) && r.messageId == m;
      FailuresNotDispatched(cfg, s.db, onlineUsers, now, m);
    }
  }

  lemma AttemptedMeans(d: Delivery, delay: int, now: int)
    ensures Attempted(d, delay, now).(status := Delivered) ==
      d.(status := Delivered, attemptCount := d.attemptCount + 1,
         nextRetryAt := if delay >= 0 then Some(now + delay) else d.nextRetryAt)
  {
  }

  /** What one sweep does to the records: a dead-lettered message is failed and has no next retry, a dispatched
      one has one attempt more, its next retry after the delay for that attempt, and is delivered; every
      other record, also of a message that has no row, is left as it was. */
  lemma SweepRecordsExactly(cfg: Config, s: State, onlineUsers: set<string>, reachable: set<string>, now: int, m: string)
    requires cfg.Ok() && TablesOk(s.db) && m in s.db.deliveries
    ensures var after := SweepStep(cfg, s, onlineUsers, reachable, now).state.db;
      var d := s.db.deliveries[m];
      && after.deliveries.Keys == s.db.deliveries.Keys
      && after.deliveries[m] ==
           (if m in MessageIds(SweepFailures(cfg, s.db)) then d.(status := Failed, nextRetryAt := None)
            else if m in MessageIds(SweepDispatches(cfg, s.db, onlineUsers, now)) then
              var wait := RetryDelay(d.attemptCount + 2, cfg.retryDelays);
              d.(status := Delivered, attemptCount := d.attemptCount + 1,
                 nextRetryAt := if wait >= 0 then Some(now + wait) else d.nextRetryAt)
            else d)
      && (!HasMessage(s.db.mailbox, m) ==> after.deliveries[m] == d)
  {
    SweptRecords(cfg, s, onlineUsers, reachable, now, m);
    hide SweepStep, SweepFailures, SweepDispatches, Attempted, TablesOk;
    var d := s.db.deliveries[m];
    AttemptedMeans(d, RetryDelay(d.attemptCount + 2, cfg.retryDelays), now);
  }

  lemma FailuresNotDispatched(cfg: Config, db: Db, onlineUsers: set<string>, now: int, m: string)
    requires TablesOk(db) && m in MessageIds(SweepFailures(cfg, db))
    ensures m !in MessageIds(SweepDispatches(cfg, db, onlineUsers, now))
  {
    FailureRows(cfg, db);
    DispatchRows(cfg, db, onlineUsers, now);
  }

  // ---------------------------------------------------------------------------
  // Retrying ends
  // ---------------------------------------------------------------------------

  /** The sweep actions a row can still cause. */
  function Weight(r: MailRow, db: Db, maxRetries: nat): nat {
    var attempts := AttemptsOf(db, r.messageId);
    if r.status == Failed then 0
    else maxRetries + 1 - (if attempts < maxRetries then attempts else maxRetries)
  }

  function Total(rows: seq<MailRow>, w: MailRow -> nat): nat {
    if rows == [] then 0 else w(rows[0]) + Total(rows[1..], w)
  }

  function WeightIn(db: Db, maxRetries: nat): MailRow -> nat {
    (r: MailRow) => Weight(r, db, maxRetries)
  }

  function Potential(db: Db, maxRetries: nat): nat {
    Total(db.mailbox, WeightIn(db, maxRetries))
  }

  function InMessages(messages: set<string>): MailRow -> bool {
    (r: MailRow) => r.messageId in messages
  }

  /** If each row loses weight, and the rows of some messages lose one more, the total falls by their number. */
  lemma {:induction false} TotalDrops(a: seq<MailRow>, b: seq<MailRow>, v: MailRow -> nat, w: MailRow -> nat, messages: set<string>)
    requires |a| == |b|
    requires forall i :: 0 <= i < |a| ==> w(b[i]) + (if a[i].messageId in messages then 1 else 0) <= v(a[i])
    ensures Total(b, w) + Count(a, InMessages(messages)) <= Total(a, v)
    decreases |a|
  {
    if a != [] {
      TotalDrops(a[1..], b[1..], v, w, messages);
    }
  }

  lemma {:induction false} TotalOfFilter(rows: seq<MailRow>, p: MailRow -> bool, v: MailRow -> nat, w: MailRow -> nat)
    requires forall r :: r in rows && p(r) ==> w(r) <= v(r)
    ensures Total(Filter(rows, p), w) <= Total(rows, v)
    decreases |rows|
  {
    if rows != [] {
      assert rows[0] in rows;
      assert forall r :: r in rows[1..] ==> r in rows;
      TotalOfFilter(rows[1..], p, v, w);
      var rest := Filter(rows[1..], p);
      if p(rows[0]) {
        assert Filter(rows, p) == [rows[0]] + rest;
        assert ([rows[0]] + rest)[1..] == rest;
      } else {
        assert Filter(rows, p) == rest;
      }
    }
  }

  lemma {:induction false} TotalSnoc(rows: seq<MailRow>, r: MailRow, w: MailRow -> nat)
    ensures Total(rows + [r], w) == Total(rows, w) + w(r)
    decreases |rows|
  {
    if rows == [] {
      assert rows + [r] == [r] && [r][1..] == [];
    } else {
      assert (rows + [r])[1..] == rows[1..] + [r];
      TotalSnoc(rows[1..], r, w);
    }
  }

  lemma {:induction false} DistinctCount(rows: seq<MailRow>)
    requires DistinctMessages(rows)
    ensures |MessageIds(rows)| == |rows|
    decreases |rows|
  {
    if rows != [] {
      var n := |rows| - 1;
      DistinctCount(rows[..n]);
      assert rows == rows[..n] + [rows[n]];
      assert forall r :: r in rows <==> r in rows[..n] || r == rows[n];
      forall r | r in rows[..n] ensures r.messageId != rows[n].messageId {
        var i :| 0 <= i < n && rows[..n][i] == r;
      }
      assert MessageIds(rows) == MessageIds(rows[..n]) + {rows[n].messageId};
    }
  }

  /** As many rows of the table carry the messages of `found` as there are rows in `found`. */
  lemma CountFound(db: Db, found: seq<MailRow>)
    requires TablesOk(db) && DistinctMessages(found) && forall r :: r in found ==> r in db.mailbox
    ensures Count(db.mailbox, InMessages(MessageIds(found))) == |found|
  {
    var p := InMessages(MessageIds(found));
    var hits := Filter(db.mailbox, p);
    QueryRows(db, p, |db.mailbox|);
    assert Take(hits, |db.mailbox|) == hits && DistinctMessages(hits);
    FilterAllIn(db.mailbox, p);
    forall m ensures m in MessageIds(hits) <==> m in MessageIds(found) {
      if m in MessageIds(found) {
        var r :| r in found && r.messageId == m;
        assert r in hits;
      }
    }
    assert MessageIds(hits) == MessageIds(found);
    DistinctCount(hits);
    DistinctCount(found);
  }

  lemma {:induction false} CountAll(outputs: seq<Output>, p: Output -> bool)
    requires forall x :: x in outputs ==> p(x)
    ensures Count(outputs, p) == |outputs|
  {
    FilterAll(outputs, p);
  }

  lemma DispatchesHaveRetriesLeft(cfg: Config, db: Db, onlineUsers: set<string>, now: int)
    requires TablesOk(db)
    ensures forall r :: r in SweepDispatches(cfg, db, onlineUsers, now) ==>
      AttemptsOf(FailAll(db, MessageIds(SweepFailures(cfg, db))), r.messageId) < cfg.maxRetries
      && r.messageId in db.deliveries
  {
    DispatchRows(cfg, db, onlineUsers, now);
  }

  lemma SweepActionsCount(failures: seq<MailRow>, rows: seq<MailRow>)
    ensures SweepActions(Map(failures, ToSweepFailed()) + Map(rows, ToSweepDispatch())) == |failures| + |rows|
  {
    CountAll(Map(failures, ToSweepFailed()) + Map(rows, ToSweepDispatch()), IsSweepAction());
  }

  lemma SweepPotential(cfg: Config, s: State, onlineUsers: set<string>, reachable: set<string>, now: int)
    requires cfg.Ok() && TablesOk(s.db)
    ensures var after := SweepStep(cfg, s, onlineUsers, reachable, now);
      Potential(after.state.db, cfg.maxRetries) + SweepActions(after.outputs) <= Potential(s.db, cfg.maxRetries)
  {
    var failures, rows := SweepFailures(cfg, s.db), SweepDispatches(cfg, s.db, onlineUsers, now);
    var failed := FailAll(s.db, MessageIds(failures));
    FailureRows(cfg, s.db);
    FailPotential(cfg, s.db, failures);
    DispatchRows(cfg, s.db, onlineUsers, now);
    DispatchesOutliveFailures(cfg, s.db, onlineUsers, now);
    DispatchesHaveRetriesLeft(cfg, s.db, onlineUsers, now);
    SameRowsConstraints(s.db, failed);
    SweepDispatchPotential(cfg, failed, rows, SweepDelay(cfg), now);
    SweepActionsCount(failures, rows);
  }

  /** Dead-lettering live rows takes at least one from the potential for each. */
  lemma FailPotential(cfg: Config, db: Db, rows: seq<MailRow>)
    requires TablesOk(db) && DistinctMessages(rows)
    requires forall r :: r in rows ==> r in db.mailbox && r.status != Failed
    ensures Potential(FailAll(db, MessageIds(rows)), cfg.maxRetries) + |rows| <= Potential(db, cfg.maxRetries)
  {
    var after := FailAll(db, MessageIds(rows));
    MessagesNotFailed(db, rows);
    CountFound(db, rows);
    TotalDrops(db.mailbox, after.mailbox, WeightIn(db, cfg.maxRetries), WeightIn(after, cfg.maxRetries), MessageIds(rows));
  }

  /** Dispatching rows with retries left takes one from the potential for each. */
  lemma SweepDispatchPotential(cfg: Config, db: Db, rows: seq<MailRow>, delay: nat -> int, now: int)
    requires TablesOk(db) && DistinctMessages(rows)
    requires forall r :: r in rows ==> r in db.mailbox && r.status != Failed
    requires forall r :: r in rows ==>
      r.messageId in db.deliveries && db.deliveries[r.messageId].attemptCount < cfg.maxRetries
    ensures Potential(DispatchAll(db, MessageIds(rows), delay, now), cfg.maxRetries) + |rows|
         <= Potential(db, cfg.maxRetries)
  {
    var after := DispatchAll(db, MessageIds(rows), delay, now);
    MessagesNotFailed(db, rows);
    CountFound(db, rows);
    TotalDrops(db.mailbox, after.mailbox, WeightIn(db, cfg.maxRetries), WeightIn(after, cfg.maxRetries), MessageIds(rows));
  }

  /** A step that keeps rows, attempts at least, and failed rows failed, does not raise the potential. */
  lemma QuietPotential(cfg: Config, before: Db, after: Db)
    requires SameRows(before.mailbox, after.mailbox)
    requires forall i :: 0 <= i < |before.mailbox| && before.mailbox[i].status == Failed ==>
      after.mailbox[i].status == Failed
    requires forall m :: AttemptsOf(after, m) >= AttemptsOf(before, m)
    ensures Potential(after, cfg.maxRetries) <= Potential(before, cfg.maxRetries)
  {
    var a, b := before.mailbox, after.mailbox;
    forall i | 0 <= i < |a| ensures Weight(b[i], after, cfg.maxRetries) <= Weight(a[i], before, cfg.maxRetries) {
      assert b[i] == a[i].(status := b[i].status);
      assert AttemptsOf(after, a[i].messageId) >= AttemptsOf(before, a[i].messageId);
    }
    TotalDrops(a, b, WeightIn(before, cfg.maxRetries), WeightIn(after, cfg.maxRetries), {});
  }

  /** One more row, and no other change to rows or attempts. */
  lemma OneMoreRow(before: Db, after: Db, maxRetries: nat)
    requires |after.mailbox| == |before.mailbox| + 1
    requires forall i :: 0 <= i < |before.mailbox| ==> after.mailbox[i] == before.mailbox[i]
    requires forall i :: 0 <= i < |before.mailbox| ==>
      AttemptsOf(after, before.mailbox[i].messageId) == AttemptsOf(before, before.mailbox[i].messageId)
    ensures Potential(after, maxRetries) <= Potential(before, maxRetries) + maxRetries + 1
  {
    var n, rows := |before.mailbox|, after.mailbox;
    var v, w := WeightIn(before, maxRetries), WeightIn(after, maxRetries);
    assert rows == rows[..n] + [rows[n]];
    TotalSnoc(rows[..n], rows[n], w);
    TotalDrops(before.mailbox, rows[..n], v, w, {});
  }

  lemma InsertPotential(cfg: Config, s: State, letter: Letter, online: bool, now: int)
    requires cfg.Ok() && TablesOk(s.db)
    requires Enqueued(NewRow(s.db.nextId, letter)) in SendStep(cfg, s, letter, online, now).outputs
    ensures Potential(SendStep(cfg, s, letter, online, now).state.db, cfg.maxRetries)
        <= Potential(s.db, cfg.maxRetries) + cfg.maxRetries + 1
  {
    var after := SendStep(cfg, s, letter, online, now).state.db;
    SendAppends(cfg, s, letter, online, now);
    forall i | 0 <= i < |s.db.mailbox| ensures s.db.mailbox[i].messageId != letter.messageId {
      assert s.db.mailbox[i] in s.db.mailbox;
    }
    OneMoreRow(s.db, after, cfg.maxRetries);
  }

  lemma SendPotential(cfg: Config, s: State, letter: Letter, online: bool, now: int)
    requires cfg.Ok() && TablesOk(s.db)
    ensures var after := SendStep(cfg, s, letter, online, now);
      Potential(after.state.db, cfg.maxRetries)
        <= Potential(s.db, cfg.maxRetries) + Budget(cfg, |Sent(after.outputs)|)
  {
    var after := SendStep(cfg, s, letter, online, now);
    var row := NewRow(s.db.nextId, letter);
    if Enqueued(row) in after.outputs {
      SentOfSend(after.outputs, row);
      InsertPotential(cfg, s, letter, online, now);
      assert Budget(cfg, 1) == cfg.maxRetries + 1;
    } else {
      hide Potential;
      SentNothing(after.outputs);
      assert after.state.db.mailbox == s.db.mailbox && after.state.db.deliveries == s.db.deliveries;
      QuietPotential(cfg, s.db, after.state.db);
    }
  }

  lemma AckPotential(cfg: Config, s: State, userId: string, messageId: string, mailboxId: nat)
    requires cfg.Ok()
    ensures Potential(AckStep(s, userId, messageId, mailboxId).state.db, cfg.maxRetries) <= Potential(s.db, cfg.maxRetries)
  {
    var after := AckStep(s, userId, messageId, mailboxId).state.db;
    if messageId != "" && AckSucceeds(s.db, userId, messageId, mailboxId) {
      TotalOfFilter(s.db.mailbox, NotNamed(userId, messageId, mailboxId),
                    WeightIn(s.db, cfg.maxRetries), WeightIn(after, cfg.maxRetries));
    }
  }

  /** The sweep actions that `n` queued messages can cost. */
  function Budget(cfg: Config, n: nat): nat {
    if n == 0 then 0 else cfg.maxRetries + 1 + Budget(cfg, n - 1)
  }

  lemma {:induction false} BudgetAdds(cfg: Config, a: nat, b: nat)
    ensures Budget(cfg, a + b) == Budget(cfg, a) + Budget(cfg, b)
    decreases a
  {
    if a > 0 {
      BudgetAdds(cfg, a - 1, b);
      assert a + b - 1 == a - 1 + b;
    }
  }

  lemma {:induction false} BudgetIsProduct(cfg: Config, n: nat)
    ensures Budget(cfg, n) == (cfg.maxRetries + 1) * n
  {
    if n > 0 {
      BudgetIsProduct(cfg, n - 1);
      var k := cfg.maxRetries + 1;
      assert k * n == k * (n - 1) + k;
    }
  }

  /** One step, whatever the event: the potential pays for every sweep action, and only a newly queued message
      adds to it. */
  lemma StepPotential(cfg: Config, s: State, e: Event, now: int)
    requires cfg.Ok() && TablesOk(s.db) && Recorded(s.db)
    ensures var after := Step(cfg, s, e, now);
      Potential(after.state.db, cfg.maxRetries) + SweepActions(after.outputs)
        <= Potential(s.db, cfg.maxRetries) + Budget(cfg, |Sent(after.outputs)|)
  {
    hide TablesOk, Recorded, Potential, SweepActions, Budget, Sent, SendStep, AckStep, SweepStep, ReplayStep, TimeoutStep;
    NoBudget(cfg);
    match e {
      case Send(letter, online) =>
        SendActs(cfg, s, letter, online, now);
        SendPotential(cfg, s, letter, online, now);
      case Sweep(onlineUsers, reachable) =>
        StepQueues(cfg, s, e, now);
        SweepPotential(cfg, s, onlineUsers, reachable, now);
      case Ack(userId, messageId, mailboxId) =>
        AckActs(s, userId, messageId, mailboxId);
        StepQueues(cfg, s, e, now);
        AckPotential(cfg, s, userId, messageId, mailboxId);
      case _ =>
        StepQueues(cfg, s, e, now);
        OtherPotential(cfg, s, e, now);
    }
  }

  lemma NoBudget(cfg: Config)
    ensures Budget(cfg, 0) == 0
  {
  }

  lemma SendActs(cfg: Config, s: State, letter: Letter, online: bool, now: int)
    requires cfg.Ok()
    ensures SweepActions(SendStep(cfg, s, letter, online, now).outputs) == 0
  {
    CountNoOutput(SendStep(cfg, s, letter, online, now).outputs, IsSweepAction());
  }

  lemma AckActs(s: State, userId: string, messageId: string, mailboxId: nat)
    ensures SweepActions(AckStep(s, userId, messageId, mailboxId).outputs) == 0
  {
    CountNoOutput(AckStep(s, userId, messageId, mailboxId).outputs, IsSweepAction());
  }

  lemma OtherActs(cfg: Config, s: State, e: Event, now: int)
    requires cfg.Ok() && !e.Send? && !e.Sweep? && !e.Ack?
    ensures SweepActions(Step(cfg, s, e, now).outputs) == 0
  {
    var outputs := Step(cfg, s, e, now).outputs;
    forall x | x in outputs ensures !IsSweepAction()(x) {
      if e.Replay? {
        MapOutputs(Replayed(s.db, e.userId, e.lastAcked), ToReplayDispatch(), x);
      }
    }
    CountNoOutput(outputs, IsSweepAction());
  }

  lemma AttemptsNeverDrop(cfg: Config, s: State, e: Event, now: int, m: string)
    requires cfg.Ok() && TablesOk(s.db) && Recorded(s.db) && !e.Send?
    ensures AttemptsOf(Step(cfg, s, e, now).state.db, m) >= AttemptsOf(s.db, m)
  {
    hide Step, TablesOk, Recorded, AttemptsOf;
    StepCounts(cfg, s, e, now, m);
    StepQueuesNothing(cfg, s, e, now, m);
  }

  lemma OtherPotential(cfg: Config, s: State, e: Event, now: int)
    requires cfg.Ok() && TablesOk(s.db) && Recorded(s.db) && !e.Send? && !e.Sweep? && !e.Ack?
    ensures var after := Step(cfg, s, e, now);
      Potential(after.state.db, cfg.maxRetries) <= Potential(s.db, cfg.maxRetries) && SweepActions(after.outputs) == 0
  {
    hide Step, TablesOk, Recorded, AttemptsOf, Potential, SweepActions, SameRows;
    var after := Step(cfg, s, e, now);
    StepKeepsRows(cfg, s, e, now);
    StepFails(cfg, s, e, now);
    forall m ensures AttemptsOf(after.state.db, m) >= AttemptsOf(s.db, m) {
      AttemptsNeverDrop(cfg, s, e, now, m);
    }
    QuietPotential(cfg, s.db, after.state.db);
    OtherActs(cfg, s, e, now);
  }

  /** The potential left and the sweep actions taken stay within the budget of the messages queued. */
  ghost predicate WithinBudget(cfg: Config, db: Db, outputs: seq<Output>) {
    Potential(db, cfg.maxRetries) + SweepActions(outputs) <= Budget(cfg, |Sent(outputs)|)
  }

  lemma StepWithinBudget(cfg: Config, s: State, e: Event, now: int, outputs: seq<Output>)
    requires cfg.Ok() && TablesOk(s.db) && Recorded(s.db) && WithinBudget(cfg, s.db, outputs)
    ensures var after := Step(cfg, s, e, now); WithinBudget(cfg, after.state.db, outputs + after.outputs)
  {
    hide Step, TablesOk, Recorded, Potential, SweepActions, Budget, Sent;
    var more := Step(cfg, s, e, now).outputs;
    StepPotential(cfg, s, e, now);
    BudgetConcat(cfg, outputs, more);
  }

  lemma BudgetConcat(cfg: Config, a: seq<Output>, b: seq<Output>)
    ensures SweepActions(a + b) == SweepActions(a) + SweepActions(b)
    ensures Budget(cfg, |Sent(a + b)|) == Budget(cfg, |Sent(a)|) + Budget(cfg, |Sent(b)|)
  {
    CountConcat(a, b, IsSweepAction());
    SentConcat(a, b);
    BudgetAdds(cfg, |Sent(a)|, |Sent(b)|);
  }

  /** MAIN: retrying ends, whatever clients do. A run that queues N messages contains at most (maxRetries + 1) * N
      sweep dispatches and dead-letterings; what the live rows still weigh is what is left to come. */
  lemma {:induction false} RetryingEnds(cfg: Config, users: set<string>, events: seq<Timed>)
    requires cfg.Ok()
    ensures var run := Run(cfg, Initial(users), events);
      Potential(run.state.db, cfg.maxRetries) + SweepActions(run.outputs) <= (cfg.maxRetries + 1) * |Sent(run.outputs)|
  {
    hide Run, Potential, SweepActions, Budget, Sent;
    StaysWithinBudget(cfg, users, events);
    BudgetIsProduct(cfg, |Sent(Run(cfg, Initial(users), events).outputs)|);
  }

  lemma {:induction false} StaysWithinBudget(cfg: Config, users: set<string>, events: seq<Timed>)
    requires cfg.Ok()
    ensures var run := Run(cfg, Initial(users), events); WithinBudget(cfg, run.state.db, run.outputs)
    decreases |events|
  {
    hide WithinBudget, Step, TablesOk, Recorded;
    InitialConstraints(users);
    if events == [] {
      NothingSpent(cfg, users);
    } else {
      var n := |events| - 1;
      StaysWithinBudget(cfg, users, events[..n]);
      RunKeepsConstraints(cfg, Initial(users), events[..n]);
      var before := Run(cfg, Initial(users), events[..n]);
      StepWithinBudget(cfg, before.state, events[n].event, events[n].now, before.outputs);
    }
  }

  lemma NothingSpent(cfg: Config, users: set<string>)
    ensures WithinBudget(cfg, Initial(users).db, [])
  {
  }

  // ---------------------------------------------------------------------------
  // Failed rows
  // ---------------------------------------------------------------------------

  lemma SendKeepsIds(cfg: Config, s: State, letter: Letter, online: bool, now: int, k: MailRow)
    requires cfg.Ok() && TablesOk(s.db) && k.id < s.db.nextId
    requires k in SendStep(cfg, s, letter, online, now).state.db.mailbox
    ensures k in s.db.mailbox
  {
    hide TablesOk, SameRows;
    var rows := SendStep(cfg, s, letter, online, now).state.db.mailbox;
    if Enqueued(NewRow(s.db.nextId, letter)) in SendStep(cfg, s, letter, online, now).outputs {
      SendAppends(cfg, s, letter, online, now);
      LastHasNextId(s.db, rows, NewRow(s.db.nextId, letter));
      var i :| 0 <= i < |rows| && rows[i] == k;
    }
  }

  lemma LastHasNextId(db: Db, rows: seq<MailRow>, row: MailRow)
    requires SameRows(db.mailbox + [row], rows)
    ensures |rows| == |db.mailbox| + 1 && rows[|db.mailbox|].id == row.id
  {
  }

  lemma AckKeepsIds(s: State, userId: string, messageId: string, mailboxId: nat, k: MailRow)
    requires k in AckStep(s, userId, messageId, mailboxId).state.db.mailbox
    ensures k in s.db.mailbox
  {
    FilterAllIn(s.db.mailbox, NotNamed(userId, messageId, mailboxId));
  }

  /** A step may change the status of a row, but only of one that has not failed. */
  lemma RowComesFrom(cfg: Config, s: State, e: Event, now: int, k: MailRow)
    requires cfg.Ok() && TablesOk(s.db) && k.id < s.db.nextId && k in Step(cfg, s, e, now).state.db.mailbox
    ensures exists r :: r in s.db.mailbox && r.id == k.id && (r.status == Failed ==> k == r)
  {
    hide TablesOk, SendStep, AckStep;
    match e {
      case Send(letter, online) => SendKeepsIds(cfg, s, letter, online, now, k);
      case Ack(userId, messageId, mailboxId) => AckKeepsIds(s, userId, messageId, mailboxId, k);
      case _ => OtherRowComesFrom(cfg, s, e, now, k);
    }
  }

  lemma OtherRowComesFrom(cfg: Config, s: State, e: Event, now: int, k: MailRow)
    requires cfg.Ok() && TablesOk(s.db) && !e.Send? && !e.Ack? && k in Step(cfg, s, e, now).state.db.mailbox
    ensures exists r :: r in s.db.mailbox && r.id == k.id && (r.status == Failed ==> k == r)
  {
    hide Step, TablesOk;
    var rows := Step(cfg, s, e, now).state.db.mailbox;
    StepKeepsRows(cfg, s, e, now);
    StepFails(cfg, s, e, now);
    var i :| 0 <= i < |rows| && rows[i] == k;
    assert s.db.mailbox[i] in s.db.mailbox && k == s.db.mailbox[i].(status := k.status);
  }

  /** MAIN: a row that has failed stays failed for as long as it is in the mailbox, whatever the event. */
  lemma FailedStaysFailed(cfg: Config, s: State, e: Event, now: int, r: MailRow, k: MailRow)
    requires cfg.Ok() && TablesOk(s.db) && r in s.db.mailbox && r.status == Failed
    requires k in Step(cfg, s, e, now).state.db.mailbox && k.id == r.id
    ensures k == r
  {
    hide Step;
    RowComesFrom(cfg, s, e, now, k);
    var j :| j in s.db.mailbox && j.id == k.id && (j.status == Failed ==> k == j);
    RowsUnique(s.db, j, r);
  }

  /** The mailbox holds the row as it is, or no row with its id, and will not give the id out again. */
  ghost predicate FrozenOrGone(db: Db, r: MailRow) {
    r.id < db.nextId && forall k :: k in db.mailbox && k.id == r.id ==> k == r
  }

  lemma {:induction false} StaysFrozen(cfg: Config, s: State, events: seq<Timed>, r: MailRow)
    requires cfg.Ok() && TablesOk(s.db) && Recorded(s.db) && r.status == Failed && FrozenOrGone(s.db, r)
    ensures FrozenOrGone(Run(cfg, s, events).state.db, r)
    decreases |events|
  {
    hide Step, TablesOk, Recorded;
    if events != [] {
      var n := |events| - 1;
      StaysFrozen(cfg, s, events[..n], r);
      RunKeepsConstraints(cfg, s, events[..n]);
      var before := Run(cfg, s, events[..n]).state;
      var e, now := events[n].event, events[n].now;
      NextIdGrows(cfg, before, e, now);
      forall k | k in Step(cfg, before, e, now).state.db.mailbox && k.id == r.id ensures k == r {
        RowComesFrom(cfg, before, e, now, k);
      }
    }
  }

  /** MAIN: over every run, whatever clients do, a failed row is never live again: it stays as it is until it is
      acknowledged, and no other row ever takes its id. */
  lemma FailedForGood(cfg: Config, s: State, events: seq<Timed>, r: MailRow, k: MailRow)
    requires cfg.Ok() && TablesOk(s.db) && Recorded(s.db) && r in s.db.mailbox && r.status == Failed
    requires k in Run(cfg, s, events).state.db.mailbox && k.id == r.id
    ensures k == r
  {
    hide Run;
    forall j | j in s.db.mailbox && j.id == r.id ensures j == r {
      RowsUnique(s.db, j, r);
    }
    StaysFrozen(cfg, s, events, r);
  }
}
