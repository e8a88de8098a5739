/** What a run has told the outside world determines what is still in the mailbox: replay order,
    attempt counts, single entry and termination of retrying, read off the run's outputs. */
module DeliveryHistory {
  import opened Sequences
  import opened MailboxTables
  import opened DeliveryProtocol
  import opened DeliveryInvariant

  // ---------------------------------------------------------------------------
  // Reading the history
  // ---------------------------------------------------------------------------

  /** The rows queued so far, in the order they were queued. */
  function Sent(outputs: seq<Output>): seq<MailRow> {
    if outputs == [] then []
    else (if outputs[0].Enqueued? then [outputs[0].row] else []) + Sent(outputs[1..])
  }

  function AckedIds(outputs: seq<Output>): set<string> {
    set x | x in outputs && x.Acked? :: x.messageId
  }

  function FailedIds(outputs: seq<Output>): set<string> {
    set x | x in outputs && (x.SweepFailed? || x.TimeoutFailed?) :: x.messageId
  }

  function IsDispatchOf(m: string): Output -> bool {
    (x: Output) => (x.LiveDispatch? || x.ReplayDispatch? || x.SweepDispatch?) && x.messageId == m
  }

  function IsReplayOf(m: string): Output -> bool {
    (x: Output) => x.ReplayDispatch? && x.messageId == m
  }

  function IsSweepAction(): Output -> bool {
    (x: Output) => x.SweepDispatch? || x.SweepFailed?
  }

  function Attempts(outputs: seq<Output>, m: string): nat { Count(outputs, IsDispatchOf(m)) }
  function Replays(outputs: seq<Output>, m: string): nat { Count(outputs, IsReplayOf(m)) }
  function SweepActions(outputs: seq<Output>): nat { Count(outputs, IsSweepAction()) }

  function AsQueued(): MailRow -> MailRow { (r: MailRow) => r.(status := Queued) }

  function NotAcked(outputs: seq<Output>): MailRow -> bool {
    var acked := AckedIds(outputs);
    (r: MailRow) => r.messageId !in acked
  }

  lemma {:induction false} SentConcat(a: seq<Output>, b: seq<Output>)
    ensures Sent(a + b) == Sent(a) + Sent(b)
  {
    if a == [] {
      assert a + b == b;
    } else {
      var head := if a[0].Enqueued? then [a[0].row] else [];
      assert (a + b)[0] == a[0] && (a + b)[1..] == a[1..] + b;
      calc {
        Sent(a + b);
        head + Sent(a[1..] + b);
        { SentConcat(a[1..], b); }
        head + (Sent(a[1..]) + Sent(b));
        { ConcatAssoc(head, Sent(a[1..]), Sent(b)); }
        (head + Sent(a[1..])) + Sent(b);
        Sent(a) + Sent(b);
      }
    }
  }

  lemma {:induction false} SentNothing(outputs: seq<Output>)
    requires forall x :: x in outputs ==> !x.Enqueued?
    ensures Sent(outputs) == []
  {
    if outputs != [] {
      assert outputs[0] in outputs;
      assert forall x :: x in outputs[1..] ==> x in outputs;
      SentNothing(outputs[1..]);
    }
  }

  lemma IdsConcat(a: seq<Output>, b: seq<Output>)
    ensures AckedIds(a + b) == AckedIds(a) + AckedIds(b)
    ensures FailedIds(a + b) == FailedIds(a) + FailedIds(b)
  {
  }

  lemma AttemptsConcat(a: seq<Output>, b: seq<Output>, m: string)
    ensures Attempts(a + b, m) == Attempts(a, m) + Attempts(b, m)
    ensures Replays(a + b, m) == Replays(a, m) + Replays(b, m)
  {
    CountConcat(a, b, IsDispatchOf(m));
    CountConcat(a, b, IsReplayOf(m));
  }

  // ---------------------------------------------------------------------------
  // The history invariants
  // ---------------------------------------------------------------------------

  /** The mailbox is the history of queued letters with the acknowledged ones removed, in order; the
      rows that have failed are the ones given up. */
  ghost predicate MailboxIsHistory(db: Db, outputs: seq<Output>) {
    && Map(db.mailbox, AsQueued()) == Filter(Sent(outputs), NotAcked(outputs))
    && (forall r :: r in db.mailbox ==> (r.status == Failed <==> r.messageId in FailedIds(outputs)))
    && (forall m :: m in AckedIds(outputs) + FailedIds(outputs) ==> m in db.deliveries)
  }

  /** Each message entered the mailbox at most once, and all that entered have a record. */
  ghost predicate EnteredOnce(db: Db, outputs: seq<Output>) {
    var sent := Sent(outputs);
    && (forall i, j :: 0 <= i < j < |sent| ==> sent[i].messageId != sent[j].messageId)
    && (forall r :: r in sent ==> r.messageId in db.deliveries)
  }

  // ---------------------------------------------------------------------------
  // How a step may change the tables
  // ---------------------------------------------------------------------------

  lemma MapAsQueuedSame(a: seq<MailRow>, b: seq<MailRow>)
    requires SameRows(a, b)
    ensures Map(a, AsQueued()) == Map(b, AsQueued())
  {
    forall i | 0 <= i < |a| ensures Map(a, AsQueued())[i] == Map(b, AsQueued())[i] {
      assert b[i] == a[i].(status := b[i].status);
    }
  }

  lemma MapOutputs(rows: seq<MailRow>, f: MailRow -> Output, x: Output)
    ensures x in Map(rows, f) <==> exists r :: r in rows && f(r) == x
  {
    var outputs := Map(rows, f);
    if x in outputs {
      var i :| 0 <= i < |outputs| && outputs[i] == x;
      assert rows[i] in rows;
    }
    if exists r :: r in rows && f(r) == x {
      var r :| r in rows && f(r) == x;
      var i :| 0 <= i < |rows| && rows[i] == r;
      assert outputs[i] == x;
    }
  }

  /** Every step that neither queues nor acknowledges leaves the rows in place. */
  lemma StepKeepsRows(cfg: Config, s: State, e: Event, now: int)
    requires cfg.Ok() && !e.Send? && !e.Ack?
    ensures SameRows(s.db.mailbox, Step(cfg, s, e, now).state.db.mailbox)
    ensures forall x :: x in Step(cfg, s, e, now).outputs ==> !x.Enqueued? && !x.Acked?
  {
    hide Replayed, SweepFailures, SweepDispatches, ArmAll, RetryDelay, TimeoutAttempts;
    match e {
      case Replay(userId, lastAcked) =>
        forall x | x in Step(cfg, s, e, now).outputs ensures !x.Enqueued? && !x.Acked? {
          MapOutputs(Replayed(s.db, userId, lastAcked), ToReplayDispatch(), x);
        }
      case Sweep(onlineUsers, reachable) =>
        forall x | x in Step(cfg, s, e, now).outputs ensures !x.Enqueued? && !x.Acked? {
          MapOutputs(SweepFailures(cfg, s.db), ToSweepFailed(), x);
          MapOutputs(SweepDispatches(cfg, s.db, onlineUsers, now), ToSweepDispatch(), x);
        }
      case _ =>
    }
  }

  lemma FailedBySweep(cfg: Config, s: State, onlineUsers: set<string>, reachable: set<string>, now: int)
    requires cfg.Ok()
    ensures FailedIds(SweepStep(cfg, s, onlineUsers, reachable, now).outputs) == MessageIds(SweepFailures(cfg, s.db))
  {
    var outputs := SweepStep(cfg, s, onlineUsers, reachable, now).outputs;
    forall m ensures m in FailedIds(outputs) <==> m in MessageIds(SweepFailures(cfg, s.db)) {
      if m in FailedIds(outputs) {
        var x :| x in outputs && (x.SweepFailed? || x.TimeoutFailed?) && x.messageId == m;
        MapOutputs(SweepFailures(cfg, s.db), ToSweepFailed(), x);
        MapOutputs(SweepDispatches(cfg, s.db, onlineUsers, now), ToSweepDispatch(), x);
      }
      if m in MessageIds(SweepFailures(cfg, s.db)) {
        var r :| r in SweepFailures(cfg, s.db) && r.messageId == m;
        MapOutputs(SweepFailures(cfg, s.db), ToSweepFailed(), SweepFailed(m));
        assert SweepFailed(m) in outputs;
      }
    }
  }

  /** The failed rows after a step are those that had failed and those it gave up on. */
  ghost predicate FailsExactly(before: seq<MailRow>, after: seq<MailRow>, failed: set<string>) {
    && |after| == |before|
    && forall i :: 0 <= i < |before| ==>
      (after[i].status == Failed <==> before[i].status == Failed || before[i].messageId in failed)
  }

  lemma ReplayFails(cfg: Config, s: State, userId: string, lastAcked: string, now: int)
    requires cfg.Ok() && TablesOk(s.db)
    ensures var after := ReplayStep(cfg, s, userId, lastAcked, now);
      FailedIds(after.outputs) == {} && FailsExactly(s.db.mailbox, after.state.db.mailbox, {})
  {
    var after := ReplayStep(cfg, s, userId, lastAcked, now);
    var replayed := Replayed(s.db, userId, lastAcked);
    ReplayedRows(s.db, userId, lastAcked);
    forall x | x in after.outputs ensures !x.SweepFailed? && !x.TimeoutFailed? {
      MapOutputs(replayed, ToReplayDispatch(), x);
    }
    MessagesNotFailed(s.db, replayed);
  }

  /** The rows of the table that carry one of the messages of some unfailed rows have not failed. */
  lemma MessagesNotFailed(db: Db, rows: seq<MailRow>)
    requires TablesOk(db) && forall r :: r in rows ==> r in db.mailbox && r.status != Failed
    ensures forall i :: 0 <= i < |db.mailbox| && db.mailbox[i].messageId in MessageIds(rows) ==>
      db.mailbox[i].status != Failed
  {
    forall i | 0 <= i < |db.mailbox| && db.mailbox[i].messageId in MessageIds(rows)
      ensures db.mailbox[i].status != Failed
    {
      var r :| r in rows && r.messageId == db.mailbox[i].messageId;
      RowsUnique(db, r, db.mailbox[i]);
    }
  }

  lemma SweepFails(cfg: Config, s: State, onlineUsers: set<string>, reachable: set<string>, now: int)
    requires cfg.Ok() && TablesOk(s.db)
    ensures var after := SweepStep(cfg, s, onlineUsers, reachable, now);
      && FailsExactly(s.db.mailbox, after.state.db.mailbox, FailedIds(after.outputs))
      && (forall m :: m in FailedIds(after.outputs) ==> m in s.db.deliveries)
  {
    var failures, dispatches := SweepFailures(cfg, s.db), SweepDispatches(cfg, s.db, onlineUsers, now);
    FailedBySweep(cfg, s, onlineUsers, reachable, now);
    DispatchRows(cfg, s.db, onlineUsers, now);
    SweepDisjoint(cfg, s.db, onlineUsers, now);
    MessagesNotFailed(s.db, dispatches);
    TwoStatuses(s.db.mailbox, MessageIds(failures), MessageIds(dispatches));
    FailuresHaveRecords(cfg, s.db);
  }

  lemma TwoStatuses(rows: seq<MailRow>, failed: set<string>, delivered: set<string>)
    requires failed !! delivered
    requires forall i :: 0 <= i < |rows| && rows[i].messageId in delivered ==> rows[i].status != Failed
    ensures FailsExactly(rows, SetStatus(SetStatus(rows, failed, Failed), delivered, Delivered), failed)
  {
  }

  lemma FailuresHaveRecords(cfg: Config, db: Db)
    requires TablesOk(db)
    ensures forall m :: m in MessageIds(SweepFailures(cfg, db)) ==> m in db.deliveries
  {
    FailureRows(cfg, db);
  }

  lemma TimeoutFails(cfg: Config, s: State, messageId: string, now: int)
    requires cfg.Ok()
    ensures var after := TimeoutStep(cfg, s, messageId, now);
      && FailsExactly(s.db.mailbox, after.state.db.mailbox, FailedIds(after.outputs))
      && FailedIds(after.outputs) <= {messageId} * s.timers.Keys
  {
    var after := TimeoutStep(cfg, s, messageId, now);
    if messageId in s.timers && TimeoutAttempts(s.db, messageId) >= cfg.maxRetries {
      assert after.outputs == [TimeoutFailed(messageId)];
      assert FailedIds(after.outputs) == {messageId};
    } else {
      assert FailedIds(after.outputs) == {};
      RetryFails(s.db, messageId, RetryDelay(TimeoutAttempts(s.db, messageId) + 1, cfg.retryDelays), now);
    }
  }

  lemma RetryFails(db: Db, messageId: string, delay: int, now: int)
    ensures FailsExactly(db.mailbox, ScheduleRetry(db, messageId, delay, now).mailbox, {})
  {
  }

  lemma NothingFails(rows: seq<MailRow>)
    ensures FailsExactly(rows, rows, FailedIds([]))
  {
  }

  /** Whatever the event, it fails exactly the rows it says it gave up on, and brings no failed row back. */
  lemma StepFails(cfg: Config, s: State, e: Event, now: int)
    requires cfg.Ok() && TablesOk(s.db) && !e.Send? && !e.Ack?
    ensures var after := Step(cfg, s, e, now);
      FailsExactly(s.db.mailbox, after.state.db.mailbox, FailedIds(after.outputs))
  {
    hide TablesOk, FailsExactly, ReplayStep, SweepStep, TimeoutStep;
    NothingFails(s.db.mailbox);
    match e {
      case Replay(userId, lastAcked) => ReplayFails(cfg, s, userId, lastAcked, now);
      case Sweep(onlineUsers, reachable) => SweepFails(cfg, s, onlineUsers, reachable, now);
      case AckTimeout(messageId) => TimeoutFails(cfg, s, messageId, now);
      case _ =>
    }
  }

  lemma TimersHaveRecords(cfg: Config, s: State)
    requires Agreement(cfg, s)
    ensures TablesOk(s.db) && s.timers.Keys <= s.db.deliveries.Keys
  {
  }

  lemma NoneFailed()
    ensures FailedIds([]) == {}
  {
  }

  /** No handler deletes a record. */
  lemma RecordsKept(cfg: Config, s: State, e: Event, now: int)
    requires cfg.Ok()
    ensures Step(cfg, s, e, now).state.db.deliveries.Keys >= s.db.deliveries.Keys
  {
    hide Replayed, SweepFailures, SweepDispatches, ArmAll, Map, SetStatus, Filter, Remember;
  }

  /** While timers name messages with a record, so does everything given up on; and no record is lost. */
  lemma StepFailsRecorded(cfg: Config, s: State, e: Event, now: int)
    requires cfg.Ok() && Agreement(cfg, s) && !e.Send? && !e.Ack?
    ensures var after := Step(cfg, s, e, now);
      && (forall m :: m in FailedIds(after.outputs) ==> m in s.db.deliveries)
      && after.state.db.deliveries.Keys >= s.db.deliveries.Keys
  {
    TimersHaveRecords(cfg, s);
    RecordsKept(cfg, s, e, now);
    hide Agreement, FailsExactly, FailedIds, TablesOk, ReplayStep, SweepStep, TimeoutStep;
    NoneFailed();
    match e {
      case Replay(userId, lastAcked) => ReplayFails(cfg, s, userId, lastAcked, now);
      case Sweep(onlineUsers, reachable) => SweepFails(cfg, s, onlineUsers, reachable, now);
      case AckTimeout(messageId) => TimeoutFails(cfg, s, messageId, now);
      case _ =>
    }
  }

  // ---------------------------------------------------------------------------
  // Each step keeps the history invariants
  // ---------------------------------------------------------------------------

  /** Nothing queued, acknowledged or given up: the history says the same as before. */
  lemma QuietOutputs(outputs: seq<Output>, more: seq<Output>)
    requires forall x :: x in more ==> !x.Enqueued? && !x.Acked? && !x.SweepFailed? && !x.TimeoutFailed?
    ensures Sent(outputs + more) == Sent(outputs)
    ensures AckedIds(outputs + more) == AckedIds(outputs) && FailedIds(outputs + more) == FailedIds(outputs)
  {
    SentConcat(outputs, more);
    SentNothing(more);
    IdsConcat(outputs, more);
  }

  /** Queueing a new letter adds it, and nothing else, to the history. */
  lemma InsertOutputs(cfg: Config, s: State, letter: Letter, online: bool, now: int, outputs: seq<Output>)
    requires cfg.Ok()
    requires Enqueued(NewRow(s.db.nextId, letter)) in SendStep(cfg, s, letter, online, now).outputs
    ensures var total := outputs + SendStep(cfg, s, letter, online, now).outputs;
      && Sent(total) == Sent(outputs) + [NewRow(s.db.nextId, letter)]
      && AckedIds(total) == AckedIds(outputs)
      && FailedIds(total) == FailedIds(outputs)
  {
    var more := SendStep(cfg, s, letter, online, now).outputs;
    SentConcat(outputs, more);
    SentOfSend(more, NewRow(s.db.nextId, letter));
    IdsConcat(outputs, more);
  }

  lemma InsertRows(before: seq<MailRow>, after: seq<MailRow>, row: MailRow, outputs: seq<Output>, total: seq<Output>)
    requires SameRows(before + [row], after) && row.status == Queued
    requires Map(before, AsQueued()) == Filter(Sent(outputs), NotAcked(outputs))
    requires Sent(total) == Sent(outputs) + [row] && AckedIds(total) == AckedIds(outputs)
    requires row.messageId !in AckedIds(outputs)
    ensures Map(after, AsQueued()) == Filter(Sent(total), NotAcked(total))
  {
    FilterSnoc(Sent(outputs), row, NotAcked(outputs));
    FilterAgree(Sent(total), NotAcked(outputs), NotAcked(total));
    MapSnoc(before, row, AsQueued());
    MapAsQueuedSame(before + [row], after);
  }

  lemma InsertKeepsHistory(cfg: Config, s: State, letter: Letter, online: bool, now: int, outputs: seq<Output>)
    requires cfg.Ok() && Agreement(cfg, s) && MailboxIsHistory(s.db, outputs)
    requires letter.messageId !in s.db.deliveries
    requires Enqueued(NewRow(s.db.nextId, letter)) in SendStep(cfg, s, letter, online, now).outputs
    ensures var after := SendStep(cfg, s, letter, online, now);
      MailboxIsHistory(after.state.db, outputs + after.outputs)
  {
    var after := SendStep(cfg, s, letter, online, now);
    var total, rows := outputs + after.outputs, after.state.db.mailbox;
    InsertOutputs(cfg, s, letter, online, now, outputs);
    SendAppends(cfg, s, letter, online, now);
    InsertRows(s.db.mailbox, rows, NewRow(s.db.nextId, letter), outputs, total);
    InsertFailed(s.db.mailbox, rows, FailedIds(outputs), letter.messageId);
  }

  lemma InsertFailed(before: seq<MailRow>, after: seq<MailRow>, failed: set<string>, messageId: string)
    requires |after| == |before| + 1 && forall i :: 0 <= i < |before| ==> after[i] == before[i]
    requires forall r :: r in before ==> (r.status == Failed <==> r.messageId in failed)
    requires after[|before|].status != Failed && after[|before|].messageId == messageId && messageId !in failed
    ensures forall r :: r in after ==> (r.status == Failed <==> r.messageId in failed)
  {
    forall r | r in after ensures r.status == Failed <==> r.messageId in failed {
      var i :| 0 <= i < |after| && after[i] == r;
      if i < |before| {
        assert before[i] in before;
      }
    }
  }

  lemma InsertEntersOnce(cfg: Config, s: State, letter: Letter, online: bool, now: int, outputs: seq<Output>)
    requires cfg.Ok() && TablesOk(s.db) && EnteredOnce(s.db, outputs)
    requires letter.messageId !in s.db.deliveries
    requires Enqueued(NewRow(s.db.nextId, letter)) in SendStep(cfg, s, letter, online, now).outputs
    ensures var after := SendStep(cfg, s, letter, online, now);
      EnteredOnce(after.state.db, outputs + after.outputs)
  {
    InsertOutputs(cfg, s, letter, online, now, outputs);
    SendAppends(cfg, s, letter, online, now);
    var sent := Sent(outputs);
    forall i | 0 <= i < |sent| ensures sent[i].messageId != letter.messageId {
      assert sent[i] in sent;
    }
  }

  lemma SendKeepsHistory(cfg: Config, s: State, letter: Letter, online: bool, now: int, outputs: seq<Output>)
    requires cfg.Ok() && Agreement(cfg, s) && MailboxIsHistory(s.db, outputs) && EnteredOnce(s.db, outputs)
    ensures var after := SendStep(cfg, s, letter, online, now);
      && MailboxIsHistory(after.state.db, outputs + after.outputs)
      && EnteredOnce(after.state.db, outputs + after.outputs)
  {
    hide MailboxIsHistory, EnteredOnce;
    var after := SendStep(cfg, s, letter, online, now);
    if Enqueued(NewRow(s.db.nextId, letter)) in after.outputs {
      QueuesOnlyNewMessages(cfg, s.db, letter);
      InsertKeepsHistory(cfg, s, letter, online, now, outputs);
      InsertEntersOnce(cfg, s, letter, online, now, outputs);
    } else {
      QuietOutputs(outputs, after.outputs);
      QuietKeepsHistory(s.db, after.state.db, outputs, outputs + after.outputs);
    }
  }

  /** The same rows and records, and a history that says the same. */
  lemma QuietKeepsHistory(before: Db, after: Db, outputs: seq<Output>, total: seq<Output>)
    requires MailboxIsHistory(before, outputs) && EnteredOnce(before, outputs)
    requires after.mailbox == before.mailbox && after.deliveries == before.deliveries
    requires Sent(total) == Sent(outputs) && AckedIds(total) == AckedIds(outputs) && FailedIds(total) == FailedIds(outputs)
    ensures MailboxIsHistory(after, total) && EnteredOnce(after, total)
  {
    FilterAgree(Sent(outputs), NotAcked(outputs), NotAcked(total));
  }

  lemma SentOfSend(outputs: seq<Output>, row: MailRow)
    requires outputs == [Enqueued(row)] || outputs == [Enqueued(row), LiveDispatch(row.messageId)]
    ensures Sent(outputs) == [row]
  {
    assert outputs[0] == Enqueued(row);
    SentNothing(outputs[1..]);
  }

  /** Queueing adds one row at the end; the other rows keep their status. */
  lemma SendAppends(cfg: Config, s: State, letter: Letter, online: bool, now: int)
    requires cfg.Ok() && TablesOk(s.db)
    requires Enqueued(NewRow(s.db.nextId, letter)) in SendStep(cfg, s, letter, online, now).outputs
    ensures var after := SendStep(cfg, s, letter, online, now).state.db; var row := NewRow(s.db.nextId, letter);
      && SameRows(s.db.mailbox + [row], after.mailbox)
      && LiveStatus(after.mailbox[|s.db.mailbox|].status)
      && (forall i :: 0 <= i < |s.db.mailbox| ==> after.mailbox[i] == s.db.mailbox[i])
      && after.deliveries.Keys == s.db.deliveries.Keys + {letter.messageId}
      && letter.messageId in after.deliveries
      && (forall m :: m in s.db.deliveries && m != letter.messageId ==> after.deliveries[m] == s.db.deliveries[m])
      && after.deliveries[letter.messageId].attemptCount == if online then 1 else 0
  {
    forall i | 0 <= i < |s.db.mailbox| ensures s.db.mailbox[i].messageId != letter.messageId {
      assert s.db.mailbox[i] in s.db.mailbox;
    }
  }

  /** A conforming acknowledgement takes exactly its own letter out of the history. */
  lemma AckFilters(cfg: Config, db: Db, userId: string, messageId: string, mailboxId: nat, sent: seq<MailRow>,
                   before: MailRow -> bool, after: MailRow -> bool)
    requires messageId != "" && Conforming(db, Ack(userId, messageId, mailboxId))
    requires Map(db.mailbox, AsQueued()) == Filter(sent, before)
    requires forall r :: after(r) == (before(r) && r.messageId != messageId)
    ensures Map(Filter(db.mailbox, NotNamed(userId, messageId, mailboxId)), AsQueued()) == Filter(sent, after)
  {
    var keep := NotNamed(userId, messageId, mailboxId);
    var other := (r: MailRow) => r.messageId != messageId;
    forall r | r in db.mailbox ensures other(AsQueued()(r)) == keep(r) {
      assert NamedByAck(r, userId, messageId, mailboxId) ==> r.messageId == messageId;
      assert r.messageId == messageId ==> r.recipientId == userId;
    }
    FilterOfMap(db.mailbox, AsQueued(), other, keep);
    FilterTwice(sent, before, other, after);
  }

  lemma AckOutputs(outputs: seq<Output>, messageId: string, userId: string, mailboxId: nat)
    ensures var total := outputs + [Acked(messageId, userId, mailboxId)];
      && Sent(total) == Sent(outputs)
      && AckedIds(total) == AckedIds(outputs) + {messageId}
      && FailedIds(total) == FailedIds(outputs)
  {
    var more := [Acked(messageId, userId, mailboxId)];
    SentConcat(outputs, more);
    SentNothing(more);
    IdsConcat(outputs, more);
    assert AckedIds(more) == {messageId};
  }

  lemma AckKeepsHistory(cfg: Config, s: State, userId: string, messageId: string, mailboxId: nat, outputs: seq<Output>)
    requires MailboxIsHistory(s.db, outputs) && EnteredOnce(s.db, outputs)
    requires Conforming(s.db, Ack(userId, messageId, mailboxId))
    ensures var after := AckStep(s, userId, messageId, mailboxId);
      && MailboxIsHistory(after.state.db, outputs + after.outputs)
      && EnteredOnce(after.state.db, outputs + after.outputs)
  {
    var after := AckStep(s, userId, messageId, mailboxId);
    if messageId == "" || !AckSucceeds(s.db, userId, messageId, mailboxId) {
      assert outputs + after.outputs == outputs;
    } else {
      AckOutputs(outputs, messageId, userId, mailboxId);
      AckedTablesHistory(cfg, s.db, userId, messageId, mailboxId, outputs, outputs + after.outputs);
    }
  }

  lemma AckedTablesHistory(cfg: Config, db: Db, userId: string, messageId: string, mailboxId: nat,
                           outputs: seq<Output>, total: seq<Output>)
    requires MailboxIsHistory(db, outputs) && EnteredOnce(db, outputs)
    requires messageId != "" && Conforming(db, Ack(userId, messageId, mailboxId))
    requires AckSucceeds(db, userId, messageId, mailboxId)
    requires Sent(total) == Sent(outputs) && FailedIds(total) == FailedIds(outputs)
    requires AckedIds(total) == AckedIds(outputs) + {messageId}
    ensures var after := Acknowledge(db, userId, messageId, mailboxId);
      MailboxIsHistory(after, total) && EnteredOnce(after, total)
  {
    AckFilters(cfg, db, userId, messageId, mailboxId, Sent(outputs), NotAcked(outputs), NotAcked(total));
    FilterAllIn(db.mailbox, NotNamed(userId, messageId, mailboxId));
  }

  lemma FailedStatuses(before: seq<MailRow>, after: seq<MailRow>, was: set<string>, more: set<string>)
    requires SameRows(before, after) && FailsExactly(before, after, more)
    requires forall r :: r in before ==> (r.status == Failed <==> r.messageId in was)
    ensures forall r :: r in after ==> (r.status == Failed <==> r.messageId in was + more)
  {
    forall r | r in after ensures r.status == Failed <==> r.messageId in was + more {
      var i :| 0 <= i < |after| && after[i] == r;
      assert before[i] in before;
    }
  }

  lemma QuietSent(outputs: seq<Output>, more: seq<Output>)
    requires forall x :: x in more ==> !x.Enqueued? && !x.Acked?
    ensures Sent(outputs + more) == Sent(outputs) && AckedIds(outputs + more) == AckedIds(outputs)
    ensures FailedIds(outputs + more) == FailedIds(outputs) + FailedIds(more)
  {
    SentConcat(outputs, more);
    SentNothing(more);
    IdsConcat(outputs, more);
    assert AckedIds(more) == {};
  }

  lemma OtherKeepsHistory(cfg: Config, s: State, e: Event, now: int, outputs: seq<Output>)
    requires cfg.Ok() && Agreement(cfg, s) && MailboxIsHistory(s.db, outputs) && EnteredOnce(s.db, outputs)
    requires !e.Send? && !e.Ack?
    ensures var after := Step(cfg, s, e, now);
      && MailboxIsHistory(after.state.db, outputs + after.outputs)
      && EnteredOnce(after.state.db, outputs + after.outputs)
  {
    hide Step, SameRows, FailsExactly, Sent, AckedIds, FailedIds, Agreement, TablesOk;
    var after := Step(cfg, s, e, now);
    TimersHaveRecords(cfg, s);
    StepKeepsRows(cfg, s, e, now);
    StepFails(cfg, s, e, now);
    StepFailsRecorded(cfg, s, e, now);
    QuietSent(outputs, after.outputs);
    MapAsQueuedSame(s.db.mailbox, after.state.db.mailbox);
    FilterAgree(Sent(outputs), NotAcked(outputs), NotAcked(outputs + after.outputs));
    FailedStatuses(s.db.mailbox, after.state.db.mailbox, FailedIds(outputs), FailedIds(after.outputs));
  }

  lemma StepKeepsHistory(cfg: Config, s: State, e: Event, now: int, outputs: seq<Output>)
    requires cfg.Ok() && Agreement(cfg, s) && Conforming(s.db, e)
    requires MailboxIsHistory(s.db, outputs) && EnteredOnce(s.db, outputs)
    ensures var after := Step(cfg, s, e, now);
      && MailboxIsHistory(after.state.db, outputs + after.outputs)
      && EnteredOnce(after.state.db, outputs + after.outputs)
  {
    match e {
      case Send(letter, online) => SendKeepsHistory(cfg, s, letter, online, now, outputs);
      case Ack(userId, messageId, mailboxId) => AckKeepsHistory(cfg, s, userId, messageId, mailboxId, outputs);
      case _ => OtherKeepsHistory(cfg, s, e, now, outputs);
    }
  }

  /** MAIN: over a conforming run from an empty server, the mailbox is the history of queued letters with
      the acknowledged ones removed, in the order they were queued, and each message was queued once. */
  lemma {:induction false} HistoryHolds(cfg: Config, users: set<string>, events: seq<Timed>)
    requires cfg.Ok() && ConformingRun(cfg, Initial(users), events)
    ensures var run := Run(cfg, Initial(users), events);
      MailboxIsHistory(run.state.db, run.outputs) && EnteredOnce(run.state.db, run.outputs)
    decreases |events|
  {
    if events == [] {
      assert Map(Initial(users).db.mailbox, AsQueued()) == [];
    } else {
      var n := |events| - 1;
      InitialAgreement(cfg, users);
      ConformingPrefix(cfg, Initial(users), events, n);
      HistoryHolds(cfg, users, events[..n]);
      AgreementHolds(cfg, Initial(users), events[..n]);
      var before := Run(cfg, Initial(users), events[..n]);
      StepKeepsHistory(cfg, before.state, events[n].event, events[n].now, before.outputs);
    }
  }
}
