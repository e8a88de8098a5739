/** The message service and the direct-message handlers of the chat server, as they run: loops of
    repository transactions, armed timers and the cache of delivered ids. */
module ChatServer {
  import opened Sequences
  import opened MailboxTables
  import opened MailboxRepo
  import opened DeliveryProtocol
  import opened DeliveryInvariant
  import opened DeliveryNotices
  import opened DeliveryRetries
  import opened DeliveryTransactions

  /** What an acknowledgement timeout came to. */
  datatype TimeoutResult = TimeoutResult(failed: bool, attemptCount: nat, senderId: string, recipientId: string,
                                         nextRetryAt: Option<int>, delay: Option<int>)

  /** The sender and recipient of a message, from its record; a message given up without one, from its row. */
  function Concerned(db: Db, messageId: string, failed: bool): (string, string) {
    if messageId in db.deliveries then (db.deliveries[messageId].senderId, db.deliveries[messageId].recipientId)
    else if failed && FailInfoOf(db, messageId).Some?
    then (FailInfoOf(db, messageId).value.senderId, FailInfoOf(db, messageId).value.recipientId)
    else ("", "")
  }

  /** The one to tell of an acknowledgement: the sender found, unless it failed or found none. */
  function Notified(db: Db, userId: string, messageId: string, mailboxId: nat): Option<string> {
    var senderId := AckSender(db, messageId, mailboxId);
    if messageId == "" || !AckSucceeds(db, userId, messageId, mailboxId) || senderId == "" then None else Some(senderId)
  }

  /** MAIN: while the tables agree, the sender of a letter in the mailbox is told of its acknowledgement, and a
      timeout concerns the letter's own people. */
  lemma SenderIsTold(cfg: Config, s: State, r: MailRow, mailboxId: nat, failed: bool)
    requires Agreement(cfg, s) && r in s.db.mailbox && (mailboxId == 0 || mailboxId == r.id)
    requires r.messageId != "" && r.senderId != ""
    ensures Notified(s.db, r.recipientId, r.messageId, mailboxId) == Some(r.senderId)
    ensures Concerned(s.db, r.messageId, failed) == (r.senderId, r.recipientId)
  {
    AckFindsSender(cfg, s, r, mailboxId);
    assert RowAgrees(r, s.db.deliveries, cfg.maxRetries);
  }

  /** Without a record a message given up concerns its row's people, and one rescheduled nobody. */
  lemma UnrecordedConcerns(db: Db, r: MailRow)
    requires TablesOk(db) && r in db.mailbox && r.messageId !in db.deliveries
    ensures Concerned(db, r.messageId, true) == (r.senderId, r.recipientId)
    ensures Concerned(db, r.messageId, false) == ("", "")
  {
    UnrecordedReports(db, r.messageId);
  }

  lemma RecordGivesInfo(db: Db, messageId: string)
    requires messageId in db.deliveries
    ensures FailInfoOf(db, messageId).Some?
  {
  }

  /** The sweep's first query finds rows with records; before the first of them nothing has changed. */
  lemma ExhaustedRows(cfg: Config, db: Db)
    requires TablesOk(db)
    ensures var exhausted := FindExhausted(db, cfg.maxRetries, SWEEP_LIMIT);
      && exhausted == SweepFailures(cfg, db)
      && (forall r :: r in exhausted ==> r.messageId in db.deliveries)
      && db == FailAll(db, MessageIds(exhausted[..0]))
  {
    FailureRows(cfg, db);
    DispatchNone(db, (attempts: nat) => 0, 0);
    assert MessageIds([]) == {};
  }

  class MessageService {
    const repo: MailboxRepository
    const cfg: Config

    constructor (repo: MailboxRepository, cfg: Config)
      ensures this.repo == repo && this.cfg == cfg
    {
      this.repo := repo;
      this.cfg := cfg;
    }

    /** Gives up on a message that has used up its retries; schedules the next retry of any other. */
    method HandleAckTimeout(messageId: string, now: int) returns (result: TimeoutResult)
      requires cfg.Ok()
      modifies repo
      ensures result.attemptCount == TimeoutAttempts(old(repo.Tables()), messageId)
      ensures result.failed <==> result.attemptCount >= cfg.maxRetries
      ensures repo.Tables() ==
        if result.failed then MarkFailed(old(repo.Tables()), messageId)
        else ScheduleRetry(old(repo.Tables()), messageId, RetryDelay(result.attemptCount + 1, cfg.retryDelays), now)
      ensures (result.senderId, result.recipientId) == Concerned(old(repo.Tables()), messageId, result.failed)
      ensures result.failed ==> result.nextRetryAt == None && result.delay == None
      ensures !result.failed ==> result.delay == Some(RetryDelay(result.attemptCount + 1, cfg.retryDelays))
      ensures !result.failed ==>
        result.nextRetryAt == Some(DueAt(repo.Tables(), messageId, result.delay.value, now))
      ensures !result.failed && Unsettled(old(repo.Tables()), messageId) ==>
        result.nextRetryAt == Some(now + if result.delay.value > 0 then result.delay.value else 0)
    {
      var attempts, senderId, recipientId := 1, "", "";
      if messageId in repo.deliveries {
        var d := repo.deliveries[messageId];
        senderId, recipientId := d.senderId, d.recipientId;
        if d.attemptCount != 0 {
          attempts := d.attemptCount;
        }
      }
      if attempts >= cfg.maxRetries {
        var info := repo.Fail(messageId);
        if info.Some? {
          senderId := if info.value.senderId != "" then info.value.senderId else senderId;
          recipientId := if info.value.recipientId != "" then info.value.recipientId else recipientId;
        }
        return TimeoutResult(true, attempts, senderId, recipientId, None, None);
      }
      var delay := RetryDelay(attempts + 1, cfg.retryDelays);
      var nextRetryAt, _ := repo.Reschedule(messageId, delay, now);
      return TimeoutResult(false, attempts, senderId, recipientId, Some(nextRetryAt), Some(delay));
    }

    method DeadLetterExhausted() returns (failures: seq<MailRow>)
      requires TablesOk(repo.Tables())
      modifies repo
      ensures failures == SweepFailures(cfg, old(repo.Tables()))
      ensures repo.Tables() == FailAll(old(repo.Tables()), MessageIds(failures))
    {
      hide FailAll, MarkFailed, FindExhausted, SweepFailures, IsExhausted, TablesOk, HasMessage, MessageIds, FailInfoOf;
      ghost var start := repo.Tables();
      var exhausted := FindExhausted(repo.Tables(), cfg.maxRetries, SWEEP_LIMIT);
      ExhaustedRows(cfg, start);
      failures := [];
      for i := 0 to |exhausted|
        invariant failures == exhausted[..i]
        invariant repo.Tables() == FailAll(start, MessageIds(exhausted[..i]))
      {
        assert exhausted[i] in exhausted;
        FailStep(start, exhausted, i);
        RecordGivesInfo(repo.Tables(), exhausted[i].messageId);
        var failInfo := repo.Fail(exhausted[i].messageId);
        if failInfo.Some? {
          failures := failures + [exhausted[i]];
        }
      }
      assert exhausted[..|exhausted|] == exhausted;
    }

    /** Hands one candidate over once more; `attempts` is the count its query joined to it. */
    method RetryRow(row: MailRow, attempts: nat, now: int)
      requires cfg.Ok() && TablesOk(repo.Tables()) && Present(repo.Tables(), row)
      requires row.messageId in repo.deliveries && repo.deliveries[row.messageId].attemptCount == attempts
      modifies repo
      ensures repo.Tables() == DispatchAll(old(repo.Tables()), {row.messageId}, SweepDelay(cfg), now)
    {
      DispatchOne(repo.Tables(), row, SweepDelay(cfg), now);
      var nextAttempt := attempts + 1;
      var _ := repo.Increment(row.messageId, RetryDelay(nextAttempt + 1, cfg.retryDelays), now);
      repo.Deliver(row.id, row.messageId);
    }

    method DispatchCandidates(onlineUsers: set<string>, now: int) returns (dispatches: seq<MailRow>)
      requires cfg.Ok() && TablesOk(repo.Tables())
      modifies repo
      ensures dispatches
        == Filter(FindCandidates(old(repo.Tables()), cfg.maxRetries, now, SWEEP_LIMIT), ToUserIn(onlineUsers))
      ensures repo.Tables() == DispatchAll(old(repo.Tables()), MessageIds(dispatches), SweepDelay(cfg), now)
    {
      ghost var start := repo.Tables();
      var candidates := FindCandidates(repo.Tables(), cfg.maxRetries, now, SWEEP_LIMIT);
      var joined := repo.deliveries;
      CandidateRows(start, cfg.maxRetries, now, SWEEP_LIMIT);
      DispatchNone(start, SweepDelay(cfg), now);
      assert MessageIds([]) == {};
      hide DispatchAll, MarkDelivered, IncrementAttempt, FindCandidates, IsCandidate, TablesOk, MessageIds, DistinctRows;
      dispatches := [];
      for i := 0 to |candidates|
        invariant dispatches == Filter(candidates[..i], ToUserIn(onlineUsers))
        invariant repo.Tables() == DispatchAll(start, MessageIds(dispatches), SweepDelay(cfg), now)
      {
        var row := candidates[i];
        assert row in candidates;
        PickSnoc(candidates, i, ToUserIn(onlineUsers));
        if row.recipientId in onlineUsers {
          CandidateStep(start, candidates, i, dispatches, ToUserIn(onlineUsers), SweepDelay(cfg), now);
          RetryRow(row, joined[row.messageId].attemptCount, now);
          dispatches := dispatches + [row];
        }
      }
      assert candidates[..|candidates|] == candidates;
    }

    method ProcessRetryQueue(onlineUsers: set<string>, now: int)
      returns (failures: seq<MailRow>, dispatches: seq<MailRow>)
      requires cfg.Ok() && TablesOk(repo.Tables())
      modifies repo
      ensures failures == SweepFailures(cfg, old(repo.Tables()))
      ensures dispatches == SweepDispatches(cfg, old(repo.Tables()), onlineUsers, now)
      ensures repo.Tables() == DispatchAll(FailAll(old(repo.Tables()), MessageIds(failures)),
                                           MessageIds(dispatches), SweepDelay(cfg), now)
    {
      ghost var start := repo.Tables();
      CandidatesUnaffected(cfg, start, now);
      failures := DeadLetterExhausted();
      SameRowsConstraints(start, repo.Tables());
      dispatches := DispatchCandidates(onlineUsers, now);
    }
  }

  /** One more row handed over after a prefix of the rows, as one bulk update after another. */
  lemma BulkStep(db: Db, rows: seq<MailRow>, i: nat, delay: nat -> int, now: int)
    requires TablesOk(db) && DistinctRows(rows) && i < |rows|
    requires Present(db, rows[i]) && rows[i].messageId in db.deliveries
    ensures var before := DispatchAll(db, MessageIds(rows[..i]), delay, now);
      && TablesOk(before) && Present(before, rows[i]) && rows[i].messageId in before.deliveries
      && before.deliveries[rows[i].messageId] == db.deliveries[rows[i].messageId]
      && DispatchAll(before, {rows[i].messageId}, delay, now) == DispatchAll(db, MessageIds(rows[..i + 1]), delay, now)
  {
    var before := DispatchAll(db, MessageIds(rows[..i]), delay, now);
    MessageIdsSnoc(rows, i);
    BulkKeepsPresent(db, before, rows[i]);
    DispatchMore(db, MessageIds(rows[..i]), rows[i].messageId, delay, now);
  }

  lemma CandidateRows(db: Db, maxRetries: nat, now: int, limit: nat)
    requires TablesOk(db)
    ensures forall r :: r in FindCandidates(db, maxRetries, now, limit) ==>
      r in db.mailbox && r.messageId in db.deliveries
    ensures DistinctRows(FindCandidates(db, maxRetries, now, limit))
  {
    QueryRows(db, IsCandidate(db.deliveries, maxRetries, now), limit);
  }

  lemma PickSnoc(candidates: seq<MailRow>, i: nat, p: MailRow -> bool)
    requires i < |candidates|
    ensures Filter(candidates[..i + 1], p)
      == if p(candidates[i]) then Filter(candidates[..i], p) + [candidates[i]] else Filter(candidates[..i], p)
  {
    assert candidates[..i + 1] == candidates[..i] + [candidates[i]];
    FilterSnoc(candidates[..i], candidates[i], p);
  }

  /** One more candidate dispatched after those selected from the candidates before it. */
  lemma CandidateStep(db: Db, candidates: seq<MailRow>, i: nat, picked: seq<MailRow>, p: MailRow -> bool,
                      delay: nat -> int, now: int)
    requires TablesOk(db) && DistinctRows(candidates) && i < |candidates| && p(candidates[i])
    requires picked == Filter(candidates[..i], p)
    requires candidates[i] in db.mailbox && candidates[i].messageId in db.deliveries
    ensures var before := DispatchAll(db, MessageIds(picked), delay, now); var r := candidates[i];
      && TablesOk(before) && Present(before, r) && r.messageId in before.deliveries
      && before.deliveries[r.messageId] == db.deliveries[r.messageId]
      && DispatchAll(before, {r.messageId}, delay, now) == DispatchAll(db, MessageIds(picked + [r]), delay, now)
  {
    hide TablesOk, Present, DispatchAll, Filter, DistinctRows, MessageIds;
    var rows := picked + [candidates[i]];
    PickDistinct(candidates, i, p);
    assert rows[..|picked|] == picked && rows[..|rows|] == rows;
    RowIsPresent(db, candidates[i]);
    BulkStep(db, rows, |picked|, delay, now);
  }

  lemma RowIsPresent(db: Db, r: MailRow)
    requires r in db.mailbox
    ensures Present(db, r)
  {
  }

  lemma PickDistinct(candidates: seq<MailRow>, i: nat, p: MailRow -> bool)
    requires DistinctRows(candidates) && i < |candidates| && p(candidates[i])
    ensures DistinctRows(Filter(candidates[..i], p) + [candidates[i]])
  {
    var distinct := (a: MailRow, b: MailRow) => a.messageId != b.messageId;
    var rows := Filter(candidates[..i + 1], p);
    PickSnoc(candidates, i, p);
    assert Pairwise(candidates[..i + 1], distinct);
    FilterPairwise(candidates[..i + 1], p, distinct);
    assert forall j, k :: 0 <= j < k < |rows| ==> distinct(rows[j], rows[k]);
  }

  class Server {
    const service: MessageService
    const repo: MailboxRepository
    const cfg: Config
    var timers: map<string, Timer>
    var recent: seq<string>
    var isSweepRunning: bool

    ghost predicate Valid()
      reads this, repo
    {
      && service.repo == repo && service.cfg == cfg && cfg.Ok()
      && TablesOk(repo.Tables()) && Recorded(repo.Tables())
      && !isSweepRunning
    }

    ghost function Current(): State
      reads this, repo
    {
      State(repo.Tables(), timers, recent)
    }

    constructor (users: set<string>, cfg: Config)
      requires cfg.Ok()
      ensures Valid() && fresh(repo) && this.cfg == cfg && Current() == Initial(users)
    {
      var repo := new MailboxRepository(users);
      this.repo := repo;
      this.cfg := cfg;
      service := new MessageService(repo, cfg);
      timers := map[];
      recent := [];
      isSweepRunning := false;
    }

    method ClearAckTimer(messageId: string)
      modifies this`timers
      ensures timers == old(timers) - {messageId}
    {
      if messageId in timers {
        timers := timers - {messageId};
      }
    }

    method ArmAckTimer(r: MailRow)
      modifies this`timers
      ensures timers == old(timers)[r.messageId := TimerOf(r)]
    {
      ClearAckTimer(r.messageId);
      timers := timers[r.messageId := Timer(r.id, r.messageId, r.recipientId, r.senderId)];
    }

    method MarkMessageDelivered(messageId: string)
      modifies this`recent
      ensures recent == Remember(old(recent), messageId)
    {
      if |recent| >= RECENT_DELIVERED_CACHE_LIMIT {
        var firstKey := recent[0];
        if firstKey != "" {
          recent := recent[1..];
        }
      }
      if messageId !in recent {
        recent := recent + [messageId];
      }
    }

    /** Hands one row over: one attempt more, delivered, and its timer armed. */
    method HandOver(row: MailRow, now: int)
      requires cfg.Ok() && TablesOk(repo.Tables()) && Present(repo.Tables(), row) && row.messageId in repo.deliveries
      modifies this`timers, repo
      ensures repo.Tables() == DispatchAll(old(repo.Tables()), {row.messageId}, FirstDelay(cfg), now)
      ensures timers == old(timers)[row.messageId := TimerOf(row)]
    {
      DispatchOne(repo.Tables(), row, FirstDelay(cfg), now);
      var _ := repo.Increment(row.messageId, RetryDelay(2, cfg.retryDelays), now);
      repo.Deliver(row.id, row.messageId);
      ArmAckTimer(row);
    }

    method SendDirectMessage(letter: Letter, online: bool, now: int) returns (outputs: seq<Output>)
      requires Valid()
      modifies this, repo
      ensures Valid()
      ensures Effect(Current(), outputs) == Step(cfg, old(Current()), Send(letter, online), now)
    {
      ghost var start := Current();
      StepKeepsConstraints(cfg, start, Send(letter, online), now);
      outputs := [];
      if letter.messageId == "" {
        return;
      }
      if letter.messageId in recent {
        return [Suppressed(letter.messageId)];
      }
      if letter.messageId in repo.deliveries && repo.deliveries[letter.messageId].status in {Acknowledged, Read} {
        return [Suppressed(letter.messageId)];
      }
      var outcome := repo.QueueLetter(letter, now);
      match outcome {
        case Duplicate => outputs := [Suppressed(letter.messageId)];
        case UnknownUser =>
        case Inserted(id) =>
          var row := NewRow(id, letter);
          outputs := [Enqueued(row)];
          if online {
            QueuedIsPresent(start.db, letter, now);
            hide DispatchAll, TablesOk, Present, Recorded, QueueMessage;
            HandOver(row, now);
            outputs := outputs + [LiveDispatch(letter.messageId)];
          }
      }
    }

    method ReplayRows(pending: seq<MailRow>, now: int) returns (outputs: seq<Output>)
      requires cfg.Ok() && TablesOk(repo.Tables()) && DistinctRows(pending)
      requires forall r :: r in pending ==> Present(repo.Tables(), r) && r.messageId in repo.deliveries
      modifies this`timers, repo
      ensures repo.Tables() == DispatchAll(old(repo.Tables()), MessageIds(pending), FirstDelay(cfg), now)
      ensures timers == ArmAll(old(timers), pending)
      ensures outputs == Map(pending, ToReplayDispatch())
    {
      ghost var start, armed := repo.Tables(), timers;
      DispatchNone(start, FirstDelay(cfg), now);
      assert MessageIds(pending[..0]) == {};
      outputs := [];
      ReplayPrefixes(armed, pending);
      hide DispatchAll, TablesOk, Present, MessageIds, DistinctRows, FirstDelay, Map, ArmAll;
      for i := 0 to |pending|
        invariant outputs == Map(pending[..i], ToReplayDispatch())
        invariant repo.Tables() == DispatchAll(start, MessageIds(pending[..i]), FirstDelay(cfg), now)
        invariant timers == ArmAll(armed, pending[..i])
      {
        assert pending[i] in pending;
        BulkStep(start, pending, i, FirstDelay(cfg), now);
        HandOver(pending[i], now);
        ReplayPrefix(armed, pending, i);
        outputs := outputs + [ReplayDispatch(pending[i].messageId)];
      }
    }

    method DeliverPendingMailbox(userId: string, lastAcked: string, now: int) returns (outputs: seq<Output>)
      requires Valid()
      modifies this`timers, repo
      ensures Valid()
      ensures Effect(Current(), outputs) == Step(cfg, old(Current()), Replay(userId, lastAcked), now)
    {
      StepKeepsConstraints(cfg, Current(), Replay(userId, lastAcked), now);
      ReplayedPresent(repo.Tables(), userId, lastAcked);
      ReplayStepIs(cfg, Current(), userId, lastAcked, now);
      hide TablesOk, Recorded, Present, DispatchAll, ArmAll, Step;
      var pending;
      if lastAcked != "" {
        pending := PendingSince(repo.Tables(), userId, lastAcked, RESUME_LIMIT);
      } else {
        pending := Pending(repo.Tables(), userId, PENDING_LIMIT);
      }
      outputs := ReplayRows(pending, now);
    }

    method ArmReachable(dispatches: seq<MailRow>, reachable: set<string>)
      modifies this`timers
      ensures timers == ArmAll(old(timers), Filter(dispatches, ToUserIn(reachable)))
    {
      for i := 0 to |dispatches|
        invariant timers == ArmAll(old(timers), Filter(dispatches[..i], ToUserIn(reachable)))
      {
        var row := dispatches[i];
        assert dispatches[..i + 1] == dispatches[..i] + [row];
        FilterSnoc(dispatches[..i], row, ToUserIn(reachable));
        if row.recipientId in reachable {
          ArmSnoc(old(timers), Filter(dispatches[..i], ToUserIn(reachable)), row);
          ArmAckTimer(row);
        } else {
          assert Filter(dispatches[..i + 1], ToUserIn(reachable)) == Filter(dispatches[..i], ToUserIn(reachable));
        }
      }
      assert dispatches[..|dispatches|] == dispatches;
    }

    method MailboxRetrySweep(onlineUsers: set<string>, reachable: set<string>, now: int) returns (outputs: seq<Output>)
      requires Valid()
      modifies this, repo
      ensures Valid()
      ensures Effect(Current(), outputs) == Step(cfg, old(Current()), Sweep(onlineUsers, reachable), now)
    {
      StepKeepsConstraints(cfg, Current(), Sweep(onlineUsers, reachable), now);
      SweepStepIs(cfg, Current(), onlineUsers, reachable, now);
      hide Step, TablesOk, Recorded, SweepFailures, SweepDispatches, DispatchAll, FailAll, ArmAll;
      outputs := [];
      if isSweepRunning {
        return;
      }
      isSweepRunning := true;
      var failures, dispatches := service.ProcessRetryQueue(onlineUsers, now);
      outputs := Map(failures, ToSweepFailed()) + Map(dispatches, ToSweepDispatch());
      ArmReachable(dispatches, reachable);
      isSweepRunning := false;
    }

    method AckTimerFires(messageId: string, now: int) returns (outputs: seq<Output>)
      requires Valid()
      modifies this, repo
      ensures Valid()
      ensures Effect(Current(), outputs) == Step(cfg, old(Current()), AckTimeout(messageId), now)
    {
      StepKeepsConstraints(cfg, Current(), AckTimeout(messageId), now);
      outputs := [];
      if messageId in timers {
        timers := timers - {messageId};
        var result := service.HandleAckTimeout(messageId, now);
        if result.failed {
          outputs := [TimeoutFailed(messageId)];
        }
      }
    }

    /** Reports whom to notify, if anyone. */
    method AckDirectMessage(userId: string, messageId: string, mailboxId: nat)
      returns (outputs: seq<Output>, notify: Option<string>)
      requires Valid()
      modifies this, repo
      ensures Valid()
      ensures notify == Notified(old(repo.Tables()), userId, messageId, mailboxId)
      ensures forall now :: Effect(Current(), outputs) == Step(cfg, old(Current()), Ack(userId, messageId, mailboxId), now)
    {
      StepKeepsConstraints(cfg, Current(), Ack(userId, messageId, mailboxId), 0);
      outputs, notify := [], None;
      if messageId == "" {
        return;
      }
      ClearAckTimer(messageId);
      var ok, senderId := repo.AcknowledgeMessage(userId, messageId, mailboxId);
      if ok {
        MarkMessageDelivered(messageId);
        outputs := [Acked(messageId, userId, mailboxId)];
        if senderId != "" {
          notify := Some(senderId);
        }
      }
    }

    /** Reports whom to notify, if anyone. */
    method ReadDirectMessage(userId: string, messageId: string, senderId: string) returns (notify: Option<string>)
      requires Valid()
      modifies this, repo
      ensures Valid()
      ensures notify == if messageId == "" then None else ReadSender(old(repo.Tables()), messageId, senderId)
      ensures forall now :: Effect(Current(), []) == Step(cfg, old(Current()), ReadReceipt(userId, messageId), now)
    {
      StepKeepsConstraints(cfg, Current(), ReadReceipt(userId, messageId), 0);
      notify := None;
      if messageId != "" {
        notify := repo.ReadMessage(userId, messageId, senderId);
      }
    }

    method SignalDecryptionError(userId: string, messageId: string, senderId: string)
      requires Valid()
      modifies this, repo
      ensures Valid()
      ensures forall now ::
        Effect(Current(), []) == Step(cfg, old(Current()), DecryptionError(userId, messageId, senderId), now)
    {
      StepKeepsConstraints(cfg, Current(), DecryptionError(userId, messageId, senderId), 0);
      if messageId != "" {
        var _ := repo.RecordFailure(userId, messageId, senderId);
      }
    }

    method StopSocketSchedulers()
      requires Valid()
      modifies this`timers
      ensures Valid()
      ensures forall now :: Effect(Current(), []) == Step(cfg, old(Current()), StopSchedulers, now)
    {
      timers := map[];
    }
  }

  lemma ReplayStepIs(cfg: Config, s: State, userId: string, lastAcked: string, now: int)
    requires cfg.Ok()
    ensures var rows := if lastAcked != "" then PendingSince(s.db, userId, lastAcked, RESUME_LIMIT)
                        else Pending(s.db, userId, PENDING_LIMIT);
      rows == Replayed(s.db, userId, lastAcked) &&
      Step(cfg, s, Replay(userId, lastAcked), now)
        == Effect(s.(db := DispatchAll(s.db, MessageIds(rows), FirstDelay(cfg), now), timers := ArmAll(s.timers, rows)),
                  Map(rows, ToReplayDispatch()))
  {
  }

  lemma ReplayPrefixes(timers: map<string, Timer>, pending: seq<MailRow>)
    ensures Map(pending[..0], ToReplayDispatch()) == [] && ArmAll(timers, pending[..0]) == timers
    ensures pending[..|pending|] == pending
  {
  }

  lemma ReplayPrefix(timers: map<string, Timer>, pending: seq<MailRow>, i: nat)
    requires i < |pending|
    ensures ArmAll(timers, pending[..i + 1])
      == ArmAll(timers, pending[..i])[pending[i].messageId := TimerOf(pending[i])]
    ensures Map(pending[..i + 1], ToReplayDispatch())
      == Map(pending[..i], ToReplayDispatch()) + [ReplayDispatch(pending[i].messageId)]
  {
    assert pending[..i + 1] == pending[..i] + [pending[i]];
    ArmSnoc(timers, pending[..i], pending[i]);
    MapSnoc(pending[..i], pending[i], ToReplayDispatch());
  }

  lemma ReplayedPresent(db: Db, userId: string, lastAcked: string)
    requires TablesOk(db) && Recorded(db)
    ensures forall r :: r in Replayed(db, userId, lastAcked) ==> Present(db, r) && r.messageId in db.deliveries
    ensures DistinctRows(Replayed(db, userId, lastAcked))
  {
    ReplayedRows(db, userId, lastAcked);
  }

  lemma SweepStepIs(cfg: Config, s: State, onlineUsers: set<string>, reachable: set<string>, now: int)
    requires cfg.Ok()
    ensures var failures := SweepFailures(cfg, s.db); var rows := SweepDispatches(cfg, s.db, onlineUsers, now);
      Step(cfg, s, Sweep(onlineUsers, reachable), now)
        == Effect(s.(db := DispatchAll(FailAll(s.db, MessageIds(failures)), MessageIds(rows), SweepDelay(cfg), now),
                     timers := ArmAll(s.timers, Filter(rows, ToUserIn(reachable)))),
                  Map(failures, ToSweepFailed()) + Map(rows, ToSweepDispatch()))
  {
  }

  lemma QueuedIsPresent(db: Db, letter: Letter, now: int)
    requires TablesOk(db) && QueueOutcomeOf(db, letter).Inserted?
    ensures var after := QueueMessage(db, letter, now);
      TablesOk(after) && Present(after, NewRow(db.nextId, letter)) && letter.messageId in after.deliveries
  {
    QueuedConstraints(db, letter, now);
    assert NewRow(db.nextId, letter) in QueueMessage(db, letter, now).mailbox;
  }

  lemma ArmSnoc(timers: map<string, Timer>, rows: seq<MailRow>, r: MailRow)
    ensures ArmAll(timers, rows + [r]) == ArmAll(timers, rows)[r.messageId := TimerOf(r)]
  {
    assert (rows + [r])[..|rows|] == rows;
  }
}
