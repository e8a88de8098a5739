/** Who is told and what is handed over: letters reach the mailbox as they were sent, records go on naming their
    letter's people, and so every notice goes to the right one. */
module DeliveryNotices {
  import opened Sequences
  import opened MailboxTables
  import opened MailboxNoLoss
  import opened DeliveryProtocol
  import opened DeliveryInvariant
  import opened DeliveryHistory
  import opened DeliveryReplay
  import opened DeliveryRetries
  import opened DeliveryTransactions

  // ---------------------------------------------------------------------------
  // Letters
  // ---------------------------------------------------------------------------

  /** The row is the letter's, word for word. */
  predicate Carries(r: MailRow, letter: Letter) {
    && r.messageId == letter.messageId && r.recipientId == letter.recipientId && r.senderId == letter.senderId
    && r.senderUsername == letter.senderUsername && r.ciphertext == letter.ciphertext
  }

  ghost predicate SentAs(events: seq<Timed>, r: MailRow) {
    exists t :: t in events && t.event.Send? && Carries(r, t.event.letter)
  }

  /** MAIN: over every run, whatever clients do, every row that was ever queued carries a letter someone asked to
      send: its people, its name and its ciphertext. */
  lemma {:induction false} LettersAsSent(cfg: Config, users: set<string>, events: seq<Timed>)
    requires cfg.Ok()
    ensures forall r :: r in Sent(Run(cfg, Initial(users), events).outputs) ==> SentAs(events, r)
    decreases |events|
  {
    hide Step, SentAs;
    if events == [] {
    } else {
      var n := |events| - 1;
      LettersAsSent(cfg, users, events[..n]);
      var before := Run(cfg, Initial(users), events[..n]);
      var more := Step(cfg, before.state, events[n].event, events[n].now).outputs;
      SentConcat(before.outputs, more);
      StepQueues(cfg, before.state, events[n].event, events[n].now);
      assert events == events[..n] + [events[n]];
      forall r | r in Sent(before.outputs + more) ensures SentAs(events, r) {
        SentLonger(events[..n], events[n], r);
        if r in Sent(more) {
          LetterSent(events, n, before.state.db.nextId);
        }
      }
    }
  }

  lemma SentLonger(events: seq<Timed>, last: Timed, r: MailRow)
    ensures SentAs(events, r) ==> SentAs(events + [last], r)
  {
    if t :| t in events && t.event.Send? && Carries(r, t.event.letter) {
      assert t in events + [last];
    }
  }

  lemma LetterSent(events: seq<Timed>, i: nat, id: nat)
    requires i < |events| && events[i].event.Send?
    ensures SentAs(events, NewRow(id, events[i].event.letter))
  {
    assert events[i] in events;
  }

  // ---------------------------------------------------------------------------
  // People
  // ---------------------------------------------------------------------------

  /** The foreign keys of `message_deliveries`. */
  ghost predicate PeopleKnown(db: Db) {
    forall m :: m in db.deliveries ==>
      db.deliveries[m].senderId in db.users && db.deliveries[m].recipientId in db.users
  }

  lemma AppliedKnown(db: Db, tx: Tx)
    requires PeopleKnown(db)
    ensures PeopleKnown(Apply(db, tx))
  {
    hide Map, Filter, SetStatus, AckSender;
  }

  /** MAIN: over any interleaving of transactions, whoever asks for them, a delivery record is only ever about known
      users. */
  lemma {:induction false} RecordsNameKnownPeople(db: Db, txs: seq<Tx>)
    requires PeopleKnown(db)
    ensures PeopleKnown(ApplyAll(db, txs))
    decreases |txs|
  {
    hide PeopleKnown, Apply;
    if txs != [] {
      AppliedKnown(db, txs[0]);
      RecordsNameKnownPeople(Apply(db, txs[0]), txs[1..]);
    }
  }

  /** An acknowledgement and a decryption report are refused exactly when there is no record and they would name
      someone unknown in a new one. */
  lemma RefusedIff(db: Db, userId: string, messageId: string, mailboxId: nat, senderId: string)
    ensures !AckSucceeds(db, userId, messageId, mailboxId) <==>
      messageId !in db.deliveries && (userId !in db.users || AckSender(db, messageId, mailboxId) !in db.users)
    ensures RecordDecryptionFailure(db, userId, messageId, senderId) == db <==>
      (if messageId in db.deliveries then db.deliveries[messageId].status == DecryptionFailed
       else userId !in db.users || senderId !in db.users)
  {
    hide AckSender;
    var after := RecordDecryptionFailure(db, userId, messageId, senderId);
    if messageId !in db.deliveries && userId in db.users && senderId in db.users {
      assert messageId in after.deliveries;
    }
    if messageId in db.deliveries {
      assert after.deliveries[messageId] == db.deliveries[messageId].(status := DecryptionFailed);
      assert db.deliveries[messageId].status == DecryptionFailed ==> after.deliveries == db.deliveries;
    }
  }

  /** No event changes who a record is about. */
  lemma StepKeepsPeople(cfg: Config, s: State, e: Event, now: int, m: string)
    requires cfg.Ok() && m in s.db.deliveries
    ensures var after := Step(cfg, s, e, now).state.db;
      && m in after.deliveries
      && after.deliveries[m].senderId == s.db.deliveries[m].senderId
      && after.deliveries[m].recipientId == s.db.deliveries[m].recipientId
  {
    hide Replayed, SweepFailures, SweepDispatches, ArmAll, Map, SetStatus, Filter, Remember, AckSender;
  }

  /** Every letter queued so far has a record that names its people. */
  ghost predicate PeopleNamed(db: Db, outputs: seq<Output>) {
    forall r :: r in Sent(outputs) ==>
      && r.messageId in db.deliveries
      && db.deliveries[r.messageId].senderId == r.senderId && db.deliveries[r.messageId].recipientId == r.recipientId
  }

  lemma SendNames(cfg: Config, s: State, letter: Letter, online: bool, now: int)
    requires cfg.Ok() && Agreement(cfg, s)
    requires Enqueued(NewRow(s.db.nextId, letter)) in SendStep(cfg, s, letter, online, now).outputs
    ensures var after := SendStep(cfg, s, letter, online, now).state.db;
      && letter.messageId in after.deliveries
      && after.deliveries[letter.messageId].senderId == letter.senderId
      && after.deliveries[letter.messageId].recipientId == letter.recipientId
  {
    QueuesOnlyNewMessages(cfg, s.db, letter);
    hide Agreement;
  }

  lemma StepNames(cfg: Config, s: State, e: Event, now: int, outputs: seq<Output>)
    requires cfg.Ok() && Agreement(cfg, s) && PeopleNamed(s.db, outputs)
    ensures var after := Step(cfg, s, e, now); PeopleNamed(after.state.db, outputs + after.outputs)
  {
    hide Step, Agreement;
    var after := Step(cfg, s, e, now);
    SentConcat(outputs, after.outputs);
    StepQueues(cfg, s, e, now);
    forall r | r in Sent(outputs + after.outputs)
      ensures r.messageId in after.state.db.deliveries
      ensures after.state.db.deliveries[r.messageId].senderId == r.senderId
      ensures after.state.db.deliveries[r.messageId].recipientId == r.recipientId
    {
      if r in Sent(outputs) {
        StepKeepsPeople(cfg, s, e, now, r.messageId);
      } else {
        SendIs(cfg, s, e, now);
        SendNames(cfg, s, e.letter, e.online, now);
      }
    }
  }

  lemma SendIs(cfg: Config, s: State, e: Event, now: int)
    requires cfg.Ok() && e.Send?
    ensures Step(cfg, s, e, now) == SendStep(cfg, s, e.letter, e.online, now)
  {
  }

  lemma {:induction false} NamesKept(cfg: Config, users: set<string>, events: seq<Timed>)
    requires cfg.Ok() && ConformingRun(cfg, Initial(users), events)
    ensures var run := Run(cfg, Initial(users), events); PeopleNamed(run.state.db, run.outputs)
    decreases |events|
  {
    hide Step, PeopleNamed, Agreement, ConformingRun;
    if events == [] {
      NobodyNamed(users);
    } else {
      var n := |events| - 1;
      ConformingPrefix(cfg, Initial(users), events, n);
      NamesKept(cfg, users, events[..n]);
      InitialAgreement(cfg, users);
      AgreementHolds(cfg, Initial(users), events[..n]);
      var before := Run(cfg, Initial(users), events[..n]);
      StepNames(cfg, before.state, events[n].event, events[n].now, before.outputs);
    }
  }

  lemma NobodyNamed(users: set<string>)
    ensures PeopleNamed(Initial(users).db, [])
  {
  }

  // ---------------------------------------------------------------------------
  // Notices
  // ---------------------------------------------------------------------------

  /** The sender an acknowledgement finds: that of the row it names by id, or else of the record. */
  lemma AckSenderMeans(db: Db, messageId: string, mailboxId: nat)
    requires TablesOk(db)
    ensures forall r :: r in db.mailbox && r.id == mailboxId && r.senderId != "" ==>
      AckSender(db, messageId, mailboxId) == r.senderId
    ensures (forall r :: r in db.mailbox ==> r.id != mailboxId) ==>
      AckSender(db, messageId, mailboxId) == if messageId in db.deliveries then db.deliveries[messageId].senderId else ""
  {
    forall r | r in db.mailbox && r.id == mailboxId ensures SenderOfId(db.mailbox, mailboxId) == r.senderId {
      SenderOfRow(db, r);
    }
    SenderOfIdFound(db.mailbox, mailboxId);
  }

  /** MAIN: while the tables agree, an acknowledgement of a letter still in the mailbox finds its sender, whether it
      names the row or not. */
  lemma AckFindsSender(cfg: Config, s: State, r: MailRow, mailboxId: nat)
    requires Agreement(cfg, s) && r in s.db.mailbox && (mailboxId == 0 || mailboxId == r.id)
    ensures AckSender(s.db, r.messageId, mailboxId) == r.senderId
  {
    assert RowAgrees(r, s.db.deliveries, cfg.maxRetries);
    SenderOfRow(s.db, r);
  }

  /** No two queued letters have one id. */
  lemma OneIdOneLetter(sent: seq<MailRow>, nextId: nat, a: MailRow, b: MailRow)
    requires IdsCountUp(sent, nextId) && a in sent && b in sent && a.id == b.id
    ensures a == b
  {
    var i :| 0 <= i < |sent| && sent[i] == a;
    var j :| 0 <= j < |sent| && sent[j] == b;
    assert i <= j && j <= i;
  }

  /** What the mailbox holds was queued. */
  lemma StoredWasSent(db: Db, outputs: seq<Output>, k: MailRow)
    requires MailboxIsLeft(db, outputs) && k in db.mailbox
    ensures k.(status := Queued) in Sent(outputs)
  {
    hide Left, Sent, ByAck;
    var i :| 0 <= i < |db.mailbox| && db.mailbox[i] == k;
    assert Map(db.mailbox, AsQueued())[i] == k.(status := Queued);
    LeftAreSent(outputs, ByAck(), k.(status := Queued));
  }

  /** A row of the mailbox under a queued letter's id is that letter's. */
  lemma RowOfLetter(cfg: Config, users: set<string>, events: seq<Timed>, r: MailRow, k: MailRow)
    requires cfg.Ok()
    requires var run := Run(cfg, Initial(users), events);
      r in Sent(run.outputs) && k in run.state.db.mailbox && k.id == r.id
    ensures k.(status := Queued) == r
  {
    hide Run, Sent, MailboxIsLeft, IdsCountUp;
    var run := Run(cfg, Initial(users), events);
    MailboxIsWhatIsLeft(cfg, users, events);
    IdsFollowSendOrder(cfg, users, events);
    StoredWasSent(run.state.db, run.outputs, k);
    OneIdOneLetter(Sent(run.outputs), run.state.db.nextId, r, k.(status := Queued));
  }

  lemma {:induction false} LeftAreSent(outputs: seq<Output>, ends: (Output, MailRow) -> bool, r: MailRow)
    requires r in Left(outputs, ends)
    ensures r in Sent(outputs)
    decreases |outputs|
  {
    hide Untouched;
    var rest := outputs[1..];
    SentConcat([outputs[0]], rest);
    assert outputs == [outputs[0]] + rest;
    if r in Left(rest, ends) {
      LeftAreSent(rest, ends, r);
    } else {
      assert outputs[0].Enqueued? && outputs[0].row == r;
      assert [outputs[0]][1..] == [];
    }
  }

  /** MAIN: over every conforming run all reports about a letter that was ever queued, acknowledged or not, name its
      people and count its dispatches: to whom an acknowledgement and a read receipt go, and what is said when
      it is given up or handed over. */
  lemma ReportsNameTheLetter(cfg: Config, users: set<string>, events: seq<Timed>, r: MailRow)
    requires cfg.Ok() && ConformingRun(cfg, Initial(users), events)
    requires r in Sent(Run(cfg, Initial(users), events).outputs)
    ensures var run := Run(cfg, Initial(users), events);
      var db, m, attempts := run.state.db, r.messageId, Attempts(run.outputs, r.messageId);
      && AckSender(db, m, 0) == AckSender(db, m, r.id) == r.senderId
      && ReadSender(db, m, "") == (if r.senderId == "" then None else Some(r.senderId))
      && FailInfoOf(db, m) == Some(FailInfo(r.senderId, r.recipientId, attempts))
      && AttemptInfoOf(db, m).attemptCount == attempts
  {
    var run := Run(cfg, Initial(users), events);
    NamesKept(cfg, users, events);
    AttemptsAreDispatches(cfg, users, events, r.messageId);
    InitialConstraints(users);
    RunKeepsConstraints(cfg, Initial(users), events);
    forall k | k in run.state.db.mailbox && k.id == r.id ensures k.senderId == r.senderId {
      RowOfLetter(cfg, users, events, r, k);
    }
    hide Run, Attempts, ConformingRun, Sent;
    AckSenderMeans(run.state.db, r.messageId, r.id);
    SenderOfIdFound(run.state.db.mailbox, r.id);
  }

  /** What is reported about a message that has a row and no record, or neither. */
  lemma UnrecordedReports(db: Db, m: string)
    requires TablesOk(db) && m !in db.deliveries
    ensures forall r :: r in db.mailbox && r.messageId == m ==>
      FailInfoOf(db, m) == Some(FailInfo(r.senderId, r.recipientId, 0))
    ensures (forall r :: r in db.mailbox ==> r.messageId != m) ==> FailInfoOf(db, m) == None
    ensures AttemptInfoOf(db, m) == AttemptInfo(1, None) && ReadSender(db, m, "") == None
  {
    RowOfFound(db.mailbox, m);
    forall r | r in db.mailbox && r.messageId == m ensures RowOf(db.mailbox, m) == Some(r) {
      RowsUnique(db, r, RowOf(db.mailbox, m).value);
    }
  }

  /** A read receipt goes to the sender it names, and without a name to the record's. */
  lemma ReadSenderMeans(db: Db, m: string, senderId: string)
    ensures senderId != "" ==> ReadSender(db, m, senderId) == Some(senderId)
    ensures m in db.deliveries && db.deliveries[m].senderId != "" ==>
      ReadSender(db, m, "") == Some(db.deliveries[m].senderId)
    ensures m !in db.deliveries || db.deliveries[m].senderId == "" ==> ReadSender(db, m, "") == None
  {
  }

  /** Trying to queue a letter spends a number, whether it goes in or not. */
  lemma NumbersSpent(db: Db, letter: Letter, now: int)
    ensures QueueMessage(db, letter, now).nextId == db.nextId + 1
    ensures QueueOutcomeOf(db, letter).Inserted? <==>
      letter.senderId in db.users && letter.recipientId in db.users
      && forall r :: r in db.mailbox ==> r.messageId != letter.messageId
    ensures !QueueOutcomeOf(db, letter).Inserted? ==>
      QueueMessage(db, letter, now).mailbox == db.mailbox && QueueMessage(db, letter, now).deliveries == db.deliveries
  {
  }

  /** MAIN: an acknowledgement that succeeds deletes exactly its user's rows that carry the message or, when an id is
      named, that id; it settles the message's record and touches no other; one that fails changes nothing. */
  lemma AckMeans(db: Db, userId: string, messageId: string, mailboxId: nat, r: MailRow, m: string)
    requires r in db.mailbox
    ensures var ok, after := AckSucceeds(db, userId, messageId, mailboxId), Acknowledge(db, userId, messageId, mailboxId);
      && (r in after.mailbox <==>
            !(ok && r.recipientId == userId && (r.messageId == messageId || (mailboxId > 0 && r.id == mailboxId))))
      && (ok ==> messageId in after.deliveries && after.deliveries[messageId].status == Acknowledged
                 && after.deliveries[messageId].nextRetryAt == None)
      && (m != messageId ==> (m in after.deliveries <==> m in db.deliveries))
      && (m != messageId && m in db.deliveries ==> after.deliveries[m] == db.deliveries[m])
      && (!ok ==> after == db)
  {
    FilterIn(db.mailbox, NotNamed(userId, messageId, mailboxId), r);
  }

  // ---------------------------------------------------------------------------
  // Timers
  // ---------------------------------------------------------------------------

  /** MAIN: which timers run after each handler: one for every message it handed over to someone it can reach, none
      for the message that was acknowledged or whose timer fired, none at all after a stop, and the others as
      before. */
  lemma TimersExactly(cfg: Config, s: State, e: Event, now: int, m: string)
    requires cfg.Ok()
    ensures var after := Step(cfg, s, e, now);
      m in after.state.timers <==> match e
        case Send(_, _) => m in s.timers || LiveDispatch(m) in after.outputs
        case Replay(_, _) => m in s.timers || ReplayDispatch(m) in after.outputs
        case Sweep(onlineUsers, reachable) =>
          m in s.timers ||
          exists r :: r in SweepDispatches(cfg, s.db, onlineUsers, now) && r.recipientId in reachable && r.messageId == m
        case AckTimeout(messageId) => m in s.timers && m != messageId
        case Ack(_, messageId, _) => m in s.timers && (m != messageId || m == "")
        case StopSchedulers => false
        case Restart => false
        case _ => m in s.timers
  {
    match e {
      case Replay(userId, lastAcked) =>
        ReplayTimers(cfg, s, userId, lastAcked, now, m);
      case Sweep(onlineUsers, reachable) =>
        var rows := SweepDispatches(cfg, s.db, onlineUsers, now);
        ArmAllEntry(s.timers, Filter(rows, ToUserIn(reachable)), m);
        FilterAllIn(rows, ToUserIn(reachable));
      case _ =>
    }
  }

  /** Stopping the schedulers forgets the timers and nothing else; a restart forgets the cache too. */
  lemma StopAndRestart(cfg: Config, s: State, now: int)
    requires cfg.Ok()
    ensures var stopped, restarted := Step(cfg, s, StopSchedulers, now), Step(cfg, s, Restart, now);
      && stopped.state.db == restarted.state.db == s.db && stopped.outputs == restarted.outputs == []
      && stopped.state.recent == s.recent && restarted.state.recent == []
      && |stopped.state.timers| == |restarted.state.timers| == 0
  {
  }

  lemma ReplayTimers(cfg: Config, s: State, userId: string, lastAcked: string, now: int, m: string)
    requires cfg.Ok()
    ensures var after := ReplayStep(cfg, s, userId, lastAcked, now);
      m in after.state.timers <==> m in s.timers || ReplayDispatch(m) in after.outputs
  {
    var rows, after := Replayed(s.db, userId, lastAcked), ReplayStep(cfg, s, userId, lastAcked, now);
    ArmAllEntry(s.timers, rows, m);
    MapOutputs(rows, ToReplayDispatch(), ReplayDispatch(m));
  }
}
