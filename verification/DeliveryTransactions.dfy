/** Every handler is a sequence of repository transactions; a loop over messages amounts to one bulk update. */
module DeliveryTransactions {
  import opened Sequences
  import opened MailboxTables
  import opened MailboxNoLoss
  import opened DeliveryProtocol
  import opened DeliveryInvariant

  ghost predicate DistinctRows(rows: seq<MailRow>) {
    forall i, j :: 0 <= i < j < |rows| ==> rows[i].messageId != rows[j].messageId
  }

  /** The table holds the row, whatever its status is by now. */
  predicate Present(db: Db, r: MailRow) {
    exists k :: k in db.mailbox && k.id == r.id && k.messageId == r.messageId
  }

  /** Counting an attempt and marking the row delivered is handing over one message. */
  lemma DispatchOne(db: Db, r: MailRow, delay: nat -> int, now: int)
    requires TablesOk(db) && Present(db, r) && r.messageId in db.deliveries
    ensures MarkDelivered(IncrementAttempt(db, r.messageId, delay(db.deliveries[r.messageId].attemptCount), now),
                          r.id, r.messageId)
         == DispatchAll(db, {r.messageId}, delay, now)
  {
    var k :| k in db.mailbox && k.id == r.id && k.messageId == r.messageId;
    var wait := delay(db.deliveries[r.messageId].attemptCount);
    var one := MarkDelivered(IncrementAttempt(db, r.messageId, wait, now), r.id, r.messageId);
    var all := DispatchAll(db, {r.messageId}, delay, now);
    forall i | 0 <= i < |db.mailbox| ensures one.mailbox[i] == all.mailbox[i] {
      if db.mailbox[i].id == r.id || db.mailbox[i].messageId == r.messageId {
        RowsUnique(db, db.mailbox[i], k);
      }
    }
    assert one.mailbox == all.mailbox;
    assert one.deliveries == all.deliveries;
  }

  lemma DispatchMore(db: Db, a: set<string>, m: string, delay: nat -> int, now: int)
    requires m !in a
    ensures DispatchAll(DispatchAll(db, a, delay, now), {m}, delay, now) == DispatchAll(db, a + {m}, delay, now)
  {
    var twice, once := DispatchAll(DispatchAll(db, a, delay, now), {m}, delay, now), DispatchAll(db, a + {m}, delay, now);
    assert twice.mailbox == once.mailbox;
    assert twice.deliveries == once.deliveries;
  }

  lemma FailMore(db: Db, a: set<string>, m: string)
    ensures FailAll(FailAll(db, a), {m}) == FailAll(db, a + {m})
  {
    var twice, once := FailAll(FailAll(db, a), {m}), FailAll(db, a + {m});
    assert twice.mailbox == once.mailbox;
    assert twice.deliveries == once.deliveries;
  }

  lemma DispatchNone(db: Db, delay: nat -> int, now: int)
    ensures DispatchAll(db, {}, delay, now) == db && FailAll(db, {}) == db
  {
    assert DispatchAll(db, {}, delay, now).mailbox == db.mailbox;
    assert DispatchAll(db, {}, delay, now).deliveries == db.deliveries;
    assert FailAll(db, {}).mailbox == db.mailbox;
    assert FailAll(db, {}).deliveries == db.deliveries;
  }

  lemma BulkKeepsPresent(db: Db, after: Db, r: MailRow)
    requires TablesOk(db) && Present(db, r) && SameRows(db.mailbox, after.mailbox)
    requires after.users == db.users && after.nextId == db.nextId
    ensures TablesOk(after) && Present(after, r)
  {
    SameRowsConstraints(db, after);
    var k :| k in db.mailbox && k.id == r.id && k.messageId == r.messageId;
    var i :| 0 <= i < |db.mailbox| && db.mailbox[i] == k;
    assert after.mailbox[i] in after.mailbox;
  }

  /** One more row handed over after a prefix of the rows. */
  lemma DispatchStep(db: Db, rows: seq<MailRow>, i: nat, delay: nat -> int, now: int)
    requires TablesOk(db) && DistinctRows(rows) && i < |rows|
    requires Present(db, rows[i]) && rows[i].messageId in db.deliveries
    ensures var before := DispatchAll(db, MessageIds(rows[..i]), delay, now); var r := rows[i];
      && r.messageId in before.deliveries
      && before.deliveries[r.messageId].attemptCount == db.deliveries[r.messageId].attemptCount
      && MarkDelivered(IncrementAttempt(before, r.messageId, delay(db.deliveries[r.messageId].attemptCount), now),
                       r.id, r.messageId)
         == DispatchAll(db, MessageIds(rows[..i + 1]), delay, now)
  {
    var before, r := DispatchAll(db, MessageIds(rows[..i]), delay, now), rows[i];
    MessageIdsSnoc(rows, i);
    BulkKeepsPresent(db, before, r);
    DispatchOne(before, r, delay, now);
    DispatchMore(db, MessageIds(rows[..i]), r.messageId, delay, now);
  }

  lemma MessageIdsSnoc(rows: seq<MailRow>, i: nat)
    requires i < |rows|
    ensures MessageIds(rows[..i + 1]) == MessageIds(rows[..i]) + {rows[i].messageId}
    ensures DistinctRows(rows) ==> rows[i].messageId !in MessageIds(rows[..i])
  {
    assert rows[..i + 1] == rows[..i] + [rows[i]];
    assert forall r :: r in rows[..i + 1] <==> r in rows[..i] || r == rows[i];
    if DistinctRows(rows) {
      forall r | r in rows[..i] ensures r.messageId != rows[i].messageId {
        var j :| 0 <= j < i && rows[..i][j] == r;
      }
    }
  }

  /** One more message dead-lettered after a prefix of them. */
  lemma FailStep(db: Db, rows: seq<MailRow>, i: nat)
    requires i < |rows| && rows[i].messageId in db.deliveries
    ensures MarkFailed(FailAll(db, MessageIds(rows[..i])), rows[i].messageId)
         == FailAll(db, MessageIds(rows[..i + 1]))
    ensures rows[i].messageId in FailAll(db, MessageIds(rows[..i])).deliveries
  {
    MessageIdsSnoc(rows, i);
    FailOne(FailAll(db, MessageIds(rows[..i])), rows[i].messageId);
    FailMore(db, MessageIds(rows[..i]), rows[i].messageId);
  }

  // ---------------------------------------------------------------------------
  // Handlers as transactions
  // ---------------------------------------------------------------------------

  function DispatchTxs(db: Db, rows: seq<MailRow>, delay: nat -> int, now: int): seq<Tx> {
    if rows == [] then []
    else
      var n := |rows| - 1;
      var attempts := if rows[n].messageId in db.deliveries then db.deliveries[rows[n].messageId].attemptCount else 0;
      DispatchTxs(db, rows[..n], delay, now)
      + [AttemptTx(rows[n].messageId, delay(attempts), now), DeliverTx(rows[n].id, rows[n].messageId)]
  }

  function FailTxs(rows: seq<MailRow>): seq<Tx> {
    if rows == [] then []
    else FailTxs(rows[..|rows| - 1]) + [FailTx(rows[|rows| - 1].messageId)]
  }

  lemma ApplyJust(db: Db, a: Tx)
    ensures ApplyAll(db, [a]) == Apply(db, a)
  {
    hide Apply;
    assert [a][1..] == [] && ApplyAll(Apply(db, a), []) == Apply(db, a);
  }

  lemma ApplyTwo(db: Db, a: Tx, b: Tx)
    ensures ApplyAll(db, [a, b]) == Apply(Apply(db, a), b) && ApplyAll(db, [a]) == Apply(db, a)
  {
    hide Apply;
    ApplyJust(db, a);
    ApplyJust(Apply(db, a), b);
    assert [a, b][1..] == [b];
  }

  /** The two transactions that hand over the last of some rows. */
  lemma LastDispatchTxs(db: Db, rows: seq<MailRow>, delay: nat -> int, now: int)
    requires TablesOk(db) && DistinctRows(rows) && rows != []
    requires Present(db, rows[|rows| - 1]) && rows[|rows| - 1].messageId in db.deliveries
    ensures var n := |rows| - 1; var r := rows[n];
      var a, b := AttemptTx(r.messageId, delay(db.deliveries[r.messageId].attemptCount), now), DeliverTx(r.id, r.messageId);
      && DispatchTxs(db, rows, delay, now) == DispatchTxs(db, rows[..n], delay, now) + [a, b]
      && Apply(Apply(DispatchAll(db, MessageIds(rows[..n]), delay, now), a), b)
         == DispatchAll(db, MessageIds(rows), delay, now)
  {
    assert rows[..|rows|] == rows;
    DispatchStep(db, rows, |rows| - 1, delay, now);
  }

  lemma {:induction false} DispatchTxsBulk(db: Db, rows: seq<MailRow>, delay: nat -> int, now: int)
    requires TablesOk(db) && DistinctRows(rows)
    requires forall r :: r in rows ==> Present(db, r) && r.messageId in db.deliveries
    ensures ApplyAll(db, DispatchTxs(db, rows, delay, now)) == DispatchAll(db, MessageIds(rows), delay, now)
    decreases |rows|
  {
    if rows == [] {
      DispatchNone(db, delay, now);
    } else {
      hide Apply, DispatchAll, TablesOk, Present, MessageIds;
      var n := |rows| - 1;
      var r, init := rows[n], rows[..n];
      assert r in rows;
      DispatchTxsBulk(db, init, delay, now);
      LastDispatchTxs(db, rows, delay, now);
      var a, b := AttemptTx(r.messageId, delay(db.deliveries[r.messageId].attemptCount), now), DeliverTx(r.id, r.messageId);
      ApplyAllConcat(db, DispatchTxs(db, init, delay, now), [a, b]);
      ApplyTwo(DispatchAll(db, MessageIds(init), delay, now), a, b);
    }
  }

  lemma {:induction false} FailTxsBulk(db: Db, rows: seq<MailRow>)
    requires forall r :: r in rows ==> r.messageId in db.deliveries
    ensures ApplyAll(db, FailTxs(rows)) == FailAll(db, MessageIds(rows))
    decreases |rows|
  {
    if rows == [] {
      DispatchNone(db, (attempts: nat) => 0, 0);
    } else {
      var n := |rows| - 1;
      assert rows[..n + 1] == rows && rows[n] in rows;
      FailTxsBulk(db, rows[..n]);
      FailStep(db, rows, n);
      ApplyAllConcat(db, FailTxs(rows[..n]), [FailTx(rows[n].messageId)]);
      ApplyJust(FailAll(db, MessageIds(rows[..n])), FailTx(rows[n].messageId));
    }
  }

  /** Rows of the table that both tables know about. */
  ghost predicate Recorded(db: Db) {
    forall r :: r in db.mailbox ==> r.messageId in db.deliveries
  }

  /** No transaction of the sequence is an acknowledgement. */
  predicate NoAck(txs: seq<Tx>) {
    forall tx :: tx in txs ==> !tx.AckTx?
  }

  lemma {:induction false} TxsAreNoAcks(db: Db, rows: seq<MailRow>, delay: nat -> int, now: int)
    ensures NoAck(DispatchTxs(db, rows, delay, now)) && NoAck(FailTxs(rows))
    decreases |rows|
  {
    if rows != [] {
      TxsAreNoAcks(db, rows[..|rows| - 1], delay, now);
    }
  }

  /** Queueing a letter and handing it over at once. */
  lemma LiveTransactions(cfg: Config, db: Db, letter: Letter, now: int) returns (txs: seq<Tx>)
    requires cfg.Ok() && TablesOk(db) && QueueOutcomeOf(db, letter).Inserted?
    ensures ApplyAll(db, txs) == DispatchAll(QueueMessage(db, letter, now), {letter.messageId}, FirstDelay(cfg), now)
    ensures NoAck(txs)
  {
    var queued, row := QueueMessage(db, letter, now), NewRow(db.nextId, letter);
    AppliedConstraints(db, QueueTx(letter, now));
    assert row in queued.mailbox && Present(queued, row) && row.messageId in queued.deliveries;
    assert MessageIds([row]) == {letter.messageId};
    var rest := DispatchTxs(queued, [row], FirstDelay(cfg), now);
    txs := [QueueTx(letter, now)] + rest;
    assert Apply(db, QueueTx(letter, now)) == queued;
    hide QueueMessage, DispatchAll, TablesOk, Apply, DispatchTxs;
    DispatchTxsBulk(queued, [row], FirstDelay(cfg), now);
    TxsAreNoAcks(queued, [row], FirstDelay(cfg), now);
    ApplyAllConcat(db, [QueueTx(letter, now)], rest);
    ApplyJust(db, QueueTx(letter, now));
  }

  lemma SendTransactions(cfg: Config, s: State, letter: Letter, online: bool, now: int) returns (txs: seq<Tx>)
    requires cfg.Ok() && TablesOk(s.db)
    ensures ApplyAll(s.db, txs) == SendStep(cfg, s, letter, online, now).state.db && NoAck(txs)
  {
    hide QueueMessage, DispatchAll, TablesOk;
    if letter.messageId == "" || letter.messageId in s.recent || AlreadyDelivered(s.db, letter.messageId) {
      txs := [];
    } else if !QueueOutcomeOf(s.db, letter).Inserted? || !online {
      txs := [QueueTx(letter, now)];
      ApplyJust(s.db, QueueTx(letter, now));
    } else {
      txs := LiveTransactions(cfg, s.db, letter, now);
    }
  }

  lemma SweepTransactions(cfg: Config, s: State, onlineUsers: set<string>, reachable: set<string>, now: int)
    returns (txs: seq<Tx>)
    requires cfg.Ok() && TablesOk(s.db)
    ensures ApplyAll(s.db, txs) == SweepStep(cfg, s, onlineUsers, reachable, now).state.db && NoAck(txs)
  {
    var failures, rows := SweepFailures(cfg, s.db), SweepDispatches(cfg, s.db, onlineUsers, now);
    var failed := FailAll(s.db, MessageIds(failures));
    FailureRows(cfg, s.db);
    FailTxsBulk(s.db, failures);
    DispatchRows(cfg, s.db, onlineUsers, now);
    DispatchesOutliveFailures(cfg, s.db, onlineUsers, now);
    SameRowsConstraints(s.db, failed);
    DispatchTxsBulk(failed, rows, SweepDelay(cfg), now);
    txs := FailTxs(failures) + DispatchTxs(failed, rows, SweepDelay(cfg), now);
    ApplyAllConcat(s.db, FailTxs(failures), DispatchTxs(failed, rows, SweepDelay(cfg), now));
    TxsAreNoAcks(failed, failures, SweepDelay(cfg), now);
    TxsAreNoAcks(failed, rows, SweepDelay(cfg), now);
  }

  lemma ReplayTransactions(cfg: Config, s: State, userId: string, lastAcked: string, now: int) returns (txs: seq<Tx>)
    requires cfg.Ok() && TablesOk(s.db) && Recorded(s.db)
    ensures ApplyAll(s.db, txs) == ReplayStep(cfg, s, userId, lastAcked, now).state.db && NoAck(txs)
  {
    var rows := Replayed(s.db, userId, lastAcked);
    ReplayedRows(s.db, userId, lastAcked);
    txs := DispatchTxs(s.db, rows, FirstDelay(cfg), now);
    DispatchTxsBulk(s.db, rows, FirstDelay(cfg), now);
    TxsAreNoAcks(s.db, rows, FirstDelay(cfg), now);
  }

  /** Whatever the event, a handler changes the tables only by repository transactions; and only the
      acknowledgement handler acknowledges. */
  lemma StepTransactions(cfg: Config, s: State, e: Event, now: int) returns (txs: seq<Tx>)
    requires cfg.Ok() && TablesOk(s.db) && Recorded(s.db)
    ensures ApplyAll(s.db, txs) == Step(cfg, s, e, now).state.db
    ensures NoAck(txs) || (e.Ack? && e.messageId != "" && txs == [AckTx(e.userId, e.messageId, e.mailboxId)])
  {
    txs := [];
    match e {
      case Send(letter, online) => txs := SendTransactions(cfg, s, letter, online, now);
      case Replay(userId, lastAcked) => txs := ReplayTransactions(cfg, s, userId, lastAcked, now);
      case Sweep(onlineUsers, reachable) => txs := SweepTransactions(cfg, s, onlineUsers, reachable, now);
      case AckTimeout(m) =>
        if m in s.timers {
          var attempts := TimeoutAttempts(s.db, m);
          var tx := if attempts >= cfg.maxRetries then FailTx(m)
                    else RetryTx(m, RetryDelay(attempts + 1, cfg.retryDelays), now);
          txs := [tx];
          ApplyJust(s.db, tx);
        }
      case Ack(userId, m, id) =>
        if m != "" {
          txs := [AckTx(userId, m, id)];
          ApplyJust(s.db, txs[0]);
        }
      case ReadReceipt(userId, m) =>
        if m != "" {
          txs := [ReadTx(userId, m)];
          ApplyJust(s.db, txs[0]);
        }
      case DecryptionError(userId, m, senderId) =>
        if m != "" {
          txs := [DecryptionTx(userId, m, senderId)];
          ApplyJust(s.db, txs[0]);
        }
      case StopSchedulers =>
      case Restart =>
    }
  }

  lemma AppliedRecorded(db: Db, tx: Tx)
    requires TablesOk(db) && Recorded(db)
    ensures Recorded(Apply(db, tx))
  {
    var after := Apply(db, tx);
    if tx.AckTx? && AckSucceeds(db, tx.userId, tx.messageId, tx.mailboxId) {
      FilterAllIn(db.mailbox, NotNamed(tx.userId, tx.messageId, tx.mailboxId));
    } else {
      forall r | r in after.mailbox ensures r.messageId in after.deliveries {
        var i :| 0 <= i < |after.mailbox| && after.mailbox[i] == r;
        if i < |db.mailbox| {
          assert db.mailbox[i] in db.mailbox;
        }
      }
    }
  }

  lemma {:induction false} AppliedAllConstraints(db: Db, txs: seq<Tx>)
    requires TablesOk(db) && Recorded(db)
    ensures TablesOk(ApplyAll(db, txs)) && Recorded(ApplyAll(db, txs))
    decreases |txs|
  {
    if txs != [] {
      hide TablesOk, Recorded, Apply;
      AppliedConstraints(db, txs[0]);
      AppliedRecorded(db, txs[0]);
      AppliedAllConstraints(Apply(db, txs[0]), txs[1..]);
    }
  }

  /** No event, conforming or not, breaks a table constraint or leaves a row without a record. */
  lemma StepKeepsConstraints(cfg: Config, s: State, e: Event, now: int)
    requires cfg.Ok() && TablesOk(s.db) && Recorded(s.db)
    ensures TablesOk(Step(cfg, s, e, now).state.db) && Recorded(Step(cfg, s, e, now).state.db)
  {
    var txs := StepTransactions(cfg, s, e, now);
    hide Step, TablesOk, Recorded;
    AppliedAllConstraints(s.db, txs);
  }

  /** So every run, whatever clients do, keeps the tables' constraints. */
  lemma {:induction false} RunKeepsConstraints(cfg: Config, s: State, events: seq<Timed>)
    requires cfg.Ok() && TablesOk(s.db) && Recorded(s.db)
    ensures TablesOk(Run(cfg, s, events).state.db) && Recorded(Run(cfg, s, events).state.db)
    decreases |events|
  {
    hide TablesOk, Recorded, Step;
    if events != [] {
      var n := |events| - 1;
      RunKeepsConstraints(cfg, s, events[..n]);
      StepKeepsConstraints(cfg, Run(cfg, s, events[..n]).state, events[n].event, events[n].now);
    }
  }

  lemma {:induction false} NoAckRemovesNothing(db: Db, txs: seq<Tx>, r: MailRow)
    requires NoAck(txs)
    ensures !EverRemoved(db, txs, r)
    decreases |txs|
  {
    if txs != [] {
      NoAckRemovesNothing(Apply(db, txs[0]), txs[1..], r);
    }
  }

  /** MAIN: whatever a handler is asked, a letter in the mailbox outlives it exactly when the event is not a
      successful acknowledgement by the letter's own recipient that names it. */
  lemma StepLosesNothing(cfg: Config, s: State, e: Event, now: int, r: MailRow)
    requires cfg.Ok() && TablesOk(s.db) && Recorded(s.db) && Holds(s.db.mailbox, r)
    ensures Holds(Step(cfg, s, e, now).state.db.mailbox, r)
      <==> !(e.Ack? && e.messageId != "" && Removes(s.db, AckTx(e.userId, e.messageId, e.mailboxId), r))
  {
    var txs := StepTransactions(cfg, s, e, now);
    hide Step;
    NoLetterLost(s.db, txs, r);
    if NoAck(txs) {
      NoAckRemovesNothing(s.db, txs, r);
      if e.Ack? && e.messageId != "" {
        var k :| k in s.db.mailbox && SameLetter(k, r);
        AckIsAck(cfg, s, e, now, txs, r);
      }
    } else {
      assert EverRemoved(s.db, txs, r) == Removes(s.db, txs[0], r);
    }
  }

  lemma AckIsAck(cfg: Config, s: State, e: Event, now: int, txs: seq<Tx>, r: MailRow)
    requires cfg.Ok() && TablesOk(s.db) && Holds(s.db.mailbox, r) && e.Ack? && e.messageId != ""
    requires Holds(Step(cfg, s, e, now).state.db.mailbox, r)
    ensures !Removes(s.db, AckTx(e.userId, e.messageId, e.mailboxId), r)
  {
    var k :| k in s.db.mailbox && SameLetter(k, r);
    SurvivesByLetter(s.db, AckTx(e.userId, e.messageId, e.mailboxId), k, r);
  }
}
