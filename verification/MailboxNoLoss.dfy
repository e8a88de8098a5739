/** No letter is lost, whatever order the repository's transactions run in and whoever asks for them. */
module MailboxNoLoss {
  import opened Sequences
  import opened MailboxTables

  /** Any transaction of the repository, with any arguments: from any server, for any client. */
  datatype Tx =
    | QueueTx(letter: Letter, now: int)
    | AttemptTx(messageId: string, delay: int, now: int)
    | RetryTx(messageId: string, delay: int, now: int)
    | FailTx(messageId: string)
    | DeliverTx(id: nat, messageId: string)
    | AckTx(userId: string, messageId: string, mailboxId: nat)
    | ReadTx(userId: string, messageId: string)
    | DecryptionTx(userId: string, messageId: string, senderId: string)

  function Apply(db: Db, tx: Tx): Db {
    match tx
    case QueueTx(letter, now) => QueueMessage(db, letter, now)
    case AttemptTx(m, delay, now) => IncrementAttempt(db, m, delay, now)
    case RetryTx(m, delay, now) => ScheduleRetry(db, m, delay, now)
    case FailTx(m) => MarkFailed(db, m)
    case DeliverTx(id, m) => MarkDelivered(db, id, m)
    case AckTx(u, m, id) => Acknowledge(db, u, m, id)
    case ReadTx(u, m) => MarkRead(db, u, m)
    case DecryptionTx(u, m, s) => RecordDecryptionFailure(db, u, m, s)
  }

  function ApplyAll(db: Db, txs: seq<Tx>): Db
    decreases |txs|
  {
    if txs == [] then db else ApplyAll(Apply(db, txs[0]), txs[1..])
  }

  /** The same letter under the same id; only the delivery status may differ. */
  predicate SameLetter(a: MailRow, b: MailRow) {
    a.(status := Queued) == b.(status := Queued)
  }

  predicate Holds(rows: seq<MailRow>, r: MailRow) {
    exists k :: k in rows && SameLetter(k, r)
  }

  /** A successful acknowledgement by the row's own recipient that names its id or its message id. */
  predicate Removes(db: Db, tx: Tx, r: MailRow) {
    && tx.AckTx?
    && NamedByAck(r, tx.userId, tx.messageId, tx.mailboxId)
    && AckSucceeds(db, tx.userId, tx.messageId, tx.mailboxId)
  }

  lemma AppliedConstraints(db: Db, tx: Tx)
    requires TablesOk(db)
    ensures TablesOk(Apply(db, tx)) && db.nextId <= Apply(db, tx).nextId && Apply(db, tx).users == db.users
  {
    hide TablesOk, Filter, SameLetter;
    match tx {
      case QueueTx(letter, now) => QueuedConstraints(db, letter, now);
      case RetryTx(_, _, _) => StatusesConstraints(db, tx);
      case FailTx(_) => StatusesConstraints(db, tx);
      case DeliverTx(_, _) => StatusesConstraints(db, tx);
      case AckTx(u, m, id) => AckedConstraints(db, u, m, id);
      case AttemptTx(_, _, _) => SameMailbox(db, Apply(db, tx));
      case ReadTx(_, _) => SameMailbox(db, Apply(db, tx));
      case DecryptionTx(_, _, _) => SameMailbox(db, Apply(db, tx));
    }
  }

  lemma SameMailbox(db: Db, after: Db)
    requires TablesOk(db) && after.users == db.users && after.nextId == db.nextId && after.mailbox == db.mailbox
    ensures TablesOk(after)
  {
  }

  lemma QueuedConstraints(db: Db, letter: Letter, now: int)
    requires TablesOk(db)
    ensures var after := QueueMessage(db, letter, now);
      TablesOk(after) && db.nextId <= after.nextId && after.users == db.users
  {
    if QueueOutcomeOf(db, letter).Inserted? {
      forall r | r in db.mailbox ensures r.id < db.nextId && r.messageId != letter.messageId {
      }
    }
  }

  lemma AckedConstraints(db: Db, u: string, m: string, id: nat)
    requires TablesOk(db)
    ensures var after := Acknowledge(db, u, m, id);
      TablesOk(after) && db.nextId == after.nextId && after.users == db.users
  {
    QueryRows(db, NotNamed(u, m, id), |db.mailbox|);
  }

  lemma StatusesConstraints(db: Db, tx: Tx)
    requires TablesOk(db) && (tx.RetryTx? || tx.FailTx? || tx.DeliverTx?)
    ensures TablesOk(Apply(db, tx)) && db.nextId == Apply(db, tx).nextId && Apply(db, tx).users == db.users
  {
    hide TablesOk;
    KeptConstraints(db, Apply(db, tx));
  }

  /** Changing statuses alone keeps every constraint. */
  lemma KeptConstraints(before: Db, after: Db)
    requires TablesOk(before)
    requires after.users == before.users && after.nextId == before.nextId
    requires |after.mailbox| == |before.mailbox|
    requires forall i :: 0 <= i < |before.mailbox| ==> SameLetter(before.mailbox[i], after.mailbox[i])
    ensures TablesOk(after)
    ensures forall i :: 0 <= i < |before.mailbox| ==>
      after.mailbox[i].id == before.mailbox[i].id && after.mailbox[i].messageId == before.mailbox[i].messageId
  {
    forall i | 0 <= i < |before.mailbox|
      ensures after.mailbox[i].id == before.mailbox[i].id
      ensures after.mailbox[i].messageId == before.mailbox[i].messageId
      ensures after.mailbox[i].senderId == before.mailbox[i].senderId
      ensures after.mailbox[i].recipientId == before.mailbox[i].recipientId
    {
      assert SameLetter(before.mailbox[i], after.mailbox[i]);
    }
    forall r | r in after.mailbox
      ensures 1 <= r.id < after.nextId && r.senderId in after.users && r.recipientId in after.users
    {
      var i :| 0 <= i < |after.mailbox| && after.mailbox[i] == r;
      assert before.mailbox[i] in before.mailbox;
    }
  }

  /** A row outlives a transaction exactly when the transaction is not its own recipient's
      acknowledgement of it. */
  lemma SurvivesIffNotAcknowledged(db: Db, tx: Tx, r: MailRow)
    requires TablesOk(db) && r in db.mailbox
    ensures Holds(Apply(db, tx).mailbox, r) <==> !Removes(db, tx, r)
  {
    var i :| 0 <= i < |db.mailbox| && db.mailbox[i] == r;
    var after := Apply(db, tx);
    if tx.AckTx? && AckSucceeds(db, tx.userId, tx.messageId, tx.mailboxId) {
      var keep := NotNamed(tx.userId, tx.messageId, tx.mailboxId);
      FilterAllIn(db.mailbox, keep);
      if Holds(after.mailbox, r) {
        var k :| k in after.mailbox && SameLetter(k, r);
        assert k.id == r.id;
        RowsUnique(db, k, r);
      }
      if !Removes(db, tx, r) {
        assert r in after.mailbox && SameLetter(r, r);
      }
    } else {
      assert after.mailbox[i] in after.mailbox && SameLetter(after.mailbox[i], r);
    }
  }

  /** An id that has been handed out never comes back with another letter. */
  lemma NeverRecreated(db: Db, tx: Tx, k: MailRow)
    requires TablesOk(db) && k in Apply(db, tx).mailbox && k.id < db.nextId
    ensures Holds(db.mailbox, k)
  {
    var after := Apply(db, tx);
    if tx.AckTx? && AckSucceeds(db, tx.userId, tx.messageId, tx.mailboxId) {
      FilterAllIn(db.mailbox, NotNamed(tx.userId, tx.messageId, tx.mailboxId));
      assert k in db.mailbox && SameLetter(k, k);
    } else {
      var i :| 0 <= i < |after.mailbox| && after.mailbox[i] == k;
      assert i < |db.mailbox|;
      assert db.mailbox[i] in db.mailbox && SameLetter(db.mailbox[i], k);
    }
  }

  /** Some transaction of the run removes the row: an acknowledgement by its recipient that names it. */
  ghost predicate EverRemoved(db: Db, txs: seq<Tx>, r: MailRow)
    decreases |txs|
  {
    txs != [] && (Removes(db, txs[0], r) || EverRemoved(Apply(db, txs[0]), txs[1..], r))
  }

  lemma {:induction false} GoneForGood(db: Db, txs: seq<Tx>, r: MailRow)
    requires TablesOk(db) && r.id < db.nextId && !HasId(db.mailbox, r.id)
    ensures !HasId(ApplyAll(db, txs).mailbox, r.id)
    decreases |txs|
  {
    if txs != [] {
      var next := Apply(db, txs[0]);
      AppliedConstraints(db, txs[0]);
      if HasId(next.mailbox, r.id) {
        var k :| k in next.mailbox && k.id == r.id;
        NeverRecreated(db, txs[0], k);
      }
      GoneForGood(next, txs[1..], r);
    }
  }

  lemma RemovesOnlyDependsOnLetter(db: Db, tx: Tx, a: MailRow, b: MailRow)
    requires SameLetter(a, b)
    ensures Removes(db, tx, a) == Removes(db, tx, b)
  {
    assert a.id == b.id && a.messageId == b.messageId && a.recipientId == b.recipientId;
  }

  lemma {:induction false} EverRemovedOnlyDependsOnLetter(db: Db, txs: seq<Tx>, a: MailRow, b: MailRow)
    requires SameLetter(a, b)
    ensures EverRemoved(db, txs, a) == EverRemoved(db, txs, b)
    decreases |txs|
  {
    if txs != [] {
      RemovesOnlyDependsOnLetter(db, txs[0], a, b);
      EverRemovedOnlyDependsOnLetter(Apply(db, txs[0]), txs[1..], a, b);
    }
  }

  lemma SurvivesByLetter(db: Db, tx: Tx, k: MailRow, r: MailRow)
    requires TablesOk(db) && k in db.mailbox && SameLetter(k, r)
    ensures Holds(Apply(db, tx).mailbox, r) <==> !Removes(db, tx, r)
  {
    SurvivesIffNotAcknowledged(db, tx, k);
    RemovesOnlyDependsOnLetter(db, tx, k, r);
    assert forall x :: SameLetter(x, k) == SameLetter(x, r);
  }

  /** The row under a given id is removed when no row holds its letter any more. */
  lemma IdGone(before: Db, tx: Tx, r: MailRow)
    requires TablesOk(before) && Holds(before.mailbox, r)
    requires !Holds(Apply(before, tx).mailbox, r)
    ensures !HasId(Apply(before, tx).mailbox, r.id)
  {
    var after := Apply(before, tx);
    var own :| own in before.mailbox && SameLetter(own, r);
    if HasId(after.mailbox, r.id) {
      var k :| k in after.mailbox && k.id == r.id;
      assert own.id == r.id;
      NeverRecreated(before, tx, k);
      var j :| j in before.mailbox && SameLetter(j, k);
      RowsUnique(before, j, own);
    }
  }

  /** Over any interleaving of transactions a queued letter is still in the mailbox, unchanged but for
      its status, exactly when its recipient has not acknowledged it; and once it has been removed,
      no row ever takes its id again. */
  lemma {:induction false} NoLetterLost(db: Db, txs: seq<Tx>, r: MailRow)
    requires TablesOk(db) && Holds(db.mailbox, r)
    ensures Holds(ApplyAll(db, txs).mailbox, r) <==> !EverRemoved(db, txs, r)
    ensures HasId(ApplyAll(db, txs).mailbox, r.id) <==> !EverRemoved(db, txs, r)
    decreases |txs|
  {
    var k :| k in db.mailbox && SameLetter(k, r);
    assert k.id == r.id;
    if txs != [] {
      var tx, next := txs[0], Apply(db, txs[0]);
      AppliedConstraints(db, tx);
      SurvivesByLetter(db, tx, k, r);
      if Removes(db, tx, r) {
        IdGone(db, tx, r);
        assert r.id < next.nextId;
        GoneForGood(next, txs[1..], r);
        HoldsHasId(ApplyAll(db, txs).mailbox, r);
      } else {
        NoLetterLost(next, txs[1..], r);
      }
    }
  }

  lemma HoldsHasId(rows: seq<MailRow>, r: MailRow)
    ensures Holds(rows, r) ==> HasId(rows, r.id)
  {
    if Holds(rows, r) {
      var k :| k in rows && SameLetter(k, r);
      assert k.id == r.id;
    }
  }

  lemma {:induction false} ApplyAllConcat(db: Db, a: seq<Tx>, b: seq<Tx>)
    ensures ApplyAll(db, a + b) == ApplyAll(ApplyAll(db, a), b)
    decreases |a|
  {
    if a == [] {
      assert a + b == b;
    } else {
      assert (a + b)[1..] == a[1..] + b;
      ApplyAllConcat(Apply(db, a[0]), a[1..], b);
    }
  }
}
