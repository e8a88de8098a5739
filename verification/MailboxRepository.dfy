/** The repository over the two mailbox tables: each method is one database transaction. */
module MailboxRepo {
  import opened Sequences
  import opened MailboxTables

  class MailboxRepository {
    var users: set<string>
    var nextId: nat
    var mailbox: seq<MailRow>
    var deliveries: map<string, Delivery>

    function Tables(): Db
      reads this
    {
      Db(users, nextId, mailbox, deliveries)
    }

    constructor (users: set<string>)
      ensures Tables() == Db(users, 1, [], map[])
    {
      this.users := users;
      nextId := 1;
      mailbox := [];
      deliveries := map[];
    }

    method QueueLetter(letter: Letter, now: int) returns (outcome: QueueOutcome)
      modifies this
      ensures Tables() == QueueMessage(old(Tables()), letter, now)
      ensures outcome == QueueOutcomeOf(old(Tables()), letter)
    {
      var id := nextId;
      nextId := nextId + 1;
      if HasMessage(mailbox, letter.messageId) {
        return Duplicate;
      }
      if letter.senderId !in users || letter.recipientId !in users {
        return UnknownUser;
      }
      mailbox := mailbox + [MailRow(id, letter.messageId, letter.recipientId, letter.senderId,
                                    letter.senderUsername, letter.ciphertext, Queued)];
      if letter.messageId in deliveries {
        var d := deliveries[letter.messageId];
        deliveries := deliveries[letter.messageId :=
          d.(status := Queued, attemptCount := 0, nextRetryAt := Some(now))];
      } else {
        deliveries := deliveries[letter.messageId :=
          Delivery(letter.senderId, letter.recipientId, Queued, 0, Some(now))];
      }
      return Inserted(id);
    }

    method Increment(messageId: string, delay: int, now: int) returns (info: AttemptInfo)
      modifies this`deliveries
      ensures Tables() == IncrementAttempt(old(Tables()), messageId, delay, now)
      ensures info == AttemptInfoOf(Tables(), messageId)
    {
      info := AttemptInfo(1, None);
      if messageId in deliveries {
        var d := deliveries[messageId];
        var next := if delay > 0 then Some(now + delay) else if delay == 0 then Some(now) else None;
        deliveries := deliveries[messageId := d.(
          attemptCount := d.attemptCount + 1,
          nextRetryAt := if next.None? then d.nextRetryAt else next)];
        info := AttemptInfo(deliveries[messageId].attemptCount, deliveries[messageId].nextRetryAt);
      }
    }

    /** Reports the record's next retry, or the time asked for when it has none, and its attempts. */
    method Reschedule(messageId: string, delay: int, now: int) returns (nextRetryAt: int, attemptCount: nat)
      modifies this`mailbox, this`deliveries
      ensures Tables() == ScheduleRetry(old(Tables()), messageId, delay, now)
      ensures attemptCount == if messageId in deliveries then deliveries[messageId].attemptCount else 0
      ensures nextRetryAt == DueAt(Tables(), messageId, delay, now)
      ensures Unsettled(old(Tables()), messageId) ==>
        messageId in deliveries && deliveries[messageId].nextRetryAt == Some(nextRetryAt)
        && nextRetryAt == now + if delay > 0 then delay else 0
    {
      var due := now + if delay > 0 then delay else 0;
      if messageId in deliveries && deliveries[messageId].status !in {Acknowledged, Read, Failed} {
        deliveries := deliveries[messageId := deliveries[messageId].(status := Queued, nextRetryAt := Some(due))];
      }
      mailbox := Map(mailbox, (r: MailRow) =>
        if r.messageId == messageId && r.status !in {Acknowledged, Failed} then r.(status := Queued) else r);
      nextRetryAt, attemptCount := due, 0;
      if messageId in deliveries {
        attemptCount := deliveries[messageId].attemptCount;
        if deliveries[messageId].nextRetryAt.Some? {
          nextRetryAt := deliveries[messageId].nextRetryAt.value;
        }
      }
    }

    /** Reports who is concerned, from the record or else from the mailbox; nothing when neither has the message. */
    method Fail(messageId: string) returns (info: Option<FailInfo>)
      modifies this`mailbox, this`deliveries
      ensures info == FailInfoOf(old(Tables()), messageId)
      ensures Tables() == MarkFailed(old(Tables()), messageId)
    {
      if messageId in deliveries {
        var d := deliveries[messageId];
        info := Some(FailInfo(d.senderId, d.recipientId, d.attemptCount));
        deliveries := deliveries[messageId := d.(status := Failed, nextRetryAt := None)];
      } else {
        RowOfFound(mailbox, messageId);
        var row := RowOf(mailbox, messageId);
        if row.None? {
          assert mailbox == SetStatus(mailbox, {messageId}, Failed);
          return None;
        }
        info := Some(FailInfo(row.value.senderId, row.value.recipientId, 0));
      }
      mailbox := SetStatus(mailbox, {messageId}, Failed);
    }

    method Deliver(id: nat, messageId: string)
      modifies this`mailbox, this`deliveries
      ensures Tables() == MarkDelivered(old(Tables()), id, messageId)
    {
      mailbox := Map(mailbox, (r: MailRow) => if r.id == id then r.(status := Delivered) else r);
      if messageId in deliveries {
        deliveries := deliveries[messageId := deliveries[messageId].(status := Delivered)];
      }
    }

    /** The delete is rolled back when the acknowledgement cannot be recorded. */
    method AcknowledgeMessage(userId: string, messageId: string, mailboxId: nat)
      returns (ok: bool, senderId: string)
      modifies this`mailbox, this`deliveries
      ensures ok == AckSucceeds(old(Tables()), userId, messageId, mailboxId)
      ensures senderId == AckSender(old(Tables()), messageId, mailboxId)
      ensures mailboxId == 0 && messageId in old(deliveries) ==> senderId == old(deliveries)[messageId].senderId
      ensures Tables() == Acknowledge(old(Tables()), userId, messageId, mailboxId)
    {
      var begun := mailbox;
      senderId := "";
      if mailboxId != 0 {
        senderId := SenderOfId(mailbox, mailboxId);
      }
      if senderId == "" && messageId in deliveries {
        senderId := deliveries[messageId].senderId;
      }
      mailbox := Filter(mailbox, NotNamed(userId, messageId, mailboxId));
      if messageId in deliveries {
        deliveries := deliveries[messageId :=
          deliveries[messageId].(status := Acknowledged, nextRetryAt := None)];
        ok := true;
      } else if senderId in users && userId in users {
        deliveries := deliveries[messageId := Delivery(senderId, userId, Acknowledged, 0, None)];
        ok := true;
      } else {
        mailbox := begun;
        ok := false;
      }
    }

    method ReadMessage(userId: string, messageId: string, senderId: string) returns (sender: Option<string>)
      modifies this`deliveries
      ensures Tables() == MarkRead(old(Tables()), userId, messageId)
      ensures sender == ReadSender(old(Tables()), messageId, senderId)
    {
      var resolved := senderId;
      if resolved == "" && messageId in deliveries {
        resolved := deliveries[messageId].senderId;
      }
      sender := if resolved != "" then Some(resolved) else None;
      if messageId in deliveries && deliveries[messageId].recipientId == userId {
        deliveries := deliveries[messageId := deliveries[messageId].(status := Read)];
      }
    }

    method RecordFailure(userId: string, messageId: string, senderId: string) returns (ok: bool)
      modifies this`deliveries
      ensures ok == CanRecord(old(Tables()), messageId, senderId, userId)
      ensures Tables() == RecordDecryptionFailure(old(Tables()), userId, messageId, senderId)
    {
      if messageId in deliveries {
        deliveries := deliveries[messageId := deliveries[messageId].(status := DecryptionFailed)];
        return true;
      }
      if senderId !in users || userId !in users {
        return false;
      }
      deliveries := deliveries[messageId := Delivery(senderId, userId, DecryptionFailed, 0, None)];
      return true;
    }
  }
}
