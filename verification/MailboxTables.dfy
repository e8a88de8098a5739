/** The two mailbox tables as a value, and every repository transaction as a function on that value. */
module MailboxTables {
  import opened Sequences

  datatype Status = Queued | Delivered | Failed | Acknowledged | Read | DecryptionFailed

  /** A row of `mailbox`, pruned when its recipient acknowledges it. */
  datatype MailRow = MailRow(
    id: nat,
    messageId: string,
    recipientId: string,
    senderId: string,
    senderUsername: string,
    ciphertext: string,
    status: Status)

  /** A row of `message_deliveries`, the permanent record of a message. */
  datatype Delivery = Delivery(
    senderId: string,
    recipientId: string,
    status: Status,
    attemptCount: nat,
    nextRetryAt: Option<int>)

  /** What a sender asks to have queued. */
  datatype Letter = Letter(
    messageId: string,
    recipientId: string,
    senderId: string,
    senderUsername: string,
    ciphertext: string)

  /** `mailbox` is kept in primary-key order; `deliveries` is keyed by its primary key, the message id.
      `users` is the table both refer to by foreign key; `nextId` is the SERIAL sequence of `mailbox`. */
  datatype Db = Db(
    users: set<string>,
    nextId: nat,
    mailbox: seq<MailRow>,
    deliveries: map<string, Delivery>)

  predicate Terminal(status: Status) {
    status == Acknowledged || status == Read
  }

  predicate LiveStatus(status: Status) {
    status == Queued || status == Delivered
  }

  /** The declared constraints of `mailbox`: primary key, UNIQUE(message_id) and the two foreign keys. */
  ghost predicate TablesOk(db: Db) {
    && 1 <= db.nextId
    && (forall i, j :: 0 <= i < j < |db.mailbox| ==>
      db.mailbox[i].id < db.mailbox[j].id && db.mailbox[i].messageId != db.mailbox[j].messageId)
    && (forall r :: r in db.mailbox ==>
      1 <= r.id < db.nextId && r.senderId in db.users && r.recipientId in db.users)
  }

  predicate HasMessage(rows: seq<MailRow>, messageId: string) {
    exists r :: r in rows && r.messageId == messageId
  }

  predicate HasId(rows: seq<MailRow>, id: nat) {
    exists r :: r in rows && r.id == id
  }

  function MessageIds(rows: seq<MailRow>): set<string> {
    set r | r in rows :: r.messageId
  }

  // ---------------------------------------------------------------------------
  // UPDATE ... SET status
  // ---------------------------------------------------------------------------

  function SetStatus(rows: seq<MailRow>, messages: set<string>, status: Status): (updated: seq<MailRow>)
    ensures |updated| == |rows|
    ensures forall i :: 0 <= i < |rows| ==>
      updated[i] == if rows[i].messageId in messages then rows[i].(status := status) else rows[i]
  {
    Map(rows, (r: MailRow) => if r.messageId in messages then r.(status := status) else r)
  }

  // ---------------------------------------------------------------------------
  // Transactions
  // ---------------------------------------------------------------------------

  datatype QueueOutcome = Inserted(id: nat) | Duplicate | UnknownUser

  function QueueOutcomeOf(db: Db, letter: Letter): QueueOutcome {
    if HasMessage(db.mailbox, letter.messageId) then Duplicate
    else if letter.senderId !in db.users || letter.recipientId !in db.users then UnknownUser
    else Inserted(db.nextId)
  }

  function NewRow(id: nat, letter: Letter): MailRow {
    MailRow(id, letter.messageId, letter.recipientId, letter.senderId, letter.senderUsername,
            letter.ciphertext, Queued)
  }

  /** A failed insert rolls both tables back, but the sequence has already handed out its number. */
  function QueueMessage(db: Db, letter: Letter, now: int): Db {
    if !QueueOutcomeOf(db, letter).Inserted? then db.(nextId := db.nextId + 1)
    else
      var record :=
        if letter.messageId in db.deliveries
        then db.deliveries[letter.messageId].(status := Queued, attemptCount := 0, nextRetryAt := Some(now))
        else Delivery(letter.senderId, letter.recipientId, Queued, 0, Some(now));
      db.(nextId := db.nextId + 1,
          mailbox := db.mailbox + [NewRow(db.nextId, letter)],
          deliveries := db.deliveries[letter.messageId := record])
  }

  /** A negative delay leaves `next_retry_at` alone (COALESCE with NULL). */
  function Attempted(d: Delivery, delay: int, now: int): Delivery {
    d.(attemptCount := d.attemptCount + 1,
       nextRetryAt := if delay >= 0 then Some(now + delay) else d.nextRetryAt)
  }

  function IncrementAttempt(db: Db, messageId: string, delay: int, now: int): Db {
    if messageId in db.deliveries
    then db.(deliveries := db.deliveries[messageId := Attempted(db.deliveries[messageId], delay, now)])
    else db
  }

  function ScheduleRetry(db: Db, messageId: string, delay: int, now: int): Db {
    var due := now + if delay > 0 then delay else 0;
    var deliveries' :=
      if messageId in db.deliveries && !Terminal(db.deliveries[messageId].status)
         && db.deliveries[messageId].status != Failed
      then db.deliveries[messageId := db.deliveries[messageId].(status := Queued, nextRetryAt := Some(due))]
      else db.deliveries;
    var mailbox' := Map(db.mailbox, (r: MailRow) =>
      if r.messageId == messageId && r.status != Acknowledged && r.status != Failed
      then r.(status := Queued) else r);
    db.(mailbox := mailbox', deliveries := deliveries')
  }

  function MarkFailed(db: Db, messageId: string): Db {
    if messageId in db.deliveries
    then
      db.(mailbox := SetStatus(db.mailbox, {messageId}, Failed),
          deliveries := db.deliveries[messageId :=
            db.deliveries[messageId].(status := Failed, nextRetryAt := None)])
    else db.(mailbox := SetStatus(db.mailbox, {messageId}, Failed))
  }

  /** What a transaction reports back: the attempts and next retry of a record (one attempt and none when the
      message has no record), and who is concerned when a message is given up. */
  datatype AttemptInfo = AttemptInfo(attemptCount: nat, nextRetryAt: Option<int>)
  datatype FailInfo = FailInfo(senderId: string, recipientId: string, attemptCount: nat)

  function AttemptInfoOf(db: Db, messageId: string): AttemptInfo {
    if messageId in db.deliveries
    then AttemptInfo(db.deliveries[messageId].attemptCount, db.deliveries[messageId].nextRetryAt)
    else AttemptInfo(1, None)
  }

  /** The message has a record that a timeout reschedules. */
  predicate Unsettled(db: Db, messageId: string) {
    messageId in db.deliveries && db.deliveries[messageId].status !in {Acknowledged, Read, Failed}
  }

  /** The next retry a reschedule reports: the record's, or else the time asked for. */
  function DueAt(db: Db, messageId: string, delay: int, now: int): int {
    if messageId in db.deliveries && db.deliveries[messageId].nextRetryAt.Some?
    then db.deliveries[messageId].nextRetryAt.value
    else now + if delay > 0 then delay else 0
  }

  function RowOf(rows: seq<MailRow>, messageId: string): Option<MailRow> {
    if rows == [] then None else if rows[0].messageId == messageId then Some(rows[0]) else RowOf(rows[1..], messageId)
  }

  lemma {:induction false} RowOfFound(rows: seq<MailRow>, messageId: string)
    ensures RowOf(rows, messageId).Some? <==> HasMessage(rows, messageId)
    ensures RowOf(rows, messageId).Some? ==>
      RowOf(rows, messageId).value in rows && RowOf(rows, messageId).value.messageId == messageId
  {
    if rows != [] {
      RowOfFound(rows[1..], messageId);
      assert forall r :: r in rows <==> r == rows[0] || r in rows[1..];
    }
  }

  /** The record's people and attempts, or the mailbox row's people and no attempts, or nothing. */
  function FailInfoOf(db: Db, messageId: string): Option<FailInfo> {
    if messageId in db.deliveries then
      var d := db.deliveries[messageId];
      Some(FailInfo(d.senderId, d.recipientId, d.attemptCount))
    else match RowOf(db.mailbox, messageId)
      case None => None
      case Some(r) => Some(FailInfo(r.senderId, r.recipientId, 0))
  }

  /** The sender a read receipt goes to: the one named, else the record's; an empty one is none. */
  function ReadSender(db: Db, messageId: string, senderId: string): Option<string> {
    if senderId != "" then Some(senderId)
    else if messageId in db.deliveries && db.deliveries[messageId].senderId != ""
    then Some(db.deliveries[messageId].senderId)
    else None
  }

  function MarkDelivered(db: Db, id: nat, messageId: string): Db {
    var mailbox' := Map(db.mailbox, (r: MailRow) => if r.id == id then r.(status := Delivered) else r);
    var deliveries' :=
      if messageId in db.deliveries
      then db.deliveries[messageId := db.deliveries[messageId].(status := Delivered)]
      else db.deliveries;
    db.(mailbox := mailbox', deliveries := deliveries')
  }

  /** The row an acknowledgement deletes. A mailbox id of 0 stands for one that was not sent. */
  predicate NamedByAck(r: MailRow, userId: string, messageId: string, mailboxId: nat) {
    r.recipientId == userId && (r.messageId == messageId || (mailboxId != 0 && r.id == mailboxId))
  }

  function SenderOfId(rows: seq<MailRow>, id: nat): string {
    if rows == [] then ""
    else if rows[0].id == id then rows[0].senderId
    else SenderOfId(rows[1..], id)
  }

  /** The sender to notify: the named mailbox row's, else the delivery record's, else "" (SQL finds none). */
  function AckSender(db: Db, messageId: string, mailboxId: nat): string {
    var named := if mailboxId != 0 then SenderOfId(db.mailbox, mailboxId) else "";
    if named != "" then named
    else if messageId in db.deliveries then db.deliveries[messageId].senderId
    else ""
  }

  /** A record can be inserted for a message that has none only between known users. */
  predicate CanRecord(db: Db, messageId: string, senderId: string, recipientId: string) {
    messageId in db.deliveries || (senderId in db.users && recipientId in db.users)
  }

  predicate AckSucceeds(db: Db, userId: string, messageId: string, mailboxId: nat) {
    CanRecord(db, messageId, AckSender(db, messageId, mailboxId), userId)
  }

  function NotNamed(userId: string, messageId: string, mailboxId: nat): MailRow -> bool {
    (r: MailRow) => !NamedByAck(r, userId, messageId, mailboxId)
  }

  /** Deletes what is named and records the acknowledgement; a foreign-key failure undoes the delete. */
  function Acknowledge(db: Db, userId: string, messageId: string, mailboxId: nat): Db {
    if !AckSucceeds(db, userId, messageId, mailboxId) then db
    else
      var record :=
        if messageId in db.deliveries
        then db.deliveries[messageId].(status := Acknowledged, nextRetryAt := None)
        else Delivery(AckSender(db, messageId, mailboxId), userId, Acknowledged, 0, None);
      db.(mailbox := Filter(db.mailbox, NotNamed(userId, messageId, mailboxId)),
          deliveries := db.deliveries[messageId := record])
  }

  function MarkRead(db: Db, userId: string, messageId: string): Db {
    if messageId in db.deliveries && db.deliveries[messageId].recipientId == userId
    then db.(deliveries := db.deliveries[messageId := db.deliveries[messageId].(status := Read)])
    else db
  }

  function RecordDecryptionFailure(db: Db, userId: string, messageId: string, senderId: string): Db {
    if !CanRecord(db, messageId, senderId, userId) then db
    else
      var record :=
        if messageId in db.deliveries
        then db.deliveries[messageId].(status := DecryptionFailed)
        else Delivery(senderId, userId, DecryptionFailed, 0, None);
      db.(deliveries := db.deliveries[messageId := record])
  }

  // ---------------------------------------------------------------------------
  // Queries (ORDER BY id ASC is the order of `mailbox`)
  // ---------------------------------------------------------------------------

  /** Both tables call the row queued or delivered (the two status conditions of either sweep query). */
  predicate Live(deliveries: map<string, Delivery>, r: MailRow) {
    && LiveStatus(r.status)
    && r.messageId in deliveries
    && LiveStatus(deliveries[r.messageId].status)
  }

  predicate Due(d: Delivery, now: int) {
    d.nextRetryAt.None? || d.nextRetryAt.value <= now
  }

  function IsExhausted(deliveries: map<string, Delivery>, maxRetries: nat): MailRow -> bool {
    (r: MailRow) => Live(deliveries, r) && deliveries[r.messageId].attemptCount >= maxRetries
  }

  function IsCandidate(deliveries: map<string, Delivery>, maxRetries: nat, now: int): MailRow -> bool {
    (r: MailRow) =>
      Live(deliveries, r)
      && Due(deliveries[r.messageId], now)
      && deliveries[r.messageId].attemptCount < maxRetries
  }

  function FindExhausted(db: Db, maxRetries: nat, limit: nat): seq<MailRow> {
    Take(Filter(db.mailbox, IsExhausted(db.deliveries, maxRetries)), limit)
  }

  function FindCandidates(db: Db, maxRetries: nat, now: int, limit: nat): seq<MailRow> {
    Take(Filter(db.mailbox, IsCandidate(db.deliveries, maxRetries, now)), limit)
  }

  function IsPendingFor(userId: string): MailRow -> bool {
    (r: MailRow) => r.recipientId == userId && r.status != Failed
  }

  function IsPendingAfter(userId: string, afterId: nat): MailRow -> bool {
    (r: MailRow) => r.recipientId == userId && r.id > afterId && r.status != Failed
  }

  function Pending(db: Db, userId: string, limit: nat): seq<MailRow> {
    Take(Filter(db.mailbox, IsPendingFor(userId)), limit)
  }

  /** The id of the row that carries `messageId`, or 0 when none does. */
  function IdOfMessage(rows: seq<MailRow>, messageId: string): nat {
    if rows == [] then 0
    else if rows[0].messageId == messageId then rows[0].id
    else IdOfMessage(rows[1..], messageId)
  }

  function PendingSince(db: Db, userId: string, lastAcked: string, limit: nat): seq<MailRow> {
    var afterId := if lastAcked == "" then 0 else IdOfMessage(db.mailbox, lastAcked);
    if afterId > 0 then Take(Filter(db.mailbox, IsPendingAfter(userId, afterId)), limit)
    else Pending(db, userId, limit)
  }

  // ---------------------------------------------------------------------------
  // What a loop over several messages amounts to
  // ---------------------------------------------------------------------------

  /** Every message in `messages` handed to its recipient once more, all at the same moment.
      `delay` gives the wait before the next retry from the attempts made so far. */
  function DispatchAll(db: Db, messages: set<string>, delay: nat -> int, now: int): Db {
    db.(mailbox := SetStatus(db.mailbox, messages, Delivered),
        deliveries := map m | m in db.deliveries ::
          if m in messages
          then Attempted(db.deliveries[m], delay(db.deliveries[m].attemptCount), now).(status := Delivered)
          else db.deliveries[m])
  }

  /** Every message in `messages` dead-lettered. */
  function FailAll(db: Db, messages: set<string>): Db {
    db.(mailbox := SetStatus(db.mailbox, messages, Failed),
        deliveries := map m | m in db.deliveries ::
          if m in messages
          then db.deliveries[m].(status := Failed, nextRetryAt := None)
          else db.deliveries[m])
  }

  // ---------------------------------------------------------------------------
  // Facts about rows
  // ---------------------------------------------------------------------------

  /** Rows with the same message id, or with the same id, are one row. */
  lemma RowsUnique(db: Db, a: MailRow, b: MailRow)
    requires TablesOk(db) && a in db.mailbox && b in db.mailbox
    requires a.messageId == b.messageId || a.id == b.id
    ensures a == b
  {
    var i :| 0 <= i < |db.mailbox| && db.mailbox[i] == a;
    var j :| 0 <= j < |db.mailbox| && db.mailbox[j] == b;
    if i < j {
    } else if j < i {
    }
  }

  lemma {:induction false} IdOfMessageFound(rows: seq<MailRow>, messageId: string)
    requires forall r :: r in rows ==> r.id >= 1
    ensures HasMessage(rows, messageId) <==> IdOfMessage(rows, messageId) != 0
    ensures HasMessage(rows, messageId) ==>
      exists r :: r in rows && r.messageId == messageId && r.id == IdOfMessage(rows, messageId)
  {
    if rows != [] {
      assert rows[0] in rows;
      assert forall r :: r in rows[1..] ==> r in rows;
      IdOfMessageFound(rows[1..], messageId);
      assert forall r :: r in rows ==> r == rows[0] || r in rows[1..];
    }
  }

  lemma {:induction false} SenderOfIdFound(rows: seq<MailRow>, id: nat)
    ensures HasId(rows, id) ==> exists r :: r in rows && r.id == id && r.senderId == SenderOfId(rows, id)
    ensures !HasId(rows, id) ==> SenderOfId(rows, id) == ""
  {
    if rows != [] {
      assert rows[0] in rows;
      assert forall r :: r in rows[1..] ==> r in rows;
      SenderOfIdFound(rows[1..], id);
      assert forall r :: r in rows ==> r == rows[0] || r in rows[1..];
    }
  }

  /** Ids ascend and no message occurs twice. */
  function InOrder(): (MailRow, MailRow) -> bool {
    (a: MailRow, b: MailRow) => a.id < b.id && a.messageId != b.messageId
  }

  lemma TakeKeeps<T>(s: seq<T>, n: nat, r: (T, T) -> bool)
    requires Pairwise(s, r)
    ensures Pairwise(Take(s, n), r) && forall x :: x in Take(s, n) ==> x in s
  {
  }

  /** The rows selected by a query are rows of the table, still in id order. */
  lemma QueryRows(db: Db, p: MailRow -> bool, limit: nat)
    requires TablesOk(db)
    ensures var found := Take(Filter(db.mailbox, p), limit);
      && (forall r :: r in found ==> r in db.mailbox && p(r))
      && (forall i, j :: 0 <= i < j < |found| ==>
        found[i].id < found[j].id && found[i].messageId != found[j].messageId)
  {
    FilterAllIn(db.mailbox, p);
    assert Pairwise(db.mailbox, InOrder());
    FilterPairwise(db.mailbox, p, InOrder());
    hide TablesOk, Take, Filter;
    var found := Take(Filter(db.mailbox, p), limit);
    TakeKeeps(Filter(db.mailbox, p), limit, InOrder());
    assert forall i, j :: 0 <= i < j < |found| ==> InOrder()(found[i], found[j]);
  }
}
