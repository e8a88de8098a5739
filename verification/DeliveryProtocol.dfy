/** The direct-message handlers of one chat server, each an atomic step on the two mailbox tables,
    the armed acknowledgement timers and the cache of recently delivered message ids. */
module DeliveryProtocol {
  import opened Sequences
  import opened MailboxTables

  const RECENT_DELIVERED_CACHE_LIMIT: nat := 5000
  const PENDING_LIMIT: nat := 50
  const RESUME_LIMIT: nat := 100
  const SWEEP_LIMIT: nat := 100

  datatype Config = Config(maxRetries: nat, retryDelays: seq<int>) {
    predicate Ok() {
      maxRetries >= 1 && |retryDelays| >= 1
    }
  }

  datatype Timer = Timer(mailboxId: nat, messageId: string, recipientId: string, senderId: string)

  datatype State = State(db: Db, timers: map<string, Timer>, recent: seq<string>)

  datatype Event =
    | Send(letter: Letter, online: bool)
    | Replay(userId: string, lastAcked: string)
    | Sweep(onlineUsers: set<string>, reachable: set<string>)
    | AckTimeout(messageId: string)
    | Ack(userId: string, messageId: string, mailboxId: nat)
    | ReadReceipt(userId: string, messageId: string)
    | DecryptionError(userId: string, messageId: string, senderId: string)
    | StopSchedulers
    | Restart

  /** What a step tells the outside world. */
  datatype Output =
    | Enqueued(row: MailRow)
    | Suppressed(messageId: string)
    | LiveDispatch(messageId: string)
    | ReplayDispatch(messageId: string)
    | SweepDispatch(messageId: string)
    | SweepFailed(messageId: string)
    | TimeoutFailed(messageId: string)
    | Acked(messageId: string, userId: string, mailboxId: nat)

  datatype Effect = Effect(state: State, outputs: seq<Output>)

  // ---------------------------------------------------------------------------
  // Retry delays, timers and the cache
  // ---------------------------------------------------------------------------

  /** The wait after a given attempt: the table entry for it, clamped to the table's ends. */
  function RetryDelay(attempt: int, delays: seq<int>): (delay: int)
    requires |delays| >= 1
    ensures delay in delays
    ensures attempt <= 1 ==> delay == delays[0]
    ensures 1 <= attempt <= |delays| ==> delay == delays[attempt - 1]
    ensures attempt >= |delays| ==> delay == delays[|delays| - 1]
  {
    var clamped := if attempt - 1 < |delays| - 1 then attempt - 1 else |delays| - 1;
    delays[if clamped > 0 then clamped else 0]
  }

  function FirstDelay(cfg: Config): nat -> int
    requires cfg.Ok()
  {
    var delay := RetryDelay(2, cfg.retryDelays);
    (attempts: nat) => delay
  }

  function SweepDelay(cfg: Config): nat -> int
    requires cfg.Ok()
  {
    (attempts: nat) => RetryDelay(attempts + 2, cfg.retryDelays)
  }

  function TimerOf(r: MailRow): Timer {
    Timer(r.id, r.messageId, r.recipientId, r.senderId)
  }

  /** Arming one timer per row, in order; a later timer for a message replaces an earlier one. */
  function ArmAll(timers: map<string, Timer>, rows: seq<MailRow>): map<string, Timer> {
    if rows == [] then timers
    else
      var last := rows[|rows| - 1];
      ArmAll(timers, rows[..|rows| - 1])[last.messageId := TimerOf(last)]
  }

  /** The bounded, insertion-ordered set of recently acknowledged ids. A full cache drops its oldest
      entry before the new id goes in, also when the new id is already there. */
  function Remember(recent: seq<string>, messageId: string): seq<string> {
    var kept :=
      if |recent| >= RECENT_DELIVERED_CACHE_LIMIT && recent[0] != "" then recent[1..] else recent;
    if messageId in kept then kept else kept + [messageId]
  }

  // ---------------------------------------------------------------------------
  // Handlers
  // ---------------------------------------------------------------------------

  predicate AlreadyDelivered(db: Db, messageId: string) {
    messageId in db.deliveries && Terminal(db.deliveries[messageId].status)
  }

  /** Queue the letter and, when its recipient has a socket, hand it over at once. */
  function SendFresh(cfg: Config, s: State, letter: Letter, online: bool, now: int): Effect
    requires cfg.Ok()
  {
    var queued := QueueMessage(s.db, letter, now);
    match QueueOutcomeOf(s.db, letter)
    case Duplicate => Effect(s.(db := queued), [Suppressed(letter.messageId)])
    case UnknownUser => Effect(s.(db := queued), [])
    case Inserted(id) =>
      var row := NewRow(id, letter);
      if online then
        Effect(s.(db := DispatchAll(queued, {letter.messageId}, FirstDelay(cfg), now),
                  timers := s.timers[letter.messageId := TimerOf(row)]),
               [Enqueued(row), LiveDispatch(letter.messageId)])
      else Effect(s.(db := queued), [Enqueued(row)])
  }

  function SendStep(cfg: Config, s: State, letter: Letter, online: bool, now: int): Effect
    requires cfg.Ok()
  {
    if letter.messageId == "" then Effect(s, [])
    else if letter.messageId in s.recent || AlreadyDelivered(s.db, letter.messageId)
    then Effect(s, [Suppressed(letter.messageId)])
    else SendFresh(cfg, s, letter, online, now)
  }

  function Replayed(db: Db, userId: string, lastAcked: string): seq<MailRow> {
    if lastAcked != "" then PendingSince(db, userId, lastAcked, RESUME_LIMIT)
    else Pending(db, userId, PENDING_LIMIT)
  }

  function ToReplayDispatch(): MailRow -> Output { (r: MailRow) => ReplayDispatch(r.messageId) }
  function ToSweepDispatch(): MailRow -> Output { (r: MailRow) => SweepDispatch(r.messageId) }
  function ToSweepFailed(): MailRow -> Output { (r: MailRow) => SweepFailed(r.messageId) }

  function ReplayStep(cfg: Config, s: State, userId: string, lastAcked: string, now: int): Effect
    requires cfg.Ok()
  {
    var rows := Replayed(s.db, userId, lastAcked);
    Effect(s.(db := DispatchAll(s.db, MessageIds(rows), FirstDelay(cfg), now),
              timers := ArmAll(s.timers, rows)),
           Map(rows, ToReplayDispatch()))
  }

  function ToUserIn(users: set<string>): MailRow -> bool {
    (r: MailRow) => r.recipientId in users
  }

  /** The rows one sweep dead-letters. */
  function SweepFailures(cfg: Config, db: Db): seq<MailRow> {
    FindExhausted(db, cfg.maxRetries, SWEEP_LIMIT)
  }

  /** The rows one sweep dispatches: the online recipients' among the first due ones. */
  function SweepDispatches(cfg: Config, db: Db, onlineUsers: set<string>, now: int): seq<MailRow> {
    Filter(FindCandidates(db, cfg.maxRetries, now, SWEEP_LIMIT), ToUserIn(onlineUsers))
  }

  function SweepStep(cfg: Config, s: State, onlineUsers: set<string>, reachable: set<string>, now: int): Effect
    requires cfg.Ok()
  {
    var failures := SweepFailures(cfg, s.db);
    var dispatches := SweepDispatches(cfg, s.db, onlineUsers, now);
    Effect(s.(db := DispatchAll(FailAll(s.db, MessageIds(failures)),
                                MessageIds(dispatches), SweepDelay(cfg), now),
              timers := ArmAll(s.timers, Filter(dispatches, ToUserIn(reachable)))),
           Map(failures, ToSweepFailed()) + Map(dispatches, ToSweepDispatch()))
  }

  /** The attempt count a timeout goes by; a missing record or a zero count reads as one. */
  function TimeoutAttempts(db: Db, messageId: string): nat {
    if messageId in db.deliveries && db.deliveries[messageId].attemptCount != 0
    then db.deliveries[messageId].attemptCount
    else 1
  }

  function TimeoutStep(cfg: Config, s: State, messageId: string, now: int): Effect
    requires cfg.Ok()
  {
    if messageId !in s.timers then Effect(s, [])
    else
      var attempts := TimeoutAttempts(s.db, messageId);
      var timers := s.timers - {messageId};
      if attempts >= cfg.maxRetries
      then Effect(s.(db := MarkFailed(s.db, messageId), timers := timers), [TimeoutFailed(messageId)])
      else
        var delay := RetryDelay(attempts + 1, cfg.retryDelays);
        Effect(s.(db := ScheduleRetry(s.db, messageId, delay, now), timers := timers), [])
  }

  /** The timer goes first; a failed acknowledgement has cleared it all the same. */
  function AckStep(s: State, userId: string, messageId: string, mailboxId: nat): Effect {
    if messageId == "" then Effect(s, [])
    else
      var cleared := s.(timers := s.timers - {messageId});
      if AckSucceeds(s.db, userId, messageId, mailboxId)
      then
        Effect(cleared.(db := Acknowledge(s.db, userId, messageId, mailboxId),
                        recent := Remember(s.recent, messageId)),
               [Acked(messageId, userId, mailboxId)])
      else Effect(cleared, [])
  }

  function Step(cfg: Config, s: State, e: Event, now: int): Effect
    requires cfg.Ok()
  {
    match e
    case Send(letter, online) => SendStep(cfg, s, letter, online, now)
    case Replay(userId, lastAcked) => ReplayStep(cfg, s, userId, lastAcked, now)
    case Sweep(onlineUsers, reachable) => SweepStep(cfg, s, onlineUsers, reachable, now)
    case AckTimeout(messageId) => TimeoutStep(cfg, s, messageId, now)
    case Ack(userId, messageId, mailboxId) => AckStep(s, userId, messageId, mailboxId)
    case ReadReceipt(userId, messageId) =>
      if messageId == "" then Effect(s, []) else Effect(s.(db := MarkRead(s.db, userId, messageId)), [])
    case DecryptionError(userId, messageId, senderId) =>
      if messageId == "" then Effect(s, [])
      else Effect(s.(db := RecordDecryptionFailure(s.db, userId, messageId, senderId)), [])
    case StopSchedulers => Effect(s.(timers := map[]), [])
    case Restart => Effect(s.(timers := map[], recent := []), [])
  }

  function Initial(users: set<string>): State {
    State(Db(users, 1, [], map[]), map[], [])
  }

  // ---------------------------------------------------------------------------
  // Runs
  // ---------------------------------------------------------------------------

  datatype Timed = Timed(event: Event, now: int)

  function Run(cfg: Config, s: State, events: seq<Timed>): Effect
    requires cfg.Ok()
  {
    if events == [] then Effect(s, [])
    else
      var n := |events| - 1;
      var before := Run(cfg, s, events[..n]);
      var last := Step(cfg, before.state, events[n].event, events[n].now);
      Effect(last.state, before.outputs + last.outputs)
  }

  /** What a recipient must not do, event by event: acknowledge a message that is not theirs or name
      another message's row, read before acknowledging, or report an acknowledged or unknown message
      as undecryptable. Everything else the server may face is allowed. */
  predicate Conforming(db: Db, e: Event) {
    match e
    case Ack(userId, messageId, mailboxId) =>
      messageId == "" ||
      forall r :: r in db.mailbox && (r.messageId == messageId || NamedByAck(r, userId, messageId, mailboxId)) ==>
        r.messageId == messageId && r.recipientId == userId
    case ReadReceipt(userId, messageId) =>
      messageId == "" || messageId !in db.deliveries || db.deliveries[messageId].recipientId != userId
      || Terminal(db.deliveries[messageId].status)
    case DecryptionError(userId, messageId, senderId) =>
      messageId == "" ||
      (if messageId in db.deliveries then !Terminal(db.deliveries[messageId].status)
       else !CanRecord(db, messageId, senderId, userId))
    case _ => true
  }

  ghost predicate ConformingRun(cfg: Config, s: State, events: seq<Timed>)
    requires cfg.Ok()
  {
    forall i :: 0 <= i < |events| ==> Conforming(Run(cfg, s, events[..i]).state.db, events[i].event)
  }

  lemma ConformingPrefix(cfg: Config, s: State, events: seq<Timed>, n: nat)
    requires cfg.Ok() && n <= |events| && ConformingRun(cfg, s, events)
    ensures ConformingRun(cfg, s, events[..n])
  {
    forall i | 0 <= i < n ensures Conforming(Run(cfg, s, events[..n][..i]).state.db, events[..n][i].event) {
      assert events[..n][..i] == events[..i];
    }
  }
}
