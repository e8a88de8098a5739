/** Replay, over every run and whatever clients do: what the server has said so far determines which letters are
    in the mailbox and which of them a user is still owed, in the order they were queued. */
module DeliveryReplay {
  import opened Sequences
  import opened MailboxTables
  import opened DeliveryProtocol
  import opened DeliveryInvariant
  import opened DeliveryHistory
  import opened DeliveryTransactions

  // ---------------------------------------------------------------------------
  // Letters left over
  // ---------------------------------------------------------------------------

  /** An acknowledgement by the letter's own recipient that names it. */
  predicate Acknowledges(x: Output, r: MailRow) {
    x.Acked? && NamedByAck(r, x.userId, x.messageId, x.mailboxId)
  }

  predicate GivesUp(x: Output, r: MailRow) {
    (x.SweepFailed? || x.TimeoutFailed?) && x.messageId == r.messageId
  }

  function ByAck(): (Output, MailRow) -> bool {
    (x, r) => Acknowledges(x, r)
  }

  function ByAckOrFailure(): (Output, MailRow) -> bool {
    (x, r) => Acknowledges(x, r) || GivesUp(x, r)
  }

  predicate Untouched(r: MailRow, later: seq<Output>, ends: (Output, MailRow) -> bool) {
    forall x :: x in later ==> !ends(x, r)
  }

  /** The letters queued and not ended since they were queued, in the order they were queued. */
  function Left(outputs: seq<Output>, ends: (Output, MailRow) -> bool): seq<MailRow> {
    if outputs == [] then []
    else
      (if outputs[0].Enqueued? && Untouched(outputs[0].row, outputs[1..], ends) then [outputs[0].row] else [])
      + Left(outputs[1..], ends)
  }

  /** The letters that are still stored, and the letters a user is still owed. */
  function Stored(outputs: seq<Output>): seq<MailRow> { Left(outputs, ByAck()) }

  function Owed(outputs: seq<Output>, userId: string): seq<MailRow> {
    Filter(Left(outputs, ByAckOrFailure()), IsFor(userId))
  }

  function IsFor(userId: string): MailRow -> bool { (r: MailRow) => r.recipientId == userId }

  function Spared(x: Output, ends: (Output, MailRow) -> bool): MailRow -> bool { (r: MailRow) => !ends(x, r) }

  lemma {:induction false} LeftSnoc(a: seq<Output>, x: Output, ends: (Output, MailRow) -> bool)
    ensures Left(a + [x], ends) == Filter(Left(a, ends), Spared(x, ends)) + (if x.Enqueued? then [x.row] else [])
    decreases |a|
  {
    if a == [] {
      assert a + [x] == [x] && [x][1..] == [];
    } else {
      var rest := a[1..];
      assert (a + [x])[0] == a[0] && (a + [x])[1..] == rest + [x];
      LeftSnoc(rest, x, ends);
      var head := if a[0].Enqueued? && Untouched(a[0].row, rest, ends) then [a[0].row] else [];
      var head' := if a[0].Enqueued? && Untouched(a[0].row, rest + [x], ends) then [a[0].row] else [];
      if a[0].Enqueued? {
        HeadSnoc(a[0], rest, x, ends);
      }
      FilterConcat(head, Left(rest, ends), Spared(x, ends));
      ConcatAssoc(head', Filter(Left(rest, ends), Spared(x, ends)), if x.Enqueued? then [x.row] else []);
    }
  }

  lemma HeadSnoc(y: Output, rest: seq<Output>, x: Output, ends: (Output, MailRow) -> bool)
    requires y.Enqueued?
    ensures Untouched(y.row, rest + [x], ends) <==> Untouched(y.row, rest, ends) && !ends(x, y.row)
    ensures Filter([y.row], Spared(x, ends)) == if ends(x, y.row) then [] else [y.row]
  {
    assert [y.row][1..] == [];
    assert forall z :: z in rest + [x] <==> z in rest || z == x;
  }

  /** Outputs that queue nothing and end nothing leave the same letters over. */
  lemma {:induction false} LeftQuiet(a: seq<Output>, b: seq<Output>, ends: (Output, MailRow) -> bool)
    requires forall x :: x in b ==> !x.Enqueued? && forall r :: !ends(x, r)
    ensures Left(a + b, ends) == Left(a, ends)
    decreases |b|
  {
    if b == [] {
      assert a + b == a;
    } else {
      var n := |b| - 1;
      assert b[n] in b && a + b == (a + b[..n]) + [b[n]];
      assert forall x :: x in b[..n] ==> x in b;
      LeftQuiet(a, b[..n], ends);
      LeftSnoc(a + b[..n], b[n], ends);
      FilterAll(Left(a, ends), Spared(b[n], ends));
    }
  }

  function NotIn(messages: set<string>): MailRow -> bool { (r: MailRow) => r.messageId !in messages }

  /** Outputs that queue and acknowledge nothing end the letters they give up on. */
  lemma {:induction false} LeftFails(a: seq<Output>, b: seq<Output>)
    requires forall x :: x in b ==> !x.Enqueued? && !x.Acked?
    ensures Left(a + b, ByAckOrFailure()) == Filter(Left(a, ByAckOrFailure()), NotIn(FailedIds(b)))
    decreases |b|
  {
    var ends := ByAckOrFailure();
    if b == [] {
      assert a + b == a;
      FilterAll(Left(a, ends), NotIn(FailedIds(b)));
    } else {
      var n := |b| - 1;
      assert b[n] in b && a + b == (a + b[..n]) + [b[n]];
      assert forall x :: x in b[..n] ==> x in b;
      LeftFails(a, b[..n]);
      LeftSnoc(a + b[..n], b[n], ends);
      assert b == b[..n] + [b[n]];
      IdsConcat(b[..n], [b[n]]);
      LastFails(b[n]);
      FilterTwice(Left(a, ends), NotIn(FailedIds(b[..n])), Spared(b[n], ends), NotIn(FailedIds(b)));
    }
  }

  lemma LastFails(x: Output)
    requires !x.Acked?
    ensures forall r :: Spared(x, ByAckOrFailure())(r) <==> r.messageId !in FailedIds([x])
  {
    assert x in [x];
  }

  // ---------------------------------------------------------------------------
  // The mailbox is what is left over
  // ---------------------------------------------------------------------------

  function HasNotFailed(): MailRow -> bool { (r: MailRow) => r.status != Failed }

  ghost predicate MailboxIsLeft(db: Db, outputs: seq<Output>) {
    && Map(db.mailbox, AsQueued()) == Left(outputs, ByAck())
    && Map(Filter(db.mailbox, HasNotFailed()), AsQueued()) == Left(outputs, ByAckOrFailure())
  }

  lemma QueuesIsLeft(db: Db, after: Db, outputs: seq<Output>, more: seq<Output>, row: MailRow)
    requires MailboxIsLeft(db, outputs) && row.status == Queued
    requires more == [Enqueued(row)] || more == [Enqueued(row), LiveDispatch(row.messageId)]
    requires SameRows(db.mailbox + [row], after.mailbox) && LiveStatus(after.mailbox[|db.mailbox|].status)
    requires forall i :: 0 <= i < |db.mailbox| ==> after.mailbox[i] == db.mailbox[i]
    ensures MailboxIsLeft(after, outputs + more)
  {
    var n := |db.mailbox|;
    var last := after.mailbox[n];
    assert after.mailbox == db.mailbox + [last] && AsQueued()(last) == row;
    MapSnoc(db.mailbox, last, AsQueued());
    FilterSnoc(db.mailbox, last, HasNotFailed());
    MapSnoc(Filter(db.mailbox, HasNotFailed()), last, AsQueued());
    LeftEnqueued(outputs, more, row, ByAck());
    LeftEnqueued(outputs, more, row, ByAckOrFailure());
  }

  lemma LeftEnqueued(outputs: seq<Output>, more: seq<Output>, row: MailRow, ends: (Output, MailRow) -> bool)
    requires ends == ByAck() || ends == ByAckOrFailure()
    requires more == [Enqueued(row)] || more == [Enqueued(row), LiveDispatch(row.messageId)]
    ensures Left(outputs + more, ends) == Left(outputs, ends) + [row]
  {
    var first := [Enqueued(row)];
    assert outputs + more == (outputs + first) + more[1..];
    LeftSnoc(outputs, Enqueued(row), ends);
    FilterAll(Left(outputs, ends), Spared(Enqueued(row), ends));
    LeftQuiet(outputs + first, more[1..], ends);
  }

  lemma SendIsLeft(cfg: Config, s: State, letter: Letter, online: bool, now: int, outputs: seq<Output>)
    requires cfg.Ok() && TablesOk(s.db) && MailboxIsLeft(s.db, outputs)
    ensures var after := SendStep(cfg, s, letter, online, now); MailboxIsLeft(after.state.db, outputs + after.outputs)
  {
    hide MailboxIsLeft;
    var after := SendStep(cfg, s, letter, online, now);
    var row := NewRow(s.db.nextId, letter);
    if Enqueued(row) in after.outputs {
      SendAppends(cfg, s, letter, online, now);
      QueuesIsLeft(s.db, after.state.db, outputs, after.outputs, row);
    } else {
      QuietIsLeft(s.db, after.state.db, outputs, after.outputs);
    }
  }

  lemma QuietIsLeft(db: Db, after: Db, outputs: seq<Output>, more: seq<Output>)
    requires MailboxIsLeft(db, outputs) && after.mailbox == db.mailbox
    requires forall x :: x in more ==> x.Suppressed?
    ensures MailboxIsLeft(after, outputs + more)
  {
    LeftQuiet(outputs, more, ByAck());
    LeftQuiet(outputs, more, ByAckOrFailure());
  }

  lemma AckIsLeft(s: State, userId: string, messageId: string, mailboxId: nat, outputs: seq<Output>)
    requires MailboxIsLeft(s.db, outputs)
    ensures var after := AckStep(s, userId, messageId, mailboxId);
      MailboxIsLeft(after.state.db, outputs + after.outputs)
  {
    var after := AckStep(s, userId, messageId, mailboxId);
    if messageId != "" && AckSucceeds(s.db, userId, messageId, mailboxId) {
      AckedIsLeft(s.db, after.state.db, userId, messageId, mailboxId, outputs);
    } else {
      assert outputs + after.outputs == outputs;
    }
  }

  /** What an acknowledgement spares of the letters is what its delete spares of the rows. */
  lemma AckSpares(userId: string, messageId: string, mailboxId: nat, r: MailRow)
    ensures var x := Acked(messageId, userId, mailboxId); var keep := NotNamed(userId, messageId, mailboxId);
      Spared(x, ByAck())(AsQueued()(r)) == keep(r) == Spared(x, ByAckOrFailure())(AsQueued()(r))
  {
  }

  lemma AckedIsLeft(db: Db, after: Db, userId: string, messageId: string, mailboxId: nat, outputs: seq<Output>)
    requires MailboxIsLeft(db, outputs)
    requires after.mailbox == Filter(db.mailbox, NotNamed(userId, messageId, mailboxId))
    ensures MailboxIsLeft(after, outputs + [Acked(messageId, userId, mailboxId)])
  {
    hide Left, Spared, NotNamed, HasNotFailed, AsQueued, Filter;
    var x := Acked(messageId, userId, mailboxId);
    var keep, live := NotNamed(userId, messageId, mailboxId), HasNotFailed();
    forall r ensures Spared(x, ByAck())(AsQueued()(r)) == keep(r) == Spared(x, ByAckOrFailure())(AsQueued()(r)) {
      AckSpares(userId, messageId, mailboxId, r);
    }
    LeftSnoc(outputs, x, ByAck());
    LeftSnoc(outputs, x, ByAckOrFailure());
    FilterOfMap(db.mailbox, AsQueued(), Spared(x, ByAck()), keep);
    FilterCommutes(db.mailbox, keep, live);
    FilterOfMap(Filter(db.mailbox, live), AsQueued(), Spared(x, ByAckOrFailure()), keep);
  }

  lemma FilterCommutes<T>(s: seq<T>, p: T -> bool, q: T -> bool)
    ensures Filter(Filter(s, p), q) == Filter(Filter(s, q), p)
  {
    var both := (x: T) => p(x) && q(x);
    FilterTwice(s, p, q, both);
    FilterTwice(s, q, p, both);
  }

  lemma MapCons<T, U>(x: T, s: seq<T>, f: T -> U)
    ensures Map([x] + s, f) == [f(x)] + Map(s, f)
  {
  }

  lemma FilterCons<T>(x: T, s: seq<T>, p: T -> bool)
    ensures Filter([x] + s, p) == if p(x) then [x] + Filter(s, p) else Filter(s, p)
  {
    assert ([x] + s)[1..] == s;
    assert [] + Filter(s, p) == Filter(s, p);
  }

  /** Failing exactly the rows of some messages takes exactly their letters from those that have not failed. */
  lemma {:induction false} FailedTaken(a: seq<MailRow>, b: seq<MailRow>, failed: set<string>)
    requires SameRows(a, b) && FailsExactly(a, b, failed)
    ensures Map(Filter(b, HasNotFailed()), AsQueued())
         == Filter(Map(Filter(a, HasNotFailed()), AsQueued()), NotIn(failed))
    decreases |a|
  {
    if a != [] {
      FailedTaken(a[1..], b[1..], failed);
      SameLetterQueued(a[0], b[0], failed);
      hide Filter, HasNotFailed, AsQueued, NotIn;
      assert a == [a[0]] + a[1..] && b == [b[0]] + b[1..];
      var fa, fb := Filter(a[1..], HasNotFailed()), Filter(b[1..], HasNotFailed());
      FilterCons(a[0], a[1..], HasNotFailed());
      FilterCons(b[0], b[1..], HasNotFailed());
      MapCons(a[0], fa, AsQueued());
      MapCons(b[0], fb, AsQueued());
      FilterCons(AsQueued()(a[0]), Map(fa, AsQueued()), NotIn(failed));
    }
  }

  lemma SameLetterQueued(a: MailRow, b: MailRow, failed: set<string>)
    requires b == a.(status := b.status)
    requires b.status == Failed <==> a.status == Failed || a.messageId in failed
    ensures AsQueued()(a) == AsQueued()(b)
    ensures HasNotFailed()(b) <==> HasNotFailed()(a) && NotIn(failed)(AsQueued()(a))
  {
  }

  lemma OtherIsLeft(cfg: Config, s: State, e: Event, now: int, outputs: seq<Output>)
    requires cfg.Ok() && TablesOk(s.db) && MailboxIsLeft(s.db, outputs) && !e.Send? && !e.Ack?
    ensures var after := Step(cfg, s, e, now); MailboxIsLeft(after.state.db, outputs + after.outputs)
  {
    hide Step, TablesOk, SameRows, FailsExactly, Left, FailedIds;
    var after := Step(cfg, s, e, now);
    StepKeepsRows(cfg, s, e, now);
    StepFails(cfg, s, e, now);
    MapAsQueuedSame(s.db.mailbox, after.state.db.mailbox);
    FailedTaken(s.db.mailbox, after.state.db.mailbox, FailedIds(after.outputs));
    LeftQuiet(outputs, after.outputs, ByAck());
    LeftFails(outputs, after.outputs);
  }

  lemma StepIsLeft(cfg: Config, s: State, e: Event, now: int, outputs: seq<Output>)
    requires cfg.Ok() && TablesOk(s.db) && MailboxIsLeft(s.db, outputs)
    ensures var after := Step(cfg, s, e, now); MailboxIsLeft(after.state.db, outputs + after.outputs)
  {
    hide MailboxIsLeft, TablesOk, SendStep, AckStep;
    match e {
      case Send(letter, online) => SendIsLeft(cfg, s, letter, online, now, outputs);
      case Ack(userId, messageId, mailboxId) => AckIsLeft(s, userId, messageId, mailboxId, outputs);
      case _ => OtherIsLeft(cfg, s, e, now, outputs);
    }
  }

  /** MAIN: over every run, conforming or not, the mailbox is the letters queued and not since acknowledged by
      their own recipient, in the order they were queued; the rows that have not failed are those that were
      not given up on since either. */
  lemma {:induction false} MailboxIsWhatIsLeft(cfg: Config, users: set<string>, events: seq<Timed>)
    requires cfg.Ok()
    ensures var run := Run(cfg, Initial(users), events); MailboxIsLeft(run.state.db, run.outputs)
    decreases |events|
  {
    hide MailboxIsLeft, Step, TablesOk, Recorded;
    if events == [] {
      NothingLeft(users);
    } else {
      var n := |events| - 1;
      MailboxIsWhatIsLeft(cfg, users, events[..n]);
      InitialConstraints(users);
      RunKeepsConstraints(cfg, Initial(users), events[..n]);
      var before := Run(cfg, Initial(users), events[..n]);
      StepIsLeft(cfg, before.state, events[n].event, events[n].now, before.outputs);
    }
  }

  lemma NothingLeft(users: set<string>)
    ensures MailboxIsLeft(Initial(users).db, [])
  {
    assert Map(Initial(users).db.mailbox, AsQueued()) == [];
    assert Map(Filter(Initial(users).db.mailbox, HasNotFailed()), AsQueued()) == [];
  }

  lemma InitialConstraints(users: set<string>)
    ensures TablesOk(Initial(users).db) && Recorded(Initial(users).db)
  {
  }

  // ---------------------------------------------------------------------------
  // Replay
  // ---------------------------------------------------------------------------

  function QueuedAfter(id: nat): MailRow -> bool { (r: MailRow) => r.id > id }

  /** A pending query finds exactly the letters owed, and a resumed one those of them queued later. */
  lemma PendingIsOwed(db: Db, outputs: seq<Output>, userId: string, afterId: nat)
    requires MailboxIsLeft(db, outputs)
    ensures Map(Filter(db.mailbox, IsPendingFor(userId)), AsQueued()) == Owed(outputs, userId)
    ensures Map(Filter(db.mailbox, IsPendingAfter(userId, afterId)), AsQueued())
         == Filter(Owed(outputs, userId), QueuedAfter(afterId))
  {
    var live, pending := Filter(db.mailbox, HasNotFailed()), Filter(db.mailbox, IsPendingFor(userId));
    FilterTwice(db.mailbox, HasNotFailed(), IsFor(userId), IsPendingFor(userId));
    FilterOfMap(live, AsQueued(), IsFor(userId), IsFor(userId));
    FilterTwice(db.mailbox, IsPendingFor(userId), QueuedAfter(afterId), IsPendingAfter(userId, afterId));
    FilterOfMap(pending, AsQueued(), QueuedAfter(afterId), QueuedAfter(afterId));
  }

  lemma MapOfTake(rows: seq<MailRow>, limit: nat)
    ensures Map(Take(rows, limit), AsQueued()) == Take(Map(rows, AsQueued()), limit)
  {
  }

  /** The stored letters and the rows of the mailbox have the same ids and message ids. */
  lemma StoredIsMailbox(db: Db, outputs: seq<Output>, messageId: string)
    requires TablesOk(db) && MailboxIsLeft(db, outputs)
    ensures (exists k :: k in Stored(outputs) && k.messageId == messageId) <==> HasMessage(db.mailbox, messageId)
    ensures forall k :: k in Stored(outputs) && k.messageId == messageId ==> k.id == IdOfMessage(db.mailbox, messageId) > 0
  {
    var rows := Stored(outputs);
    IdOfMessageFound(db.mailbox, messageId);
    forall k | k in rows && k.messageId == messageId
      ensures HasMessage(db.mailbox, messageId) && k.id == IdOfMessage(db.mailbox, messageId) > 0
    {
      var i :| 0 <= i < |rows| && rows[i] == k;
      assert db.mailbox[i] in db.mailbox && AsQueued()(db.mailbox[i]) == k;
      var r :| r in db.mailbox && r.messageId == messageId && r.id == IdOfMessage(db.mailbox, messageId);
      RowsUnique(db, r, db.mailbox[i]);
    }
    if HasMessage(db.mailbox, messageId) {
      var r :| r in db.mailbox && r.messageId == messageId;
      var i :| 0 <= i < |db.mailbox| && db.mailbox[i] == r;
      assert rows[i] in rows && rows[i].messageId == messageId;
    }
  }

  /** MAIN: after any run, whatever clients did, a first replay hands a user the first 50 letters they are owed, in
      the order they were queued and with no gap; a replay that resumes hands over the first 100 of those
      queued after the letter resumed from, or of all of them when that letter is not stored any more. */
  lemma ReplayIsInSendOrder(cfg: Config, users: set<string>, events: seq<Timed>, userId: string, lastAcked: string)
    requires cfg.Ok()
    ensures var run := Run(cfg, Initial(users), events);
      var owed := Owed(run.outputs, userId);
      var replayed := Map(Replayed(run.state.db, userId, lastAcked), AsQueued());
      && (lastAcked == "" ==> replayed == Take(owed, 50))
      && (lastAcked != "" && (forall k :: k in Stored(run.outputs) ==> k.messageId != lastAcked) ==>
            replayed == Take(owed, 100))
      && (forall k :: k in Stored(run.outputs) && k.messageId == lastAcked != "" ==>
            replayed == Take(Filter(owed, QueuedAfter(k.id)), 100))
  {
    hide MailboxIsLeft, Run, TablesOk, Recorded, Owed, Stored;
    var run := Run(cfg, Initial(users), events);
    MailboxIsWhatIsLeft(cfg, users, events);
    InitialConstraints(users);
    RunKeepsConstraints(cfg, Initial(users), events);
    var db := run.state.db;
    var afterId := IdOfMessage(db.mailbox, lastAcked);
    StoredIsMailbox(db, run.outputs, lastAcked);
    NoIdWithoutMessage(db, lastAcked);
    PendingIsOwed(db, run.outputs, userId, afterId);
    MapOfTake(Filter(db.mailbox, IsPendingFor(userId)), PENDING_LIMIT);
    MapOfTake(Filter(db.mailbox, IsPendingFor(userId)), RESUME_LIMIT);
    MapOfTake(Filter(db.mailbox, IsPendingAfter(userId, afterId)), RESUME_LIMIT);
  }

  lemma NoIdWithoutMessage(db: Db, messageId: string)
    requires TablesOk(db)
    ensures !HasMessage(db.mailbox, messageId) ==> IdOfMessage(db.mailbox, messageId) == 0
  {
    IdOfMessageFound(db.mailbox, messageId);
  }

  /** Ids count up in the order letters are queued, so a greater id is a later letter. */
  ghost predicate IdsCountUp(sent: seq<MailRow>, nextId: nat) {
    && (forall i, j :: 0 <= i < j < |sent| ==> sent[i].id < sent[j].id)
    && (forall r :: r in sent ==> r.id < nextId)
  }

  lemma NextIdGrows(cfg: Config, s: State, e: Event, now: int)
    requires cfg.Ok()
    ensures s.db.nextId <= Step(cfg, s, e, now).state.db.nextId
    ensures e.Send? && Enqueued(NewRow(s.db.nextId, e.letter)) in Step(cfg, s, e, now).outputs ==>
      s.db.nextId < Step(cfg, s, e, now).state.db.nextId
  {
    hide Acknowledge, MarkRead, RecordDecryptionFailure, Remember, Replayed, SweepFailures, SweepDispatches, ArmAll;
    if e.Ack? {
      AckKeepsNextId(s.db, e.userId, e.messageId, e.mailboxId);
    } else if e.ReadReceipt? || e.DecryptionError? {
      ReportsKeepNextId(s.db, e);
    }
  }

  lemma AckKeepsNextId(db: Db, userId: string, messageId: string, mailboxId: nat)
    ensures Acknowledge(db, userId, messageId, mailboxId).nextId == db.nextId
  {
  }

  lemma ReportsKeepNextId(db: Db, e: Event)
    ensures e.ReadReceipt? ==> MarkRead(db, e.userId, e.messageId).nextId == db.nextId
    ensures e.DecryptionError? ==> RecordDecryptionFailure(db, e.userId, e.messageId, e.senderId).nextId == db.nextId
  {
  }

  /** A step queues the letter sent under the next id, or nothing. */
  lemma StepQueues(cfg: Config, s: State, e: Event, now: int)
    requires cfg.Ok()
    ensures var more := Step(cfg, s, e, now).outputs;
      if e.Send? && Enqueued(NewRow(s.db.nextId, e.letter)) in more then Sent(more) == [NewRow(s.db.nextId, e.letter)]
      else Sent(more) == []
  {
    var more := Step(cfg, s, e, now).outputs;
    if e.Send? {
      var row := NewRow(s.db.nextId, e.letter);
      if Enqueued(row) in more {
        SentOfSend(more, row);
      } else {
        SentNothing(more);
      }
    } else {
      if !e.Ack? {
        StepKeepsRows(cfg, s, e, now);
      }
      SentNothing(more);
    }
  }

  lemma StepCountsUp(cfg: Config, s: State, e: Event, now: int, outputs: seq<Output>)
    requires cfg.Ok() && IdsCountUp(Sent(outputs), s.db.nextId)
    ensures var after := Step(cfg, s, e, now); IdsCountUp(Sent(outputs + after.outputs), after.state.db.nextId)
  {
    hide Step, Sent;
    var after := Step(cfg, s, e, now);
    SentConcat(outputs, after.outputs);
    StepQueues(cfg, s, e, now);
    NextIdGrows(cfg, s, e, now);
  }

  /** MAIN: over every run, the ids of the letters queued count up in the order they were queued. */
  lemma {:induction false} IdsFollowSendOrder(cfg: Config, users: set<string>, events: seq<Timed>)
    requires cfg.Ok()
    ensures var run := Run(cfg, Initial(users), events); IdsCountUp(Sent(run.outputs), run.state.db.nextId)
    decreases |events|
  {
    hide IdsCountUp, Step;
    if events == [] {
      NothingCounts(users);
    } else {
      var n := |events| - 1;
      IdsFollowSendOrder(cfg, users, events[..n]);
      var before := Run(cfg, Initial(users), events[..n]);
      StepCountsUp(cfg, before.state, events[n].event, events[n].now, before.outputs);
    }
  }

  lemma NothingCounts(users: set<string>)
    ensures IdsCountUp(Sent([]), Initial(users).db.nextId)
  {
  }

  /** No pending row of the user is as old as the row of the message resumed from. */
  predicate NothingOlder(db: Db, userId: string, lastAcked: string) {
    forall r, k :: r in db.mailbox && IsPendingFor(userId)(r) && k in db.mailbox && k.messageId == lastAcked ==>
      r.id > k.id
  }

  /** Resuming hands over everything the user is owed (up to the limit) exactly when none of their pending
      rows is as old as the row of the message resumed from. */
  lemma ResumeSkipsIff(db: Db, userId: string, lastAcked: string, limit: nat)
    requires TablesOk(db) && limit > 0
    ensures PendingSince(db, userId, lastAcked, limit) == Pending(db, userId, limit)
      <==> (lastAcked == "" || NothingOlder(db, userId, lastAcked))
  {
    IdOfMessageFound(db.mailbox, lastAcked);
    if lastAcked != "" && HasMessage(db.mailbox, lastAcked) {
      var k :| k in db.mailbox && k.messageId == lastAcked && k.id == IdOfMessage(db.mailbox, lastAcked);
      if NothingOlder(db, userId, lastAcked) {
        FilterAgree(db.mailbox, IsPendingFor(userId), IsPendingAfter(userId, k.id));
      } else {
        var r, j :| r in db.mailbox && IsPendingFor(userId)(r) && j in db.mailbox && j.messageId == lastAcked
                    && r.id <= j.id;
        RowsUnique(db, j, k);
        ResumeSkips(db, userId, r, k.id, limit);
      }
    }
  }

  lemma ResumeSkips(db: Db, userId: string, r: MailRow, afterId: nat, limit: nat)
    requires TablesOk(db) && limit > 0 && r in db.mailbox && IsPendingFor(userId)(r) && r.id <= afterId
    ensures Take(Filter(db.mailbox, IsPendingAfter(userId, afterId)), limit) != Pending(db, userId, limit)
  {
    var pending, later := IsPendingFor(userId), IsPendingAfter(userId, afterId);
    FilterIn(db.mailbox, pending, r);
    FilterFirst(db, pending, r);
    QueryRows(db, later, limit);
    var first := Pending(db, userId, limit)[0];
    assert first.id <= afterId && !later(first);
  }

  lemma FilterFirst(db: Db, p: MailRow -> bool, r: MailRow)
    requires TablesOk(db) && r in Filter(db.mailbox, p)
    ensures Filter(db.mailbox, p)[0].id <= r.id
  {
    QueryRows(db, p, |db.mailbox|);
  }

  /** MAIN: resuming from a message that really was acknowledged skips nothing. */
  lemma ResumeAfterAckSkipsNothing(cfg: Config, s: State, userId: string, lastAcked: string, limit: nat)
    requires Agreement(cfg, s) && AlreadyDelivered(s.db, lastAcked) && limit > 0
    ensures PendingSince(s.db, userId, lastAcked, limit) == Pending(s.db, userId, limit)
  {
    MessageHasRecord(s.db, lastAcked, cfg.maxRetries);
    ResumeSkipsIff(s.db, userId, lastAcked, limit);
  }
}
