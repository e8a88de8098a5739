/** The cache of recently delivered ids is only a shortcut; and what goes wrong without conformance. */
module DeliveryCache {
  import opened Sequences
  import opened MailboxTables
  import opened DeliveryProtocol
  import opened DeliveryInvariant
  import opened DeliveryHistory

  /** The same server with the cache emptied before every event. */
  function RunUncached(cfg: Config, s: State, events: seq<Timed>): Effect
    requires cfg.Ok()
  {
    if events == [] then Effect(s, [])
    else
      var n := |events| - 1;
      var before := RunUncached(cfg, s, events[..n]);
      var last := Step(cfg, before.state.(recent := []), events[n].event, events[n].now);
      Effect(last.state, before.outputs + last.outputs)
  }

  /** A cache hit suppresses only what the delivery record would have suppressed. */
  lemma CacheHitIsRecordHit(cfg: Config, s: State, recent: seq<string>, e: Event, now: int)
    requires cfg.Ok() && CacheSound(s.db, s.recent)
    ensures var cached := Step(cfg, s, e, now); var uncached := Step(cfg, s.(recent := []), e, now);
      && cached.state.db == uncached.state.db
      && cached.state.timers == uncached.state.timers
      && cached.outputs == uncached.outputs
  {
    hide Replayed, DispatchAll, FailAll, SweepFailures, SweepDispatches, ArmAll, ScheduleRetry, MarkFailed, Acknowledge,
         AckSucceeds, MarkRead, RecordDecryptionFailure, QueueMessage, QueueOutcomeOf, Map, Remember, RetryDelay;
  }

  /** MAIN: over a conforming run, a server with the cache and one without it keep the same tables, arm the
      same timers and say the same things. */
  lemma {:induction false} CacheIsTransparent(cfg: Config, users: set<string>, events: seq<Timed>)
    requires cfg.Ok() && ConformingRun(cfg, Initial(users), events)
    ensures var cached := Run(cfg, Initial(users), events); var uncached := RunUncached(cfg, Initial(users), events);
      && cached.state.db == uncached.state.db
      && cached.state.timers == uncached.state.timers
      && cached.outputs == uncached.outputs
    decreases |events|
  {
    if events != [] {
      var n := |events| - 1;
      InitialAgreement(cfg, users);
      ConformingPrefix(cfg, Initial(users), events, n);
      CacheIsTransparent(cfg, users, events[..n]);
      AgreementHolds(cfg, Initial(users), events[..n]);
      var cached := Run(cfg, Initial(users), events[..n]).state;
      var uncached := RunUncached(cfg, Initial(users), events[..n]).state;
      CacheHitIsRecordHit(cfg, cached, [], events[n].event, events[n].now);
      assert cached.(recent := []) == uncached.(recent := []);
    }
  }

  // ---------------------------------------------------------------------------
  // A recipient that does not conform
  // ---------------------------------------------------------------------------

  const LETTER := Letter("m", "bob", "ann", "Ann", "...")

  function LateReport(): seq<Timed> {
    [Timed(Send(LETTER, false), 0),
     Timed(Ack("bob", "m", 1), 1),
     Timed(DecryptionError("bob", "m", "ann"), 2),
     Timed(Restart, 3),
     Timed(Send(LETTER, false), 4)]
  }

  /** The state after the first `k` events of the late report. */
  function LateState(k: nat): State {
    var d := Delivery("ann", "bob", Queued, 0, Some(0));
    var users := {"ann", "bob"};
    if k == 0 then Initial(users)
    else if k == 1 then State(Db(users, 2, [NewRow(1, LETTER)], map["m" := d]), map[], [])
    else if k == 2 then
      State(Db(users, 2, [], map["m" := d.(status := Acknowledged, nextRetryAt := None)]), map[], ["m"])
    else if k == 3 then
      State(Db(users, 2, [], map["m" := d.(status := DecryptionFailed, nextRetryAt := None)]), map[], ["m"])
    else if k == 4 then
      State(Db(users, 2, [], map["m" := d.(status := DecryptionFailed, nextRetryAt := None)]), map[], [])
    else State(Db(users, 3, [NewRow(2, LETTER)], map["m" := d.(nextRetryAt := Some(4))]), map[], [])
  }

  function LateOutputs(k: nat): seq<Output> {
    if k == 0 then [Enqueued(NewRow(1, LETTER))]
    else if k == 1 then [Acked("m", "bob", 1)]
    else if k == 4 then [Enqueued(NewRow(2, LETTER))]
    else []
  }

  lemma LateSends(cfg: Config, k: nat)
    requires cfg.Ok() && (k == 0 || k == 4)
    ensures Step(cfg, LateState(k), LateReport()[k].event, LateReport()[k].now)
         == Effect(LateState(k + 1), LateOutputs(k))
  {
    assert !HasMessage(LateState(k).db.mailbox, "m");
  }

  lemma LateAck(cfg: Config)
    requires cfg.Ok()
    ensures Step(cfg, LateState(1), LateReport()[1].event, LateReport()[1].now)
         == Effect(LateState(2), LateOutputs(1))
  {
    assert AckSender(LateState(1).db, "m", 1) == "ann";
    FilterNone([NewRow(1, LETTER)], NotNamed("bob", "m", 1));
  }

  lemma LateStep(cfg: Config, k: nat)
    requires cfg.Ok() && k < 5
    ensures Step(cfg, LateState(k), LateReport()[k].event, LateReport()[k].now)
         == Effect(LateState(k + 1), LateOutputs(k))
  {
    hide Step, LateState, LateReport, LateOutputs;
    if k == 0 || k == 4 {
      LateSends(cfg, k);
    } else if k == 1 {
      LateAck(cfg);
    } else {
      LateQuiet(cfg, k);
    }
  }

  lemma LateQuiet(cfg: Config, k: nat)
    requires cfg.Ok() && (k == 2 || k == 3)
    ensures Step(cfg, LateState(k), LateReport()[k].event, LateReport()[k].now)
         == Effect(LateState(k + 1), LateOutputs(k))
  {
    hide SendStep, AckStep, SweepStep, ReplayStep, TimeoutStep;
  }

  lemma RunOneMore(cfg: Config, s: State, events: seq<Timed>, k: nat)
    requires cfg.Ok() && k < |events|
    ensures var before := Run(cfg, s, events[..k]); var last := Step(cfg, before.state, events[k].event, events[k].now);
      Run(cfg, s, events[..k + 1]) == Effect(last.state, before.outputs + last.outputs)
  {
    assert events[..k + 1][..k] == events[..k];
  }

  /** What the first `k` events of the late report leave behind and put out. */
  lemma {:induction false} LateRun(cfg: Config, k: nat)
    requires cfg.Ok() && k <= 5
    ensures var run := Run(cfg, Initial({"ann", "bob"}), LateReport()[..k]);
      && run.state == LateState(k)
      && Sent(run.outputs)
         == if k == 0 then [] else if k < 5 then [NewRow(1, LETTER)] else [NewRow(1, LETTER), NewRow(2, LETTER)]
  {
    if k > 0 {
      var start, events := Initial({"ann", "bob"}), LateReport();
      LateRun(cfg, k - 1);
      RunOneMore(cfg, start, events, k - 1);
      hide Run, Step;
      LateStep(cfg, k - 1);
      SentConcat(Run(cfg, start, events[..k - 1]).outputs, LateOutputs(k - 1));
    }
  }

  /** Reporting a message as undecryptable after acknowledging it undoes the acknowledgement: once the
      cache no longer holds the id, a resend enters the mailbox a second time. */
  lemma LateReportRequeues(cfg: Config)
    requires cfg.Ok()
    ensures var run := Run(cfg, Initial({"ann", "bob"}), LateReport());
      && |Sent(run.outputs)| == 2 && Sent(run.outputs)[0].messageId == Sent(run.outputs)[1].messageId
      && HasMessage(run.state.db.mailbox, "m")
  {
    LateRun(cfg, 5);
    assert LateReport()[..5] == LateReport();
    hide Run;
    assert NewRow(2, LETTER) in LateState(5).db.mailbox;
  }
}
