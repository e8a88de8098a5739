/** The response interceptor of the client: one refresh at a time, and requests that fail meanwhile wait for
    it. The asynchronous handler is cut where it awaits the refresh. */
module SingleFlight {
  import opened Sequences

  /** A waiting promise: the how-manieth it is, and the refresh it waits on (refreshes are numbered from 0). */
  datatype Waiter = Waiter(id: nat, refresh: nat)

  datatype Outcome = Token(token: Option<string>) | Failed(error: string)

  datatype Settlement = Settlement(waiter: Waiter, outcome: Outcome)

  datatype State = State(
    isRefreshing: bool,
    failedQueue: seq<Waiter>,
    retried: set<string>,
    waiters: nat,
    settled: seq<Settlement>,
    outcomes: seq<Outcome>,
    starters: seq<string>)

  const IDLE := State(false, [], {}, 0, [], [], [])

  datatype Event =
    | ErrorResponse(request: string, isRefreshUrl: bool, unauthorized: bool)
    | RefreshDone(outcome: Outcome)

  /** What becomes of the failed request itself. */
  datatype Reaction = Rejected | Queued(id: nat) | StartsRefresh

  function React(s: State, e: Event): Reaction
    requires e.ErrorResponse?
  {
    if e.isRefreshUrl then Rejected
    else if e.unauthorized && e.request !in s.retried then
      if s.isRefreshing then Queued(s.waiters) else StartsRefresh
    else Rejected
  }

  function SettleAll(queue: seq<Waiter>, outcome: Outcome): (r: seq<Settlement>)
    ensures |r| == |queue|
  {
    seq(|queue|, i requires 0 <= i < |queue| => Settlement(queue[i], outcome))
  }

  /** A refresh only ends while one is under way. */
  predicate Possible(s: State, e: Event) {
    e.RefreshDone? ==> s.isRefreshing
  }

  function Step(s: State, e: Event): State {
    match e
    case ErrorResponse(request, _, _) =>
      (match React(s, e)
       case Rejected => s
       case Queued(id) => s.(failedQueue := s.failedQueue + [Waiter(id, |s.outcomes|)], waiters := s.waiters + 1)
       case StartsRefresh =>
         s.(isRefreshing := true, retried := s.retried + {request}, starters := s.starters + [request]))
    case RefreshDone(outcome) =>
      s.(isRefreshing := false, failedQueue := [], settled := s.settled + SettleAll(s.failedQueue, outcome),
         outcomes := s.outcomes + [outcome])
  }

  function Run(s: State, es: seq<Event>): State
    decreases |es|
  {
    if es == [] then s else Run(Step(s, es[0]), es[1..])
  }

  predicate PossibleRun(s: State, es: seq<Event>)
    decreases |es|
  {
    es == [] || (Possible(s, es[0]) && PossibleRun(Step(s, es[0]), es[1..]))
  }

  // ---------------------------------------------------------------------------
  // The interceptor
  // ---------------------------------------------------------------------------

  class Interceptor {
    var isRefreshing: bool
    var failedQueue: seq<Waiter>
    var retried: set<string>
    ghost var waiters: nat
    ghost var settled: seq<Settlement>
    ghost var outcomes: seq<Outcome>
    ghost var starters: seq<string>

    ghost function Current(): State
      reads this
    {
      State(isRefreshing, failedQueue, retried, waiters, settled, outcomes, starters)
    }

    constructor ()
      ensures Current() == IDLE
    {
      isRefreshing := false;
      failedQueue := [];
      retried := {};
      waiters := 0;
      settled := [];
      outcomes := [];
      starters := [];
    }

    /** Resolves or rejects every waiting promise, first come first served, and empties the queue. */
    method ProcessQueue(outcome: Outcome)
      modifies this`failedQueue, this`settled
      ensures failedQueue == [] && settled == old(settled) + SettleAll(old(failedQueue), outcome)
    {
      ghost var before := settled;
      for i := 0 to |failedQueue|
        invariant failedQueue == old(failedQueue)
        invariant settled == before + SettleAll(failedQueue[..i], outcome)
      {
        assert SettleAll(failedQueue[..i + 1], outcome)
            == SettleAll(failedQueue[..i], outcome) + [Settlement(failedQueue[i], outcome)];
        settled := settled + [Settlement(failedQueue[i], outcome)];
      }
      assert failedQueue[..|failedQueue|] == failedQueue;
      failedQueue := [];
    }

    /** The handler up to the await. */
    method OnError(request: string, isRefreshUrl: bool, unauthorized: bool, waiter: nat, refresh: nat)
      returns (reaction: Reaction)
      requires waiter == waiters && refresh == |outcomes|
      modifies this
      ensures reaction == React(old(Current()), ErrorResponse(request, isRefreshUrl, unauthorized))
      ensures Current() == Step(old(Current()), ErrorResponse(request, isRefreshUrl, unauthorized))
    {
      if isRefreshUrl {
        return Rejected;
      }
      if unauthorized && request !in retried {
        if isRefreshing {
          failedQueue := failedQueue + [Waiter(waiter, refresh)];
          waiters := waiters + 1;
          return Queued(waiter);
        }
        retried := retried + {request};
        isRefreshing := true;
        starters := starters + [request];
        return StartsRefresh;
      }
      return Rejected;
    }

    /** The handler after the await, whichever way the refresh ended. */
    method OnRefreshed(outcome: Outcome)
      modifies this
      ensures Current() == Step(old(Current()), RefreshDone(outcome))
    {
      ProcessQueue(outcome);
      isRefreshing := false;
      outcomes := outcomes + [outcome];
    }
  }

  // ---------------------------------------------------------------------------
  // Properties
  // ---------------------------------------------------------------------------

  function Upto(n: nat): (r: seq<nat>)
    ensures |r| == n
  {
    seq(n, i requires 0 <= i < n => i)
  }

  function QueuedIds(queue: seq<Waiter>): (r: seq<nat>)
    ensures |r| == |queue|
  {
    seq(|queue|, i requires 0 <= i < |queue| => queue[i].id)
  }

  function SettledIds(settled: seq<Settlement>): (r: seq<nat>)
    ensures |r| == |settled|
  {
    seq(|settled|, i requires 0 <= i < |settled| => settled[i].waiter.id)
  }

  /** Refreshes under way: those begun less those ended. */
  function InFlight(s: State): int {
    |s.starters| - |s.outcomes|
  }

  ghost predicate Inv(s: State) {
    && InFlight(s) == (if s.isRefreshing then 1 else 0)
    && (s.failedQueue != [] ==> s.isRefreshing)
    && SettledIds(s.settled) + QueuedIds(s.failedQueue) == Upto(s.waiters)
    && (forall w :: w in s.failedQueue ==> w.refresh == |s.outcomes|)
    && (forall t :: t in s.settled ==> t.waiter.refresh < |s.outcomes| && t.outcome == s.outcomes[t.waiter.refresh])
    && (forall i, j :: 0 <= i < j < |s.starters| ==> s.starters[i] != s.starters[j])
    && (forall r :: r in s.starters <==> r in s.retried)
  }

  lemma QueueGrows(s: State)
    requires Inv(s)
    ensures SettledIds(s.settled) + QueuedIds(s.failedQueue + [Waiter(s.waiters, |s.outcomes|)]) == Upto(s.waiters + 1)
  {
    var w := Waiter(s.waiters, |s.outcomes|);
    assert QueuedIds(s.failedQueue + [w]) == QueuedIds(s.failedQueue) + [s.waiters];
    assert Upto(s.waiters + 1) == Upto(s.waiters) + [s.waiters];
    ConcatAssoc(SettledIds(s.settled), QueuedIds(s.failedQueue), [s.waiters]);
  }

  lemma QueueSettles(s: State, outcome: Outcome)
    ensures SettledIds(s.settled + SettleAll(s.failedQueue, outcome))
         == SettledIds(s.settled) + QueuedIds(s.failedQueue)
  {
  }

  lemma StepKeeps(s: State, e: Event)
    requires Inv(s) && Possible(s, e)
    ensures Inv(Step(s, e))
  {
    match e {
      case ErrorResponse(request, isRefreshUrl, unauthorized) =>
        if React(s, e).Queued? {
          QueueGrows(s);
        }
      case RefreshDone(outcome) =>
        DoneKeeps(s, outcome);
    }
  }

  lemma DoneKeeps(s: State, outcome: Outcome)
    requires Inv(s) && s.isRefreshing
    ensures Inv(Step(s, RefreshDone(outcome)))
  {
    QueueSettles(s, outcome);
    var t := Step(s, RefreshDone(outcome));
    assert QueuedIds(t.failedQueue) == [];
    assert SettledIds(t.settled) + [] == SettledIds(t.settled);
    forall r | r in t.settled ensures r.waiter.refresh < |t.outcomes| && r.outcome == t.outcomes[r.waiter.refresh] {
      if r !in s.settled {
        var i :| 0 <= i < |s.failedQueue| && r == Settlement(s.failedQueue[i], outcome);
        assert s.failedQueue[i] in s.failedQueue;
      }
    }
  }

  lemma {:induction false} RunKeeps(s: State, es: seq<Event>)
    requires Inv(s) && PossibleRun(s, es)
    ensures Inv(Run(s, es))
    decreases |es|
  {
    hide Inv, Step, Possible;
    if es != [] {
      StepKeeps(s, es[0]);
      RunKeeps(Step(s, es[0]), es[1..]);
    }
  }

  /** MAIN: in every run at most one refresh is under way, and only while one is does anything wait; promises are
      settled in the order they began to wait, each once, with the outcome of the very refresh they waited on;
      whenever no refresh is under way all of them are settled. */
  lemma EveryWaiterSettledOnce(es: seq<Event>)
    requires PossibleRun(IDLE, es)
    ensures var s := Run(IDLE, es);
      && 0 <= InFlight(s) <= 1
      && (s.failedQueue != [] ==> InFlight(s) == 1)
      && |s.settled| + |s.failedQueue| == s.waiters
      && (forall i :: 0 <= i < |s.settled| ==>
            s.settled[i].waiter.id == i && s.settled[i].waiter.refresh < |s.outcomes| &&
            s.settled[i].outcome == s.outcomes[s.settled[i].waiter.refresh])
      && (InFlight(s) == 0 ==> |s.settled| == s.waiters)
  {
    var s := Run(IDLE, es);
    assert Inv(IDLE);
    RunKeeps(IDLE, es);
    var ids := SettledIds(s.settled) + QueuedIds(s.failedQueue);
    assert |ids| == s.waiters;
    forall i | 0 <= i < |s.settled| ensures s.settled[i].waiter.id == i {
      assert ids[i] == Upto(s.waiters)[i];
    }
  }

  /** MAIN: one request starts at most one refresh, however often it is sent again and refused. */
  lemma OneRefreshPerRequest(es: seq<Event>, i: nat, j: nat)
    requires PossibleRun(IDLE, es) && i < |Run(IDLE, es).starters| && j < |Run(IDLE, es).starters|
    requires Run(IDLE, es).starters[i] == Run(IDLE, es).starters[j]
    ensures i == j
  {
    assert Inv(IDLE);
    RunKeeps(IDLE, es);
  }

  /** MAIN: in every run a request that was refused as unauthorized, that is not the refresh itself and that has not
      started a refresh before starts one when none is under way and waits when one is; every other failed
      request is rejected. */
  lemma ReactsExactly(es: seq<Event>, request: string, isRefreshUrl: bool, unauthorized: bool)
    requires PossibleRun(IDLE, es)
    ensures var s := Run(IDLE, es);
      var reaction := React(s, ErrorResponse(request, isRefreshUrl, unauthorized));
      var eligible := unauthorized && !isRefreshUrl && request !in s.starters;
      && (reaction == StartsRefresh <==> eligible && InFlight(s) == 0)
      && (reaction.Queued? <==> eligible && InFlight(s) == 1)
      && (reaction == Rejected <==> !eligible)
  {
    assert Inv(IDLE);
    RunKeeps(IDLE, es);
  }
}
