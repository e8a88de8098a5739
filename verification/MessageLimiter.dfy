/** The sliding-window limiter on room messages: at most five per two seconds and socket, where rejected
    attempts count too. */
module MessageLimiter {
  import opened Sequences

  const MESSAGE_LIMIT := 5
  const MESSAGE_WINDOW_MS := 2000

  datatype Event = Attempt(socket: string, at: int) | Leave(socket: string)

  type Timestamps = map<string, seq<int>>

  function Within(now: int): int -> bool {
    t => now - t < MESSAGE_WINDOW_MS
  }

  function Kept(m: Timestamps, socket: string): seq<int> {
    if socket in m then m[socket] else []
  }

  function Recent(m: Timestamps, socket: string, now: int): seq<int> {
    Filter(Kept(m, socket), Within(now)) + [now]
  }

  predicate Accepts(m: Timestamps, socket: string, now: int) {
    |Recent(m, socket, now)| <= MESSAGE_LIMIT
  }

  function Step(m: Timestamps, e: Event): Timestamps {
    match e
    case Attempt(x, at) => m[x := Recent(m, x, at)]
    case Leave(x) => m - {x}
  }

  /** The state after a run, read from its end. */
  function Run(es: seq<Event>): Timestamps {
    if es == [] then map[] else Step(Run(es[..|es| - 1]), es[|es| - 1])
  }

  class RateLimiter {
    var messageTimestamps: Timestamps

    constructor ()
      ensures messageTimestamps == map[]
    {
      messageTimestamps := map[];
    }

    method Allow(socketId: string, now: int) returns (accepted: bool)
      modifies this
      ensures messageTimestamps == Step(old(messageTimestamps), Attempt(socketId, now))
      ensures accepted == Accepts(old(messageTimestamps), socketId, now)
    {
      var timestamps := if socketId in messageTimestamps then messageTimestamps[socketId] else [];
      var recent := [];
      for i := 0 to |timestamps|
        invariant messageTimestamps == old(messageTimestamps)
        invariant recent == Filter(timestamps[..i], Within(now))
      {
        assert timestamps[..i + 1] == timestamps[..i] + [timestamps[i]];
        FilterSnoc(timestamps[..i], timestamps[i], Within(now));
        if now - timestamps[i] < MESSAGE_WINDOW_MS {
          recent := recent + [timestamps[i]];
        }
      }
      assert timestamps[..|timestamps|] == timestamps;
      recent := recent + [now];
      messageTimestamps := messageTimestamps[socketId := recent];
      accepted := |recent| <= MESSAGE_LIMIT;
    }

    method Disconnect(socketId: string)
      modifies this
      ensures messageTimestamps == Step(old(messageTimestamps), Leave(socketId))
    {
      messageTimestamps := messageTimestamps - {socketId};
    }
  }

  // ---------------------------------------------------------------------------
  // One connection's attempts
  // ---------------------------------------------------------------------------

  /** All attempts of a socket, accepted or not, and the accepted ones. */
  function Attempts(es: seq<Event>, x: string): seq<int> {
    if es == [] then []
    else
      var e := es[|es| - 1];
      Attempts(es[..|es| - 1], x) + if e.Attempt? && e.socket == x then [e.at] else []
  }

  function Accepted(es: seq<Event>, x: string): seq<int> {
    if es == [] then []
    else
      var before, e := es[..|es| - 1], es[|es| - 1];
      Accepted(before, x) + if e.Attempt? && e.socket == x && Accepts(Run(before), x, e.at) then [e.at] else []
  }

  predicate IsAttempt(e: Event, x: string) {
    e.Attempt? && e.socket == x
  }

  lemma AttemptsSnoc(es: seq<Event>, e: Event, x: string)
    ensures IsAttempt(e, x) ==> Attempts(es + [e], x) == Attempts(es, x) + [e.at]
    ensures !IsAttempt(e, x) ==> Attempts(es + [e], x) == Attempts(es, x)
    ensures IsAttempt(e, x) && Accepts(Run(es), x, e.at) ==> Accepted(es + [e], x) == Accepted(es, x) + [e.at]
    ensures !(IsAttempt(e, x) && Accepts(Run(es), x, e.at)) ==> Accepted(es + [e], x) == Accepted(es, x)
    ensures Run(es + [e]) == Step(Run(es), e)
  {
    hide Step, Accepts;
    assert (es + [e])[..|es|] == es && (es + [e])[|es|] == e;
  }

  /** A run as one socket sees it: the clock does not go back between its attempts, and once it has left it
      attempts nothing more, as a socket id is never given out again. */
  ghost predicate Connected(es: seq<Event>, x: string) {
    && (forall i, j :: 0 <= i < j < |es| && es[i] == Leave(x) ==> !IsAttempt(es[j], x))
    && Pairwise(Attempts(es, x), (t, u) => t <= u)
  }

  lemma ConnectedBefore(es: seq<Event>, e: Event, x: string)
    requires Connected(es + [e], x)
    ensures Connected(es, x)
    ensures IsAttempt(e, x) ==> Leave(x) !in es && forall t :: t in Attempts(es, x) ==> t <= e.at
  {
    AttemptsSnoc(es, e, x);
    var more, all, init := es + [e], Attempts(es + [e], x), Attempts(es, x);
    forall i, j | 0 <= i < j < |init| ensures init[i] <= init[j] {
      assert all[i] <= all[j];
    }
    forall i, j | 0 <= i < j < |es| && es[i] == Leave(x) ensures !IsAttempt(es[j], x) {
      assert more[i] == es[i] && more[j] == es[j];
    }
    if IsAttempt(e, x) {
      forall i | 0 <= i < |es| ensures es[i] != Leave(x) {
        assert more[i] == es[i] && more[|es|] == e;
      }
      forall t | t in init ensures t <= e.at {
        var i :| 0 <= i < |init| && init[i] == t;
        assert all[i] <= all[|init|];
      }
    }
  }

  lemma KeptAfter(m: Timestamps, e: Event, x: string)
    ensures IsAttempt(e, x) ==> Kept(Step(m, e), x) == Filter(Kept(m, x), Within(e.at)) + [e.at]
    ensures !IsAttempt(e, x) ==> Kept(Step(m, e), x) == if e == Leave(x) then [] else Kept(m, x)
  {
  }

  /** The attempts that bear on a socket's next one: none after it has left. */
  function Relevant(es: seq<Event>, x: string): seq<int> {
    if Leave(x) in es then [] else Attempts(es, x)
  }

  /** MAIN: the list kept for a socket is its whole history restricted to the window of any later moment, and
      nothing once it has left. */
  lemma {:induction false} KeptIsHistory(es: seq<Event>, x: string, now: int)
    requires Connected(es, x) && forall t :: t in Attempts(es, x) ==> t <= now
    ensures Filter(Kept(Run(es), x), Within(now)) == Filter(Relevant(es, x), Within(now))
    decreases |es|
  {
    hide Step, Kept, Connected, Attempts, Run, Accepted, Accepts;
    if es == [] {
      NothingKept(x);
    } else {
      var before, e := es[..|es| - 1], es[|es| - 1];
      assert es == before + [e];
      assert Leave(x) in es <==> Leave(x) in before || e == Leave(x);
      ConnectedBefore(before, e, x);
      AttemptsSnoc(before, e, x);
      KeptAfter(Run(before), e, x);
      if IsAttempt(e, x) {
        assert Attempts(es, x)[|Attempts(before, x)|] == e.at;
        assert e.at in Attempts(es, x);
        KeptIsHistory(before, x, e.at);
        var history := Attempts(before, x);
        FilterSnoc(Filter(history, Within(e.at)), e.at, Within(now));
        FilterTwice(history, Within(e.at), Within(now), Within(now));
        FilterSnoc(history, e.at, Within(now));
      } else {
        KeptIsHistory(before, x, now);
      }
    }
  }

  lemma NothingKept(x: string)
    ensures Run([]) == map[] && Kept(Run([]), x) == [] == Attempts([], x) && Accepted([], x) == []
  {
  }

  /** MAIN: an attempt is accepted exactly when, itself included, the last two seconds hold at most five. */
  lemma AcceptsIff(es: seq<Event>, x: string, now: int)
    requires Connected(es + [Attempt(x, now)], x)
    ensures Accepts(Run(es), x, now) <==> Count(Attempts(es, x), t => now - t < 2000) < 5
  {
    ConnectedBefore(es, Attempt(x, now), x);
    FilterAgree(Attempts(es, x), Within(now), t => now - t < 2000);
    hide Connected, Attempts, Run;
    KeptIsHistory(es, x, now);
  }

  function InWindow(from: int): int -> bool {
    t => from <= t < from + 2000
  }

  lemma {:induction false} AcceptedAreAttempts(es: seq<Event>, x: string, p: int -> bool, q: int -> bool)
    requires forall t :: t in Attempts(es, x) && p(t) ==> q(t)
    ensures Count(Accepted(es, x), p) <= Count(Attempts(es, x), q)
    decreases |es|
  {
    hide Attempts, Run, Accepted, Accepts;
    if es == [] {
      NothingKept(x);
    } else {
      var before, e := es[..|es| - 1], es[|es| - 1];
      assert es == before + [e];
      AttemptsSnoc(before, e, x);
      AcceptedAreAttempts(before, x, p, q);
      if IsAttempt(e, x) {
        assert Attempts(es, x)[|Attempts(before, x)|] == e.at;
        FilterSnoc(Attempts(before, x), e.at, q);
        FilterSnoc(Accepted(before, x), e.at, p);
      }
    }
  }

  /** MAIN: any half-open window of two seconds holds at most five accepted messages of a socket, whenever it
      leaves. */
  lemma {:induction false} AtMostFivePerWindow(es: seq<Event>, x: string, from: int)
    requires Connected(es, x)
    ensures Count(Accepted(es, x), InWindow(from)) <= 5
    decreases |es|
  {
    hide Attempts, Run, Accepted, Accepts, Connected;
    if es == [] {
      NothingKept(x);
    } else {
      var before, e := es[..|es| - 1], es[|es| - 1];
      assert es == before + [e];
      ConnectedBefore(before, e, x);
      AttemptsSnoc(before, e, x);
      AtMostFivePerWindow(before, x, from);
      if IsAttempt(e, x) && Accepts(Run(before), x, e.at) {
        FilterSnoc(Accepted(before, x), e.at, InWindow(from));
        if InWindow(from)(e.at) {
          assert e == Attempt(x, e.at);
          AcceptsIff(before, x, e.at);
          AcceptedAreAttempts(before, x, InWindow(from), t => e.at - t < 2000);
        }
      }
    }
  }
}
