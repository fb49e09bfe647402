/** The circuit breaker (pkg/resilience/resilience.go:51-155) against its own history. */
module CircuitBreaker {

  datatype Mode = Closed | Open | HalfOpen

  datatype Breaker = Breaker(mode: Mode, failures: int, successes: int, lastFailure: int)

  datatype Settings = Settings(failureThreshold: int, successThreshold: int, resetTimeout: int)

  const INITIAL := Breaker(Closed, 0, 0, 0)

  /** The three entry points, with the clock reading each of them would take. */
  datatype Event = Allow(now: int) | Success | Failure(now: int)

  function Step(c: Settings, b: Breaker, e: Event): Breaker {
    if c.failureThreshold <= 0 then b
    else match e
      case Allow(now) =>
        if b.mode.Open? && now - b.lastFailure >= c.resetTimeout then b.(mode := HalfOpen, failures := 0, successes := 0) else b
      case Success =>
        if b.mode.HalfOpen? then
          if b.successes + 1 >= c.successThreshold then b.(mode := Closed, failures := 0, successes := 0)
          else b.(failures := 0, successes := b.successes + 1)
        else b.(failures := 0)
      case Failure(now) =>
        match b.mode
        case Closed => b.(lastFailure := now, failures := b.failures + 1,
                          mode := if b.failures + 1 >= c.failureThreshold then Open else Closed)
        case HalfOpen => b.(lastFailure := now, failures := b.failures + 1, mode := Open)
        case Open => b.(lastFailure := now)
  }

  predicate Permits(c: Settings, b: Breaker, now: int) {
    c.failureThreshold <= 0 || !b.mode.Open? || now - b.lastFailure >= c.resetTimeout
  }

  function Run(c: Settings, trace: seq<Event>): Breaker {
    if trace == [] then INITIAL else Step(c, Run(c, trace[..|trace| - 1]), trace[|trace| - 1])
  }

  // ----- the code -----

  class CircuitBreaker {
    const settings: Settings
    var mode: Mode
    var failureCount: int
    var successCount: int
    var lastFailureTime: int

    ghost function State(): Breaker
      reads this
    {
      Breaker(mode, failureCount, successCount, lastFailureTime)
    }

    constructor (settings: Settings)
      ensures State() == INITIAL && this.settings == settings
    {
      this.settings := settings;
      mode, failureCount, successCount, lastFailureTime := Closed, 0, 0, 0;
    }

    method Allow(now: int) returns (ok: bool)
      modifies this
      ensures ok == Permits(settings, old(State()), now)
      ensures State() == Step(settings, old(State()), Event.Allow(now))
    {
      if settings.failureThreshold <= 0 {
        return true;
      }
      match mode {
        case Closed => return true;
        case Open =>
          if now - lastFailureTime >= settings.resetTimeout {
            mode, failureCount, successCount := HalfOpen, 0, 0;
            return true;
          }
          return false;
        case HalfOpen => return true;
      }
    }

    method RecordSuccess()
      modifies this
      ensures State() == Step(settings, old(State()), Success)
    {
      if settings.failureThreshold <= 0 {
        return;
      }
      failureCount := 0;
      if mode == HalfOpen {
        successCount := successCount + 1;
        if successCount >= settings.successThreshold {
          mode, successCount := Closed, 0;
        }
      }
    }

    method RecordFailure(now: int)
      modifies this
      ensures State() == Step(settings, old(State()), Failure(now))
    {
      if settings.failureThreshold <= 0 {
        return;
      }
      lastFailureTime := now;
      match mode {
        case Closed =>
          failureCount := failureCount + 1;
          if failureCount >= settings.failureThreshold {
            mode := Open;
          }
        case HalfOpen =>
          mode := Open;
          failureCount := failureCount + 1;
        case Open =>
      }
    }
  }

  // ----- the history, read backwards and without the breaker's counters -----

  function Last(trace: seq<Event>): Event
    requires trace != []
  {
    trace[|trace| - 1]
  }

  function Front(trace: seq<Event>): seq<Event>
    requires trace != []
  {
    trace[..|trace| - 1]
  }

  /** Failures recorded since the last success, or since the beginning. */
  function FailuresSinceSuccess(trace: seq<Event>): nat {
    if trace == [] || Last(trace).Success? then 0
    else FailuresSinceSuccess(Front(trace)) + if Last(trace).Failure? then 1 else 0
  }

  predicate SawFailure(trace: seq<Event>) {
    trace != [] && (Last(trace).Failure? || SawFailure(Front(trace)))
  }

  function LatestFailure(trace: seq<Event>): int
    requires SawFailure(trace)
  {
    match Last(trace)
    case Failure(now) => now
    case _ => LatestFailure(Front(trace))
  }

  function Successes(trace: seq<Event>): nat {
    if trace == [] then 0 else Successes(Front(trace)) + if Last(trace).Success? then 1 else 0
  }

  predicate NoFailure(trace: seq<Event>) {
    forall i :: 0 <= i < |trace| ==> !trace[i].Failure?
  }

  /** The trace ends in a half-open episode of `n` events: an Allow that found the breaker open long enough,
      then nothing but permitted traffic. */
  ghost predicate EndsInEpisode(c: Settings, trace: seq<Event>, n: nat) {
    && n < |trace|
    && var k := |trace| - n - 1;
       && trace[k].Allow?
       && SawFailure(trace[..k]) && trace[k].now - LatestFailure(trace[..k]) >= c.resetTimeout
       && Run(c, trace[..k]).mode.Open?
       && NoFailure(trace[k + 1..])
  }

  /** What the breaker's fields mean. */
  ghost predicate Meaning(c: Settings, trace: seq<Event>, b: Breaker) {
    && (b.mode.Closed? ==> b.failures == FailuresSinceSuccess(trace) < c.failureThreshold)
    && (!b.mode.Closed? ==> SawFailure(trace) && b.lastFailure == LatestFailure(trace))
    && (b.mode.HalfOpen? ==> exists n :: Counted(c, trace, b.successes, n))
  }

  /** In an episode of `n` events so far, with that many successes and still not enough of them. */
  ghost predicate Counted(c: Settings, trace: seq<Event>, successes: int, n: nat) {
    && EndsInEpisode(c, trace, n) && successes == Successes(trace[|trace| - n..])
    && (successes < c.successThreshold || successes == 0)
  }

  lemma {:induction false} FieldsMeanHistory(c: Settings, trace: seq<Event>)
    requires c.failureThreshold > 0
    ensures Meaning(c, trace, Run(c, trace))
    decreases |trace|
  {
    if trace != [] {
      var front, e := Front(trace), Last(trace);
      FieldsMeanHistory(c, front);
      var b, b' := Run(c, front), Run(c, trace);
      if b'.mode.HalfOpen? {
        EpisodeGrows(c, trace);
      }
    }
  }

  lemma EpisodeGrows(c: Settings, trace: seq<Event>)
    requires c.failureThreshold > 0 && trace != [] && Run(c, trace).mode.HalfOpen?
    requires Meaning(c, Front(trace), Run(c, Front(trace)))
    ensures exists n :: Counted(c, trace, Run(c, trace).successes, n)
  {
    var b := Run(c, Front(trace));
    if b.mode.Open? {
      EpisodeStarts(c, trace);
    } else {
      var n :| Counted(c, Front(trace), b.successes, n);
      EpisodeContinues(c, trace, b, Run(c, trace), n);
    }
  }

  lemma EpisodeContinues(c: Settings, trace: seq<Event>, b: Breaker, b': Breaker, n: nat)
    requires c.failureThreshold > 0 && trace != [] && Counted(c, Front(trace), b.successes, n)
    requires b.mode.HalfOpen? && b' == Step(c, b, Last(trace)) && b'.mode.HalfOpen?
    ensures Counted(c, trace, b'.successes, n + 1)
  {
    EpisodeExtends(c, trace, n);
  }

  lemma EpisodeStarts(c: Settings, trace: seq<Event>)
    requires c.failureThreshold > 0 && trace != [] && Run(c, trace).mode.HalfOpen? && Run(c, Front(trace)).mode.Open?
    requires SawFailure(Front(trace)) && Run(c, Front(trace)).lastFailure == LatestFailure(Front(trace))
    ensures Counted(c, trace, Run(c, trace).successes, 0)
  {
    assert trace[|trace|..] == [];
  }

  lemma EpisodeExtends(c: Settings, trace: seq<Event>, n: nat)
    requires trace != [] && EndsInEpisode(c, Front(trace), n) && !Last(trace).Failure?
    ensures EndsInEpisode(c, trace, n + 1)
    ensures Successes(trace[|trace| - (n + 1)..])
            == Successes(Front(trace)[|Front(trace)| - n..]) + if Last(trace).Success? then 1 else 0
  {
    var front := Front(trace);
    var k := |front| - n - 1;
    assert trace[..k] == front[..k];
    var ep := trace[k + 1..];
    assert Front(ep) == front[k + 1..] && Last(ep) == Last(trace);
  }

  // ----- the promises -----

  /** A closed breaker opens exactly when the failureThreshold-th failure since the last success is recorded. */
  lemma OpensExactlyAtThreshold(c: Settings, trace: seq<Event>, e: Event)
    requires c.failureThreshold > 0 && Run(c, trace).mode.Closed?
    ensures !Run(c, trace + [e]).mode.Closed? <==> e.Failure? && FailuresSinceSuccess(trace + [e]) == c.failureThreshold
    ensures !Run(c, trace + [e]).mode.Closed? ==> Run(c, trace + [e]).mode.Open?
  {
    FieldsMeanHistory(c, trace);
    assert Front(trace + [e]) == trace && Last(trace + [e]) == e;
  }

  /** While it is open, a call is let through exactly when the reset timeout has passed since the latest
      recorded failure, and only that ends the open state. */
  lemma OpenWaitsForTimeout(c: Settings, trace: seq<Event>, now: int)
    requires c.failureThreshold > 0 && Run(c, trace).mode.Open?
    ensures SawFailure(trace)
    ensures Permits(c, Run(c, trace), now) <==> now - LatestFailure(trace) >= c.resetTimeout
    ensures Run(c, trace + [Allow(now)]).mode.HalfOpen? <==> Permits(c, Run(c, trace), now)
    ensures forall e: Event :: !e.Allow? ==> Run(c, trace + [e]).mode.Open?
  {
    FieldsMeanHistory(c, trace);
    assert Front(trace + [Allow(now)]) == trace;
    forall e: Event | !e.Allow? ensures Run(c, trace + [e]).mode.Open? {
      assert Front(trace + [e]) == trace;
    }
  }

  /** Only an open breaker refuses. */
  lemma OnlyOpenRefuses(c: Settings, trace: seq<Event>, now: int)
    requires !Run(c, trace).mode.Open?
    ensures Permits(c, Run(c, trace), now)
  {
  }

  /** The failure that ends the first `n` events opens the breaker, as the threshold is reached or the breaker was half
      open, and no call has been let through since. */
  ghost predicate OpenSince(c: Settings, trace: seq<Event>, n: nat) {
    && 0 < n <= |trace| && trace[n - 1].Failure?
    && (FailuresSinceSuccess(trace[..n]) >= c.failureThreshold || Run(c, trace[..n - 1]).mode.HalfOpen?)
    && (forall j :: n <= j < |trace| && trace[j].Allow? ==> TooEarly(c, trace[..j], trace[j].now))
  }

  /** The reset timeout has not passed since the latest failure. */
  ghost predicate TooEarly(c: Settings, trace: seq<Event>, now: int) {
    SawFailure(trace) && now - LatestFailure(trace) < c.resetTimeout
  }

  lemma OpenSinceGoesOn(c: Settings, trace: seq<Event>, n: nat)
    requires trace != [] && n < |trace| && OpenSince(c, Front(trace), n)
    requires Last(trace).Allow? ==> TooEarly(c, Front(trace), Last(trace).now)
    ensures OpenSince(c, trace, n)
  {
    var front := Front(trace);
    assert trace[..n] == front[..n] && trace[..n - 1] == front[..n - 1];
    forall j | n <= j < |trace| && trace[j].Allow? ensures TooEarly(c, trace[..j], trace[j].now) {
      if j < |front| {
        assert trace[..j] == front[..j] && trace[j] == front[j];
      }
    }
  }

  lemma OpenSinceBefore(c: Settings, trace: seq<Event>, n: nat)
    requires trace != [] && n < |trace| && OpenSince(c, trace, n)
    ensures OpenSince(c, Front(trace), n)
    ensures Last(trace).Allow? ==> TooEarly(c, Front(trace), Last(trace).now)
  {
    var front := Front(trace);
    assert trace[..n] == front[..n] && trace[..n - 1] == front[..n - 1];
    forall j | n <= j < |front| && front[j].Allow? ensures TooEarly(c, front[..j], front[j].now) {
      assert trace[..j] == front[..j] && trace[j] == front[j];
    }
    assert trace[..|trace| - 1] == front;
  }

  lemma {:induction false} OpenMeansOpenSince(c: Settings, trace: seq<Event>) returns (n: nat)
    requires c.failureThreshold > 0 && Run(c, trace).mode.Open?
    ensures OpenSince(c, trace, n)
    decreases |trace|
  {
    var front := Front(trace);
    FieldsMeanHistory(c, front);
    if Run(c, front).mode.Open? {
      n := OpenMeansOpenSince(c, front);
      OpenSinceGoesOn(c, trace, n);
    } else {
      n := |trace|;
      assert trace[..n] == trace;
    }
  }

  lemma {:induction false} OpenSinceMeansOpen(c: Settings, trace: seq<Event>, n: nat)
    requires c.failureThreshold > 0 && OpenSince(c, trace, n)
    ensures Run(c, trace).mode.Open?
    decreases |trace|
  {
    FieldsMeanHistory(c, Front(trace));
    if n < |trace| {
      OpenSinceBefore(c, trace, n);
      OpenSinceMeansOpen(c, Front(trace), n);
    } else {
      assert trace[..n] == trace;
    }
  }

  /** A call is refused exactly if some failure opened the breaker, no call has been let through since, and the reset
      timeout has not passed since the latest failure. */
  lemma RefusedExactly(c: Settings, trace: seq<Event>, now: int)
    requires c.failureThreshold > 0
    ensures !Permits(c, Run(c, trace), now) <==> (exists n :: OpenSince(c, trace, n)) && TooEarly(c, trace, now)
  {
    FieldsMeanHistory(c, trace);
    if Run(c, trace).mode.Open? {
      var n := OpenMeansOpenSince(c, trace);
    }
    if n :| OpenSince(c, trace, n) {
      OpenSinceMeansOpen(c, trace, n);
    }
  }

  /** A breaker that has never seen as many failures in a row as its threshold lets every call through. */
  lemma {:induction false} HealthyNeverRefuses(c: Settings, trace: seq<Event>, now: int)
    requires c.failureThreshold > 0
    requires forall n :: 0 <= n <= |trace| ==> FailuresSinceSuccess(trace[..n]) < c.failureThreshold
    ensures Run(c, trace).mode.Closed? && Permits(c, Run(c, trace), now)
    decreases |trace|
  {
    if trace != [] {
      var front := Front(trace);
      forall n | 0 <= n <= |front| ensures FailuresSinceSuccess(front[..n]) < c.failureThreshold {
        assert front[..n] == trace[..n];
      }
      HealthyNeverRefuses(c, front, now);
      FieldsMeanHistory(c, front);
      assert trace[..|trace|] == trace;
    }
  }

  function Max(a: int, b: int): int { if a >= b then a else b }

  /** It closes again only on a success that is the max(1, successThreshold)-th of one half-open episode in
      which no failure was recorded, and always on that one. */
  lemma ClosesAfterEnoughSuccesses(c: Settings, trace: seq<Event>, e: Event) returns (n: nat)
    requires c.failureThreshold > 0 && Run(c, trace).mode.HalfOpen?
    ensures EndsInEpisode(c, trace, n)
    ensures Run(c, trace + [e]).mode.Closed? <==>
            e.Success? && Successes(trace[|trace| - n..]) + 1 == Max(1, c.successThreshold)
    ensures Run(c, trace + [e]).mode.Open? <==> e.Failure?
  {
    FieldsMeanHistory(c, trace);
    var b := Run(c, trace);
    assert Front(trace + [e]) == trace && Last(trace + [e]) == e;
    n :| Counted(c, trace, b.successes, n);
  }

  /** Nothing else closes it. */
  lemma OpenNeverClosesDirectly(c: Settings, trace: seq<Event>, e: Event)
    requires c.failureThreshold > 0 && Run(c, trace + [e]).mode.Closed?
    ensures !Run(c, trace).mode.Open?
  {
    assert Front(trace + [e]) == trace && Last(trace + [e]) == e;
  }

  /** A threshold that is not positive switches the breaker off. */
  lemma {:induction false} DisabledNeverOpens(c: Settings, trace: seq<Event>, now: int)
    requires c.failureThreshold <= 0
    ensures Run(c, trace) == INITIAL && Permits(c, Run(c, trace), now)
    decreases |trace|
  {
    if trace != [] {
      DisabledNeverOpens(c, Front(trace), now);
    }
  }
}
