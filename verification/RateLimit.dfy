/** The two token buckets (internal/api/rate_limit.go:11-57, pkg/ratelimit/ratelimit.go:30-78), over exact
    reals and a clock in seconds that never goes back. */
module RateLimit {

  // ----- a bucket as a value -----

  /** A bucket's tokens, and its last refill on a clock that counts tokens instead of seconds: `credit` is
      the time of the refill times the rate, so that elapsed time times rate is a difference of credits. */
  datatype Pool = Pool(burst: int, tokens: real, credit: real)

  function Cap(x: real, burst: int): real { if x > burst as real then burst as real else x }

  function Refill(p: Pool, c: real): Pool { p.(tokens := Cap(p.tokens + (c - p.credit), p.burst), credit := c) }

  predicate Allowed(p: Pool, c: real) { Refill(p, c).tokens >= 1.0 }

  function AfterAllow(p: Pool, c: real): Pool {
    var r := Refill(p, c);
    if r.tokens >= 1.0 then r.(tokens := r.tokens - 1.0) else r
  }

  function Full(burst: int, c: real): Pool { Pool(burst, burst as real, c) }

  function After(p: Pool, cs: seq<real>): (r: Pool)
    ensures r.burst == p.burst
    decreases |cs|
  {
    if cs == [] then p else After(AfterAllow(p, cs[0]), cs[1..])
  }

  function Decisions(p: Pool, cs: seq<real>): (r: seq<bool>)
    ensures |r| == |cs|
    decreases |cs|
  {
    if cs == [] then [] else [Allowed(p, cs[0])] + Decisions(AfterAllow(p, cs[0]), cs[1..])
  }

  function Accepted(ds: seq<bool>): nat {
    if ds == [] then 0 else (if ds[0] then 1 else 0) + Accepted(ds[1..])
  }

  /** Readings that never go back, the first no earlier than `start`. */
  ghost predicate Rising(start: real, ts: seq<real>) {
    (ts != [] ==> start <= ts[0]) && forall i, j :: 0 <= i < j < |ts| ==> ts[i] <= ts[j]
  }

  /** Times in seconds as credits. */
  function Credits(rate: real, ts: seq<real>): (r: seq<real>)
    ensures |r| == |ts| && forall i :: 0 <= i < |ts| ==> r[i] == ts[i] * rate
  {
    seq(|ts|, i requires 0 <= i < |ts| => ts[i] * rate)
  }

  // ----- the code -----

  class TokenBucket {
    const rate: real
    const burst: int
    var tokens: real
    var lastRef: real

    ghost function State(): Pool
      reads this
    {
      Pool(burst, tokens, lastRef * rate)
    }

    constructor (rate: real, burst: int, now: real)
      ensures State() == Full(burst, now * rate) && this.rate == rate
    {
      this.rate, this.burst, tokens, lastRef := rate, burst, burst as real, now;
    }

    method DoRefill(now: real)
      modifies this
      ensures State() == Refill(old(State()), now * rate)
    {
      var elapsed := now - lastRef;
      Elapsed(lastRef, now, rate);
      lastRef := now;
      tokens := tokens + elapsed * rate;
      if tokens > burst as real {
        tokens := burst as real;
      }
    }

    method Allow(now: real) returns (ok: bool)
      modifies this
      ensures ok == Allowed(old(State()), now * rate) && State() == AfterAllow(old(State()), now * rate)
    {
      DoRefill(now);
      if tokens >= 1.0 {
        tokens := tokens - 1.0;
        return true;
      }
      return false;
    }

    method Remaining(now: real) returns (r: real)
      modifies this
      ensures State() == Refill(old(State()), now * rate) && r == State().tokens
    {
      DoRefill(now);
      return tokens;
    }
  }

  /** pkg/ratelimit: at least one token of burst, and no limit at all for a rate that is not positive. */
  class RateLimiter {
    const rate: real
    const burst: int
    var tokens: real
    var lastTime: real

    ghost function State(): Pool
      reads this
    {
      Pool(burst, tokens, lastTime * rate)
    }

    constructor (rate: real, burst: int, now: real)
      ensures State() == Full(if burst < 1 then 1 else burst, now * rate) && this.rate == rate
    {
      var b := if burst < 1 then 1 else burst;
      this.rate, this.burst, tokens, lastTime := rate, b, b as real, now;
    }

    method Allow(now: real) returns (ok: bool)
      modifies this
      ensures ok == (rate <= 0.0 || Allowed(old(State()), now * rate))
      ensures State() == if rate <= 0.0 then old(State()) else AfterAllow(old(State()), now * rate)
    {
      if rate <= 0.0 {
        return true;
      }
      var elapsed := now - lastTime;
      Elapsed(lastTime, now, rate);
      lastTime := now;
      tokens := tokens + elapsed * rate;
      if tokens > burst as real {
        tokens := burst as real;
      }
      assert State() == Refill(old(State()), now * rate);
      if tokens >= 1.0 {
        tokens := tokens - 1.0;
        return true;
      }
      return false;
    }
  }

  lemma Elapsed(t: real, u: real, rate: real)
    ensures (u - t) * rate == u * rate - t * rate
  {
  }

  lemma Monotone(x: real, y: real, rate: real)
    requires x <= y && rate >= 0.0
    ensures x * rate <= y * rate
  {
    assert (y - x) * rate >= 0.0;
    Elapsed(x, y, rate);
  }

  lemma CreditsRise(start: real, ts: seq<real>, rate: real)
    requires Rising(start, ts) && rate >= 0.0
    ensures Rising(start * rate, Credits(rate, ts))
  {
    if ts != [] {
      Monotone(start, ts[0], rate);
    }
    forall i, j | 0 <= i < j < |ts| ensures Credits(rate, ts)[i] <= Credits(rate, ts)[j] {
      Monotone(ts[i], ts[j], rate);
    }
  }

  // ----- the window bound -----

  /** Tokens are spent or kept: calls accepted, plus what is left, never exceed what was there plus what the
      elapsed time brought in. */
  lemma {:induction false} Conservation(p: Pool, cs: seq<real>)
    ensures After(p, cs).credit == if cs == [] then p.credit else cs[|cs| - 1]
    ensures Accepted(Decisions(p, cs)) as real + After(p, cs).tokens <= p.tokens + (After(p, cs).credit - p.credit)
    decreases |cs|
  {
    if cs != [] {
      assert Decisions(p, cs)[1..] == Decisions(AfterAllow(p, cs[0]), cs[1..]);
      Conservation(AfterAllow(p, cs[0]), cs[1..]);
    }
  }

  predicate InRange(p: Pool) { 0.0 <= p.tokens <= p.burst as real }

  lemma {:induction false} StaysInRange(p: Pool, cs: seq<real>)
    requires InRange(p) && Rising(p.credit, cs)
    ensures InRange(After(p, cs))
    decreases |cs|
  {
    if cs != [] {
      StaysInRange(AfterAllow(p, cs[0]), cs[1..]);
    }
  }

  /** From the first call of a window on, at most the burst and what flowed in since that call. */
  lemma WindowFromFirst(p: Pool, cs: seq<real>)
    requires InRange(p) && Rising(p.credit, cs) && cs != []
    ensures Accepted(Decisions(p, cs)) as real <= p.burst as real + (cs[|cs| - 1] - cs[0])
  {
    var now := Refill(p, cs[0]);
    assert Refill(now, cs[0]) == now;
    assert Decisions(now, cs) == Decisions(p, cs);
    Conservation(now, cs);
    StaysInRange(now, cs);
  }

  lemma {:induction false} DecisionsFrom(p: Pool, cs: seq<real>, i: nat)
    requires i <= |cs| && Rising(p.credit, cs)
    ensures Decisions(p, cs)[i..] == Decisions(After(p, cs[..i]), cs[i..])
    ensures Rising(After(p, cs[..i]).credit, cs[i..])
    decreases i
  {
    if i == 0 {
      assert cs[i..] == cs;
    } else {
      DecisionsFrom(AfterAllow(p, cs[0]), cs[1..], i - 1);
      assert cs[1..][..i - 1] == cs[..i][1..] && cs[1..][i - 1..] == cs[i..];
    }
  }

  lemma {:induction false} DecisionsUpTo(p: Pool, cs: seq<real>, j: nat)
    requires j <= |cs|
    ensures Decisions(p, cs)[..j] == Decisions(p, cs[..j])
    decreases j
  {
    if j > 0 {
      DecisionsUpTo(AfterAllow(p, cs[0]), cs[1..], j - 1);
      assert cs[1..][..j - 1] == cs[..j][1..];
    }
  }

  /** From call `i` on. */
  lemma PoolTail(p: Pool, cs: seq<real>, i: nat)
    requires InRange(p) && Rising(p.credit, cs) && i < |cs|
    ensures Accepted(Decisions(p, cs)[i..]) as real <= p.burst as real + (cs[|cs| - 1] - cs[i])
  {
    var before, rest := cs[..i], cs[i..];
    DecisionsFrom(p, cs, i);
    StaysInRange(p, before);
    var q := After(p, before);
    WindowFromFirst(q, rest);
    assert rest[|rest| - 1] == cs[|cs| - 1] && rest[0] == cs[i];
  }

  lemma PoolWindow(p: Pool, cs: seq<real>, i: nat, j: nat)
    requires InRange(p) && Rising(p.credit, cs) && i < j <= |cs|
    ensures Accepted(Decisions(p, cs)[i..j]) as real <= p.burst as real + (cs[j - 1] - cs[i])
  {
    var window := cs[..j];
    DecisionsUpTo(p, cs, j);
    PoolTail(p, window, i);
    var all := Decisions(p, cs);
    assert all[i..j] == all[..j][i..];
  }

  /** In any run of calls, those that fall into a window [s, t] get at most burst + rate * (t - s) through. */
  lemma WindowBound(rate: real, burst: int, start: real, ts: seq<real>, i: nat, j: nat, s: real, t: real)
    requires rate >= 0.0 && burst >= 0 && Rising(start, ts)
    requires i <= j <= |ts| && s <= t && forall k :: i <= k < j ==> s <= ts[k] <= t
    ensures Accepted(Decisions(Full(burst, start * rate), Credits(rate, ts))[i..j]) as real <= burst as real + (t - s) * rate
  {
    var first, span := start * rate, (t - s) * rate;
    CreditsRise(start, ts, rate);
    SpanIsPositive(s, t, rate);
    if i < j {
      CreditSpan(rate, ts, i, j - 1, s, t);
    }
    SpanWindow(Full(burst, first), Credits(rate, ts), i, j, span);
  }

  lemma SpanIsPositive(s: real, t: real, rate: real)
    requires s <= t && rate >= 0.0
    ensures (t - s) * rate >= 0.0
  {
  }

  lemma CreditSpan(rate: real, ts: seq<real>, i: nat, k: nat, s: real, t: real)
    requires rate >= 0.0 && i < |ts| && k < |ts| && s <= ts[i] && ts[k] <= t
    ensures Credits(rate, ts)[k] - Credits(rate, ts)[i] <= (t - s) * rate
  {
    var x, y := ts[i], ts[k];
    Span(x, y, s, t, rate);
    assert Credits(rate, ts)[k] == y * rate;
    assert Credits(rate, ts)[i] == x * rate;
  }

  lemma SpanWindow(p: Pool, cs: seq<real>, i: nat, j: nat, span: real)
    requires InRange(p) && Rising(p.credit, cs) && i <= j <= |cs| && span >= 0.0
    requires i < j ==> cs[j - 1] - cs[i] <= span
    ensures Accepted(Decisions(p, cs)[i..j]) as real <= p.burst as real + span
  {
    if i < j {
      PoolWindow(p, cs, i, j);
    }
  }

  lemma Span(x: real, y: real, s: real, t: real, rate: real)
    requires s <= x && y <= t && rate >= 0.0
    ensures y * rate - x * rate <= (t - s) * rate
  {
    Elapsed(s, t, rate);
    Monotone(s, x, rate);
    Monotone(y, t, rate);
  }

  // ----- and no fewer: a call is refused only when it must be -----

  /** A call is let through exactly if a whole token is there or has flowed in since. */
  lemma AllowedExactly(p: Pool, c: real)
    ensures Allowed(p, c) <==> p.burst >= 1 && p.tokens + (c - p.credit) >= 1.0
  {
  }

  /** One token's worth of time is enough. */
  lemma OneTokenFlowsIn(p: Pool, c: real)
    requires InRange(p) && p.burst >= 1 && c - p.credit >= 1.0
    ensures Allowed(p, c)
  {
  }

  /** Calls that keep a token's worth of credit apart are all let through. */
  lemma {:induction false} SpacedCallsPass(p: Pool, cs: seq<real>)
    requires InRange(p) && p.burst >= 1 && (cs != [] ==> Allowed(p, cs[0]) && p.credit <= cs[0])
    requires forall i :: 0 < i < |cs| ==> cs[i] - cs[i - 1] >= 1.0
    ensures forall i :: 0 <= i < |cs| ==> Decisions(p, cs)[i]
    decreases |cs|
  {
    if cs != [] {
      var q := AfterAllow(p, cs[0]);
      if |cs| > 1 {
        assert cs[1] - cs[0] >= 1.0;
        OneTokenFlowsIn(q, cs[1]);
      }
      SpacedCallsPass(q, cs[1..]);
    }
  }

  predicate AllPass(ds: seq<bool>) { forall i :: 0 <= i < |ds| ==> ds[i] }

  /** In seconds: a new bucket of positive rate and a burst of at least one lets every call through, as long as they
      are at least 1/rate apart. */
  lemma SlowCallersPass(rate: real, burst: int, start: real, ts: seq<real>)
    requires rate > 0.0 && burst >= 1 && Rising(start, ts)
    requires forall i :: 0 < i < |ts| ==> ts[i] - ts[i - 1] >= 1.0 / rate
    ensures AllPass(Decisions(Full(burst, start * rate), Credits(rate, ts)))
  {
    var p, cs := Full(burst, start * rate), Credits(rate, ts);
    CreditsRise(start, ts, rate);
    forall i | 0 < i < |cs| ensures cs[i] - cs[i - 1] >= 1.0 {
      TokenTime(ts[i - 1], ts[i], rate);
    }
    SpacedCallsPass(p, cs);
  }

  lemma TokenTime(t: real, u: real, rate: real)
    requires rate > 0.0 && u - t >= 1.0 / rate
    ensures u * rate - t * rate >= 1.0
  {
    Elapsed(t, u, rate);
    Monotone(1.0 / rate, u - t, rate);
    assert (1.0 / rate) * rate == 1.0;
  }

  /** Where the tokens come from: the last time the bucket was full, at call `i - 1`, or at the beginning if `i` is 0;
      since then, all that flowed in and all that was taken. */
  ghost predicate Explains(p: Pool, cs: seq<real>, i: nat) {
    && i <= |cs|
    && After(p, cs).tokens ==
       if i == 0 then p.tokens + (After(p, cs).credit - p.credit) - Accepted(Decisions(p, cs)) as real
       else p.burst as real + (After(p, cs).credit - cs[i - 1]) - Accepted(Decisions(p, cs)[i - 1..]) as real
  }

  lemma {:induction false} TokensExplained(p: Pool, cs: seq<real>) returns (i: nat)
    ensures Explains(p, cs, i)
    decreases |cs|
  {
    if cs == [] {
      i := 0;
    } else {
      var j := TokensExplained(AfterAllow(p, cs[0]), cs[1..]);
      i := if j > 0 then j + 1 else if Refill(p, cs[0]).tokens == p.burst as real then 1 else 0;
      ExplainsLonger(p, cs, j);
    }
  }

  lemma ExplainsLonger(p: Pool, cs: seq<real>, j: nat)
    requires cs != [] && Explains(AfterAllow(p, cs[0]), cs[1..], j)
    ensures j > 0 ==> Explains(p, cs, j + 1)
    ensures j == 0 && Refill(p, cs[0]).tokens == p.burst as real ==> Explains(p, cs, 1)
    ensures j == 0 && Refill(p, cs[0]).tokens != p.burst as real ==> Explains(p, cs, 0)
  {
    var q, rest := AfterAllow(p, cs[0]), cs[1..];
    var all, tail := Decisions(p, cs), Decisions(q, rest);
    assert all == [Allowed(p, cs[0])] + tail && all[0..] == all;
    if j > 0 {
      assert all[j..] == tail[j - 1..] && cs[j] == rest[j - 1];
    }
  }

  /** Letting call `k` through as well keeps to the burst and the inflow since call `j`. */
  ghost predicate FitsSince(p: Pool, cs: seq<real>, j: nat, k: nat)
    requires j <= k < |cs|
  {
    Accepted(Decisions(p, cs)[j..k]) as real + 1.0 <= p.burst as real + (cs[k] - cs[j])
  }

  /** The same since the bucket was made. */
  ghost predicate FitsAltogether(p: Pool, cs: seq<real>, k: nat)
    requires k < |cs|
  {
    Accepted(Decisions(p, cs)[..k]) as real + 1.0 <= p.tokens + (cs[k] - p.credit)
  }

  lemma RefusedBreaksWindow(p: Pool, cs: seq<real>, k: nat)
    requires InRange(p) && Rising(p.credit, cs) && k < |cs| && !Decisions(p, cs)[k] && p.burst >= 1
    ensures !FitsAltogether(p, cs, k) || exists j :: 0 <= j <= k && !FitsSince(p, cs, j, k)
  {
    var front := cs[..k];
    DecisionsFrom(p, cs, k);
    DecisionsUpTo(p, cs, k);
    var q := After(p, front);
    assert cs[k..][0] == cs[k] && Decisions(p, cs)[k..][0] == Decisions(p, cs)[k];
    AllowedExactly(q, cs[k]);
    Conservation(p, front);
    var i := TokensExplained(p, front);
    if i > 0 {
      assert Decisions(p, cs)[i - 1..k] == Decisions(p, front)[i - 1..];
      assert !FitsSince(p, cs, i - 1, k);
    }
  }

  lemma {:induction false} AcceptedConcat(a: seq<bool>, b: seq<bool>)
    ensures Accepted(a + b) == Accepted(a) + Accepted(b)
    decreases |a|
  {
    if a == [] {
      assert a + b == b;
    } else {
      assert (a + b)[1..] == a[1..] + b;
      AcceptedConcat(a[1..], b);
    }
  }

  lemma AllowedFits(p: Pool, cs: seq<real>, j: nat, k: nat)
    requires InRange(p) && Rising(p.credit, cs) && j <= k < |cs| && Decisions(p, cs)[k]
    ensures FitsSince(p, cs, j, k)
  {
    PoolWindow(p, cs, j, k + 1);
    var all := Decisions(p, cs);
    assert all[j..k + 1] == all[j..k] + [true];
    AcceptedConcat(all[j..k], [true]);
  }

  lemma AllowedFitsAltogether(p: Pool, cs: seq<real>, k: nat)
    requires InRange(p) && Rising(p.credit, cs) && k < |cs| && Decisions(p, cs)[k]
    ensures FitsAltogether(p, cs, k)
  {
    var all, front := Decisions(p, cs), cs[..k + 1];
    Conservation(p, front);
    StaysInRange(p, front);
    DecisionsUpTo(p, cs, k + 1);
    assert all[..k + 1] == all[..k] + [true];
    AcceptedConcat(all[..k], [true]);
  }

  /** The bucket, without its tokens: in any run, call `k` is let through exactly if that keeps every window that ends
      with it, and the whole run, to the burst and what flows in. */
  lemma AllowedExactlyWithinEveryWindow(p: Pool, cs: seq<real>, k: nat)
    requires InRange(p) && p.burst >= 1 && Rising(p.credit, cs) && k < |cs|
    ensures Decisions(p, cs)[k] <==> FitsAltogether(p, cs, k) && forall j :: 0 <= j <= k ==> FitsSince(p, cs, j, k)
  {
    if Decisions(p, cs)[k] {
      AllowedFitsAltogether(p, cs, k);
      forall j | 0 <= j <= k ensures FitsSince(p, cs, j, k) {
        AllowedFits(p, cs, j, k);
      }
    } else {
      RefusedBreaksWindow(p, cs, k);
    }
  }

  // ----- tokens in [0, burst] -----

  ghost predicate AlwaysInRange(rate: real, burst: int, start: real) {
    forall ts :: Rising(start, ts) ==> InRange(After(Full(burst, start * rate), Credits(rate, ts)))
  }

  /** The bucket never checks its parameters; its tokens stay in [0, burst] exactly for these. */
  lemma InRangeExactly(rate: real, burst: int, start: real)
    ensures AlwaysInRange(rate, burst, start) <==> rate >= 0.0 && burst >= 0
  {
    if rate >= 0.0 && burst >= 0 {
      forall ts | Rising(start, ts) ensures InRange(After(Full(burst, start * rate), Credits(rate, ts))) {
        CreditsRise(start, ts, rate);
        StaysInRange(Full(burst, start * rate), Credits(rate, ts));
      }
    } else if burst < 0 {
      assert Rising(start, []) && Credits(rate, []) == [];
    } else {
      NegativeRateEmpties(rate, burst, start);
    }
  }

  lemma NegativeRateEmpties(rate: real, burst: int, start: real)
    requires rate < 0.0 && burst >= 0
    ensures !AlwaysInRange(rate, burst, start)
  {
    var p := Full(burst, start * rate);
    var wait := (burst as real + 1.0) / (-rate);
    assert wait * rate == -(burst as real + 1.0);
    var ts := [start + wait];
    assert Rising(start, ts);
    var cs := Credits(rate, ts);
    assert cs[0] == start * rate + wait * rate;
    assert After(p, cs) == After(AfterAllow(p, cs[0]), cs[1..]) && cs[1..] == [];
  }

  // ----- looking does not touch -----

  datatype Call = AllowAt(credit: real) | RemainingAt(credit: real)

  ghost predicate RisingCalls(start: real, cs: seq<Call>) {
    (cs != [] ==> start <= cs[0].credit) && forall i, j :: 0 <= i < j < |cs| ==> cs[i].credit <= cs[j].credit
  }

  function Answers(p: Pool, cs: seq<Call>): seq<bool>
    decreases |cs|
  {
    if cs == [] then []
    else match cs[0]
         case AllowAt(c) => [Allowed(p, c)] + Answers(AfterAllow(p, c), cs[1..])
         case RemainingAt(c) => Answers(Refill(p, c), cs[1..])
  }

  function AllowTimes(cs: seq<Call>): seq<real> {
    if cs == [] then [] else (if cs[0].AllowAt? then [cs[0].credit] else []) + AllowTimes(cs[1..])
  }

  /** Refilling in two steps is refilling once. */
  lemma RefillComposes(p: Pool, c: real, d: real)
    requires p.credit <= c <= d && p.tokens <= p.burst as real
    ensures Refill(Refill(p, c), d) == Refill(p, d)
  {
  }

  /** Calls to Remaining, wherever they fall, never change what Allow answers. */
  lemma {:induction false} RemainingIsInvisible(p: Pool, seen: real, cs: seq<Call>)
    requires p.tokens <= p.burst as real && p.credit <= seen && RisingCalls(seen, cs)
    ensures Answers(Refill(p, seen), cs) == Decisions(p, AllowTimes(cs))
    decreases |cs|
  {
    if cs != [] {
      var c := cs[0].credit;
      RefillComposes(p, seen, c);
      if cs[0].AllowAt? {
        var after := AfterAllow(p, c);
        assert Refill(after, c) == after;
        RemainingIsInvisible(after, c, cs[1..]);
        assert AllowTimes(cs)[1..] == AllowTimes(cs[1..]);
      } else {
        RemainingIsInvisible(p, c, cs[1..]);
        assert AllowTimes(cs) == AllowTimes(cs[1..]);
      }
    }
  }

  // ----- the two implementations -----

  /** pkg/ratelimit on the same credits. */
  function LimiterDecisions(rate: real, p: Pool, cs: seq<real>): (r: seq<bool>)
    ensures |r| == |cs|
    decreases |cs|
  {
    if cs == [] then []
    else if rate <= 0.0 then [true] + LimiterDecisions(rate, p, cs[1..])
    else [Allowed(p, cs[0])] + LimiterDecisions(rate, AfterAllow(p, cs[0]), cs[1..])
  }

  ghost predicate Indistinguishable(rate: real, burst: int, start: real) {
    forall ts :: Rising(start, ts) ==>
      Decisions(Full(burst, start * rate), Credits(rate, ts))
      == LimiterDecisions(rate, Full(if burst < 1 then 1 else burst, start * rate), Credits(rate, ts))
  }

  lemma {:induction false} SameDecisions(rate: real, p: Pool, cs: seq<real>)
    requires rate > 0.0
    ensures Decisions(p, cs) == LimiterDecisions(rate, p, cs)
    decreases |cs|
  {
    if cs != [] {
      SameDecisions(rate, AfterAllow(p, cs[0]), cs[1..]);
    }
  }

  function Repeat(t: real, n: nat): (r: seq<real>)
    ensures |r| == n && forall i :: 0 <= i < n ==> r[i] == t
  {
    seq(n, _ => t)
  }

  /** Calls at one instant get exactly the tokens that are there. */
  lemma {:induction false} InstantDrains(p: Pool, k: nat)
    requires p.tokens == k as real && k <= p.burst
    ensures !Decisions(p, Repeat(p.credit, k + 1))[k]
    decreases k
  {
    var cs := Repeat(p.credit, k + 1);
    assert Refill(p, p.credit) == p;
    if k > 0 {
      assert cs[1..] == Repeat(p.credit, k);
      InstantDrains(AfterAllow(p, p.credit), k - 1);
    }
  }

  lemma {:induction false} PassThrough(rate: real, p: Pool, cs: seq<real>)
    requires rate <= 0.0
    ensures forall i :: 0 <= i < |cs| ==> LimiterDecisions(rate, p, cs)[i]
    decreases |cs|
  {
    if cs != [] {
      PassThrough(rate, p, cs[1..]);
    }
  }

  lemma RepeatedCredits(rate: real, t: real, n: nat)
    ensures Credits(rate, Repeat(t, n)) == Repeat(t * rate, n)
  {
    forall i | 0 <= i < n ensures Credits(rate, Repeat(t, n))[i] == Repeat(t * rate, n)[i] {
      assert Repeat(t, n)[i] == t;
    }
  }

  lemma LimitersDiffer(rate: real, burst: int, c: real, n: nat)
    requires n == if burst < 0 then 0 else burst
    requires rate <= 0.0 || burst < 1
    ensures Decisions(Full(burst, c), Repeat(c, n + 1)) != LimiterDecisions(rate, Full(if burst < 1 then 1 else burst, c), Repeat(c, n + 1))
  {
    var p, l := Full(burst, c), Full(if burst < 1 then 1 else burst, c);
    var cs := Repeat(c, n + 1);
    if burst >= 0 {
      InstantDrains(p, n);
    }
    assert !Decisions(p, cs)[n];
    PassThrough(if rate <= 0.0 then rate else 0.0, l, cs);
    assert Refill(l, c) == l;
    assert LimiterDecisions(rate, l, cs)[n];
  }

  /** The two limiters decide alike on every clock trace exactly for a positive rate and a burst of at least one. */
  lemma LimitersAgreeExactly(rate: real, burst: int, start: real)
    ensures Indistinguishable(rate, burst, start) <==> rate > 0.0 && burst >= 1
  {
    if rate > 0.0 && burst >= 1 {
      forall ts | Rising(start, ts)
        ensures Decisions(Full(burst, start * rate), Credits(rate, ts)) == LimiterDecisions(rate, Full(burst, start * rate), Credits(rate, ts))
      {
        SameDecisions(rate, Full(burst, start * rate), Credits(rate, ts));
      }
    } else {
      var n := if burst < 0 then 0 else burst;
      var ts := Repeat(start, n + 1);
      RepeatedCredits(rate, start, n + 1);
      assert Rising(start, ts);
      LimitersDiffer(rate, burst, start * rate, n);
    }
  }
}
