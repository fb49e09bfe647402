/** The TTL that `validate` demands (pkg/orchestrate/evaluation.go:402-415) and the deferred release (249-280)
    against the expiry rule of the store (pkg/gpu/reservation.go:78-91, 277-283): an accepted command is alone on
    its GPUs. */
module LeaseCover {
  import opened GpuIdentity
  import opened Ordering
  import opened Inventory
  import opened Reservation
  import opened ReservationProtocol
  import opened Validation
  import Evaluation

  function Min(a: int, b: int): int { if a <= b then a else b }

  /** How long after the grant the command may start. */
  function StartSlack(millis: int): int { MinimumTtl(millis) - millis * MILLISECOND }

  /** The slack is exact: every acceptable TTL outlasts a command that starts `delay` after the grant and
      runs for its whole timeout if and only if the delay is within the slack. It is a minute, or what is left of
      a day, unless the timeout wraps; then there is none. */
  lemma SlackIsExact(r: Request, delay: int)
    requires r.timeoutMillis > 0 && Timeout(r.timeoutMillis) <= MAX_EVALUATION_TIMEOUT
    requires 0 < r.maxOutputBytes <= MAX_EVALUATION_OUTPUT
    ensures (forall ttl :: LimitsOk(r, ttl) ==> delay + r.timeoutMillis * MILLISECOND <= ttl)
            <==> delay <= StartSlack(r.timeoutMillis)
    ensures if NoWrap(r.timeoutMillis)
            then StartSlack(r.timeoutMillis) == Min(RESERVATION_SKEW, MAX_EVALUATION_TIMEOUT - r.timeoutMillis * MILLISECOND)
            else StartSlack(r.timeoutMillis) < 0
  {
    assert LimitsOk(r, MinimumTtl(r.timeoutMillis));
    if NoWrap(r.timeoutMillis) {
      assert Timeout(r.timeoutMillis) == r.timeoutMillis * MILLISECOND;
    }
  }

  /** Entry `i` of the history is the grant that an accepted request obtained. */
  ghost predicate GrantedTo(h: seq<Entry>, i: nat, r: Request, ttl: int) {
    && i < |h| && h[i].op.Reserve? && h[i].outcome.Granted?
    && Accepted(r, ttl) && h[i].op.ttl == ttl && h[i].op.owner == r.manifestSha256
    && multiset(h[i].op.uuids) == multiset(BoundUuids(r.bindings))
  }

  ghost predicate ReleasesToken(op: Op, token: string) { op.Release? && op.lease.token == token }

  /** While no release with its token takes effect before `end`, nobody else is granted a GPU of the request
      before `end`. */
  lemma AloneUntilSurrendered(
    states: seq<System>, steps: seq<Step>, r: Request, ttl: int, i: nat, begin: int, end: int, j: nat, u: Uuid)
    requires Run(Performs, states, steps)
    requires GrantedTo(states[|steps|].history, i, r, ttl)
    requires begin <= states[|steps|].history[i].now + StartSlack(r.timeoutMillis)
    requires end <= begin + r.timeoutMillis * MILLISECOND
    requires forall k :: 0 <= k < |states[|steps|].history|
                         && ReleasesToken(states[|steps|].history[k].op, states[|steps|].history[i].outcome.lease.token) ==>
               states[|steps|].history[k].now >= end
    requires i < j < |states[|steps|].history| && states[|steps|].history[j].outcome.Granted?
    requires u in Uuids(r.manifest.gpus) && u in states[|steps|].history[j].outcome.lease.uuids
    ensures states[|steps|].history[j].now >= end
  {
    var h := states[|steps|].history;
    RunsRefineSequentialStore(states, steps);
    GrantOf(states[0].file, h, i, r, ttl, u);
    SlackIsExact(r, begin - h[i].now);
    assert LimitsOk(r, ttl);
    LeasesExcludeOverRuns(states, steps, i, j, u);
    assert forall k :: i < k < j ==> h[k].now <= h[j].now;
  }

  lemma GrantOf(f0: File, h: seq<Entry>, i: nat, r: Request, ttl: int, u: Uuid)
    requires GrantedTo(h, i, r, ttl) && Sequential(Performs, f0, h) && u in Uuids(r.manifest.gpus)
    ensures u in h[i].outcome.lease.uuids && h[i].outcome.lease.expiresAt == h[i].now + ttl
  {
    assert Performs(FileAt(f0, h, i), h[i]);
    SameMembers(h[i].outcome.lease.uuids, Uuids(r.manifest.gpus));
  }

  // ----- the deferred release -----

  /** Only its holder ever calls Release with this token. */
  ghost predicate Secret(steps: seq<Step>, token: string, holder: Pid) {
    forall n :: 0 <= n < |steps| && steps[n].Invoke? && ReleasesToken(steps[n].op, token) ==> steps[n].pid == holder
  }

  /** The holder's log of Execute, each event with the step of the run at which it happened; the holder's calls of
      Release with this token are those its log records. */
  ghost predicate Follows(steps: seq<Step>, token: string, holder: Pid, log: seq<Evaluation.Event>, at: seq<nat>) {
    && Evaluation.Watch(log).Some? && |at| == |log|
    && (forall k :: 0 <= k < |at| ==> at[k] <= |steps|)
    && (forall k, l :: 0 <= k <= l < |at| ==> at[k] <= at[l])
    && (forall n :: 0 <= n < |steps| && steps[n].Invoke? && steps[n].pid == holder && ReleasesToken(steps[n].op, token) ==>
          exists k :: 0 <= k < |log| && log[k].ReleaseTried? && at[k] == n)
  }

  /** A release with the token reads its clock when the command has ended: it was called by the holder, whose log
      puts the end of the command first. */
  lemma ReleasesComeAfter(
    states: seq<System>, steps: seq<Step>, token: string, holder: Pid,
    log: seq<Evaluation.Event>, at: seq<nat>, e: nat, k: nat)
    requires Run(Performs, states, steps) && Secret(steps, token, holder) && Follows(steps, token, holder, log, at)
    requires e < |log| && log[e].CommandEnded?
    requires k < |states[|steps|].history| && ReleasesToken(states[|steps|].history[k].op, token)
    ensures states[|steps|].history[k].now >= states[at[e]].clock
  {
    var entry := states[|steps|].history[k];
    EveryCallBegan(Performs, states, steps);
    assert Began(states, steps, entry.pid, entry.op, entry.now);
    var n :| 0 <= n < |steps| && n < |states| && steps[n] == Invoke(entry.pid, entry.op) && states[n].clock <= entry.now;
    assert steps[n].Invoke? && ReleasesToken(steps[n].op, token) && steps[n].pid == holder;
    var l :| 0 <= l < |log| && log[l].ReleaseTried? && at[l] == n;
    Evaluation.CommandEndsBeforeRelease(log, e, l);
    ClockAdvances(Performs, states, steps, at[e], n);
  }

  /** In every run of the store: let an accepted request obtain its lease, start its command within the slack of the
      grant and stop it within its timeout, as its log of Execute records, and let its token stay its own. Then it
      is alone: whoever else is granted one of its GPUs read the clock when the command had ended. */
  lemma CommandIsAlone(
    states: seq<System>, steps: seq<Step>, r: Request, ttl: int, i: nat,
    log: seq<Evaluation.Event>, at: seq<nat>, b: nat, e: nat, j: nat, u: Uuid)
    requires Run(Performs, states, steps)
    requires GrantedTo(states[|steps|].history, i, r, ttl)
    requires Secret(steps, states[|steps|].history[i].outcome.lease.token, states[|steps|].history[i].pid)
    requires Follows(steps, states[|steps|].history[i].outcome.lease.token, states[|steps|].history[i].pid, log, at)
    requires b < |log| && e < |log| && log[b].CommandStarted? && log[e].CommandEnded?
    requires states[at[b]].clock <= states[|steps|].history[i].now + StartSlack(r.timeoutMillis)
    requires states[at[e]].clock <= states[at[b]].clock + r.timeoutMillis * MILLISECOND
    requires i < j < |states[|steps|].history| && states[|steps|].history[j].outcome.Granted?
    requires u in Uuids(r.manifest.gpus) && u in states[|steps|].history[j].outcome.lease.uuids
    ensures states[|steps|].history[j].now >= states[at[e]].clock
  {
    var h := states[|steps|].history;
    var token, begin, end := h[i].outcome.lease.token, states[at[b]].clock, states[at[e]].clock;
    forall k | 0 <= k < |h| && ReleasesToken(h[k].op, token) ensures h[k].now >= end {
      ReleasesComeAfter(states, steps, token, h[i].pid, log, at, e, k);
    }
    AloneUntilSurrendered(states, steps, r, ttl, i, begin, end, j, u);
  }
}
