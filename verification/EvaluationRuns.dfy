/** The log of a call of Execute against the program counters of module EvaluationLocks: what is proved there
    of every run is about what Execute does (pkg/orchestrate/evaluation.go:185-358). */
module EvaluationRuns {
  import opened GpuIdentity
  import opened EvaluationLocks
  import opened Evaluation

  /** One move of one evaluation, whatever the lock table allows. */
  predicate Moves(a: Pc, b: Pc) {
    || MayGo(a, b) || MayUnlock(a, b)
    || ((a.WaitCoordinator? || a.WaitOutput? || a.WaitStore? || a.WaitRelease?) && b == Acquired(a))
  }

  ghost predicate IsPath(pcs: seq<Pc>) {
    pcs != [] && pcs[0] == WaitCoordinator && forall i :: 0 <= i < |pcs| - 1 ==> Moves(pcs[i], pcs[i + 1])
  }

  /** The moves that one event of the log stands for. */
  function MovesOf(pc: Pc, e: Event): seq<Pc> {
    match e
    case CoordinatorLocked => [Coordinated]
    case OutputLocked => [WaitOutput, Inside]
    case Granted(_) => [WaitStore, Reserving, Running]
    case ReleaseTried(_, ok) => if ok then [WaitRelease, Releasing, Unwinding] else [WaitRelease, Unwinding]
    case OutputFileUnlocked => if pc.Inside? then [Unwinding, Closing] else [Closing]
    case CoordinatorUnlocked => if pc.Coordinated? then [Closing, Finished] else [Finished]
    case _ => []
  }

  function PathOf(log: seq<Event>): (r: seq<Pc>)
    ensures r != []
  {
    if log == [] then [WaitCoordinator]
    else
      var path := PathOf(log[..|log| - 1]);
      path + MovesOf(path[|path| - 1], log[|log| - 1])
  }

  /** Where an evaluation stands, by what the monitor has seen of it. */
  function Stand(m: Monitor): Pc {
    if m == FRESH then WaitCoordinator
    else if !m.coordinator then Finished
    else if m.lease.Some? then Running
    else if m.output then (if m.granted then Unwinding else Inside)
    else if m.closing then Closing
    else Coordinated
  }

  /** What every accepted log leaves true of the monitor. */
  ghost predicate Settled(m: Monitor) {
    && (m.running ==> m.lease.Some?) && (m.lease.Some? ==> m.granted && m.output)
    && (m.output ==> m.coordinator && m.mutex && !m.closing)
    && (m.granted && !m.output ==> m.closing) && (m.mutex ==> m.coordinator)
    && (m != FRESH && !m.coordinator ==> m.closing) && (m.closing ==> m != FRESH)
    && HoldsCoordinator(Stand(m)) == m.coordinator && HoldsOutput(Stand(m)) == m.output
  }

  lemma EventMoves(m: Monitor, e: Event)
    requires Settled(m) && Observe(m, e).Some?
    ensures var m', moves := Observe(m, e).value, [Stand(m)] + MovesOf(Stand(m), e);
            && Settled(m')
            && moves[|moves| - 1] == Stand(m')
            && forall i :: 0 <= i < |moves| - 1 ==> Moves(moves[i], moves[i + 1])
  {
  }

  /** Every log the monitor accepts, and so every log of Execute, is a path of the program counters, and wherever
      it stands, the two agree on which of the root's locks are held. */
  lemma {:induction false} LogIsAPath(log: seq<Event>)
    requires Watch(log).Some?
    ensures IsPath(PathOf(log))
    ensures var m, pc := Watch(log).value, PathOf(log)[|PathOf(log)| - 1];
            pc == Stand(m) && Settled(m)
  {
    if log != [] {
      var n := |log| - 1;
      LogIsAPath(log[..n]);
      var m := Watch(log[..n]).value;
      EventMoves(m, log[n]);
      var path, moves := PathOf(log[..n]), MovesOf(Stand(m), log[n]);
      Extended(path, moves);
    }
  }

  lemma Extended(path: seq<Pc>, moves: seq<Pc>)
    requires IsPath(path)
    requires var all := [path[|path| - 1]] + moves; forall i :: 0 <= i < |all| - 1 ==> Moves(all[i], all[i + 1])
    ensures IsPath(path + moves)
  {
    var all, whole, n := [path[|path| - 1]] + moves, path + moves, |path| - 1;
    forall i | 0 <= i < |whole| - 1 ensures Moves(whole[i], whole[i + 1]) {
      if i >= n {
        assert whole[i] == all[i - n] && whole[i + 1] == all[i + 1 - n];
      }
    }
  }

  /** The moves are those of the step system: a path of one evaluation that finds every lock free, or given up in
      time, is a run, so between any two events the step system can do what Execute did. */
  lemma MovesAreSteps(jobs: Jobs, s: System, i: Id, to: Pc) returns (s': System, step: Step)
    requires s.pcs.Keys == jobs.Keys && i in jobs && Moves(s.pcs[i], to)
    requires MayGo(s.pcs[i], to) || MayUnlock(s.pcs[i], to) || Wanted(jobs[i], s.pcs[i]).value !in s.owner
    ensures Next(jobs, s, s', step) && s'.pcs == s.pcs[i := to]
  {
    var pc := s.pcs[i];
    if MayGo(pc, to) {
      s', step := System(s.owner, s.pcs[i := to]), Go(i, to);
    } else if MayUnlock(pc, to) {
      s', step := System(s.owner - {Unlocked(jobs[i], pc)}, s.pcs[i := to]), Unlock(i, to);
    } else {
      s', step := System(s.owner[Wanted(jobs[i], pc).value := i], s.pcs[i := to]), Lock(i);
    }
  }

  /** Two calls in one run of the step system that have the same output root: whatever each of them is about to
      log next, making, using, locking or cleaning up the root, only one of them can be there. */
  lemma ExecutesExclude(
    jobs: Jobs, states: seq<System>, steps: seq<Step>, i: Id, a: seq<Event>, e: Event, j: Id, b: seq<Event>, f: Event)
    requires ValidJobs(jobs) && Run(jobs, states, steps) && i in jobs && j in jobs && jobs[i].root == jobs[j].root
    requires states[|steps|].pcs[i] == PathOf(a)[|PathOf(a)| - 1] && states[|steps|].pcs[j] == PathOf(b)[|PathOf(b)| - 1]
    requires Watch(a + [e]).Some? && Watch(b + [f]).Some? && !e.CoordinatorLocked? && !f.CoordinatorLocked?
    ensures i == j
  {
    InsideCoordinator(a, e);
    InsideCoordinator(b, f);
    OnePerRoot(jobs, states, steps, i, j);
  }

  lemma InsideCoordinator(log: seq<Event>, e: Event)
    requires Watch(log + [e]).Some? && !e.CoordinatorLocked?
    ensures HoldsCoordinator(PathOf(log)[|PathOf(log)| - 1])
  {
    assert (log + [e])[..|log|] == log;
    LogIsAPath(log);
  }
}
