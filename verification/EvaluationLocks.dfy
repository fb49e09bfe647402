/** Concurrent evaluations and their three locks (pkg/orchestrate/evaluation.go:196-241, 805-870): the
    coordinator of an output root, the lock inside the root, and the reservation store's lock. */
module EvaluationLocks {
  import opened GpuIdentity

  /** A clean absolute path, by components. */
  type Path = seq<string>

  const OUTPUT_LOCK := ".nanovms-evaluation.lock"
  const COORDINATOR_SUFFIX := ".nanovms-evaluation.coordinator.lock"

  function OutputLock(root: Path): Path { root + [OUTPUT_LOCK] }

  /** A sibling of the root. */
  function Coordinator(root: Path): Path
    requires root != []
  {
    root[..|root| - 1] + ["." + root[|root| - 1] + COORDINATOR_SUFFIX]
  }

  const STORE_SUFFIX := ".lock"
  const LOCK_NAME := ".nanovms-evaluation"
  const COORDINATOR_NAME := ".nanovms-evaluation.coordinator"

  /** The store's path with the suffix, lines 155-159 of pkg/gpu/reservation.go. */
  function StoreLock(reservation: Path): Path
    requires reservation != []
  {
    reservation[..|reservation| - 1] + [reservation[|reservation| - 1] + STORE_SUFFIX]
  }

  /** The two reservation paths whose store lock is a lock of the root. */
  predicate Clashes(reservation: Path, root: Path)
    requires root != []
  {
    || reservation == root + [LOCK_NAME]
    || reservation == root[..|root| - 1] + ["." + root[|root| - 1] + COORDINATOR_NAME]
  }

  lemma StoreLockClashesExactly(reservation: Path, root: Path)
    requires reservation != [] && root != []
    ensures StoreLock(reservation) == OutputLock(root) || StoreLock(reservation) == Coordinator(root)
            <==> Clashes(reservation, root)
  {
    SuffixClash(reservation, root, LOCK_NAME);
    assert LOCK_NAME + STORE_SUFFIX == OUTPUT_LOCK;
    var n := |root| - 1;
    var name := "." + root[n] + COORDINATOR_NAME;
    SuffixClash(reservation, root[..n], name);
    assert COORDINATOR_NAME + STORE_SUFFIX == COORDINATOR_SUFFIX;
    assert name + STORE_SUFFIX == "." + root[n] + COORDINATOR_SUFFIX;
  }

  lemma SuffixClash(reservation: Path, directory: Path, name: string)
    requires reservation != []
    ensures StoreLock(reservation) == directory + [name + STORE_SUFFIX] <==> reservation == directory + [name]
  {
    var last := |reservation| - 1;
    var x, y := StoreLock(reservation), directory + [name + STORE_SUFFIX];
    if x == y {
      assert x[last] == reservation[last] + STORE_SUFFIX && |reservation[last]| == |name|;
      assert reservation[last] == x[last][..|name|] == name;
      assert reservation[..last] == x[..last] == directory;
      assert reservation == reservation[..last] + [reservation[last]];
    }
  }

  /** The names on disk. */
  lemma LockNames(dir: Path, name: string)
    ensures Coordinator(dir + [name]) == dir + ["." + name + ".nanovms-evaluation.coordinator.lock"]
    ensures OutputLock(dir + [name]) == dir + [name, ".nanovms-evaluation.lock"]
    ensures StoreLock(dir + [name]) == dir + [name + ".lock"]
  {
    assert (dir + [name])[..|dir|] == dir;
  }

  /** Coordinators tell roots apart, output locks tell roots apart, and no coordinator is an output lock. */
  lemma LockPathsAreApart(a: Path, b: Path)
    requires a != [] && b != []
    ensures Coordinator(a) == Coordinator(b) <==> a == b
    ensures OutputLock(a) == OutputLock(b) <==> a == b
    ensures Coordinator(a) != OutputLock(b)
  {
    var x, y := Coordinator(a), Coordinator(b);
    var p, q := a[|a| - 1], b[|b| - 1];
    assert x[|x| - 1] == "." + p + COORDINATOR_SUFFIX && y[|y| - 1] == "." + q + COORDINATOR_SUFFIX;
    assert |x[|x| - 1]| > |OUTPUT_LOCK|;
    if x == y {
      assert |p| == |q|;
      assert p == ("." + p + COORDINATOR_SUFFIX)[1..|p| + 1] == ("." + q + COORDINATOR_SUFFIX)[1..|q| + 1] == q;
      assert x[..|x| - 1] == a[..|a| - 1] && y[..|y| - 1] == b[..|b| - 1];
      assert a == a[..|a| - 1] + [p] && b == b[..|b| - 1] + [q];
    }
    assert OutputLock(a)[..|a|] == a && OutputLock(b)[..|b|] == b;
    var z := OutputLock(b);
    assert z[|z| - 1] == OUTPUT_LOCK;
  }

  type Id = nat

  /** One evaluation: its output root, the path of its reservation store, the root's two locks, and the store's. */
  datatype Job = Job(root: Path, reservation: Path, coordinator: Path, output: Path, store: Path)

  datatype Pc =
    | WaitCoordinator
    | Coordinated   // preparing the root
    | WaitOutput
    | Inside        // resolving the inventory
    | WaitStore     // in Reserve's lock loop
    | Reserving
    | Running       // holds a lease; inspects, runs the command, verifies
    | WaitRelease   // in Release's lock loop, which gives up after five seconds
    | Releasing
    | Unwinding     // output lock still held
    | Closing       // only the coordinator still held
    | Finished

  type Jobs = map<Id, Job>

  datatype System = System(owner: map<Path, Id>, pcs: map<Id, Pc>)

  datatype Step = Lock(id: Id) | Go(id: Id, to: Pc) | Unlock(id: Id, to: Pc) | Crash(id: Id)

  predicate HoldsCoordinator(pc: Pc) { !pc.WaitCoordinator? && !pc.Finished? }

  predicate HoldsOutput(pc: Pc) {
    pc.Inside? || pc.WaitStore? || pc.Reserving? || pc.Running? || pc.WaitRelease? || pc.Releasing? || pc.Unwinding?
  }

  predicate HoldsStore(pc: Pc) { pc.Reserving? || pc.Releasing? }

  predicate Holds(job: Job, pc: Pc, p: Path) {
    || (HoldsCoordinator(pc) && p == job.coordinator)
    || (HoldsOutput(pc) && p == job.output)
    || (HoldsStore(pc) && p == job.store)
  }

  /** The lock a waiting evaluation is after. */
  function Wanted(job: Job, pc: Pc): Option<Path> {
    match pc
    case WaitCoordinator => Some(job.coordinator)
    case WaitOutput => Some(job.output)
    case WaitStore => Some(job.store)
    case WaitRelease => Some(job.store)
    case _ => None
  }

  function Acquired(pc: Pc): Pc {
    match pc
    case WaitCoordinator => Coordinated
    case WaitOutput => Inside
    case WaitStore => Reserving
    case _ => Releasing
  }

  /** Moves that touch no lock, cancelled and timed-out waits among them. */
  predicate MayGo(pc: Pc, to: Pc) {
    match pc
    case WaitCoordinator => to.Finished?
    case Coordinated => to.WaitOutput? || to.Closing?
    case WaitOutput => to.Closing?
    case Inside => to.WaitStore? || to.Unwinding?
    case WaitStore => to.Unwinding?
    case Running => to.WaitRelease?
    case WaitRelease => to.Unwinding?
    case _ => false
  }

  predicate MayUnlock(pc: Pc, to: Pc) {
    match pc
    case Reserving => to.Running? || to.Unwinding?
    case Releasing => to.Unwinding?
    case Unwinding => to.Closing?
    case Closing => to.Finished?
    case _ => false
  }

  function Unlocked(job: Job, pc: Pc): Path {
    if HoldsStore(pc) then job.store else if pc.Unwinding? then job.output else job.coordinator
  }

  ghost predicate ValidJobs(jobs: Jobs) {
    forall i :: i in jobs ==>
      && jobs[i].root != [] && jobs[i].reservation != [] && jobs[i].store == StoreLock(jobs[i].reservation)
      && jobs[i].coordinator == Coordinator(jobs[i].root) && jobs[i].output == OutputLock(jobs[i].root)
  }

  /** All the argument needs to know about the paths. */
  ghost predicate LocksApart(jobs: Jobs) {
    forall i, k :: i in jobs && k in jobs ==>
      && (jobs[i].coordinator == jobs[k].coordinator <==> jobs[i].root == jobs[k].root)
      && (jobs[i].output == jobs[k].output <==> jobs[i].root == jobs[k].root)
      && jobs[i].coordinator != jobs[k].output
  }

  lemma ValidJobsAreApart(jobs: Jobs)
    requires ValidJobs(jobs)
    ensures LocksApart(jobs)
  {
    forall i, k | i in jobs && k in jobs
      ensures jobs[i].coordinator == jobs[k].coordinator <==> jobs[i].root == jobs[k].root
      ensures jobs[i].output == jobs[k].output <==> jobs[i].root == jobs[k].root
      ensures jobs[i].coordinator != jobs[k].output
    {
      LockPathsAreApart(jobs[i].root, jobs[k].root);
    }
  }

  ghost predicate Init(jobs: Jobs, s: System) {
    s.owner == map[] && s.pcs.Keys == jobs.Keys && forall i :: i in s.pcs ==> s.pcs[i] == WaitCoordinator
  }

  ghost predicate Next(jobs: Jobs, s: System, s': System, step: Step)
    requires s.pcs.Keys == jobs.Keys
  {
    && step.id in jobs
    && var job, pc := jobs[step.id], s.pcs[step.id];
       match step
       case Lock(i) =>
         && Wanted(job, pc).Some? && Wanted(job, pc).value !in s.owner
         && s' == System(s.owner[Wanted(job, pc).value := i], s.pcs[i := Acquired(pc)])
       case Go(i, to) => MayGo(pc, to) && s' == System(s.owner, s.pcs[i := to])
       case Unlock(i, to) =>
         MayUnlock(pc, to) && s' == System(s.owner - {Unlocked(job, pc)}, s.pcs[i := to])
       case Crash(i) =>
         s' == System(map p | p in s.owner && s.owner[p] != i :: s.owner[p], s.pcs[i := Finished])
  }

  ghost predicate Run(jobs: Jobs, states: seq<System>, steps: seq<Step>) {
    && |states| == |steps| + 1
    && Init(jobs, states[0])
    && (forall k :: 0 <= k <= |steps| ==> states[k].pcs.Keys == jobs.Keys)
    && (forall k :: 0 <= k < |steps| ==> Next(jobs, states[k], states[k + 1], steps[k]))
  }

  predicate Owns(s: System, i: Id, p: Path) { p in s.owner && s.owner[p] == i }

  /** The lock table says exactly what the program counters say. */
  ghost predicate Inv(jobs: Jobs, s: System) {
    && s.pcs.Keys == jobs.Keys
    && (forall p :: p in s.owner ==> s.owner[p] in jobs)
    && (forall i, p :: i in jobs ==> (Owns(s, i, p) <==> Holds(jobs[i], s.pcs[i], p)))
    && (forall i :: i in jobs && HoldsStore(s.pcs[i]) ==>
          jobs[i].store != jobs[i].coordinator && jobs[i].store != jobs[i].output)
  }

  // What each kind of move does to one evaluation's locks.

  lemma LockAddsOne(job: Job, pc: Pc, p: Path)
    requires Wanted(job, pc).Some?
    ensures Holds(job, Acquired(pc), p) <==> Holds(job, pc, p) || p == Wanted(job, pc).value
  {
  }

  lemma GoKeepsAll(job: Job, pc: Pc, to: Pc, p: Path)
    requires MayGo(pc, to)
    ensures Holds(job, to, p) <==> Holds(job, pc, p)
  {
  }

  lemma UnlockDropsOne(job: Job, pc: Pc, to: Pc, p: Path)
    requires MayUnlock(pc, to) && job.coordinator != job.output
    requires HoldsStore(pc) ==> job.store != job.coordinator && job.store != job.output
    ensures Holds(job, to, p) <==> Holds(job, pc, p) && p != Unlocked(job, pc)
    ensures Holds(job, pc, Unlocked(job, pc))
  {
  }

  lemma LockKeepsTable(jobs: Jobs, s: System, s': System, i: Id, k: Id, p: Path)
    requires Inv(jobs, s) && Next(jobs, s, s', Lock(i)) && k in jobs
    ensures Owns(s', k, p) <==> Holds(jobs[k], s'.pcs[k], p)
  {
    assert Owns(s, k, p) <==> Holds(jobs[k], s.pcs[k], p);
    LockAddsOne(jobs[i], s.pcs[i], p);
  }

  lemma UnlockKeepsTable(jobs: Jobs, s: System, s': System, i: Id, to: Pc, k: Id, p: Path)
    requires Inv(jobs, s) && Next(jobs, s, s', Unlock(i, to)) && k in jobs && jobs[i].coordinator != jobs[i].output
    ensures Owns(s', k, p) <==> Holds(jobs[k], s'.pcs[k], p)
  {
    assert Owns(s, k, p) <==> Holds(jobs[k], s.pcs[k], p);
    UnlockDropsOne(jobs[i], s.pcs[i], to, p);
    var q := Unlocked(jobs[i], s.pcs[i]);
    assert Owns(s, i, q) <==> Holds(jobs[i], s.pcs[i], q);
  }

  lemma LockIsNotOwn(jobs: Jobs, s: System, s': System, i: Id)
    requires Inv(jobs, s) && Next(jobs, s, s', Lock(i)) && HoldsStore(s'.pcs[i])
    ensures jobs[i].store != jobs[i].coordinator && jobs[i].store != jobs[i].output
  {
    assert Holds(jobs[i], s.pcs[i], jobs[i].coordinator) && Holds(jobs[i], s.pcs[i], jobs[i].output);
    assert Owns(s, i, jobs[i].coordinator) && Owns(s, i, jobs[i].output);
  }

  lemma StepKeepsInv(jobs: Jobs, s: System, s': System, step: Step)
    requires Inv(jobs, s) && Next(jobs, s, s', step)
    requires forall i :: i in jobs ==> jobs[i].coordinator != jobs[i].output
    ensures Inv(jobs, s')
  {
    var i := step.id;
    if step.Lock? && HoldsStore(s'.pcs[i]) {
      LockIsNotOwn(jobs, s, s', i);
    }
    forall k, p | k in jobs
      ensures Owns(s', k, p) <==> Holds(jobs[k], s'.pcs[k], p)
    {
      match step
      case Lock(_) => LockKeepsTable(jobs, s, s', i, k, p);
      case Unlock(_, to) => UnlockKeepsTable(jobs, s, s', i, to, k, p);
      case Go(_, to) =>
        GoKeepsAll(jobs[i], s.pcs[i], to, p);
        assert Owns(s, k, p) <==> Holds(jobs[k], s.pcs[k], p);
      case Crash(_) =>
        assert Owns(s, k, p) <==> Holds(jobs[k], s.pcs[k], p);
    }
  }

  lemma {:induction false} RunsKeepInv(jobs: Jobs, states: seq<System>, steps: seq<Step>)
    requires Run(jobs, states, steps) && forall i :: i in jobs ==> jobs[i].coordinator != jobs[i].output
    ensures Inv(jobs, states[|steps|])
    decreases |steps|
  {
    if steps != [] {
      var n := |steps| - 1;
      RunsKeepInv(jobs, states[..n + 1], steps[..n]);
      StepKeepsInv(jobs, states[n], states[n + 1], steps[n]);
    }
  }

  /** Every wait can be given up, and an evaluation can crash anywhere; a crash gives back all that it held. */
  lemma WaitsCanBeGivenUp(jobs: Jobs, s: System, i: Id) returns (s': System, step: Step)
    requires s.pcs.Keys == jobs.Keys && i in jobs
    requires s.pcs[i].WaitCoordinator? || s.pcs[i].WaitOutput? || s.pcs[i].WaitStore? || s.pcs[i].WaitRelease?
    ensures Next(jobs, s, s', step) && s'.owner == s.owner
    ensures s'.pcs[i] == match s.pcs[i]
                         case WaitCoordinator => Finished
                         case WaitOutput => Closing
                         case _ => Unwinding
  {
    var to := match s.pcs[i] case WaitCoordinator => Finished case WaitOutput => Closing case _ => Unwinding;
    s', step := System(s.owner, s.pcs[i := to]), Go(i, to);
  }

  lemma CrashGivesAllBack(jobs: Jobs, s: System, i: Id) returns (s': System)
    requires s.pcs.Keys == jobs.Keys && i in jobs
    ensures Next(jobs, s, s', Crash(i)) && s'.pcs == s.pcs[i := Finished]
    ensures forall p :: p in s'.owner ==> s'.owner[p] != i
    ensures forall p :: p in s.owner && s.owner[p] != i ==> p in s'.owner && s'.owner[p] == s.owner[p]
  {
    s' := System(map p | p in s.owner && s.owner[p] != i :: s.owner[p], s.pcs[i := Finished]);
  }

  /** For any number of evaluations over any roots: at most one per root is between taking the root's
      coordinator and giving it back, so creating, using and cleaning up a root never overlap. */
  lemma OnePerRoot(jobs: Jobs, states: seq<System>, steps: seq<Step>, i: Id, j: Id)
    requires ValidJobs(jobs) && Run(jobs, states, steps) && i in jobs && j in jobs
    requires jobs[i].root == jobs[j].root
    requires HoldsCoordinator(states[|steps|].pcs[i]) && HoldsCoordinator(states[|steps|].pcs[j])
    ensures i == j
  {
    ValidJobsAreApart(jobs);
    RunsKeepInv(jobs, states, steps);
    var s := states[|steps|];
    var p := jobs[i].coordinator;
    assert jobs[j].coordinator == p;
    assert Holds(jobs[i], s.pcs[i], p) && Holds(jobs[j], s.pcs[j], p);
    assert Owns(s, i, p) && Owns(s, j, p);
  }
}
