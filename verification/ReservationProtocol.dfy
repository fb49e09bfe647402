/** Many processes running Reserve, Release and Active on one store file, one system call at a
    time (pkg/gpu/reservation.go:69-97, 107-129, 137-152, 155-183, 220-268), with crashes
    anywhere. Every run refines the sequential store of module Reservation. */
module ReservationProtocol {
  import opened GpuIdentity
  import opened Ordering
  import opened Reservation

  type Pid = nat

  /** One completed operation: when its clock was read, what it did, and the file it left. */
  datatype Entry = Entry(pid: Pid, op: Op, now: int, token: string, outcome: Outcome, after: File)

  /** Where a process stands inside a call. */
  datatype Proc =
    | Idle
    | Waiting(op: Op)                        // in the lock retry loop
    | Holding(op: Op)                        // flock taken
    | Loaded(op: Op, seen: File)             // readState returned
    | Stamped(op: Op, seen: File, now: int)  // store.now() returned
    | Prepared(entry: Entry)                 // temporary file written, rename pending
    | Leaving(reply: Option<Outcome>)        // deferred unlock pending

  datatype System = System(
    file: File, lock: Option<Pid>, procs: map<Pid, Proc>, clock: int, tokens: set<string>, history: seq<Entry>)

  datatype Step =
    | Tick(to: int)
    | Invoke(pid: Pid, op: Op)
    | GiveUp(pid: Pid)
    | Acquire(pid: Pid)
    | Read(pid: Pid)
    | Stamp(pid: Pid)
    | Decide(pid: Pid, entry: Entry)
    | Commit(pid: Pid)
    | Fail(pid: Pid)
    | Unlock(pid: Pid)
    | Crash(pid: Pid)

  /** What it means for an entry to be performed on a file. */
  type Semantics = (File, Entry) -> bool

  ghost predicate Performs(f: File, e: Entry) {
    Effect(e.op, f, e.now, e.token, e.after, e.outcome)
  }

  /** Entry `e` is a release that carries this record's token and owner and lists `u`. */
  predicate Surrenders(e: Entry, token: string, owner: string, u: Uuid) {
    e.op.Release? && e.outcome == Dropped && e.op.lease.token == token && e.op.lease.owner == owner
    && u in e.op.lease.uuids
  }

  // The laws of one step that the arguments over whole runs rest on.

  ghost predicate RefusalsKeepFile(sem: Semantics) {
    forall f, e :: sem(f, e) && !Writes(e.outcome) ==> e.after == f
  }

  ghost predicate GrantsAreRecorded(sem: Semantics) {
    forall f, e, u :: sem(f, e) && e.outcome.Granted? && u in e.outcome.lease.uuids ==>
      u in Contents(e.after) && Contents(e.after)[u] == RecordOf(e.outcome.lease)
  }

  ghost predicate GrantsCarryToken(sem: Semantics) {
    forall f, e :: sem(f, e) && e.outcome.Granted? ==> e.outcome.lease.token == e.token
  }

  ghost predicate GrantsAreExclusive(sem: Semantics) {
    forall f, e, u :: sem(f, e) && e.outcome.Granted? && u in e.outcome.lease.uuids && u in Contents(f) ==>
      Contents(f)[u].expiresAt <= e.now
  }

  ghost predicate RecordsStay(sem: Semantics) {
    forall f, e, u :: (sem(f, e) && u in Contents(f) && e.now < Contents(f)[u].expiresAt
                       && !Surrenders(e, Contents(f)[u].token, Contents(f)[u].owner, u)) ==>
      u in Contents(e.after) && Contents(e.after)[u] == Contents(f)[u]
  }

  ghost predicate RecordsAreGranted(sem: Semantics) {
    forall f, e, u :: sem(f, e) && u in Contents(e.after) ==>
      || (u in Contents(f) && Contents(e.after)[u] == Contents(f)[u])
      || (e.outcome.Granted? && u in e.outcome.lease.uuids && Contents(e.after)[u] == RecordOf(e.outcome.lease))
  }

  ghost predicate Lawful(sem: Semantics) {
    RefusalsKeepFile(sem) && GrantsAreRecorded(sem) && GrantsCarryToken(sem) && GrantsAreExclusive(sem)
    && RecordsStay(sem) && RecordsAreGranted(sem)
  }

  function RecordOf(l: Lease): Record { Record(l.token, l.owner, l.expiresAt) }

  lemma StoreIsLawful()
    ensures Lawful(Performs)
  {
    RefusalLaws();
    AllGrantLaws();
    AllStayLaws();
    AllGrantedLaws();
  }

  lemma RefusalLaws()
    ensures RefusalsKeepFile(Performs) && GrantsCarryToken(Performs)
  {
    forall f, e | Performs(f, e)
      ensures !Writes(e.outcome) ==> e.after == f
      ensures e.outcome.Granted? ==> e.outcome.lease.token == e.token
    {
    }
  }

  lemma AllGrantLaws()
    ensures GrantsAreRecorded(Performs) && GrantsAreExclusive(Performs)
  {
    forall f, e, u | Performs(f, e) && e.outcome.Granted? && u in e.outcome.lease.uuids
      ensures u in Contents(e.after) && Contents(e.after)[u] == RecordOf(e.outcome.lease)
      ensures u in Contents(f) ==> Contents(f)[u].expiresAt <= e.now
    {
      GrantLaws(f, e, u);
    }
  }

  lemma AllStayLaws()
    ensures RecordsStay(Performs)
  {
    forall f, e, u | Performs(f, e) && u in Contents(f) && e.now < Contents(f)[u].expiresAt
                     && !Surrenders(e, Contents(f)[u].token, Contents(f)[u].owner, u)
      ensures u in Contents(e.after) && Contents(e.after)[u] == Contents(f)[u]
    {
      StayLaw(f, e, u);
    }
  }

  lemma AllGrantedLaws()
    ensures RecordsAreGranted(Performs)
  {
    forall f, e, u | Performs(f, e) && u in Contents(e.after)
      ensures || (u in Contents(f) && Contents(e.after)[u] == Contents(f)[u])
              || (e.outcome.Granted? && u in e.outcome.lease.uuids && Contents(e.after)[u] == RecordOf(e.outcome.lease))
    {
      GrantedLaw(f, e, u);
    }
  }

  lemma GrantLaws(f: File, e: Entry, u: Uuid)
    requires Performs(f, e) && e.outcome.Granted? && u in e.outcome.lease.uuids
    ensures u in Contents(e.after) && Contents(e.after)[u] == RecordOf(e.outcome.lease)
    ensures u in Contents(f) ==> Contents(f)[u].expiresAt <= e.now
  {
    SameMembers(e.outcome.lease.uuids, e.op.uuids);
    assert u !in Live(Contents(f), e.now);
  }

  lemma StayLaw(f: File, e: Entry, u: Uuid)
    requires Performs(f, e) && u in Contents(f) && e.now < Contents(f)[u].expiresAt
    requires !Surrenders(e, Contents(f)[u].token, Contents(f)[u].owner, u)
    ensures u in Contents(e.after) && Contents(e.after)[u] == Contents(f)[u]
  {
    assert u in Live(Contents(f), e.now);
  }

  lemma GrantedLaw(f: File, e: Entry, u: Uuid)
    requires Performs(f, e) && u in Contents(e.after)
    ensures || (u in Contents(f) && Contents(e.after)[u] == Contents(f)[u])
            || (e.outcome.Granted? && u in e.outcome.lease.uuids && Contents(e.after)[u] == RecordOf(e.outcome.lease))
  {
    if e.outcome.Granted? {
      SameMembers(e.outcome.lease.uuids, e.op.uuids);
    }
  }

  // ----- the step system -----

  predicate Critical(p: Proc) { !p.Idle? && !p.Waiting? }

  predicate Writes(out: Outcome) { out.Granted? || out.Dropped? }

  ghost predicate Init(s: System) {
    && s.lock == None && s.history == []
    && (forall p :: p in s.procs ==> s.procs[p] == Idle)
    && (forall u :: u in Contents(s.file) ==> Contents(s.file)[u].token in s.tokens)
  }

  /** `s'` is `s` after process `p` moved on; everything the step does not name stays. */
  ghost predicate Moves(s: System, s': System, p: Pid, to: Proc) {
    p in s.procs && s'.procs == s.procs[p := to] && s'.clock == s.clock
  }

  ghost predicate Same(s: System, s': System) {
    s'.file == s.file && s'.history == s.history && s'.tokens == s.tokens
  }

  ghost predicate Next(sem: Semantics, s: System, s': System, step: Step) {
    match step
    case Tick(to) => to >= s.clock && s' == s.(clock := to)
    case Invoke(p, op) =>
      Moves(s, s', p, Waiting(op)) && Same(s, s') && s'.lock == s.lock && s.procs[p].Idle? && ArgumentsOk(op)
    case GiveUp(p) =>
      Moves(s, s', p, Idle) && Same(s, s') && s'.lock == s.lock && s.procs[p].Waiting?
    case Acquire(p) =>
      p in s.procs && s.procs[p].Waiting? && s.lock == None &&
      Moves(s, s', p, Holding(s.procs[p].op)) && Same(s, s') && s'.lock == Some(p)
    case Read(p) =>
      p in s.procs && s.procs[p].Holding? &&
      Moves(s, s', p, Loaded(s.procs[p].op, s.file)) && Same(s, s') && s'.lock == s.lock
    case Stamp(p) =>
      p in s.procs && s.procs[p].Loaded? &&
      Moves(s, s', p, Stamped(s.procs[p].op, s.procs[p].seen, s.clock)) && Same(s, s') && s'.lock == s.lock
    case Decide(p, e) =>
      && p in s.procs && s.procs[p].Stamped? && s'.lock == s.lock && s'.file == s.file
      && e.pid == p && e.op == s.procs[p].op && e.now == s.procs[p].now
      && sem(s.procs[p].seen, e)
      && (e.outcome.Granted? ==> e.token !in s.tokens)
      && s'.tokens == s.tokens + {e.token}
      && if Writes(e.outcome) then
           Moves(s, s', p, Prepared(e)) && s'.history == s.history
         else
           Moves(s, s', p, Leaving(Some(e.outcome))) && s'.history == s.history + [e]
    case Commit(p) =>
      p in s.procs && s.procs[p].Prepared? && s'.lock == s.lock && s'.tokens == s.tokens &&
      var e := s.procs[p].entry;
      Moves(s, s', p, Leaving(Some(e.outcome))) && s'.file == e.after && s'.history == s.history + [e]
    case Fail(p) =>
      p in s.procs && Critical(s.procs[p]) && !s.procs[p].Leaving? &&
      Moves(s, s', p, Leaving(None)) && Same(s, s') && s'.lock == s.lock
    case Unlock(p) =>
      p in s.procs && s.procs[p].Leaving? && Moves(s, s', p, Idle) && Same(s, s') && s'.lock == None
    case Crash(p) =>
      Moves(s, s', p, Idle) && Same(s, s') && s'.lock == if s.lock == Some(p) then None else s.lock
  }

  ghost predicate Run(sem: Semantics, states: seq<System>, steps: seq<Step>) {
    && |states| == |steps| + 1
    && Init(states[0])
    && forall i :: 0 <= i < |steps| ==> Next(sem, states[i], states[i + 1], steps[i])
  }

  // What can happen: without these, the claims about every run would be about too few.

  /** A process can crash anywhere. */
  lemma CrashIsAlwaysPossible(sem: Semantics, s: System, p: Pid) returns (s': System)
    requires p in s.procs
    ensures Next(sem, s, s', Crash(p)) && s'.procs[p] == Idle && s'.lock != Some(p)
  {
    s' := s.(procs := s.procs[p := Idle], lock := if s.lock == Some(p) then None else s.lock);
  }

  /** A call can give up waiting for the lock, and fail at any point inside. */
  lemma CallsCanFail(sem: Semantics, s: System, p: Pid) returns (s': System, step: Step)
    requires p in s.procs && !s.procs[p].Idle? && !s.procs[p].Leaving?
    ensures Next(sem, s, s', step) && s'.file == s.file && s'.history == s.history
    ensures s'.procs[p] == if s.procs[p].Waiting? then Idle else Leaving(None)
  {
    if s.procs[p].Waiting? {
      s', step := s.(procs := s.procs[p := Idle]), GiveUp(p);
    } else {
      s', step := s.(procs := s.procs[p := Leaving(None)]), Fail(p);
    }
  }

  /** Where the lock is free, a call that is not disturbed goes through, whatever it does: a grant, a release, a
      listing or a refusal. */
  lemma CallCompletes(sem: Semantics, s: System, p: Pid, e: Entry) returns (states: seq<System>, steps: seq<Step>)
    requires p in s.procs && s.procs[p].Idle? && s.lock == None && ArgumentsOk(e.op) && e.pid == p && e.now == s.clock
    requires sem(s.file, e) && (e.outcome.Granted? ==> e.token !in s.tokens) && RefusalsKeepFile(sem)
    ensures |states| == |steps| + 1 && states[0] == s
    ensures forall i :: 0 <= i < |steps| ==> Next(sem, states[i], states[i + 1], steps[i])
    ensures states[|steps|].file == e.after && states[|steps|].history == s.history + [e]
    ensures states[|steps|].procs == s.procs && states[|steps|].lock == None
  {
    var s1 := s.(procs := s.procs[p := Waiting(e.op)]);
    var s2 := s1.(procs := s1.procs[p := Holding(e.op)], lock := Some(p));
    var s3 := s2.(procs := s2.procs[p := Loaded(e.op, s.file)]);
    var s4 := s3.(procs := s3.procs[p := Stamped(e.op, s.file, s.clock)]);
    var s6, more := Finishing(sem, s4, p, e);
    var s7 := s6[|more|].(procs := s6[|more|].procs[p := Idle], lock := None);
    assert s7.procs == s.procs;
    states := [s, s1, s2, s3] + s6 + [s7];
    steps := [Invoke(p, e.op), Acquire(p), Read(p), Stamp(p)] + more + [Unlock(p)];
    forall i | 0 <= i < |steps| ensures Next(sem, states[i], states[i + 1], steps[i]) {
      if 4 <= i < 4 + |more| {
        assert states[i] == s6[i - 4] && states[i + 1] == s6[i - 3] && steps[i] == more[i - 4];
      }
    }
  }

  lemma Finishing(sem: Semantics, s: System, p: Pid, e: Entry) returns (states: seq<System>, steps: seq<Step>)
    requires p in s.procs && s.procs[p] == Stamped(e.op, s.file, e.now) && e.pid == p && s.lock == Some(p)
    requires sem(s.file, e) && (e.outcome.Granted? ==> e.token !in s.tokens) && RefusalsKeepFile(sem)
    ensures |states| == |steps| + 1 && states[0] == s
    ensures forall i :: 0 <= i < |steps| ==> Next(sem, states[i], states[i + 1], steps[i])
    ensures states[|steps|].file == e.after && states[|steps|].history == s.history + [e] && states[|steps|].lock == Some(p)
    ensures states[|steps|].procs == s.procs[p := Leaving(Some(e.outcome))]
  {
    if Writes(e.outcome) {
      var s1 := s.(procs := s.procs[p := Prepared(e)], tokens := s.tokens + {e.token});
      var s2 := s1.(procs := s1.procs[p := Leaving(Some(e.outcome))], file := e.after, history := s.history + [e]);
      states, steps := [s, s1, s2], [Decide(p, e), Commit(p)];
    } else {
      var s1 := s.(procs := s.procs[p := Leaving(Some(e.outcome))], tokens := s.tokens + {e.token}, history := s.history + [e]);
      states, steps := [s, s1], [Decide(p, e)];
    }
  }

  // ----- the sequential store the runs refine -----

  function FileAt(f0: File, h: seq<Entry>, n: nat): File
    requires n <= |h|
  {
    if n == 0 then f0 else h[n - 1].after
  }

  /** Each entry is one atomic operation on the file its predecessor left. */
  ghost predicate Sequential(sem: Semantics, f0: File, h: seq<Entry>) {
    forall i {:trigger FileAt(f0, h, i)} :: 0 <= i < |h| ==> sem(FileAt(f0, h, i), h[i])
  }

  ghost predicate InTimeOrder(h: seq<Entry>) {
    forall i, j :: 0 <= i <= j < |h| ==> h[i].now <= h[j].now
  }

  ghost predicate AllBy(h: seq<Entry>, now: int) {
    forall i :: 0 <= i < |h| ==> h[i].now <= now
  }

  ghost predicate FreshTokens(h: seq<Entry>) {
    forall i, j :: 0 <= i < j < |h| && h[i].outcome.Granted? && h[j].outcome.Granted? ==> h[i].token != h[j].token
  }

  ghost predicate TokensUsed(h: seq<Entry>, tokens: set<string>) {
    forall i :: 0 <= i < |h| ==> h[i].token in tokens
  }

  /** What a process may rely on where it stands. */
  ghost predicate ProcOk(sem: Semantics, s: System, p: Pid, proc: Proc) {
    match proc
    case Loaded(op, seen) => seen == s.file
    case Stamped(op, seen, now) => seen == s.file && AllBy(s.history, now) && now <= s.clock
    case Prepared(e) =>
      && e.pid == p && AllBy(s.history, e.now) && e.now <= s.clock
      && sem(s.file, e)
      && e.token in s.tokens
      && (e.outcome.Granted? ==> forall i :: 0 <= i < |s.history| ==> s.history[i].token != e.token)
    case Leaving(Some(out)) => s.history != [] && s.history[|s.history| - 1].pid == p && s.history[|s.history| - 1].outcome == out
    case _ => true
  }

  ghost predicate Inv(sem: Semantics, f0: File, s: System) {
    && (s.lock.Some? ==> s.lock.value in s.procs)
    && (forall p :: p in s.procs ==> (Critical(s.procs[p]) <==> s.lock == Some(p)))
    && (forall p :: p in s.procs ==> ProcOk(sem, s, p, s.procs[p]))
    && Sequential(sem, f0, s.history) && FileAt(f0, s.history, |s.history|) == s.file
    && InTimeOrder(s.history) && AllBy(s.history, s.clock)
    && FreshTokens(s.history) && TokensUsed(s.history, s.tokens)
  }

  /** The file is as it was, or one whole operation has been performed on it. */
  ghost predicate OneOperationOrNone(sem: Semantics, s: System, s': System) {
    || (s'.history == s.history && s'.file == s.file)
    || (exists e :: s'.history == s.history + [e] && sem(s.file, e) && s'.file == e.after)
  }

  /** Completing an entry extends the sequential history by one atomic operation. */
  lemma Append(sem: Semantics, f0: File, s: System, e: Entry)
    requires Inv(sem, f0, s) && AllBy(s.history, e.now) && e.now <= s.clock && sem(s.file, e)
    requires e.outcome.Granted? ==> forall i :: 0 <= i < |s.history| ==> s.history[i].token != e.token
    ensures Sequential(sem, f0, s.history + [e]) && FileAt(f0, s.history + [e], |s.history| + 1) == e.after
    ensures InTimeOrder(s.history + [e]) && AllBy(s.history + [e], s.clock) && FreshTokens(s.history + [e])
  {
    var h := s.history + [e];
    forall i | 0 <= i < |h| ensures sem(FileAt(f0, h, i), h[i]) {
      assert FileAt(f0, h, i) == FileAt(f0, s.history, i);
    }
  }

  lemma DecideKeepsInv(sem: Semantics, f0: File, s: System, s': System, p: Pid, e: Entry)
    requires RefusalsKeepFile(sem) && Inv(sem, f0, s) && Next(sem, s, s', Decide(p, e))
    ensures Inv(sem, f0, s') && OneOperationOrNone(sem, s, s')
  {
    assert ProcOk(sem, s, p, s.procs[p]) && s.procs[p].seen == s.file;
    if !Writes(e.outcome) {
      Append(sem, f0, s, e);
    }
    forall q | q in s'.procs ensures ProcOk(sem, s', q, s'.procs[q]) {
      if q != p {
        assert !Critical(s.procs[q]);
      }
    }
  }

  lemma CommitKeepsInv(sem: Semantics, f0: File, s: System, s': System, p: Pid)
    requires Inv(sem, f0, s) && Next(sem, s, s', Commit(p))
    ensures Inv(sem, f0, s') && OneOperationOrNone(sem, s, s')
  {
    assert ProcOk(sem, s, p, s.procs[p]);
    Append(sem, f0, s, s.procs[p].entry);
    forall q | q in s'.procs ensures ProcOk(sem, s', q, s'.procs[q]) {
      if q != p {
        assert !Critical(s.procs[q]);
      }
    }
  }

  lemma QuietKeepsInv(sem: Semantics, f0: File, s: System, s': System, step: Step)
    requires Inv(sem, f0, s) && Next(sem, s, s', step) && !step.Decide? && !step.Commit?
    ensures Inv(sem, f0, s') && Same(s, s')
  {
    forall q | q in s'.procs ensures ProcOk(sem, s', q, s'.procs[q]) {
      assert ProcOk(sem, s, q, s.procs[q]);
    }
  }

  /** One step of any process leaves the file alone or performs exactly one whole operation on it,
      and whoever got an answer finds its operation, with that answer, at the end of the history. */
  lemma StepRefinesSequentialStore(sem: Semantics, f0: File, s: System, s': System, step: Step)
    requires RefusalsKeepFile(sem) && Inv(sem, f0, s) && Next(sem, s, s', step)
    ensures Inv(sem, f0, s') && OneOperationOrNone(sem, s, s')
  {
    if step.Decide? {
      DecideKeepsInv(sem, f0, s, s', step.pid, step.entry);
    } else if step.Commit? {
      CommitKeepsInv(sem, f0, s, s', step.pid);
    } else {
      QuietKeepsInv(sem, f0, s, s', step);
    }
  }

  lemma {:induction false} RunsRefine(sem: Semantics, states: seq<System>, steps: seq<Step>)
    requires RefusalsKeepFile(sem) && Run(sem, states, steps)
    ensures Inv(sem, states[0].file, states[|steps|])
    decreases |steps|
  {
    if steps == [] {
      assert FileAt(states[0].file, [], 0) == states[0].file;
    } else {
      var n := |steps| - 1;
      RunsRefine(sem, states[..n + 1], steps[..n]);
      StepRefinesSequentialStore(sem, states[0].file, states[n], states[n + 1], steps[n]);
    }
  }

  /** Every interleaving of any number of processes, with crashes, behaves like the sequential store:
      the completed operations, in the order in which they took effect, replay to the file; their
      clock readings never go back; no token is granted twice; and at most one process is inside. */
  lemma RunsRefineSequentialStore(states: seq<System>, steps: seq<Step>)
    requires Run(Performs, states, steps)
    ensures var s := states[|steps|];
            && Sequential(Performs, states[0].file, s.history)
            && FileAt(states[0].file, s.history, |s.history|) == s.file
            && InTimeOrder(s.history) && AllBy(s.history, s.clock) && FreshTokens(s.history)
            && (forall p, q :: p in s.procs && q in s.procs && Critical(s.procs[p]) && Critical(s.procs[q]) ==> p == q)
  {
    StoreIsLawful();
    RunsRefine(Performs, states, steps);
  }

  /** At every step of every run, what the file holds is the state before or after one whole operation, and
      the history records that operation at that very step: nobody ever sees half of one. */
  lemma EveryStepIsOneOperationOrNone(states: seq<System>, steps: seq<Step>, k: nat)
    requires Run(Performs, states, steps) && k < |steps|
    ensures OneOperationOrNone(Performs, states[k], states[k + 1])
  {
    StoreIsLawful();
    RunsRefine(Performs, states[..k + 1], steps[..k]);
    StepRefinesSequentialStore(Performs, states[0].file, states[k], states[k + 1], steps[k]);
  }

  lemma {:induction false} ClockAdvances(sem: Semantics, states: seq<System>, steps: seq<Step>, i: nat, j: nat)
    requires Run(sem, states, steps) && i <= j <= |steps|
    ensures states[i].clock <= states[j].clock
    decreases j - i
  {
    if i < j {
      ClockAdvances(sem, states, steps, i, j - 1);
      assert Next(sem, states[j - 1], states[j], steps[j - 1]);
    }
  }

  /** Process `p` was called with `op`, and its clock then showed at most `now`. */
  ghost predicate Began(states: seq<System>, steps: seq<Step>, p: Pid, op: Op, now: int) {
    exists n :: 0 <= n < |steps| && n < |states| && steps[n] == Invoke(p, op) && states[n].clock <= now
  }

  /** Every call under way, and every entry of the history, began with an invocation, and read the clock later. */
  ghost predicate AllBegan(states: seq<System>, steps: seq<Step>, s: System) {
    && (forall p :: p in s.procs ==> ProcBegan(states, steps, s, p, s.procs[p]))
    && (forall k :: 0 <= k < |s.history| ==> Began(states, steps, s.history[k].pid, s.history[k].op, s.history[k].now))
  }

  ghost predicate ProcBegan(states: seq<System>, steps: seq<Step>, s: System, p: Pid, proc: Proc) {
    match proc
    case Waiting(op) => Began(states, steps, p, op, s.clock)
    case Holding(op) => Began(states, steps, p, op, s.clock)
    case Loaded(op, _) => Began(states, steps, p, op, s.clock)
    case Stamped(op, _, now) => Began(states, steps, p, op, now)
    case Prepared(e) => e.pid == p && Began(states, steps, p, e.op, e.now)
    case _ => true
  }

  lemma BeganEarlier(states: seq<System>, steps: seq<Step>, n: nat, p: Pid, op: Op, now: int, later: int)
    requires n <= |steps| && n < |states| && Began(states[..n + 1], steps[..n], p, op, now) && now <= later
    ensures Began(states, steps, p, op, later)
  {
    var i :| 0 <= i < n && steps[..n][i] == Invoke(p, op) && states[..n + 1][i].clock <= now;
    assert steps[i] == Invoke(p, op) && states[i].clock <= later;
  }

  lemma ProcStillBegan(sem: Semantics, states: seq<System>, steps: seq<Step>, p: Pid)
    requires |states| == |steps| + 1 && steps != []
    requires var n := |steps| - 1;
             Next(sem, states[n], states[n + 1], steps[n]) && AllBegan(states[..n + 1], steps[..n], states[n])
    requires p in states[|steps|].procs
    ensures ProcBegan(states, steps, states[|steps|], p, states[|steps|].procs[p])
  {
    var n := |steps| - 1;
    var s, s' := states[n], states[n + 1];
    assert p in s.procs && ProcBegan(states[..n + 1], steps[..n], s, p, s.procs[p]);
    match s.procs[p]
    case Waiting(op) => BeganEarlier(states, steps, n, p, op, s.clock, s'.clock);
    case Holding(op) => BeganEarlier(states, steps, n, p, op, s.clock, s'.clock);
    case Loaded(op, _) => BeganEarlier(states, steps, n, p, op, s.clock, s'.clock);
    case Stamped(op, _, now) => BeganEarlier(states, steps, n, p, op, now, now);
    case Prepared(e) => BeganEarlier(states, steps, n, p, e.op, e.now, e.now);
    case Idle =>
      if steps[n].Invoke? && steps[n].pid == p {
        assert steps[n] == Invoke(p, steps[n].op) && states[n].clock <= s'.clock;
      }
    case Leaving(_) =>
  }

  lemma EntryBegan(sem: Semantics, states: seq<System>, steps: seq<Step>, k: nat)
    requires |states| == |steps| + 1 && steps != []
    requires var n := |steps| - 1;
             Next(sem, states[n], states[n + 1], steps[n]) && AllBegan(states[..n + 1], steps[..n], states[n])
    requires k < |states[|steps|].history|
    ensures var e := states[|steps|].history[k]; Began(states, steps, e.pid, e.op, e.now)
  {
    var n := |steps| - 1;
    var s, e := states[n], states[n + 1].history[k];
    if k >= |s.history| {
      assert ProcBegan(states[..n + 1], steps[..n], s, e.pid, s.procs[e.pid]);
    }
    BeganEarlier(states, steps, n, e.pid, e.op, e.now, e.now);
  }

  lemma {:induction false} EveryCallBegan(sem: Semantics, states: seq<System>, steps: seq<Step>)
    requires Run(sem, states, steps)
    ensures AllBegan(states, steps, states[|steps|])
    decreases |steps|
  {
    if steps != [] {
      var n := |steps| - 1;
      EveryCallBegan(sem, states[..n + 1], steps[..n]);
      forall p | p in states[|steps|].procs ensures ProcBegan(states, steps, states[|steps|], p, states[|steps|].procs[p]) {
        ProcStillBegan(sem, states, steps, p);
      }
      forall k | 0 <= k < |states[|steps|].history|
        ensures var e := states[|steps|].history[k]; Began(states, steps, e.pid, e.op, e.now)
      {
        EntryBegan(sem, states, steps, k);
      }
    }
  }

  // ----- leases over whole runs -----

  /** Until its expiry or its own release, a granted record stays in the file. */
  lemma {:induction false} GrantPersists(sem: Semantics, f0: File, h: seq<Entry>, i: nat, n: nat, u: Uuid)
    requires GrantsAreRecorded(sem) && RecordsStay(sem) && Sequential(sem, f0, h)
    requires i < n <= |h| && h[i].outcome.Granted? && u in h[i].outcome.lease.uuids
    requires forall k :: i < k < n ==> h[k].now < h[i].outcome.lease.expiresAt
    requires forall k :: i < k < n ==> !Surrenders(h[k], h[i].outcome.lease.token, h[i].outcome.lease.owner, u)
    ensures u in Contents(FileAt(f0, h, n)) && Contents(FileAt(f0, h, n))[u] == RecordOf(h[i].outcome.lease)
    decreases n
  {
    assert sem(FileAt(f0, h, n - 1), h[n - 1]);
    if n > i + 1 {
      GrantPersists(sem, f0, h, i, n - 1, u);
    }
  }

  lemma LeasesExclude(sem: Semantics, f0: File, h: seq<Entry>, i: nat, j: nat, u: Uuid)
    requires GrantsAreRecorded(sem) && RecordsStay(sem) && GrantsAreExclusive(sem)
    requires Sequential(sem, f0, h) && InTimeOrder(h)
    requires i < j < |h| && h[i].outcome.Granted? && h[j].outcome.Granted?
    requires u in h[i].outcome.lease.uuids && u in h[j].outcome.lease.uuids
    ensures h[j].now >= h[i].outcome.lease.expiresAt ||
            exists k :: i < k < j && Surrenders(h[k], h[i].outcome.lease.token, h[i].outcome.lease.owner, u)
  {
    var l := h[i].outcome.lease;
    assert sem(FileAt(f0, h, j), h[j]);
    if h[j].now < l.expiresAt && !exists k :: i < k < j && Surrenders(h[k], l.token, l.owner, u) {
      GrantPersists(sem, f0, h, i, j, u);
    }
  }

  /** Two grants that share a GPU, in any run: the later one reads its clock at or after the earlier
      lease's expiry, or comes after a release that carried the earlier lease's token, owner and that GPU. */
  lemma LeasesExcludeOverRuns(states: seq<System>, steps: seq<Step>, i: nat, j: nat, u: Uuid)
    requires Run(Performs, states, steps)
    requires i < j < |states[|steps|].history|
    requires states[|steps|].history[i].outcome.Granted? && states[|steps|].history[j].outcome.Granted?
    requires u in states[|steps|].history[i].outcome.lease.uuids && u in states[|steps|].history[j].outcome.lease.uuids
    ensures var h := states[|steps|].history;
            var lease := h[i].outcome.lease;
            h[j].now >= lease.expiresAt || exists k :: i < k < j && Surrenders(h[k], lease.token, lease.owner, u)
  {
    StoreIsLawful();
    RunsRefine(Performs, states, steps);
    LeasesExclude(Performs, states[0].file, states[|steps|].history, i, j, u);
  }

  ghost predicate TokenAbsent(f: File, token: string) {
    forall u :: u in Contents(f) ==> Contents(f)[u].token != token
  }

  /** Whatever a file holds under the lease's token is what the lease was granted. */
  ghost predicate OnlyFrom(f: File, lease: Lease) {
    forall u :: u in Contents(f) && Contents(f)[u].token == lease.token ==>
      u in lease.uuids && Contents(f)[u] == RecordOf(lease)
  }

  lemma {:induction false} TokenNamesOneLease(sem: Semantics, f0: File, h: seq<Entry>, i: nat, n: nat)
    requires GrantsCarryToken(sem) && RecordsAreGranted(sem) && Sequential(sem, f0, h) && FreshTokens(h)
    requires n <= |h| && i < |h| && h[i].outcome.Granted? && TokenAbsent(f0, h[i].token)
    ensures n <= i ==> TokenAbsent(FileAt(f0, h, n), h[i].token)
    ensures n > i ==> OnlyFrom(FileAt(f0, h, n), h[i].outcome.lease)
    decreases n
  {
    if n > 0 {
      TokenNamesOneLease(sem, f0, h, i, n - 1);
      TokenStep(sem, f0, h, i, n - 1);
    }
  }

  lemma TokenStep(sem: Semantics, f0: File, h: seq<Entry>, i: nat, n: nat)
    requires GrantsCarryToken(sem) && RecordsAreGranted(sem) && Sequential(sem, f0, h) && FreshTokens(h)
    requires n < |h| && i < |h| && h[i].outcome.Granted?
    requires if n <= i then TokenAbsent(FileAt(f0, h, n), h[i].token) else OnlyFrom(FileAt(f0, h, n), h[i].outcome.lease)
    ensures n < i ==> TokenAbsent(h[n].after, h[i].token)
    ensures n >= i ==> OnlyFrom(h[n].after, h[i].outcome.lease)
  {
    assert sem(FileAt(f0, h, n), h[n]) && sem(FileAt(f0, h, i), h[i]);
  }

  /** No grant, done or about to be committed, uses a token that the first file already held. */
  ghost predicate NewTokens(f0: File, s: System) {
    && (forall u :: u in Contents(f0) ==> Contents(f0)[u].token in s.tokens)
    && (forall i :: 0 <= i < |s.history| && s.history[i].outcome.Granted? ==> TokenAbsent(f0, s.history[i].token))
    && (forall p :: p in s.procs && s.procs[p].Prepared? && s.procs[p].entry.outcome.Granted? ==>
          TokenAbsent(f0, s.procs[p].entry.token))
  }

  lemma StepKeepsNewTokens(sem: Semantics, f0: File, s: System, s': System, step: Step)
    requires NewTokens(f0, s) && Next(sem, s, s', step)
    ensures NewTokens(f0, s')
  {
    if step.Decide? && step.entry.outcome.Granted? {
      assert TokenAbsent(f0, step.entry.token);
    }
  }

  lemma {:induction false} RunsUseNewTokens(sem: Semantics, states: seq<System>, steps: seq<Step>)
    requires Run(sem, states, steps)
    ensures NewTokens(states[0].file, states[|steps|])
    decreases |steps|
  {
    if steps != [] {
      var n := |steps| - 1;
      RunsUseNewTokens(sem, states[..n + 1], steps[..n]);
      StepKeepsNewTokens(sem, states[0].file, states[n], states[n + 1], steps[n]);
    }
  }

  /** Tokens are fresh, so in every run a token names one lease: every record in the file that
      carries it is one that this grant wrote, and only its holder can surrender them. */
  lemma TokenNamesOneLeaseOverRuns(states: seq<System>, steps: seq<Step>, i: nat)
    requires Run(Performs, states, steps)
    requires i < |states[|steps|].history| && states[|steps|].history[i].outcome.Granted?
    ensures OnlyFrom(states[|steps|].file, states[|steps|].history[i].outcome.lease)
  {
    StoreIsLawful();
    RunsRefine(Performs, states, steps);
    RunsUseNewTokens(Performs, states, steps);
    TokenNamesOneLease(Performs, states[0].file, states[|steps|].history, i, |states[|steps|].history|);
  }
}
