/** `EvaluationAction.Execute` with its locks, lease, command and three deferred functions that rewrite
    the named results (pkg/orchestrate/evaluation.go:185-358, 655-666, 907-930). */
module Evaluation {
  import opened GpuIdentity
  import opened EvaluationLocks
  import opened OutputRoot

  /** Error codes. `Blank` is the empty string; `Other` stands for the codes that come from outside this file. */
  datatype Code =
    | Blank | Other(id: nat)
    | ActionFailed | ActionTimeout | CleanupFailed | EvaluationFailed | InspectionFailed
    | OutputLockFailed | OutputRootCleanupFailed | OutputRootSpaceFailed | OutputSnapshotFailed
    | OutputTruncated | ReservationFailed | RootFailed(error: RootError)

  /** An error value: `Some(code)` when an EvaluationError can be unwrapped from it. */
  datatype Error = Error(code: Option<Code>)

  datatype CleanupRecord = NotAttempted | Preserved | Removed

  datatype Result = Result(
    success: bool, errorCode: Code, released: bool, rootCreated: bool, cleanup: CleanupRecord, token: string)

  /** Everything the surroundings decide during one call. */
  datatype Script = Script(
    validation: Option<Code>,        // code of validate's error
    parent: Option<Code>,            // code of prepareOutputRootParent's error
    path: Path, fs: Fs,              // the output root, and the file system with its parents in place
    coordinatorId: nat, coordinating: World,
    newId: nat, preparing: World,
    spaceKnown: bool,
    lockId: nat, locking: World,
    inventory: Option<Code>,         // code of resolveInventory's error
    lease: Option<string>,           // token, or None when Reserve fails
    releaseWorks: bool,
    snapshotBefore: bool,
    inspection: Option<Error>,       // the inspector's error, of any kind
    inspected: Option<Code>,         // code of validateInspection's error
    timedOut: bool, truncated: bool, commandFailed: bool,
    snapshotAfter: bool,
    job: Option<Code>,               // code of validateNewJob's error
    meanwhile: Fs -> Fs,             // what happens to the file system between the output lock and cleanup
    cleaning: World)

  /** The codes of the package's own checks are constants, none of them empty. */
  predicate OwnCodes(s: Script) {
    && s.validation != Some(Blank) && s.parent != Some(Blank) && s.inventory != Some(Blank)
    && s.inspected != Some(Blank) && s.job != Some(Blank)
  }

  /** `validate` rejects a file system root, lines 100-102 of evaluation_filesystem.go. */
  predicate Possible(s: Script) { OwnCodes(s) && (s.validation.None? ==> s.path != []) }

  // ----- an independent account of what may happen in which order -----

  datatype Event =
    | CoordinatorLocked | RootMade | OutputLocked | Granted(token: string)
    | CommandStarted | CommandEnded | ReleaseTried(token: string, ok: bool)
    | OutputFileUnlocked | CleanupRan(ok: bool) | OutputMutexUnlocked | CoordinatorUnlocked

  datatype Monitor = Monitor(
    coordinator: bool, output: bool, mutex: bool, lease: Option<string>, running: bool,
    made: bool, granted: bool, started: bool, cleaned: bool, released: bool, closing: bool)

  const FRESH := Monitor(false, false, false, None, false, false, false, false, false, false, false)

  /** The coordinator covers everything; the lease lives inside the output lock; the command lives inside
      the lease; cleanup needs a root made here, no command ever started, and the output file unlocked. */
  ghost function Observe(m: Monitor, e: Event): Option<Monitor> {
    match e
    case CoordinatorLocked => if m == FRESH then Some(m.(coordinator := true)) else None
    case RootMade =>
      if m.coordinator && !m.output && !m.mutex && !m.made && !m.closing then Some(m.(made := true)) else None
    case OutputLocked =>
      if m.coordinator && !m.output && !m.mutex && !m.closing && !m.cleaned
      then Some(m.(output := true, mutex := true)) else None
    case Granted(t) =>
      if m.output && !m.granted then Some(m.(granted := true, lease := Some(t))) else None
    case CommandStarted =>
      if m.lease.Some? && !m.started then Some(m.(started := true, running := true)) else None
    case CommandEnded => if m.running then Some(m.(running := false)) else None
    case ReleaseTried(t, ok) =>
      if m.lease == Some(t) && !m.running && m.output then Some(m.(lease := None, released := ok)) else None
    case OutputFileUnlocked =>
      if m.output && m.lease.None? then Some(m.(output := false, closing := true)) else None
    case CleanupRan(ok) =>
      if m.coordinator && !m.output && m.made && !m.started && m.lease.None? && !m.cleaned
      then Some(m.(cleaned := true)) else None
    case OutputMutexUnlocked => if m.mutex && !m.output then Some(m.(mutex := false)) else None
    case CoordinatorUnlocked =>
      if m.coordinator && !m.output && !m.mutex && m.lease.None? 
      then Some(m.(coordinator := false, closing := true)) else None
  }

  ghost function Watch(log: seq<Event>): Option<Monitor> {
    if log == [] then Some(FRESH)
    else match Watch(log[..|log| - 1])
         case None => None
         case Some(m) => Observe(m, log[|log| - 1])
  }

  function Emit(log: seq<Event>, ghost m: Monitor, e: Event): (r: seq<Event>)
    requires Watch(log) == Some(m) && Observe(m, e).Some?
    ensures Watch(r) == Observe(m, e) && r == log + [e]
  {
    assert (log + [e])[..|log|] == log;
    log + [e]
  }

  // What an accepted log means.

  ghost function Count(log: seq<Event>, p: Event -> bool): nat {
    if log == [] then 0 else Count(log[..|log| - 1], p) + if p(log[|log| - 1]) then 1 else 0
  }

  const IS_GRANT: Event -> bool := (e: Event) => e.Granted?
  const IS_RELEASE: Event -> bool := (e: Event) => e.ReleaseTried?
  const IS_START: Event -> bool := (e: Event) => e.CommandStarted?

  ghost predicate Sound(m: Monitor) {
    (m.lease.Some? ==> m.granted) && (m.running ==> m.lease.Some?)
  }

  lemma ObserveLaws(m: Monitor, e: Event)
    requires Sound(m) && Observe(m, e).Some?
    ensures var m' := Observe(m, e).value;
            && Sound(m')
            && (e.Granted? ==> !m.granted) && m'.granted == (m.granted || e.Granted?)
            && (e.ReleaseTried? <==> m.lease.Some? && m'.lease.None?) && (e.Granted? <==> m.lease.None? && m'.lease.Some?)
            && (e.CommandStarted? ==> !m.started) && m'.started == (m.started || e.CommandStarted?)
  {
  }

  lemma {:induction false} WatchCounts(log: seq<Event>)
    requires Watch(log).Some?
    ensures var m := Watch(log).value;
            && Sound(m)
            && Count(log, IS_GRANT) == (if m.granted then 1 else 0)
            && Count(log, IS_RELEASE) == (if m.granted && m.lease.None? then 1 else 0)
            && Count(log, IS_START) == (if m.started then 1 else 0)
  {
    if log != [] {
      var n := |log| - 1;
      WatchCounts(log[..n]);
      ObserveLaws(Watch(log[..n]).value, log[n]);
    }
  }

  lemma {:induction false} PrefixIsWatched(log: seq<Event>, n: nat)
    requires Watch(log).Some? && n <= |log|
    ensures Watch(log[..n]).Some?
    decreases |log| - n
  {
    if n == |log| {
      assert log[..n] == log;
    } else {
      PrefixIsWatched(log, n + 1);
      assert log[..n + 1][..n] == log[..n];
    }
  }

  /** In an accepted log a lease is released at most once, never before its command has ended, and wherever
      the output lock or the coordinator is given up, every lease granted so far has been released. */
  lemma AcceptedLogIsOrdered(log: seq<Event>, n: nat)
    requires Watch(log).Some? && n < |log|
    ensures Count(log, IS_GRANT) <= 1 && Count(log, IS_RELEASE) <= Count(log, IS_GRANT)
    ensures log[n].OutputFileUnlocked? || log[n].CoordinatorUnlocked? || log[n].CleanupRan? ==>
              Count(log[..n], IS_GRANT) == Count(log[..n], IS_RELEASE)
    ensures log[n].ReleaseTried? ==> Count(log[..n], IS_GRANT) == 1 && Count(log[..n], IS_RELEASE) == 0
                                     && (Watch(log[..n]).Some? ==> !Watch(log[..n]).value.running)
    ensures log[n].CommandStarted? ==> Count(log[..n], IS_GRANT) == 1 && Count(log[..n], IS_RELEASE) == 0
    ensures log[n].CleanupRan? ==> Count(log[..n], IS_START) == 0
  {
    WatchCounts(log);
    PrefixIsWatched(log, n + 1);
    PrefixIsWatched(log, n);
    WatchCounts(log[..n]);
    assert log[..n + 1][..n] == log[..n];
  }

  lemma {:induction false} CountSeen(log: seq<Event>, p: Event -> bool, k: nat)
    requires k < |log| && p(log[k])
    ensures Count(log, p) >= 1
  {
    if k < |log| - 1 {
      CountSeen(log[..|log| - 1], p, k);
    }
  }

  /** In an accepted log the command ends before the lease is released. */
  lemma CommandEndsBeforeRelease(log: seq<Event>, e: nat, k: nat)
    requires Watch(log).Some? && e < |log| && k < |log| && log[e].CommandEnded? && log[k].ReleaseTried?
    ensures e < k
  {
    PrefixIsWatched(log, e + 1);
    PrefixIsWatched(log, e);
    assert log[..e + 1][..e] == log[..e];
    WatchCounts(log[..e]);
    if k < e {
      CountSeen(log[..e], IS_RELEASE, k);
    }
  }

  // ----- the code -----

  function Fail(r: Result, e: Error): Result {
    r.(success := false, errorCode := if e.code.Some? then e.code.value else EvaluationFailed)
  }

  /** The result tells the truth about success: no error, empty code and success go together. */
  predicate Truthful(r: Result, err: Option<Error>) {
    (r.success <==> err.None?) && (r.errorCode == Blank <==> err.None?)
  }

  /** As `Truthful`, but an error may have come with an empty code. */
  predicate TruthfulUpToCode(r: Result, err: Option<Error>) {
    && (r.success <==> err.None?) && (err.None? ==> r.errorCode == Blank)
    && (err.Some? ==> r.errorCode == if err.value.code.Some? then err.value.code.value else EvaluationFailed)
  }

  /** The inspector's error carries an empty code. */
  predicate SilentInspector(s: Script) { s.inspection == Some(Error(Some(Blank))) }

  /** Inspection, command and output are all in order. */
  predicate Clean(s: Script) {
    && s.snapshotBefore && s.inspection.None? && s.inspected.None?
    && !s.timedOut && !s.truncated && !s.commandFailed && s.snapshotAfter && s.job.None?
  }

  // The code of the error each stretch of the call ends with, if any.

  function BeforeCode(s: Script): Option<Code> {
    if !s.snapshotBefore then Some(OutputSnapshotFailed)
    else if s.inspection.Some? then (if s.inspection.value.code.Some? then s.inspection.value.code else Some(InspectionFailed))
    else s.inspected
  }

  function AfterCode(s: Script): Option<Code> {
    if s.timedOut then Some(ActionTimeout)
    else if s.truncated then Some(OutputTruncated)
    else if s.commandFailed then Some(ActionFailed)
    else if !s.snapshotAfter then Some(OutputSnapshotFailed)
    else s.job
  }

  function LeasedCode(s: Script): Option<Code> { if BeforeCode(s).Some? then BeforeCode(s) else AfterCode(s) }

  /** A failed release is reported only where there is no code yet. */
  function GrantedCode(s: Script): Option<Code> {
    if !s.releaseWorks && (LeasedCode(s).None? || LeasedCode(s) == Some(Blank)) then Some(CleanupFailed) else LeasedCode(s)
  }

  function LockedCode(s: Script): Option<Code> {
    if s.inventory.Some? then s.inventory
    else if s.lease.None? then Some(ReservationFailed)
    else GrantedCode(s)
  }

  function AsError(code: Option<Code>): Option<Error> { if code.Some? then Some(Error(code)) else None }

  function OrBlank(code: Option<Code>): Code { if code.Some? then code.value else Blank }

  /** Lines 282-357, under a lease. */
  method ExecuteLeased(s: Script, log0: seq<Event>, ghost m: Monitor)
    returns (err: Option<Error>, log: seq<Event>, started: bool)
    requires OwnCodes(s) && Watch(log0) == Some(m) && m.lease.Some? && !m.started && !m.running
    ensures Watch(log) == Some(m.(started := started))
    ensures err == AsError(LeasedCode(s))
    ensures started == BeforeCode(s).None?
  {
    err := BeforeCommand(s);
    if err.Some? {
      log, started := log0, false;
    } else {
      started := true;
      err, log := StartCommand(s, log0, m);
    }
  }

  /** No code exactly if everything is in order, and an empty one exactly from the inspector. */
  lemma CodesInOrder(s: Script)
    requires OwnCodes(s)
    ensures LeasedCode(s).None? <==> Clean(s)
    ensures BeforeCode(s).None? <==> s.snapshotBefore && s.inspection.None? && s.inspected.None?
    ensures LeasedCode(s) == Some(Blank) <==> s.snapshotBefore && SilentInspector(s)
  {
  }

  /** The result that goes with an error or its absence. */
  function Conclude(r: Result, err: Option<Error>): (result: Result)
    requires !r.success && r.errorCode == Blank
    ensures TruthfulUpToCode(result, err)
    ensures result == r.(success := result.success, errorCode := result.errorCode)
  {
    if err.None? then r.(success := true) else Fail(r, err.value)
  }

  /** Lines 321-355: the command and what becomes of it. */
  method StartCommand(s: Script, log0: seq<Event>, ghost m: Monitor) returns (err: Option<Error>, log: seq<Event>)
    requires OwnCodes(s) && Watch(log0) == Some(m) && m.lease.Some? && !m.started && !m.running
    ensures Watch(log) == Some(m.(started := true))
    ensures err == AsError(AfterCode(s))
  {
    log := Emit(log0, m, CommandStarted);
    log := Emit(log, m.(started := true, running := true), CommandEnded);
    err := AfterCommand(s);
  }

  /** Lines 282-310: the first snapshot and the inspection. */
  method BeforeCommand(s: Script) returns (err: Option<Error>)
    requires OwnCodes(s)
    ensures err == AsError(BeforeCode(s))
    ensures err.None? <==> s.snapshotBefore && s.inspection.None? && s.inspected.None?
    ensures !s.snapshotBefore ==> err == Some(Error(Some(OutputSnapshotFailed)))
    ensures s.snapshotBefore && s.inspection.Some? ==>
              err == if s.inspection.value.code.Some? then s.inspection else Some(Error(Some(InspectionFailed)))
    ensures s.snapshotBefore && s.inspection.None? && s.inspected.Some? ==> err == Some(Error(s.inspected))
  {
    if !s.snapshotBefore {
      return Some(Error(Some(OutputSnapshotFailed)));
    }
    if s.inspection.Some? {
      return if s.inspection.value.code.Some? then s.inspection else Some(Error(Some(InspectionFailed)));
    }
    if s.inspected.Some? {
      return Some(Error(s.inspected));
    }
    return None;
  }

  /** Lines 339-355: the command's own outcome comes before what it left behind. */
  method AfterCommand(s: Script) returns (err: Option<Error>)
    requires OwnCodes(s)
    ensures err == AsError(AfterCode(s))
    ensures err.None? <==> !s.timedOut && !s.truncated && !s.commandFailed && s.snapshotAfter && s.job.None?
    ensures s.timedOut ==> err == Some(Error(Some(ActionTimeout)))
    ensures !s.timedOut && s.truncated ==> err == Some(Error(Some(OutputTruncated)))
    ensures !s.timedOut && !s.truncated && s.commandFailed ==> err == Some(Error(Some(ActionFailed)))
  {
    if s.timedOut {
      return Some(Error(Some(ActionTimeout)));
    }
    if s.truncated {
      return Some(Error(Some(OutputTruncated)));
    }
    if s.commandFailed {
      return Some(Error(Some(ActionFailed)));
    }
    if !s.snapshotAfter {
      return Some(Error(Some(OutputSnapshotFailed)));
    }
    if s.job.Some? {
      return Some(Error(s.job));
    }
    return None;
  }

  /** The deferred release, lines 258-280. */
  method ReleaseLease(s: Script, r: Result, e: Option<Error>, log0: seq<Event>, ghost m: Monitor, token: string)
    returns (result: Result, err: Option<Error>, log: seq<Event>)
    requires Watch(log0) == Some(m) && m.lease == Some(token) && !m.running && m.output
    requires TruthfulUpToCode(r, e)
    ensures Watch(log) == Some(m.(lease := None, released := s.releaseWorks))
    ensures TruthfulUpToCode(result, err)
    ensures result == r.(success := result.success, errorCode := result.errorCode, released := s.releaseWorks)
    ensures err.None? <==> e.None? && s.releaseWorks
    ensures s.releaseWorks ==> result.errorCode == r.errorCode && err == e
    ensures !s.releaseWorks ==> err.Some? && result.errorCode == if r.errorCode == Blank then CleanupFailed else r.errorCode
  {
    result, err := r, e;
    log := Emit(log0, m, ReleaseTried(token, s.releaseWorks));
    if !s.releaseWorks {
      result := result.(success := false, released := false);
      if result.errorCode == Blank {
        result := result.(errorCode := CleanupFailed);
        err := Some(Error(Some(CleanupFailed)));
        return;
      }
      err := Some(Error(Some(result.errorCode)));
      return;
    }
    result := result.(released := true);
  }

  /** Lines 243-357, under the output lock: inventory, reservation, and the deferred release. */
  method ExecuteLocked(s: Script, r: Result, log0: seq<Event>, ghost m: Monitor)
    returns (result: Result, err: Option<Error>, log: seq<Event>, started: bool)
    requires OwnCodes(s) && Watch(log0) == Some(m) && m.output && !m.granted && m.lease.None? && !m.started && !m.running
    requires !r.success && r.errorCode == Blank && r.released && !m.released
    ensures Watch(log) == Some(m.(granted := Reserves(s), started := started, released := Reserves(s) && s.releaseWorks))
    ensures started <==> MayStart(s)
    ensures result.released <==> Reserves(s) ==> s.releaseWorks
    ensures Reserves(s) ==> s.lease == Some(result.token)
    ensures result.rootCreated == r.rootCreated && result.cleanup == r.cleanup
    ensures TruthfulUpToCode(result, err)
    ensures result.errorCode == OrBlank(LockedCode(s))
    ensures err.None? <==> Reserves(s) && Clean(s) && s.releaseWorks
    ensures err.Some? && result.errorCode == Blank <==> BlankReaches(s)
  {
    result, log, started := r, log0, false;
    if !Reserves(s) {
      err := Some(Error(Some(if s.inventory.Some? then s.inventory.value else ReservationFailed)));
      return Fail(result, err.value), err, log, false;
    }
    result, err, log, started := ExecuteGranted(s, result.(released := false, token := s.lease.value), log, m);
  }

  /** From the grant to the deferred release. */
  method ExecuteGranted(s: Script, r: Result, log0: seq<Event>, ghost m: Monitor)
    returns (result: Result, err: Option<Error>, log: seq<Event>, started: bool)
    requires OwnCodes(s) && s.lease.Some? && !r.success && r.errorCode == Blank
    requires Watch(log0) == Some(m) && m.output && !m.granted && m.lease.None? && !m.started && !m.running
    ensures Watch(log) == Some(m.(granted := true, started := started, released := s.releaseWorks))
    ensures result == r.(success := result.success, errorCode := result.errorCode, released := s.releaseWorks)
    ensures TruthfulUpToCode(result, err)
    ensures result.errorCode == OrBlank(GrantedCode(s))
    ensures err.None? <==> Clean(s) && s.releaseWorks
    ensures started <==> s.snapshotBefore && s.inspection.None? && s.inspected.None?
    ensures err.Some? && result.errorCode == Blank <==> s.snapshotBefore && SilentInspector(s) && s.releaseWorks
  {
    var token := s.lease.value;
    log := Emit(log0, m, Granted(token));
    ghost var held := m.(granted := true, lease := Some(token));
    err, log, started := ExecuteLeased(s, log, held);
    CodesInOrder(s);
    result := Conclude(r, err);
    result, err, log := ReleaseLease(s, result, err, log, held.(started := started), token);
  }

  /** Inventory and reservation both work out. */
  predicate Reserves(s: Script) { s.inventory.None? && s.lease.Some? }

  /** The lease is granted, and what comes before the command goes well. */
  predicate MayStart(s: Script) { Reserves(s) && s.snapshotBefore && s.inspection.None? && s.inspected.None? }

  /** An empty code from the inspector that nothing after it replaces. */
  predicate BlankReaches(s: Script) { Reserves(s) && s.snapshotBefore && SilentInspector(s) && s.releaseWorks }

  /** What becomes of the results when cleanup is due (`cleans`), or not. */
  ghost predicate CleanUpResult(
    s: Script, root: PreparedRoot, owned: Option<nat>, later: Fs, cleans: bool, r: Result, e: Option<Error>,
    result: Result, err: Option<Error>, fs: Fs, removed: seq<Removal>)
  {
    if !cleans then
      result == r && err == e && fs == later && removed == []
    else
      && removed == Removals(later, root, owned, s.cleaning) && fs == CleanedFs(later, root, owned, s.cleaning)
      && if RootGoes(later, root, owned, s.cleaning) then
           result == r.(cleanup := Removed, rootCreated := false) && err == e
         else
           && result == r.(success := false, errorCode := OutputRootCleanupFailed, cleanup := Preserved)
           && err == Some(Error(Some(OutputRootCleanupFailed)))
  }

  /** `failPreparedOutputRoot`, and the body of the output lock's deferred function: cleanup of a root made
      here, recorded in the results. */
  method CleanUpFailure(s: Script, root: PreparedRoot, owned: Option<nat>, later: Fs,
                        r: Result, e: Error, log0: seq<Event>, ghost m: Monitor)
    returns (result: Result, err: Option<Error>, log: seq<Event>, fs: Fs, removed: seq<Removal>)
    requires Watch(log0) == Some(m) && TruthfulUpToCode(r, Some(e)) && r.rootCreated && r.cleanup == NotAttempted
    requires m.coordinator && !m.output && m.made && !m.started && m.lease.None? && !m.cleaned
    ensures Watch(log) == Some(m.(cleaned := true))
    ensures CleanUpResult(s, root, owned, later, true, r, Some(e), result, err, fs, removed)
  {
    var ok;
    ok, fs, removed := Cleanup(later, root, owned, s.cleaning);
    log := Emit(log0, m, CleanupRan(ok));
    result, err := r, Some(e);
    if !ok {
      result := result.(cleanup := Preserved);
      err := Some(Error(Some(OutputRootCleanupFailed)));
      return Fail(result, err.value), err, log, fs, removed;
    }
    result := result.(cleanup := Removed, rootCreated := false);
  }

  // ----- what the script decides -----

  /** Lines 210-221 on the file system `fs` with the root prepared: the lock is taken, and who made its file. */
  predicate TakesOutput(s: Script, fs: Fs) {
    s.spaceKnown && ConfirmsLock(fs, OutputLock(s.path), s.lockId, s.locking) && !s.locking.fails(3)
  }

  function OwnedLock(s: Script, fs: Fs): Option<nat> {
    if s.spaceKnown && CreatesLock(fs, OutputLock(s.path), s.locking) then Some(s.lockId) else None
  }

  /** The file system when the call ends, but for cleanup. */
  function LaterFs(s: Script, fs: Fs): Fs {
    s.meanwhile(if s.spaceKnown then LockedFs(fs, OutputLock(s.path), s.lockId, s.locking) else fs)
  }

  /** How a call ends that got as far as a prepared root: `taken`, `owned` and `later` are what the output lock
      came to, `m` is what the monitor made of the log. */
  ghost predicate Ending(
    s: Script, root: PreparedRoot, taken: bool, owned: Option<nat>, later: Fs,
    m: Monitor, result: Result, err: Option<Error>, fs: Fs, removed: seq<Removal>)
  {
    var starts := taken && MayStart(s);
    var cleans := root.created && !starts;
    var restores := cleans && RootGoes(later, root, owned, s.cleaning);
    && m.lease.None? && !m.running && !m.output && !m.mutex && m.made == root.created
    && m.granted == (taken && Reserves(s)) && m.started == starts && m.released == (m.granted && s.releaseWorks)
    && (result.released <==> m.granted ==> s.releaseWorks)
    && (m.granted ==> s.lease == Some(result.token))
    && result.rootCreated == (root.created && !restores)
    && result.cleanup == (if !cleans then NotAttempted else if restores then Removed else Preserved)
    && removed == (if cleans then Removals(later, root, owned, s.cleaning) else [])
    && fs == (if cleans then CleanedFs(later, root, owned, s.cleaning) else later)
    && (err.None? <==> taken && Reserves(s) && Clean(s) && s.releaseWorks)
    && TruthfulUpToCode(result, err)
    && (Truthful(result, err) <==> !(taken && BlankReaches(s) && (cleans ==> restores)))
    && result.errorCode == EndingCode(s, taken, cleans && !restores)
  }

  /** A root that could not be taken away is reported before anything else. */
  function EndingCode(s: Script, taken: bool, preserved: bool): Code {
    if preserved then OutputRootCleanupFailed
    else if !s.spaceKnown && !taken then OutputRootSpaceFailed
    else if !taken then OutputLockFailed
    else OrBlank(LockedCode(s))
  }

  /** Lines 209-241 and the body they guard, with the output root prepared. */
  method ExecutePrepared(s: Script, root: PreparedRoot, fs0: Fs, r: Result, log0: seq<Event>)
    returns (result: Result, err: Option<Error>, log: seq<Event>, fs: Fs, removed: seq<Removal>)
    requires OwnCodes(s) && root.path == s.path
    requires Watch(log0) == Some(FRESH.(coordinator := true, made := root.created))
    requires r == Result(false, Blank, true, root.created, NotAttempted, "")
    ensures Watch(log).Some? && Watch(log).value.coordinator
    ensures Ending(s, root, TakesOutput(s, fs0), OwnedLock(s, fs0), LaterFs(s, fs0), Watch(log).value, result, err, fs, removed)
  {
    fs := fs0;
    var taken, owned := false, None;
    if s.spaceKnown {
      taken, owned, fs := LockPath(fs0, OutputLock(s.path), s.lockId, s.locking);
    }
    fs := s.meanwhile(fs);
    assert taken == TakesOutput(s, fs0) && owned == OwnedLock(s, fs0) && fs == LaterFs(s, fs0);
    if taken {
      result, err, log, fs, removed := ExecuteTaken(s, root, owned, fs, r, log0);
    } else {
      result, err, log, fs, removed := ExecuteUntaken(s, root, owned, fs, r, log0);
    }
  }

  /** Lines 210-221: no space known, or no output lock. */
  method ExecuteUntaken(s: Script, root: PreparedRoot, owned: Option<nat>, later: Fs, r: Result, log0: seq<Event>)
    returns (result: Result, err: Option<Error>, log: seq<Event>, fs: Fs, removed: seq<Removal>)
    requires Watch(log0) == Some(FRESH.(coordinator := true, made := root.created))
    requires r == Result(false, Blank, true, root.created, NotAttempted, "")
    ensures Watch(log).Some? && Watch(log).value.coordinator
    ensures Ending(s, root, false, owned, later, Watch(log).value, result, err, fs, removed)
  {
    err := Some(Error(Some(if s.spaceKnown then OutputLockFailed else OutputRootSpaceFailed)));
    result, log, fs, removed := Fail(r, err.value), log0, later, [];
    if root.created {
      result, err, log, fs, removed :=
        CleanUpFailure(s, root, owned, later, result, err.value, log, FRESH.(coordinator := true, made := true));
    }
  }

  /** Lines 222-357, from the output lock to its deferred function. */
  method ExecuteTaken(s: Script, root: PreparedRoot, owned: Option<nat>, later: Fs, r: Result, log0: seq<Event>)
    returns (result: Result, err: Option<Error>, log: seq<Event>, fs: Fs, removed: seq<Removal>)
    requires OwnCodes(s)
    requires Watch(log0) == Some(FRESH.(coordinator := true, made := root.created))
    requires r == Result(false, Blank, true, root.created, NotAttempted, "")
    ensures Watch(log).Some? && Watch(log).value.coordinator
    ensures Ending(s, root, true, owned, later, Watch(log).value, result, err, fs, removed)
  {
    ghost var m := FRESH.(coordinator := true, made := root.created);
    log := Emit(log0, m, OutputLocked);
    var r1, e1, started;
    r1, e1, log, started := ExecuteLocked(s, r, log, m.(output := true, mutex := true));
    m := Watch(log).value;
    log := Emit(log, m, OutputFileUnlocked);
    m := m.(output := false, closing := true);
    result, err, log, fs, removed := LeaveOutput(s, root, owned, later, r1, e1, log, m, started);
    LeavingEnds(s, root, owned, later, m, r1, e1, result, err, fs, removed);
  }

  lemma LeavingEnds(s: Script, root: PreparedRoot, owned: Option<nat>, later: Fs, m: Monitor,
                    r: Result, e: Option<Error>, result: Result, err: Option<Error>, fs: Fs, removed: seq<Removal>)
    requires m.lease.None? && !m.running && !m.output && m.made == root.created
    requires m.granted == Reserves(s) && m.started == MayStart(s) && m.released == (m.granted && s.releaseWorks)
    requires r.released <==> m.granted ==> s.releaseWorks
    requires m.granted ==> s.lease == Some(r.token)
    requires r.rootCreated == root.created && r.cleanup == NotAttempted
    requires TruthfulUpToCode(r, e) && (e.None? <==> Reserves(s) && Clean(s) && s.releaseWorks)
    requires e.Some? && r.errorCode == Blank <==> BlankReaches(s)
    requires r.errorCode == OrBlank(LockedCode(s))
    requires CleanUpResult(s, root, owned, later, root.created && !m.started, r, e, result, err, fs, removed)
    ensures Ending(s, root, true, owned, later, m.(mutex := false, cleaned := root.created && !m.started),
                   result, err, fs, removed)
  {
  }

  /** The deferred function of lines 223-241, once the lock file is unlocked. */
  method LeaveOutput(s: Script, root: PreparedRoot, owned: Option<nat>, later: Fs,
                     r: Result, e: Option<Error>, log0: seq<Event>, ghost m: Monitor, started: bool)
    returns (result: Result, err: Option<Error>, log: seq<Event>, fs: Fs, removed: seq<Removal>)
    requires Watch(log0) == Some(m) && TruthfulUpToCode(r, e) && r.rootCreated == root.created && r.cleanup == NotAttempted
    requires m.coordinator && !m.output && m.mutex && m.made == root.created && m.started == started && m.lease.None?
    requires !m.cleaned && (e.None? ==> started)
    ensures var cleans := root.created && !started;
            && Watch(log) == Some(m.(mutex := false, cleaned := cleans))
            && CleanUpResult(s, root, owned, later, cleans, r, e, result, err, fs, removed)
  {
    result, err, log, fs, removed := r, e, log0, later, [];
    ghost var m' := m;
    if root.created && !started && err.Some? {
      result, err, log, fs, removed := CleanUpFailure(s, root, owned, later, result, err.value, log, m);
      m' := m.(cleaned := true);
    }
    log := Emit(log, m', OutputMutexUnlocked);
  }

  /** Lines 205-357, under the coordinator. `leaked` marks the path on which preparing the root fails after
      the directory was made. */
  method ExecuteCoordinated(s: Script, fs0: Fs, r: Result, log0: seq<Event>)
    returns (result: Result, err: Option<Error>, log: seq<Event>, fs: Fs, removed: seq<Removal>, leaked: bool)
    requires OwnCodes(s) && Watch(log0) == Some(FRESH.(coordinator := true))
    requires r == Result(false, Blank, true, false, NotAttempted, "")
    ensures Watch(log).Some? && Watch(log).value.coordinator
    ensures var root, fs1 := RootOf(fs0, s.path, s.newId, s.preparing), PreparedFs(fs0, s.path, s.newId, s.preparing);
            if IsPrepared(fs0, s.path, s.newId, s.preparing) then
              && !leaked
              && Ending(s, root, TakesOutput(s, fs1), OwnedLock(s, fs1), LaterFs(s, fs1),
                        Watch(log).value, result, err, fs, removed)
            else
              && leaked == root.created
              && Watch(log) == Some(FRESH.(coordinator := true, made := root.created))
              && err == Some(Error(Some(RootFailed(PreparationError(fs0, s.path, s.newId, s.preparing)))))
              && result == Fail(r, err.value)
              && fs == fs1 && removed == []
  {
    log, removed, leaked := log0, [], false;
    var root, code, prepared := PrepareOutputRoot(fs0, s.path, s.newId, s.preparing);
    if root.created {
      log := Emit(log, FRESH.(coordinator := true), RootMade);
    }
    if code.Some? {
      err := Some(Error(Some(RootFailed(code.value))));
      return Fail(r, err.value), err, log, prepared, [], root.created;
    }
    result, err, log, fs, removed := ExecutePrepared(s, root, prepared, r.(rootCreated := root.created), log);
  }

  // The whole call, from the script alone.

  predicate Begins(s: Script) { s.validation.None? && s.parent.None? && s.path != [] }

  predicate TakesCoordinator(s: Script) {
    && Begins(s) && ConfirmsLock(s.fs, Coordinator(s.path), s.coordinatorId, s.coordinating)
    && !s.coordinating.fails(3)
  }

  function CoordinatedFs(s: Script): Fs {
    if Begins(s) then LockedFs(s.fs, Coordinator(s.path), s.coordinatorId, s.coordinating) else s.fs
  }

  predicate HasRoot(s: Script) {
    TakesCoordinator(s) && IsPrepared(CoordinatedFs(s), s.path, s.newId, s.preparing)
  }

  function Root(s: Script): PreparedRoot { RootOf(CoordinatedFs(s), s.path, s.newId, s.preparing) }

  function RootFs(s: Script): Fs {
    if TakesCoordinator(s) then PreparedFs(CoordinatedFs(s), s.path, s.newId, s.preparing) else CoordinatedFs(s)
  }

  /** The command is started. */
  predicate Starts(s: Script) { HasRoot(s) && TakesOutput(s, RootFs(s)) && MayStart(s) }

  /** A root made here is cleaned up. */
  predicate Cleans(s: Script) { HasRoot(s) && Root(s).created && !Starts(s) }

  ghost predicate Restores(s: Script) {
    Cleans(s) && RootGoes(LaterFs(s, RootFs(s)), Root(s), OwnedLock(s, RootFs(s)), s.cleaning)
  }

  /** The directory is made, and then the look at it fails or finds no plain directory. */
  predicate Leaks(s: Script) { TakesCoordinator(s) && Makes(CoordinatedFs(s), s.path, s.preparing) && !HasRoot(s) }

  /** The inspector's empty code reaches the caller. */
  ghost predicate Silenced(s: Script) {
    HasRoot(s) && TakesOutput(s, RootFs(s)) && BlankReaches(s) && (Cleans(s) ==> Restores(s))
  }

  ghost function RemovedBy(s: Script): seq<Removal> {
    if Cleans(s) then Removals(LaterFs(s, RootFs(s)), Root(s), OwnedLock(s, RootFs(s)), s.cleaning) else []
  }

  ghost function LeftBy(s: Script): Fs {
    if !HasRoot(s) then RootFs(s)
    else if Cleans(s) then CleanedFs(LaterFs(s, RootFs(s)), Root(s), OwnedLock(s, RootFs(s)), s.cleaning)
    else LaterFs(s, RootFs(s))
  }

  /** Everyone else only adds to the file system, all through the call. */
  ghost predicate EveryoneAdds(s: Script) {
    && OnlyAdds(s.coordinating) && OnlyAdds(s.preparing) && OnlyAdds(s.locking) && OnlyAdds(s.cleaning)
    && forall fs :: Kept(fs, s.meanwhile(fs))
  }

  /** `r` took away the directory or the lock file that this run made. */
  predicate MadeHere(s: Script, r: Removal) {
    || (r.path == s.path && r.node == Node(s.newId, Directory))
    || (r.path == OutputLock(s.path) && r.node == Node(s.lockId, Regular))
  }

  /** As long as the others only add while the root is prepared and cleaned up, everything removed is the
      directory or the lock file that this run made. */
  lemma OnlyOwnIsRemoved(s: Script)
    requires OnlyAdds(s.preparing) && OnlyAdds(s.cleaning)
    ensures forall r :: r in RemovedBy(s) ==> MadeHere(s, r)
  {
    if Cleans(s) {
      PreparationOnlyAdds(CoordinatedFs(s), s.path, s.newId, s.preparing);
      NothingForeignGoes(LaterFs(s, RootFs(s)), Root(s), OwnedLock(s, RootFs(s)), s.cleaning);
    }
  }

  /** What stands when cleanup could start is there at the end, but for what was removed. */
  lemma RestIsKept(s: Script)
    requires OnlyAdds(s.cleaning)
    ensures HasRoot(s) ==> KeptBut(LaterFs(s, RootFs(s)), LeftBy(s), RemovedPaths(RemovedBy(s)))
  {
    if Cleans(s) {
      NothingElseGoes(LaterFs(s, RootFs(s)), Root(s), OwnedLock(s, RootFs(s)), s.cleaning, 0);
    }
  }

  lemma MeanwhileKeeps(s: Script)
    requires EveryoneAdds(s)
    ensures Kept(s.fs, CoordinatedFs(s)) && Kept(CoordinatedFs(s), RootFs(s)) && Kept(RootFs(s), LaterFs(s, RootFs(s)))
  {
    if Begins(s) {
      LockingOnlyAdds(s.fs, Coordinator(s.path), s.coordinatorId, s.coordinating);
    }
    PreparationOnlyAdds(CoordinatedFs(s), s.path, s.newId, s.preparing);
    LockingOnlyAdds(RootFs(s), OutputLock(s.path), s.lockId, s.locking);
    assert Kept(RootFs(s), s.meanwhile(RootFs(s)));
    var locked := LockedFs(RootFs(s), OutputLock(s.path), s.lockId, s.locking);
    assert Kept(locked, s.meanwhile(locked));
  }

  /** What is removed was not there when the call began. */
  lemma RemovedWasNew(s: Script, r: Removal)
    requires EveryoneAdds(s) && r in RemovedBy(s)
    ensures r.path !in s.fs
  {
    MeanwhileKeeps(s);
    var later, owned := LaterFs(s, RootFs(s)), OwnedLock(s, RootFs(s));
    OnlyLockAndRootGo(later, Root(s), owned, s.cleaning);
    if r.path == s.path {
      PreparationOnlyAdds(CoordinatedFs(s), s.path, s.newId, s.preparing);
    } else {
      assert r.path == OutputLock(s.path) && owned.Some?;
      LockingOnlyAdds(RootFs(s), OutputLock(s.path), s.lockId, s.locking);
    }
  }

  /** If everyone else only adds, whatever was there when the call began, an output root included, is there
      unchanged when it returns. */
  lemma NothingPreexistingGoes(s: Script)
    requires EveryoneAdds(s)
    ensures Kept(s.fs, LeftBy(s))
  {
    MeanwhileKeeps(s);
    RestIsKept(s);
    forall p | p in s.fs ensures p !in RemovedPaths(RemovedBy(s)) {
      if p in RemovedPaths(RemovedBy(s)) {
        var r :| r in RemovedBy(s) && r.path == p;
        RemovedWasNew(s, r);
      }
    }
  }

  /** A call that nothing disturbs. */
  function Undisturbed(path: Path, fs: Fs): Script {
    Script(None, None, path, fs, 1, QUIET, 2, QUIET, true, 3, QUIET, None, Some("token"), true, true, None, None,
           false, false, false, true, None, later => later, QUIET)
  }

  const QUIET := World((k, fs) => fs, k => false)

  /** It starts its command, whatever is there, as long as the root is a directory or missing, and the two lock files
      are plain files or missing. */
  lemma UndisturbedCallStarts(path: Path, fs: Fs)
    requires path != [] && (path in fs ==> fs[path].kind.Directory?)
    requires Coordinator(path) in fs ==> fs[Coordinator(path)].kind.Regular?
    requires OutputLock(path) in fs ==> fs[OutputLock(path)].kind.Regular?
    ensures var s := Undisturbed(path, fs); Possible(s) && Starts(s) && Clean(s) && s.releaseWorks
  {
    var s := Undisturbed(path, fs);
    LockPathsAreApart(path, path);
    assert |OutputLock(path)| != |path| == |Coordinator(path)|;
    assert path[|path| - 1] != Coordinator(path)[|path| - 1];
    QuietLocking(fs, Coordinator(path), 1, QUIET);
    QuietPreparation(CoordinatedFs(s), path, 2, QUIET);
    QuietLocking(RootFs(s), OutputLock(path), 3, QUIET);
  }

  /** A root can leak: its directory stays, and the results do not say so. */
  lemma RootCanLeak(path: Path) returns (s: Script)
    requires path != []
    ensures Possible(s) && Leaks(s) && s.path !in s.fs && s.path in LeftBy(s)
  {
    s := Undisturbed(path, map[]).(preparing := World((k, fs) => fs, k => k == 2));
    UndisturbedLock(map[], Coordinator(path), 1);
    LockPathsAreApart(path, path);
    var fs := CoordinatedFs(s);
    assert fs == map[Coordinator(path) := Node(1, Regular)];
    assert path != Coordinator(path) by {
      assert path[|path| - 1] != Coordinator(path)[|path| - 1];
    }
    assert At(s.preparing, fs, 0) == fs && At(s.preparing, fs, 1) == fs;
  }

  /** The empty code can reach the caller. */
  lemma CodeCanBeSilenced(path: Path) returns (s: Script)
    requires path != []
    ensures Possible(s) && Silenced(s)
  {
    var fs0: Fs := map[path := Node(9, Directory)];
    s := Undisturbed(path, fs0).(inspection := Some(Error(Some(Blank))));
    assert path != Coordinator(path) by {
      assert path[|path| - 1] != Coordinator(path)[|path| - 1];
    }
    UndisturbedLock(fs0, Coordinator(path), 1);
    var fs := CoordinatedFs(s);
    assert fs == fs0[Coordinator(path) := Node(1, Regular)];
    assert At(QUIET, fs, 0) == fs && RootFs(s) == fs;
    LockPathsAreApart(path, path);
    assert |OutputLock(path)| != |path|;
    UndisturbedLock(fs, OutputLock(path), 3);
  }

  lemma UndisturbedLock(fs: Fs, path: Path, id: nat)
    requires path !in fs
    ensures ConfirmsLock(fs, path, id, QUIET) && LockedFs(fs, path, id, QUIET) == fs[path := Node(id, Regular)]
  {
    assert At(QUIET, fs, 0) == fs;
  }

  /** With nobody else about, the call, whatever fails in it, leaves every entry a directory to stand in. */
  lemma CallKeepsTree(s: Script)
    requires Quiet(s.coordinating) && Quiet(s.preparing) && Quiet(s.locking) && Quiet(s.cleaning)
    requires forall fs :: s.meanwhile(fs) == fs
    requires Tree(s.fs) && HasParent(s.fs, s.path)
    ensures Tree(LeftBy(s))
  {
    RootKeepsTree(s);
    if HasRoot(s) {
      LaterIsTree(s);
      if Cleans(s) {
        CleanupKeepsTree(LaterFs(s, RootFs(s)), Root(s), OwnedLock(s, RootFs(s)), s.cleaning);
      }
    }
  }

  lemma RootKeepsTree(s: Script)
    requires Quiet(s.coordinating) && Quiet(s.preparing)
    requires Tree(s.fs) && HasParent(s.fs, s.path)
    ensures Tree(RootFs(s))
  {
    var lock := Coordinator(s.path);
    assert lock[..|lock| - 1] == s.path[..|s.path| - 1];
    LockedIsTree(s.fs, lock, s.coordinatorId, s.coordinating);
    PreparedIsTree(CoordinatedFs(s), s.path, s.newId, s.preparing);
  }

  lemma LaterIsTree(s: Script)
    requires Quiet(s.locking) && (forall fs :: s.meanwhile(fs) == fs) && HasRoot(s) && Tree(RootFs(s))
    ensures Tree(LaterFs(s, RootFs(s)))
  {
    var lock := OutputLock(s.path);
    assert lock[..|lock| - 1] == s.path;
    LockedIsTree(RootFs(s), lock, s.lockId, s.locking);
  }

  /** The code of a call that ends before it has a root. */
  function EarlyCode(s: Script): Code {
    if s.validation.Some? then s.validation.value
    else if s.parent.Some? then s.parent.value
    else if !TakesCoordinator(s) then OutputLockFailed
    else RootFailed(PreparationError(CoordinatedFs(s), s.path, s.newId, s.preparing))
  }

  /** How the call ends, by how far it got. */
  ghost predicate Closing(s: Script, m: Monitor, result: Result, err: Option<Error>, fs: Fs, removed: seq<Removal>, leaked: bool) {
    if HasRoot(s) then
      && !leaked
      && Ending(s, Root(s), TakesOutput(s, RootFs(s)), OwnedLock(s, RootFs(s)), LaterFs(s, RootFs(s)),
                m, result, err, fs, removed)
    else
      && m == FRESH.(made := leaked, closing := TakesCoordinator(s)) && leaked == Leaks(s)
      && err == Some(Error(Some(EarlyCode(s))))
      && result == Fail(Result(false, Blank, true, false, NotAttempted, ""), err.value)
      && fs == RootFs(s) && removed == []
  }

  lemma ClosingRecord(
    s: Script, m: Monitor, result: Result, err: Option<Error>, fs: Fs, removed: seq<Removal>, leaked: bool)
    requires Possible(s) && Closing(s, m, result, err, fs, removed, leaked)
    ensures m.lease.None? && !m.output && !m.mutex
    ensures m.granted <==> HasRoot(s) && TakesOutput(s, RootFs(s)) && Reserves(s)
    ensures m.started <==> Starts(s)
    ensures !result.released <==> m.granted && !s.releaseWorks
    ensures m.granted ==> s.lease == Some(result.token)
    ensures err.None? <==> HasRoot(s) && TakesOutput(s, RootFs(s)) && Reserves(s) && Clean(s) && s.releaseWorks
    ensures TruthfulUpToCode(result, err) && (Truthful(result, err) <==> !Silenced(s))
    ensures result.rootCreated <==> HasRoot(s) && Root(s).created && !Restores(s)
    ensures result.cleanup == if !Cleans(s) then NotAttempted else if Restores(s) then Removed else Preserved
    ensures leaked <==> Leaks(s)
    ensures leaked <==> m.made && !result.rootCreated && result.cleanup != Removed
  {
  }

  /** Which code a call ends with, by the first thing that went wrong. */
  lemma ClosingCode(
    s: Script, m: Monitor, result: Result, err: Option<Error>, fs: Fs, removed: seq<Removal>, leaked: bool)
    requires Possible(s) && Closing(s, m, result, err, fs, removed, leaked)
    ensures s.validation.Some? ==> result.errorCode == s.validation.value
    ensures s.validation.None? && s.parent.Some? ==> result.errorCode == s.parent.value
    ensures Begins(s) && !TakesCoordinator(s) ==> result.errorCode == OutputLockFailed
    ensures TakesCoordinator(s) && !HasRoot(s) ==>
              result.errorCode == RootFailed(PreparationError(CoordinatedFs(s), s.path, s.newId, s.preparing))
    ensures result.cleanup == Preserved ==> result.errorCode == OutputRootCleanupFailed
    ensures HasRoot(s) && !s.spaceKnown && result.cleanup != Preserved ==> result.errorCode == OutputRootSpaceFailed
    ensures HasRoot(s) && s.spaceKnown && !TakesOutput(s, RootFs(s)) && result.cleanup != Preserved ==>
              result.errorCode == OutputLockFailed
    ensures HasRoot(s) && TakesOutput(s, RootFs(s)) && result.cleanup != Preserved ==>
              && (s.inventory.Some? ==> result.errorCode == s.inventory.value)
              && (s.inventory.None? && s.lease.None? ==> result.errorCode == ReservationFailed)
    ensures HasRoot(s) && TakesOutput(s, RootFs(s)) && s.inventory.None? && s.lease.Some? && result.cleanup != Preserved ==>
              && (!s.snapshotBefore ==> result.errorCode == OutputSnapshotFailed)
              && (s.snapshotBefore && s.inspection.Some? ==>
                    result.errorCode == match s.inspection.value.code
                                        case None => InspectionFailed
                                        case Some(c) => if c == Blank && !s.releaseWorks then CleanupFailed else c)
              && (s.snapshotBefore && s.inspection.None? && s.inspected.Some? ==> result.errorCode == s.inspected.value)
    ensures Starts(s) && s.timedOut ==> result.errorCode == ActionTimeout
    ensures Starts(s) && !s.timedOut && s.truncated ==> result.errorCode == OutputTruncated
    ensures Starts(s) && !s.timedOut && !s.truncated && s.commandFailed ==> result.errorCode == ActionFailed
    ensures Starts(s) && !s.timedOut && !s.truncated && !s.commandFailed ==>
              && (!s.snapshotAfter ==> result.errorCode == OutputSnapshotFailed)
              && (s.snapshotAfter && s.job.Some? ==> result.errorCode == s.job.value)
              && (s.snapshotAfter && s.job.None? && !s.releaseWorks ==> result.errorCode == CleanupFailed)
              && (s.snapshotAfter && s.job.None? && s.releaseWorks ==> result.success && err.None?)
  {
  }

  lemma ClosingFiles(
    s: Script, m: Monitor, result: Result, err: Option<Error>, fs: Fs, removed: seq<Removal>, leaked: bool)
    requires Closing(s, m, result, err, fs, removed, leaked)
    ensures removed == RemovedBy(s) && fs == LeftBy(s)
    ensures HasRoot(s) && (Starts(s) || !Root(s).created) ==> removed == [] && fs == LaterFs(s, RootFs(s))
    ensures Restores(s) ==> s.path !in fs
    ensures OnlyAdds(s.preparing) && OnlyAdds(s.cleaning) ==> forall r :: r in removed ==> MadeHere(s, r)
    ensures EveryoneAdds(s) ==> Kept(s.fs, fs)
  {
    if EveryoneAdds(s) {
      NothingPreexistingGoes(s);
    }
    if OnlyAdds(s.preparing) && OnlyAdds(s.cleaning) {
      OnlyOwnIsRemoved(s);
    }
  }

  method ExecuteAll(s: Script)
    returns (result: Result, err: Option<Error>, log: seq<Event>, fs: Fs, removed: seq<Removal>, leaked: bool)
    requires Possible(s)
    ensures Watch(log).Some? && !Watch(log).value.coordinator
    ensures Closing(s, Watch(log).value, result, err, fs, removed, leaked)
  {
    result := Result(false, Blank, true, false, NotAttempted, "");
    log, fs, removed, leaked := [], s.fs, [], false;
    if s.validation.Some? || s.parent.Some? {
      err := Some(Error(Some(if s.validation.Some? then s.validation.value else s.parent.value)));
      return Fail(result, err.value), err, log, fs, removed, leaked;
    }
    var taken, _, fs1 := LockPath(fs, Coordinator(s.path), s.coordinatorId, s.coordinating);
    fs := fs1;
    if !taken {
      err := Some(Error(Some(OutputLockFailed)));
      return Fail(result, err.value), err, log, fs, removed, leaked;
    }
    log := Emit(log, FRESH, CoordinatorLocked);
    result, err, log, fs, removed, leaked := ExecuteCoordinated(s, fs, result, log);
    log := Emit(log, Watch(log).value, CoordinatorUnlocked);
  }

  /** The whole call.

      On every path: the log is one the monitor accepts and everything taken is given back; a lease, once
      granted, was released exactly once; `released` is false exactly when a lease was granted and its release
      failed; success and a nil error go together, and so does an empty code, except exactly when the inspector's
      own error carried one and neither a failed release nor a failed cleanup replaced it; a root is recorded as
      created exactly if this run made it and did not take it away again, and as removed exactly if cleanup took
      it away; a made root goes unrecorded exactly if the look at it failed; what is removed and what is left
      behind is what the script says, a root that was there before, or in which the command was started, is left
      with everything else, and as long as the others only add, nothing goes that this run did not make. */
  method Execute(s: Script)
    returns (result: Result, err: Option<Error>, log: seq<Event>, fs: Fs, removed: seq<Removal>, leaked: bool)
    requires Possible(s)
    ensures Watch(log).Some? && !Watch(log).value.coordinator && !Watch(log).value.output && !Watch(log).value.mutex
    ensures Count(log, IS_RELEASE) == Count(log, IS_GRANT) <= 1
    ensures Count(log, IS_GRANT) == 1 <==> HasRoot(s) && TakesOutput(s, RootFs(s)) && Reserves(s)
    ensures Count(log, IS_START) == 1 <==> Starts(s)
    ensures !result.released <==> Count(log, IS_GRANT) == 1 && !s.releaseWorks
    ensures Count(log, IS_GRANT) == 1 ==> s.lease == Some(result.token)
    ensures err.None? <==> HasRoot(s) && TakesOutput(s, RootFs(s)) && Reserves(s) && Clean(s) && s.releaseWorks
    ensures TruthfulUpToCode(result, err) && (Truthful(result, err) <==> !Silenced(s))
    ensures result.rootCreated <==> HasRoot(s) && Root(s).created && !Restores(s)
    ensures result.cleanup == if !Cleans(s) then NotAttempted else if Restores(s) then Removed else Preserved
    ensures leaked <==> Leaks(s)
    ensures leaked <==> Watch(log).value.made && !result.rootCreated && result.cleanup != Removed
    ensures removed == RemovedBy(s) && fs == LeftBy(s)
    ensures HasRoot(s) && (Starts(s) || !Root(s).created) ==> removed == [] && fs == LaterFs(s, RootFs(s))
    ensures Restores(s) ==> s.path !in fs
    ensures OnlyAdds(s.preparing) && OnlyAdds(s.cleaning) ==> forall r :: r in removed ==> MadeHere(s, r)
    ensures EveryoneAdds(s) ==> Kept(s.fs, fs)
    // The code, by the first thing that went wrong; a failed release keeps it, a failed cleanup replaces it.
    ensures s.validation.Some? ==> result.errorCode == s.validation.value
    ensures s.validation.None? && s.parent.Some? ==> result.errorCode == s.parent.value
    ensures Begins(s) && !TakesCoordinator(s) ==> result.errorCode == OutputLockFailed
    ensures TakesCoordinator(s) && !HasRoot(s) ==>
              result.errorCode == RootFailed(PreparationError(CoordinatedFs(s), s.path, s.newId, s.preparing))
    ensures result.cleanup == Preserved ==> result.errorCode == OutputRootCleanupFailed
    ensures HasRoot(s) && !s.spaceKnown && result.cleanup != Preserved ==> result.errorCode == OutputRootSpaceFailed
    ensures HasRoot(s) && s.spaceKnown && !TakesOutput(s, RootFs(s)) && result.cleanup != Preserved ==>
              result.errorCode == OutputLockFailed
    ensures HasRoot(s) && TakesOutput(s, RootFs(s)) && result.cleanup != Preserved ==>
              && (s.inventory.Some? ==> result.errorCode == s.inventory.value)
              && (s.inventory.None? && s.lease.None? ==> result.errorCode == ReservationFailed)
    ensures HasRoot(s) && TakesOutput(s, RootFs(s)) && s.inventory.None? && s.lease.Some? && result.cleanup != Preserved ==>
              && (!s.snapshotBefore ==> result.errorCode == OutputSnapshotFailed)
              && (s.snapshotBefore && s.inspection.Some? ==>
                    result.errorCode == match s.inspection.value.code
                                        case None => InspectionFailed
                                        case Some(c) => if c == Blank && !s.releaseWorks then CleanupFailed else c)
              && (s.snapshotBefore && s.inspection.None? && s.inspected.Some? ==> result.errorCode == s.inspected.value)
    ensures Starts(s) && s.timedOut ==> result.errorCode == ActionTimeout
    ensures Starts(s) && !s.timedOut && s.truncated ==> result.errorCode == OutputTruncated
    ensures Starts(s) && !s.timedOut && !s.truncated && s.commandFailed ==> result.errorCode == ActionFailed
    ensures Starts(s) && !s.timedOut && !s.truncated && !s.commandFailed ==>
              && (!s.snapshotAfter ==> result.errorCode == OutputSnapshotFailed)
              && (s.snapshotAfter && s.job.Some? ==> result.errorCode == s.job.value)
              && (s.snapshotAfter && s.job.None? && !s.releaseWorks ==> result.errorCode == CleanupFailed)
              && (s.snapshotAfter && s.job.None? && s.releaseWorks ==> result.success && err.None?)
  {
    result, err, log, fs, removed, leaked := ExecuteAll(s);
    ClosingCode(s, Watch(log).value, result, err, fs, removed, leaked);
    ClosingRecord(s, Watch(log).value, result, err, fs, removed, leaked);
    ClosingFiles(s, Watch(log).value, result, err, fs, removed, leaked);
    WatchCounts(log);
  }
}
