/** When concurrent evaluations can deadlock (pkg/orchestrate/evaluation.go:196-261, 805-870): exactly when the
    reservation stores of some of them lie where their locks are. */
module EvaluationDeadlock {
  import opened GpuIdentity
  import opened EvaluationLocks

  /** Release's wait is bounded, so it is not one of these. */
  predicate Blocking(pc: Pc) { pc.WaitCoordinator? || pc.WaitOutput? || pc.WaitStore? }

  /** Each member waits, without a deadline of its own, for a lock that a member holds. */
  ghost predicate Deadlocked(jobs: Jobs, s: System, d: set<Id>)
    requires s.pcs.Keys == jobs.Keys
  {
    d != {} && forall i {:trigger Stuck(jobs, s, d, i)} :: i in d ==> Stuck(jobs, s, d, i)
  }

  ghost predicate Stuck(jobs: Jobs, s: System, d: set<Id>, i: Id)
    requires s.pcs.Keys == jobs.Keys
  {
    && i in jobs && Blocking(s.pcs[i])
    && Wanted(jobs[i], s.pcs[i]).value in s.owner
    && s.owner[Wanted(jobs[i], s.pcs[i]).value] in d
  }

  /** The store's lock file is neither a coordinator nor an output lock of any root in use. */
  ghost predicate StoreApart(jobs: Jobs) {
    forall i, k :: i in jobs && k in jobs ==>
      jobs[i].store != jobs[k].coordinator && jobs[i].store != jobs[k].output
  }

  /** Whoever holds a root's output lock holds its coordinator too. */
  lemma OutputHolderCoordinates(jobs: Jobs, s: System, i: Id)
    requires LocksApart(jobs) && Inv(jobs, s) && StoreApart(jobs) && i in jobs && jobs[i].output in s.owner
    ensures Owns(s, s.owner[jobs[i].output], jobs[i].coordinator) && HoldsOutput(s.pcs[s.owner[jobs[i].output]])
  {
    var k := s.owner[jobs[i].output];
    assert Owns(s, k, jobs[i].output) && Holds(jobs[k], s.pcs[k], jobs[i].output);
    assert Holds(jobs[k], s.pcs[k], jobs[i].coordinator);
  }

  ghost predicate CanDeadlock(jobs: Jobs) {
    exists states, steps, d :: Run(jobs, states, steps) && Deadlocked(jobs, states[|steps|], d)
  }

  /** The lock of `i`'s store is a lock of `k`'s root. */
  predicate Collides(jobs: Jobs, i: Id, k: Id)
    requires i in jobs && k in jobs
  {
    jobs[i].store == jobs[k].coordinator || jobs[i].store == jobs[k].output
  }

  /** Evaluations each of whose store locks is a lock of the root of one of them. */
  ghost predicate Circle(jobs: Jobs, c: set<Id>) {
    && c != {} && c <= jobs.Keys
    && forall i {:trigger HasCollision(jobs, c, i)} :: i in c ==> HasCollision(jobs, c, i)
  }

  ghost predicate HasCollision(jobs: Jobs, c: set<Id>, i: Id)
    requires c <= jobs.Keys
  {
    i in jobs && exists k :: k in c && Collides(jobs, i, k)
  }

  lemma OneHolder(jobs: Jobs, s: System, i: Id, k: Id, p: Path)
    requires Inv(jobs, s) && i in jobs && k in jobs && Holds(jobs[i], s.pcs[i], p) && Holds(jobs[k], s.pcs[k], p)
    ensures i == k
  {
    assert Owns(s, i, p) && Owns(s, k, p);
  }

  lemma OwnerIsStuck(jobs: Jobs, s: System, d: set<Id>, i: Id) returns (k: Id)
    requires Inv(jobs, s) && Deadlocked(jobs, s, d) && i in d
    ensures i in jobs && Wanted(jobs[i], s.pcs[i]).Some? && k in d && k in jobs && Blocking(s.pcs[k])
    ensures Holds(jobs[k], s.pcs[k], Wanted(jobs[i], s.pcs[i]).value)
  {
    assert Stuck(jobs, s, d, i);
    var p := Wanted(jobs[i], s.pcs[i]).value;
    k := s.owner[p];
    assert Stuck(jobs, s, d, k);
    assert Owns(s, k, p);
  }

  /** No one in a deadlock waits for an output lock: only the holder of a root's coordinator takes it. */
  lemma NobodyWaitsForOutput(jobs: Jobs, s: System, d: set<Id>, i: Id)
    requires LocksApart(jobs) && Inv(jobs, s) && Deadlocked(jobs, s, d) && i in d
    ensures i in jobs && Blocking(s.pcs[i]) && !s.pcs[i].WaitOutput?
  {
    assert Stuck(jobs, s, d, i);
    var k := OwnerIsStuck(jobs, s, d, i);
    var p := jobs[i].coordinator;
    if Holds(jobs[i], s.pcs[i], p) && Holds(jobs[k], s.pcs[k], p) {
      OneHolder(jobs, s, i, k, p);
    }
  }

  /** Whoever holds what a member of a deadlock wants waits for its store. */
  lemma HolderWaitsForStore(jobs: Jobs, s: System, d: set<Id>, i: Id) returns (k: Id)
    requires LocksApart(jobs) && Inv(jobs, s) && Deadlocked(jobs, s, d) && i in d
    ensures i in jobs && k in d && k in jobs && s.pcs[k].WaitStore?
    ensures s.pcs[i].WaitStore? ==> Collides(jobs, i, k)
  {
    k := OwnerIsStuck(jobs, s, d, i);
    NobodyWaitsForOutput(jobs, s, d, k);
  }

  ghost function WaitingForStores(jobs: Jobs, s: System, d: set<Id>): set<Id>
    requires s.pcs.Keys == jobs.Keys
  {
    set j | j in d && j in jobs && s.pcs[j].WaitStore?
  }

  lemma MemberCollides(jobs: Jobs, s: System, d: set<Id>, i: Id)
    requires LocksApart(jobs) && Inv(jobs, s) && Deadlocked(jobs, s, d) && i in WaitingForStores(jobs, s, d)
    ensures HasCollision(jobs, WaitingForStores(jobs, s, d), i)
  {
    var k := HolderWaitsForStore(jobs, s, d, i);
    assert k in WaitingForStores(jobs, s, d) && Collides(jobs, i, k);
  }

  /** A deadlock, whatever the stores, contains a circle. */
  lemma DeadlockHasCircle(jobs: Jobs, s: System, d: set<Id>) returns (c: set<Id>)
    requires LocksApart(jobs) && Inv(jobs, s) && Deadlocked(jobs, s, d)
    ensures Circle(jobs, c)
  {
    c := WaitingForStores(jobs, s, d);
    assert c != {} by {
      var i :| i in d;
      var k := HolderWaitsForStore(jobs, s, d, i);
      assert k in c;
    }
    forall j | j in c ensures HasCollision(jobs, c, j) {
      MemberCollides(jobs, s, d, j);
    }
  }

  // Conversely, a circle can get stuck.

  ghost predicate OneRootEach(jobs: Jobs, c: set<Id>) {
    c <= jobs.Keys && forall i, k :: i in c && k in c && jobs[i].root == jobs[k].root ==> i == k
  }

  /** The evaluations in `c` wait for their stores, the others have not begun. */
  ghost predicate AtStores(jobs: Jobs, s: System, c: set<Id>) {
    s.pcs.Keys == jobs.Keys && forall i :: i in jobs ==> s.pcs[i] == if i in c then WaitStore else WaitCoordinator
  }

  lemma FreshRootIsFree(jobs: Jobs, s: System, c: set<Id>, i: Id)
    requires LocksApart(jobs) && Inv(jobs, s) && AtStores(jobs, s, c) && i in jobs && i !in c
    requires forall k :: k in c && k in jobs ==> jobs[k].root != jobs[i].root
    ensures jobs[i].coordinator !in s.owner && jobs[i].output !in s.owner
  {
    if jobs[i].coordinator in s.owner {
      assert Owns(s, s.owner[jobs[i].coordinator], jobs[i].coordinator);
    }
    if jobs[i].output in s.owner {
      assert Owns(s, s.owner[jobs[i].output], jobs[i].output);
    }
  }

  /** Four steps take an evaluation whose root is free to its store. */
  lemma WalkToStore(jobs: Jobs, s0: System, i: Id) returns (states: seq<System>, steps: seq<Step>)
    requires s0.pcs.Keys == jobs.Keys && i in jobs && s0.pcs[i] == WaitCoordinator
    requires jobs[i].coordinator !in s0.owner && jobs[i].output !in s0.owner && jobs[i].coordinator != jobs[i].output
    ensures |states| == 5 && |steps| == 4 && states[0] == s0
    ensures forall k :: 0 <= k <= 4 ==> states[k].pcs.Keys == jobs.Keys
    ensures forall k :: 0 <= k < 4 ==> Next(jobs, states[k], states[k + 1], steps[k])
    ensures states[4].pcs == s0.pcs[i := WaitStore]
  {
    var job := jobs[i];
    var s1 := System(s0.owner[job.coordinator := i], s0.pcs[i := Coordinated]);
    var s2 := System(s1.owner, s1.pcs[i := WaitOutput]);
    var s3 := System(s2.owner[job.output := i], s2.pcs[i := Inside]);
    var s4 := System(s3.owner, s3.pcs[i := WaitStore]);
    states := [s0, s1, s2, s3, s4];
    steps := [Lock(i), Go(i, WaitOutput), Lock(i), Go(i, WaitStore)];
    assert s1.pcs.Keys == jobs.Keys && s2.pcs.Keys == jobs.Keys && s3.pcs.Keys == jobs.Keys && s4.pcs.Keys == jobs.Keys;
    assert Next(jobs, s0, s1, steps[0]) && Next(jobs, s1, s2, steps[1]);
    assert Next(jobs, s2, s3, steps[2]) && Next(jobs, s3, s4, steps[3]);
    assert s4.pcs == s0.pcs[i := WaitStore];
  }

  lemma JoinRuns(jobs: Jobs, a: seq<System>, x: seq<Step>, b: seq<System>, y: seq<Step>)
    requires Run(jobs, a, x) && |b| == |y| + 1 && b[0] == a[|x|]
    requires forall k :: 0 <= k <= |y| ==> b[k].pcs.Keys == jobs.Keys
    requires forall k :: 0 <= k < |y| ==> Next(jobs, b[k], b[k + 1], y[k])
    ensures Run(jobs, a + b[1..], x + y) && (a + b[1..])[|x + y|] == b[|y|]
  {
    var states, steps := a + b[1..], x + y;
    forall k | 0 <= k <= |steps| ensures states[k].pcs.Keys == jobs.Keys {
      assert states[k] == if k <= |x| then a[k] else b[k - |x|];
    }
    forall k | 0 <= k < |steps| ensures Next(jobs, states[k], states[k + 1], steps[k]) {
      assert states[k] == if k <= |x| then a[k] else b[k - |x|];
      assert states[k + 1] == if k + 1 <= |x| then a[k + 1] else b[k + 1 - |x|];
    }
  }

  lemma {:induction false} AllReachTheirStores(jobs: Jobs, c: set<Id>) returns (states: seq<System>, steps: seq<Step>)
    requires LocksApart(jobs) && OneRootEach(jobs, c)
    ensures Run(jobs, states, steps) && AtStores(jobs, states[|steps|], c)
    decreases c
  {
    if c == {} {
      var s0 := System(map[], map k | k in jobs :: WaitCoordinator);
      assert s0.pcs.Keys == jobs.Keys;
      states, steps := [s0], [];
    } else {
      var i :| i in c;
      var a, x := AllReachTheirStores(jobs, c - {i});
      RunsKeepInv(jobs, a, x);
      FreshRootIsFree(jobs, a[|x|], c - {i}, i);
      var b, y := WalkToStore(jobs, a[|x|], i);
      JoinRuns(jobs, a, x, b, y);
      states, steps := a + b[1..], x + y;
    }
  }

  /** The least identifier in `c` with the root of `k`. */
  lemma {:induction false} Representative(jobs: Jobs, c: set<Id>, k: Id) returns (m: Id)
    requires c <= jobs.Keys && k in c
    ensures m in c && jobs[m].root == jobs[k].root
    ensures forall l :: l in c && jobs[l].root == jobs[k].root ==> m <= l
    decreases k
  {
    if l :| l in c && jobs[l].root == jobs[k].root && l < k {
      m := Representative(jobs, c, l);
    } else {
      m := k;
    }
  }

  /** One evaluation for each root in the circle. */
  ghost function Representatives(jobs: Jobs, c: set<Id>): (d: set<Id>)
    requires c <= jobs.Keys
    ensures d <= c
  {
    set i | i in c && forall l :: l in c && jobs[l].root == jobs[i].root ==> i <= l
  }

  lemma CollidesWithRepresentative(jobs: Jobs, c: set<Id>, i: Id) returns (m: Id)
    requires LocksApart(jobs) && Circle(jobs, c) && i in c
    ensures m in Representatives(jobs, c) && m in jobs && Collides(jobs, i, m)
  {
    assert HasCollision(jobs, c, i);
    var k :| k in c && Collides(jobs, i, k);
    m := Representative(jobs, c, k);
    assert jobs[m].coordinator == jobs[k].coordinator && jobs[m].output == jobs[k].output;
  }

  lemma StuckAtStore(jobs: Jobs, s: System, d: set<Id>, i: Id, m: Id)
    requires Inv(jobs, s) && AtStores(jobs, s, d) && i in d && i in jobs && m in d && m in jobs && Collides(jobs, i, m)
    ensures Stuck(jobs, s, d, i)
  {
    assert Holds(jobs[m], s.pcs[m], jobs[i].store);
    assert Owns(s, m, jobs[i].store);
  }

  lemma AllStuck(jobs: Jobs, s: System, c: set<Id>)
    requires LocksApart(jobs) && Circle(jobs, c) && Inv(jobs, s) && AtStores(jobs, s, Representatives(jobs, c))
    ensures Deadlocked(jobs, s, Representatives(jobs, c))
  {
    var d := Representatives(jobs, c);
    forall i | i in d ensures Stuck(jobs, s, d, i) {
      var m := CollidesWithRepresentative(jobs, c, i);
      StuckAtStore(jobs, s, d, i, m);
    }
    var first :| first in c;
    var least := Representative(jobs, c, first);
    assert least in d;
  }

  lemma CircleCanDeadlock(jobs: Jobs, c: set<Id>)
    requires LocksApart(jobs) && Circle(jobs, c)
    ensures CanDeadlock(jobs)
  {
    var states, steps := AllReachTheirStores(jobs, Representatives(jobs, c));
    RunsKeepInv(jobs, states, steps);
    AllStuck(jobs, states[|steps|], c);
  }

  /** Evaluations, whatever their roots and their stores, can deadlock exactly when some of them form a circle. */
  lemma DeadlockExactlyOnCircles(jobs: Jobs)
    requires ValidJobs(jobs)
    ensures CanDeadlock(jobs) <==> exists c :: Circle(jobs, c)
  {
    ValidJobsAreApart(jobs);
    if CanDeadlock(jobs) {
      var states, steps, d :| Run(jobs, states, steps) && Deadlocked(jobs, states[|steps|], d);
      RunsKeepInv(jobs, states, steps);
      var c := DeadlockHasCircle(jobs, states[|steps|], d);
    }
    if c :| Circle(jobs, c) {
      CircleCanDeadlock(jobs, c);
    }
  }

  /** The same in terms of what a caller writes down: some requests whose reservation paths are each one of the
      two bad paths for the output root of one of them. `validate` does not rule that out. */
  lemma DeadlockExactlyOnClashingPaths(jobs: Jobs)
    requires ValidJobs(jobs)
    ensures CanDeadlock(jobs) <==> exists c :: ClashingPaths(jobs, c)
  {
    DeadlockExactlyOnCircles(jobs);
    forall c ensures Circle(jobs, c) <==> ClashingPaths(jobs, c) {
      CircleIsClashingPaths(jobs, c);
    }
  }

  ghost predicate ClashingPaths(jobs: Jobs, c: set<Id>)
    requires ValidJobs(jobs)
  {
    && c != {} && c <= jobs.Keys
    && forall i {:trigger HasClash(jobs, c, i)} :: i in c ==> HasClash(jobs, c, i)
  }

  ghost predicate HasClash(jobs: Jobs, c: set<Id>, i: Id)
    requires ValidJobs(jobs) && c <= jobs.Keys
  {
    i in jobs && exists k :: k in c && Clashes(jobs[i].reservation, jobs[k].root)
  }

  lemma CircleIsClashingPaths(jobs: Jobs, c: set<Id>)
    requires ValidJobs(jobs)
    ensures Circle(jobs, c) <==> ClashingPaths(jobs, c)
  {
    if c <= jobs.Keys {
      forall i | i in c ensures HasCollision(jobs, c, i) <==> HasClash(jobs, c, i) {
        forall k | k in c ensures Collides(jobs, i, k) <==> Clashes(jobs[i].reservation, jobs[k].root) {
          StoreLockClashesExactly(jobs[i].reservation, jobs[k].root);
        }
      }
    }
  }

  /** Keeping the store in the output root under the name of its lock file blocks an evaluation on itself. */
  lemma SelfDeadlock(root: Path, i: Id)
    requires root != []
    ensures var job := Job(root, root + [LOCK_NAME], Coordinator(root), OutputLock(root),
                           StoreLock(root + [LOCK_NAME]));
            ValidJobs(map[i := job]) && CanDeadlock(map[i := job])
  {
    var job := Job(root, root + [LOCK_NAME], Coordinator(root), OutputLock(root),
                   StoreLock(root + [LOCK_NAME]));
    var jobs := map[i := job];
    StoreLockClashesExactly(job.reservation, root);
    assert i in jobs && Collides(jobs, i, i);
    assert HasCollision(jobs, {i}, i);
    assert Circle(jobs, {i});
    ValidJobsAreApart(jobs);
    CircleCanDeadlock(jobs, {i});
  }

  /** No deadlock while no store lock is a lock of a root in use. */
  lemma ApartMeansNoDeadlock(jobs: Jobs)
    requires ValidJobs(jobs) && StoreApart(jobs)
    ensures !CanDeadlock(jobs)
  {
    DeadlockExactlyOnCircles(jobs);
    forall c ensures !Circle(jobs, c) {
      if Circle(jobs, c) {
        CircleCollides(jobs, c);
      }
    }
  }

  lemma CircleCollides(jobs: Jobs, c: set<Id>)
    requires Circle(jobs, c)
    ensures !StoreApart(jobs)
  {
    var i :| i in c;
    assert HasCollision(jobs, c, i);
  }

  lemma SharedStoreCollides(jobs: Jobs, i: Id, k: Id)
    requires i in jobs && k in jobs && jobs[i].store == jobs[k].store && Collides(jobs, i, k)
    ensures Collides(jobs, k, k)
  {
  }

  /** Evaluations that share one store can deadlock exactly when the store's lock file is the coordinator
      or the output lock of a root in use. */
  lemma DeadlockExactlyWhenStoreCollides(jobs: Jobs)
    requires ValidJobs(jobs)
    requires forall i, k :: i in jobs && k in jobs ==> jobs[i].store == jobs[k].store
    ensures CanDeadlock(jobs) <==> !StoreApart(jobs)
  {
    if StoreApart(jobs) {
      ApartMeansNoDeadlock(jobs);
    } else {
      var i, k :| i in jobs && k in jobs && Collides(jobs, i, k);
      SharedStoreCollides(jobs, i, k);
      assert HasCollision(jobs, {k}, k);
      assert Circle(jobs, {k});
      DeadlockExactlyOnCircles(jobs);
    }
  }
}
