/** Preparing and cleaning up an output root (pkg/orchestrate/evaluation_filesystem.go:115-256) on a
    file system that other processes keep changing between the calls. */
module OutputRoot {
  import opened GpuIdentity
  import opened EvaluationLocks

  datatype Kind = Directory | Regular | Unsafe | Special

  /** `id` is what os.SameFile compares. */
  datatype Node = Node(id: nat, kind: Kind)

  type Fs = map<Path, Node>

  predicate IsEntry(p: Path, q: Path) { |q| == |p| + 1 && q[..|p|] == p }

  function Entries(fs: Fs, p: Path): set<Path> { set q | q in fs && IsEntry(p, q) }

  /** os.Remove takes away anything but a directory that has entries. */
  predicate Removable(fs: Fs, p: Path) {
    p in fs && (fs[p].kind.Directory? ==> Entries(fs, p) == {})
  }

  /** What the others do before the k-th call, and whether that call fails for a reason of its own. */
  datatype World = World(interfere: (nat, Fs) -> Fs, fails: nat -> bool)

  /** The others create entries; they do not remove, replace or rename. */
  ghost predicate OnlyAdds(w: World) {
    forall k: nat, fs: Fs, p: Path :: p in fs ==> p in w.interfere(k, fs) && w.interfere(k, fs)[p] == fs[p]
  }

  ghost predicate Quiet(w: World) {
    forall k: nat, fs: Fs :: w.interfere(k, fs) == fs
  }

  /** The file system at the k-th call, as long as this run has changed nothing. */
  function At(w: World, fs0: Fs, k: nat): Fs {
    w.interfere(k, if k == 0 then fs0 else At(w, fs0, k - 1))
  }

  datatype PreparedRoot = PreparedRoot(path: Path, created: bool, identity: Option<nat>)

  /** There is a directory for `p` to stand in. */
  predicate HasParent(fs: Fs, p: Path) {
    p != [] && p[..|p| - 1] in fs && fs[p[..|p| - 1]].kind.Directory?
  }

  /** Every entry has a directory to stand in. */
  ghost predicate Tree(fs: Fs) {
    forall p :: p in fs && p != [] ==> HasParent(fs, p)
  }

  lemma AddingKeepsTree(fs: Fs, p: Path, node: Node)
    requires Tree(fs) && p !in fs && HasParent(fs, p)
    ensures Tree(fs[p := node])
  {
  }

  // ----- preparation -----

  /** The codes of this file's errors. */
  datatype RootError = InvalidOutputRoot | OutputRootCollision | OutputRootCreateFailed

  function ValidateInfo(n: Node): Option<RootError> {
    if n.kind.Unsafe? then Some(InvalidOutputRoot)
    else if !n.kind.Directory? then Some(OutputRootCollision)
    else None
  }

  /** The root is missing at both looks and Mkdir works. */
  predicate Makes(fs0: Fs, path: Path, w: World) {
    !w.fails(0) && path !in At(w, fs0, 0) && path !in At(w, fs0, 1) && !w.fails(1)
  }

  /** The file system preparation leaves behind; `id` is the identity a directory made here gets. */
  function PreparedFs(fs0: Fs, path: Path, id: nat, w: World): Fs {
    if w.fails(0) || path in At(w, fs0, 0) then At(w, fs0, 0)
    else if path in At(w, fs0, 1) then At(w, fs0, 2)
    else if w.fails(1) then At(w, fs0, 1)
    else w.interfere(2, At(w, fs0, 1)[path := Node(id, Directory)])
  }

  /** The look that decides works: the first one, or the one after Mkdir, which found the path taken or took it. */
  predicate Decides(fs0: Fs, path: Path, id: nat, w: World) {
    && !w.fails(0)
    && (path in At(w, fs0, 0) || ((path in At(w, fs0, 1) || !w.fails(1)) && !w.fails(2)))
    && path in PreparedFs(fs0, path, id, w)
  }

  /** And it finds a plain directory. */
  predicate IsPrepared(fs0: Fs, path: Path, id: nat, w: World) {
    Decides(fs0, path, id, w) && PreparedFs(fs0, path, id, w)[path].kind.Directory?
  }

  /** What is wrong, if the root is not prepared. */
  function PreparationError(fs0: Fs, path: Path, id: nat, w: World): RootError {
    if !Decides(fs0, path, id, w) then OutputRootCreateFailed
    else if PreparedFs(fs0, path, id, w)[path].kind.Unsafe? then InvalidOutputRoot
    else OutputRootCollision
  }

  function RootOf(fs0: Fs, path: Path, id: nat, w: World): PreparedRoot {
    PreparedRoot(
      path, Makes(fs0, path, w),
      if IsPrepared(fs0, path, id, w) then Some(PreparedFs(fs0, path, id, w)[path].id) else None)
  }

  /** `prepareOutputRoot` with the parents in place. A root that exists when it is looked for, or that someone
      else makes first, is taken as it is if it is a plain directory, and never marked as created. */
  method PrepareOutputRoot(fs0: Fs, path: Path, id: nat, w: World) returns (root: PreparedRoot, error: Option<RootError>, fs: Fs)
    ensures root == RootOf(fs0, path, id, w)
    ensures error.None? <==> IsPrepared(fs0, path, id, w)
    ensures fs == PreparedFs(fs0, path, id, w)
    ensures error.Some? ==> error.value == PreparationError(fs0, path, id, w)
    // Which error: the deciding look works and finds something else than a directory, or it does not work.
    ensures error == Some(InvalidOutputRoot) <==> Decides(fs0, path, id, w) && fs[path].kind.Unsafe?
    ensures error == Some(OutputRootCollision) <==>
              Decides(fs0, path, id, w) && !fs[path].kind.Unsafe? && !fs[path].kind.Directory?
  {
    root := PreparedRoot(path, false, None);
    fs := w.interfere(0, fs0);
    assert fs == At(w, fs0, 0);
    if w.fails(0) {
      return root, Some(OutputRootCreateFailed), fs;
    }
    if path in fs {
      error := ValidateInfo(fs[path]);
      if error.None? {
        root := root.(identity := Some(fs[path].id));
      }
      return;
    }
    fs := w.interfere(1, fs);
    assert fs == At(w, fs0, 1);
    if path in fs {
      fs := w.interfere(2, fs);
      assert fs == At(w, fs0, 2);
      if w.fails(2) || path !in fs {
        return root, Some(OutputRootCreateFailed), fs;
      }
      error := ValidateInfo(fs[path]);
      if error.None? {
        root := root.(identity := Some(fs[path].id));
      }
      return;
    }
    if w.fails(1) {
      return root, Some(OutputRootCreateFailed), fs;
    }
    fs := fs[path := Node(id, Directory)];
    root := root.(created := true);
    fs := w.interfere(2, fs);
    if w.fails(2) || path !in fs {
      return root, Some(OutputRootCreateFailed), fs;
    }
    error := ValidateInfo(fs[path]);
    if error.None? {
      root := root.(identity := Some(fs[path].id));
    }
  }

  /** If the others only add: what was there stays, a root made here was missing before and stands as it was
      made, and preparation then fails only if the look at it fails. */
  lemma PreparationOnlyAdds(fs0: Fs, path: Path, id: nat, w: World)
    requires OnlyAdds(w)
    ensures Kept(fs0, PreparedFs(fs0, path, id, w))
    ensures Makes(fs0, path, w) ==> path !in fs0 && path in PreparedFs(fs0, path, id, w)
                                    && PreparedFs(fs0, path, id, w)[path] == Node(id, Directory)
    ensures Makes(fs0, path, w) ==> (IsPrepared(fs0, path, id, w) <==> !w.fails(2))
  {
    AtKeeps(fs0, w, 0);
    AtKeeps(fs0, w, 1);
    AtKeeps(fs0, w, 2);
    if Makes(fs0, path, w) {
      var made := At(w, fs0, 1)[path := Node(id, Directory)];
      assert Kept(made, w.interfere(2, made));
    }
  }

  /** With nobody else about, a root made here is all that changes; if no call fails either, a missing one is made,
      and one that is there is taken if it is a plain directory. */
  lemma QuietPreparation(fs0: Fs, path: Path, id: nat, w: World)
    requires Quiet(w)
    ensures PreparedFs(fs0, path, id, w) == if Makes(fs0, path, w) then fs0[path := Node(id, Directory)] else fs0
    ensures Makes(fs0, path, w) ==> path !in fs0
    ensures (forall k :: !w.fails(k)) ==>
              && (Makes(fs0, path, w) <==> path !in fs0)
              && (IsPrepared(fs0, path, id, w) <==> (path in fs0 ==> fs0[path].kind.Directory?))
              && (IsPrepared(fs0, path, id, w) ==>
                    RootOf(fs0, path, id, w).identity == Some(if path in fs0 then fs0[path].id else id))
  {
    assert At(w, fs0, 0) == fs0 && At(w, fs0, 1) == fs0 && At(w, fs0, 2) == fs0;
  }

  /** The identity recorded for a root made here is the one it was made with exactly if nobody put another
      directory in its place before the look that records it. */
  lemma RecordedRootIsOwnExactly(fs0: Fs, path: Path, id: nat, w: World)
    requires Makes(fs0, path, w) && IsPrepared(fs0, path, id, w)
    ensures RootOf(fs0, path, id, w).identity == Some(id)
            <==> w.interfere(2, At(w, fs0, 1)[path := Node(id, Directory)])[path].id == id
  {
  }

  /** It can be another one: then a directory of someone else counts as made here. */
  lemma SwappedRootIsRecorded(path: Path, id: nat, foreign: nat) returns (fs0: Fs, w: World)
    ensures Makes(fs0, path, w) && IsPrepared(fs0, path, id, w)
    ensures RootOf(fs0, path, id, w) == PreparedRoot(path, true, Some(foreign))
  {
    fs0 := map[];
    w := World((k: nat, fs: Fs) => if k == 2 then fs[path := Node(foreign, Directory)] else fs, k => false);
    assert At(w, fs0, 0) == fs0 && At(w, fs0, 1) == fs0;
  }

  // ----- what stays -----

  /** Everything in `a` is in `b`, unchanged. */
  ghost predicate Kept(a: Fs, b: Fs) {
    forall p :: p in a ==> p in b && b[p] == a[p]
  }

  /** Everything in `a` but the paths `except` is in `b`, unchanged. */
  ghost predicate KeptBut(a: Fs, b: Fs, except: set<Path>) {
    forall p :: p in a && p !in except ==> p in b && b[p] == a[p]
  }

  lemma {:induction false} AtKeeps(fs0: Fs, w: World, k: nat)
    requires OnlyAdds(w)
    ensures Kept(fs0, At(w, fs0, k)) && (k > 0 ==> Kept(At(w, fs0, k - 1), At(w, fs0, k)))
    decreases k
  {
    if k > 0 {
      AtKeeps(fs0, w, k - 1);
      assert At(w, fs0, k) == w.interfere(k, At(w, fs0, k - 1));
    } else {
      assert At(w, fs0, 0) == w.interfere(0, fs0);
    }
  }

  // ----- lock files -----

  /** The lock file is new: this call creates it. */
  predicate CreatesLock(fs0: Fs, path: Path, w: World) { !w.fails(0) && path !in At(w, fs0, 0) }

  /** The file system when the opened lock file is compared with what stands at its path. */
  function LockLook(fs0: Fs, path: Path, id: nat, w: World): Fs {
    if CreatesLock(fs0, path, w) then w.interfere(2, At(w, fs0, 0)[path := Node(id, Regular)]) else At(w, fs0, 2)
  }

  /** The file could be opened: created here, or found and not a directory. */
  predicate OpensLock(fs0: Fs, path: Path, w: World) {
    !w.fails(0) && (path !in At(w, fs0, 0) || (!w.fails(1) && path in At(w, fs0, 1) && !At(w, fs0, 1)[path].kind.Directory?))
  }

  /** What was opened still stands at the path and is a plain file. */
  predicate ConfirmsLock(fs0: Fs, path: Path, id: nat, w: World) {
    && OpensLock(fs0, path, w) && !w.fails(2)
    && var file := if CreatesLock(fs0, path, w) then id else At(w, fs0, 1)[path].id;
       path in LockLook(fs0, path, id, w) && LockLook(fs0, path, id, w)[path] == Node(file, Regular)
  }

  function LockedFs(fs0: Fs, path: Path, id: nat, w: World): Fs {
    if w.fails(0) then At(w, fs0, 0)
    else if !OpensLock(fs0, path, w) then At(w, fs0, 1)
    else if !ConfirmsLock(fs0, path, id, w) then LockLook(fs0, path, id, w)
    else w.interfere(3, LockLook(fs0, path, id, w))
  }

  /** `lockEvaluationPath`: create or open the lock file, check that it is the one at its path, and wait for it.
      The identity is owned exactly if the file was created here, whether or not the lock was taken. */
  method LockPath(fs0: Fs, path: Path, id: nat, w: World) returns (ok: bool, owned: Option<nat>, fs: Fs)
    ensures ok <==> ConfirmsLock(fs0, path, id, w) && !w.fails(3)
    ensures owned == if CreatesLock(fs0, path, w) then Some(id) else None
    ensures fs == LockedFs(fs0, path, id, w)
  {
    owned := None;
    fs := w.interfere(0, fs0);
    assert fs == At(w, fs0, 0);
    if w.fails(0) {
      return false, owned, fs;
    }
    var file := id;
    if path !in fs {
      fs := fs[path := Node(id, Regular)];
      owned := Some(id);
    } else {
      fs := w.interfere(1, fs);
      assert fs == At(w, fs0, 1);
      if w.fails(1) || path !in fs || fs[path].kind.Directory? {
        return false, owned, fs;
      }
      file := fs[path].id;
    }
    fs := w.interfere(2, fs);
    assert fs == LockLook(fs0, path, id, w);
    if w.fails(2) || path !in fs || !fs[path].kind.Regular? || fs[path].id != file {
      return false, owned, fs;
    }
    fs := w.interfere(3, fs);
    ok := !w.fails(3);
  }

  /** A lock is only taken on the file that was opened: if something else stands at the path at the look that follows,
      it is refused. */
  lemma LockIsTheFileOpened(fs0: Fs, path: Path, id: nat, w: World)
    ensures ConfirmsLock(fs0, path, id, w) ==> path in LockLook(fs0, path, id, w)
    ensures ConfirmsLock(fs0, path, id, w) && path !in At(w, fs0, 0) ==> LockLook(fs0, path, id, w)[path].id == id
    ensures ConfirmsLock(fs0, path, id, w) && path in At(w, fs0, 0) ==>
              path in At(w, fs0, 1) && LockLook(fs0, path, id, w)[path].id == At(w, fs0, 1)[path].id
  {
  }

  /** If the others only add, opening a lock file keeps everything, and a file created here was missing before. */
  lemma LockingOnlyAdds(fs0: Fs, path: Path, id: nat, w: World)
    requires OnlyAdds(w)
    ensures Kept(fs0, LockedFs(fs0, path, id, w))
    ensures CreatesLock(fs0, path, w) ==> path !in fs0
  {
    AtKeeps(fs0, w, 0);
    AtKeeps(fs0, w, 1);
    AtKeeps(fs0, w, 2);
    var look := LockLook(fs0, path, id, w);
    if CreatesLock(fs0, path, w) {
      var made := At(w, fs0, 0)[path := Node(id, Regular)];
      assert Kept(made, w.interfere(2, made));
    }
    assert Kept(look, w.interfere(3, look));
  }

  /** With nobody else about, a lock file made here is all that changes; if no call fails either, a missing one is
      made and owned, and one that is there is taken but not owned if it is a plain file. */
  lemma QuietLocking(fs0: Fs, path: Path, id: nat, w: World)
    requires Quiet(w)
    ensures LockedFs(fs0, path, id, w) == if CreatesLock(fs0, path, w) then fs0[path := Node(id, Regular)] else fs0
    ensures CreatesLock(fs0, path, w) ==> path !in fs0
    ensures (forall k :: !w.fails(k)) ==>
              && (ConfirmsLock(fs0, path, id, w) <==> (path in fs0 ==> fs0[path].kind.Regular?))
              && (CreatesLock(fs0, path, w) <==> path !in fs0)
  {
    assert At(w, fs0, 0) == fs0 && At(w, fs0, 1) == fs0 && At(w, fs0, 2) == fs0;
  }

  lemma LockedIsTree(fs: Fs, path: Path, id: nat, w: World)
    requires Quiet(w) && Tree(fs) && HasParent(fs, path)
    ensures Tree(LockedFs(fs, path, id, w)) && Kept(fs, LockedFs(fs, path, id, w))
  {
    QuietLocking(fs, path, id, w);
    if path !in fs {
      AddingKeepsTree(fs, path, Node(id, Regular));
    }
  }

  lemma PreparedIsTree(fs: Fs, path: Path, id: nat, w: World)
    requires Quiet(w) && Tree(fs) && HasParent(fs, path)
    ensures Tree(PreparedFs(fs, path, id, w))
  {
    QuietPreparation(fs, path, id, w);
    if path !in fs {
      AddingKeepsTree(fs, path, Node(id, Directory));
    }
  }

  /** The ancestor walk accepts exactly the paths whose existing ancestors are all plain directories. */
  method ValidateExistingPath(fs: Fs, path: Path, includePath: bool, fails: Path -> bool) returns (error: Option<RootError>)
    requires path != []
    ensures var top := if includePath then |path| else |path| - 1;
            error.None? <==>
            forall n :: 0 <= n <= top ==> !fails(path[..n]) && (path[..n] in fs ==> fs[path[..n]].kind.Directory?)
  {
    var n := if includePath then |path| else |path| - 1;
    ghost var top := n;
    while true
      invariant 0 <= n <= top <= |path|
      invariant forall k :: n < k <= top ==> !fails(path[..k]) && (path[..k] in fs ==> fs[path[..k]].kind.Directory?)
      decreases n
    {
      var current := path[..n];
      if fails(current) {
        return Some(OutputRootCreateFailed);
      }
      if current in fs {
        error := ValidateInfo(fs[current]);
        if error.Some? {
          return;
        }
      }
      if n == 0 {
        return None;
      }
      n := n - 1;
    }
  }

  // ----- cleanup -----

  /** Something this run took away: what stood at the path then, and the identity it had checked for. */
  datatype Removal = Removal(path: Path, node: Node, checked: nat)

  /** A directory was found with the identity this run recorded. */
  predicate FoundOwn(fs0: Fs, root: PreparedRoot, w: World) {
    && !w.fails(0) && root.path in At(w, fs0, 0)
    && At(w, fs0, 0)[root.path].kind.Directory? && root.identity == Some(At(w, fs0, 0)[root.path].id)
  }

  /** And it could be listed. */
  predicate Listed(fs0: Fs, root: PreparedRoot, w: World) {
    && FoundOwn(fs0, root, w)
    && !w.fails(1) && root.path in At(w, fs0, 1) && At(w, fs0, 1)[root.path].kind.Directory?
  }

  ghost predicate OnlyLockListed(fs0: Fs, root: Path, w: World) {
    forall q :: q in Entries(At(w, fs0, 1), root) ==> q == OutputLock(root) && !At(w, fs0, 1)[q].kind.Directory?
  }

  /** The lock seen in the listing is the one this run made. */
  predicate LockIsOwn(fs0: Fs, root: PreparedRoot, ownedLock: Option<nat>, w: World) {
    var lock := OutputLock(root.path);
    ownedLock.Some? && !w.fails(2) && lock in At(w, fs0, 2) && At(w, fs0, 2)[lock] == Node(ownedLock.value, Regular)
  }

  ghost predicate LockGoes(fs0: Fs, root: PreparedRoot, ownedLock: Option<nat>, w: World) {
    && Listed(fs0, root, w) && OnlyLockListed(fs0, root.path, w) && Entries(At(w, fs0, 1), root.path) != {}
    && LockIsOwn(fs0, root, ownedLock, w)
    && !w.fails(3) && Removable(At(w, fs0, 3), OutputLock(root.path))
  }

  /** The file system cleanup leaves behind before it turns to the root itself. */
  ghost function BeforeRoot(fs0: Fs, root: PreparedRoot, ownedLock: Option<nat>, w: World): Fs {
    if LockGoes(fs0, root, ownedLock, w) then At(w, fs0, 3) - {OutputLock(root.path)} else At(w, fs0, 1)
  }

  ghost predicate RootGoes(fs0: Fs, root: PreparedRoot, ownedLock: Option<nat>, w: World) {
    && (LockGoes(fs0, root, ownedLock, w) || (Listed(fs0, root, w) && Entries(At(w, fs0, 1), root.path) == {}))
    && !w.fails(4) && Removable(w.interfere(4, BeforeRoot(fs0, root, ownedLock, w)), root.path)
  }

  /** What cleanup takes away, and in which order. */
  ghost function Removals(fs0: Fs, root: PreparedRoot, ownedLock: Option<nat>, w: World): seq<Removal> {
    (if LockGoes(fs0, root, ownedLock, w)
     then [Removal(OutputLock(root.path), At(w, fs0, 3)[OutputLock(root.path)], ownedLock.value)] else [])
    +
    (if RootGoes(fs0, root, ownedLock, w)
     then [Removal(root.path, w.interfere(4, BeforeRoot(fs0, root, ownedLock, w))[root.path], root.identity.value)] else [])
  }

  /** The file systems that the calls of cleanup see, in order; it stops at the first call that tells it to. */
  ghost function Seen(fs0: Fs, root: PreparedRoot, ownedLock: Option<nat>, w: World): (r: seq<Fs>)
    ensures r != []
  {
    if !FoundOwn(fs0, root, w) then [At(w, fs0, 0)]
    else if !Listed(fs0, root, w) || !OnlyLockListed(fs0, root.path, w) then [At(w, fs0, 0), At(w, fs0, 1)]
    else if Entries(At(w, fs0, 1), root.path) == {} then [At(w, fs0, 0), At(w, fs0, 1), w.interfere(4, At(w, fs0, 1))]
    else if ownedLock.None? then [At(w, fs0, 0), At(w, fs0, 1)]
    else if !LockIsOwn(fs0, root, ownedLock, w) then [At(w, fs0, 0), At(w, fs0, 1), At(w, fs0, 2)]
    else if !LockGoes(fs0, root, ownedLock, w) then [At(w, fs0, 0), At(w, fs0, 1), At(w, fs0, 2), At(w, fs0, 3)]
    else [At(w, fs0, 0), At(w, fs0, 1), At(w, fs0, 2), At(w, fs0, 3),
          w.interfere(4, At(w, fs0, 3) - {OutputLock(root.path)})]
  }

  /** What cleanup leaves behind: what its last call saw, without the root if that call removed it. */
  ghost function CleanedFs(fs0: Fs, root: PreparedRoot, ownedLock: Option<nat>, w: World): Fs {
    var seen := Seen(fs0, root, ownedLock, w);
    seen[|seen| - 1] - (if RootGoes(fs0, root, ownedLock, w) then {root.path} else {})
  }

  function RemovedPaths(removed: seq<Removal>): set<Path> { set r | r in removed :: r.path }

  /** `cleanupCreatedOutputRoot`: it succeeds only if it took the root away. */
  method Cleanup(fs0: Fs, root: PreparedRoot, ownedLock: Option<nat>, w: World)
    returns (ok: bool, fs: Fs, removed: seq<Removal>)
    ensures removed == Removals(fs0, root, ownedLock, w)
    ensures ok <==> RootGoes(fs0, root, ownedLock, w)
    ensures fs == CleanedFs(fs0, root, ownedLock, w)
    ensures ok ==> root.path !in fs
  {
    var lockPath := OutputLock(root.path);
    removed := [];
    fs := w.interfere(0, fs0);
    assert fs == At(w, fs0, 0);
    if w.fails(0) || root.path !in fs {
      return false, fs, removed;
    }
    var info := fs[root.path];
    if root.identity.None? || !info.kind.Directory? || root.identity.value != info.id {
      return false, fs, removed;
    }
    fs := w.interfere(1, fs);
    assert fs == At(w, fs0, 1);
    if w.fails(1) || root.path !in fs || !fs[root.path].kind.Directory? {
      return false, fs, removed;
    }
    var entries := Entries(fs, root.path);
    if exists q :: q in entries && (q != lockPath || fs[q].kind.Directory?) {
      return false, fs, removed;
    }
    if entries != {} {
      if ownedLock.None? {
        return false, fs, removed;
      }
      fs := w.interfere(2, fs);
      assert fs == At(w, fs0, 2);
      if w.fails(2) || lockPath !in fs {
        return false, fs, removed;
      }
      if !fs[lockPath].kind.Regular? || fs[lockPath].id != ownedLock.value {
        return false, fs, removed;
      }
      fs := w.interfere(3, fs);
      assert fs == At(w, fs0, 3);
      if w.fails(3) || !Removable(fs, lockPath) {
        return false, fs, removed;
      }
      removed := [Removal(lockPath, fs[lockPath], ownedLock.value)];
      fs := fs - {lockPath};
    }
    assert fs == BeforeRoot(fs0, root, ownedLock, w);
    fs := w.interfere(4, fs);
    if w.fails(4) || !Removable(fs, root.path) {
      return false, fs, removed;
    }
    removed := removed + [Removal(root.path, fs[root.path], root.identity.value)];
    fs := fs - {root.path};
    return true, fs, removed;
  }

  /** At most the lock and the root go, the lock first, and each only after its identity was checked. */
  lemma OnlyLockAndRootGo(fs0: Fs, root: PreparedRoot, ownedLock: Option<nat>, w: World)
    ensures var removed := Removals(fs0, root, ownedLock, w);
            && |removed| <= 2
            && (forall i :: 0 <= i < |removed| ==>
                  || (i == 0 && removed[i].path == OutputLock(root.path) && Some(removed[i].checked) == ownedLock)
                  || (i == |removed| - 1 && removed[i].path == root.path && Some(removed[i].checked) == root.identity))
  {
  }

  /** Whatever entries others add while cleanup runs, everything that stood at its start, and everything that
      any of its calls saw, is still there unchanged when it returns, but for the paths it lists as removed. */
  lemma NothingElseGoes(fs0: Fs, root: PreparedRoot, ownedLock: Option<nat>, w: World, k: nat)
    requires OnlyAdds(w) && k < |Seen(fs0, root, ownedLock, w)|
    ensures var fs, removed := CleanedFs(fs0, root, ownedLock, w), RemovedPaths(Removals(fs0, root, ownedLock, w));
            KeptBut(fs0, fs, removed) && KeptBut(Seen(fs0, root, ownedLock, w)[k], fs, removed)
  {
    SeenKeeps(fs0, root, ownedLock, w, 0);
    SeenKeeps(fs0, root, ownedLock, w, k);
    AtKeeps(fs0, w, 0);
    RemovedAreListed(fs0, root, ownedLock, w);
  }

  ghost function LockGone(fs0: Fs, root: PreparedRoot, ownedLock: Option<nat>, w: World): set<Path> {
    if LockGoes(fs0, root, ownedLock, w) then {OutputLock(root.path)} else {}
  }

  lemma RemovedAreListed(fs0: Fs, root: PreparedRoot, ownedLock: Option<nat>, w: World)
    ensures RemovedPaths(Removals(fs0, root, ownedLock, w))
            == LockGone(fs0, root, ownedLock, w) + if RootGoes(fs0, root, ownedLock, w) then {root.path} else {}
  {
    var removals := Removals(fs0, root, ownedLock, w);
    if LockGoes(fs0, root, ownedLock, w) {
      assert removals[0] in removals && removals[0].path == OutputLock(root.path);
    }
    if RootGoes(fs0, root, ownedLock, w) {
      assert removals[|removals| - 1] in removals && removals[|removals| - 1].path == root.path;
    }
  }

  lemma SeenStep(fs0: Fs, root: PreparedRoot, ownedLock: Option<nat>, w: World, k: nat)
    requires OnlyAdds(w) && k + 1 < |Seen(fs0, root, ownedLock, w)|
    ensures KeptBut(Seen(fs0, root, ownedLock, w)[k], Seen(fs0, root, ownedLock, w)[k + 1], LockGone(fs0, root, ownedLock, w))
  {
    AtKeeps(fs0, w, k + 1);
    if k == 3 {
      var left := At(w, fs0, 3) - {OutputLock(root.path)};
      assert Kept(left, w.interfere(4, left));
    } else if k == 1 {
      assert Kept(At(w, fs0, 1), w.interfere(4, At(w, fs0, 1)));
    }
  }

  lemma {:induction false} SeenKeeps(fs0: Fs, root: PreparedRoot, ownedLock: Option<nat>, w: World, k: nat)
    requires OnlyAdds(w) && k < |Seen(fs0, root, ownedLock, w)|
    ensures var seen := Seen(fs0, root, ownedLock, w);
            KeptBut(seen[k], seen[|seen| - 1], LockGone(fs0, root, ownedLock, w))
    decreases |Seen(fs0, root, ownedLock, w)| - k
  {
    if k + 1 < |Seen(fs0, root, ownedLock, w)| {
      SeenStep(fs0, root, ownedLock, w, k);
      SeenKeeps(fs0, root, ownedLock, w, k + 1);
    }
  }

  /** With nobody else about, cleanup changes nothing but the removals. */
  lemma QuietCleanupOnlyRemoves(fs0: Fs, root: PreparedRoot, ownedLock: Option<nat>, w: World)
    requires Quiet(w)
    ensures CleanedFs(fs0, root, ownedLock, w) == fs0 - RemovedPaths(Removals(fs0, root, ownedLock, w))
  {
    assert At(w, fs0, 0) == fs0 && At(w, fs0, 1) == fs0 && At(w, fs0, 2) == fs0 && At(w, fs0, 3) == fs0;
    RemovedAreListed(fs0, root, ownedLock, w);
  }

  /** Whatever entries others add while cleanup runs, nothing goes that this run did not create. */
  lemma NothingForeignGoes(fs0: Fs, root: PreparedRoot, ownedLock: Option<nat>, w: World)
    requires OnlyAdds(w)
    ensures forall r :: r in Removals(fs0, root, ownedLock, w) ==>
              || (r.path == root.path && Some(r.node.id) == root.identity && r.node.kind.Directory?)
              || (r.path == OutputLock(root.path) && ownedLock.Some? && r.node == Node(ownedLock.value, Regular))
  {
    var lock := OutputLock(root.path);
    if Listed(fs0, root, w) {
      AtKeeps(fs0, w, 1);
      AtKeeps(fs0, w, 2);
      AtKeeps(fs0, w, 3);
      assert |lock| != |root.path|;
      var before := BeforeRoot(fs0, root, ownedLock, w);
      assert root.path in before && before[root.path] == At(w, fs0, 0)[root.path];
      assert Kept(before, w.interfere(4, before));
    }
  }

  /** A foreign entry, or a lock this run does not own, seen at the check: nothing is removed, and cleanup leaves
      exactly what its last look saw. */
  lemma ForeignEntryStopsCleanup(fs0: Fs, root: PreparedRoot, ownedLock: Option<nat>, w: World, q: Path)
    requires q in Entries(At(w, fs0, 1), root.path)
    requires || q != OutputLock(root.path) || At(w, fs0, 1)[q].kind.Directory? || ownedLock.None?
             || q !in At(w, fs0, 2) || At(w, fs0, 2)[q] != Node(ownedLock.value, Regular)
    ensures Removals(fs0, root, ownedLock, w) == []
    ensures exists k: nat :: k <= 2 && CleanedFs(fs0, root, ownedLock, w) == At(w, fs0, k)
    ensures OnlyAdds(w) ==> Kept(fs0, CleanedFs(fs0, root, ownedLock, w))
  {
    assert !LockGoes(fs0, root, ownedLock, w) && !RootGoes(fs0, root, ownedLock, w);
    var seen := Seen(fs0, root, ownedLock, w);
    assert |seen| <= 3 && seen[|seen| - 1] == At(w, fs0, |seen| - 1);
    assert CleanedFs(fs0, root, ownedLock, w) == At(w, fs0, |seen| - 1);
    if OnlyAdds(w) {
      AtKeeps(fs0, w, |seen| - 1);
    }
  }

  /** Cleanup never takes a directory from under its entries, nor anything else that something stands in. */
  lemma CleanupKeepsTree(fs0: Fs, root: PreparedRoot, ownedLock: Option<nat>, w: World)
    requires Tree(fs0) && Quiet(w)
    ensures Tree(CleanedFs(fs0, root, ownedLock, w))
  {
    QuietCleanup(fs0, root, ownedLock, w);
    if LockGoes(fs0, root, ownedLock, w) {
      RemovalKeepsTree(fs0, OutputLock(root.path));
    }
    if RootGoes(fs0, root, ownedLock, w) {
      RemovalKeepsTree(BeforeRoot(fs0, root, ownedLock, w), root.path);
    }
  }

  lemma QuietCleanup(fs0: Fs, root: PreparedRoot, ownedLock: Option<nat>, w: World)
    requires Quiet(w)
    ensures var lock, before := OutputLock(root.path), BeforeRoot(fs0, root, ownedLock, w);
            && before == (if LockGoes(fs0, root, ownedLock, w) then fs0 - {lock} else fs0)
            && CleanedFs(fs0, root, ownedLock, w)
               == (if RootGoes(fs0, root, ownedLock, w) then before - {root.path} else before)
            && (LockGoes(fs0, root, ownedLock, w) ==> Removable(fs0, lock))
            && (RootGoes(fs0, root, ownedLock, w) ==> Removable(before, root.path))
  {
    assert At(w, fs0, 0) == fs0 && At(w, fs0, 1) == fs0 && At(w, fs0, 2) == fs0 && At(w, fs0, 3) == fs0;
  }

  lemma RemovalKeepsTree(fs: Fs, path: Path)
    requires Tree(fs) && Removable(fs, path)
    ensures Tree(fs - {path})
  {
    forall p | p in fs && p != [] ensures p in Entries(fs, p[..|p| - 1]) && HasParent(fs, p) {
    }
  }

  /** A root that holds anything but the lock file when cleanup starts is still there when it returns. */
  lemma RootWithForeignEntryStays(fs0: Fs, root: PreparedRoot, ownedLock: Option<nat>, w: World, name: string)
    requires OnlyAdds(w) && root.path in fs0 && root.path + [name] in fs0 && name != OUTPUT_LOCK
    ensures var fs := CleanedFs(fs0, root, ownedLock, w);
            root.path in fs && fs[root.path] == fs0[root.path]
            && root.path + [name] in fs && fs[root.path + [name]] == fs0[root.path + [name]]
  {
    AtKeeps(fs0, w, 1);
    var q := root.path + [name];
    assert q != OutputLock(root.path) by {
      assert q[|root.path|] != OutputLock(root.path)[|root.path|];
    }
    assert IsEntry(root.path, q) && q in Entries(At(w, fs0, 1), root.path);
    ForeignEntryStopsCleanup(fs0, root, ownedLock, w, q);
  }

  /** With nobody else about and no failing call, cleanup succeeds exactly on the directory this run made,
      empty or with nothing in it but the lock this run made. */
  lemma QuietCleanupSucceedsExactlyOnOwnRoot(fs0: Fs, root: PreparedRoot, ownedLock: Option<nat>, w: World)
    requires Quiet(w) && forall k :: !w.fails(k)
    ensures RootGoes(fs0, root, ownedLock, w) <==>
            && root.path in fs0 && fs0[root.path].kind.Directory? && root.identity == Some(fs0[root.path].id)
            && (forall q :: q in Entries(fs0, root.path) ==>
                  q == OutputLock(root.path) && ownedLock.Some? && fs0[q] == Node(ownedLock.value, Regular))
  {
    assert At(w, fs0, 0) == fs0 && At(w, fs0, 1) == fs0 && At(w, fs0, 2) == fs0 && At(w, fs0, 3) == fs0;
    var lock := OutputLock(root.path);
    assert IsEntry(root.path, lock) && !IsEntry(lock, lock);
    if LockGoes(fs0, root, ownedLock, w) {
      assert Entries(fs0 - {lock}, root.path) == {};
    }
    if (forall q :: q in Entries(fs0, root.path) ==> q == lock) && Entries(fs0, root.path) != {} {
      assert lock in Entries(fs0, root.path);
    }
  }

  /** The limit of the promise, exactly: something foreign is removed if and only if the lock was replaced between
      the check of its identity and its removal, or the root between the check of its and its removal. */
  lemma OnlyOwnGoesExactlyUnlessReplaced(fs0: Fs, root: PreparedRoot, ownedLock: Option<nat>, w: World)
    ensures (forall r :: r in Removals(fs0, root, ownedLock, w) ==> r.node.id == r.checked) <==>
            && (LockGoes(fs0, root, ownedLock, w) ==>
                  At(w, fs0, 3)[OutputLock(root.path)].id == At(w, fs0, 2)[OutputLock(root.path)].id)
            && (RootGoes(fs0, root, ownedLock, w) ==>
                  w.interfere(4, BeforeRoot(fs0, root, ownedLock, w))[root.path].id == At(w, fs0, 0)[root.path].id)
  {
    var removals := Removals(fs0, root, ownedLock, w);
    if LockGoes(fs0, root, ownedLock, w) {
      assert removals[0] in removals && removals[0].path == OutputLock(root.path);
      assert removals[0].checked == At(w, fs0, 2)[OutputLock(root.path)].id;
    }
    if RootGoes(fs0, root, ownedLock, w) {
      var r := removals[|removals| - 1];
      assert r in removals && r.path == root.path && r.checked == At(w, fs0, 0)[root.path].id;
    }
  }

  /** Both can happen: a lock replaced just before its removal is removed, ... */
  lemma ReplacedLockIsRemoved(root: Path, rootId: nat, lockId: nat, foreign: nat) returns (fs0: Fs, w: World)
    requires lockId != foreign
    ensures var removed := Removals(fs0, PreparedRoot(root, true, Some(rootId)), Some(lockId), w);
            removed != [] && removed[0].checked == lockId && removed[0].node.id == foreign
  {
    var lock := OutputLock(root);
    assert lock != root && IsEntry(root, lock) && !IsEntry(root, root);
    fs0 := map[root := Node(rootId, Directory), lock := Node(lockId, Regular)];
    w := World((k: nat, fs: Fs) => if k == 3 then fs[lock := Node(foreign, Regular)] else fs, k => false);
    assert At(w, fs0, 0) == fs0 && At(w, fs0, 1) == fs0 && At(w, fs0, 2) == fs0;
    assert At(w, fs0, 3) == fs0[lock := Node(foreign, Regular)];
    assert Entries(fs0, root) == {lock};
  }

  /** ... and so is an empty directory that someone put in the place of the root. */
  lemma ReplacedRootIsRemoved(root: Path, rootId: nat, foreign: nat, ownedLock: Option<nat>) returns (fs0: Fs, w: World)
    requires rootId != foreign
    ensures Removals(fs0, PreparedRoot(root, true, Some(rootId)), ownedLock, w)
            == [Removal(root, Node(foreign, Directory), rootId)]
  {
    assert !IsEntry(root, root);
    fs0 := map[root := Node(rootId, Directory)];
    w := World((k: nat, fs: Fs) => if k == 4 then fs[root := Node(foreign, Directory)] else fs, k => false);
    assert At(w, fs0, 0) == fs0 && At(w, fs0, 1) == fs0;
    var prepared := PreparedRoot(root, true, Some(rootId));
    assert Entries(fs0, root) == {};
    assert !LockGoes(fs0, prepared, ownedLock, w) && BeforeRoot(fs0, prepared, ownedLock, w) == fs0;
    assert Entries(w.interfere(4, fs0), root) == {};
  }
}
