# Verified model of the GPU evaluation core

A Dafny model of the parts of this repository that have to be right under concurrency, crashes and failing calls:
the file-backed GPU reservation store, the evaluation action built on it, inventory reconciliation and canonical
manifests, and a handful of small stateful structures and selection engines. `dafny verify dfyconfig.toml` checks
everything.

Code that changes things step by step is modelled by classes and methods, proved against functions and predicates
that know nothing of the order of the work; protocols are step systems, and what is claimed of them holds at every
state of every run. Clocks, random tokens, system-call failures and other processes are parameters, so every claim is
for all of their choices.

## The main results

1. **The store is atomic** (`ReservationProtocol`). Any interleaving of any number of processes taking the lock,
   reading, reading the clock, deciding, renaming, unlocking, failing and crashing behaves like the sequential store;
   each step performs one whole operation on the file or none. Over whole runs two grants sharing a GPU are separated
   by the first lease's expiry or by a release carrying its token, owner and that GPU.
2. **An accepted command is alone on its GPUs** (`LeaseCover`), composing the TTL check of `validate`, the expiry
   stamp, the strict expiry test, the deferred release in the log of `Execute` and the protocol theorem. The permitted
   start delay is shown to be the exact one.
3. **Every path of `Execute`** (`Evaluation`). An independent monitor of locks, lease, command and cleanup accepts
   every log; the result record tells the truth after the three deferred functions have rewritten it; the file system
   is threaded through the whole call, and nothing that was there before is lost.
4. **Concurrent evaluations** (`EvaluationLocks`, `EvaluationRuns`, `EvaluationDeadlock`): one per root, for every log of
   `Execute`, and an exact criterion for deadlock over any roots and stores.
5. **Preparation, lock files and cleanup** (`OutputRoot`) against a file system that others change between any two calls.
6. **Reconciliation and canonical manifests** (`Inventory`, `InventoryOrder`, `Manifest`): conservation,
   independence of order, and canonical forms that decide equality up to reordering.
7. **Small structures and selection** (`AuditRing`, `RateLimit`, `CircuitBreaker`, `BoundedBuffer`, `Toolkit`,
   `TierPolicy`) against simple specifications.

## Where the code does less than it promises

Each of these is kept as the code has it; the exact condition is proved, and, where that does not show one by itself, a
concrete case.

- A `timeout_millis` whose product with a million leaves 64 bits can be accepted. The computed timeout may be negative,
  with a TTL of zero or less, which `Reserve` refuses (`WrappedTimeoutIsAccepted`; exactly when: `PositiveTtlGuaranteed`),
  or positive and far too short, with a TTL that ends centuries early (`WrappedTimeoutIsShort`; exactly when:
  `TtlCoversTimeoutExactly`).
- Nothing stops the reservation store's lock file from being an evaluation's own coordinator or output lock. A
  reservation path `<output_root>/.nanovms-evaluation` makes an evaluation block on itself (`SelfDeadlock`); any number
  of evaluations can deadlock exactly when the reservation paths of some of them clash with output roots of theirs
  (`DeadlockExactlyOnClashingPaths`).
- If `prepareOutputRoot` fails after its `Mkdir`, because the look that follows fails or finds no plain directory, the
  directory stays although `OutputRootCreated` is false and no cleanup is recorded (`RootCanLeak`; exactly when: `Leaks`
  in `Execute`).
- An inspector that returns an `EvaluationError` with an empty code makes a failed result carry an empty `ErrorCode`,
  unless the release or the cleanup fails as well (`CodeCanBeSilenced`; exactly when: `Silenced` in `Execute`).
- A lock file or an empty directory that replaces this run's own between the check of its identity and its removal is
  removed although it is foreign (`ReplacedLockIsRemoved`, `ReplacedRootIsRemoved`; exactly when:
  `OnlyOwnGoesExactlyUnlessReplaced`). A directory that replaces the root between its `Mkdir` and the look that records
  it counts as made here (`SwappedRootIsRecorded`; exactly when: `RecordedRootIsOwnExactly`).
- A `Release` that finds nothing of its own still rewrites the file without its expired records; live reservations are
  untouched (`ForeignReleaseCanPrune`; exactly when: `ForeignReleaseChangesNothing`).
- Driver facts of a reconciled device depend on the order of the inventories (`DriverFactsDependOnOrder`; exactly when:
  `DriverFactsInEveryOrderExactly`).
- The early break in `Query` loses matches if timestamps go back (`EarlyBreakIsExact`).
- An empty write to a full output buffer raises its overflow flag (`BufferHoldsPrefix`).
- `NewTokenBucket` checks neither rate nor burst (`InRangeExactly`, `LimitersAgreeExactly`).
- `Select`'s comment says that the order of the candidate list matters; the sort makes it irrelevant
  (`ListOrderIsIrrelevant`). The model follows the code.

## Model

| member | source | states |
|---|---|---|
| GpuIdentity.ParseUuidCanonicalises | pkg/gpu/contracts.go:14-39 | the validation accepts exactly the fixed points of parsing, and whatever parses leads to one |
| GpuIdentity.ValidUuidExactly | pkg/gpu/contracts.go:14-39 | valid iff "GPU-" and five words of 8, 4, 4, 4 and 12 lower-case hexadecimal digits joined by hyphens |
| GpuIdentity.ParseUuidExactly | pkg/gpu/contracts.go:14-27 | parses iff the same with letters in either case, and changes nothing but their case |
| Reservation.ListingIsComplete | pkg/gpu/reservation.go:147-152 | a listing of as many single-GPU leases as live records, in strictly increasing order, names every live record |
| Reservation.ForeignReleaseChangesNothing | pkg/gpu/reservation.go:116-129 | a release with a foreign token or owner leaves every live reservation; the file itself stays iff a listed record is live or no record in it has expired |
| Reservation.ForeignReleaseCanPrune | pkg/gpu/reservation.go:116-129 | a case in which such a release takes an expired record out of the file |
| Reservation.ReservationState.RemoveExpired | pkg/gpu/reservation.go:277-283 | the in-place loop, in any order, leaves exactly the records that expire strictly later |
| Reservation.ReservationState.FindReserved | pkg/gpu/reservation.go:80-84 | true iff some requested GPU is reserved |
| Reservation.ReservationState.FindForeign | pkg/gpu/reservation.go:117-125 | true iff some listed record has another token or owner |
| Reservation.ReservationState.Insert | pkg/gpu/reservation.go:90-92 | the map gains the record under every requested GPU and nothing else |
| Reservation.ReservationState.Delete | pkg/gpu/reservation.go:126-128 | the map loses the listed GPUs and nothing else |
| Reservation.ReservationState.List | pkg/gpu/reservation.go:147-152 | one lease per record in strictly increasing UUID order, from an unordered range over the map |
| Reservation.CheckCanonical | pkg/gpu/reservation.go:60-67 | comparing sorted neighbours accepts exactly the lists of valid, pairwise distinct UUIDs |
| Reservation.Canonicalise | pkg/gpu/reservation.go:58-67 | a sorted rearrangement of the request iff its UUIDs are valid and distinct |
| Reservation.ReservationStore.ReserveLocked | pkg/gpu/reservation.go:74-96 | under the lock: granted only if all are free, with exactly the live records and the new ones written; otherwise the file stays, and in good surroundings only because one is taken |
| Reservation.ReservationStore.Reserve | pkg/gpu/reservation.go:51-97 | success is the atomic effect with the lease returned; failure leaves the file; with good arguments and surroundings only contention fails |
| Reservation.ReservationStore.Release | pkg/gpu/reservation.go:100-130 | success is the atomic effect; failure leaves the file; with good arguments and surroundings only a foreign record fails |
| Reservation.ReservationStore.Active | pkg/gpu/reservation.go:133-153 | the sorted live reservations, the file untouched |
| ReservationProtocol.StoreIsLawful | pkg/gpu/reservation.go:78-97 | the laws of one operation that the run arguments use: refusals keep the file, grants are recorded, exclusive and carry their token, unexpired records stay until surrendered, records come only from grants |
| ReservationProtocol.CallCompletes | pkg/gpu/reservation.go:69-97 | where the lock is free there is a run in which a call goes through, with any effect the store allows |
| ReservationProtocol.CallsCanFail | pkg/gpu/reservation.go:155-183 | a call can give up waiting and can fail at any point inside, with the file and the history as they were |
| ReservationProtocol.CrashIsAlwaysPossible | pkg/gpu/reservation.go:155-183 | a process can crash anywhere, and then holds nothing |
| ReservationProtocol.StepRefinesSequentialStore | pkg/gpu/reservation.go:69-97 | every step of every process keeps the invariant and performs one whole operation or none |
| ReservationProtocol.RunsRefine | pkg/gpu/reservation.go:155-183 | the invariant (lock means critical section, what was read is still the file, history replays to the file) holds after every run |
| ReservationProtocol.RunsRefineSequentialStore | pkg/gpu/reservation.go:51-183 | in every run the completed operations replay sequentially to the file, clocks never go back, no token is granted twice, at most one process is inside |
| ReservationProtocol.EveryStepIsOneOperationOrNone | pkg/gpu/reservation.go:220-268 | at each step of each run the file is the state before or after exactly one recorded operation |
| ReservationProtocol.GrantPersists | pkg/gpu/reservation.go:277-283 | a granted record stays in the file until its expiry or its own release, whatever happens in between |
| ReservationProtocol.LeasesExcludeOverRuns | pkg/gpu/reservation.go:79-97 | two grants of a run that share a GPU: the later is at or after the earlier expiry, or after a release with its token, owner and that GPU |
| ReservationProtocol.TokenNamesOneLeaseOverRuns | pkg/gpu/reservation.go:85-92 | in every run all records under a granted token are ones that grant wrote |
| ReservationProtocol.EveryCallBegan | pkg/gpu/reservation.go:69-97 | in every run each completed operation was invoked by its process, and reads a clock no earlier than its invocation saw |
| Inventory.Reconcile | pkg/gpu/contracts.go:79-126 | succeeds iff the inventories are well formed and all candidates of a GPU agree pairwise; then each UUID once, in strictly increasing order, with the first known facts and exactly its observations |
| Inventory.MergeInventory | pkg/gpu/contracts.go:81-112 | one inventory's pass succeeds iff it is well formed and agrees with everything before; the map then sums up all candidates so far |
| Inventory.MergeDevice | pkg/gpu/contracts.go:101-110 | a conflict with the running summary is a conflict with some earlier candidate, and conversely |
| Inventory.SummaryExtended | pkg/gpu/contracts.go:132-154 | filling in missing facts keeps every fact the first non-empty one among the candidates |
| Inventory.Finish | pkg/gpu/contracts.go:114-125 | every merged device once, in strictly increasing UUID order, its observations sorted and otherwise the same |
| Inventory.WellFormedExactly | pkg/gpu/contracts.go:82-100 | what is asked of one inventory, in words |
| Inventory.AgreeExactly | pkg/gpu/contracts.go:105-130 | two candidates agree iff their UUIDs differ, or they have one name and no two different known capabilities or architectures |
| Inventory.ConflictExactly | pkg/gpu/contracts.go:128-130 | two facts conflict iff both are known and differ under case folding |
| Inventory.OwnDriverFactsComeFirst | pkg/gpu/contracts.go:139-144 | a device's own driver facts come before its inventory's, which fill in only what is missing |
| Inventory.ObservationsByScope | pkg/gpu/contracts.go:116-121 | sorted observations come by scope, then by scope identifier |
| InventoryOrder.ReconcilableInAnyOrder | pkg/gpu/contracts.go:79-126 | whether inventories reconcile does not depend on their order |
| InventoryOrder.ObservationsInAnyOrder | pkg/gpu/contracts.go:101-111 | the observations of a GPU do not depend on the order of the inventories |
| InventoryOrder.ObservationsAreConserved | pkg/gpu/contracts.go:97-123 | the observations of a reconciliation are, as one multiset, exactly the input observations |
| InventoryOrder.ReconciledInAnyOrder | pkg/gpu/contracts.go:79-126 | same UUIDs in the same places, same names, same observation multisets, same architecture and capability up to case, in any order of the inventories |
| InventoryOrder.FirstInEveryOrderExactly | pkg/gpu/contracts.go:139-144 | over all rearrangements of well-formed inventories a first-wins fact is the same iff all candidates that know it agree |
| InventoryOrder.DriverFactsInEveryOrderExactly | pkg/gpu/contracts.go:139-144 | a reconciled device has the same driver version (and CUDA ceiling) for every order iff all candidates that know it agree |
| InventoryOrder.DriverFactsDependOnOrder | pkg/gpu/contracts.go:139-144 | two orders of the same inventories whose reconciliations show different driver versions |
| Manifest.CanonicalJSON | pkg/gpu/contracts.go:229-260 | succeeds iff the version is right and the UUIDs are valid and distinct; the result is a sorted reordering; no memory of the caller is modified, however its slices overlap |
| Manifest.CheckAndSortObservations | pkg/gpu/contracts.go:239-258 | sorts each cloned slice in place to a permutation of itself and succeeds iff the UUIDs are valid and distinct |
| Manifest.AcceptableInAnyOrder | pkg/gpu/contracts.go:230-247 | reordering never changes whether a manifest is accepted |
| Manifest.AcceptableExactly | pkg/gpu/contracts.go:230-247 | accepted iff the version is right, every UUID is valid and no two are the same |
| Manifest.CanonicalObservations | pkg/gpu/contracts.go:248-257 | canonical observations come by scope, then identifier, then index |
| Manifest.CanonicalFormDecidesReordering | pkg/gpu/contracts.go:229-260 | canonical forms are equal iff the manifests differ only in the order of GPUs and of observations |
| Manifest.CanonicalFormIsFixed | pkg/gpu/contracts.go:229-260 | canonicalising a canonical form returns it |
| Validation.ValidateLimits | pkg/orchestrate/evaluation.go:402-415 | accepts iff timeout, output bound and TTL are in range, with the timeout computed in 64 bits |
| Validation.CheckEachBinding | pkg/orchestrate/evaluation.go:533-552 | passes iff every binding is right and no UUID repeats; `seen` is then the set of bound UUIDs |
| Validation.ValidateGpuBindings | pkg/orchestrate/evaluation.go:519-557 | accepts iff the bindings are right and are, as a multiset of UUIDs, the manifest's GPUs |
| Validation.SameCountIsPermutation | pkg/orchestrate/evaluation.go:553-555 | comparing two set sizes decides whether the bindings are a permutation of the manifest's GPUs |
| Validation.BindingsOkExactly | pkg/orchestrate/evaluation.go:519-557 | the bindings are right iff they are as many as the manifest's GPUs, distinct, each for one of them, with the artifact's toolkit and the CDI device named after the GPU |
| Envelope.FindTraversal | pkg/orchestrate/evaluation_filesystem.go:103-111 | the component loop finds "." or ".." iff one of them is a whole component |
| Envelope.TraversalExactly | pkg/orchestrate/evaluation_filesystem.go:103-111 | a traversal is "." or ".." between slashes of either kind, or at an end |
| Envelope.SpacesExactly | pkg/orchestrate/evaluation_filesystem.go:87-87 | white space is Unicode's, one by one |
| Envelope.CheckManaged | pkg/orchestrate/evaluation_filesystem.go:86-113 | accepts exactly the clean absolute paths that are no root, no UNC path and have no traversal |
| Envelope.CheckAddress | pkg/orchestrate/evaluation.go:361-379 | accepts iff the action is configured and output root, backend, fallbacks and version are right |
| Envelope.CheckEquipment | pkg/orchestrate/evaluation.go:384-401 | accepts iff executable, engine, pipe and reservation path are right and the store is bound to that path |
| Validation.Validate | pkg/orchestrate/evaluation.go:360-423 | accepts exactly the requests described by `Accepted` |
| Validation.AcceptedInWords | pkg/orchestrate/evaluation.go:360-423 | what every accepted request carries, with the constants spelt out |
| Validation.DigestExactly | pkg/orchestrate/evaluation.go:380-383 | a digest is any 64 hexadecimal digits of either case |
| Validation.LimitsInNumbers | pkg/orchestrate/evaluation.go:402-415 | the limits in milliseconds, bytes and nanoseconds |
| Validation.Int64Exactly | pkg/orchestrate/evaluation.go:402-402 | the product is taken modulo two to the 64th into the signed range |
| Validation.RequestedUuids | pkg/orchestrate/evaluation.go:668-675 | the bound UUIDs, sorted |
| Validation.AcceptedArguments | pkg/gpu/reservation.go:55-67 | the arguments of an accepted request pass `Reserve`'s checks iff the TTL is positive, and are the manifest's GPUs |
| Validation.PositiveTtlGuaranteed | pkg/orchestrate/evaluation.go:402-415 | acceptance guarantees a positive TTL iff the computed timeout exceeds minus one minute; no wrap suffices |
| Validation.TtlCoversTimeoutExactly | pkg/orchestrate/evaluation.go:402-415 | every acceptable TTL covers the timeout asked for iff the product does not wrap |
| Validation.WrappedTimeoutIsAccepted | pkg/orchestrate/evaluation.go:402-415 | a timeout that wraps to a negative one is accepted with TTL zero, which the store refuses |
| Validation.WrappedTimeoutIsShort | pkg/orchestrate/evaluation.go:402-415 | a timeout of centuries that wraps to half a millisecond is accepted with a TTL of 61 seconds |
| Validation.AcquireLease | pkg/orchestrate/evaluation.go:248-252 | the lease of an accepted request covers the manifest's GPUs with owner and expiry as asked; on a working store it fails iff the TTL is not positive, which takes a wrap, or one of them is reserved |
| LeaseCover.SlackIsExact | pkg/orchestrate/evaluation.go:402-415 | every acceptable TTL outlasts a delayed command iff the delay is within the slack, which is min(60 s, 24 h - timeout), and negative iff the timeout wraps |
| LeaseCover.ReleasesComeAfter | pkg/orchestrate/evaluation.go:258-280 | a release with the lease's token reads its clock when the command has ended, from the order of the holder's log and the secrecy of the token |
| LeaseCover.CommandIsAlone | pkg/orchestrate/evaluation.go:249-322 | in every run of the store, with the holder's log of Execute laid over it: whoever else is granted a GPU of an accepted command that starts within the slack and keeps its timeout read the clock after the command ended |
| EvaluationLocks.LockPathsAreApart | pkg/orchestrate/evaluation.go:805-812 | coordinator and output-lock paths are injective in the root and never equal |
| EvaluationLocks.LockNames | pkg/orchestrate/evaluation.go:805-812 | the three lock files of a root and a store by name |
| EvaluationLocks.StepKeepsInv | pkg/orchestrate/evaluation.go:814-870 | the lock table says exactly what the program counters say, kept by locking, moving, unlocking and crashing |
| EvaluationLocks.RunsKeepInv | pkg/orchestrate/evaluation.go:814-870 | and so after every run |
| EvaluationLocks.WaitsCanBeGivenUp | pkg/orchestrate/evaluation.go:846-870 | every wait can be given up, leaving the lock table as it was |
| EvaluationLocks.CrashGivesAllBack | pkg/orchestrate/evaluation.go:814-870 | an evaluation can crash anywhere; all it held is free, and nothing else |
| EvaluationLocks.OnePerRoot | pkg/orchestrate/evaluation.go:196-241 | in every run at most one evaluation per root is between taking and giving back the coordinator |
| EvaluationDeadlock.OutputHolderCoordinates | pkg/orchestrate/evaluation.go:217-241 | whoever holds a root's output lock holds its coordinator |
| EvaluationDeadlock.ApartMeansNoDeadlock | pkg/orchestrate/evaluation.go:196-261 | in no run does a set of evaluations, over any stores, wait in a circle while the store locks are apart from the root locks |
| EvaluationLocks.StoreLockClashesExactly | pkg/gpu/reservation.go:155-159 | the store's lock file is a lock of a root iff the reservation path is one of two paths beside or inside the root |
| EvaluationDeadlock.DeadlockHasCircle | pkg/orchestrate/evaluation.go:196-261 | every deadlock, over any roots and stores, contains evaluations each of whose store locks is a lock of one of their roots |
| EvaluationDeadlock.CircleCanDeadlock | pkg/orchestrate/evaluation.go:196-261 | from every such circle there is a run that deadlocks |
| EvaluationDeadlock.DeadlockExactlyOnCircles | pkg/orchestrate/evaluation.go:196-261 | evaluations, over any roots and stores, can deadlock iff some of them form a circle |
| EvaluationDeadlock.DeadlockExactlyOnClashingPaths | pkg/orchestrate/evaluation.go:196-261 | the same, in terms of output roots and reservation paths alone |
| EvaluationDeadlock.SelfDeadlock | pkg/orchestrate/evaluation.go:249-249 | a reservation path `<output_root>/.nanovms-evaluation` lets a single evaluation deadlock with itself |
| EvaluationDeadlock.DeadlockExactlyWhenStoreCollides | pkg/orchestrate/evaluation.go:196-261 | evaluations sharing a store can deadlock iff the store's lock file is a lock of a root in use |
| EvaluationRuns.LogIsAPath | pkg/orchestrate/evaluation.go:185-358 | every log of Execute is a path of the step system's program counters, and both agree on the locks held |
| EvaluationRuns.MovesAreSteps | pkg/orchestrate/evaluation.go:185-358 | each move of such a path is a step of the system when the lock it takes is free |
| EvaluationRuns.ExecutesExclude | pkg/orchestrate/evaluation.go:196-241 | of two calls with one output root in one run, only one can have anything under the coordinator to do next |
| OutputRoot.PrepareOutputRoot | pkg/orchestrate/evaluation_filesystem.go:115-159 | root record, error and file system exactly, for every interference: created iff missing at both looks and Mkdir worked, prepared iff the deciding look works and finds a plain directory, whose identity is kept |
| OutputRoot.PreparationOnlyAdds | pkg/orchestrate/evaluation_filesystem.go:115-159 | if others only add, everything stays, a root made here was missing before and stands as made, and only its last look can fail |
| OutputRoot.QuietPreparation | pkg/orchestrate/evaluation_filesystem.go:115-159 | undisturbed, a missing root is made, one that is there is taken iff a plain directory, and nothing else changes |
| OutputRoot.RecordedRootIsOwnExactly | pkg/orchestrate/evaluation_filesystem.go:147-157 | the identity recorded for a root made here is the one it was made with iff it was not replaced before the recording look |
| OutputRoot.SwappedRootIsRecorded | pkg/orchestrate/evaluation_filesystem.go:147-157 | a case in which a foreign directory counts as made here |
| OutputRoot.LockPath | pkg/orchestrate/evaluation.go:814-870 | lock taken, ownership and file system exactly, for every interference: owned iff the lock file was created here, whether or not the lock was taken |
| OutputRoot.LockingOnlyAdds | pkg/orchestrate/evaluation.go:814-870 | if others only add, everything stays, and an owned lock file was missing before |
| OutputRoot.QuietLocking | pkg/orchestrate/evaluation.go:814-870 | undisturbed, a missing lock file is made and owned, one that is there is taken iff a plain file, and nothing else changes |
| OutputRoot.LockIsTheFileOpened | pkg/orchestrate/evaluation.go:830-845 | a lock is refused if something else than the opened file stands at its path |
| OutputRoot.ValidateExistingPath | pkg/orchestrate/evaluation_filesystem.go:194-217 | passes iff every existing ancestor is a plain directory and none fails to be inspected |
| OutputRoot.Cleanup | pkg/orchestrate/evaluation_filesystem.go:219-256 | removals, success and file system exactly, for every interference and exit: what the last call made saw, without the root if it goes |
| OutputRoot.NothingElseGoes | pkg/orchestrate/evaluation_filesystem.go:219-256 | if others only add, everything that stood at the start or that any call saw is there unchanged at the end, but for the removed paths |
| OutputRoot.QuietCleanupOnlyRemoves | pkg/orchestrate/evaluation_filesystem.go:219-256 | undisturbed, the file system is as before without the removed paths |
| OutputRoot.CleanupKeepsTree | pkg/orchestrate/evaluation_filesystem.go:219-256 | undisturbed, every entry still has a directory to stand in |
| OutputRoot.RootWithForeignEntryStays | pkg/orchestrate/evaluation_filesystem.go:227-235 | if others only add, a root that holds anything but the lock file at the start is there at the end, and so is what it holds |
| OutputRoot.NothingForeignGoes | pkg/orchestrate/evaluation_filesystem.go:219-256 | if others only add, each removal is the directory with the recorded identity or the regular lock file this run owns |
| OutputRoot.ForeignEntryStopsCleanup | pkg/orchestrate/evaluation_filesystem.go:227-247 | a foreign entry or foreign lock seen at the check: nothing is removed, and the file system is what the last look saw, with everything kept if others only add |
| OutputRoot.QuietCleanupSucceedsExactlyOnOwnRoot | pkg/orchestrate/evaluation_filesystem.go:219-256 | undisturbed, cleanup succeeds iff the root has this run's identity and holds at most this run's lock |
| OutputRoot.OnlyOwnGoesExactlyUnlessReplaced | pkg/orchestrate/evaluation_filesystem.go:219-256 | in every world: all removed nodes have the identity checked for iff neither the lock nor the root was replaced between its check and its removal |
| OutputRoot.ReplacedLockIsRemoved | pkg/orchestrate/evaluation_filesystem.go:241-250 | a case in which a replaced lock is removed |
| OutputRoot.ReplacedRootIsRemoved | pkg/orchestrate/evaluation_filesystem.go:220-254 | a case in which an empty directory put in the place of the root is removed |
| Evaluation.WatchCounts | pkg/orchestrate/evaluation.go:185-358 | in an accepted log the number of grants, releases and starts is what the monitor's flags say, each at most one |
| Evaluation.AcceptedLogIsOrdered | pkg/orchestrate/evaluation.go:200-322 | in an accepted log, unlocking and cleanup come after the release, the release after the command, the command after the grant, and cleanup never after a start |
| Evaluation.CommandEndsBeforeRelease | pkg/orchestrate/evaluation.go:258-322 | in an accepted log every end of a command stands before every release |
| Evaluation.BeforeCommand | pkg/orchestrate/evaluation.go:282-310 | the command is reached iff snapshot, inspection and its validation pass; each failure with its code |
| Evaluation.AfterCommand | pkg/orchestrate/evaluation.go:339-355 | no error iff the command and its output are in order; timeout before truncation before failure, each with its code |
| Evaluation.ExecuteLeased | pkg/orchestrate/evaluation.go:282-357 | under a lease: the command started iff all before it went well, the lease untouched, the error that of the first thing that went wrong |
| Evaluation.CodesInOrder | pkg/orchestrate/evaluation.go:282-357 | no code iff everything is in order, an empty one iff it is the inspector's |
| Evaluation.ReleaseLease | pkg/orchestrate/evaluation.go:258-280 | `Released` is whether the release worked; a failed release turns any outcome into an error and keeps an earlier code |
| Evaluation.ExecuteLocked | pkg/orchestrate/evaluation.go:243-357 | a granted lease is gone at the end, the result names its token, and success means the command ran and the release worked |
| Evaluation.CleanUpFailure | pkg/orchestrate/evaluation.go:907-930 | "removed" iff the root goes, and then unmarked with the code kept; otherwise "preserved", still marked, with the cleanup code; removals and file system exactly those of cleanup |
| Evaluation.LeaveOutput | pkg/orchestrate/evaluation.go:223-241 | the deferred function cleans up iff the root was made here and the command was not started, and rewrites the results accordingly |
| Evaluation.ExecutePrepared | pkg/orchestrate/evaluation.go:209-241 | lock, lease, command and both uses of cleanup end as the script says: record, error, removals and file system exactly |
| Evaluation.OnlyOwnIsRemoved | pkg/orchestrate/evaluation.go:205-241 | while others only add during preparation and cleanup, each removal is the root with the identity this run made it with, or the lock file this run made |
| Evaluation.RestIsKept | pkg/orchestrate/evaluation.go:223-241 | while others only add, what stands when cleanup could start is there at the end, but for the removals |
| Evaluation.NothingPreexistingGoes | pkg/orchestrate/evaluation.go:185-358 | if everyone else only adds, everything that was there when the call began, an output root included, is there unchanged at the end |
| Evaluation.CallKeepsTree | pkg/orchestrate/evaluation.go:185-358 | undisturbed, whatever fails in it, the call leaves every entry a directory to stand in |
| Evaluation.UndisturbedCallStarts | pkg/orchestrate/evaluation.go:185-358 | undisturbed, the command is started whether the root and its lock files are missing or already there |
| Evaluation.RootCanLeak | pkg/orchestrate/evaluation.go:205-209 | a case in which a directory made here stays unrecorded |
| Evaluation.CodeCanBeSilenced | pkg/orchestrate/evaluation.go:298-304 | a case in which an empty code reaches the caller |
| Evaluation.Execute | pkg/orchestrate/evaluation.go:185-358 | on every path, in terms of what the surroundings do: the monitor accepts, all is given back, grants equal releases and are at most one, `Released` is false iff a granted lease failed to be released, success iff nil error, the leak and the empty code characterised exactly, the error code that of the first thing that went wrong, kept by a failed release and replaced by a failed cleanup, creation and cleanup recorded exactly, removals and file system exactly, a used or pre-existing root untouched, nothing foreign removed and nothing pre-existing lost while others only add |
| Ordering.StringLessExactly | pkg/gpu/contracts.go:117-124 | strings compare by the smaller character at the first difference, and a proper prefix is less |
| AuditRing.RingAppend | internal/api/audit.go:81-85 | overwriting at head and advancing modulo the size keeps the latest entries in place |
| AuditRing.AuditLogger.Append | internal/api/audit.go:77-94 | the log gains the entry at its end and the ring keeps holding the latest ones |
| AuditRing.AuditLogger.Query | internal/api/audit.go:98-133 | a page of the scan over the latest entries; for timestamps that never go back, of the plain newest-first selection |
| AuditRing.EarlyBreakIsExact | internal/api/audit.go:109-111 | breaking early loses nothing iff no match stands behind an entry older than `from` |
| AuditRing.QueryIsSelection | internal/api/audit.go:102-132 | for appends in timestamp order the page is one of the plain selection |
| AuditRing.SelectionByFields | internal/api/audit.go:109-121 | the selected entries stand in order and once at exactly those places where the entry keeps to every filter that is set |
| AuditRing.PageIsSlice | internal/api/audit.go:124-132 | a page starts at the offset and is as long as the limit and the list allow |
| AuditRing.PagesConcatenate | internal/api/audit.go:124-132 | consecutive pages of any positive limit concatenate to the whole list |
| RateLimit.TokenBucket.Allow | internal/api/rate_limit.go:30-39 | decides and changes state as the value model of a bucket does |
| RateLimit.TokenBucket.Remaining | internal/api/rate_limit.go:42-47 | refills and reports the tokens |
| RateLimit.RateLimiter.Allow | pkg/ratelimit/ratelimit.go:56-78 | lets everything through for a rate that is not positive, otherwise decides as the same value model |
| RateLimit.Conservation | internal/api/rate_limit.go:30-57 | calls accepted plus tokens left never exceed tokens at the start plus what elapsed time brought |
| RateLimit.WindowBound | internal/api/rate_limit.go:30-57 | in any run the calls accepted within any window are at most burst + rate * length |
| RateLimit.AllowedExactly | internal/api/rate_limit.go:30-57 | a call is let through iff a whole token is there or has flowed in since |
| RateLimit.AllowedExactlyWithinEveryWindow | internal/api/rate_limit.go:30-57 | in any run a call is let through iff that keeps every window ending with it, and the whole run, to the burst and the inflow |
| RateLimit.TokensExplained | internal/api/rate_limit.go:49-57 | the tokens are always the burst at the last time the bucket was full, or the first tokens, plus all that flowed in since, minus all that was taken |
| RateLimit.SlowCallersPass | internal/api/rate_limit.go:30-57 | calls at least 1/rate apart are all let through |
| RateLimit.InRangeExactly | internal/api/rate_limit.go:20-57 | tokens stay in [0, burst] on every clock trace iff rate and burst are not negative |
| RateLimit.RefillComposes | internal/api/rate_limit.go:49-57 | refilling twice is refilling once |
| RateLimit.RemainingIsInvisible | internal/api/rate_limit.go:42-57 | calls to Remaining never change any later answer of Allow |
| RateLimit.LimitersAgreeExactly | pkg/ratelimit/ratelimit.go:42-78 | the two limiters decide alike on every clock trace iff the rate is positive and the burst at least one |
| CircuitBreaker.CircuitBreaker.Allow | pkg/resilience/resilience.go:85-109 | answers and moves as the breaker's transition function |
| CircuitBreaker.CircuitBreaker.RecordSuccess | pkg/resilience/resilience.go:112-132 | moves as the breaker's transition function |
| CircuitBreaker.CircuitBreaker.RecordFailure | pkg/resilience/resilience.go:135-155 | moves as the breaker's transition function |
| CircuitBreaker.FieldsMeanHistory | pkg/resilience/resilience.go:85-155 | after every trace the counters and the time are what the history, read backwards, says |
| CircuitBreaker.OpensExactlyAtThreshold | pkg/resilience/resilience.go:145-150 | a closed breaker opens iff this is the threshold-th failure since the last success |
| CircuitBreaker.OpenWaitsForTimeout | pkg/resilience/resilience.go:96-103 | while open a call passes iff the timeout has elapsed since the latest recorded failure, and only that ends the open state |
| CircuitBreaker.OnlyOpenRefuses | pkg/resilience/resilience.go:93-108 | a closed or half-open breaker lets every call through |
| CircuitBreaker.RefusedExactly | pkg/resilience/resilience.go:85-155 | a call is refused iff some failure opened the breaker, no call has been let through since, and the reset timeout has not passed since the latest failure |
| CircuitBreaker.HealthyNeverRefuses | pkg/resilience/resilience.go:85-155 | without threshold failures in a row nothing is ever refused |
| CircuitBreaker.ClosesAfterEnoughSuccesses | pkg/resilience/resilience.go:120-128 | half-open closes iff this is the max(1, threshold)-th success of one episode without failure; a failure reopens |
| CircuitBreaker.OpenNeverClosesDirectly | pkg/resilience/resilience.go:93-131 | an open breaker never closes in one step |
| CircuitBreaker.DisabledNeverOpens | pkg/resilience/resilience.go:89-91 | a threshold that is not positive always allows |
| BoundedBuffer.OutputBuffer.Write | pkg/gpu/command.go:134-147 | reports the full length and changes state as the value model of a write |
| BoundedBuffer.BufferHoldsPrefix | pkg/gpu/command.go:134-147 | the buffer holds exactly the first min(limit, total) bytes; overflow iff the stream is longer, or an empty write met a full buffer |
| BoundedBuffer.ChunkingIsInvisible | pkg/gpu/command.go:134-147 | two ways of cutting a stream into non-empty writes end in the same state |
| Toolkit.UniqueNonempty | pkg/orchestrate/evaluation_inspector.go:399-418 | the first of each key among the trimmed non-empty values |
| Toolkit.UniqueIsDistinctAndComplete | pkg/orchestrate/evaluation_inspector.go:399-418 | no key twice, none empty, every non-empty value represented, empty iff all values are blank |
| Toolkit.UniqueIsFirstOfEach | pkg/orchestrate/evaluation_inspector.go:399-418 | every root kept is a trimmed input, the first with its key |
| Toolkit.ProbeGroup | pkg/orchestrate/evaluation_inspector.go:212-228 | stops at the first error; otherwise the matching roots in order, and whether any other version was seen |
| Toolkit.MatchingIsExact | pkg/orchestrate/evaluation_inspector.go:224-228 | a root matches iff it reports the requested version |
| Toolkit.ResolveToolkit | pkg/orchestrate/evaluation_inspector.go:195-257 | the last group probed is the first that settles the matter, and the outcome, error code included, is its verdict |
| Toolkit.SingleMatchIsTheOnlyOne | pkg/orchestrate/evaluation_inspector.go:229-241 | a resolved root reports exactly the requested version and is the only distinct root of its group that does |
| Toolkit.AuthoritativeGroupDecides | pkg/orchestrate/evaluation_inspector.go:242-251 | an authoritative group with a root that is not blank always settles the matter |
| Toolkit.DecideGroup | pkg/orchestrate/evaluation_inspector.go:204-251 | one round of the loop ends the search iff the group decides, with its verdict |
| Toolkit.OthersDecideNothing | pkg/orchestrate/evaluation_inspector.go:242-252 | without an error, a match or authority a group decides nothing |
| TierPolicy.Index | pkg/tier/policy.go:183-186 | the table by name, whose meaning the next two rows state |
| TierPolicy.KnownNames | pkg/tier/policy.go:183-186 | a name is known iff some row has it |
| TierPolicy.LastRowCounts | pkg/tier/policy.go:183-186 | a name stands for the last row that has it |
| TierPolicy.Filter | pkg/tier/policy.go:117-127 | exactly the listed, known, registered tiers that fit the platform |
| TierPolicy.Select | pkg/tier/policy.go:100-159 | the least eligible tier by startup time and name if it fits the budget; nothing iff no eligible tier fits |
| TierPolicy.LeastIsFirstByTimeThenName | pkg/tier/policy.go:147-157 | the tier chosen starts no later than any other, and comes first by name among those that start as fast |
| TierPolicy.BudgetOnlyRejects | pkg/tier/policy.go:132-145 | a positive budget never changes the choice; it is made iff the unrestricted choice fits |
| TierPolicy.LargerRegistryNeverLater | pkg/tier/policy.go:117-127 | a larger registry never yields a later tier |
| TierPolicy.ListOrderIsIrrelevant | pkg/tier/policy.go:147-159 | the selection depends only on which tiers are listed, not on their order |

## Left out

- File locks and renames are taken as atomic primitives; a lock is free again when its holder crashes. Unlinking or replacing the lock file itself is not modelled.
- The parents of the output root are taken as made (`MkdirAll`), and a lock file as opened without following links. JSON encoding is taken as injective, so a canonical form is the value that is encoded; SHA-256 and the file contents `readState` rejects are abstract.
- float64 rounding: the token buckets are over exact reals; the clock does not go back.
- The functions of package `filepath`, backend resolution and the registry are parameters of `Envelope`.
- `resolveInventory`, the inspectors, `validateInspection`, `validateNewJob`, the command runner and the snapshots enter `Execute` as outcomes; provenance and lifecycle fields other than creation, cleanup, token and release are not modelled, nor is error-message text.
- The order in which `validate` reports several faults: its error codes are kept in the bodies, but only acceptance is specified.
- LeaseCover.CommandIsAlone: takes as hypotheses that the command starts within the slack and stops within its timeout, which the runner is trusted for, that the token stays its holder's own, and that the holder's calls of Release are those its log of Execute records.
- Locks are one per path: the in-process mutex and the file lock behind it are one acquisition, and paths that alias (case, links) are not identified. Lock back-off timers are not modelled; cancellation is a step.
- Inode reuse: identities of nodes are never recycled.
- A negative `offset` of `Query`, which the router never passes and on which the slice expression would panic; the JSONL file and its rotation.
- The candidate groups of `toolkitCandidateGroups` (environment and directory lookups) are arbitrary inputs; trimming and the platform's notion of equal roots are parameters; so is Unicode case folding in `Reconcile`.
- The tier table and the preference lists by security level are arbitrary inputs; `AutoPolicy` and `ProfilePolicy` only rewrite the configuration.
- `sort.Slice` is modelled by one stable insertion sort; every result that depends on a sort is stated so that any sort meeting the same contract gives it.
- Adapters, HTTP and socket plumbing, tokens, configuration and the code in other languages: easier members, or thin wrappers over external programs.
