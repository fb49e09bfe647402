/** Reconciling scoped GPU inventories (pkg/gpu/contracts.go:41-154). */
module Inventory {
  import opened GpuIdentity
  import opened Ordering

  datatype Observation = Observation(scope: string, scopeId: string, index: int)

  datatype Device = Device(
    uuid: Uuid, name: string, architecture: string, computeCapability: string,
    driverVersion: string, driverCudaCeiling: string, observations: seq<Observation>)

  datatype ScopedInventory = ScopedInventory(
    scope: string, scopeId: string, driverVersion: string, driverCudaCeiling: string, devices: seq<Device>)

  /** `strings.EqualFold(a, b)` is `fold(a) == fold(b)` for the Unicode folding `fold`. */
  type Folding = string -> string

  // ----- what a reconciliation is, without reference to the order of the work -----

  predicate ValidScope(scope: string) {
    scope == "windows-host" || scope == "wsl-distro" || scope == "runtime"
  }

  function FirstNonEmpty(a: string, b: string): string { if a != "" then a else b }

  /** A device with its inventory's driver facts filled in where its own are missing. */
  function Filled(inv: ScopedInventory, d: Device): Device {
    d.(driverVersion := FirstNonEmpty(d.driverVersion, inv.driverVersion),
       driverCudaCeiling := FirstNonEmpty(d.driverCudaCeiling, inv.driverCudaCeiling))
  }

  function FilledDevices(inv: ScopedInventory): (r: seq<Device>)
    ensures |r| == |inv.devices|
  {
    seq(|inv.devices|, i requires 0 <= i < |inv.devices| => Filled(inv, inv.devices[i]))
  }

  function Uuids(s: seq<Device>): (r: seq<Uuid>)
    ensures |r| == |s| && forall i :: 0 <= i < |s| ==> r[i] == s[i].uuid
  {
    seq(|s|, i requires 0 <= i < |s| => s[i].uuid)
  }

  function Candidates(invs: seq<ScopedInventory>): seq<Device> {
    if invs == [] then [] else Candidates(invs[..|invs| - 1]) + FilledDevices(invs[|invs| - 1])
  }

  predicate WellFormedDevice(inv: ScopedInventory, d: Device) {
    && ValidUuid(d.uuid)
    && |d.observations| == 1
    && d.observations[0].scope == inv.scope && d.observations[0].scopeId == inv.scopeId && d.observations[0].index >= 0
  }

  ghost predicate WellFormed(inv: ScopedInventory) {
    && ValidScope(inv.scope)
    && (forall k :: 0 <= k < |inv.devices| ==> WellFormedDevice(inv, inv.devices[k]))
    && (forall j, k :: 0 <= j < k < |inv.devices| ==> inv.devices[j].uuid != inv.devices[k].uuid)
  }

  predicate Incompatible(fold: Folding, a: string, b: string) {
    a != "" && b != "" && fold(a) != fold(b)
  }

  predicate Agree(fold: Folding, a: Device, b: Device) {
    a.uuid == b.uuid ==>
      && a.name == b.name
      && !Incompatible(fold, a.computeCapability, b.computeCapability)
      && !Incompatible(fold, a.architecture, b.architecture)
  }

  ghost predicate AllAgree(fold: Folding, c: seq<Device>) {
    forall a, b :: a in c && b in c ==> Agree(fold, a, b)
  }

  ghost predicate Reconcilable(fold: Folding, invs: seq<ScopedInventory>) {
    && (forall inv :: inv in invs ==> WellFormed(inv))
    && AllAgree(fold, Candidates(invs))
  }

  /** The first non-empty value of fact `f` among the candidates for `u`. */
  function First(c: seq<Device>, u: Uuid, f: Device -> string): string {
    if c == [] then ""
    else
      var earlier := First(c[..|c| - 1], u, f);
      var d := c[|c| - 1];
      if earlier == "" && d.uuid == u then f(d) else earlier
  }

  /** Every observation of `u` among the candidates. */
  function ObservationsOf(c: seq<Device>, u: Uuid): multiset<Observation> {
    if c == [] then multiset{}
    else
      var d := c[|c| - 1];
      ObservationsOf(c[..|c| - 1], u) + if d.uuid == u then multiset(d.observations) else multiset{}
  }

  const ARCHITECTURE: Device -> string := (d: Device) => d.architecture
  const COMPUTE: Device -> string := (d: Device) => d.computeCapability
  const DRIVER: Device -> string := (d: Device) => d.driverVersion
  const CEILING: Device -> string := (d: Device) => d.driverCudaCeiling

  /** `d` is what the candidates `c` say about `u`. */
  ghost predicate Summarises(d: Device, c: seq<Device>, u: Uuid) {
    && d.uuid == u
    && (forall x :: x in c && x.uuid == u ==> x.name == d.name)
    && d.architecture == First(c, u, ARCHITECTURE)
    && d.computeCapability == First(c, u, COMPUTE)
    && d.driverVersion == First(c, u, DRIVER)
    && d.driverCudaCeiling == First(c, u, CEILING)
    && multiset(d.observations) == ObservationsOf(c, u)
  }

  /** `Reconcile` compares observations by scope and scope identifier only. */
  predicate ScopeLess(a: Observation, b: Observation) {
    if a.scope == b.scope then StringLess(a.scopeId, b.scopeId) else StringLess(a.scope, b.scope)
  }

  ghost predicate Mentions(c: seq<Device>, u: Uuid) {
    exists x :: x in c && x.uuid == u
  }

  /** Each input UUID exactly once, in strictly increasing order, each summing up its candidates. */
  ghost predicate Reconciled(invs: seq<ScopedInventory>, r: seq<Device>) {
    && (forall i, j :: 0 <= i < j < |r| ==> StringLess(r[i].uuid, r[j].uuid))
    && (forall u :: Mentions(Candidates(invs), u) <==> Mentions(r, u))
    && (forall d :: d in r ==> Summarises(d, Candidates(invs), d.uuid) && Ordered(ScopeLess, d.observations))
  }

  /** A well-formed inventory, in words: its scope is a known one, and each of its devices has a valid UUID that no
      other has, and one observation, of the inventory's scope, with an index that is not negative. */
  lemma WellFormedExactly(inv: ScopedInventory)
    ensures WellFormed(inv) <==>
            && (inv.scope == "windows-host" || inv.scope == "wsl-distro" || inv.scope == "runtime")
            && (forall d :: d in inv.devices ==>
                  && ValidUuid(d.uuid) && |d.observations| == 1
                  && d.observations[0].scope == inv.scope && d.observations[0].scopeId == inv.scopeId
                  && d.observations[0].index >= 0)
            && (forall j, k :: 0 <= j < k < |inv.devices| ==> inv.devices[j].uuid != inv.devices[k].uuid)
  {
    assert forall k :: 0 <= k < |inv.devices| ==> inv.devices[k] in inv.devices;
  }

  /** Two candidates agree, in words: with one UUID they have one name, and no two different known capabilities or
      architectures. */
  lemma AgreeExactly(fold: Folding, a: Device, b: Device)
    ensures Agree(fold, a, b) <==>
            || a.uuid != b.uuid
            || (&& a.name == b.name
                && (a.computeCapability == "" || b.computeCapability == "" || fold(a.computeCapability) == fold(b.computeCapability))
                && (a.architecture == "" || b.architecture == "" || fold(a.architecture) == fold(b.architecture)))
  {
  }

  /** A missing fact never conflicts, nor do two that are the same up to letter case; two others do. */
  lemma ConflictExactly(fold: Folding, a: string, b: string)
    ensures a == "" || b == "" || fold(a) == fold(b) ==> !Incompatible(fold, a, b)
    ensures a != "" && b != "" && fold(a) != fold(b) ==> Incompatible(fold, a, b)
  {
  }

  /** What a device reports itself comes before what its inventory reports, which fills in only what is missing. */
  lemma OwnDriverFactsComeFirst(inv: ScopedInventory, d: Device)
    ensures d.driverVersion != "" ==> Filled(inv, d).driverVersion == d.driverVersion
    ensures d.driverVersion == "" ==> Filled(inv, d).driverVersion == inv.driverVersion
    ensures d.driverCudaCeiling != "" ==> Filled(inv, d).driverCudaCeiling == d.driverCudaCeiling
    ensures d.driverCudaCeiling == "" ==> Filled(inv, d).driverCudaCeiling == inv.driverCudaCeiling
    ensures Filled(inv, d) == d.(driverVersion := Filled(inv, d).driverVersion, driverCudaCeiling := Filled(inv, d).driverCudaCeiling)
  {
  }

  /** Sorted observations come by scope, and within a scope by its identifier. */
  lemma ObservationsByScope(s: seq<Observation>, i: nat, j: nat)
    requires Ordered(ScopeLess, s) && i < j < |s|
    ensures s[i].scope == s[j].scope || StringLess(s[i].scope, s[j].scope)
    ensures s[i].scope == s[j].scope ==> s[i].scopeId == s[j].scopeId || StringLess(s[i].scopeId, s[j].scopeId)
  {
    StringLessIsTotal(s[i].scope, s[j].scope);
    StringLessIsTotal(s[i].scopeId, s[j].scopeId);
  }

  // ----- the code -----

  ghost predicate MergedOk(m: map<Uuid, Device>, c: seq<Device>) {
    && (forall u :: u in m <==> Mentions(c, u))
    && (forall u :: u in m ==> Summarises(m[u], c, u))
  }

  method Reconcile(fold: Folding, invs: seq<ScopedInventory>) returns (r: Option<seq<Device>>)
    ensures r.Some? <==> Reconcilable(fold, invs)
    ensures r.Some? ==> Reconciled(invs, r.value)
  {
    var merged: map<Uuid, Device> := map[];
    for i := 0 to |invs|
      invariant MergedOk(merged, Candidates(invs[..i]))
      invariant AllAgree(fold, Candidates(invs[..i]))
      invariant forall inv :: inv in invs[..i] ==> WellFormed(inv)
    {
      var ok;
      assert invs[..i + 1][..i] == invs[..i];
      ok, merged := MergeInventory(fold, merged, Candidates(invs[..i]), invs[i]);
      if !ok {
        NotReconcilable(fold, invs, i);
        return None;
      }
    }
    assert invs[..|invs|] == invs;
    var devices := Finish(merged);
    FinishedIsReconciled(invs, merged, devices);
    return Some(devices);
  }

  lemma NotReconcilable(fold: Folding, invs: seq<ScopedInventory>, i: nat)
    requires i < |invs|
    requires !(WellFormed(invs[i]) && AllAgree(fold, Candidates(invs[..i]) + FilledDevices(invs[i])))
    ensures !Reconcilable(fold, invs)
  {
    assert invs[..i + 1][..i] == invs[..i];
    CandidatesOfPrefix(invs, i + 1);
    assert invs[i] in invs;
  }

  lemma {:induction false} CandidatesOfPrefix(invs: seq<ScopedInventory>, n: nat)
    requires n <= |invs|
    ensures forall d :: d in Candidates(invs[..n]) ==> d in Candidates(invs)
    decreases |invs| - n
  {
    if n < |invs| {
      assert invs[..n + 1][..n] == invs[..n];
      CandidatesOfPrefix(invs, n + 1);
    } else {
      assert invs[..n] == invs;
    }
  }

  /** One pass over an inventory's devices. */
  method MergeInventory(fold: Folding, m: map<Uuid, Device>, ghost done: seq<Device>, inv: ScopedInventory)
    returns (ok: bool, merged: map<Uuid, Device>)
    requires MergedOk(m, done) && AllAgree(fold, done)
    ensures ok <==> WellFormed(inv) && AllAgree(fold, done + FilledDevices(inv))
    ensures ok ==> MergedOk(merged, done + FilledDevices(inv))
  {
    merged := m;
    if !ValidScope(inv.scope) {
      return false, merged;
    }
    var seen: set<Uuid> := {};
    ghost var c := done;
    ghost var all := FilledDevices(inv);
    for k := 0 to |inv.devices|
      invariant c == done + all[..k]
      invariant MergedOk(merged, c) && AllAgree(fold, c)
      invariant forall j :: 0 <= j < k ==> WellFormedDevice(inv, inv.devices[j])
      invariant forall u :: u in seen <==> exists j :: 0 <= j < k && inv.devices[j].uuid == u
      invariant forall i, j :: 0 <= i < j < k ==> inv.devices[i].uuid != inv.devices[j].uuid
    {
      var candidate := inv.devices[k];
      if !ValidUuid(candidate.uuid) || candidate.uuid in seen {
        return false, merged;
      }
      seen := seen + {candidate.uuid};
      if !WellFormedDevice(inv, candidate) {
        return false, merged;
      }
      assert all[k] == Filled(inv, candidate);
      assert all[..k + 1] == all[..k] + [all[k]];
      var conflict;
      conflict, merged := MergeDevice(fold, merged, c, inv, candidate);
      c := c + [all[k]];
      if conflict {
        assert forall d :: d in c ==> d in done + all;
        return false, merged;
      }
    }
    assert all[..|all|] == all;
    return true, merged;
  }

  /** One candidate: conflict check, then `fillDeviceFacts` and the appended observation. */
  method MergeDevice(fold: Folding, m: map<Uuid, Device>, ghost c: seq<Device>, inv: ScopedInventory, candidate: Device)
    returns (conflict: bool, merged: map<Uuid, Device>)
    requires MergedOk(m, c) && AllAgree(fold, c) && WellFormedDevice(inv, candidate)
    ensures conflict <==> !AllAgree(fold, c + [Filled(inv, candidate)])
    ensures !conflict ==> MergedOk(merged, c + [Filled(inv, candidate)])
  {
    ghost var x := Filled(inv, candidate);
    AgreeWithSummary(fold, m, c, x);
    var current;
    if candidate.uuid !in m {
      current := candidate.(observations := []);
    } else {
      current := m[candidate.uuid];
      if current.name != candidate.name
         || Incompatible(fold, current.computeCapability, candidate.computeCapability)
         || Incompatible(fold, current.architecture, candidate.architecture)
      {
        return true, m;
      }
    }
    current := FillDeviceFacts(current, candidate, inv);
    current := current.(observations := current.observations + [candidate.observations[0]]);
    assert candidate.observations == [candidate.observations[0]];
    SummaryExtended(m, c, x, current);
    return false, m[candidate.uuid := current];
  }

  function FillDeviceFacts(target: Device, source: Device, inv: ScopedInventory): Device {
    target.(
      architecture := FirstNonEmpty(target.architecture, source.architecture),
      computeCapability := FirstNonEmpty(target.computeCapability, source.computeCapability),
      driverVersion := FirstNonEmpty(target.driverVersion, FirstNonEmpty(source.driverVersion, inv.driverVersion)),
      driverCudaCeiling := FirstNonEmpty(target.driverCudaCeiling, FirstNonEmpty(source.driverCudaCeiling, inv.driverCudaCeiling)))
  }

  /** The first non-empty value comes from a candidate, and there is none only if all are empty. */
  lemma {:induction false} FirstIsSomeone(c: seq<Device>, u: Uuid, f: Device -> string)
    ensures First(c, u, f) == "" ==> forall d :: d in c && d.uuid == u ==> f(d) == ""
    ensures First(c, u, f) != "" ==> exists d :: d in c && d.uuid == u && f(d) == First(c, u, f)
  {
    if c != [] {
      var n := |c| - 1;
      FirstIsSomeone(c[..n], u, f);
      assert c == c[..n] + [c[n]];
      if First(c[..n], u, f) != "" {
        var d :| d in c[..n] && d.uuid == u && f(d) == First(c[..n], u, f);
        assert d in c;
      } else {
        assert c[n] in c;
      }
    }
  }

  /** Checking a newcomer against the summary is checking it against every earlier candidate. */
  lemma AgreeWithSummary(fold: Folding, m: map<Uuid, Device>, c: seq<Device>, x: Device)
    requires MergedOk(m, c) && AllAgree(fold, c)
    ensures AllAgree(fold, c + [x]) <==>
            (x.uuid in m ==>
               && m[x.uuid].name == x.name
               && !Incompatible(fold, m[x.uuid].computeCapability, x.computeCapability)
               && !Incompatible(fold, m[x.uuid].architecture, x.architecture))
  {
    var c' := c + [x];
    assert x in c' && forall d :: d in c ==> d in c';
    if x.uuid in m {
      var s := m[x.uuid];
      var y :| y in c && y.uuid == x.uuid;
      FirstIsSomeone(c, x.uuid, COMPUTE);
      FirstIsSomeone(c, x.uuid, ARCHITECTURE);
      if AllAgree(fold, c') {
        assert Agree(fold, y, x);
      }
      if s.name == x.name && !Incompatible(fold, s.computeCapability, x.computeCapability)
         && !Incompatible(fold, s.architecture, x.architecture)
      {
        forall d | d in c ensures Agree(fold, d, x) && Agree(fold, x, d) {
          AgreeThroughSummary(fold, c, s, d, x);
        }
      }
    } else {
      assert !Mentions(c, x.uuid);
    }
  }

  lemma AgreeThroughSummary(fold: Folding, c: seq<Device>, s: Device, d: Device, x: Device)
    requires AllAgree(fold, c) && Summarises(s, c, x.uuid) && d in c
    requires s.name == x.name && !Incompatible(fold, s.computeCapability, x.computeCapability)
    requires !Incompatible(fold, s.architecture, x.architecture)
    ensures Agree(fold, d, x) && Agree(fold, x, d)
  {
    if d.uuid == x.uuid {
      FirstIsSomeone(c, x.uuid, COMPUTE);
      FirstIsSomeone(c, x.uuid, ARCHITECTURE);
      if s.computeCapability != "" {
        var e :| e in c && e.uuid == x.uuid && COMPUTE(e) == s.computeCapability;
        assert Agree(fold, e, d);
      } else {
        assert COMPUTE(d) == "";
      }
      if s.architecture != "" {
        var e :| e in c && e.uuid == x.uuid && ARCHITECTURE(e) == s.architecture;
        assert Agree(fold, e, d);
      } else {
        assert ARCHITECTURE(d) == "";
      }
    }
  }

  lemma {:induction false} NothingAboutStrangers(c: seq<Device>, u: Uuid, f: Device -> string)
    requires !Mentions(c, u)
    ensures First(c, u, f) == "" && ObservationsOf(c, u) == multiset{}
  {
    if c != [] {
      var n := |c| - 1;
      assert c[n] in c;
      assert forall d :: d in c[..n] ==> d in c;
      NothingAboutStrangers(c[..n], u, f);
    }
  }

  /** Recording the newcomer keeps every summary right. */
  lemma SummaryExtended(m: map<Uuid, Device>, c: seq<Device>, x: Device, current: Device)
    requires MergedOk(m, c) && current.uuid == x.uuid && current.name == x.name
    requires x.uuid in m ==>
               && m[x.uuid].name == x.name
               && current.architecture == FirstNonEmpty(m[x.uuid].architecture, x.architecture)
               && current.computeCapability == FirstNonEmpty(m[x.uuid].computeCapability, x.computeCapability)
               && current.driverVersion == FirstNonEmpty(m[x.uuid].driverVersion, x.driverVersion)
               && current.driverCudaCeiling == FirstNonEmpty(m[x.uuid].driverCudaCeiling, x.driverCudaCeiling)
               && multiset(current.observations) == multiset(m[x.uuid].observations) + multiset(x.observations)
    requires x.uuid !in m ==> multiset(current.observations) == multiset(x.observations) && current == x.(observations := current.observations)
    ensures MergedOk(m[x.uuid := current], c + [x])
  {
    var c' := c + [x];
    var m' := m[x.uuid := current];
    assert c'[..|c|] == c && c'[|c|] == x;
    if x.uuid !in m {
      assert !Mentions(c, x.uuid);
      NothingAboutStrangers(c, x.uuid, ARCHITECTURE);
      NothingAboutStrangers(c, x.uuid, COMPUTE);
      NothingAboutStrangers(c, x.uuid, DRIVER);
      NothingAboutStrangers(c, x.uuid, CEILING);
    }
    forall u ensures u in m' <==> Mentions(c', u) {
      if Mentions(c, u) {
        var y :| y in c && y.uuid == u;
        assert y in c';
      }
      assert x in c';
    }
    forall u | u in m' ensures Summarises(m'[u], c', u) {
    }
  }

  /** Ranges over the merged map in no particular order, sorting observations, then sorts by UUID. */
  method Finish(merged: map<Uuid, Device>) returns (devices: seq<Device>)
    requires forall u :: u in merged ==> merged[u].uuid == u
    ensures forall i, j :: 0 <= i < j < |devices| ==> StringLess(devices[i].uuid, devices[j].uuid)
    ensures forall u :: u in merged <==> Mentions(devices, u)
    ensures forall d :: d in devices ==> IsSortedCopy(merged, d)
  {
    ScopeLessIsStrictWeak();
    var pending := merged.Keys;
    var result: seq<Device> := [];
    while pending != {}
      invariant pending <= merged.Keys
      invariant forall d :: d in result ==> d.uuid !in pending && IsSortedCopy(merged, d)
      invariant forall u :: u in merged && u !in pending ==> Mentions(result, u)
      invariant forall i, j :: 0 <= i < j < |result| ==> result[i].uuid != result[j].uuid
      decreases pending
    {
      var u :| u in pending;
      var sorted := SortSlice(ScopeLess, merged[u].observations);
      var d := merged[u].(observations := sorted);
      MentionsExtended(result, d);
      result := result + [d];
      pending := pending - {u};
    }
    devices := SortByUuid(result);
    SameMembers(result, devices);
  }

  ghost predicate IsSortedCopy(merged: map<Uuid, Device>, d: Device) {
    && d.uuid in merged
    && d == merged[d.uuid].(observations := d.observations)
    && multiset(d.observations) == multiset(merged[d.uuid].observations)
    && Ordered(ScopeLess, d.observations)
  }

  lemma MentionsExtended(c: seq<Device>, x: Device)
    ensures forall u :: Mentions(c + [x], u) <==> Mentions(c, u) || u == x.uuid
  {
    assert x in c + [x];
    forall u | Mentions(c, u) ensures Mentions(c + [x], u) {
      var y :| y in c && y.uuid == u;
      assert y in c + [x];
    }
  }

  predicate UuidLess(a: Device, b: Device) { StringLess(a.uuid, b.uuid) }

  method SortByUuid(s: seq<Device>) returns (r: seq<Device>)
    requires forall i, j :: 0 <= i < j < |s| ==> s[i].uuid != s[j].uuid
    ensures multiset(r) == multiset(s)
    ensures forall i, j :: 0 <= i < j < |r| ==> StringLess(r[i].uuid, r[j].uuid)
  {
    UuidLessIsStrictWeak();
    r := SortSlice(UuidLess, s);
    SameMembers(s, r);
    assert Distinct(s);
    DistinctFromMultiset(s, r);
    forall i, j | 0 <= i < j < |r| ensures StringLess(r[i].uuid, r[j].uuid) {
      assert r[i] in s && r[j] in s;
      StringLessIsTotal(r[i].uuid, r[j].uuid);
      assert !UuidLess(r[j], r[i]);
    }
  }

  lemma UuidLessIsStrictWeak()
    ensures StrictWeakOrder(UuidLess)
  {
    StringLessIsStrictWeak();
    forall a, b ensures UuidLess(a, b) ==> !UuidLess(b, a) {
      assert StringLess(a.uuid, b.uuid) ==> !StringLess(b.uuid, a.uuid);
    }
    forall a, b, c | !UuidLess(b, a) && !UuidLess(c, b) ensures !UuidLess(c, a) {
      assert !StringLess(b.uuid, a.uuid) && !StringLess(c.uuid, b.uuid);
    }
  }

  lemma ScopeLessIsStrictWeak()
    ensures StrictWeakOrder(ScopeLess)
  {
    forall a, b ensures ScopeLess(a, b) ==> !ScopeLess(b, a) {
      StringLessIsAsymmetric(a.scope, b.scope);
      StringLessIsAsymmetric(a.scopeId, b.scopeId);
    }
    forall a, b, c | !ScopeLess(b, a) && !ScopeLess(c, b) ensures !ScopeLess(c, a) {
      ScopeLessNegTransitive(a, b, c);
    }
  }

  lemma ScopeLessNegTransitive(a: Observation, b: Observation, c: Observation)
    requires !ScopeLess(b, a) && !ScopeLess(c, b)
    ensures !ScopeLess(c, a)
  {
    StringLessIsStrictWeak();
    assert !StringLess(b.scope, a.scope) && !StringLess(c.scope, b.scope);
    assert !StringLess(c.scope, a.scope);
    StringLessIsTotal(a.scope, b.scope);
    if a.scope == c.scope {
      StringLessIsAsymmetric(a.scope, b.scope);
      assert a.scope == b.scope;
      assert !StringLess(b.scopeId, a.scopeId) && !StringLess(c.scopeId, b.scopeId);
    }
  }

  lemma FinishedIsReconciled(invs: seq<ScopedInventory>, merged: map<Uuid, Device>, devices: seq<Device>)
    requires MergedOk(merged, Candidates(invs))
    requires forall i, j :: 0 <= i < j < |devices| ==> StringLess(devices[i].uuid, devices[j].uuid)
    requires forall u :: u in merged <==> Mentions(devices, u)
    requires forall d :: d in devices ==> IsSortedCopy(merged, d)
    ensures Reconciled(invs, devices)
  {
    forall d | d in devices ensures Summarises(d, Candidates(invs), d.uuid) {
      assert IsSortedCopy(merged, d);
    }
  }
}
