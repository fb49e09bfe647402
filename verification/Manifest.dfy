/** The canonical form of a resource manifest (pkg/gpu/contracts.go:219-260). The JSON encoder is
    taken as an injective rendering, so the canonical form is the value that is encoded. */
module Manifest {
  import opened GpuIdentity
  import opened Ordering
  import opened Inventory

  const RESOURCE_MANIFEST_VERSION := "nanovms.io/resources/v1"

  datatype Artifact = Artifact(cudaToolkit: string, compiledKernels: bool)

  datatype ResourceManifest = ResourceManifest(version: string, gpus: seq<Device>, artifact: Artifact)

  // ----- manifests that differ only in order -----

  /** A device with its observations in no order. */
  datatype Bag = Bag(facts: Device, observations: multiset<Observation>)

  function BagOf(d: Device): Bag { Bag(d.(observations := []), multiset(d.observations)) }

  function Bags(s: seq<Device>): (r: seq<Bag>)
    ensures |r| == |s| && forall i :: 0 <= i < |s| ==> r[i] == BagOf(s[i])
  {
    seq(|s|, i requires 0 <= i < |s| => BagOf(s[i]))
  }

  /** Equal up to the order of GPUs and of each GPU's observations. */
  ghost predicate Reordering(a: ResourceManifest, b: ResourceManifest) {
    a.version == b.version && a.artifact == b.artifact && multiset(Bags(a.gpus)) == multiset(Bags(b.gpus))
  }

  predicate Acceptable(m: ResourceManifest) {
    && m.version == RESOURCE_MANIFEST_VERSION
    && (forall i :: 0 <= i < |m.gpus| ==> ValidUuid(m.gpus[i].uuid))
    && (forall i, j :: 0 <= i < j < |m.gpus| ==> m.gpus[i].uuid != m.gpus[j].uuid)
  }

  /** Nothing but the version and the UUIDs decides. */
  lemma AcceptableExactly(m: ResourceManifest)
    ensures Acceptable(m) <==>
            && m.version == "nanovms.io/resources/v1"
            && (forall d :: d in m.gpus ==> ValidUuid(d.uuid))
            && Distinct(Uuids(m.gpus))
  {
    assert forall i :: 0 <= i < |m.gpus| ==> m.gpus[i] in m.gpus;
  }

  /** Scope, then scope identifier, then index: unlike in `Reconcile`, ties are equal observations. */
  predicate ObservationLess(a: Observation, b: Observation) {
    if a.scope == b.scope then
      if a.scopeId == b.scopeId then a.index < b.index else StringLess(a.scopeId, b.scopeId)
    else StringLess(a.scope, b.scope)
  }

  ghost predicate InOrder(gpus: seq<Device>) {
    && (forall i, j :: 0 <= i < j < |gpus| ==> StringLess(gpus[i].uuid, gpus[j].uuid))
    && (forall i :: 0 <= i < |gpus| ==> Ordered(ObservationLess, gpus[i].observations))
  }

  ghost predicate CanonicalOf(m: ResourceManifest, c: ResourceManifest) {
    Acceptable(m) && Reordering(m, c) && InOrder(c.gpus)
  }

  // ----- the code, on the caller's slices -----

  /** A device whose observations live in the caller's memory. */
  datatype DeviceRef = DeviceRef(facts: Device, observations: array<Observation>)

  function View(d: DeviceRef): Device
    reads d.observations
  {
    d.facts.(observations := d.observations[..])
  }

  function Views(s: seq<DeviceRef>): (r: seq<Device>)
    reads set d | d in s :: d.observations
    ensures |r| == |s| && forall i :: 0 <= i < |s| ==> r[i] == View(s[i])
  {
    seq(|s|, i requires 0 <= i < |s| reads set d | d in s :: d.observations => View(s[i]))
  }

  method Clone(a: array<Observation>) returns (b: array<Observation>)
    ensures fresh(b) && b[..] == a[..]
  {
    b := new Observation[a.Length](i requires 0 <= i < a.Length reads a => a[i]);
  }

  method SortObservations(a: array<Observation>)
    modifies a
    ensures multiset(a[..]) == multiset(old(a[..])) && Ordered(ObservationLess, a[..])
  {
    ObservationLessIsStrictWeak();
    var sorted := SortSlice(ObservationLess, a[..]);
    assert |multiset(sorted)| == |sorted| && |multiset(a[..])| == a.Length;
    forall i | 0 <= i < a.Length {
      a[i] := sorted[i];
    }
    assert a[..] == sorted;
  }

  /** The nested slices are cloned before anything is sorted: there is no `modifies` clause, so
      whatever the caller passed in, and however its slices overlap, is left as it was. */
  method CanonicalJSON(version: string, gpus: seq<DeviceRef>, artifact: Artifact) returns (r: Option<ResourceManifest>)
    ensures r.Some? <==> Acceptable(ResourceManifest(version, Views(gpus), artifact))
    ensures r.Some? ==> CanonicalOf(ResourceManifest(version, Views(gpus), artifact), r.value)
  {
    if version != RESOURCE_MANIFEST_VERSION {
      return None;
    }
    var copies := CloneAll(gpus);
    StringLessIsStrictWeak();
    var sorted := SortBy((d: DeviceRef) => d.facts.uuid, StringLess, copies);
    assert forall i :: 0 <= i < |sorted| ==> Keys((d: DeviceRef) => d.facts.uuid, sorted)[i] == sorted[i].facts.uuid;
    SortedClones(gpus, copies, sorted);
    AcceptableInAnyOrder(ResourceManifest(version, Views(gpus), artifact), ResourceManifest(version, Views(sorted), artifact));
    var views := Normalise(sorted);
    if views.None? {
      return None;
    }
    return Some(ResourceManifest(version, views.value, artifact));
  }

  ghost predicate Separate(s: seq<DeviceRef>) {
    forall i, j :: 0 <= i < j < |s| ==> s[i].observations != s[j].observations
  }

  method CloneAll(gpus: seq<DeviceRef>) returns (copies: seq<DeviceRef>)
    ensures |copies| == |gpus| && Separate(copies)
    ensures forall i :: 0 <= i < |gpus| ==> fresh(copies[i].observations)
    ensures forall i :: 0 <= i < |gpus| ==> View(copies[i]) == View(gpus[i])
  {
    copies := [];
    for i := 0 to |gpus|
      invariant |copies| == i && Separate(copies)
      invariant forall k :: 0 <= k < i ==> fresh(copies[k].observations) && View(copies[k]) == View(gpus[k])
    {
      var observations := Clone(gpus[i].observations);
      copies := copies + [gpus[i].(observations := observations)];
    }
  }

  lemma SortedClones(gpus: seq<DeviceRef>, copies: seq<DeviceRef>, sorted: seq<DeviceRef>)
    requires |copies| == |gpus| && Separate(copies) && multiset(sorted) == multiset(copies)
    requires forall i :: 0 <= i < |gpus| ==> View(copies[i]) == View(gpus[i])
    ensures Separate(sorted) && (forall d :: d in sorted <==> d in copies)
    ensures multiset(Bags(Views(sorted))) == multiset(Bags(Views(gpus)))
  {
    SameMembers(sorted, copies);
    assert Distinct(copies);
    DistinctFromMultiset(copies, sorted);
    forall i, j | 0 <= i < j < |sorted| ensures sorted[i].observations != sorted[j].observations {
      assert sorted[i] in copies && sorted[j] in copies && sorted[i] != sorted[j];
    }
    var bag := map d | d in copies :: BagOf(View(d));
    MappedPermutation(bag, sorted, copies);
    assert Mapped(bag, sorted) == Bags(Views(sorted));
    assert Mapped(bag, copies) == Bags(Views(gpus));
  }

  ghost predicate UuidsUnique(s: seq<DeviceRef>, n: nat)
    requires n <= |s|
  {
    && (forall i :: 0 <= i < n ==> ValidUuid(s[i].facts.uuid))
    && (forall i, j :: 0 <= i < j < n ==> s[i].facts.uuid != s[j].facts.uuid)
  }

  /** The second loop: validity, duplicates, and the in-place sort of each cloned slice. */
  method CheckAndSortObservations(sorted: seq<DeviceRef>) returns (ok: bool)
    requires Separate(sorted)
    modifies set d | d in sorted :: d.observations
    ensures ok <==> UuidsUnique(sorted, |sorted|)
    ensures forall k :: 0 <= k < |sorted| ==>
              multiset(sorted[k].observations[..]) == old(multiset(sorted[k].observations[..]))
    ensures ok ==> forall k :: 0 <= k < |sorted| ==> Ordered(ObservationLess, sorted[k].observations[..])
  {
    var seen: set<Uuid> := {};
    for i := 0 to |sorted|
      invariant forall k :: 0 <= k < |sorted| ==>
                  multiset(sorted[k].observations[..]) == old(multiset(sorted[k].observations[..]))
      invariant forall k :: 0 <= k < i ==> Ordered(ObservationLess, sorted[k].observations[..])
      invariant UuidsUnique(sorted, i)
      invariant seen == set k | 0 <= k < i :: sorted[k].facts.uuid
    {
      var uuid := sorted[i].facts.uuid;
      if !ValidUuid(uuid) || uuid in seen {
        return false;
      }
      seen := seen + {uuid};
      label before:
      assert sorted[i] in sorted;
      SortObservations(sorted[i].observations);
      assert forall k :: 0 <= k < |sorted| && k != i ==> sorted[k].observations[..] == old@before(sorted[k].observations[..]);
    }
    return true;
  }

  method Normalise(sorted: seq<DeviceRef>) returns (r: Option<seq<Device>>)
    requires Separate(sorted)
    requires forall i, j :: 0 <= i < j < |sorted| ==> !StringLess(sorted[j].facts.uuid, sorted[i].facts.uuid)
    modifies set d | d in sorted :: d.observations
    ensures r.Some? <==> UuidsUnique(sorted, |sorted|)
    ensures r.Some? ==> InOrder(r.value) && Bags(r.value) == old(Bags(Views(sorted)))
  {
    var ok := CheckAndSortObservations(sorted);
    if !ok {
      return None;
    }
    var views := Views(sorted);
    forall i, j | 0 <= i < j < |sorted| ensures StringLess(views[i].uuid, views[j].uuid) {
      StringLessIsTotal(sorted[i].facts.uuid, sorted[j].facts.uuid);
    }
    return Some(views);
  }

  // ----- orders -----

  lemma ObservationLessIsStrictWeak()
    ensures StrictWeakOrder(ObservationLess)
  {
    forall a, b ensures ObservationLess(a, b) ==> !ObservationLess(b, a) {
      StringLessIsAsymmetric(a.scope, b.scope);
      StringLessIsAsymmetric(a.scopeId, b.scopeId);
    }
    forall a, b, c | !ObservationLess(b, a) && !ObservationLess(c, b) ensures !ObservationLess(c, a) {
      ObservationLessNegTransitive(a, b, c);
    }
  }

  lemma ObservationLessNegTransitive(a: Observation, b: Observation, c: Observation)
    requires !ObservationLess(b, a) && !ObservationLess(c, b)
    ensures !ObservationLess(c, a)
  {
    ScopeLessOrTied(b, a);
    ScopeLessOrTied(c, b);
    ScopeLessOrTied(c, a);
    ScopeLessNegTransitive(a, b, c);
    if a.scope == c.scope && a.scopeId == c.scopeId {
      StringLessIsTotal(a.scope, b.scope);
      StringLessIsTotal(a.scopeId, b.scopeId);
    }
  }

  /** The two comparisons of observations differ only on ties of scope and scope identifier. */
  lemma ScopeLessOrTied(a: Observation, b: Observation)
    ensures ObservationLess(a, b) <==> ScopeLess(a, b) || (a.scope == b.scope && a.scopeId == b.scopeId && a.index < b.index)
  {
    StringLessIsAsymmetric(a.scopeId, b.scopeId);
  }

  lemma ObservationLessIsTotal(a: Observation, b: Observation)
    ensures a == b || ObservationLess(a, b) || ObservationLess(b, a)
  {
    StringLessIsTotal(a.scope, b.scope);
    StringLessIsTotal(a.scopeId, b.scopeId);
  }

  /** Canonical observations come by scope, then by identifier, then by index. */
  lemma CanonicalObservations(s: seq<Observation>, i: nat, j: nat)
    requires Ordered(ObservationLess, s) && i < j < |s|
    ensures s[i].scope == s[j].scope || StringLess(s[i].scope, s[j].scope)
    ensures s[i].scope == s[j].scope ==> s[i].scopeId == s[j].scopeId || StringLess(s[i].scopeId, s[j].scopeId)
    ensures s[i].scope == s[j].scope && s[i].scopeId == s[j].scopeId ==> s[i].index <= s[j].index
  {
    StringLessIsTotal(s[i].scope, s[j].scope);
    StringLessIsTotal(s[i].scopeId, s[j].scopeId);
  }

  // ----- the canonical form is a normal form -----

  lemma AcceptableInAnyOrder(a: ResourceManifest, b: ResourceManifest)
    requires Reordering(a, b)
    ensures Acceptable(a) <==> Acceptable(b)
  {
    if Acceptable(a) { AcceptableTransfers(a, b); }
    if Acceptable(b) { AcceptableTransfers(b, a); }
  }

  lemma AcceptableTransfers(a: ResourceManifest, b: ResourceManifest)
    requires Reordering(a, b) && Acceptable(a)
    ensures Acceptable(b)
  {
    var x, y := Bags(a.gpus), Bags(b.gpus);
    DistinctFromMultiset(x, y);
    forall i | 0 <= i < |b.gpus| ensures ValidUuid(b.gpus[i].uuid) {
      var k := Counterpart(x, y, i);
      assert b.gpus[i].uuid == a.gpus[k].uuid;
    }
    forall i, j | 0 <= i < j < |b.gpus| ensures b.gpus[i].uuid != b.gpus[j].uuid {
      var k := Counterpart(x, y, i);
      var l := Counterpart(x, y, j);
      assert y[i] != y[j];
      assert b.gpus[i].uuid == a.gpus[k].uuid && b.gpus[j].uuid == a.gpus[l].uuid;
    }
  }

  lemma Counterpart(x: seq<Bag>, y: seq<Bag>, i: nat) returns (k: nat)
    requires multiset(x) == multiset(y) && i < |y|
    ensures k < |x| && x[k] == y[i]
  {
    SameMembers(x, y);
    assert y[i] in y;
    k :| 0 <= k < |x| && x[k] == y[i];
  }

  predicate BagLess(a: Bag, b: Bag) { StringLess(a.facts.uuid, b.facts.uuid) }

  lemma SameBags(a: seq<Device>, b: seq<Device>)
    requires multiset(Bags(a)) == multiset(Bags(b)) && InOrder(a) && InOrder(b)
    ensures Bags(a) == Bags(b)
  {
    var x, y := Bags(a), Bags(b);
    forall i, j | 0 <= i < j < |a| ensures !BagLess(x[j], x[i]) {
      StringLessIsAsymmetric(a[i].uuid, a[j].uuid);
    }
    forall i, j | 0 <= i < j < |b| ensures !BagLess(y[j], y[i]) {
      StringLessIsAsymmetric(b[i].uuid, b[j].uuid);
    }
    forall p, q | p in x && q in x ensures p == q || BagLess(p, q) || BagLess(q, p) {
      var i, j :| 0 <= i < |x| && 0 <= j < |x| && x[i] == p && x[j] == q;
    }
    SortedUnique(BagLess, x, y);
  }

  lemma SameDevice(a: Device, b: Device)
    requires BagOf(a) == BagOf(b)
    requires Ordered(ObservationLess, a.observations) && Ordered(ObservationLess, b.observations)
    ensures a == b
  {
    forall x, y | x in a.observations && y in a.observations
      ensures x == y || ObservationLess(x, y) || ObservationLess(y, x)
    {
      ObservationLessIsTotal(x, y);
    }
    SortedUnique(ObservationLess, a.observations, b.observations);
  }

  lemma ReorderedSame(a: ResourceManifest, b: ResourceManifest, ca: ResourceManifest, cb: ResourceManifest)
    requires CanonicalOf(a, ca) && CanonicalOf(b, cb) && Reordering(a, b)
    ensures ca == cb
  {
    SameBags(ca.gpus, cb.gpus);
    assert |Bags(ca.gpus)| == |Bags(cb.gpus)|;
    forall i | 0 <= i < |ca.gpus| ensures ca.gpus[i] == cb.gpus[i] {
      assert Bags(ca.gpus)[i] == Bags(cb.gpus)[i];
      SameDevice(ca.gpus[i], cb.gpus[i]);
    }
  }

  /** Two manifests have the same canonical form exactly when they differ only in the order of their
      GPUs and of each GPU's observations, although the sorts used are unstable. */
  lemma CanonicalFormDecidesReordering(a: ResourceManifest, b: ResourceManifest, ca: ResourceManifest, cb: ResourceManifest)
    requires CanonicalOf(a, ca) && CanonicalOf(b, cb)
    ensures ca == cb <==> Reordering(a, b)
  {
    if Reordering(a, b) {
      ReorderedSame(a, b, ca, cb);
    }
  }

  /** Canonicalising a canonical form gives it back. */
  lemma CanonicalFormIsFixed(m: ResourceManifest, c: ResourceManifest, cc: ResourceManifest)
    requires CanonicalOf(m, c) && CanonicalOf(c, cc)
    ensures cc == c
  {
    ReorderedSame(m, c, c, cc);
  }
}
