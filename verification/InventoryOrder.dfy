/** What a reconciliation owes to the order of its inventories, and what it does not. */
module InventoryOrder {
  import opened GpuIdentity
  import opened Ordering
  import opened Inventory

  lemma {:induction false} CandidateComesFromInventory(invs: seq<ScopedInventory>, d: Device)
    ensures d in Candidates(invs) <==> exists inv :: inv in invs && d in FilledDevices(inv)
  {
    if invs != [] {
      var n := |invs| - 1;
      CandidateComesFromInventory(invs[..n], d);
      assert invs == invs[..n] + [invs[n]];
      assert invs[n] in invs;
      if d in Candidates(invs[..n]) {
        var inv :| inv in invs[..n] && d in FilledDevices(inv);
        assert inv in invs;
      }
    }
  }

  lemma SameCandidates(a: seq<ScopedInventory>, b: seq<ScopedInventory>)
    requires multiset(a) == multiset(b)
    ensures forall d :: d in Candidates(a) <==> d in Candidates(b)
  {
    SameMembers(a, b);
    forall d ensures d in Candidates(a) <==> d in Candidates(b) {
      CandidateComesFromInventory(a, d);
      CandidateComesFromInventory(b, d);
    }
  }

  /** Whether inventories reconcile does not depend on their order. */
  lemma ReconcilableInAnyOrder(fold: Folding, a: seq<ScopedInventory>, b: seq<ScopedInventory>)
    requires multiset(a) == multiset(b)
    ensures Reconcilable(fold, a) <==> Reconcilable(fold, b)
  {
    SameMembers(a, b);
    SameCandidates(a, b);
  }

  lemma {:induction false} ObservationsOfConcat(c: seq<Device>, d: seq<Device>, u: Uuid)
    ensures ObservationsOf(c + d, u) == ObservationsOf(c, u) + ObservationsOf(d, u)
    decreases |d|
  {
    if d == [] {
      assert c + d == c;
    } else {
      var n := |d| - 1;
      assert (c + d)[..|c + d| - 1] == c + d[..n];
      ObservationsOfConcat(c, d[..n], u);
    }
  }

  /** Multisets summed along a sequence. */
  function Sum<T>(s: seq<T>, w: T -> multiset<Observation>): multiset<Observation> {
    if s == [] then multiset{} else Sum(s[..|s| - 1], w) + w(s[|s| - 1])
  }

  lemma {:induction false} SumConcat<T>(a: seq<T>, b: seq<T>, w: T -> multiset<Observation>)
    ensures Sum(a + b, w) == Sum(a, w) + Sum(b, w)
    decreases |b|
  {
    if b == [] {
      assert a + b == a;
    } else {
      var n := |b| - 1;
      assert (a + b)[..|a + b| - 1] == a + b[..n];
      SumConcat(a, b[..n], w);
    }
  }

  lemma TakeOut<T>(s: seq<T>, k: nat, w: T -> multiset<Observation>)
    requires k < |s|
    ensures Sum(s, w) == Sum(Without(s, k), w) + w(s[k])
  {
    var before, x, after := s[..k], s[k], s[k + 1..];
    SplitAround(s, k);
    SumWithout(before, x, after, w);
  }

  lemma SplitAround<T>(s: seq<T>, k: nat)
    requires k < |s|
    ensures s == (s[..k] + [s[k]]) + s[k + 1..]
  {
    var r := (s[..k] + [s[k]]) + s[k + 1..];
    assert |r| == |s|;
    assert forall i :: 0 <= i < |s| ==> r[i] == s[i];
  }

  lemma SumWithout<T>(before: seq<T>, x: T, after: seq<T>, w: T -> multiset<Observation>)
    ensures Sum((before + [x]) + after, w) == Sum(before + after, w) + w(x)
  {
    var a, b, c := Sum(before, w), w(x), Sum(after, w);
    assert Sum((before + [x]) + after, w) == (a + b) + c by {
      SumSplit(before, x, after, w);
    }
    assert Sum(before + after, w) == a + c by {
      SumConcat(before, after, w);
    }
    Regroup(a, b, c);
  }

  lemma SumSplit<T>(before: seq<T>, x: T, after: seq<T>, w: T -> multiset<Observation>)
    ensures Sum((before + [x]) + after, w) == (Sum(before, w) + w(x)) + Sum(after, w)
  {
    SumConcat(before + [x], after, w);
    SumOfLast(before, x, w);
  }

  lemma Regroup(a: multiset<Observation>, b: multiset<Observation>, c: multiset<Observation>)
    ensures (a + b) + c == (a + c) + b
  {
  }

  lemma SumOfLast<T>(s: seq<T>, x: T, w: T -> multiset<Observation>)
    ensures Sum(s + [x], w) == Sum(s, w) + w(x)
  {
    assert (s + [x])[..|s|] == s;
  }

  lemma {:induction false} SumInAnyOrder<T>(a: seq<T>, b: seq<T>, w: T -> multiset<Observation>)
    requires multiset(a) == multiset(b)
    ensures Sum(a, w) == Sum(b, w)
    decreases |a|
  {
    assert |multiset(a)| == |a| && |multiset(b)| == |b|;
    if a != [] {
      SameMembers(a, b);
      assert a[0] in a;
      var k :| 0 <= k < |b| && b[k] == a[0];
      SumInAnyOrder(Without(a, 0), Without(b, k), w);
      TakeOut(a, 0, w);
      TakeOut(b, k, w);
    }
  }

  lemma {:induction false} ObservationsAreSummed(invs: seq<ScopedInventory>, u: Uuid)
    ensures ObservationsOf(Candidates(invs), u)
            == Sum(invs, (inv: ScopedInventory) => ObservationsOf(FilledDevices(inv), u))
  {
    if invs != [] {
      var n := |invs| - 1;
      ObservationsAreSummed(invs[..n], u);
      ObservationsOfConcat(Candidates(invs[..n]), FilledDevices(invs[n]), u);
    }
  }

  /** No observation is lost, added or moved to another GPU by the order of the work. */
  lemma ObservationsInAnyOrder(a: seq<ScopedInventory>, b: seq<ScopedInventory>, u: Uuid)
    requires multiset(a) == multiset(b)
    ensures ObservationsOf(Candidates(a), u) == ObservationsOf(Candidates(b), u)
  {
    ObservationsAreSummed(a, u);
    ObservationsAreSummed(b, u);
    SumInAnyOrder(a, b, (inv: ScopedInventory) => ObservationsOf(FilledDevices(inv), u));
  }

  // ----- conservation -----

  const SEEN: Device -> multiset<Observation> := (d: Device) => multiset(d.observations)

  /** Every observation that went in. */
  function AllObservations(invs: seq<ScopedInventory>): multiset<Observation> {
    Sum(invs, (inv: ScopedInventory) => Sum(inv.devices, SEEN))
  }

  lemma {:induction false} SumPointwise<S, T>(a: seq<S>, b: seq<T>, v: S -> multiset<Observation>, w: T -> multiset<Observation>)
    requires |a| == |b| && forall i :: 0 <= i < |a| ==> v(a[i]) == w(b[i])
    ensures Sum(a, v) == Sum(b, w)
    decreases |a|
  {
    if a != [] {
      SumPointwise(a[..|a| - 1], b[..|b| - 1], v, w);
    }
  }

  lemma {:induction false} CandidatesKeepObservations(invs: seq<ScopedInventory>)
    ensures Sum(Candidates(invs), SEEN) == AllObservations(invs)
  {
    if invs != [] {
      var n := |invs| - 1;
      CandidatesKeepObservations(invs[..n]);
      SumConcat(Candidates(invs[..n]), FilledDevices(invs[n]), SEEN);
      SumPointwise(FilledDevices(invs[n]), invs[n].devices, SEEN, SEEN);
    }
  }

  /** One more observation for one UUID among many. */
  lemma SumBumped(
    us: seq<Uuid>, k: nat, v: Uuid -> multiset<Observation>, w: Uuid -> multiset<Observation>, extra: multiset<Observation>)
    requires k < |us| && Distinct(us) && w(us[k]) == v(us[k]) + extra
    requires forall u :: u != us[k] ==> w(u) == v(u)
    ensures Sum(us, w) == Sum(us, v) + extra
  {
    TakeOut(us, k, v);
    TakeOut(us, k, w);
    var rest := Without(us, k);
    SumPointwise(rest, rest, w, v);
  }

  lemma {:induction false} SumByUuid(c: seq<Device>, us: seq<Uuid>)
    requires Distinct(us) && forall d :: d in c ==> d.uuid in us
    ensures Sum(c, SEEN) == Sum(us, (u: Uuid) => ObservationsOf(c, u))
    decreases |c|
  {
    var w := (u: Uuid) => ObservationsOf(c, u);
    if c == [] {
      NothingSums(us, w);
    } else {
      var n := |c| - 1;
      var d := c[n];
      assert d in c;
      var k :| 0 <= k < |us| && us[k] == d.uuid;
      SumByUuid(c[..n], us);
      SumBumped(us, k, (u: Uuid) => ObservationsOf(c[..n], u), w, SEEN(d));
    }
  }

  lemma {:induction false} NothingSums<T>(s: seq<T>, w: T -> multiset<Observation>)
    requires forall x :: w(x) == multiset{}
    ensures Sum(s, w) == multiset{}
  {
    if s != [] {
      NothingSums(s[..|s| - 1], w);
    }
  }

  /** The observations that come out of a reconciliation are, as a multiset, exactly those that went in. */
  lemma ObservationsAreConserved(invs: seq<ScopedInventory>, r: seq<Device>)
    requires Reconciled(invs, r)
    ensures Sum(r, SEEN) == AllObservations(invs)
  {
    var c, us := Candidates(invs), Uuids(r);
    forall i, j | 0 <= i < j < |us| ensures us[i] != us[j] {
      StringLessIsAsymmetric(us[i], us[j]);
    }
    forall d | d in c ensures d.uuid in us {
      assert Mentions(c, d.uuid);
      MentionsIsMembership(r, d.uuid);
    }
    SumByUuid(c, us);
    var w := (u: Uuid) => ObservationsOf(c, u);
    forall i | 0 <= i < |r| ensures SEEN(r[i]) == w(us[i]) {
      assert r[i] in r;
    }
    SumPointwise(r, us, SEEN, w);
    CandidatesKeepObservations(invs);
  }

  lemma SameUuids(a: seq<Device>, b: seq<Device>)
    requires forall i, j :: 0 <= i < j < |a| ==> StringLess(a[i].uuid, a[j].uuid)
    requires forall i, j :: 0 <= i < j < |b| ==> StringLess(b[i].uuid, b[j].uuid)
    requires forall u :: Mentions(a, u) <==> Mentions(b, u)
    ensures Uuids(a) == Uuids(b)
  {
    var ua, ub := Uuids(a), Uuids(b);
    forall i, j | 0 <= i < j < |ua| ensures ua[i] != ua[j] && !StringLess(ua[j], ua[i]) {
      StringLessIsAsymmetric(ua[i], ua[j]);
    }
    forall i, j | 0 <= i < j < |ub| ensures ub[i] != ub[j] && !StringLess(ub[j], ub[i]) {
      StringLessIsAsymmetric(ub[i], ub[j]);
    }
    forall u ensures u in ua <==> u in ub {
      MentionsIsMembership(a, u);
      MentionsIsMembership(b, u);
    }
    DistinctSameSetIsPermutation(ua, ub);
    forall x, y | x in ua && y in ua ensures x == y || StringLess(x, y) || StringLess(y, x) {
      StringLessIsTotal(x, y);
    }
    SortedUnique(StringLess, ua, ub);
  }

  lemma MentionsIsMembership(s: seq<Device>, u: Uuid)
    ensures Mentions(s, u) <==> u in Uuids(s)
  {
    if u in Uuids(s) {
      var i :| 0 <= i < |s| && Uuids(s)[i] == u;
      assert s[i] in s;
    }
    if Mentions(s, u) {
      var x :| x in s && x.uuid == u;
      var i :| 0 <= i < |s| && s[i] == x;
      assert Uuids(s)[i] == u;
    }
  }

  /** Two facts that are both missing, or both present and equal up to letter case. */
  predicate SameFact(fold: Folding, x: string, y: string) {
    (x == "" <==> y == "") && fold(x) == fold(y)
  }

  lemma FactInAnyOrder(fold: Folding, c: seq<Device>, d: seq<Device>, u: Uuid, f: Device -> string)
    requires forall x :: x in c <==> x in d
    requires forall x, y :: x in c && y in c && x.uuid == u && y.uuid == u ==> !Incompatible(fold, f(x), f(y))
    ensures SameFact(fold, First(c, u, f), First(d, u, f))
  {
    FirstIsSomeone(c, u, f);
    FirstIsSomeone(d, u, f);
  }

  /** Reconciling the same inventories in another order gives the same GPUs in the same places, with
      the same names, the same multisets of observations, and the same architecture and compute
      capability up to letter case. */
  lemma ReconciledInAnyOrder(
    fold: Folding, a: seq<ScopedInventory>, b: seq<ScopedInventory>, ra: seq<Device>, rb: seq<Device>, i: nat)
    requires multiset(a) == multiset(b) && Reconcilable(fold, a)
    requires Reconciled(a, ra) && Reconciled(b, rb)
    requires i < |ra|
    ensures |ra| == |rb|
    ensures ra[i].uuid == rb[i].uuid && ra[i].name == rb[i].name
    ensures multiset(ra[i].observations) == multiset(rb[i].observations)
    ensures SameFact(fold, ra[i].architecture, rb[i].architecture)
    ensures SameFact(fold, ra[i].computeCapability, rb[i].computeCapability)
  {
    SameCandidates(a, b);
    var ca, cb := Candidates(a), Candidates(b);
    forall u ensures Mentions(ra, u) <==> Mentions(rb, u) {
      assert Mentions(ca, u) <==> Mentions(cb, u);
    }
    SameUuids(ra, rb);
    assert |Uuids(ra)| == |Uuids(rb)| && Uuids(ra)[i] == Uuids(rb)[i];
    var u := ra[i].uuid;
    assert ra[i] in ra && rb[i] in rb;
    ObservationsInAnyOrder(a, b, u);
    assert Mentions(ra, u);
    var x :| x in ca && x.uuid == u;
    assert x.name == ra[i].name && x.name == rb[i].name;
    AgreeOnFacts(fold, ca, u);
    FactInAnyOrder(fold, ca, cb, u, ARCHITECTURE);
    FactInAnyOrder(fold, ca, cb, u, COMPUTE);
  }

  lemma AgreeOnFacts(fold: Folding, c: seq<Device>, u: Uuid)
    requires AllAgree(fold, c)
    ensures forall x, y :: x in c && y in c && x.uuid == u && y.uuid == u ==> !Incompatible(fold, COMPUTE(x), COMPUTE(y))
    ensures forall x, y :: x in c && y in c && x.uuid == u && y.uuid == u ==>
              !Incompatible(fold, ARCHITECTURE(x), ARCHITECTURE(y))
  {
    forall x, y | x in c && y in c && x.uuid == u && y.uuid == u
      ensures !Incompatible(fold, COMPUTE(x), COMPUTE(y)) && !Incompatible(fold, ARCHITECTURE(x), ARCHITECTURE(y))
    {
      assert Agree(fold, x, y);
    }
  }

  // ----- driver facts: no such promise -----

  /** The candidates for `u` that know the fact agree on it. */
  ghost predicate SameWhereKnown(c: seq<Device>, u: Uuid, f: Device -> string) {
    forall x, y :: x in c && y in c && x.uuid == u && y.uuid == u && f(x) != "" && f(y) != "" ==> f(x) == f(y)
  }

  /** The facts that are never compared, so that the first inventory wins. */
  ghost predicate IsDriverFact(f: Device -> string) { f == DRIVER || f == CEILING }

  lemma {:induction false} CandidatesConcat(a: seq<ScopedInventory>, b: seq<ScopedInventory>)
    ensures Candidates(a + b) == Candidates(a) + Candidates(b)
    decreases |b|
  {
    if b == [] {
      assert a + b == a;
    } else {
      var front, x := b[..|b| - 1], b[|b| - 1];
      CandidatesConcat(a, front);
      CandidatesOfLast(a + front, x);
      CandidatesOfLast(front, x);
      assert b == front + [x] && a + b == (a + front) + [x];
    }
  }

  lemma CandidatesOfLast(a: seq<ScopedInventory>, x: ScopedInventory)
    ensures Candidates(a + [x]) == Candidates(a) + FilledDevices(x)
  {
    assert (a + [x])[..|a|] == a;
  }

  lemma {:induction false} FirstOfConcat(c: seq<Device>, d: seq<Device>, u: Uuid, f: Device -> string)
    ensures First(c + d, u, f) == if First(c, u, f) != "" then First(c, u, f) else First(d, u, f)
    decreases |d|
  {
    if d == [] {
      assert c + d == c;
    } else {
      var n := |d| - 1;
      assert (c + d)[..|c + d| - 1] == c + d[..n];
      FirstOfConcat(c, d[..n], u, f);
    }
  }

  /** A well-formed inventory has one device for `u`, so what that device knows comes first. */
  lemma FirstOfInventory(inv: ScopedInventory, z: Device, f: Device -> string)
    requires WellFormed(inv) && z in FilledDevices(inv) && f(z) != ""
    ensures First(FilledDevices(inv), z.uuid, f) == f(z)
  {
    var c := FilledDevices(inv);
    FirstIsSomeone(c, z.uuid, f);
    var d :| d in c && d.uuid == z.uuid && f(d) == First(c, z.uuid, f);
    OneDeviceEach(inv, z, d);
  }

  lemma OneDeviceEach(inv: ScopedInventory, z: Device, d: Device)
    requires forall j, k :: 0 <= j < k < |inv.devices| ==> inv.devices[j].uuid != inv.devices[k].uuid
    requires z in FilledDevices(inv) && d in FilledDevices(inv) && z.uuid == d.uuid
    ensures z == d
  {
    var c := FilledDevices(inv);
    var i :| 0 <= i < |c| && c[i] == z;
    var j :| 0 <= j < |c| && c[j] == d;
    assert inv.devices[i].uuid == inv.devices[j].uuid;
  }

  lemma MovedToFront(a: seq<ScopedInventory>, k: nat) returns (b: seq<ScopedInventory>)
    requires k < |a|
    ensures multiset(b) == multiset(a) && Candidates(b) == FilledDevices(a[k]) + Candidates(Without(a, k))
  {
    var x, rest := a[k], Without(a, k);
    b := [x] + rest;
    assert multiset(b) == multiset(a) by {
      assert multiset(b) == multiset{x} + multiset(rest) && x in multiset(a);
    }
    CandidatesConcat([x], rest);
    CandidatesOfOne(x);
  }

  lemma CandidatesOfOne(x: ScopedInventory)
    ensures Candidates([x]) == FilledDevices(x)
  {
    assert [x][..0] == [];
    assert Candidates([x]) == [] + FilledDevices(x);
  }

  /** An inventory moved to the front decides. */
  lemma FrontDecides(a: seq<ScopedInventory>, k: nat, z: Device, f: Device -> string) returns (b: seq<ScopedInventory>)
    requires k < |a| && WellFormed(a[k]) && z in FilledDevices(a[k]) && f(z) != ""
    ensures multiset(b) == multiset(a) && First(Candidates(b), z.uuid, f) == f(z)
  {
    b := MovedToFront(a, k);
    FirstOfInventory(a[k], z, f);
    FirstOfConcat(FilledDevices(a[k]), Candidates(Without(a, k)), z.uuid, f);
  }

  ghost predicate SameInEveryOrder(a: seq<ScopedInventory>, u: Uuid, f: Device -> string) {
    forall b :: multiset(b) == multiset(a) ==> First(Candidates(b), u, f) == First(Candidates(a), u, f)
  }

  /** A fact that the first inventory decides is the same in every order exactly if all who know it agree. */
  lemma FirstInEveryOrderExactly(a: seq<ScopedInventory>, u: Uuid, f: Device -> string)
    requires forall inv :: inv in a ==> WellFormed(inv)
    ensures SameInEveryOrder(a, u, f) <==> SameWhereKnown(Candidates(a), u, f)
  {
    var c := Candidates(a);
    if SameWhereKnown(c, u, f) {
      forall b | multiset(b) == multiset(a) ensures First(Candidates(b), u, f) == First(c, u, f) {
        SameCandidates(a, b);
        FirstIsSomeone(c, u, f);
        FirstIsSomeone(Candidates(b), u, f);
      }
    } else {
      var x, y :| x in c && y in c && x.uuid == u && y.uuid == u && f(x) != "" && f(y) != "" && f(x) != f(y);
      var z := if f(x) == First(c, u, f) then y else x;
      CandidateComesFromInventory(a, z);
      var inv :| inv in a && z in FilledDevices(inv);
      var k :| 0 <= k < |a| && a[k] == inv;
      var b := FrontDecides(a, k, z, f);
    }
  }

  /** What `d` says again, in the light of the candidates in another order. */
  function Retold(d: Device, c: seq<Device>): Device {
    d.(architecture := First(c, d.uuid, ARCHITECTURE), computeCapability := First(c, d.uuid, COMPUTE),
       driverVersion := First(c, d.uuid, DRIVER), driverCudaCeiling := First(c, d.uuid, CEILING))
  }

  function RetoldAll(r: seq<Device>, c: seq<Device>): (s: seq<Device>)
    ensures |s| == |r| && forall i :: 0 <= i < |r| ==> s[i] == Retold(r[i], c)
  {
    seq(|r|, i requires 0 <= i < |r| => Retold(r[i], c))
  }

  /** A reconciliation in one order shows what there is in any other. */
  lemma Reordered(a: seq<ScopedInventory>, ra: seq<Device>, b: seq<ScopedInventory>)
    requires Reconciled(a, ra) && multiset(a) == multiset(b)
    ensures Reconciled(b, RetoldAll(ra, Candidates(b)))
  {
    SameCandidates(a, b);
    var ca, cb := Candidates(a), Candidates(b);
    var rb := RetoldAll(ra, cb);
    assert Uuids(rb) == Uuids(ra);
    forall u ensures Mentions(cb, u) <==> Mentions(rb, u) {
      assert Mentions(ca, u) <==> Mentions(cb, u);
      MentionsIsMembership(ra, u);
      MentionsIsMembership(rb, u);
    }
    forall d | d in rb ensures Summarises(d, cb, d.uuid) && Ordered(ScopeLess, d.observations) {
      var i :| 0 <= i < |rb| && rb[i] == d;
      assert ra[i] in ra && Summarises(ra[i], ca, d.uuid);
      ObservationsInAnyOrder(a, b, d.uuid);
    }
  }

  ghost predicate ReconciledAlike(a: seq<ScopedInventory>, ra: seq<Device>, i: nat, f: Device -> string)
    requires i < |ra|
  {
    forall b, rb :: multiset(b) == multiset(a) && Reconciled(b, rb) ==> |rb| == |ra| && f(rb[i]) == f(ra[i])
  }

  /** A reconciled device has the same driver version, and the same CUDA ceiling, whatever the order of the
      inventories, exactly if every inventory that knows it, for the device or for its driver as a whole, says the
      same. */
  lemma DriverFactsInEveryOrderExactly(fold: Folding, a: seq<ScopedInventory>, ra: seq<Device>, i: nat, f: Device -> string)
    requires Reconcilable(fold, a) && Reconciled(a, ra) && i < |ra| && IsDriverFact(f)
    ensures ReconciledAlike(a, ra, i, f) <==> SameWhereKnown(Candidates(a), ra[i].uuid, f)
  {
    var u := ra[i].uuid;
    FirstInEveryOrderExactly(a, u, f);
    assert ra[i] in ra && f(ra[i]) == First(Candidates(a), u, f);
    if SameInEveryOrder(a, u, f) {
      forall b, rb | multiset(b) == multiset(a) && Reconciled(b, rb) ensures |rb| == |ra| && f(rb[i]) == f(ra[i]) {
        ReconciledInAnyOrder(fold, a, b, ra, rb, i);
        assert rb[i] in rb;
      }
    }
    if ReconciledAlike(a, ra, i, f) {
      forall b | multiset(b) == multiset(a) ensures First(Candidates(b), u, f) == First(Candidates(a), u, f) {
        Reordered(a, ra, b);
        assert f(RetoldAll(ra, Candidates(b))[i]) == f(ra[i]);
      }
    }
  }

  /** Two scopes that report different drivers for one GPU: each order reconciles, and gives its own version. */
  lemma DriverFactsDependOnOrder(u: Uuid, v: string, w: string)
    returns (a: seq<ScopedInventory>, b: seq<ScopedInventory>, ra: seq<Device>, rb: seq<Device>)
    requires ValidUuid(u) && v != "" && w != "" && v != w
    ensures multiset(a) == multiset(b) && forall fold :: Reconcilable(fold, a)
    ensures Reconciled(a, ra) && Reconciled(b, rb) && |ra| == |rb| == 1
    ensures ra[0].driverVersion == v && rb[0].driverVersion == w
  {
    var x, y := Scope("windows-host", u, v), Scope("runtime", u, w);
    a, b := [x, y], [y, x];
    forall fold ensures Reconcilable(fold, a) {
      ScopesAgree(fold, x, y);
    }
    ra, rb := ScopesInBothOrders(x, y);
  }

  lemma ScopesAgree(fold: Folding, x: ScopedInventory, y: ScopedInventory)
    requires OneGpu(x) && OneGpu(y) && x.devices[0].uuid == y.devices[0].uuid
    ensures Reconcilable(fold, [x, y])
  {
    TwoInventories(x, y);
    assert AllAgree(fold, Candidates([x, y]));
  }

  lemma ScopesInBothOrders(x: ScopedInventory, y: ScopedInventory) returns (r: seq<Device>, s: seq<Device>)
    requires OneGpu(x) && OneGpu(y) && x.devices[0].uuid == y.devices[0].uuid
    requires x.driverVersion != "" && y.driverVersion != "" && !StringLess(x.scope, y.scope) && x.scope != y.scope
    ensures Reconciled([x, y], r) && Reconciled([y, x], s) && |r| == |s| == 1
    ensures r[0].driverVersion == x.driverVersion && s[0].driverVersion == y.driverVersion
  {
    TwoInventories(x, y);
    TwoInventories(y, x);
    var p, q := Filled(x, x.devices[0]), Filled(y, y.devices[0]);
    r := [p.(observations := q.observations + p.observations)];
    ReconciledPair([x, y], p, q, r[0]);
    Reordered([x, y], r, [y, x]);
    s := RetoldAll(r, Candidates([y, x]));
    FirstOfTwo(q, p, DRIVER);
  }

  /** A scope that sees one GPU, and knows nothing of it but its name. */
  ghost predicate OneGpu(inv: ScopedInventory) {
    && WellFormed(inv) && |inv.devices| == 1
    && inv.devices[0] == Device(inv.devices[0].uuid, "gpu", "", "", "", "", inv.devices[0].observations)
    && inv.driverCudaCeiling == ""
  }

  /** One scope that sees one GPU under one driver. */
  function Scope(scope: string, u: Uuid, driver: string): (inv: ScopedInventory)
    requires ValidScope(scope) && ValidUuid(u)
    ensures OneGpu(inv)
  {
    ScopedInventory(scope, "", driver, "", [Device(u, "gpu", "", "", "", "", [Observation(scope, "", 0)])])
  }

  lemma ReconciledPair(a: seq<ScopedInventory>, p: Device, q: Device, d: Device)
    requires Candidates(a) == [p, q] && q.uuid == p.uuid && q.name == p.name && p.driverVersion != ""
    requires q.architecture == q.computeCapability == q.driverCudaCeiling == ""
    requires |p.observations| == |q.observations| == 1 && d == p.(observations := q.observations + p.observations)
    requires !ScopeLess(p.observations[0], q.observations[0])
    ensures Reconciled(a, [d])
  {
    PairSummary(p, q, d);
    PairMentions(p, q, d);
  }

  lemma PairSummary(p: Device, q: Device, d: Device)
    requires q.uuid == p.uuid && q.name == p.name && p.driverVersion != ""
    requires q.architecture == q.computeCapability == q.driverCudaCeiling == ""
    requires d == p.(observations := q.observations + p.observations)
    ensures Summarises(d, [p, q], d.uuid)
  {
    FirstOfTwo(p, q, ARCHITECTURE);
    FirstOfTwo(p, q, COMPUTE);
    FirstOfTwo(p, q, DRIVER);
    FirstOfTwo(p, q, CEILING);
    ObservationsOfTwo(p, q);
  }

  lemma PairMentions(p: Device, q: Device, d: Device)
    requires p.uuid == q.uuid == d.uuid
    ensures forall u :: Mentions([p, q], u) <==> Mentions([d], u)
  {
    forall u ensures Mentions([p, q], u) <==> Mentions([d], u) {
      MentionsIsMembership([p, q], u);
      MentionsIsMembership([d], u);
    }
  }

  lemma TwoInventories(x: ScopedInventory, y: ScopedInventory)
    requires |x.devices| == 1 && |y.devices| == 1
    ensures Candidates([x, y]) == [Filled(x, x.devices[0]), Filled(y, y.devices[0])]
  {
    assert [x, y][..1] == [x];
    CandidatesOfOne(x);
  }

  lemma FirstOfTwo(x: Device, y: Device, f: Device -> string)
    requires x.uuid == y.uuid
    ensures First([x, y], x.uuid, f) == if f(x) != "" then f(x) else f(y)
  {
    assert [x, y][..1] == [x] && [x][..0] == [];
    assert First([x], x.uuid, f) == f(x);
  }

  lemma ObservationsOfTwo(x: Device, y: Device)
    requires x.uuid == y.uuid
    ensures ObservationsOf([x, y], x.uuid) == multiset(x.observations) + multiset(y.observations)
  {
    assert [x, y][..1] == [x] && [x][..0] == [];
    assert ObservationsOf([x], x.uuid) == multiset(x.observations);
  }
}
