/** The file-backed GPU reservation store (pkg/gpu/reservation.go): its sequential meaning,
    and the store's methods proved against that meaning. */
module Reservation {
  import opened GpuIdentity
  import opened Ordering

  datatype Record = Record(token: string, owner: string, expiresAt: int)

  type Reservations = map<Uuid, Record>

  /** What `store.Path` holds. `Unreadable` stands for every content `readState` rejects. */
  datatype File = Absent | Unreadable | Stored(reservations: Reservations)

  datatype Lease = Lease(token: string, owner: string, uuids: seq<Uuid>, expiresAt: int)

  datatype Op =
    | Reserve(uuids: seq<Uuid>, owner: string, ttl: int)
    | Release(lease: Lease)
    | Active

  datatype Outcome =
    | Granted(lease: Lease)
    | Dropped
    | Listed(leases: seq<Lease>)
    | Refused

  // ----- the sequential meaning -----

  /** The reservations still in force at `now`: expiry is strict. */
  function Live(m: Reservations, now: int): Reservations {
    map u | u in m && m[u].expiresAt > now :: m[u]
  }

  function Contents(f: File): Reservations {
    if f.Stored? then f.reservations else map[]
  }

  /** The checks `Reserve` and `Release` make before they take the lock. */
  ghost predicate ArgumentsOk(op: Op) {
    match op
    case Reserve(uuids, owner, ttl) =>
      && owner != "" && ttl > 0 && uuids != []
      && (forall u :: u in uuids ==> ValidUuid(u))
      && Distinct(uuids)
    case Release(lease) => lease.token != "" && lease.owner != "" && lease.uuids != []
    case Active => true
  }

  /** A release is entitled to `u` when the live record there, if any, is the lease's own. */
  ghost predicate Entitled(m: Reservations, lease: Lease) {
    forall u :: u in lease.uuids && u in m ==> m[u].token == lease.token && m[u].owner == lease.owner
  }

  ghost predicate AllFree(m: Reservations, uuids: seq<Uuid>) {
    forall u :: u in uuids ==> u !in m
  }

  /** `m` with the record under each of these GPUs. */
  function Granting(m: Reservations, uuids: seq<Uuid>, record: Record): Reservations {
    m + map u | u in uuids :: record
  }

  /** One operation as a single atomic step at time `now`; `token` is what the random source yields. */
  ghost predicate Effect(op: Op, f: File, now: int, token: string, f': File, out: Outcome) {
    var live := Live(Contents(f), now);
    && !f.Unreadable?
    && match op
       case Reserve(uuids, owner, ttl) =>
         if AllFree(live, uuids) then
           && out.Granted?
           && out.lease.token == token && out.lease.owner == owner && out.lease.expiresAt == now + ttl
           && multiset(out.lease.uuids) == multiset(uuids)
           && Ordered(StringLess, out.lease.uuids)
           && f' == Stored(Granting(live, uuids, Record(token, owner, now + ttl)))
         else
           out == Refused && f' == f
       case Release(lease) =>
         if Entitled(live, lease) then
           out == Dropped && f' == Stored(live - set u | u in lease.uuids)
         else
           out == Refused && f' == f
       case Active =>
         && out.Listed?
         && IsListing(live, out.leases)
         && f' == f
  }

  /** One single-GPU lease per live reservation, in strictly increasing UUID order. */
  ghost predicate IsListing(m: Reservations, leases: seq<Lease>) {
    && |leases| == |m|
    && (forall l :: l in leases ==>
          && |l.uuids| == 1 && l.uuids[0] in m
          && l == Lease(m[l.uuids[0]].token, m[l.uuids[0]].owner, l.uuids, m[l.uuids[0]].expiresAt))
    && (forall i, j :: 0 <= i < j < |leases| && |leases[i].uuids| == 1 && |leases[j].uuids| == 1 ==>
          StringLess(leases[i].uuids[0], leases[j].uuids[0]))
  }

  /** The listing names every live reservation. */
  lemma ListingIsComplete(m: Reservations, leases: seq<Lease>)
    requires IsListing(m, leases)
    ensures forall u :: u in m ==> exists i :: 0 <= i < |leases| && leases[i].uuids == [u]
  {
    assert forall i :: 0 <= i < |leases| ==> leases[i] in leases;
    var names := seq(|leases|, i requires 0 <= i < |leases| => leases[i].uuids[0]);
    forall i, j | 0 <= i < j < |names| ensures names[i] != names[j] {
      StringLessIsAsymmetric(names[i], names[j]);
    }
    assert |m| == |m.Keys|;
    DistinctCoversSet(names, m.Keys);
    forall u | u in m ensures exists i :: 0 <= i < |leases| && leases[i].uuids == [u] {
      var i :| 0 <= i < |names| && names[i] == u;
      assert leases[i].uuids == [u];
    }
  }

  // ----- what one step means for one GPU -----

  /** A grant never takes a GPU that is still in force for someone else, and a refusal means that
      one of the GPUs asked for is in force: all or none. */
  lemma ReserveIsAllOrNone(uuids: seq<Uuid>, owner: string, ttl: int, f: File, now: int, token: string, f': File, out: Outcome)
    requires Effect(Reserve(uuids, owner, ttl), f, now, token, f', out) && ttl > 0
    ensures out.Granted? <==> (forall u :: u in uuids ==> u !in Live(Contents(f), now))
    ensures out.Granted? ==> forall u :: u in uuids ==>
              u in Live(Contents(f'), now) && Contents(f')[u] == Record(token, owner, now + ttl)
    ensures forall u :: u in Live(Contents(f), now) ==>
              u in Live(Contents(f'), now) && Contents(f')[u] == Contents(f)[u]
    ensures forall u :: u in Live(Contents(f'), now) && u !in Live(Contents(f), now) ==> u in uuids && out.Granted?
  {
  }

  /** A release takes away exactly the live reservations it lists, provided they all carry its token
      and owner; otherwise the file keeps every byte. Reservations of others are never touched. */
  lemma ReleaseIsOwnOnly(lease: Lease, f: File, now: int, token: string, f': File, out: Outcome)
    requires Effect(Release(lease), f, now, token, f', out)
    ensures out == Refused ==> f' == f
    ensures out == Refused <==>
            exists u :: u in lease.uuids && u in Live(Contents(f), now)
                        && (Contents(f)[u].token != lease.token || Contents(f)[u].owner != lease.owner)
    ensures out == Dropped ==>
              Live(Contents(f'), now) == Live(Contents(f), now) - set u | u in lease.uuids
    ensures forall u :: u in Live(Contents(f), now) ==>
              Contents(f)[u].token != lease.token || Contents(f)[u].owner != lease.owner ==>
              u in Live(Contents(f'), now) && Contents(f')[u] == Contents(f)[u]
  {
  }

  /** In particular a release that names no record of its own token and owner leaves every live reservation as it
      was. The file itself stays exactly if the release lists a live record, or no record in it has expired. */
  lemma ForeignReleaseChangesNothing(lease: Lease, f: File, now: int, token: string, f': File, out: Outcome)
    requires Effect(Release(lease), f, now, token, f', out)
    requires forall u :: u in lease.uuids && u in Live(Contents(f), now) ==>
               Contents(f)[u].token != lease.token || Contents(f)[u].owner != lease.owner
    ensures Live(Contents(f'), now) == Live(Contents(f), now)
    ensures (exists u :: u in lease.uuids && u in Live(Contents(f), now)) ==> f' == f && out == Refused
    ensures f' == f <==>
            || (exists u :: u in lease.uuids && u in Live(Contents(f), now))
            || (f.Stored? && forall u :: u in f.reservations ==> f.reservations[u].expiresAt > now)
  {
    var live := Live(Contents(f), now);
    if out == Dropped {
      assert Entitled(live, lease);
      assert forall u :: u in lease.uuids ==> u !in live;
      assert live - (set u | u in lease.uuids) == live;
    }
    if f.Stored? && forall u :: u in f.reservations ==> f.reservations[u].expiresAt > now {
      assert live == f.reservations;
    }
  }

  /** It can prune: a release that has nothing to do with an expired record takes it out of the file. */
  lemma ForeignReleaseCanPrune(lease: Lease, u: Uuid, record: Record, now: int, token: string) returns (f: File, f': File)
    requires u !in lease.uuids && record.expiresAt <= now
    ensures u in Contents(f) && u !in Contents(f') && Effect(Release(lease), f, now, token, f', Dropped)
  {
    f, f' := Stored(map[u := record]), Stored(map[]);
    assert Live(Contents(f), now) == map[];
  }

  // ----- the store's code -----

  /** `reservationState`: the map the store decodes, prunes and rewrites. */
  class ReservationState {
    var reservations: Reservations

    constructor (m: Reservations)
      ensures reservations == m
    {
      reservations := m;
    }

    method RemoveExpired(now: int)
      modifies this
      ensures reservations == Live(old(reservations), now)
    {
      var pending := reservations.Keys;
      while pending != {}
        invariant pending <= old(reservations).Keys
        invariant reservations ==
                  map u | u in old(reservations) && (u in pending || old(reservations)[u].expiresAt > now) ::
                    old(reservations)[u]
        decreases pending
      {
        var u :| u in pending;
        if !(reservations[u].expiresAt > now) {
          reservations := reservations - {u};
        }
        pending := pending - {u};
      }
    }

    method Insert(uuids: seq<Uuid>, record: Record)
      modifies this
      ensures reservations == Granting(old(reservations), uuids, record)
    {
      for i := 0 to |uuids|
        invariant reservations == Granting(old(reservations), uuids[..i], record)
      {
        GrantingOneMore(old(reservations), uuids, i, record);
        reservations := reservations[uuids[i] := record];
      }
      assert uuids[..|uuids|] == uuids;
    }

    method Delete(uuids: seq<Uuid>)
      modifies this
      ensures reservations == old(reservations) - set u | u in uuids
    {
      for i := 0 to |uuids|
        invariant reservations == old(reservations) - set u | u in uuids[..i]
      {
        reservations := reservations - {uuids[i]};
      }
      assert uuids[..|uuids|] == uuids;
    }

    method FindReserved(uuids: seq<Uuid>) returns (found: bool)
      ensures found <==> !AllFree(reservations, uuids)
    {
      for i := 0 to |uuids|
        invariant AllFree(reservations, uuids[..i])
      {
        if uuids[i] in reservations {
          return true;
        }
      }
      assert uuids[..|uuids|] == uuids;
      return false;
    }

    method FindForeign(lease: Lease) returns (found: bool)
      ensures found <==> !Entitled(reservations, lease)
    {
      for i := 0 to |lease.uuids|
        invariant forall u :: u in lease.uuids[..i] && u in reservations ==>
                    reservations[u].token == lease.token && reservations[u].owner == lease.owner
      {
        var u := lease.uuids[i];
        if u in reservations && (reservations[u].token != lease.token || reservations[u].owner != lease.owner) {
          return true;
        }
      }
      assert lease.uuids[..|lease.uuids|] == lease.uuids;
      return false;
    }

    /** Ranges over the map in no particular order. */
    method Keys() returns (names: seq<Uuid>)
      ensures forall u :: u in names <==> u in reservations
      ensures Distinct(names) && |names| == |reservations|
    {
      var pending := reservations.Keys;
      names := [];
      while pending != {}
        invariant pending <= reservations.Keys
        invariant forall u :: u in names <==> u in reservations && u !in pending
        invariant Distinct(names)
        invariant |names| + |pending| == |reservations|
        decreases pending
      {
        var u :| u in pending;
        assert u !in names;
        names := names + [u];
        pending := pending - {u};
      }
    }

    method List() returns (leases: seq<Lease>)
      ensures IsListing(reservations, leases)
    {
      var names := Keys();
      StringLessIsStrictWeak();
      var sorted := SortSlice(StringLess, names);
      DistinctFromMultiset(names, sorted);
      SameMembers(names, sorted);
      OrderedDistinctIncreases(sorted);
      assert |multiset(names)| == |names| && |multiset(sorted)| == |sorted|;
      leases := Leases(reservations, sorted);
    }
  }

  function Leases(m: Reservations, sorted: seq<Uuid>): (leases: seq<Lease>)
    requires forall u :: u in sorted <==> u in m
    requires StrictlyIncreasing(sorted) && |sorted| == |m|
    ensures IsListing(m, leases)
  {
    seq(|sorted|, i requires 0 <= i < |sorted| =>
      assert sorted[i] in sorted;
      Lease(m[sorted[i]].token, m[sorted[i]].owner, [sorted[i]], m[sorted[i]].expiresAt))
  }

  /** The choices the surroundings make during one call. */
  datatype Surroundings = Surroundings(locked: bool, now: int, token: Option<string>, written: bool)

  class ReservationStore {
    const path: string
    var file: File

    constructor (path: string, file: File)
      ensures this.path == path && this.file == file
    {
      this.path := path;
      this.file := file;
    }

    method Reserve(uuids: seq<Uuid>, owner: string, ttl: int, env: Surroundings) returns (r: Option<Lease>)
      modifies this
      ensures r.Some? ==>
                && path != "" && ArgumentsOk(Op.Reserve(uuids, owner, ttl)) && env.token.Some?
                && Effect(Op.Reserve(uuids, owner, ttl), old(file), env.now, env.token.value, file, Granted(r.value))
      ensures r.Some? ==> owner != "" && ttl > 0 && uuids != [] && env.locked
      ensures r.None? ==> file == old(file)
      // Nothing but the arguments, contention and the surroundings can make it fail.
      ensures r.None? && path != "" && ArgumentsOk(Op.Reserve(uuids, owner, ttl))
              && env.locked && env.token.Some? && env.written && !old(file).Unreadable? ==>
                Effect(Op.Reserve(uuids, owner, ttl), old(file), env.now, env.token.value, file, Refused)
    {
      if path == "" || owner == "" || ttl <= 0 || |uuids| == 0 {
        return None;
      }
      var canonical := Canonicalise(uuids);
      if canonical.None? || !env.locked || file.Unreadable? {
        return None;
      }
      r := ReserveLocked(canonical.value, owner, ttl, env);
      if r.Some? {
        GrantIsEffect(canonical.value, uuids, owner, ttl, old(file), env.now, env.token.value, file, r.value);
      } else if env.token.Some? && env.written {
        RefusalIsEffect(canonical.value, uuids, owner, ttl, file, env.now, env.token.value);
      }
    }

    /** Lines 74-96, under the lock, for the sorted request. */
    method ReserveLocked(canonical: seq<Uuid>, owner: string, ttl: int, env: Surroundings) returns (r: Option<Lease>)
      modifies this
      ensures r.Some? ==>
                && env.token.Some? && AllFree(Live(Contents(old(file)), env.now), canonical)
                && r.value == Lease(env.token.value, owner, canonical, env.now + ttl)
                && file == Stored(Granting(Live(Contents(old(file)), env.now), canonical, Record(env.token.value, owner, env.now + ttl)))
      ensures r.None? ==> file == old(file)
      ensures r.None? && env.token.Some? && env.written ==> !AllFree(Live(Contents(file), env.now), canonical)
    {
      var state := new ReservationState(Contents(file));
      state.RemoveExpired(env.now);
      var taken := state.FindReserved(canonical);
      if taken || env.token.None? {
        return None;
      }
      var lease := Lease(env.token.value, owner, canonical, env.now + ttl);
      state.Insert(canonical, Record(env.token.value, owner, lease.expiresAt));
      if !env.written {
        return None;
      }
      file := Stored(state.reservations);
      return Some(lease);
    }

    method Release(lease: Lease, env: Surroundings) returns (ok: bool)
      modifies this
      ensures ok ==> path != "" && ArgumentsOk(Op.Release(lease))
                     && Effect(Op.Release(lease), old(file), env.now, "", file, Dropped)
      ensures ok ==> lease.token != "" && lease.owner != "" && lease.uuids != [] && env.locked
      ensures !ok ==> file == old(file)
      ensures !ok && path != "" && ArgumentsOk(Op.Release(lease))
              && env.locked && env.written && !old(file).Unreadable? ==>
                Effect(Op.Release(lease), old(file), env.now, "", file, Refused)
    {
      if path == "" || lease.token == "" || lease.owner == "" || |lease.uuids| == 0 || !env.locked || file.Unreadable? {
        return false;
      }
      var state := new ReservationState(Contents(file));
      state.RemoveExpired(env.now);
      var foreign := state.FindForeign(lease);
      if foreign {
        return false;
      }
      state.Delete(lease.uuids);
      if !env.written {
        return false;
      }
      file := Stored(state.reservations);
      return true;
    }

    method Active(env: Surroundings) returns (r: Option<seq<Lease>>)
      ensures r.Some? <==> path != "" && env.locked && !file.Unreadable?
      ensures r.Some? ==> Effect(Op.Active, file, env.now, "", file, Listed(r.value))
    {
      if path == "" || !env.locked || file.Unreadable? {
        return None;
      }
      var state := new ReservationState(Contents(file));
      state.RemoveExpired(env.now);
      var leases := state.List();
      return Some(leases);
    }
  }

  /** A sorted copy of the request, if its UUIDs are valid and distinct. */
  method Canonicalise(uuids: seq<Uuid>) returns (r: Option<seq<Uuid>>)
    ensures r.Some? <==> (forall u :: u in uuids ==> ValidUuid(u)) && Distinct(uuids)
    ensures r.Some? ==> multiset(r.value) == multiset(uuids) && Ordered(StringLess, r.value)
  {
    StringLessIsStrictWeak();
    var canonical := SortSlice(StringLess, uuids);
    SameMembers(uuids, canonical);
    var ok := CheckCanonical(canonical);
    if ok {
      DistinctFromMultiset(canonical, uuids);
      return Some(canonical);
    }
    if Distinct(uuids) {
      DistinctFromMultiset(uuids, canonical);
    }
    return None;
  }

  /** What is granted to the sorted request is what was asked for. */
  lemma GrantIsEffect(
    canonical: seq<Uuid>, uuids: seq<Uuid>, owner: string, ttl: int, f: File, now: int, token: string, f': File, lease: Lease)
    requires multiset(canonical) == multiset(uuids) && Ordered(StringLess, canonical) && !f.Unreadable?
    requires AllFree(Live(Contents(f), now), canonical) && lease == Lease(token, owner, canonical, now + ttl)
    requires f' == Stored(Granting(Live(Contents(f), now), canonical, Record(token, owner, now + ttl)))
    ensures Effect(Op.Reserve(uuids, owner, ttl), f, now, token, f', Granted(lease))
  {
    SameMembers(canonical, uuids);
    var live, record := Live(Contents(f), now), Record(token, owner, now + ttl);
    assert AllFree(live, uuids);
    SameGrants(live, canonical, uuids, record);
  }

  lemma GrantingOneMore(m: Reservations, uuids: seq<Uuid>, i: nat, record: Record)
    requires i < |uuids|
    ensures Granting(m, uuids[..i + 1], record) == Granting(m, uuids[..i], record)[uuids[i] := record]
  {
    var before, after := uuids[..i], uuids[..i + 1];
    assert after == before + [uuids[i]];
    assert (map u | u in after :: record) == (map u | u in before :: record)[uuids[i] := record];
  }

  lemma SameGrants(m: Reservations, a: seq<Uuid>, b: seq<Uuid>, record: Record)
    requires forall u :: u in a <==> u in b
    ensures Granting(m, a, record) == Granting(m, b, record)
  {
    assert (map u | u in a :: record) == (map u | u in b :: record);
  }

  lemma RefusalIsEffect(canonical: seq<Uuid>, uuids: seq<Uuid>, owner: string, ttl: int, f: File, now: int, token: string)
    requires multiset(canonical) == multiset(uuids) && !f.Unreadable? && !AllFree(Live(Contents(f), now), canonical)
    ensures Effect(Op.Reserve(uuids, owner, ttl), f, now, token, f, Refused)
  {
    SameMembers(canonical, uuids);
    assert !AllFree(Live(Contents(f), now), uuids);
  }

  /** The loop over the sorted request: every UUID valid, no two neighbours equal. */
  method CheckCanonical(canonical: seq<Uuid>) returns (ok: bool)
    requires Ordered(StringLess, canonical)
    ensures ok <==> (forall u :: u in canonical ==> ValidUuid(u)) && Distinct(canonical)
  {
    for i := 0 to |canonical|
      invariant forall k :: 0 <= k < i ==> ValidUuid(canonical[k])
      invariant AllDifferent(canonical, i)
    {
      if !ValidUuid(canonical[i]) {
        return false;
      }
      if i > 0 && canonical[i - 1] == canonical[i] {
        return false;
      }
      NewcomerIsNew(canonical, i);
    }
    return true;
  }

  ghost predicate AllDifferent(s: seq<Uuid>, n: nat)
    requires n <= |s|
  {
    forall j, k :: 0 <= j < k < n ==> s[j] != s[k]
  }

  lemma NewcomerIsNew(s: seq<Uuid>, i: nat)
    requires i < |s| && Ordered(StringLess, s) && (i > 0 ==> s[i - 1] != s[i])
    requires AllDifferent(s, i)
    ensures AllDifferent(s, i + 1)
  {
    forall j | 0 <= j < i ensures s[j] != s[i] {
      if j < i - 1 {
        assert s[j] != s[i - 1];
        NeighboursSeparate(s[j], s[i - 1], s[i]);
      }
    }
  }

  lemma NeighboursSeparate(a: string, b: string, c: string)
    requires !StringLess(b, a) && !StringLess(c, b) && a != b && b != c
    ensures a != c
  {
    StringLessIsTotal(a, b);
    StringLessIsTotal(b, c);
    StringLessIsAsymmetric(a, b);
  }
}
