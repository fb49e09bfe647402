/** Which evaluation requests are accepted (pkg/orchestrate/evaluation.go:360-423, 519-557, 668-675),
    and what acceptance buys at the reservation store. */
module Validation {
  import opened GpuIdentity
  import opened Ordering
  import opened Inventory
  import opened Manifest
  import opened Envelope
  import opened Reservation

  const MILLISECOND := 1_000_000
  const SECOND := 1_000_000_000
  const MAX_EVALUATION_TIMEOUT := 24 * 3600 * SECOND
  const MAX_EVALUATION_OUTPUT := 16_777_216
  const RESERVATION_SKEW := 60 * SECOND
  const INT64_RANGE := 0x1_0000_0000_0000_0000
  const MAX_INT64 := 0x7FFF_FFFF_FFFF_FFFF

  /** Two's complement truncation to 64 bits. */
  function Int64(x: int): int {
    (x + MAX_INT64 + 1) % INT64_RANGE - MAX_INT64 - 1
  }

  /** It is the one 64-bit integer that differs from `x` by a multiple of two to the 64th. */
  lemma Int64Exactly(x: int)
    ensures -0x8000_0000_0000_0000 <= Int64(x) < 0x8000_0000_0000_0000
    ensures (x - Int64(x)) % 0x1_0000_0000_0000_0000 == 0
    ensures -0x8000_0000_0000_0000 <= x < 0x8000_0000_0000_0000 ==> Int64(x) == x
  {
    var k := (x + MAX_INT64 + 1) / INT64_RANGE;
    assert x - Int64(x) == k * INT64_RANGE;
  }

  datatype Binding = Binding(uuid: Uuid, cudaToolkit: string, cdiDevice: string)

  datatype Request = Request(
    envelope: Envelope,
    manifestSha256: string,
    timeoutMillis: int,
    maxOutputBytes: int,
    lockInvocation: seq<string>,
    manifest: ResourceManifest,
    bindings: seq<Binding>)

  predicate IsDigest(s: string) {
    |s| == 64 && forall i :: 0 <= i < 64 ==> IsHex(s[i])
  }

  function CdiName(u: Uuid): string { "nvidia.com/gpu=" + u }

  /** The timeout as the code computes it: a product of two 64-bit integers. */
  function Timeout(millis: int): int { Int64(millis * MILLISECOND) }

  function MinimumTtl(millis: int): int {
    var t := Timeout(millis) + RESERVATION_SKEW;
    if t > MAX_EVALUATION_TIMEOUT then MAX_EVALUATION_TIMEOUT else t
  }

  // ----- the code -----

  method ValidateLimits(request: Request, ttl: int) returns (error: Option<string>)
    ensures error.None? <==> LimitsOk(request, ttl)
    ensures error.Some? ==> error.value == "invalid_limits"
  {
    var timeout := Timeout(request.timeoutMillis);
    if request.timeoutMillis <= 0 || timeout > MAX_EVALUATION_TIMEOUT {
      return Some("invalid_limits");
    }
    if request.maxOutputBytes <= 0 || request.maxOutputBytes > MAX_EVALUATION_OUTPUT {
      return Some("invalid_limits");
    }
    var minimum := timeout + RESERVATION_SKEW;
    if minimum > MAX_EVALUATION_TIMEOUT {
      minimum := MAX_EVALUATION_TIMEOUT;
    }
    if ttl < minimum || ttl > MAX_EVALUATION_TIMEOUT {
      return Some("invalid_limits");
    }
    return None;
  }

  ghost predicate LimitsOk(r: Request, ttl: int) {
    && r.timeoutMillis > 0 && Timeout(r.timeoutMillis) <= MAX_EVALUATION_TIMEOUT
    && 0 < r.maxOutputBytes <= MAX_EVALUATION_OUTPUT
    && MinimumTtl(r.timeoutMillis) <= ttl <= MAX_EVALUATION_TIMEOUT
  }

  ghost predicate BindingOk(r: Request, b: Binding) {
    && ValidUuid(b.uuid)
    && b.uuid in Uuids(r.manifest.gpus)
    && b.cudaToolkit == r.manifest.artifact.cudaToolkit
    && b.cdiDevice == CdiName(b.uuid)
  }

  function BoundUuids(bindings: seq<Binding>): (r: seq<Uuid>)
    ensures |r| == |bindings| && forall i :: 0 <= i < |bindings| ==> r[i] == bindings[i].uuid
  {
    seq(|bindings|, i requires 0 <= i < |bindings| => bindings[i].uuid)
  }

  /** The bindings name the manifest's GPUs, each once, each with the right toolkit and CDI device. */
  ghost predicate BindingsOk(r: Request) {
    && r.bindings != [] && r.manifest.gpus != []
    && !Blank(r.manifest.artifact.cudaToolkit)
    && Acceptable(r.manifest)
    && (forall b :: b in r.bindings ==> BindingOk(r, b))
    && multiset(BoundUuids(r.bindings)) == multiset(Uuids(r.manifest.gpus))
  }

  method ValidateGpuBindings(request: Request) returns (error: Option<string>)
    ensures error.None? <==> BindingsOk(request)
    ensures error.Some? ==> error.value != ""
  {
    if request.bindings == [] || request.manifest.gpus == [] {
      return Some("gpu_binding_rejected");
    }
    if Blank(request.manifest.artifact.cudaToolkit) {
      return Some("toolkit_rejected");
    }
    if !Acceptable(request.manifest) {
      return Some("gpu_binding_rejected");
    }
    var manifestUuids := CollectUuids(request.manifest.gpus);
    var seen;
    error, seen := CheckEachBinding(request, manifestUuids);
    if error.Some? {
      if BindingsOk(request) {
        BindingsOkIsEachOk(request);
      }
      return;
    }
    SameCountIsPermutation(request, seen, manifestUuids);
    if |seen| != |manifestUuids| {
      return Some("gpu_binding_rejected");
    }
  }

  /** The first `n` bindings are right and name different GPUs. */
  ghost predicate EachBindingOk(r: Request, n: nat)
    requires n <= |r.bindings|
  {
    && (forall k :: 0 <= k < n ==> BindingOk(r, r.bindings[k]))
    && (forall j, k :: 0 <= j < k < n ==> r.bindings[j].uuid != r.bindings[k].uuid)
  }

  method CheckEachBinding(request: Request, manifestUuids: set<Uuid>) returns (error: Option<string>, seen: set<Uuid>)
    requires manifestUuids == set u | u in Uuids(request.manifest.gpus)
    ensures error.None? <==> EachBindingOk(request, |request.bindings|)
    ensures error.Some? ==> error.value != ""
    ensures error.None? ==> |seen| == |request.bindings| && seen <= manifestUuids
                            && seen == set u | u in BoundUuids(request.bindings)
  {
    seen := {};
    for i := 0 to |request.bindings|
      invariant EachBindingOk(request, i) && SeenUpTo(request, seen, i)
      invariant seen <= manifestUuids
    {
      var code := CheckBinding(request, manifestUuids, seen, request.bindings[i]);
      BindingExtends(request, seen, i);
      if code.Some? {
        return code, seen;
      }
      seen := seen + {request.bindings[i].uuid};
    }
    SeenAll(request, seen);
    return None, seen;
  }

  /** `seen` holds the UUIDs of the first `n` bindings, all different. */
  ghost predicate SeenUpTo(r: Request, seen: set<Uuid>, n: nat)
    requires n <= |r.bindings|
  {
    && |seen| == n
    && (forall k :: 0 <= k < n ==> r.bindings[k].uuid in seen)
    && (forall u :: u in seen ==> exists k :: 0 <= k < n && r.bindings[k].uuid == u)
  }

  /** One more binding: it passes exactly when it is right and new, and `seen` follows. */
  lemma BindingExtends(r: Request, seen: set<Uuid>, i: nat)
    requires i < |r.bindings| && EachBindingOk(r, i) && SeenUpTo(r, seen, i)
    ensures BindingOk(r, r.bindings[i]) && r.bindings[i].uuid !in seen <==> EachBindingOk(r, i + 1)
    ensures EachBindingOk(r, |r.bindings|) ==> EachBindingOk(r, i + 1)
    ensures r.bindings[i].uuid !in seen ==> SeenUpTo(r, seen + {r.bindings[i].uuid}, i + 1)
  {
    if EachBindingOk(r, i + 1) {
      LastBindingIsNew(r, seen, i);
    }
    if BindingOk(r, r.bindings[i]) && r.bindings[i].uuid !in seen {
      NewBindingCounts(r, seen, i);
    }
    if r.bindings[i].uuid !in seen {
      SeenExtends(r, seen, i);
    }
  }

  lemma LastBindingIsNew(r: Request, seen: set<Uuid>, i: nat)
    requires i < |r.bindings| && SeenUpTo(r, seen, i) && EachBindingOk(r, i + 1)
    ensures BindingOk(r, r.bindings[i]) && r.bindings[i].uuid !in seen
  {
  }

  lemma NewBindingCounts(r: Request, seen: set<Uuid>, i: nat)
    requires i < |r.bindings| && SeenUpTo(r, seen, i) && EachBindingOk(r, i)
    requires BindingOk(r, r.bindings[i]) && r.bindings[i].uuid !in seen
    ensures EachBindingOk(r, i + 1)
  {
    forall j | 0 <= j < i ensures r.bindings[j].uuid != r.bindings[i].uuid {
      assert r.bindings[j].uuid in seen;
    }
    assert forall k :: 0 <= k < i + 1 ==> k == i || BindingOk(r, r.bindings[k]);
  }

  lemma SeenExtends(r: Request, seen: set<Uuid>, i: nat)
    requires i < |r.bindings| && SeenUpTo(r, seen, i) && r.bindings[i].uuid !in seen
    ensures SeenUpTo(r, seen + {r.bindings[i].uuid}, i + 1)
  {
    var u := r.bindings[i].uuid;
    forall v | v in seen + {u} ensures exists k :: 0 <= k < i + 1 && r.bindings[k].uuid == v {
      if v == u {
        assert r.bindings[i].uuid == v;
      } else {
        var k :| 0 <= k < i && r.bindings[k].uuid == v;
      }
    }
  }

  lemma SeenAll(r: Request, seen: set<Uuid>)
    requires SeenUpTo(r, seen, |r.bindings|)
    ensures seen == set u | u in BoundUuids(r.bindings)
  {
    var uuids := BoundUuids(r.bindings);
    forall u ensures u in seen <==> u in uuids {
      if u in uuids {
        var k :| 0 <= k < |uuids| && uuids[k] == u;
      }
      if u in seen {
        var k :| 0 <= k < |r.bindings| && r.bindings[k].uuid == u;
        assert uuids[k] == u;
      }
    }
  }

  method CheckBinding(request: Request, manifestUuids: set<Uuid>, seen: set<Uuid>, binding: Binding)
    returns (error: Option<string>)
    requires manifestUuids == set u | u in Uuids(request.manifest.gpus)
    ensures error.None? <==> BindingOk(request, binding) && binding.uuid !in seen
    ensures error.Some? ==> error.value != ""
    ensures error.None? ==> binding.uuid in manifestUuids
  {
    if !ValidUuid(binding.uuid) {
      return Some("gpu_binding_rejected");
    }
    if binding.uuid in seen {
      return Some("gpu_binding_rejected");
    }
    if binding.uuid !in manifestUuids {
      return Some("gpu_binding_rejected");
    }
    if binding.cudaToolkit != request.manifest.artifact.cudaToolkit {
      return Some("toolkit_rejected");
    }
    if binding.cdiDevice != CdiName(binding.uuid) {
      return Some("gpu_binding_rejected");
    }
    return None;
  }

  method CollectUuids(gpus: seq<Device>) returns (r: set<Uuid>)
    ensures r == set u | u in Uuids(gpus)
  {
    r := {};
    for i := 0 to |gpus|
      invariant r == set u | u in Uuids(gpus)[..i]
    {
      r := r + {gpus[i].uuid};
    }
    assert Uuids(gpus)[..|gpus|] == Uuids(gpus);
  }

  lemma BindingsOkIsEachOk(r: Request)
    requires BindingsOk(r)
    ensures EachBindingOk(r, |r.bindings|)
  {
    var a := BoundUuids(r.bindings);
    DistinctFromMultiset(Uuids(r.manifest.gpus), a);
    forall j, k | 0 <= j < k < |a| ensures r.bindings[j].uuid != r.bindings[k].uuid {
      assert a[j] != a[k];
    }
    assert forall k :: 0 <= k < |r.bindings| ==> r.bindings[k] in r.bindings;
  }

  /** Distinct bindings inside the manifest that are as many as its GPUs are a rearrangement of them. */
  lemma SameCountIsPermutation(r: Request, seen: set<Uuid>, all: set<Uuid>)
    requires Acceptable(r.manifest)
    requires seen == set u | u in BoundUuids(r.bindings)
    requires |seen| == |r.bindings| && all == set u | u in Uuids(r.manifest.gpus)
    requires forall j, k :: 0 <= j < k < |r.bindings| ==> r.bindings[j].uuid != r.bindings[k].uuid
    requires seen <= all
    ensures |seen| == |all| <==> multiset(BoundUuids(r.bindings)) == multiset(Uuids(r.manifest.gpus))
  {
    var a, m := BoundUuids(r.bindings), Uuids(r.manifest.gpus);
    assert Distinct(a) && forall u :: u in a <==> u in seen;
    if |seen| == |all| {
      SubsetOfSameSize(seen, all);
      assert forall u :: u in m <==> u in all;
      DistinctSameSetIsPermutation(a, m);
    }
    if multiset(a) == multiset(m) {
      SameMembers(a, m);
      assert seen == all;
    }
  }

  lemma {:induction false} SubsetOfSameSize<T>(a: set<T>, b: set<T>)
    requires a <= b && |a| == |b|
    ensures a == b
    decreases |b|
  {
    if a != {} {
      var x :| x in a;
      SubsetOfSameSize(a - {x}, b - {x});
      assert a == (a - {x}) + {x} && b == (b - {x}) + {x};
    }
  }

  /** The same without multisets: as many bindings as the manifest has GPUs, no two for one GPU, and each for a GPU of
      the manifest, with the artifact's toolkit and the CDI device named after the GPU. */
  lemma BindingsOkExactly(r: Request)
    ensures BindingsOk(r) <==>
            && r.bindings != [] && |r.bindings| == |r.manifest.gpus|
            && !Blank(r.manifest.artifact.cudaToolkit) && Acceptable(r.manifest)
            && (forall j, k :: 0 <= j < k < |r.bindings| ==> r.bindings[j].uuid != r.bindings[k].uuid)
            && (forall b :: b in r.bindings ==>
                  && b.uuid in Uuids(r.manifest.gpus) && b.cudaToolkit == r.manifest.artifact.cudaToolkit
                  && b.cdiDevice == "nvidia.com/gpu=" + b.uuid)
  {
    var a, m := BoundUuids(r.bindings), Uuids(r.manifest.gpus);
    assert |multiset(a)| == |a| && |multiset(m)| == |m|;
    if BindingsOk(r) {
      BindingsOkIsEachOk(r);
    } else if
      && r.bindings != [] && |r.bindings| == |r.manifest.gpus|
      && !Blank(r.manifest.artifact.cudaToolkit) && Acceptable(r.manifest)
      && (forall j, k :: 0 <= j < k < |r.bindings| ==> r.bindings[j].uuid != r.bindings[k].uuid)
      && (forall b :: b in r.bindings ==>
            && b.uuid in Uuids(r.manifest.gpus) && b.cudaToolkit == r.manifest.artifact.cudaToolkit
            && b.cdiDevice == "nvidia.com/gpu=" + b.uuid)
    {
      BindingsCover(r);
    }
  }

  lemma BindingsCover(r: Request)
    requires |r.bindings| == |r.manifest.gpus| && Acceptable(r.manifest)
    requires forall j, k :: 0 <= j < k < |r.bindings| ==> r.bindings[j].uuid != r.bindings[k].uuid
    requires forall b :: b in r.bindings ==> b.uuid in Uuids(r.manifest.gpus)
    ensures multiset(BoundUuids(r.bindings)) == multiset(Uuids(r.manifest.gpus))
    ensures forall b :: b in r.bindings ==> ValidUuid(b.uuid)
  {
    var a, m := BoundUuids(r.bindings), Uuids(r.manifest.gpus);
    forall u | u in a ensures u in m {
      var k :| 0 <= k < |a| && a[k] == u;
      assert r.bindings[k] in r.bindings;
    }
    SameLengthIsPermutation(a, m);
    forall b | b in r.bindings ensures ValidUuid(b.uuid) {
      var i :| 0 <= i < |m| && m[i] == b.uuid;
      assert ValidUuid(r.manifest.gpus[i].uuid);
    }
  }

  lemma SameLengthIsPermutation(a: seq<Uuid>, m: seq<Uuid>)
    requires Distinct(a) && Distinct(m) && |a| == |m| && forall u :: u in a ==> u in m
    ensures multiset(a) == multiset(m)
  {
    DistinctSize(a);
    DistinctSize(m);
    var x, y := set u | u in a, set u | u in m;
    SubsetOfSameSize(x, y);
    forall u ensures u in a <==> u in m {
      assert u in a <==> u in x;
      assert u in m <==> u in y;
    }
    DistinctSameSetIsPermutation(a, m);
  }

  lemma {:induction false} DistinctSize(s: seq<Uuid>)
    requires Distinct(s)
    ensures |set u | u in s| == |s|
  {
    if s != [] {
      var n := |s| - 1;
      DistinctSize(s[..n]);
      assert (set u | u in s) == (set u | u in s[..n]) + {s[n]};
    }
  }

  /** `validate`, with the checks in the order of the source. */
  method Validate(request: Request, ttl: int) returns (error: Option<string>)
    ensures error.None? <==> Accepted(request, ttl)
  {
    error := CheckAddress(request.envelope);
    if error.Some? {
      return;
    }
    if !IsDigest(request.manifestSha256) {
      return Some("invalid_manifest_digest");
    }
    error := CheckEquipment(request.envelope);
    if error.Some? {
      return;
    }
    error := ValidateLimits(request, ttl);
    if error.Some? {
      return;
    }
    if request.lockInvocation == [] {
      return Some("invalid_request");
    }
    error := ValidateGpuBindings(request);
  }

  ghost predicate Accepted(r: Request, ttl: int) {
    && WellAddressed(r.envelope) && WellEquipped(r.envelope) && r.lockInvocation != []
    && IsDigest(r.manifestSha256)
    && LimitsOk(r, ttl)
    && BindingsOk(r)
  }

  /** What an accepted request looks like, in words and numbers. */
  lemma AcceptedInWords(r: Request, ttl: int)
    requires Accepted(r, ttl)
    ensures r.envelope.backend == "podman" && r.envelope.version == "nanovms.io/evaluation-action/v1"
    ensures r.envelope.engineToken == "docker" && r.manifest.version == "nanovms.io/resources/v1"
    ensures |r.envelope.podmanPipe| > 17 && r.envelope.podmanPipe[..17] == "npipe:////./pipe/"
    ensures |r.manifestSha256| == 64 && forall i :: 0 <= i < 64 ==>
              var c := r.manifestSha256[i]; '0' <= c <= '9' || 'a' <= c <= 'f' || 'A' <= c <= 'F'
    ensures r.bindings != [] && r.lockInvocation != []
    ensures forall b :: b in r.bindings ==>
              && b.cdiDevice == "nvidia.com/gpu=" + b.uuid && b.cudaToolkit == r.manifest.artifact.cudaToolkit
              && (exists i :: 0 <= i < |r.manifest.gpus| && r.manifest.gpus[i].uuid == b.uuid)
  {
    forall b | b in r.bindings ensures exists i :: 0 <= i < |r.manifest.gpus| && r.manifest.gpus[i].uuid == b.uuid {
      assert BindingOk(r, b);
      var i :| 0 <= i < |Uuids(r.manifest.gpus)| && Uuids(r.manifest.gpus)[i] == b.uuid;
      assert r.manifest.gpus[i].uuid == b.uuid;
    }
  }

  /** Any 64 hexadecimal digits are a digest. */
  lemma DigestExactly(s: string)
    ensures IsDigest(s) <==>
            |s| == 64 && forall i :: 0 <= i < 64 ==> '0' <= s[i] <= '9' || 'a' <= s[i] <= 'f' || 'A' <= s[i] <= 'F'
  {
  }

  method RequestedUuids(bindings: seq<Binding>) returns (r: seq<Uuid>)
    ensures multiset(r) == multiset(BoundUuids(bindings)) && Ordered(StringLess, r)
  {
    r := [];
    for i := 0 to |bindings|
      invariant r == BoundUuids(bindings)[..i]
    {
      r := r + [bindings[i].uuid];
    }
    assert BoundUuids(bindings)[..|bindings|] == BoundUuids(bindings);
    StringLessIsStrictWeak();
    r := SortSlice(StringLess, r);
  }

  // ----- acceptance against the store's own argument checks -----

  /** The product does not leave the 64-bit range. */
  predicate NoWrap(millis: int) { millis * MILLISECOND <= MAX_INT64 }

  /** The owner and the GPUs of an accepted request always pass `Reserve`'s checks, so only the TTL can
      fail them. */
  lemma AcceptedArguments(r: Request, ttl: int, uuids: seq<Uuid>)
    requires Accepted(r, ttl) && multiset(uuids) == multiset(BoundUuids(r.bindings))
    ensures ArgumentsOk(Reserve(uuids, r.manifestSha256, ttl)) <==> ttl > 0
    ensures multiset(uuids) == multiset(Uuids(r.manifest.gpus))
  {
    var m := Uuids(r.manifest.gpus);
    SameMembers(uuids, m);
    DistinctFromMultiset(m, uuids);
    assert |multiset(uuids)| == |uuids| && |multiset(m)| == |m|;
    forall u | u in uuids ensures ValidUuid(u) {
      var i :| 0 <= i < |m| && m[i] == u;
      assert ValidUuid(r.manifest.gpus[i].uuid);
    }
  }

  /** Acceptance guarantees a positive TTL exactly when the computed timeout is above minus one minute;
      that covers every timeout whose product does not wrap. */
  lemma PositiveTtlGuaranteed(r: Request)
    requires r.timeoutMillis > 0 && Timeout(r.timeoutMillis) <= MAX_EVALUATION_TIMEOUT
    requires 0 < r.maxOutputBytes <= MAX_EVALUATION_OUTPUT
    ensures (forall ttl :: LimitsOk(r, ttl) ==> ttl > 0) <==> Timeout(r.timeoutMillis) > -RESERVATION_SKEW
    ensures NoWrap(r.timeoutMillis) ==> Timeout(r.timeoutMillis) == r.timeoutMillis * MILLISECOND > 0
  {
    if Timeout(r.timeoutMillis) <= -RESERVATION_SKEW {
      assert LimitsOk(r, 0);
    }
  }

  /** The limits in numbers, as long as the product does not wrap: up to a day in milliseconds, up to 16 MiB, and a TTL
      in nanoseconds from a minute more than the timeout, or a day, up to a day. */
  lemma LimitsInNumbers(r: Request, ttl: int)
    requires NoWrap(r.timeoutMillis)
    ensures LimitsOk(r, ttl) <==>
            && 0 < r.timeoutMillis <= 86_400_000 && 0 < r.maxOutputBytes <= 16_777_216
            && ttl <= 86_400_000_000_000
            && (r.timeoutMillis * 1_000_000 + 60_000_000_000 <= ttl || ttl == 86_400_000_000_000)
  {
    if r.timeoutMillis > 0 {
      assert Timeout(r.timeoutMillis) == r.timeoutMillis * 1_000_000;
    }
  }

  /** An acceptable TTL always covers the timeout asked for exactly if the product does not wrap. */
  lemma TtlCoversTimeoutExactly(r: Request)
    requires r.timeoutMillis > 0 && Timeout(r.timeoutMillis) <= MAX_EVALUATION_TIMEOUT
    requires 0 < r.maxOutputBytes <= MAX_EVALUATION_OUTPUT
    ensures (forall ttl :: LimitsOk(r, ttl) ==> r.timeoutMillis * MILLISECOND <= ttl) <==> NoWrap(r.timeoutMillis)
  {
    assert LimitsOk(r, MinimumTtl(r.timeoutMillis)) || MinimumTtl(r.timeoutMillis) > MAX_EVALUATION_TIMEOUT;
    assert MAX_EVALUATION_TIMEOUT < MAX_INT64;
  }

  /** A timeout that wraps far enough is positive again: centuries pass as half a millisecond, with a TTL that the
      store takes. */
  lemma WrappedTimeoutIsShort(r: Request)
    requires r.timeoutMillis == 18_446_744_073_710 && 0 < r.maxOutputBytes <= MAX_EVALUATION_OUTPUT
    ensures !NoWrap(r.timeoutMillis) && Timeout(r.timeoutMillis) == 448_384
    ensures LimitsOk(r, 61 * SECOND) && 61 * SECOND < r.timeoutMillis * MILLISECOND
  {
    assert r.timeoutMillis * MILLISECOND == 18_446_744_073_710_000_000;
    assert Timeout(r.timeoutMillis) == 18_446_744_073_710_000_000 - INT64_RANGE;
  }

  /** A timeout that wraps is accepted with a TTL the store then refuses. */
  lemma WrappedTimeoutIsAccepted(r: Request)
    requires r.timeoutMillis == 9_223_372_036_855 && 0 < r.maxOutputBytes <= MAX_EVALUATION_OUTPUT
    ensures !NoWrap(r.timeoutMillis) && LimitsOk(r, 0)
    ensures !ArgumentsOk(Reserve(Uuids(r.manifest.gpus), r.manifestSha256, 0))
  {
    assert r.timeoutMillis * MILLISECOND == 9_223_372_036_855_000_000;
    assert Timeout(r.timeoutMillis) == 9_223_372_036_855_000_000 - INT64_RANGE;
  }

  /** Lines 248-252: the owner and the GPUs of an accepted request always suit the store; if the lock, the file, the
      random source and the write all work, the only ways to fail are a TTL that is not positive, which takes a
      timeout that wraps, and a GPU that is reserved by someone at that moment. */
  method AcquireLease(store: ReservationStore, request: Request, ttl: int, env: Surroundings) returns (r: Option<Lease>)
    requires Accepted(request, ttl) && store.path != ""
    modifies store
    ensures r.Some? ==>
              && multiset(r.value.uuids) == multiset(Uuids(request.manifest.gpus))
              && r.value.owner == request.manifestSha256 && r.value.expiresAt == env.now + ttl
    ensures r.None? ==> store.file == old(store.file)
    ensures env.locked && env.token.Some? && env.written && !old(store.file).Unreadable? ==>
              (r.None? <==>
               ttl <= 0 || exists d :: d in request.manifest.gpus && d.uuid in Live(Contents(old(store.file)), env.now))
    ensures ttl <= 0 ==> r.None? && !NoWrap(request.timeoutMillis)
  {
    PositiveTtlGuaranteed(request);
    var uuids := RequestedUuids(request.bindings);
    AcceptedArguments(request, ttl, uuids);
    r := store.Reserve(uuids, request.manifestSha256, ttl, env);
    FreeMeansManifestFree(request, uuids, Live(Contents(old(store.file)), env.now));
  }

  lemma FreeMeansManifestFree(r: Request, uuids: seq<Uuid>, live: Reservations)
    requires multiset(uuids) == multiset(Uuids(r.manifest.gpus))
    ensures !AllFree(live, uuids) <==> exists d :: d in r.manifest.gpus && d.uuid in live
  {
    var m := Uuids(r.manifest.gpus);
    SameMembers(uuids, m);
    if !AllFree(live, uuids) {
      var u :| u in uuids && u in live;
      var i :| 0 <= i < |m| && m[i] == u;
      assert r.manifest.gpus[i] in r.manifest.gpus;
    }
    if d :| d in r.manifest.gpus && d.uuid in live {
      var i :| 0 <= i < |m| && r.manifest.gpus[i] == d;
      assert m[i] in m;
    }
  }
}
