/** Resolving the CUDA toolkit (pkg/orchestrate/evaluation_inspector.go:195-257, 399-418). */
module Toolkit {
  import opened GpuIdentity

  /** What inspecting a root brings: an error that ends everything, no usable compiler, or its version. */
  datatype Probe = Broken(code: Code) | Unavailable | Reports(version: string)

  datatype Code = Ambiguous | VersionMismatch | NotFound | Other(id: nat)

  /** A group of candidate roots, and what probing them finds when this group's turn comes. */
  datatype Group = Group(roots: seq<string>, authoritative: bool, probe: string -> Probe)

  datatype Outcome = Resolved(root: string, version: string) | Failed(code: Code)

  /** The platform: `trim` is TrimSpace, `key` says which roots are the same. */
  datatype Host = Host(trim: string -> string, key: string -> string)

  // ----- uniqueNonempty -----

  ghost predicate HasKey(h: Host, s: seq<string>, k: string) { exists i :: 0 <= i < |s| && h.key(s[i]) == k }

  /** The trimmed non-empty values, the first of each key. */
  ghost function Unique(h: Host, values: seq<string>): seq<string> {
    if values == [] then []
    else
      var front := Unique(h, values[..|values| - 1]);
      var v := h.trim(values[|values| - 1]);
      if v == "" || HasKey(h, front, h.key(v)) then front else front + [v]
  }

  method UniqueNonempty(h: Host, values: seq<string>) returns (r: seq<string>)
    ensures r == Unique(h, values)
  {
    var seen: set<string> := {};
    r := [];
    for i := 0 to |values|
      invariant r == Unique(h, values[..i])
      invariant forall k :: k in seen <==> HasKey(h, r, k)
    {
      assert values[..i + 1][..i] == values[..i];
      var value := h.trim(values[i]);
      if value == "" {
        continue;
      }
      var key := h.key(value);
      if key in seen {
        continue;
      }
      KeysExtended(h, r, value);
      seen := seen + {key};
      r := r + [value];
    }
    assert values[..|values|] == values;
  }

  lemma KeysExtended(h: Host, s: seq<string>, v: string)
    ensures forall k :: HasKey(h, s + [v], k) <==> HasKey(h, s, k) || k == h.key(v)
  {
    forall k ensures HasKey(h, s + [v], k) <==> HasKey(h, s, k) || k == h.key(v) {
      assert (s + [v])[|s|] == v;
      if HasKey(h, s, k) {
        var i :| 0 <= i < |s| && h.key(s[i]) == k;
        assert h.key((s + [v])[i]) == k;
      }
      if HasKey(h, s + [v], k) && k != h.key(v) {
        var i :| 0 <= i < |s + [v]| && h.key((s + [v])[i]) == k;
        assert h.key(s[i]) == k;
      }
    }
  }

  /** No two roots kept are the same, none is empty, and every non-empty root is represented. */
  lemma {:induction false} UniqueIsDistinctAndComplete(h: Host, values: seq<string>)
    ensures forall i, j :: 0 <= i < j < |Unique(h, values)| ==> h.key(Unique(h, values)[i]) != h.key(Unique(h, values)[j])
    ensures forall i :: 0 <= i < |Unique(h, values)| ==> Unique(h, values)[i] != ""
    ensures forall i :: 0 <= i < |values| && h.trim(values[i]) != "" ==> HasKey(h, Unique(h, values), h.key(h.trim(values[i])))
    ensures Unique(h, values) == [] <==> forall i :: 0 <= i < |values| ==> h.trim(values[i]) == ""
    decreases |values|
  {
    if values != [] {
      var n := |values| - 1;
      UniqueIsDistinctAndComplete(h, values[..n]);
      var front, v := Unique(h, values[..n]), h.trim(values[n]);
      KeysExtended(h, front, v);
      assert forall i :: 0 <= i < n ==> values[..n][i] == values[i];
      assert v != "" ==> HasKey(h, Unique(h, values), h.key(v));
    }
  }

  /** Every root kept is one of those given, trimmed, and the first of them that is the same. */
  lemma {:induction false} UniqueIsFirstOfEach(h: Host, values: seq<string>, r: string) returns (i: nat)
    requires r in Unique(h, values)
    ensures i < |values| && r == h.trim(values[i])
    ensures forall j :: 0 <= j < i && h.trim(values[j]) != "" ==> h.key(h.trim(values[j])) != h.key(r)
    decreases |values|
  {
    var n := |values| - 1;
    var front := Unique(h, values[..n]);
    if r in front {
      i := UniqueIsFirstOfEach(h, values[..n], r);
    } else {
      i := n;
      UniqueIsDistinctAndComplete(h, values[..n]);
    }
  }

  // ----- one group -----

  /** The roots that report the requested version. */
  function Matching(probe: string -> Probe, roots: seq<string>, requested: string): seq<string> {
    if roots == [] then []
    else Matching(probe, roots[..|roots| - 1], requested) +
         if probe(roots[|roots| - 1]) == Reports(requested) then [roots[|roots| - 1]] else []
  }

  ghost predicate AnyBroken(probe: string -> Probe, roots: seq<string>) {
    exists i :: 0 <= i < |roots| && probe(roots[i]).Broken?
  }

  /** `code` is the error of the first root that has one. */
  ghost predicate FirstBroken(probe: string -> Probe, roots: seq<string>, code: Code) {
    exists i :: 0 <= i < |roots| && probe(roots[i]) == Broken(code) && forall k :: 0 <= k < i ==> !probe(roots[k]).Broken?
  }

  ghost predicate AnyMismatch(probe: string -> Probe, roots: seq<string>, requested: string) {
    exists i :: 0 <= i < |roots| && probe(roots[i]).Reports? && probe(roots[i]).version != requested
  }

  /** The inner loop: probes the roots in order, stopping at an error. */
  method ProbeGroup(probe: string -> Probe, roots: seq<string>, requested: string)
    returns (broken: Option<Code>, matches: seq<string>, mismatch: bool, unavailable: bool)
    ensures broken.Some? <==> AnyBroken(probe, roots)
    ensures broken.Some? ==> FirstBroken(probe, roots, broken.value)
    ensures broken.None? ==> matches == Matching(probe, roots, requested)
    ensures broken.None? ==> (mismatch <==> AnyMismatch(probe, roots, requested))
    ensures broken.None? && roots != [] ==> matches != [] || mismatch || unavailable
  {
    broken, matches, mismatch, unavailable := None, [], false, false;
    for i := 0 to |roots|
      invariant forall k :: 0 <= k < i ==> !probe(roots[k]).Broken?
      invariant matches == Matching(probe, roots[..i], requested)
      invariant mismatch <==> exists k :: 0 <= k < i && probe(roots[k]).Reports? && probe(roots[k]).version != requested
      invariant i > 0 ==> matches != [] || mismatch || unavailable
    {
      assert roots[..i + 1][..i] == roots[..i];
      match probe(roots[i]) {
        case Broken(code) => return Some(code), matches, mismatch, unavailable;
        case Unavailable => unavailable := true;
        case Reports(v) =>
          if v != requested {
            mismatch := true;
          } else {
            matches := matches + [roots[i]];
          }
      }
    }
    assert roots[..|roots|] == roots;
  }

  lemma {:induction false} MatchingIsExact(probe: string -> Probe, roots: seq<string>, requested: string)
    ensures forall r :: r in Matching(probe, roots, requested) <==> r in roots && probe(r) == Reports(requested)
  {
    if roots != [] {
      var n := |roots| - 1;
      MatchingIsExact(probe, roots[..n], requested);
      assert roots == roots[..n] + [roots[n]];
    }
  }

  lemma {:induction false} NothingMatches(probe: string -> Probe, roots: seq<string>, requested: string)
    requires forall i :: 0 <= i < |roots| ==> !probe(roots[i]).Broken? && probe(roots[i]) != Reports(requested)
    ensures Matching(probe, roots, requested) == [] && !AnyBroken(probe, roots)
  {
    if roots != [] {
      NothingMatches(probe, roots[..|roots| - 1], requested);
    }
  }

  // ----- all groups -----

  ghost function Matches(h: Host, g: Group, requested: string): seq<string> {
    Matching(g.probe, Unique(h, g.roots), requested)
  }

  /** The group settles the matter, one way or the other: an error, a match, or nothing but it is authoritative. */
  ghost predicate Decides(h: Host, g: Group, requested: string) {
    || AnyBroken(g.probe, Unique(h, g.roots))
    || Matches(h, g, requested) != []
    || (g.authoritative && Unique(h, g.roots) != [])
  }

  ghost predicate Mismatched(h: Host, g: Group, requested: string) {
    AnyMismatch(g.probe, Unique(h, g.roots), requested)
  }

  ghost predicate MismatchedBy(h: Host, groups: seq<Group>, n: nat, requested: string)
    requires n <= |groups|
  {
    exists k :: 0 <= k < n && Mismatched(h, groups[k], requested)
  }

  /** What the last group probed makes of the request, given whether any other version was seen by then. */
  ghost predicate Verdict(h: Host, g: Group, requested: string, mismatched: bool, out: Outcome) {
    var roots, matches := Unique(h, g.roots), Matches(h, g, requested);
    if AnyBroken(g.probe, roots) then out.Failed? && FirstBroken(g.probe, roots, out.code)
    else if |matches| == 1 then out == Resolved(matches[0], requested)
    else if |matches| > 1 then out == Failed(Ambiguous)
    else out == Failed(if mismatched then VersionMismatch else NotFound)
  }

  /** The outer loop; `probed` counts the groups looked at. The first group that settles the matter is the last
      one probed, and the outcome is that group's verdict. */
  method ResolveToolkit(h: Host, groups: seq<Group>, requested: string) returns (out: Outcome, probed: nat)
    ensures probed <= |groups| && (probed == 0 <==> requested == "" || groups == [])
    ensures forall g :: 0 <= g < probed - 1 ==> !Decides(h, groups[g], requested)
    ensures 0 < probed < |groups| ==> Decides(h, groups[probed - 1], requested)
    ensures probed > 0 ==> Verdict(h, groups[probed - 1], requested, MismatchedBy(h, groups, probed, requested), out)
    ensures probed == 0 ==> out == Failed(NotFound)
  {
    if requested == "" {
      return Failed(NotFound), 0;
    }
    var mismatches := false;
    for g := 0 to |groups|
      invariant forall k :: 0 <= k < g ==> !Decides(h, groups[k], requested)
      invariant mismatches == MismatchedBy(h, groups, g, requested)
    {
      var verdict;
      verdict, mismatches := DecideGroup(h, groups[g], requested, mismatches);
      if verdict.Some? {
        return verdict.value, g + 1;
      }
    }
    out, probed := Failed(if mismatches then VersionMismatch else NotFound), |groups|;
  }

  /** One round of the outer loop. */
  method DecideGroup(h: Host, group: Group, requested: string, before: bool) returns (out: Option<Outcome>, mismatches: bool)
    ensures out.Some? <==> Decides(h, group, requested)
    ensures out.Some? ==> Verdict(h, group, requested, before || Mismatched(h, group, requested), out.value)
    ensures out.None? ==> mismatches == (before || Mismatched(h, group, requested))
  {
    mismatches := before;
    var roots := UniqueNonempty(h, group.roots);
    if |roots| == 0 {
      return None, mismatches;
    }
    var broken, matches, mismatch, unavailable := ProbeGroup(group.probe, roots, requested);
    if broken.Some? {
      return Some(Failed(broken.value)), mismatches;
    }
    mismatches := mismatches || mismatch;
    if |matches| > 1 {
      return Some(Failed(Ambiguous)), mismatches;
    }
    if |matches| == 1 {
      return Some(Resolved(matches[0], requested)), mismatches;
    }
    if group.authoritative {
      if mismatches {
        return Some(Failed(VersionMismatch)), mismatches;
      }
      if unavailable {
        return Some(Failed(NotFound)), mismatches;
      }
    }
    return None, mismatches;
  }

  /** A single match is the only distinct root of its group that reports the requested version. */
  lemma SingleMatchIsTheOnlyOne(h: Host, g: Group, requested: string, root: string)
    requires Matches(h, g, requested) == [root]
    ensures g.probe(root) == Reports(requested) && root in Unique(h, g.roots)
    ensures forall r :: r in Unique(h, g.roots) && r != root ==> g.probe(r) != Reports(requested)
    ensures forall i, j :: 0 <= i < j < |Unique(h, g.roots)| ==> h.key(Unique(h, g.roots)[i]) != h.key(Unique(h, g.roots)[j])
  {
    MatchingIsExact(g.probe, Unique(h, g.roots), requested);
    UniqueIsDistinctAndComplete(h, g.roots);
    assert root in Matches(h, g, requested);
    forall r | r in Unique(h, g.roots) && r != root ensures g.probe(r) != Reports(requested) {
      assert r !in Matches(h, g, requested);
    }
  }

  /** A group in which no root fails or reports the requested version decides nothing, unless it is authoritative and
      has a root. */
  lemma OthersDecideNothing(h: Host, g: Group, requested: string)
    requires forall i :: 0 <= i < |Unique(h, g.roots)| ==>
               !g.probe(Unique(h, g.roots)[i]).Broken? && g.probe(Unique(h, g.roots)[i]) != Reports(requested)
    requires !g.authoritative || forall i :: 0 <= i < |g.roots| ==> h.trim(g.roots[i]) == ""
    ensures !Decides(h, g, requested)
  {
    NothingMatches(g.probe, Unique(h, g.roots), requested);
    if g.authoritative {
      UniqueIsDistinctAndComplete(h, g.roots);
    }
  }

  /** An authoritative group with any root that is not blank always decides: no later group is probed. */
  lemma AuthoritativeGroupDecides(h: Host, g: Group, requested: string, i: nat)
    requires g.authoritative && i < |g.roots| && h.trim(g.roots[i]) != ""
    ensures Decides(h, g, requested)
  {
    UniqueIsDistinctAndComplete(h, g.roots);
  }
}
