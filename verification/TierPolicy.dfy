/** `DefaultPolicy.Select` (pkg/tier/policy.go:100-173, 181-186, 234-241) over any tier table, any registry and any
    preference list. */
module TierPolicy {
  import opened GpuIdentity
  import opened Ordering

  datatype TierInfo = TierInfo(name: string, startupMs: int, platforms: seq<string>)

  /** The last row of each name wins. */
  function ByName(table: seq<TierInfo>): map<string, TierInfo> {
    if table == [] then map[] else ByName(table[..|table| - 1])[table[|table| - 1].name := table[|table| - 1]]
  }

  predicate PlatformMatches(platforms: seq<string>, platform: string) {
    platforms == [] || platform in platforms
  }

  /** In the list, in the table, registered, and fit for the platform. */
  ghost predicate Eligible(table: seq<TierInfo>, order: seq<string>, registry: set<string>, platform: string, t: TierInfo) {
    exists i :: 0 <= i < |order| && order[i] in ByName(table) && ByName(table)[order[i]] == t
                && t.name in registry && PlatformMatches(t.platforms, platform)
  }

  predicate TierLess(a: TierInfo, b: TierInfo) {
    if a.startupMs != b.startupMs then a.startupMs < b.startupMs else StringLess(a.name, b.name)
  }

  /** What a selection promises: the least eligible tier by startup time and name, or nothing when there is none
      or when none fits a positive budget. */
  ghost predicate Selects(eligible: iset<TierInfo>, budget: int, r: Option<string>) {
    match r
    case Some(name) => exists t :: Least(eligible, t) && t.name == name && (budget > 0 ==> t.startupMs <= budget)
    case None => forall t :: t in eligible ==> budget > 0 && t.startupMs > budget
  }

  ghost predicate Least(s: iset<TierInfo>, t: TierInfo) {
    t in s && forall u :: u in s ==> !TierLess(u, t)
  }

  ghost function EligibleSet(table: seq<TierInfo>, order: seq<string>, registry: set<string>, platform: string): iset<TierInfo> {
    iset t | Eligible(table, order, registry, platform, t)
  }

  // ----- the code -----

  /** A name is known exactly if some row has it. */
  lemma {:induction false} KnownNames(table: seq<TierInfo>, name: string)
    ensures name in ByName(table) <==> exists i :: 0 <= i < |table| && table[i].name == name
  {
    if table != [] {
      var n := |table| - 1;
      KnownNames(table[..n], name);
      assert forall i :: 0 <= i < n ==> table[..n][i] == table[i];
    }
  }

  /** It stands for the last row that has it. */
  lemma {:induction false} LastRowCounts(table: seq<TierInfo>, k: nat)
    requires k < |table| && forall j :: k < j < |table| ==> table[j].name != table[k].name
    ensures table[k].name in ByName(table) && ByName(table)[table[k].name] == table[k]
    decreases |table|
  {
    var n := |table| - 1;
    if k < n {
      LastRowCounts(table[..n], k);
    }
  }

  method Index(table: seq<TierInfo>) returns (byName: map<string, TierInfo>)
    ensures byName == ByName(table)
  {
    byName := map[];
    for i := 0 to |table|
      invariant byName == ByName(table[..i])
    {
      assert table[..i + 1][..i] == table[..i];
      byName := byName[table[i].name := table[i]];
    }
    assert table[..|table|] == table;
  }

  /** The candidates of `defaultCandidates` that pass the registry and platform filter. */
  method Filter(table: seq<TierInfo>, order: seq<string>, registry: set<string>, platform: string) returns (r: seq<TierInfo>)
    ensures forall t :: t in r <==> Eligible(table, order, registry, platform, t)
    ensures forall t :: t in r ==> t.name in registry && (t.platforms == [] || platform in t.platforms)
    ensures forall n :: (n in order && n in ByName(table) && ByName(table)[n].name in registry
                         && (ByName(table)[n].platforms == [] || platform in ByName(table)[n].platforms)) ==>
              ByName(table)[n] in r
  {
    var byName := Index(table);
    r := [];
    for i := 0 to |order|
      invariant forall t :: t in r <==> Eligible(table, order[..i], registry, platform, t)
    {
      EligibleExtended(table, order, i, registry, platform);
      if order[i] in byName {
        var c := byName[order[i]];
        if c.name in registry && PlatformMatches(c.platforms, platform) {
          r := r + [c];
        }
      }
    }
    assert order[..|order|] == order;
  }

  lemma EligibleExtended(table: seq<TierInfo>, order: seq<string>, i: nat, registry: set<string>, platform: string)
    requires i < |order|
    ensures forall t :: Eligible(table, order[..i + 1], registry, platform, t) <==>
              || Eligible(table, order[..i], registry, platform, t)
              || (order[i] in ByName(table) && ByName(table)[order[i]] == t
                  && t.name in registry && PlatformMatches(t.platforms, platform))
  {
    var a, b := order[..i], order[..i + 1];
    assert forall k :: 0 <= k < i ==> a[k] == b[k];
    assert b[i] == order[i];
  }

  method Within(s: seq<TierInfo>, budget: int) returns (r: seq<TierInfo>)
    ensures forall t :: t in r <==> t in s && t.startupMs <= budget
  {
    r := [];
    for i := 0 to |s|
      invariant forall t :: t in r <==> t in s[..i] && t.startupMs <= budget
    {
      assert s[..i + 1] == s[..i] + [s[i]];
      if s[i].startupMs <= budget {
        r := r + [s[i]];
      }
    }
    assert s[..|s|] == s;
  }

  method Select(table: seq<TierInfo>, order: seq<string>, registry: set<string>, platform: string, budget: int)
    returns (r: Option<string>)
    ensures Selects(EligibleSet(table, order, registry, if platform == "" then "linux" else platform), budget, r)
  {
    var host := if platform == "" then "linux" else platform;
    var filtered := Filter(table, order, registry, host);
    if |filtered| == 0 {
      return None;
    }
    if budget > 0 {
      var within := Within(filtered, budget);
      if |within| == 0 {
        return None;
      }
      FastestFitsBudget(filtered, within, budget);
      filtered := within;
    }
    TierLessIsStrictWeak();
    var sorted := SortSlice(TierLess, filtered);
    SameMembers(sorted, filtered);
    assert |multiset(sorted)| == |sorted| && |multiset(filtered)| == |filtered|;
    assert sorted[0] in sorted;
    assert forall u :: u in sorted ==> !TierLess(u, sorted[0]) by {
      TierLessIsAsymmetric(sorted[0], sorted[0]);
    }
    assert Least(EligibleSet(table, order, registry, host), sorted[0]);
    return Some(sorted[0].name);
  }

  /** Whatever is cut off by a budget is slower than whatever is kept. */
  lemma FastestFitsBudget(all: seq<TierInfo>, within: seq<TierInfo>, budget: int)
    requires forall t :: t in within <==> t in all && t.startupMs <= budget
    ensures forall t, u :: t in within && u in all && u !in within ==> !TierLess(u, t)
  {
  }

  lemma TierLessIsAsymmetric(a: TierInfo, b: TierInfo)
    ensures TierLess(a, b) ==> !TierLess(b, a)
  {
    StringLessIsAsymmetric(a.name, b.name);
  }

  lemma TierLessIsStrictWeak()
    ensures StrictWeakOrder(TierLess)
  {
    forall a, b ensures TierLess(a, b) ==> !TierLess(b, a) {
      TierLessIsAsymmetric(a, b);
    }
    forall a, b, c | !TierLess(b, a) && !TierLess(c, b) ensures !TierLess(c, a) {
      StringLessIsStrictWeak();
      if a.startupMs == c.startupMs {
        assert !StringLess(b.name, a.name) && !StringLess(c.name, b.name);
      }
    }
  }

  // ----- what follows -----

  /** The least tier starts no later than any other, and comes first by name among those that start as fast. */
  lemma LeastIsFirstByTimeThenName(s: iset<TierInfo>, t: TierInfo, u: TierInfo)
    requires Least(s, t) && u in s
    ensures t.startupMs <= u.startupMs
    ensures t.startupMs == u.startupMs ==> t.name == u.name || StringLess(t.name, u.name)
  {
    StringLessIsTotal(t.name, u.name);
  }

  lemma LeastIsUnique(s: iset<TierInfo>, t: TierInfo, u: TierInfo)
    requires Least(s, t) && Least(s, u)
    ensures t.name == u.name && t.startupMs == u.startupMs
  {
    StringLessIsTotal(t.name, u.name);
  }

  /** A budget never changes the choice, it only turns success into an error: the choice under a budget is the
      choice without one, and it is made exactly when that choice fits. */
  lemma BudgetOnlyRejects(eligible: iset<TierInfo>, budget: int, free: Option<string>, bound: Option<string>, t: TierInfo)
    requires budget > 0 && Selects(eligible, 0, free) && Selects(eligible, budget, bound)
    requires free.Some? ==> Least(eligible, t)
    ensures bound.Some? ==> bound == free
    ensures bound.Some? <==> free.Some? && t.startupMs <= budget
  {
    if bound.Some? {
      var u :| Least(eligible, u) && u.name == bound.value && u.startupMs <= budget;
      if free.Some? {
        var v :| Least(eligible, v) && v.name == free.value;
        LeastIsUnique(eligible, u, v);
        LeastIsUnique(eligible, u, t);
      }
    }
  }

  /** A larger registry never yields a later tier. */
  lemma LargerRegistryNeverLater(
    table: seq<TierInfo>, order: seq<string>, small: set<string>, large: set<string>, platform: string, t: TierInfo, u: TierInfo)
    requires small <= large
    requires Least(EligibleSet(table, order, small, platform), t) && Least(EligibleSet(table, order, large, platform), u)
    ensures !TierLess(t, u)
  {
    var i :| 0 <= i < |order| && order[i] in ByName(table) && ByName(table)[order[i]] == t
             && t.name in small && PlatformMatches(t.platforms, platform);
    assert t in EligibleSet(table, order, large, platform);
  }

  /** The preference list is used as a set: its order and its repetitions have no effect. */
  lemma ListOrderIsIrrelevant(
    table: seq<TierInfo>, a: seq<string>, b: seq<string>, registry: set<string>, platform: string, budget: int,
    ra: Option<string>, rb: Option<string>)
    requires forall n :: n in a <==> n in b
    requires Selects(EligibleSet(table, a, registry, platform), budget, ra)
    requires Selects(EligibleSet(table, b, registry, platform), budget, rb)
    ensures ra == rb
  {
    var ea, eb := EligibleSet(table, a, registry, platform), EligibleSet(table, b, registry, platform);
    forall t ensures t in ea <==> t in eb {
      EligibleByMembership(table, a, registry, platform, t);
      EligibleByMembership(table, b, registry, platform, t);
    }
    assert ea == eb;
    if ra.Some? && rb.Some? {
      var t :| Least(ea, t) && t.name == ra.value;
      var u :| Least(ea, u) && u.name == rb.value;
      LeastIsUnique(ea, t, u);
    }
  }

  lemma EligibleByMembership(table: seq<TierInfo>, order: seq<string>, registry: set<string>, platform: string, t: TierInfo)
    ensures Eligible(table, order, registry, platform, t) <==>
            exists n :: n in order && n in ByName(table) && ByName(table)[n] == t
                        && t.name in registry && PlatformMatches(t.platforms, platform)
  {
    if n :| n in order && n in ByName(table) && ByName(table)[n] == t
            && t.name in registry && PlatformMatches(t.platforms, platform)
    {
      var i :| 0 <= i < |order| && order[i] == n;
      assert order[i] in ByName(table) && ByName(table)[order[i]] == t;
    }
  }
}
