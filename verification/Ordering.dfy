/** The byte-wise string order of Go, the contract of `sort.Slice`, and the facts about
    sorted sequences that make the result of an unstable sort unique. */
module Ordering {

  /** Go's `a < b` on strings. */
  predicate StringLess(a: string, b: string)
    decreases |a|
  {
    b != [] && (a == [] || a[0] < b[0] || (a[0] == b[0] && StringLess(a[1..], b[1..])))
  }

  /** Up to `k` the strings are the same, and there `a` ends or has the smaller character. */
  predicate LessAt(a: string, b: string, k: int) {
    0 <= k <= |a| && k < |b| && a[..k] == b[..k] && (k == |a| || a[k] < b[k])
  }

  /** At the first difference the smaller character decides, and a proper prefix comes before what it is a prefix of. */
  lemma {:induction false} StringLessExactly(a: string, b: string)
    ensures StringLess(a, b) <==> exists k :: LessAt(a, b, k)
    decreases |a|
  {
    if a != [] && b != [] && a[0] == b[0] {
      StringLessExactly(a[1..], b[1..]);
      if k :| LessAt(a[1..], b[1..], k) {
        assert a[..k + 1] == [a[0]] + a[1..][..k] && b[..k + 1] == [b[0]] + b[1..][..k];
        assert LessAt(a, b, k + 1);
      }
      if k :| LessAt(a, b, k) {
        assert k > 0;
        assert a[1..][..k - 1] == a[..k][1..] && b[1..][..k - 1] == b[..k][1..];
        assert LessAt(a[1..], b[1..], k - 1);
      }
    } else {
      if StringLess(a, b) {
        assert LessAt(a, b, 0);
      }
      FirstCharacters(a, b);
    }
  }

  lemma FirstCharacters(a: string, b: string)
    ensures forall k :: LessAt(a, b, k) && k > 0 ==> a != [] && b != [] && a[0] == b[0]
  {
    forall k | LessAt(a, b, k) && k > 0 ensures a[0] == b[0] {
      assert a[0] == a[..k][0] == b[..k][0];
    }
  }

  lemma {:induction false} StringLessIsAsymmetric(a: string, b: string)
    ensures StringLess(a, b) ==> !StringLess(b, a)
    decreases |a|
  {
    if a != [] && b != [] {
      StringLessIsAsymmetric(a[1..], b[1..]);
    }
  }

  lemma {:induction false} StringLessIsTransitive(a: string, b: string, c: string)
    requires StringLess(a, b) && StringLess(b, c)
    ensures StringLess(a, c)
    decreases |a|
  {
    if a != [] && a[0] == b[0] && b[0] == c[0] {
      StringLessIsTransitive(a[1..], b[1..], c[1..]);
    }
  }

  lemma {:induction false} StringLessIsTotal(a: string, b: string)
    ensures a == b || StringLess(a, b) || StringLess(b, a)
    decreases |a|
  {
    if a != [] && b != [] && a[0] == b[0] {
      StringLessIsTotal(a[1..], b[1..]);
      assert a == [a[0]] + a[1..] && b == [b[0]] + b[1..];
    }
  }

  /** What `sort.Slice` asks of its comparison: "not less" must be a transitive relation
      that contains "less". */
  ghost predicate StrictWeakOrder<T(!new)>(less: (T, T) -> bool) {
    && (forall a, b :: less(a, b) ==> !less(b, a))
    && (forall a, b, c :: !less(b, a) && !less(c, b) ==> !less(c, a))
  }

  lemma StringLessIsStrictWeak()
    ensures StrictWeakOrder(StringLess)
  {
    forall a: string, b: string ensures StringLess(a, b) ==> !StringLess(b, a) {
      StringLessIsAsymmetric(a, b);
    }
    forall a: string, b: string, c: string | !StringLess(b, a) && !StringLess(c, b)
      ensures !StringLess(c, a)
    {
      StringLessIsTotal(a, b);
      StringLessIsTotal(b, c);
      if StringLess(a, b) && StringLess(b, c) {
        StringLessIsTransitive(a, b, c);
      }
      StringLessIsAsymmetric(a, c);
    }
  }

  ghost predicate Ordered<T>(less: (T, T) -> bool, s: seq<T>) {
    forall i, j :: 0 <= i < j < |s| ==> !less(s[j], s[i])
  }

  /** Any two different elements of `s` can be told apart by `less`. */
  ghost predicate TotalOn<T>(less: (T, T) -> bool, s: seq<T>) {
    forall a, b :: a in s && b in s ==> a == b || less(a, b) || less(b, a)
  }

  ghost predicate Distinct<T>(s: seq<T>) {
    forall i, j :: 0 <= i < j < |s| ==> s[i] != s[j]
  }

  /** `sort.Slice`: callers know only that the result is an ordered rearrangement. */
  method SortSlice<T(!new)>(less: (T, T) -> bool, s: seq<T>) returns (r: seq<T>)
    requires StrictWeakOrder(less)
    ensures multiset(r) == multiset(s)
    ensures Ordered(less, r)
  {
    r := SortBy(x => x, less, s);
    assert forall i :: 0 <= i < |r| ==> Keys(x => x, r)[i] == r[i];
  }

  function Keys<T, K>(key: T -> K, s: seq<T>): (r: seq<K>)
    ensures |r| == |s| && forall i :: 0 <= i < |s| ==> r[i] == key(s[i])
  {
    seq(|s|, i requires 0 <= i < |s| => key(s[i]))
  }

  /** The same by a key; the elements may be references. */
  method SortBy<T, K(!new)>(key: T -> K, less: (K, K) -> bool, s: seq<T>) returns (r: seq<T>)
    requires StrictWeakOrder(less)
    ensures multiset(r) == multiset(s)
    ensures Ordered(less, Keys(key, r))
  {
    r := [];
    for i := 0 to |s|
      invariant multiset(r) == multiset(s[..i])
      invariant Ordered(less, Keys(key, r))
    {
      assert s[..i + 1] == s[..i] + [s[i]];
      var k := 0;
      while k < |r| && !less(key(s[i]), key(r[k]))
        invariant 0 <= k <= |r|
        invariant forall j :: 0 <= j < k ==> !less(key(s[i]), key(r[j]))
      {
        k := k + 1;
      }
      InsertKeepsOrder(less, Keys(key, r), k, key(s[i]));
      KeysOfInserted(key, r, k, s[i]);
      r := Inserted(r, k, s[i]);
    }
    assert s[..|s|] == s;
  }

  lemma KeysOfInserted<T, K>(key: T -> K, s: seq<T>, k: nat, x: T)
    requires k <= |s|
    ensures Keys(key, Inserted(s, k, x)) == Inserted(Keys(key, s), k, key(x))
  {
  }

  function Inserted<T>(s: seq<T>, k: nat, x: T): (r: seq<T>)
    requires k <= |s|
    ensures multiset(r) == multiset(s) + multiset{x}
  {
    assert s == s[..k] + s[k..];
    s[..k] + [x] + s[k..]
  }

  function Without<T>(s: seq<T>, k: nat): (r: seq<T>)
    requires k < |s|
    ensures |r| == |s| - 1 && multiset(r) == multiset(s) - multiset{s[k]}
  {
    assert s == s[..k] + [s[k]] + s[k + 1..];
    s[..k] + s[k + 1..]
  }

  function Mapped<T, U>(m: map<T, U>, s: seq<T>): (r: seq<U>)
    requires forall x :: x in s ==> x in m
    ensures |r| == |s| && forall i :: 0 <= i < |s| ==> r[i] == m[s[i]]
  {
    seq(|s|, i requires 0 <= i < |s| => assert s[i] in s; m[s[i]])
  }

  /** Mapping rearranged elements gives rearranged values. */
  lemma {:induction false} MappedPermutation<T, U>(m: map<T, U>, a: seq<T>, b: seq<T>)
    requires (forall x :: x in a ==> x in m) && (forall x :: x in b ==> x in m)
    requires multiset(a) == multiset(b)
    ensures multiset(Mapped(m, a)) == multiset(Mapped(m, b))
    decreases |a|
  {
    assert |multiset(a)| == |a| && |multiset(b)| == |b|;
    if a != [] {
      SameMembers(a, b);
      assert a[0] in a;
      var k :| 0 <= k < |b| && b[k] == a[0];
      TailMultiset(a);
      assert a[1..] == Without(a, 0);
      MappedPermutation(m, Without(a, 0), Without(b, k));
      MappedWithout(m, a, 0);
      MappedWithout(m, b, k);
    }
  }

  lemma MappedWithout<T, U>(m: map<T, U>, s: seq<T>, k: nat)
    requires (forall x :: x in s ==> x in m) && k < |s|
    ensures multiset(Mapped(m, s)) == multiset(Mapped(m, Without(s, k))) + multiset{m[s[k]]}
  {
    var r, t := Mapped(m, Without(s, k)), Without(Mapped(m, s), k);
    forall i | 0 <= i < |r| ensures r[i] == t[i] {
      assert Without(s, k)[i] == s[if i < k then i else i + 1];
    }
    assert r == t;
  }

  lemma InsertKeepsOrder<T(!new)>(less: (T, T) -> bool, s: seq<T>, k: nat, x: T)
    requires StrictWeakOrder(less) && Ordered(less, s) && k <= |s|
    requires forall j :: 0 <= j < k ==> !less(x, s[j])
    requires k < |s| ==> less(x, s[k])
    ensures Ordered(less, Inserted(s, k, x))
  {
    var r := Inserted(s, k, x);
    forall i, j | 0 <= i < j < |r|
      ensures !less(r[j], r[i])
    {
      if i == k {
        assert r[j] == s[j - 1] && !less(s[k], x);
        assert j - 1 == k || !less(s[j - 1], s[k]);
      } else if j == k {
        assert r[i] == s[i];
      } else {
        assert r[i] == s[if i < k then i else i - 1];
        assert r[j] == s[if j < k then j else j - 1];
      }
    }
  }

  lemma SameMembers<T>(a: seq<T>, b: seq<T>)
    requires multiset(a) == multiset(b)
    ensures forall x :: x in a <==> x in b
  {
    forall x ensures x in a <==> x in b {
      assert x in a <==> x in multiset(a);
      assert x in b <==> x in multiset(b);
    }
  }

  lemma HeadsAgree<T>(less: (T, T) -> bool, a: seq<T>, b: seq<T>)
    requires Ordered(less, a) && Ordered(less, b) && TotalOn(less, a)
    requires a != [] && b != [] && multiset(a) == multiset(b)
    ensures a[0] == b[0]
  {
    SameMembers(a, b);
    assert a[0] in b && b[0] in a;
  }

  lemma TailMultiset<T>(s: seq<T>)
    requires s != []
    ensures multiset(s[1..]) == multiset(s) - multiset{s[0]}
  {
    assert s == [s[0]] + s[1..];
  }

  /** One element less on each side, and the same situation. */
  lemma SortedTails<T>(less: (T, T) -> bool, a: seq<T>, b: seq<T>)
    requires Ordered(less, a) && Ordered(less, b) && TotalOn(less, a)
    requires a != [] && b != [] && multiset(a) == multiset(b) && a[0] == b[0]
    ensures Ordered(less, a[1..]) && Ordered(less, b[1..]) && TotalOn(less, a[1..])
    ensures multiset(a[1..]) == multiset(b[1..])
    ensures a[1..] == b[1..] ==> a == b
  {
    TailMultiset(a);
    TailMultiset(b);
    assert forall x :: x in a[1..] ==> x in a;
    assert a == [a[0]] + a[1..] && b == [b[0]] + b[1..];
  }

  /** Two ordered rearrangements of the same elements are equal whenever the order tells
      those elements apart: stability is then beside the point. */
  lemma {:induction false} SortedUnique<T>(less: (T, T) -> bool, a: seq<T>, b: seq<T>)
    requires Ordered(less, a) && Ordered(less, b)
    requires multiset(a) == multiset(b)
    requires TotalOn(less, a)
    ensures a == b
    decreases |a|
  {
    assert |multiset(a)| == |a| && |multiset(b)| == |b|;
    if a != [] {
      HeadsAgree(less, a, b);
      SortedTails(less, a, b);
      SortedUnique(less, a[1..], b[1..]);
    }
  }

  lemma {:induction false} DistinctMultiset<T>(s: seq<T>)
    requires Distinct(s)
    ensures forall x :: x in s ==> multiset(s)[x] == 1
    decreases |s|
  {
    if s != [] {
      DistinctMultiset(s[1..]);
      assert s == [s[0]] + s[1..];
      forall x | x in s ensures multiset(s)[x] == 1 {
        assert multiset(s)[x] == multiset([s[0]])[x] + multiset(s[1..])[x];
        if x == s[0] {
          assert x !in s[1..];
          assert x !in multiset(s[1..]);
        }
      }
    }
  }

  /** Distinctness is a property of the multiset alone. */
  lemma DistinctFromMultiset<T>(a: seq<T>, b: seq<T>)
    requires multiset(a) == multiset(b) && Distinct(a)
    ensures Distinct(b)
  {
    DistinctMultiset(a);
    forall i, j | 0 <= i < j < |b| ensures b[i] != b[j] {
      SameMembers(a, b);
      assert b == b[..j] + [b[j]] + b[j + 1..];
      assert b[i] in b[..j];
      assert multiset(b)[b[i]] >= 1 + if b[i] == b[j] then 1 else 0;
    }
  }

  /** Distinct members of a set that are as many as the set are all of it. */
  lemma {:induction false} DistinctCoversSet<T>(s: seq<T>, all: set<T>)
    requires Distinct(s) && |s| == |all| && forall x :: x in s ==> x in all
    ensures forall x :: x in all ==> x in s
    decreases |s|
  {
    if s != [] {
      var n := |s| - 1;
      assert s[n] in s;
      DistinctCoversSet(s[..n], all - {s[n]});
      assert s == s[..n] + [s[n]];
      assert all == (all - {s[n]}) + {s[n]};
    }
  }

  lemma DistinctSameSetIsPermutation<T>(a: seq<T>, b: seq<T>)
    requires Distinct(a) && Distinct(b)
    requires forall x :: x in a <==> x in b
    ensures multiset(a) == multiset(b)
  {
    DistinctMultiset(a);
    DistinctMultiset(b);
    forall x ensures multiset(a)[x] == multiset(b)[x] {
      assert x in multiset(a) <==> x in a;
      assert x in multiset(b) <==> x in b;
    }
  }

  /** In an ordered sequence of distinct strings neighbours increase strictly, and the other way round. */
  ghost predicate StrictlyIncreasing(s: seq<string>) {
    forall i, j :: 0 <= i < j < |s| ==> StringLess(s[i], s[j])
  }

  lemma OrderedDistinctIncreases(s: seq<string>)
    requires Ordered(StringLess, s) && Distinct(s)
    ensures StrictlyIncreasing(s)
  {
    forall i, j | 0 <= i < j < |s| ensures StringLess(s[i], s[j]) {
      StringLessIsTotal(s[i], s[j]);
      assert !StringLess(s[j], s[i]);
      assert s[i] != s[j];
    }
  }
}
