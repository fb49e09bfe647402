/** The in-memory audit log (internal/api/audit.go:41-133): a ring of fixed size that must answer like the
    list of the latest entries. */
module AuditRing {
  import opened Ordering

  datatype Entry = Entry(id: int, timestamp: string, provider: string, isolation: string, payload: int)

  datatype Filters = Filters(from: string, to: string, provider: string, isolation: string)

  // ----- the simple meaning -----

  predicate TooOld(q: Filters, e: Entry) { q.from != "" && StringLess(e.timestamp, q.from) }

  predicate Matches(q: Filters, e: Entry) {
    && !TooOld(q, e)
    && !(q.to != "" && StringLess(q.to, e.timestamp))
    && !(q.provider != "" && e.provider != q.provider)
    && !(q.isolation != "" && e.isolation != q.isolation)
  }

  function Select(q: Filters, s: seq<Entry>): seq<Entry> {
    if s == [] then [] else (if Matches(q, s[0]) then [s[0]] else []) + Select(q, s[1..])
  }

  /** `Select` that gives up at the first entry older than `from`. */
  function Scan(q: Filters, s: seq<Entry>): seq<Entry> {
    if s == [] || TooOld(q, s[0]) then [] else (if Matches(q, s[0]) then [s[0]] else []) + Scan(q, s[1..])
  }

  /** Drop `offset`, then keep `limit` if that is positive. */
  function Page(s: seq<Entry>, limit: int, offset: nat): seq<Entry> {
    if offset > |s| then []
    else if 0 < limit < |s| - offset then s[offset..offset + limit]
    else s[offset..]
  }

  /** The latest `n` appends, newest first. */
  function Latest(appends: seq<Entry>, n: nat): (r: seq<Entry>)
    ensures |r| == if |appends| <= n then |appends| else n
    ensures forall i :: 0 <= i < |r| ==> r[i] == appends[|appends| - 1 - i]
  {
    seq(if |appends| <= n then |appends| else n, i requires 0 <= i < |appends| => appends[|appends| - 1 - i])
  }

  // ----- the ring -----

  lemma ModOnce(x: int, n: int)
    requires 0 <= x < 2 * n
    ensures x % n == if x < n then x else x - n
  {
    if x >= n {
      assert x % n == (x - n) % n by { assert x == (x - n) + 1 * n; }
    }
  }

  function Wrap(x: int, n: int): (r: int)
    requires 0 <= x < 2 * n
    ensures r == if x < n then x else x - n
  {
    ModOnce(x, n);
    x % n
  }

  /** Where the i-th newest entry stands. */
  function Slot(head: int, i: int, n: int): int {
    if head - 1 - i >= 0 then head - 1 - i else head - 1 - i + n
  }

  ghost predicate Holds(b: seq<Entry>, head: int, count: int, n: nat, appends: seq<Entry>) {
    && |b| == n && 0 <= head < n && 0 <= count <= n
    && count == |Latest(appends, n)|
    && forall i :: 0 <= i < count ==> b[Slot(head, i, n)] == Latest(appends, n)[i]
  }

  /** Overwriting the slot at `head` and moving on keeps the latest entries in place. */
  lemma RingAppend(b: seq<Entry>, head: int, count: int, n: nat, appends: seq<Entry>, e: Entry)
    requires Holds(b, head, count, n, appends) && (count < n ==> head == count)
    ensures Holds(b[head := e], if head + 1 < n then head + 1 else 0, if count < n then count + 1 else count, n, appends + [e])
  {
    var head' := if head + 1 < n then head + 1 else 0;
    var count' := if count < n then count + 1 else count;
    var before, after := Latest(appends, n), Latest(appends + [e], n);
    forall i | 0 <= i < count' ensures b[head := e][Slot(head', i, n)] == after[i] {
      if i == 0 {
        assert Slot(head', 0, n) == head;
      } else {
        assert Slot(head', i, n) == Slot(head, i - 1, n) != head;
        assert after[i] == before[i - 1];
      }
    }
  }

  class AuditLogger {
    const size: nat
    var buf: array<Entry>
    var head: int
    var count: int
    ghost var appends: seq<Entry>

    ghost predicate Valid()
      reads this, buf
    {
      size > 0 && Holds(buf[..], head, count, size, appends) && (count < size ==> head == count)
    }

    constructor (size: nat, blank: Entry)
      requires size > 0
      ensures Valid() && appends == [] && this.size == size && fresh(buf)
    {
      this.size := size;
      buf := new Entry[size](_ => blank);
      head, count := 0, 0;
      appends := [];
    }

    method Append(e: Entry)
      requires Valid()
      modifies this, buf
      ensures Valid() && appends == old(appends) + [e] && buf == old(buf)
    {
      RingAppend(buf[..], head, count, size, appends, e);
      buf[head] := e;
      assert buf[..] == old(buf[..])[old(head) := e];
      head := Wrap(head + 1, size);
      if count < size {
        count := count + 1;
      }
      appends := appends + [e];
    }

    /** The loop over the ring, newest first. */
    method Collect(q: Filters) returns (filtered: seq<Entry>)
      requires Valid()
      ensures filtered == Scan(q, Latest(appends, size))
    {
      filtered := [];
      ghost var latest := Latest(appends, size);
      var start := Wrap(head - 1 + size, size);
      var i := 0;
      assert latest[0..] == latest;
      while i < count
        invariant 0 <= i <= count
        invariant filtered + Scan(q, latest[i..]) == Scan(q, latest)
      {
        var e := buf[Wrap(start - i + size, size)];
        assert e == latest[i];
        ScanStep(q, latest, i, filtered);
        if q.from != "" && StringLess(e.timestamp, q.from) {
          return;
        }
        if !(q.to != "" && StringLess(q.to, e.timestamp))
           && !(q.provider != "" && e.provider != q.provider)
           && !(q.isolation != "" && e.isolation != q.isolation)
        {
          filtered := filtered + [e];
        }
        i := i + 1;
      }
    }

    /** The answer is a page of what the scan over the latest entries yields; for appends in timestamp order
        that is the plain newest-first selection. */
    method Query(q: Filters, limit: int, offset: nat) returns (r: seq<Entry>)
      requires Valid()
      ensures r == Page(Scan(q, Latest(appends, size)), limit, offset)
      ensures Monotonic(appends) ==> r == Page(Select(q, Latest(appends, size)), limit, offset)
    {
      if Monotonic(appends) {
        QueryIsSelection(q, appends, size, limit, offset);
      }
      var filtered := Collect(q);
      if offset > |filtered| {
        return [];
      }
      filtered := filtered[offset..];
      if limit > 0 && limit < |filtered| {
        filtered := filtered[..limit];
      }
      return filtered;
    }
  }

  lemma ScanStep(q: Filters, s: seq<Entry>, i: nat, done: seq<Entry>)
    requires i < |s| && done + Scan(q, s[i..]) == Scan(q, s)
    ensures TooOld(q, s[i]) ==> done == Scan(q, s)
    ensures !TooOld(q, s[i]) ==> (if Matches(q, s[i]) then done + [s[i]] else done) + Scan(q, s[i + 1..]) == Scan(q, s)
  {
    assert s[i..][1..] == s[i + 1..];
  }

  /** Where in `s`, from `i` on, the selected entries stand. */
  function SelectedAt(q: Filters, s: seq<Entry>, i: nat): seq<nat>
    requires i <= |s|
    decreases |s| - i
  {
    if i == |s| then [] else (if Matches(q, s[i]) then [i] else []) + SelectedAt(q, s, i + 1)
  }

  lemma {:induction false} SelectionStandsAt(q: Filters, s: seq<Entry>, i: nat)
    requires i <= |s|
    ensures var at := SelectedAt(q, s, i);
            && |at| == |Select(q, s[i..])|
            && (forall k :: 0 <= k < |at| ==> i <= at[k] < |s| && Select(q, s[i..])[k] == s[at[k]])
            && (forall k, l :: 0 <= k < l < |at| ==> at[k] < at[l])
    decreases |s| - i
  {
    if i < |s| {
      SelectionStandsAt(q, s, i + 1);
      assert s[i..][1..] == s[i + 1..];
    }
  }

  lemma {:induction false} SelectedAtExactly(q: Filters, s: seq<Entry>, i: nat, k: nat)
    requires i <= |s|
    ensures k in SelectedAt(q, s, i) <==> i <= k < |s| && Matches(q, s[k])
    decreases |s| - i
  {
    if i < |s| {
      SelectedAtExactly(q, s, i + 1, k);
    }
  }

  /** An entry keeps to every filter that is set. */
  predicate KeepsToFields(q: Filters, e: Entry) {
    && (q.from != "" ==> !StringLess(e.timestamp, q.from)) && (q.to != "" ==> !StringLess(q.to, e.timestamp))
    && (q.provider != "" ==> e.provider == q.provider) && (q.isolation != "" ==> e.isolation == q.isolation)
  }

  /** A selection from `s`, field by field: the entries at the places `at`, which follow each other in `s` and are
      exactly those where the entry keeps to every filter that is set. */
  lemma SelectionByFields(q: Filters, s: seq<Entry>) returns (at: seq<nat>)
    ensures |at| == |Select(q, s)| && forall k :: 0 <= k < |at| ==> at[k] < |s| && Select(q, s)[k] == s[at[k]]
    ensures forall k, l :: 0 <= k < l < |at| ==> at[k] < at[l]
    ensures forall k :: 0 <= k < |s| ==> (k in at <==> KeepsToFields(q, s[k]))
  {
    at := SelectedAt(q, s, 0);
    assert s[0..] == s;
    SelectionStandsAt(q, s, 0);
    forall k | 0 <= k < |s| ensures k in at <==> KeepsToFields(q, s[k]) {
      SelectedAtExactly(q, s, 0, k);
    }
  }

  // ----- the early break -----

  /** Something that matches stands behind something too old. */
  ghost predicate HiddenMatch(q: Filters, s: seq<Entry>) {
    exists i, j :: 0 <= i < j < |s| && TooOld(q, s[i]) && Matches(q, s[j])
  }

  lemma {:induction false} NothingSelected(q: Filters, s: seq<Entry>)
    ensures Select(q, s) == [] <==> forall i :: 0 <= i < |s| ==> !Matches(q, s[i])
  {
    if s != [] {
      NothingSelected(q, s[1..]);
      assert forall i :: 0 < i < |s| ==> s[i] == s[1..][i - 1];
    }
  }

  /** Breaking early is harmless exactly when no match hides behind an entry older than `from`. */
  lemma {:induction false} EarlyBreakIsExact(q: Filters, s: seq<Entry>)
    ensures Scan(q, s) == Select(q, s) <==> !HiddenMatch(q, s)
  {
    if s != [] {
      NothingSelected(q, s[1..]);
      assert forall i :: 0 < i < |s| ==> s[i] == s[1..][i - 1];
      if !TooOld(q, s[0]) {
        EarlyBreakIsExact(q, s[1..]);
        HiddenInTail(q, s);
        var first := if Matches(q, s[0]) then [s[0]] else [];
        assert Scan(q, s)[|first|..] == Scan(q, s[1..]) && Select(q, s)[|first|..] == Select(q, s[1..]);
      }
    }
  }

  lemma HiddenInTail(q: Filters, s: seq<Entry>)
    requires s != [] && !TooOld(q, s[0])
    ensures HiddenMatch(q, s) <==> HiddenMatch(q, s[1..])
  {
    if HiddenMatch(q, s) {
      var i, j :| 0 <= i < j < |s| && TooOld(q, s[i]) && Matches(q, s[j]);
      assert TooOld(q, s[1..][i - 1]) && Matches(q, s[1..][j - 1]);
    }
    if HiddenMatch(q, s[1..]) {
      var i, j :| 0 <= i < j < |s[1..]| && TooOld(q, s[1..][i]) && Matches(q, s[1..][j]);
      assert TooOld(q, s[i + 1]) && Matches(q, s[j + 1]);
    }
  }

  /** Entries appended with timestamps that never go back. */
  ghost predicate Monotonic(appends: seq<Entry>) {
    forall i, j :: 0 <= i < j < |appends| ==> !StringLess(appends[j].timestamp, appends[i].timestamp)
  }

  /** For appends in timestamp order, what a query returns is a page of the plain newest-first selection from
      the latest entries. */
  lemma QueryIsSelection(q: Filters, appends: seq<Entry>, n: nat, limit: int, offset: nat)
    requires Monotonic(appends)
    ensures Page(Scan(q, Latest(appends, n)), limit, offset) == Page(Select(q, Latest(appends, n)), limit, offset)
  {
    var s := Latest(appends, n);
    forall i, j | 0 <= i < j < |s| ensures !(TooOld(q, s[i]) && Matches(q, s[j])) {
      StringLessIsStrictWeak();
      assert !StringLess(s[i].timestamp, s[j].timestamp);
    }
    EarlyBreakIsExact(q, s);
  }

  // ----- paging -----

  /** A page starts at the offset and is as long as the limit, if positive, and the list allow. */
  lemma PageIsSlice(s: seq<Entry>, limit: int, offset: nat)
    ensures |Page(s, limit, offset)| <= |s|
    ensures forall i :: 0 <= i < |Page(s, limit, offset)| ==> offset + i < |s| && Page(s, limit, offset)[i] == s[offset + i]
    ensures offset <= |s| ==>
              |Page(s, limit, offset)| == if limit > 0 && limit < |s| - offset then limit else |s| - offset
  {
  }

  function PagesFrom(s: seq<Entry>, limit: int, offset: nat): seq<Entry>
    requires limit > 0
    decreases |s| - offset
  {
    if offset >= |s| then [] else Page(s, limit, offset) + PagesFrom(s, limit, offset + limit)
  }

  /** Consecutive pages of any positive limit concatenate to the whole list. */
  lemma {:induction false} PagesConcatenate(s: seq<Entry>, limit: int, offset: nat)
    requires limit > 0 && offset <= |s|
    ensures PagesFrom(s, limit, offset) == s[offset..]
    decreases |s| - offset
  {
    if offset + limit <= |s| {
      if offset < |s| {
        PagesConcatenate(s, limit, offset + limit);
        assert s[offset..] == s[offset..offset + limit] + s[offset + limit..];
        if offset + limit == |s| {
          assert Page(s, limit, offset) == s[offset..];
        }
      }
    } else if offset < |s| {
      assert PagesFrom(s, limit, offset + limit) == [];
    }
  }
}
