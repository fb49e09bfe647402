/** The bounded command-output buffer (pkg/gpu/command.go:128-147). */
module BoundedBuffer {

  datatype Buffer<T> = Buffer(limit: int, bytes: seq<T>, overflow: bool)

  class OutputBuffer<T> {
    const limit: int
    var bytes: seq<T>
    var overflow: bool

    ghost function State(): Buffer<T>
      reads this
    {
      Buffer(limit, bytes, overflow)
    }

    constructor (limit: int)
      ensures State() == Buffer(limit, [], false)
    {
      this.limit, bytes, overflow := limit, [], false;
    }

    method Write(data: seq<T>) returns (n: nat)
      modifies this
      ensures n == |data|
      ensures State() == Written(old(State()), data)
    {
      var kept := data;
      var remaining := limit - |bytes|;
      if remaining <= 0 {
        overflow := true;
        return |data|;
      }
      if |data| > remaining {
        overflow := true;
        kept := data[..remaining];
      }
      bytes := bytes + kept;
      return |data|;
    }
  }

  function Written<T>(b: Buffer<T>, data: seq<T>): Buffer<T> {
    var remaining := b.limit - |b.bytes|;
    if remaining <= 0 then b.(overflow := true)
    else if |data| > remaining then b.(bytes := b.bytes + data[..remaining], overflow := true)
    else b.(bytes := b.bytes + data)
  }

  function WriteAll<T>(b: Buffer<T>, chunks: seq<seq<T>>): Buffer<T> {
    if chunks == [] then b else Written(WriteAll(b, chunks[..|chunks| - 1]), chunks[|chunks| - 1])
  }

  function Concat<T>(chunks: seq<seq<T>>): seq<T> {
    if chunks == [] then [] else Concat(chunks[..|chunks| - 1]) + chunks[|chunks| - 1]
  }

  function Kept(limit: int, total: nat): nat {
    if limit <= 0 then 0 else if total <= limit then total else limit
  }

  /** An empty write that came when the buffer was already full. */
  ghost predicate EmptyWriteWhenFull<T>(limit: int, chunks: seq<seq<T>>) {
    exists k :: 0 <= k < |chunks| && chunks[k] == [] && |Concat(chunks[..k])| >= limit
  }

  /** However the stream is cut, the buffer holds exactly its first `limit` bytes; it reports overflow exactly when
      the stream is longer than that, or when an empty write found it full. */
  lemma {:induction false} BufferHoldsPrefix<T>(limit: int, chunks: seq<seq<T>>)
    ensures var b, stream := WriteAll(Buffer(limit, [], false), chunks), Concat(chunks);
            && b.limit == limit
            && b.bytes == stream[..Kept(limit, |stream|)]
            && (b.overflow <==> chunks != [] && (|stream| > limit || EmptyWriteWhenFull(limit, chunks)))
    decreases |chunks|
  {
    if chunks != [] {
      var n := |chunks| - 1;
      var front := chunks[..n];
      BufferHoldsPrefix(limit, front);
      FullOnEmpty(limit, chunks);
      assert Concat(chunks)[..|Concat(front)|] == Concat(front);
    }
  }

  lemma FullOnEmpty<T>(limit: int, chunks: seq<seq<T>>)
    requires chunks != []
    ensures var n := |chunks| - 1;
            EmptyWriteWhenFull(limit, chunks) <==>
            EmptyWriteWhenFull(limit, chunks[..n]) || (chunks[n] == [] && |Concat(chunks[..n])| >= limit)
  {
    var n := |chunks| - 1;
    assert forall k :: 0 <= k < n ==> chunks[..n][..k] == chunks[..k];
    if EmptyWriteWhenFull(limit, chunks) {
      var k :| 0 <= k < |chunks| && chunks[k] == [] && |Concat(chunks[..k])| >= limit;
      if k < n {
        assert chunks[..n][k] == [] && |Concat(chunks[..n][..k])| >= limit;
      }
    }
    if EmptyWriteWhenFull(limit, chunks[..n]) {
      var k :| 0 <= k < n && chunks[..n][k] == [] && |Concat(chunks[..n][..k])| >= limit;
      assert chunks[k] == [] && |Concat(chunks[..k])| >= limit;
    }
  }

  ghost predicate NonEmptyWrites<T>(chunks: seq<seq<T>>) {
    forall k :: 0 <= k < |chunks| ==> chunks[k] != []
  }

  /** Non-empty writes: only the stream matters, not how it was cut. */
  lemma ChunkingIsInvisible<T>(limit: int, a: seq<seq<T>>, b: seq<seq<T>>)
    requires NonEmptyWrites(a) && NonEmptyWrites(b) && Concat(a) == Concat(b)
    ensures WriteAll(Buffer(limit, [], false), a) == WriteAll(Buffer(limit, [], false), b)
  {
    BufferHoldsPrefix(limit, a);
    BufferHoldsPrefix(limit, b);
    if a != [] {
      assert Concat(a) != [];
    }
    if b != [] {
      assert Concat(b) != [];
    }
  }
}
