/** A ring of bytes between a producer and a socket that takes what it can. */
module StreamBuffer {
  import opened Bytes
  import opened Io

  /** Bytes of the ring `cells` from `tail` up to `head`, around its end. */
  function Ring(cells: seq<byte>, head: nat, tail: nat): seq<byte>
    requires head < |cells| && tail < |cells|
  {
    if head < tail then cells[tail..] + cells[..head] else cells[tail..head]
  }

  function Around(n: nat, i: nat): int { if i < n then i else i - n }

  lemma ModAround(n: nat, i: nat)
    requires i < 2 * n
    ensures i % n == Around(n, i)
  {}

  lemma RingTake(cells: seq<byte>, head: nat, tail: nat, n: nat)
    requires head < |cells| && tail < |cells| && head != tail
    requires n <= if head < tail then |cells| - tail else head - tail
    ensures Ring(cells, head, tail) == cells[tail..tail + n] + Ring(cells, head, Around(|cells|, tail + n))
  {}

  /** `cells` with `source` written from `head` on, around the end. */
  function PutAround(cells: seq<byte>, head: nat, source: seq<byte>): (r: seq<byte>)
    requires head < |cells| && |source| <= |cells|
    ensures |r| == |cells|
  {
    var first := |cells| - head;
    if |source| <= first then Patch(cells, head, source)
    else Patch(Patch(cells, head, source[..first]), 0, source[first..])
  }

  lemma PutAroundAt(cells: seq<byte>, head: nat, source: seq<byte>, i: nat)
    requires head < |cells| && |source| <= |cells| && i < |cells|
    ensures PutAround(cells, head, source)[Around(|cells|, head + i)] ==
      if i < |source| then source[i] else cells[Around(|cells|, head + i)]
  {}

  /** What is put at the head of the ring is appended to its contents. */
  lemma RingPut(cells: seq<byte>, head: nat, tail: nat, source: seq<byte>)
    requires head < |cells| && tail < |cells| && |Ring(cells, head, tail)| + |source| < |cells|
    ensures Ring(PutAround(cells, head, source), Around(|cells|, head + |source|), tail)
      == Ring(cells, head, tail) + source
  {
    var n := |cells|;
    var size := |Ring(cells, head, tail)|;
    var after := PutAround(cells, head, source);
    var r := Ring(after, Around(n, head + |source|), tail);
    assert |r| == size + |source|;
    forall k | 0 <= k < |r|
      ensures r[k] == (Ring(cells, head, tail) + source)[k]
    {
      assert r[k] == after[Around(n, tail + k)];
      var i := if k < size then k + n - size else k - size;
      assert Around(n, tail + k) == Around(n, head + i);
      PutAroundAt(cells, head, source, i);
    }
  }

  class StreamBuffer {
    const buf: array<byte>
    var head: nat
    var tail: nat

    ghost predicate Valid()
      reads this
    {
      head < buf.Length && tail < buf.Length
    }

    /** The bytes queued, oldest first. */
    ghost function Contents(): (s: seq<byte>)
      reads this, buf
      requires Valid()
    {
      Ring(buf[..], head, tail)
    }

    constructor (capacity: nat)
      ensures Valid() && fresh(buf)
      ensures Contents() == [] && Capacity() == capacity
    {
      buf := new byte[capacity + 1](_ => 0);
      head, tail := 0, 0;
    }

    predicate IsEmpty()
      reads this, buf
      requires Valid()
      ensures IsEmpty() <==> Contents() == []
    {
      head == tail
    }

    function Size(): (n: nat)
      reads this, buf
      requires Valid()
      ensures n == |Contents()| <= Capacity()
    {
      if head < tail then head + buf.Length - tail else head - tail
    }

    function Capacity(): int { buf.Length - 1 }

    function Remaining(): (n: nat)
      reads this, buf
      requires Valid()
      ensures n + |Contents()| == Capacity()
    {
      Capacity() - Size()
    }

    /** Length of the first slice offered to the sink: up to the end of the array. */
    function Contiguous(): (n: nat)
      reads this, buf
      requires Valid()
      ensures n <= |Contents()| && (n == 0 <==> Contents() == [])
    {
      if head < tail then buf.Length - tail else head - tail
    }

    /** Offer one slice to the sink; what it takes leaves the front of the queue. */
    method WriteTo(sink: Sink) returns (w: Result<nat>, ghost taken: seq<byte>)
      requires Valid()
      modifies this`head, this`tail
      ensures Valid() && old(Contents()) == taken + Contents()
      ensures w == if old(Contents()) == [] then Ok(0) else if sink.Fails? then Err(sink.error) else Ok(|taken|)
      ensures |taken| == if sink.Fails? then 0 else Min(sink.limit, old(Contiguous()))
      ensures sink.Fails? ==> head == old(head) && tail == old(tail)
      ensures sink.Takes? && sink.limit >= old(Contiguous()) ==> tail == 0 || Contents() == []
    {
      if head == tail {
        return Ok(0), [];
      }
      hide Ring;
      match sink
      case Fails(error) =>
        return Err(error), [];
      case Takes(limit) =>
        var n := Min(limit, if head > tail then head - tail else buf.Length - tail);
        taken := buf[..][tail..tail + n];
        RingTake(buf[..], head, tail, n);
        ModAround(buf.Length, tail + n);
        if head > tail {
          tail := tail + n;
        } else {
          tail := (tail + n) % buf.Length;
        }
        assert old(Contents()) == taken + Contents();
        w := Ok(n);
        Optimize();
    }

    method ReadFrom(source: seq<byte>)
      requires Valid() && |source| <= Remaining()
      modifies this`head, buf
      ensures Valid() && Contents() == old(Contents()) + source
    {
      var n := buf.Length;
      assert |source| + |Contents()| < n;
      hide Ring, Patch;
      if |source| <= n - head {
        CopyFromSlice(buf, head, source);
      } else {
        CopyFromSlice(buf, head, source[..n - head]);
        CopyFromSlice(buf, 0, source[n - head..]);
      }
      RingPut(old(buf[..]), head, tail, source);
      ModAround(n, head + |source|);
      head := (head + |source|) % n;
    }

    /** Start again from the left end once the queue is empty. */
    method Optimize()
      requires Valid()
      modifies this`head, this`tail
      ensures Valid() && Contents() == old(Contents())
      ensures if old(head == tail) then head == tail == 0 else head == old(head) && tail == old(tail)
    {
      if IsEmpty() {
        head, tail := 0, 0;
      }
    }
  }

  /** Two writes to a sink that takes everything always empty the buffer. */
  method WriteTwice(buffer: StreamBuffer, limit: nat) returns (ghost taken: seq<byte>)
    requires buffer.Valid() && limit >= buffer.Capacity()
    modifies buffer
    ensures buffer.Valid() && buffer.Contents() == [] && taken == old(buffer.Contents())
  {
    ghost var first, second;
    var n;
    n, first := buffer.WriteTo(Takes(limit));
    n, second := buffer.WriteTo(Takes(limit));
    taken := first + second;
  }
}
