/** A ring of datagrams: each is stored in one block, the last one past the logical end if need be. */
module DatagramBuffer {
  import opened Bytes
  import opened Io

  const HEADER_LENGTH: nat := 2
  const MAX_DATAGRAM_LENGTH: nat := 0x1_0000
  const MAX_BLOCK_LENGTH: nat := HEADER_LENGTH + MAX_DATAGRAM_LENGTH

  type Datagram = d: seq<byte> | |d| < 0x1_0000

  /** One block: the length on two bytes, then the datagram. */
  function Block(d: Datagram): (b: seq<byte>)
    ensures |b| == HEADER_LENGTH + |d|
  {
    Encode16(|d|) + d
  }

  function Blocks(ds: seq<Datagram>): seq<byte> {
    if ds == [] then [] else Block(ds[0]) + Blocks(ds[1..])
  }

  lemma {:induction false} BlocksAppend(a: seq<Datagram>, b: seq<Datagram>)
    ensures Blocks(a + b) == Blocks(a) + Blocks(b)
  {
    if a == [] {
      assert a + b == b;
    } else {
      assert (a + b)[1..] == a[1..] + b;
      BlocksAppend(a[1..], b);
    }
  }

  lemma BlocksSnoc(a: seq<Datagram>, d: Datagram)
    ensures Blocks(a + [d]) == Blocks(a) + Block(d)
  {
    BlocksAppend(a, [d]);
    assert [d][1..] == [];
  }

  /** The length field holds every datagram length but the largest the buffer accepts. */
  lemma LengthFieldHolds(n: nat)
    requires n <= MAX_DATAGRAM_LENGTH
    ensures Be16(Encode16(n % 0x1_0000), 0) == n <==> n < MAX_DATAGRAM_LENGTH
  {}

  /** What the socket makes of a datagram: it reports a length, or fails. */
  datatype Send = Sent(w: nat) | SendFails(error: IoError)

  lemma {:induction false} LastBlock(ds: seq<Datagram>)
    requires ds != []
    ensures |Block(ds[|ds| - 1])| <= |Blocks(ds)|
  {
    BlocksSnoc(ds[..|ds| - 1], ds[|ds| - 1]);
    assert ds[..|ds| - 1] + [ds[|ds| - 1]] == ds;
  }

  lemma EmptyBlocks(ds: seq<Datagram>)
    ensures Blocks(ds) == [] <==> ds == []
  {}

  /** The front block of a run of blocks starts the run. */
  lemma FrontBlock(cells: seq<byte>, from: nat, to: nat, ds: seq<Datagram>)
    requires from <= to <= |cells| && cells[from..to] == Blocks(ds) && ds != []
    ensures from + 2 + |ds[0]| <= to && Be16(cells, from) == |ds[0]|
    ensures cells[from + 2..from + 2 + |ds[0]|] == ds[0]
    ensures cells[from + 2 + |ds[0]|..to] == Blocks(ds[1..])
  {
    var rest := Blocks(ds[1..]);
    assert cells[from..to] == Encode16(|ds[0]|) + ds[0] + rest;
    hide Blocks;
    Slice(cells, from, to, Encode16(|ds[0]|), ds[0], rest);
  }

  lemma PatchTwice(cells: seq<byte>, at: nat, a: seq<byte>, b: seq<byte>)
    requires at + |a| + |b| <= |cells|
    ensures Patch(Patch(cells, at, a), at + |a|, b) == Patch(cells, at, a + b)
  {}

  lemma SubSlice(cells: seq<byte>, from: nat, to: nat, x: nat, y: nat)
    requires from <= to <= |cells| && x <= y <= to - from
    ensures cells[from..to][x..y] == cells[from + x..from + y]
  {
    var a, b := cells[from..to][x..y], cells[from + x..from + y];
    assert forall i :: 0 <= i < y - x ==> a[i] == cells[from..to][x + i];
    assert a == b;
  }

  lemma PatchedLength(cells: seq<byte>, at: nat, length: u16, rest: seq<byte>)
    requires at + 2 + |rest| <= |cells|
    ensures Be16(Patch(cells, at, Encode16(length) + rest), at) == length
  {
    var after := Patch(cells, at, Encode16(length) + rest);
    assert after[at] == Encode16(length)[0] && after[at + 1] == Encode16(length)[1];
  }

  lemma Slice(cells: seq<byte>, from: nat, to: nat, a: seq<byte>, b: seq<byte>, c: seq<byte>)
    requires from <= to <= |cells| && cells[from..to] == a + b + c
    ensures from + |a| + |b| <= to && cells[from..from + |a|] == a
    ensures cells[from + |a|..from + |a| + |b|] == b && cells[from + |a| + |b|..to] == c
  {
    SubSlice(cells, from, to, 0, |a|);
    SubSlice(cells, from, to, |a|, |a| + |b|);
    SubSlice(cells, from, to, |a| + |b|, to - from);
  }

  /** Writing a block right behind a run extends the run, and leaves a region apart from it alone. */
  lemma ExtendRun(cells: seq<byte>, from: nat, to: nat, ds: seq<Datagram>, d: Datagram, lo: nat, hi: nat)
    requires from <= to && to + |Block(d)| <= |cells| && cells[from..to] == Blocks(ds)
    requires to + |Block(d)| <= lo <= hi <= |cells|
    ensures var after := Patch(cells, to, Block(d));
      after[from..to + |Block(d)|] == Blocks(ds + [d]) && after[lo..hi] == cells[lo..hi]
  {
    BlocksSnoc(ds, d);
    hide Blocks, Block;
    assert Patch(cells, to, Block(d))[from..to + |Block(d)|] == cells[from..to] + Block(d);
  }

  /**
   The datagrams `near` lie from `tail` up to `head`, or up to `wrap` behind the logical end `circ`; in that case
   the datagrams `far` lie from the left end up to `head`.
   */
  ghost predicate Layout(cells: seq<byte>, circ: nat, head: nat, tail: nat,
                         near: seq<Datagram>, far: seq<Datagram>, wrap: nat)
  {
    && 1 <= circ && |cells| == circ - 1 + MAX_BLOCK_LENGTH && head < circ && tail < circ
    && if tail <= head then
         far == [] && cells[tail..head] == Blocks(near)
       else
         && near != [] && circ <= wrap <= |cells| && wrap - |Block(near[|near| - 1])| < circ
         && cells[tail..wrap] == Blocks(near) && cells[..head] == Blocks(far)
  }

  /** The front datagram can be read where `tail` points, and the rest lie behind it or at the left end. */
  lemma ReadFront(cells: seq<byte>, circ: nat, head: nat, tail: nat,
                  near: seq<Datagram>, far: seq<Datagram>, wrap: nat)
    requires Layout(cells, circ, head, tail, near, far, wrap) && near + far != []
    ensures near != []
    ensures var next := tail + 2 + |near[0]|;
      && next <= |cells| && Be16(cells, tail) == |near[0]| && cells[tail + 2..next] == near[0]
      && if circ <= next then near[1..] == [] && Layout(cells, circ, head, 0, far, [], wrap)
         else Layout(cells, circ, head, next, near[1..], far, wrap)
  {
    var to := if tail <= head then head else wrap;
    FrontBlock(cells, tail, to, near);
    if |near| > 1 {
      LastBlock(near[1..]);
    }
    EmptyBlocks(near[1..]);
    hide Blocks;
  }

  /** How the layout goes on after a block from `head` to `next`. */
  ghost predicate Extended(after: seq<byte>, circ: nat, head: nat, next: nat, tail: nat,
                           near: seq<Datagram>, far: seq<Datagram>, wrap: nat, d: Datagram) {
    if tail > head then next < circ && Layout(after, circ, next, tail, near, far + [d], wrap)
    else if next < circ then Layout(after, circ, next, tail, near + [d], [], wrap)
    else if tail > 0 then Layout(after, circ, 0, tail, near + [d], [], next)
    else Layout(after, circ, 0, 0, [], [], wrap)
  }

  /** Writing a block at `head` appends its datagram, unless it wraps onto an unread left end. */
  lemma WriteBlock(cells: seq<byte>, circ: nat, head: nat, tail: nat,
                   near: seq<Datagram>, far: seq<Datagram>, wrap: nat, d: Datagram)
    requires Layout(cells, circ, head, tail, near, far, wrap)
    requires tail <= head || |Block(d)| < tail - head
    ensures var next := head + |Block(d)|;
      next <= |cells| && Extended(Patch(cells, head, Block(d)), circ, head, next, tail, near, far, wrap, d)
  {
    hide Block;
    if tail <= head {
      ExtendRun(cells, tail, head, near, d, |cells|, |cells|);
    } else {
      assert cells[..head] == cells[0..head];
      ExtendRun(cells, 0, head, far, d, tail, wrap);
    }
    EmptyBlocks([]);
    hide Blocks, Patch;
  }

  /** The head behind a block, wrapped at the logical end. */
  function Around(circ: nat, next: nat): nat { if next >= circ then 0 else next }

  /** The queue and the head after some datagrams are offered in turn. */
  function Fed(queue: seq<Datagram>, head: nat, tail: nat, circ: nat, ds: seq<Datagram>): (seq<Datagram>, nat)
    decreases |ds|
  {
    if ds == [] then (queue, head)
    else
      var next := head + HEADER_LENGTH + |ds[0]|;
      if head < tail <= next then Fed(queue, head, tail, circ, ds[1..])
      else if tail == 0 && circ <= next then Fed([], 0, tail, circ, ds[1..])
      else Fed(queue + [ds[0]], Around(circ, next), tail, circ, ds[1..])
  }

  class DatagramBuffer {
    const buf: array<byte>
    var head: nat
    var tail: nat
    const circularBufferLength: nat

    /** Datagrams stored from `tail` up to the wrap, and those stored from the left end up to `head`. */
    ghost var near: seq<Datagram>
    ghost var far: seq<Datagram>
    /** Where the block that overflows ends. */
    ghost var wrap: nat

    /** The datagrams queued, oldest first. */
    ghost function Queue(): seq<Datagram>
      reads this
    {
      near + far
    }

    ghost predicate Valid()
      reads this, buf
    {
      Layout(buf[..], circularBufferLength, head, tail, near, far, wrap)
    }

    constructor (capacity: nat)
      ensures Valid() && fresh(buf) && Queue() == [] && circularBufferLength == capacity + 1 && head == tail == 0
    {
      buf := new byte[capacity + MAX_BLOCK_LENGTH](_ => 0);
      circularBufferLength := capacity + 1;
      head, tail, near, far, wrap := 0, 0, [], [], 0;
    }

    predicate IsEmpty()
      reads this, buf
      requires Valid()
      ensures IsEmpty() <==> Queue() == []
    {
      EmptyBlocks(near);
      EmptyBlocks([]);
      head == tail
    }

    predicate HasEnoughSpaceFor(length: nat)
      reads this, buf
      requires Valid()
    {
      head >= tail || HEADER_LENGTH + length <= tail - head - 1
    }

    /** The write would wrap `head` onto a `tail` at the left end. */
    predicate Collides(length: nat)
      reads this
    {
      tail == 0 && circularBufferLength <= head + HEADER_LENGTH + length
    }

    /** Hand the front datagram to the socket; it leaves the queue whatever the socket makes of it. */
    method WriteTo(socket: Send) returns (r: Result<()>, ghost handed: Datagram)
      requires Valid() && Queue() != []
      modifies this
      ensures Valid() && handed == old(Queue())[0] && Queue() == old(Queue())[1..]
      ensures r == match socket
        case Sent(w) => if w == |handed| then Ok(()) else Err(OtherError)
        case SendFails(error) => Err(error)
    {
      ReadFront(buf[..], circularBufferLength, head, tail, near, far, wrap);
      hide Layout;
      handed := near[0];
      var length := ReadLength();
      ghost var source := buf[..][tail..tail + length];
      assert source == handed;
      tail := tail + length;
      near := near[1..];
      if tail >= circularBufferLength {
        tail := 0;
        near, far := far, [];
      }
      match socket
      case SendFails(error) => r := Err(error);
      case Sent(w) =>
        r := if w != length then Err(OtherError) else Ok(());
    }

    /**
     Queue a datagram if there is room for it. Two datagrams are lost in the attempt: one of 2^16 bytes, whose
     length field then reads zero, and one that wraps onto an unread left end, which empties the queue.
     */
    method ReadFrom(source: seq<byte>) returns (r: Result<()>)
      requires Valid() && |source| <= MAX_DATAGRAM_LENGTH
      modifies this, buf
      ensures r == if old(HasEnoughSpaceFor(|source|)) then Ok(()) else Err(OtherError)
      ensures r.Ok? <==> tail <= old(head) || old(head) + HEADER_LENGTH + |source| < tail
      ensures r.Err? ==> Valid() && Queue() == old(Queue())
      ensures r.Ok? && |source| < MAX_DATAGRAM_LENGTH ==>
        Valid() && Queue() == if old(Collides(|source|)) then [] else old(Queue()) + [source]
      ensures old(Collides(|source|)) <==> tail == 0 && old(head) + HEADER_LENGTH + |source| >= circularBufferLength
      ensures tail == old(tail)
      ensures head == if r.Err? then old(head) else Around(circularBufferLength, old(head) + HEADER_LENGTH + |source|)
      ensures r.Ok? ==> old(head) + 2 <= buf.Length && Be16(buf[..], old(head)) == |source| % MAX_DATAGRAM_LENGTH
    {
      hide Layout, Extended, Patch, Encode16, Block, Valid;
      var length := |source|;
      if !HasEnoughSpaceFor(length) {
        return Err(OtherError);
      }
      ghost var cells, from := buf[..], head;
      SpaceForBlock(length);
      if length < MAX_DATAGRAM_LENGTH {
        BlockExtends(source);
      }
      Store(source);
      PatchedLength(cells, from, length % 0x1_0000, source);
      if length < MAX_DATAGRAM_LENGTH {
        Record(source, from);
      }
      if head >= circularBufferLength {
        head := 0;
      }
      if length < MAX_DATAGRAM_LENGTH {
        ValidAgain();
      }
      r := Ok(());
    }

    lemma ValidAgain()
      requires Layout(buf[..], circularBufferLength, head, tail, near, far, wrap)
      ensures Valid()
    {}

    lemma BlockExtends(source: Datagram)
      requires Valid() && HasEnoughSpaceFor(|source|)
      ensures Extended(Patch(buf[..], head, Encode16(|source| % 0x1_0000) + source), circularBufferLength, head,
                       head + 2 + |source|, tail, near, far, wrap, source)
    {
      WriteBlock(buf[..], circularBufferLength, head, tail, near, far, wrap, source);
      hide Extended, Patch, Layout;
    }

    lemma SpaceForBlock(length: nat)
      requires Valid() && HasEnoughSpaceFor(length) && length <= MAX_DATAGRAM_LENGTH
      ensures head + HEADER_LENGTH + length <= buf.Length
      ensures tail <= head || HEADER_LENGTH + length < tail - head
      ensures tail <= head ==> far == []
    {}

    /** The two writes of a block, one behind the other. */
    method Store(source: seq<byte>)
      requires |source| <= MAX_DATAGRAM_LENGTH && head + 2 + |source| <= buf.Length
      modifies this`head, buf
      ensures head == old(head) + 2 + |source|
      ensures buf[..] == Patch(old(buf[..]), old(head), Encode16(|source| % 0x1_0000) + source)
    {
      hide Patch, Encode16;
      WriteLength(|source| % 0x1_0000);
      CopyFromSlice(buf, head, source);
      PatchTwice(old(buf[..]), old(head), Encode16(|source| % 0x1_0000), source);
      head := head + |source|;
    }

    /** Account for a datagram whose block was written at `from`; `head` is about to wrap if it must. */
    ghost method Record(source: Datagram, from: nat)
      requires Extended(buf[..], circularBufferLength, from, head, tail, near, far, wrap, source)
      requires tail <= from ==> far == []
      modifies this`near, this`far, this`wrap
      ensures Layout(buf[..], circularBufferLength, Around(circularBufferLength, head), tail, near, far, wrap)
      ensures near + far
        == if tail == 0 && circularBufferLength <= head then [] else old(near) + old(far) + [source]
    {
      hide Layout;
      if tail > from {
        far := far + [source];
      } else if head < circularBufferLength {
        near, far := near + [source], [];
      } else if tail > 0 {
        near, far, wrap := near + [source], [], head;
      } else {
        near, far := [], [];
      }
    }

    method WriteLength(length: u16)
      requires head + 2 <= buf.Length
      modifies this`head, buf
      ensures head == old(head) + 2 && buf[..] == Patch(old(buf[..]), old(head), Encode16(length))
    {
      CopyFromSlice(buf, head, Encode16(length));
      head := head + 2;
    }

    method ReadLength() returns (length: nat)
      requires tail + 2 <= buf.Length
      modifies this`tail
      ensures tail == old(tail) + 2 && length == Be16(buf[..], old(tail))
    {
      tail := tail + 2;
      length := Be16(buf[..], tail - 2);
    }
  }
}
