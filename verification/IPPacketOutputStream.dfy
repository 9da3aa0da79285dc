/** The phone's end of the tunnel: bytes arrive in any chunks, packets leave one write at a time. */
module IPPacketOutputStream {
  import opened Bytes
  import opened Framing

  const CAPACITY: nat := 2 * MAX_PACKET_LENGTH

  /** How write() ends: normally, refusing too long a chunk, or overflowing the buffer. */
  datatype Outcome = Written | TooLong | Overflow

  class IPPacketOutputStream {
    const buffer: array<byte>
    var position: nat
    var limit: nat
    /** The packets written to the target, one write each. */
    var target: seq<seq<byte>>

    /** Between calls the buffer is in writing mode: it holds the bytes up to `position`. */
    ghost predicate Valid()
      reads this
    {
      buffer.Length == CAPACITY && position <= limit == CAPACITY
    }

    function Held(): seq<byte>
      reads this, buffer
      requires Valid()
    {
      buffer[..position]
    }

    constructor ()
      ensures Valid() && fresh(buffer) && Held() == [] && target == []
    {
      buffer := new byte[CAPACITY](_ => 0);
      position, limit, target := 0, CAPACITY, [];
    }

    /**
     Every whole packet goes to the target and the rest is kept for the next chunk. When the rest is not IPv4,
     clearing and then compacting leaves the buffer full: nothing can be written any more.
     */
    method Write(b: seq<byte>) returns (r: Outcome)
      requires Valid() && Advances(Held() + b)
      modifies this, buffer
      ensures Valid()
      ensures r == if |b| > MAX_PACKET_LENGTH then TooLong
                   else if |b| > CAPACITY - old(position) then Overflow else Written
      ensures r != Written ==> Held() == old(Held()) && target == old(target)
      ensures r == Written ==> target == old(target) + Packets(old(Held()) + b)
      ensures r == Written ==>
        if Rest(old(Held()) + b) == [] || IsVersion4(Rest(old(Held()) + b)) then Held() == Rest(old(Held()) + b)
        else position == CAPACITY
      ensures IsCut(old(Held())) && |b| <= MAX_PACKET_LENGTH ==> r == Written
    {
      if IsCut(Held()) {
        CutIsIncomplete(Held());
      }
      if |b| > MAX_PACKET_LENGTH {
        return TooLong;
      }
      if |b| > limit - position {
        return Overflow;
      }
      ghost var data := Held() + b;
      CopyFromSlice(buffer, position, b);
      position := position + |b|;
      assert buffer[..position] == data;
      // flip
      limit, position := position, 0;
      Sink(data);
      // compact
      var kept := limit - position;
      CopyFromSlice(buffer, 0, buffer[position..limit]);
      position, limit := kept, CAPACITY;
      r := Written;
    }

    /** Write every whole packet between `position` and `limit`. */
    method Sink(ghost data: seq<byte>)
      requires buffer.Length == CAPACITY && position == 0 && limit == |data| <= CAPACITY
      requires buffer[..limit] == data && Advances(data)
      modifies this
      ensures target == old(target) + Packets(data)
      ensures position <= limit <= CAPACITY
      ensures if Rest(data) == [] || IsVersion4(Rest(data)) then buffer[position..limit] == Rest(data)
              else position == 0 && limit == CAPACITY
    {
      var more := true;
      while more
        invariant position <= limit <= CAPACITY
        invariant more ==> limit == |data| && buffer[position..limit] == data[position..]
        invariant more ==> Advances(data[position..]) && Rest(data[position..]) == Rest(data)
        invariant more ==> target + Packets(data[position..]) == old(target) + Packets(data)
        invariant !more ==> target == old(target) + Packets(data)
        invariant !more ==>
          if Rest(data) == [] || IsVersion4(Rest(data)) then buffer[position..limit] == Rest(data)
          else position == 0 && limit == CAPACITY
        decreases more, limit - position
      {
        ghost var s, sunk := data[position..], target;
        more := SinkPacket(data);
        if more {
          assert data[position..] == s[FirstLength(s)..];
          assert Packets(s) == [s[..FirstLength(s)]] + Packets(data[position..]);
          assert sunk + Packets(s) == target + Packets(data[position..]);
        }
        hide Packets, Rest, Complete, Advances, FirstLength;
      }
    }

    /** A zero length takes no byte, and asks to be called again. */
    method SinkPacket(ghost data: seq<byte>) returns (more: bool)
      requires buffer.Length == CAPACITY && position <= limit == |data| <= CAPACITY
      requires buffer[position..limit] == data[position..]
      modifies this
      ensures var s := data[old(position)..];
        if Complete(s) then
          && more && limit == old(limit) && position == old(position) + FirstLength(s)
          && target == old(target) + [s[..FirstLength(s)]]
        else if Stuck(s) then
          more && limit == old(limit) && position == old(position) && target == old(target) + [[]]
        else
          && !more && target == old(target) && limit <= CAPACITY
          && if s == [] || IsVersion4(s) then position == old(position) && limit == old(limit)
             else position == 0 && limit == CAPACITY
    {
      ghost var s := data[position..];
      assert s == buffer[position..limit];
      if position == limit {
        return false;
      }
      if buffer[position] / 16 != 4 {
        position, limit := 0, CAPACITY;
        return false;
      }
      if limit < position + 4 {
        return false;
      }
      var packetLength := Be16(buffer[..], position + 2);
      assert s[2] == buffer[position + 2] && s[3] == buffer[position + 3];
      assert packetLength == Be16(s, 2);
      if packetLength > limit - position {
        return false;
      }
      SlicePrefix(buffer[..], position, limit, packetLength);
      target := target + [buffer[position..position + packetLength]];
      position := position + packetLength;
      more := true;
    }
  }

  lemma SlicePrefix(s: seq<byte>, from: nat, to: nat, n: nat)
    requires from <= from + n <= to <= |s|
    ensures s[from..to][..n] == s[from..from + n]
  {}

  const BUFSIZE: nat := 0x10000

  /** The forwarding loop from the tunnel to the device: one write for every non-empty read. */
  method ForwardTunnelToDevice(out: IPPacketOutputStream, chunks: seq<seq<byte>>)
    requires out.Valid() && IsStream(out.Held() + Flatten(chunks)) && !Complete(out.Held())
    requires forall i :: 0 <= i < |chunks| ==> |chunks[i]| <= BUFSIZE
    modifies out, out.buffer
    ensures out.Valid() && out.target == old(out.target) + Reassemble(old(out.Held()), chunks)
    ensures out.Held() == Leftover(old(out.Held()), chunks)
  {
    hide IsCut, IsPacket, Packets, Rest, Reassemble, Leftover, Flatten, IsStream, Complete, Advances;
    NothingLeft(out.Held());
    for k := 0 to |chunks|
      invariant out.Valid() && IsStream(out.Held() + Flatten(chunks[k..])) && !Complete(out.Held())
      invariant out.target + Reassemble(out.Held(), chunks[k..])
        == old(out.target) + Reassemble(old(out.Held()), chunks)
      invariant Leftover(out.Held(), chunks[k..]) == Leftover(old(out.Held()), chunks)
    {
      ghost var held, chunk, later := out.Held(), chunks[k], chunks[k + 1..];
      assert chunks[k..] == [chunk] + later;
      ForwardOne(held, chunk, later);
      if chunks[k] != [] {
        ghost var before := out.target;
        var r := out.Write(chunks[k]);
        assert (before + Packets(held + chunk)) + Reassemble(Rest(held + chunk), later)
          == before + (Packets(held + chunk) + Reassemble(Rest(held + chunk), later));
      } else {
        assert [] + Reassemble(held, later) == Reassemble(held, later);
      }
    }
    assert chunks[|chunks|..] == [];
    NothingLeft(out.Held());
  }

  lemma NothingLeft(held: seq<byte>)
    ensures Reassemble(held, []) == [] && Leftover(held, []) == held
  {}

  /** What one chunk does to a stream that goes on. */
  lemma ForwardOne(held: seq<byte>, chunk: seq<byte>, later: seq<seq<byte>>)
    requires IsStream(held + Flatten([chunk] + later)) && !Complete(held)
    ensures IsStream(held + chunk) && Advances(held + chunk) && IsCut(held)
    ensures IsStream(Rest(held + chunk) + Flatten(later))
    ensures Rest(held + chunk) == [] || IsVersion4(Rest(held + chunk))
    ensures chunk == [] ==> Packets(held + chunk) == [] && Rest(held + chunk) == held
    ensures !Complete(Rest(held + chunk))
    ensures Reassemble(held, [chunk] + later) == Packets(held + chunk) + Reassemble(Rest(held + chunk), later)
    ensures Leftover(held, [chunk] + later) == Leftover(Rest(held + chunk), later)
  {
    hide IsCut, IsPacket;
    var all := chunk + Flatten(later);
    assert ([chunk] + later)[0] == chunk && ([chunk] + later)[1..] == later && Flatten([chunk] + later) == all;
    assert held + all == (held + chunk) + Flatten(later);
    PrefixOfStream(held, all, |chunk|);
    assert all[..|chunk|] == chunk;
    StreamInChunks(held + chunk, Flatten(later));
    StreamAdvances(held + chunk);
    CutIsIncomplete(Rest(held + chunk));
    PrefixOfStream(held, all, 0);
    assert held + all[..0] == held;
    if chunk == [] {
      assert held + chunk == held;
    }
  }
}
