/** The relay's end of the tunnel: bytes are read in any chunks and packets consumed from the front. */
module Ipv4PacketBuffer {
  import opened Bytes
  import opened Framing
  import opened Headers

  class ByteBuffer {
    const buf: array<byte>
    var head: nat

    ghost predicate Valid()
      reads this
    {
      head <= buf.Length
    }

    function Peek(): seq<byte>
      reads this, buf
      requires Valid()
    {
      buf[..head]
    }

    constructor (length: nat)
      ensures Valid() && fresh(buf) && buf.Length == length && Peek() == []
    {
      buf := new byte[length](_ => 0);
      head := 0;
    }

    /** One read of what has arrived, up to the room left; false means end of file to the caller. */
    method ReadFrom(arrived: seq<byte>) returns (more: bool, ghost taken: seq<byte>)
      requires Valid()
      modifies this, buf
      ensures Valid() && taken == arrived[..Min(|arrived|, buf.Length - old(head))]
      ensures Peek() == old(Peek()) + taken && (more <==> taken != [])
    {
      var r := Min(|arrived|, buf.Length - head);
      taken := arrived[..r];
      CopyFromSlice(buf, head, arrived[..r]);
      head := head + r;
      more := r > 0;
    }

    method Consume(length: nat)
      requires Valid() && length <= head
      modifies this, buf
      ensures Valid() && Peek() == old(Peek())[length..]
    {
      ghost var before := buf[..];
      head := head - length;
      if head > 0 {
        CopyFromSlice(buf, 0, buf[length..length + head]);
        assert buf[..head] == before[length..length + head];
      }
    }
  }

  /** What stands at the front: no whole packet, a packet, or one whose headers run behind the bytes held. */
  datatype Parsed = NoPacket | Packet(raw: seq<byte>) | ParsePanics

  class Ipv4PacketBuffer {
    const buf: ByteBuffer

    ghost function Repr(): set<object> { {buf, buf.buf} }

    ghost predicate Valid()
      reads buf
    {
      buf.Valid() && buf.buf.Length == MAX_PACKET_LENGTH
    }

    function Peek(): seq<byte>
      reads buf, buf.buf
      requires Valid()
    {
      buf.Peek()
    }

    constructor ()
      ensures Valid() && fresh(Repr()) && Peek() == []
    {
      buf := new ByteBuffer(MAX_PACKET_LENGTH);
    }

    /** The source asserts that four bytes, when present, announce IPv4. A zero length counts as a whole packet. */
    method AvailablePacketLength() returns (length: Option<u16>)
      requires Valid() && (TotalLength(Peek()).Some? ==> IsVersion4(Peek()))
      ensures length == if Complete(Peek()) then Some(FirstLength(Peek())) else if Stuck(Peek()) then Some(0) else None
    {
      var data := buf.Peek();
      if |data| < 4 {
        return None;
      }
      var announced := Be16(data, 2);
      length := if announced <= |data| then Some(announced) else None;
    }

    /** Parsing reads the headers in the packet or behind it, and panics behind the bytes held. */
    method AsIpv4Packet() returns (r: Parsed)
      requires Valid() && (TotalLength(Peek()).Some? ==> IsVersion4(Peek()))
      ensures r == if !Complete(Peek()) && !Stuck(Peek()) then NoPacket
                   else if !ParseFits(Peek()) then ParsePanics
                   else Packet(Peek()[..TotalLength(Peek()).value])
    {
      var length := AvailablePacketLength();
      if length.None? {
        return NoPacket;
      }
      var data := buf.Peek();
      r := if ParseFits(data) then Packet(data[..length.value]) else ParsePanics;
    }

    method Next()
      requires Valid() && Complete(Peek())
      modifies Repr()
      ensures Valid() && Peek() == old(Peek())[old(FirstLength(Peek()))..]
    {
      var length := AvailablePacketLength();
      buf.Consume(length.value);
    }
  }
}
