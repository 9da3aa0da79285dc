/** Relay to phone, from the packets built for it to the writes on its device. */
module Tunnel {
  import opened Bytes
  import opened Framing
  import opened Packetizers
  import C = Client
  import O = IPPacketOutputStream

  /** A packet as the packetizer leaves it, built from an IPv4 reference. */
  ghost predicate BuiltForPhone(p: seq<byte>) {
    exists ip, transport :: ParsesTo(p, ip, transport) && ip.version == 4
  }

  /** What the packetizer builds can travel through the tunnel exactly when its reference was IPv4. */
  lemma BuiltIsPacket(p: seq<byte>, ip: Headers.Ipv4HeaderData, transport: Headers.TransportHeaderData)
    requires ParsesTo(p, ip, transport)
    ensures IsPacket(p) <==> ip.version == 4
  {}

  lemma BuiltArePackets(ps: seq<seq<byte>>)
    requires forall i :: 0 <= i < |ps| ==> BuiltForPhone(ps[i])
    ensures ArePackets(ps)
  {
    forall i | 0 <= i < |ps|
      ensures IsPacket(ps[i])
    {
      var ip, transport :| ParsesTo(ps[i], ip, transport) && ip.version == 4;
      BuiltIsPacket(ps[i], ip, transport);
    }
  }

  /**
   The phone has read the id and then `chunks` off the wire: its device got the first packets the relay accepted,
   one write each, and all of them once the queue is empty and the wire read.
   */
  method ReadByPhone(client: C.Client, out: O.IPPacketOutputStream, chunks: seq<seq<byte>>)
    requires client.Wired() && forall i :: 0 <= i < |client.accepted| ==> BuiltForPhone(client.accepted[i])
    requires Encode32(client.id) + Flatten(chunks) <= client.wire
    requires forall i :: 0 <= i < |chunks| ==> |chunks[i]| <= O.BUFSIZE
    requires out.Valid() && out.Held() == [] && out.target == [] && out.buffer != client.networkToClient.buf
    modifies out, out.buffer
    ensures out.Valid() && out.target <= client.accepted && IsCut(out.Held())
    ensures client.Queue() == [] && Encode32(client.id) + Flatten(chunks) == client.wire ==>
      out.target == client.accepted
  {
    BuiltArePackets(client.accepted);
    ghost var id, wire, queue, accepted := client.id, client.wire, client.Queue(), client.accepted;
    hide BuiltForPhone, ArePackets, IsStream, IsCut, Complete, Reassemble, Leftover, Flatten, Encode32;
    WholeWire(id, client.pendingIdBytes, wire, queue, accepted, Flatten(chunks));
    C.EndToEnd(id, accepted, wire, queue, chunks);
    ReadIsStream(id, accepted, wire, queue, chunks);
    O.ForwardTunnelToDevice(out, chunks);
  }

  /** Once the id is on the wire, the rest of it and the queue are the accepted packets. */
  lemma WholeWire(id: u32, pending: nat, wire: seq<byte>, queue: seq<byte>, accepted: seq<seq<byte>>, read: seq<byte>)
    requires C.Account(id, pending, wire, queue, accepted) && Encode32(id) + read <= wire
    ensures wire + queue == Encode32(id) + Flatten(accepted)
  {
    if pending == 0 {
      assert wire + Encode32(id)[4..] == wire;
    }
  }

  lemma ReadIsStream(id: u32, accepted: seq<seq<byte>>, wire: seq<byte>, queue: seq<byte>, chunks: seq<seq<byte>>)
    requires ArePackets(accepted) && wire + queue == Encode32(id) + Flatten(accepted)
    requires Encode32(id) + Flatten(chunks) <= wire
    ensures IsStream([] + Flatten(chunks)) && !Complete([])
  {
    var read := Flatten(chunks);
    assert read == (Encode32(id) + read)[4..] == (wire + queue)[4..4 + |read|] == Flatten(accepted)[..|read|];
    var all := Flatten(accepted);
    assert all + [] == [] + all == all && [] + all[..|read|] == [] + read;
    StreamOfPackets(accepted, []);
    PrefixOfStream([], all, |read|);
  }
}
