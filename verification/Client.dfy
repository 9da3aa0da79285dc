/** The relay's side of one phone: its outgoing queue, its id prefix and the packets deferred to it. */
module Client {
  import opened Bytes
  import opened Io
  import opened Framing
  import opened Headers
  import opened Pending
  import SB = StreamBuffer
  import PB = Ipv4PacketBuffer

  /** A connection seen as the source of one deferred packet. */
  class PacketSource {
    var packet: Option<Deferred>

    constructor ()
      ensures packet == None
    {
      packet := None;
    }

    method Get() returns (d: Deferred)
      requires packet.Some?
      ensures d == packet.value
    {
      d := packet.value;
    }

    /** Registering interests again asserts that the connection is open. */
    method Next()
      requires packet.Some? && packet.value.open
      modifies this
      ensures packet == None
    {
      packet := None;
    }

    /** An empty packet is forged over the deferred one's headers; the source may close at the same time. */
    method Forge(headers: seq<byte>, closes: bool)
      modifies this
      ensures packet == Forged(old(packet), headers, closes)
    {
      if packet.Some? {
        var d := packet.value;
        packet := Some(Deferred(|headers|, Overlaid(headers, d.raw), d.open && !closes));
      }
    }
  }

  /** The bytes of a stored packet whose front was overwritten. */
  function Overlaid(headers: seq<byte>, raw: seq<byte>): (r: seq<byte>)
    ensures |r| == |raw|
  {
    if |headers| <= |raw| then headers + raw[|headers|..] else headers[..|raw|]
  }

  /** What becomes of a deferred packet when an empty one is forged over it. */
  function Forged(packet: Option<Deferred>, headers: seq<byte>, closes: bool): Option<Deferred> {
    if packet.None? then None
    else Some(Deferred(|headers|, Overlaid(headers, packet.value.raw), packet.value.open && !closes))
  }

  /** It keeps its payload, and can no longer travel through the tunnel, exactly when it had one. */
  lemma ForgedIsNoPacket(headers: seq<byte>, raw: seq<byte>)
    requires IsPacket(headers) && IsPacket(raw) && |headers| <= |raw|
    ensures Overlaid(headers, raw)[|headers|..] == raw[|headers|..]
    ensures IsPacket(Overlaid(headers, raw)) <==> |headers| == |raw|
  {
    var after := Overlaid(headers, raw);
    assert after[0] == headers[0] && after[2] == headers[2] && after[3] == headers[3];
  }

  /** The packets the sources hold, in order. */
  ghost function HeldBy(ss: seq<PacketSource>): (ds: seq<Deferred>)
    reads ss
    requires forall s :: s in ss ==> s.packet.Some?
    ensures |ds| == |ss| && forall i :: 0 <= i < |ss| ==> ds[i] == ss[i].packet.value
  {
    if ss == [] then [] else [ss[0].packet.value] + HeldBy(ss[1..])
  }

  /** What a connection answers at once to a packet routed to it: one packet, forged over its deferred one if any. */
  datatype Answer = Answer(raw: seq<byte>, source: Option<PacketSource>, closes: bool)

  /** How an attempt to queue a packet ends; the last is the buffer's assertion. */
  datatype Sending = Queued | Full | Panicked

  /** How a handler ends: normally, early because a socket would block, or on a failed assertion. */
  datatype Outcome = Done | Early | Panics

  /** Every whole packet of the stream has its headers within the bytes that follow. */
  predicate Parses(s: seq<byte>)
    decreases |s|
  {
    Complete(s) ==> ParseFits(s) && Parses(s[FirstLength(s)..])
  }

  lemma ParsesStep(s: seq<byte>)
    ensures Parses(s) <==> (Complete(s) ==> ParseFits(s) && Parses(s[FirstLength(s)..]))
  {}

  /** The answers that find room, one after the other, and the room behind them. */
  function Fitting(answers: seq<Answer>, room: nat): seq<seq<byte>> {
    if answers == [] then []
    else if |answers[0].raw| <= room then [answers[0].raw] + Fitting(answers[1..], room - |answers[0].raw|)
    else Fitting(answers[1..], room)
  }

  function RoomLeft(answers: seq<Answer>, room: nat): nat {
    if answers == [] then room
    else if |answers[0].raw| <= room then RoomLeft(answers[1..], room - |answers[0].raw|)
    else RoomLeft(answers[1..], room)
  }

  lemma {:induction false} FittingInTurn(a: seq<Answer>, b: seq<Answer>, room: nat)
    ensures Fitting(a + b, room) == Fitting(a, room) + Fitting(b, RoomLeft(a, room))
    ensures RoomLeft(a + b, room) == RoomLeft(b, RoomLeft(a, room))
    decreases |a|
  {
    if a == [] {
      assert a + b == b;
    } else {
      assert (a + b)[0] == a[0] && (a + b)[1..] == a[1..] + b;
      FittingInTurn(a[1..], b, if |a[0].raw| <= room then room - |a[0].raw| else room);
    }
  }

  /** The answers to the k-th packet, and those to the first `n`. */
  function AnswersTo(answers: seq<seq<Answer>>, k: nat): seq<Answer> { if k < |answers| then answers[k] else [] }

  function Spoken(answers: seq<seq<Answer>>, n: nat): seq<Answer> {
    if n == 0 then [] else Spoken(answers, n - 1) + AnswersTo(answers, n - 1)
  }

  // ---- the account of the wire

  /** Everything accepted is on the wire or queued, behind the id. */
  ghost predicate Account(id: u32, pending: nat, wire: seq<byte>, queue: seq<byte>, accepted: seq<seq<byte>>) {
    && pending <= 4
    && wire + Encode32(id)[4 - pending..] + queue == Encode32(id) + Flatten(accepted)
    && (pending > 0 ==> wire == Encode32(id)[..4 - pending])
  }

  lemma AccountBegins(id: u32)
    ensures Account(id, 4, [], [], [])
  {}

  lemma AccountQueues(id: u32, pending: nat, wire: seq<byte>, queue: seq<byte>, accepted: seq<seq<byte>>,
                      raw: seq<byte>)
    requires Account(id, pending, wire, queue, accepted)
    ensures Account(id, pending, wire, queue + raw, accepted + [raw])
  {
    FlattenSnoc(accepted, raw);
    hide Encode32, Flatten;
    var sent := wire + Encode32(id)[4 - pending..];
    assert sent + (queue + raw) == (sent + queue) + raw;
    assert (Encode32(id) + Flatten(accepted)) + raw == Encode32(id) + (Flatten(accepted) + raw);
  }

  lemma AccountWrites(id: u32, wire: seq<byte>, taken: seq<byte>, rest: seq<byte>, accepted: seq<seq<byte>>)
    requires Account(id, 0, wire, taken + rest, accepted)
    ensures Account(id, 0, wire + taken, rest, accepted)
  {
    hide Encode32, Flatten;
    var empty := Encode32(id)[4..];
    assert wire + empty + (taken + rest) == (wire + taken) + empty + rest;
  }

  lemma AccountSendsId(id: u32, pending: nat, wire: seq<byte>, queue: seq<byte>, accepted: seq<seq<byte>>, w: nat)
    requires Account(id, pending, wire, queue, accepted) && 0 < pending && w <= pending
    ensures Account(id, pending - w, wire + Encode32(id)[4 - pending..4 - pending + w], queue, accepted)
  {
    hide Encode32, Flatten;
    var raw, from := Encode32(id), 4 - pending;
    assert raw[..from] + raw[from..from + w] == raw[..from + w];
    assert (wire + raw[from..from + w]) + raw[from + w..] == wire + raw[from..];
  }

  class Client {
    const id: u32
    const clientToNetwork: PB.Ipv4PacketBuffer
    const networkToClient: SB.StreamBuffer
    var interests: Ready
    var closed: bool
    var pendingPacketSources: seq<PacketSource>
    var pendingIdBytes: nat
    /** Packets handed to the router. */
    var routed: seq<seq<byte>>
    /** Packets accepted for the phone, and bytes written to it. */
    ghost var accepted: seq<seq<byte>>
    ghost var wire: seq<byte>
    /** Bytes read from the phone. */
    ghost var uplink: seq<byte>
    /** The connections that may defer a packet; one joins when it is open, before it can. */
    ghost var sources: set<PacketSource>

    ghost function Queue(): seq<byte>
      reads networkToClient, networkToClient.buf
      requires networkToClient.Valid()
    {
      networkToClient.Contents()
    }

    ghost predicate Wired()
      reads this`wire, this`accepted, this`pendingIdBytes, networkToClient, networkToClient.buf
      ensures Wired() ==> networkToClient.Valid() && networkToClient.Capacity() == 16 * MAX_PACKET_LENGTH
    {
      && networkToClient.Valid() && networkToClient.Capacity() == 16 * MAX_PACKET_LENGTH
      && Account(id, pendingIdBytes, wire, Queue(), accepted)
    }

    /** A source holds a deferred packet exactly when it is in the list, and it is there once. */
    ghost predicate Listed()
      reads this`pendingPacketSources, this`sources, sources
    {
      && (forall s :: s in pendingPacketSources ==> s in sources)
      && (forall s :: s in sources ==> (s.packet.Some? <==> s in pendingPacketSources))
      && Distinct(pendingPacketSources)
      && (forall s :: s in pendingPacketSources && s.packet.Some? ==> Sound(s.packet.value))
    }

    /** Deferred packets wait behind a queue that is not empty, so the phone's reads bring them out. */
    ghost predicate Awaited()
      reads this`pendingPacketSources, networkToClient, networkToClient.buf
      requires networkToClient.Valid()
    {
      pendingPacketSources != [] ==> Queue() != []
    }

    /** The router got the packets at the front of what was read, and the buffer holds the rest. */
    ghost predicate Uplinked()
      reads this`routed, this`uplink, clientToNetwork.buf, clientToNetwork.buf.buf
    {
      && clientToNetwork.Valid() && IsStream(uplink)
      && routed == Packets(uplink) && clientToNetwork.Peek() == Rest(uplink)
    }

    ghost predicate Valid()
      reads this, clientToNetwork.buf, clientToNetwork.buf.buf, networkToClient, networkToClient.buf, sources
    {
      Wired() && Listed() && Awaited() && Uplinked() && networkToClient.buf != clientToNetwork.buf.buf
    }

    /** No lost wake-up: queued bytes are registered for. */
    ghost predicate Wakes()
      reads this`interests, networkToClient, networkToClient.buf
      requires networkToClient.Valid()
    {
      Queue() != [] ==> interests.writable
    }

    /** Bytes of the id still to be written are registered for. */
    predicate IdWakes()
      reads this`interests, this`pendingIdBytes
    {
      pendingIdBytes > 0 ==> interests.writable
    }

    constructor (id: u32)
      ensures Valid() && this.id == id && sources == {}
      ensures interests == Ready(false, true) && pendingIdBytes == 4 && Queue() == [] && accepted == [] && !closed
    {
      this.id := id;
      clientToNetwork := new PB.Ipv4PacketBuffer();
      networkToClient := new SB.StreamBuffer(16 * MAX_PACKET_LENGTH);
      interests, closed, pendingPacketSources, pendingIdBytes := Ready(false, true), false, [], 4;
      routed, accepted, wire, uplink := [], [], [], [];
      sources := {};
      new;
      EmptyStream();
      AccountBegins(id);
      hide Account;
    }

    /** The router opens a connection. */
    ghost method Open(source: PacketSource)
      requires Valid() && source.packet == None
      modifies this`sources
      ensures Valid() && sources == old(sources) + {source}
    {
      hide Wired, Uplinked;
      sources := sources + {source};
    }

    predicate MustSendId()
      reads this
    {
      pendingIdBytes > 0
    }

    method UpdateInterests()
      requires networkToClient.Valid()
      modifies this`interests
      ensures interests == Ready(true, Queue() != [])
    {
      interests := if networkToClient.IsEmpty() then Ready(true, false) else Ready(true, true);
    }

    /** The declared length is checked against the room; the raw bytes are queued, or fail the buffer's assertion. */
    method SendToClient(d: Deferred) returns (r: Sending)
      requires Wired()
      modifies this`interests, this`accepted, networkToClient, networkToClient.buf
      ensures var room := old(networkToClient.Remaining());
        r == if room < d.declared then Full else if room < |d.raw| then Panicked else Queued
      ensures Wired() && (old(Wakes()) ==> Wakes())
      ensures r.Queued? ==> Queue() == old(Queue()) + d.raw && accepted == old(accepted) + [d.raw]
      ensures r.Queued? ==> networkToClient.Remaining() == old(networkToClient.Remaining()) - |d.raw|
      ensures r.Queued? ==> interests == Ready(true, Queue() != [])
      ensures !r.Queued? ==> Queue() == old(Queue()) && accepted == old(accepted) && interests == old(interests)
      ensures !r.Queued? ==> networkToClient.Remaining() == old(networkToClient.Remaining())
    {
      hide SB.StreamBuffer.Contents, Account;
      if networkToClient.Remaining() < d.declared {
        return Full;
      }
      if networkToClient.Remaining() < |d.raw| {
        return Panicked;
      }
      AccountQueues(id, pendingIdBytes, wire, Queue(), accepted, d.raw);
      networkToClient.ReadFrom(d.raw);
      accepted := accepted + [d.raw];
      UpdateInterests();
      r := Queued;
    }

    /** What a connection does with a packet just read: send it, or keep it and ask to be pulled. */
    method SendOrDefer(source: PacketSource, raw: seq<byte>) returns (ok: bool)
      requires Valid() && source in sources && source.packet == None && 0 < |raw| < MAX_PACKET_LENGTH
      modifies this`interests, this`accepted, this`pendingPacketSources,
               networkToClient, networkToClient.buf, source
      ensures Valid() && ok == (|raw| <= old(networkToClient.Remaining())) && (old(Wakes()) ==> Wakes())
      ensures ok ==> accepted == old(accepted) + [raw] && pendingPacketSources == old(pendingPacketSources)
      ensures ok ==> Queue() == old(Queue()) + raw && interests == Ready(true, true)
      ensures !ok ==> accepted == old(accepted) && pendingPacketSources == old(pendingPacketSources) + [source]
      ensures !ok ==> source.packet == Some(Deferred(|raw|, raw, true))
      ensures !ok ==> Queue() == old(Queue()) && interests == old(interests)
    {
      hide SB.StreamBuffer.Contents, Wired, Uplinked;
      var sending := SendToClient(Deferred(|raw|, raw, true));
      ok := sending.Queued?;
      if !ok {
        pendingPacketSources := pendingPacketSources + [source];
        source.packet := Some(Deferred(|raw|, raw, true));
      }
    }

    /** A connection's immediate answer, through the channel; it is lost when there is no room for it. */
    method Reply(a: Answer)
      requires Wired() && Listed() && Awaited() && Answers(a)
      modifies this`interests, this`accepted, networkToClient, networkToClient.buf, sources
      ensures Wired() && Listed() && Awaited() && (old(Wakes()) ==> Wakes())
      ensures accepted == old(accepted) + if |a.raw| <= old(networkToClient.Remaining()) then [a.raw] else []
      ensures networkToClient.Remaining() == RoomLeft([a], old(networkToClient.Remaining()))
      ensures a.source.Some? ==> a.source.value.packet == Forged(old(a.source.value.packet), a.raw, a.closes)
      ensures forall s :: s in sources && a.source != Some(s) ==> s.packet == old(s.packet)
    {
      hide SB.StreamBuffer.Contents, Wired, Distinct;
      if a.source.Some? {
        a.source.value.Forge(a.raw, a.closes);
      }
      var _ := SendToClient(Deferred(|a.raw|, a.raw, true));
    }

    /** An answer of one of the client's connections. */
    ghost predicate Answers(a: Answer)
      reads this`sources
    {
      0 < |a.raw| < MAX_PACKET_LENGTH && (a.source.Some? ==> a.source.value in sources)
    }

    // ---- socket events

    method SendId(socket: Sink) returns (r: Result<()>)
      requires Wired() && MustSendId()
      modifies this`pendingIdBytes, this`wire
      ensures Wired() && old(wire) <= wire && r == if socket.Fails? then Err(socket.error) else Ok(())
      ensures pendingIdBytes
        == old(pendingIdBytes) - if socket.Fails? then 0 else Min(socket.limit, old(pendingIdBytes))
    {
      hide SB.StreamBuffer.Contents, Encode32, Account;
      match socket
      case Fails(error) => r := Err(error);
      case Takes(limit) =>
        ghost var raw, from := Encode32(id), 4 - pendingIdBytes;
        var w := Min(limit, pendingIdBytes);
        PendingFits();
        AccountSendsId(id, pendingIdBytes, wire, Queue(), accepted, w);
        wire := wire + Encode32(id)[4 - pendingIdBytes..4 - pendingIdBytes + w];
        pendingIdBytes := pendingIdBytes - w;
        r := Ok(());
    }

    lemma PendingFits()
      requires Wired()
      ensures pendingIdBytes <= 4
    {}

    method Write(socket: Sink) returns (r: Result<()>)
      requires Wired() && !MustSendId()
      modifies this`wire, networkToClient
      ensures Wired() && old(wire) <= wire && wire + Queue() == old(wire + Queue())
      ensures |wire| == old(|wire| + Offered(socket))
      ensures networkToClient.Remaining() == old(networkToClient.Remaining()) + |wire| - |old(wire)|
      ensures old(Wakes()) ==> Wakes()
      ensures r == if socket.Fails? && old(Queue()) != [] then Err(socket.error) else Ok(())
      ensures r.Err? ==> Queue() == old(Queue()) && wire == old(wire)
    {
      hide SB.StreamBuffer.Contents, Account;
      ghost var taken;
      var w;
      w, taken := networkToClient.WriteTo(socket);
      AccountWrites(id, wire, taken, Queue(), accepted);
      assert wire + (taken + Queue()) == (wire + taken) + Queue();
      wire := wire + taken;
      r := if w.Ok? then Ok(()) else Err(w.error);
    }

    /**
     One pass over the deferred packets, in order; what is kept does not fit even after the pass.
     It fails an assertion exactly when one of them was spoiled, or closed, in the way that `Trips` says.
     */
    method ProcessPending() returns (r: Outcome)
      requires Wired() && Listed()
      modifies this`interests, this`accepted, this`pendingPacketSources,
               networkToClient, networkToClient.buf, pendingPacketSources
      ensures r == if Trips(old(HeldBy(pendingPacketSources)), old(networkToClient.Remaining())) then Panics else Done
      ensures old(accepted) <= accepted
      ensures r.Done? ==> Wired() && Listed() && Awaited() && (old(Wakes()) ==> Wakes())
      ensures r.Done? ==>
        var before := old(pendingPacketSources);
        var pass := Pass(old(HeldBy(pendingPacketSources)), old(networkToClient.Remaining()));
        && pendingPacketSources == Select(before, pass, false)
        && accepted == old(accepted) + Raws(Select(old(HeldBy(pendingPacketSources)), pass, true))
      ensures r.Done? ==> forall s :: s in pendingPacketSources ==>
        s.packet.Some? && networkToClient.Remaining() < s.packet.value.declared
    {
      hide SB.StreamBuffer.Contents, Wired, Distinct, Pass, Select, Trips;
      var vec := pendingPacketSources;
      assert forall i :: 0 <= i < |vec| ==> vec[i] in pendingPacketSources;
      ghost var ds := HeldBy(vec);
      hide HeldBy;
      pendingPacketSources := [];
      ghost var done;
      r, done := PullEach(vec, ds);
      if r.Done? {
        PassLists(vec, done);
        assert pendingPacketSources != [] ==> pendingPacketSources[0] in pendingPacketSources;
      }
    }

    /** What a pass keeps is again the list of those that hold a packet. */
    lemma PassLists(vec: seq<PacketSource>, done: seq<bool>)
      requires Distinct(vec) && |done| == |vec| && pendingPacketSources == Select(vec, done, false)
      requires forall i :: 0 <= i < |vec| ==> vec[i] in sources && (vec[i].packet.Some? <==> !done[i])
      requires forall i :: 0 <= i < |vec| && !done[i] ==>
        && Sound(vec[i].packet.value)
        && networkToClient.Valid() && networkToClient.Remaining() < vec[i].packet.value.declared
      requires forall s :: s in sources && s.packet.Some? ==> s in vec
      ensures Listed()
      ensures forall s :: s in pendingPacketSources ==>
        s.packet.Some? && networkToClient.Valid() && networkToClient.Remaining() < s.packet.value.declared
    {
      SelectMembers(vec, done, false);
      SelectDistinct(vec, done, false);
      hide Distinct, Select;
      forall s | s in pendingPacketSources
        ensures s in sources && s.packet.Some? && Sound(s.packet.value)
        ensures networkToClient.Valid() && networkToClient.Remaining() < s.packet.value.declared
      {
        var k :| 0 <= k < |vec| && vec[k] == s && !done[k];
      }
      forall s | s in sources && s.packet.Some?
        ensures s in pendingPacketSources
      {
        var k :| 0 <= k < |vec| && vec[k] == s;
      }
    }

    method PullEach(vec: seq<PacketSource>, ghost ds: seq<Deferred>) returns (r: Outcome, ghost done: seq<bool>)
      requires Wired() && Distinct(vec) && pendingPacketSources == [] && |ds| == |vec| && AllSound(ds)
      requires forall i :: 0 <= i < |vec| ==> vec[i].packet == Some(ds[i])
      modifies this`interests, this`accepted, this`pendingPacketSources,
               networkToClient, networkToClient.buf, vec
      ensures r == if Trips(ds, old(networkToClient.Remaining())) then Panics else Done
      ensures old(accepted) <= accepted
      ensures r.Done? ==>
        && Wired() && (old(Wakes()) ==> Wakes())
        && done == Pass(ds, old(networkToClient.Remaining()))
        && pendingPacketSources == Select(vec, done, false)
        && accepted == old(accepted) + Raws(Select(ds, done, true))
        && (forall k :: 0 <= k < |vec| ==> vec[k].packet == if done[k] then None else Some(ds[k]))
        && (forall k :: 0 <= k < |vec| && !done[k] ==> networkToClient.Remaining() < ds[k].declared)
    {
      hide SB.StreamBuffer.Contents, Wired, Distinct, Pass, Select, Trips, TripsOne;
      ghost var room := networkToClient.Remaining();
      done := [];
      PassBegins(ds, room);
      hide SoFar;
      SelectNone(vec, done, false);
      SelectNone(ds, done, true);
      for i := 0 to |vec|
        invariant |done| == i && Wired() && (old(Wakes()) ==> Wakes())
        invariant SoFar(ds, room, done, networkToClient.Remaining())
        invariant pendingPacketSources == Select(vec[..i], done, false)
        invariant accepted == old(accepted) + Raws(Select(ds[..i], done, true))
        invariant forall k :: i <= k < |vec| ==> vec[k].packet == Some(ds[k])
        invariant forall k :: 0 <= k < i ==> vec[k].packet == if done[k] then None else Some(ds[k])
        invariant forall k :: 0 <= k < i && !done[k] ==> networkToClient.Remaining() < ds[k].declared
      {
        PassStep(ds, room, done, networkToClient.Remaining());
        Apart(vec, i);
        var sending := PullOne(vec[i]);
        if sending.Panicked? {
          r := Panics;
          return;
        }
        SelectStep(vec, i, done, false, sending.Queued?);
        SelectStep(ds, i, done, true, sending.Queued?);
        done := done + [sending.Queued?];
      }
      assert vec[..|vec|] == vec && ds[..|vec|] == ds;
      PassEnds(ds, room, done, networkToClient.Remaining());
      r := Done;
    }

    method PullOne(source: PacketSource) returns (r: Sending)
      requires Wired() && source.packet.Some?
      modifies this`interests, this`accepted, this`pendingPacketSources,
               networkToClient, networkToClient.buf, source
      ensures old(accepted) <= accepted
      ensures var d, room := old(source.packet.value), old(networkToClient.Remaining());
        && r == (if TripsOne(d, room) then Panicked else if d.declared <= room then Queued else Full)
        && (!r.Panicked? ==>
              && Wired() && (old(Wakes()) ==> Wakes())
              && networkToClient.Remaining() == Left(d, room)
              && source.packet == (if r.Queued? then None else Some(d))
              && accepted == old(accepted) + (if r.Queued? then [d.raw] else [])
              && pendingPacketSources == old(pendingPacketSources) + if r.Queued? then [] else [source])
    {
      hide SB.StreamBuffer.Contents, Wired;
      var d := source.Get();
      r := SendToClient(d);
      if r.Queued? {
        if !d.open {
          return Panicked;
        }
        source.Next();
      } else if r.Full? {
        pendingPacketSources := pendingPacketSources + [source];
      }
    }

    /** The bytes that a write puts on the wire: at most what the socket takes, and one slice. */
    ghost function Offered(socket: Sink): (n: nat)
      reads networkToClient, networkToClient.buf
      requires networkToClient.Valid()
      ensures n <= |Queue()|
    {
      if socket.Takes? then Min(socket.limit, networkToClient.Contiguous()) else 0
    }

    /** The write fails: for the id only if for good, for the queue in any way. */
    ghost predicate WriteFails(socket: Sink)
      reads this, networkToClient, networkToClient.buf
      requires networkToClient.Valid()
    {
      if MustSendId() then socket == Fails(OtherError) else socket.Fails? && Queue() != []
    }

    /** The id would block, and the handler returns at once. */
    ghost predicate IdBlocks(socket: Sink)
      reads this
    {
      MustSendId() && socket == Fails(WouldBlock)
    }

    /** What the pass over the deferred packets starts from, once `written` bytes more have left the queue. */
    ghost function Passing(written: int): seq<bool>
      reads this, networkToClient, networkToClient.buf, pendingPacketSources
      requires networkToClient.Valid() && 0 <= networkToClient.Remaining() + written
      requires forall s :: s in pendingPacketSources ==> s.packet.Some?
    {
      Pass(HeldBy(pendingPacketSources), networkToClient.Remaining() + written)
    }

    /** The pass over the deferred packets fails, once the queue has made room for `written` bytes more. */
    ghost predicate PassFails(written: int)
      reads this, networkToClient, networkToClient.buf, pendingPacketSources
      requires networkToClient.Valid() && 0 <= networkToClient.Remaining() + written
    {
      && (forall s :: s in pendingPacketSources ==> s.packet.Some?)
      && Trips(HeldBy(pendingPacketSources), networkToClient.Remaining() + written)
    }

    method ProcessSend(socket: Sink) returns (r: Outcome)
      requires Wired() && Listed() && Awaited() && Wakes()
      modifies this`interests, this`accepted, this`pendingPacketSources, this`pendingIdBytes, this`wire, this`closed,
               networkToClient, networkToClient.buf, pendingPacketSources
      ensures old(wire) <= wire && old(accepted) <= accepted
      ensures r.Early? <==> old(IdBlocks(socket))
      ensures r.Early? ==> old(MustSendId()) && socket == Fails(WouldBlock)
      ensures var written := |wire| - |old(wire)|;
        && 0 <= old(networkToClient.Remaining()) + written
        && (r.Panics? <==> !old(MustSendId()) && (socket.Takes? || old(Queue()) == []) && old(PassFails(written)))
      ensures !r.Panics? ==> Wired() && Listed() && (!closed ==> Awaited() && Wakes())
      ensures r.Early? ==>
        interests == old(interests) && Queue() == old(Queue()) && pendingIdBytes == old(pendingIdBytes)
      ensures old(MustSendId()) ==>
        && interests == old(interests) && Queue() == old(Queue())
        && accepted == old(accepted) && pendingPacketSources == old(pendingPacketSources)
      ensures !old(MustSendId()) ==> !MustSendId()
      ensures old(MustSendId()) && socket.Takes? ==>
        closed == old(closed) && pendingIdBytes == old(pendingIdBytes) - Min(socket.limit, old(pendingIdBytes))
      ensures closed <==> old(closed) || old(WriteFails(socket))
      ensures !old(MustSendId()) ==> |wire| == old(|wire| + Offered(socket))
      ensures !old(MustSendId()) && r.Done? && !old(WriteFails(socket)) ==>
        var pass := old(Passing(Offered(socket)));
        && pendingPacketSources == Select(old(pendingPacketSources), pass, false)
        && accepted == old(accepted) + Raws(Select(old(HeldBy(pendingPacketSources)), pass, true))
    {
      hide SB.StreamBuffer.Contents, Wired, Listed, Trips, Pass, Select;
      if MustSendId() {
        var sent := SendId(socket);
        if sent.Err? {
          if sent.error == WouldBlock {
            return Early;
          }
          closed := true;
        }
        r := Done;
      } else {
        AllHold();
        var sent := Write(socket);
        if sent.Ok? {
          r := ProcessPending();
        } else {
          closed := true;
          r := Done;
        }
      }
    }

    lemma AllHold()
      requires Listed()
      ensures forall s :: s in pendingPacketSources ==> s.packet.Some?
    {}

    /** Read once, then route every whole packet, if they parse; an empty read is the end of the stream. */
    method ProcessReceive(arrived: Result<seq<byte>>, answers: seq<seq<Answer>>) returns (r: Outcome)
      requires Separate() && Uplinked() && Wired() && Listed() && Awaited() && AllAnswer(answers)
      requires arrived.Ok? ==> IsStream(uplink + arrived.value)
      modifies this`closed, this`routed, this`uplink, clientToNetwork.Repr(),
               this`interests, this`accepted, networkToClient, networkToClient.buf, sources
      ensures old(uplink) <= uplink && old(routed) <= routed && old(accepted) <= accepted
      ensures r == if arrived == Err(WouldBlock) then Early
                   else if !Parses(old(clientToNetwork.Peek()) + uplink[|old(uplink)|..]) then Panics else Done
      ensures !r.Panics? ==> Uplinked() && Wired() && Listed() && Awaited() && (old(Wakes()) ==> Wakes())
      ensures closed <==> old(closed) || arrived == Err(OtherError) || arrived == Ok([])
      ensures r.Early? ==> interests == old(interests) && Queue() == old(Queue()) && uplink == old(uplink)
      ensures uplink == old(uplink) + old(Arrives(arrived))
      ensures r.Done? ==>
        accepted == old(accepted) + Fitting(Spoken(answers, |routed| - |old(routed)|), old(networkToClient.Remaining()))
    {
      hide SB.StreamBuffer.Contents, Wired, Listed, IsStream, Uplinked, Pushing, AllAnswer, Parses;
      r := Done;
      RestParses();
      assert clientToNetwork.Peek() + uplink[|uplink|..] == clientToNetwork.Peek();
      match arrived
      case Err(WouldBlock) => r := Early;
      case Err(OtherError) => closed := true;
      case Ok(bytes) =>
        ghost var taken;
        var more;
        more, taken := Read(bytes);
        if more {
          var parsed := PushToNetwork(answers);
          r := if parsed then Done else Panics;
        } else {
          closed := true;
        }
    }

    /** The bytes that a read takes of what has arrived: all that the buffer has room for. */
    ghost function Arrives(arrived: Result<seq<byte>>): seq<byte>
      reads clientToNetwork.buf, clientToNetwork.buf.buf
      requires clientToNetwork.Valid()
    {
      if arrived.Err? then []
      else arrived.value[..Min(|arrived.value|, MAX_PACKET_LENGTH - |clientToNetwork.Peek()|)]
    }

    lemma RestParses()
      requires Uplinked()
      ensures clientToNetwork.Valid() && Parses(clientToNetwork.Peek())
    {}

    /** The two queues do not share an array. */
    ghost predicate Separate() {
      networkToClient.buf != clientToNetwork.buf.buf
    }

    ghost predicate AllAnswer(answers: seq<seq<Answer>>)
      reads this`sources
    {
      forall k :: 0 <= k < |answers| ==> EachAnswers(answers[k])
    }

    ghost predicate EachAnswers(answers: seq<Answer>)
      reads this`sources
    {
      forall a :: a in answers ==> Answers(a)
    }

    lemma AnswersToAnswer(answers: seq<seq<Answer>>, k: nat)
      requires AllAnswer(answers)
      ensures EachAnswers(AnswersTo(answers, k))
    {}

    /** False is the end of the stream: a cut packet always leaves room to read. */
    method Read(arrived: seq<byte>) returns (more: bool, ghost taken: seq<byte>)
      requires Uplinked() && IsStream(uplink + arrived)
      modifies this`uplink, clientToNetwork.Repr()
      ensures more <==> arrived != []
      ensures taken <= arrived && uplink == old(uplink) + taken && Pushing()
      ensures taken == old(Arrives(Ok(arrived)))
      ensures !more ==> Uplinked()
      ensures clientToNetwork.Valid() && clientToNetwork.Peek() == old(clientToNetwork.Peek()) + taken
    {
      hide Packets, Rest, IsCut, ArePackets;
      CutIsIncomplete(clientToNetwork.Peek());
      ghost var held := clientToNetwork.Peek();
      more, taken := clientToNetwork.buf.ReadFrom(arrived);
      PrefixOfStream(uplink, arrived, |taken|);
      SplitInChunks(uplink, taken);
      StreamInChunks(uplink, taken);
      hide IsStream;
      assert taken == [] ==> uplink + taken == uplink && held + taken == held;
      uplink := uplink + taken;
    }

    /** The packets of the stream not yet routed are those at the front of the buffer. */
    ghost predicate Pushing()
      reads this`routed, this`uplink, clientToNetwork.buf, clientToNetwork.buf.buf
    {
      && clientToNetwork.Valid() && IsStream(uplink) && IsStream(clientToNetwork.Peek())
      && Packets(uplink) == routed + Packets(clientToNetwork.Peek())
      && Rest(uplink) == Rest(clientToNetwork.Peek())
    }

    /** The packet at the front has been routed, and is still there. */
    ghost predicate Routed()
      reads this`routed, this`uplink, clientToNetwork.buf, clientToNetwork.buf.buf
    {
      && clientToNetwork.Valid() && IsStream(uplink) && IsStream(clientToNetwork.Peek())
      && Complete(clientToNetwork.Peek())
      && Packets(uplink) == routed + Packets(clientToNetwork.Peek()[FirstLength(clientToNetwork.Peek())..])
      && Rest(uplink) == Rest(clientToNetwork.Peek())
    }

    /**
     Each packet goes to its connection, which may answer at once: the k-th one with the k-th answers, if any.
     It stops, and the relay with it, at a packet that does not parse.
     */
    method PushToNetwork(answers: seq<seq<Answer>>) returns (parsed: bool)
      requires Separate() && clientToNetwork.Valid() && Pushing()
      requires Wired() && Listed() && Awaited() && AllAnswer(answers)
      modifies this`routed, clientToNetwork.Repr(),
               this`interests, this`accepted, networkToClient, networkToClient.buf, sources
      ensures parsed <==> Parses(old(clientToNetwork.Peek()))
      ensures old(routed) <= routed && old(accepted) <= accepted
      ensures parsed ==> Uplinked() && Wired() && Listed() && Awaited() && (old(Wakes()) ==> Wakes())
      ensures parsed ==>
        accepted == old(accepted) + Fitting(Spoken(answers, |routed| - |old(routed)|), old(networkToClient.Remaining()))
    {
      hide SB.StreamBuffer.Contents, Wired, Listed, Awaited, Wakes, Routed, Pushing, Onward, Complete,
           FirstLength, Packets, Rest, IsStream, Parses, ParseFits, AllAnswer, EachAnswers, AnswersTo,
           Spoken, Fitting, RoomLeft;
      ghost var start, woke := clientToNetwork.Peek(), Wakes();
      ghost var heard, room := accepted, networkToClient.Remaining();
      var k := 0;
      AnswersToAnswer(answers, 0);
      NothingHeard(answers, room);
      HearOne(answers, 0, room);
      var more;
      more, parsed := PushOnePacket(AnswersTo(answers, 0));
      GoesOnward(start, more, parsed);
      while more
        invariant clientToNetwork.Valid() && Onward(start, more, parsed)
        invariant old(routed) <= routed && |routed| == |old(routed)| + k + (if more then 1 else 0)
        invariant Wired() && Listed() && Awaited() && (woke ==> Wakes())
        invariant accepted == heard + Fitting(Spoken(answers, if more then k + 1 else k), room)
        invariant networkToClient.Remaining() == RoomLeft(Spoken(answers, if more then k + 1 else k), room)
        decreases more, |clientToNetwork.Peek()|
      {
        k := k + 1;
        MoreOnward(start, parsed);
        Next();
        AnswersToAnswer(answers, k);
        HearOne(answers, k, room);
        more, parsed := PushOnePacket(AnswersTo(answers, k));
        GoesOnward(start, more, parsed);
      }
      AllPushed(start, parsed);
    }

    lemma NothingHeard(answers: seq<seq<Answer>>, room: nat)
      ensures Spoken(answers, 0) == [] && Fitting([], room) == [] && RoomLeft([], room) == room
    {}

    /** The answers to one packet more. */
    lemma HearOne(answers: seq<seq<Answer>>, k: nat, room: nat)
      ensures var before, now := Spoken(answers, k), Spoken(answers, k + 1);
        && (forall heard: seq<seq<byte>> :: (heard + Fitting(before, room))
              + Fitting(AnswersTo(answers, k), RoomLeft(before, room)) == heard + Fitting(now, room))
        && RoomLeft(now, room) == RoomLeft(AnswersTo(answers, k), RoomLeft(before, room))
    {
      FittingInTurn(Spoken(answers, k), AnswersTo(answers, k), room);
    }

    /** The loop so far: a packet was routed and more may follow, or it is over, well if and only if `start` parses. */
    ghost predicate Onward(start: seq<byte>, more: bool, parsed: bool)
      reads this`routed, this`uplink, clientToNetwork.buf, clientToNetwork.buf.buf
      requires clientToNetwork.Valid()
    {
      var s := clientToNetwork.Peek();
      if more then
        parsed && Routed() && Complete(s) && (Parses(start) <==> Parses(s[FirstLength(s)..]))
      else
        (parsed <==> Parses(start)) && (parsed ==> Pushing() && !Complete(s))
    }

    lemma GoesOnward(start: seq<byte>, more: bool, parsed: bool)
      requires clientToNetwork.Valid() && (Parses(start) <==> Parses(clientToNetwork.Peek()))
      requires parsed <==> (Complete(clientToNetwork.Peek()) ==> ParseFits(clientToNetwork.Peek()))
      requires more <==> parsed && Complete(clientToNetwork.Peek())
      requires parsed ==> if more then Routed() else Pushing()
      ensures Onward(start, more, parsed)
    {
      ParsesStep(clientToNetwork.Peek());
      hide Routed, Pushing, Parses, Complete, FirstLength, ParseFits;
    }

    lemma MoreOnward(start: seq<byte>, parsed: bool)
      requires clientToNetwork.Valid() && Onward(start, true, parsed)
      ensures var s := clientToNetwork.Peek();
        parsed && Routed() && Complete(s) && (Parses(start) <==> Parses(s[FirstLength(s)..]))
    {}

    lemma AllPushed(start: seq<byte>, parsed: bool)
      requires clientToNetwork.Valid() && Onward(start, false, parsed)
      ensures (parsed <==> Parses(start)) && (parsed ==> Uplinked())
    {}

    /** Route the packet at the front, if a whole one stands there and its headers can be read. */
    method PushOnePacket(answers: seq<Answer>) returns (more: bool, parsed: bool)
      requires Separate() && clientToNetwork.Valid() && Pushing()
      requires Wired() && Listed() && Awaited() && EachAnswers(answers)
      modifies this`routed, this`interests, this`accepted, networkToClient, networkToClient.buf, sources
      ensures parsed <==> (Complete(clientToNetwork.Peek()) ==> ParseFits(clientToNetwork.Peek()))
      ensures more <==> parsed && Complete(clientToNetwork.Peek())
      ensures clientToNetwork.Valid() && clientToNetwork.Peek() == old(clientToNetwork.Peek())
      ensures parsed ==> if more then Routed() else Pushing()
      ensures Wired() && Listed() && Awaited() && (old(Wakes()) ==> Wakes())
      ensures |routed| == |old(routed)| + (if more then 1 else 0) && old(routed) <= routed
      ensures accepted == old(accepted) + if more then Fitting(answers, old(networkToClient.Remaining())) else []
      ensures networkToClient.Remaining()
        == if more then RoomLeft(answers, old(networkToClient.Remaining())) else old(networkToClient.Remaining())
    {
      hide IsStream, IsVersion4, SB.StreamBuffer.Contents, Wired, Listed, ParseFits, EachAnswers, Packets, Rest,
           Fitting, RoomLeft;
      ghost var s := clientToNetwork.Peek();
      NotStuck(s);
      var packet := clientToNetwork.AsIpv4Packet();
      more, parsed := packet.Packet?, !packet.ParsePanics?;
      if more {
        OneMoreRouted(routed, s);
        routed := routed + [packet.raw];
        hide Complete, FirstLength;
        ReplyEach(answers);
      }
    }

    lemma NotStuck(s: seq<byte>)
      requires IsStream(s)
      ensures !Stuck(s) && (s != [] ==> IsVersion4(s))
    {
      StreamAdvances(s);
    }

    lemma OneMoreRouted(routed: seq<seq<byte>>, s: seq<byte>)
      requires Complete(s)
      ensures routed + Packets(s) == (routed + [s[..FirstLength(s)]]) + Packets(s[FirstLength(s)..])
    {
      PacketsStep(s);
      hide Packets;
    }

    method ReplyEach(answers: seq<Answer>)
      requires Wired() && Listed() && Awaited() && EachAnswers(answers)
      modifies this`interests, this`accepted, networkToClient, networkToClient.buf, sources
      ensures Wired() && Listed() && Awaited() && (old(Wakes()) ==> Wakes())
      ensures accepted == old(accepted) + Fitting(answers, old(networkToClient.Remaining()))
      ensures networkToClient.Remaining() == RoomLeft(answers, old(networkToClient.Remaining()))
    {
      hide SB.StreamBuffer.Contents, Wired, Listed;
      ghost var room, before := networkToClient.Remaining(), accepted;
      for i := 0 to |answers|
        invariant Wired() && Listed() && Awaited() && (old(Wakes()) ==> Wakes())
        invariant before + Fitting(answers, room) == accepted + Fitting(answers[i..], networkToClient.Remaining())
        invariant RoomLeft(answers, room) == RoomLeft(answers[i..], networkToClient.Remaining())
      {
        ghost var so, rest := accepted, answers[i + 1..];
        assert answers[i..][0] == answers[i] && answers[i..][1..] == rest;
        Reply(answers[i]);
        assert (so + [answers[i].raw]) + Fitting(rest, networkToClient.Remaining())
            == so + ([answers[i].raw] + Fitting(rest, networkToClient.Remaining()));
      }
      assert answers[|answers|..] == [];
    }

    /** Drop the packet that was routed. */
    method Next()
      requires clientToNetwork.Valid() && Routed() && Complete(clientToNetwork.Peek())
      modifies clientToNetwork.Repr()
      ensures clientToNetwork.Valid() && Pushing()
      ensures clientToNetwork.Peek() == old(clientToNetwork.Peek()[FirstLength(clientToNetwork.Peek())..])
      ensures |clientToNetwork.Peek()| < old(|clientToNetwork.Peek()|)
    {
      ghost var s := clientToNetwork.Peek();
      StreamTail(s);
      PacketsStep(s);
      hide IsStream, Packets, Rest;
      clientToNetwork.Next();
    }

    /**
     One event. Unless it returns early it settles the interests, and then the id, if it is not wholly written, is
     registered for only when packets happen to be queued behind it.
     */
    method Process(e: Event, socket: Sink, arrived: Result<seq<byte>>, answers: seq<seq<Answer>>) returns (r: Outcome)
      requires Valid() && (closed || Wakes()) && AllAnswer(answers)
      requires arrived.Ok? ==> IsStream(uplink + arrived.value)
      modifies this, networkToClient, networkToClient.buf, clientToNetwork.Repr(), sources
      ensures old(wire) <= wire && old(accepted) <= accepted && old(routed) <= routed && old(uplink) <= uplink
      ensures var written := |wire| - |old(wire)|;
        && 0 <= old(networkToClient.Remaining()) + written
        && (r.Panics? <==>
              || (!old(closed) && e.writable && !old(MustSendId())
                  && (socket.Takes? || old(Queue()) == []) && old(PassFails(written)))
              || !Parses(old(clientToNetwork.Peek()) + uplink[|old(uplink)|..]))
      ensures !r.Panics? ==> Valid() || closed
      ensures !r.Panics? ==> Wired() && Listed() && Uplinked() && (!closed ==> Awaited() && Wakes())
      ensures old(closed) ==> closed && accepted == old(accepted) && routed == old(routed) && wire == old(wire)
      ensures !e.readable && old(MustSendId()) ==> !r.Panics?
      ensures !e.readable && old(MustSendId()) ==> networkToClient.Valid() && Queue() == old(Queue())
      ensures r.Done? && !closed ==> interests == Ready(true, Queue() != [])
      ensures r.Done? && !closed ==> (IdWakes() <==> pendingIdBytes == 0 || Queue() != [])
      ensures r.Early? ==> (IdWakes() <==> pendingIdBytes == 0 || old(interests).writable)
      // the write half
      ensures old(closed) || !e.writable ==> wire == old(wire) && pendingIdBytes == old(pendingIdBytes)
      ensures !old(closed) && e.writable && !old(MustSendId()) ==>
        |wire| == old(|wire| + Offered(socket)) && pendingIdBytes == 0
      ensures !old(closed) && e.writable && old(MustSendId()) && socket.Takes? ==>
        pendingIdBytes == old(pendingIdBytes) - Min(socket.limit, old(pendingIdBytes))
      ensures !old(closed) && e.writable && !old(MustSendId()) && !old(WriteFails(socket)) && !r.Panics? ==>
        var pass := old(Passing(Offered(socket)));
        && pendingPacketSources == Select(old(pendingPacketSources), pass, false)
        && old(accepted) + Raws(Select(old(HeldBy(pendingPacketSources)), pass, true)) <= accepted
      ensures !old(closed) && !e.writable && r.Done? ==>
        accepted == old(accepted) + Fitting(Spoken(answers, |routed| - |old(routed)|), old(networkToClient.Remaining()))
      // the read half, unless the write half failed or returned
      ensures var reached := e.readable && !old(closed) && !(e.writable && old(WriteFails(socket) || IdBlocks(socket)));
        && (!reached ==> uplink == old(uplink) && routed == old(routed))
        && (reached && !r.Panics? ==> uplink == old(uplink) + old(Arrives(arrived)) && routed == Packets(uplink))
        && (!r.Panics? ==>
              (closed <==> old(closed) || (e.writable && old(WriteFails(socket)))
                           || (reached && (arrived == Err(OtherError) || arrived == Ok([])))))
        && (!r.Panics? ==>
              (r.Early? <==> !old(closed) && ((e.writable && old(IdBlocks(socket)))
                                              || (reached && arrived == Err(WouldBlock)))))
    {
      hide SB.StreamBuffer.Contents, Wired, Listed, Uplinked, IsStream, Trips, Parses, PassFails, Passing, Offered,
           Arrives, HeldBy, Select, Packets, WriteFails, IdBlocks, Awaited, AllAnswer, Fitting, Spoken, Raws, Account;
      SourcesListed();
      RestParses();
      NothingHeard(answers, networkToClient.Remaining());
      assert clientToNetwork.Peek() + uplink[|uplink|..] == clientToNetwork.Peek();
      r := Done;
      if !closed {
        if e.writable {
          r := ProcessSend(socket);
        }
        if r.Done? && !closed && e.readable {
          r := ProcessReceive(arrived, answers);
          if !r.Panics? {
            UplinkRouted();
          }
        }
        if r.Done? && !closed {
          UpdateInterests();
        }
      }
    }

    lemma UplinkRouted()
      requires Uplinked()
      ensures routed == Packets(uplink)
    {}

    lemma SourcesListed()
      requires Listed()
      ensures forall s :: s in pendingPacketSources ==> s in sources
    {}
  }

  /** A first write that takes part of the id leaves the rest without a wake-up. */
  method PartialId(client: Client, n: nat) returns (r: Outcome)
    requires client.Valid() && client.Wakes() && !client.closed && 0 < n < client.pendingIdBytes == 4
    requires client.Queue() == [] && client.pendingPacketSources == []
    modifies client, client.networkToClient, client.networkToClient.buf, client.clientToNetwork.Repr(), client.sources
    ensures !client.closed && client.pendingIdBytes > 0 && !client.IdWakes()
  {
    r := client.Process(Event(false, true), Takes(n), Err(WouldBlock), []);
  }

  lemma EmptyStream()
    ensures IsStream([]) && Packets([]) == [] && Rest([]) == []
  {}

  lemma Apart(vec: seq<PacketSource>, i: nat)
    requires Distinct(vec) && i < |vec|
    ensures forall k :: 0 <= k < |vec| && k != i ==> vec[k] != vec[i]
  {}

  /**
   Relay to phone, end to end: whatever part of the wire has been read, in whatever chunks behind the id, the
   packets put together are the first ones accepted, and all of them once the queue is empty.
   */
  lemma EndToEnd(id: u32, accepted: seq<seq<byte>>, wire: seq<byte>, queue: seq<byte>, chunks: seq<seq<byte>>)
    requires ArePackets(accepted) && wire + queue == Encode32(id) + Flatten(accepted)
    requires Encode32(id) + Flatten(chunks) <= wire
    ensures Reassemble([], chunks) <= accepted && IsCut(Leftover([], chunks))
    ensures queue == [] && Encode32(id) + Flatten(chunks) == wire ==> Reassemble([], chunks) == accepted
  {
    hide Encode32;
    var read := Encode32(id) + Flatten(chunks);
    assert read == (wire + queue)[..|read|] == (Encode32(id) + Flatten(accepted))[..|read|];
    assert Flatten(chunks) == read[4..] == Flatten(accepted)[..|Flatten(chunks)|];
    ReassemblePrefix(accepted, chunks);
    if queue == [] && read == wire {
      assert Flatten(chunks) == Flatten(accepted);
    }
  }
}
