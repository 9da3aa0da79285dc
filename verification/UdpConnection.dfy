/** A UDP connection of the relay: its datagrams towards the network, its interests and its end. */
module UdpConnections {
  import opened Bytes
  import opened Io
  import DB = DatagramBuffer

  /** `Panics` is the buffer's assertion that it is not written while empty. */
  datatype Outcome = Done | Spurious | Panics

  class UdpConnection {
    const clientToNetwork: DB.DatagramBuffer
    var interests: Ready
    var closed: bool
    var idleSince: nat
    /** Datagrams handed to the socket, and payloads built into packets and offered to the client. */
    ghost var handed: seq<DB.Datagram>
    ghost var offered: seq<seq<byte>>

    ghost predicate Valid()
      reads this, clientToNetwork, clientToNetwork.buf
    {
      clientToNetwork.Valid()
    }

    /** No lost wake-up: an open connection hears of datagrams, and of room for those it has queued. */
    ghost predicate Wakes()
      reads this, clientToNetwork, clientToNetwork.buf
    {
      !closed ==> interests.readable && (clientToNetwork.Queue() != [] ==> interests.writable)
    }

    /** It asks for room only when it has something to write. */
    ghost predicate AsksForNothing()
      reads this, clientToNetwork, clientToNetwork.buf
    {
      !closed && interests.writable && clientToNetwork.Queue() == []
    }

    constructor (now: nat)
      ensures Valid() && Wakes() && !closed && !AsksForNothing()
      ensures clientToNetwork.Queue() == [] && fresh(clientToNetwork) && fresh(clientToNetwork.buf) && idleSince == now
      ensures clientToNetwork.head == clientToNetwork.tail == 0
      ensures clientToNetwork.circularBufferLength == 4 * MAX_PACKET_LENGTH + 1
      ensures interests == Ready(true, false) && handed == [] && offered == []
    {
      clientToNetwork := new DB.DatagramBuffer(4 * MAX_PACKET_LENGTH);
      interests, closed, idleSince := Ready(true, false), false, now;
      handed, offered := [], [];
    }

    method UpdateInterests()
      requires Valid()
      modifies this`interests
      ensures interests == Ready(true, clientToNetwork.Queue() != [])
    {
      var ready := Ready(true, !clientToNetwork.IsEmpty());
      if interests != ready {
        interests := ready;
      }
    }

    method Close()
      modifies this`closed
      ensures closed
    {
      closed := true;
    }

    /** A packet of the client: queued, or dropped when there is no room. */
    method SendToNetwork(payload: seq<byte>)
      requires Valid() && |payload| < DB.MAX_DATAGRAM_LENGTH
      modifies this`interests, clientToNetwork, clientToNetwork.buf
      ensures Valid() && (old(Wakes()) ==> Wakes()) && (AsksForNothing() ==> old(AsksForNothing()))
      ensures var b := clientToNetwork;
        b.Queue() == old(if !b.HasEnoughSpaceFor(|payload|) then b.Queue()
                         else if b.Collides(|payload|) then [] else b.Queue() + [payload])
        && b.tail == old(b.tail)
        && b.head == old(if !b.HasEnoughSpaceFor(|payload|) then b.head
                         else DB.Around(b.circularBufferLength, b.head + DB.HEADER_LENGTH + |payload|))
    {
      var r := clientToNetwork.ReadFrom(payload);
      if r.Ok? {
        UpdateInterests();
      }
    }

    /** Whether the send fails for good: an error, or a datagram cut short. */
    static predicate Breaks(socket: DB.Send, datagram: seq<byte>) {
      match socket
      case Sent(w) => w != |datagram|
      case SendFails(error) => error == OtherError
    }

    /** The front datagram leaves the queue; only a real error closes the connection. */
    method ProcessSend(socket: DB.Send) returns (r: Outcome)
      requires Valid() && !closed
      modifies this`closed, this`handed, clientToNetwork
      ensures Valid()
      ensures r == if old(clientToNetwork.Queue()) == [] then Panics else Done
      ensures r.Done? ==> clientToNetwork.Queue() == old(clientToNetwork.Queue())[1..]
      ensures handed == old(handed) + if r.Done? then [old(clientToNetwork.Queue()[0])] else []
      ensures closed <==> r.Done? && Breaks(socket, old(clientToNetwork.Queue()[0]))
    {
      if clientToNetwork.IsEmpty() {
        return Panics;
      }
      var sent;
      ghost var datagram;
      sent, datagram := clientToNetwork.WriteTo(socket);
      handed := handed + [datagram];
      if sent == Err(OtherError) {
        Close();
      }
      return Done;
    }

    /** What the socket answers to a receive; a datagram goes to the client, or is dropped. */
    method ProcessReceive(received: Result<seq<byte>>) returns (r: Outcome)
      requires !closed
      modifies this`closed, this`offered
      ensures closed <==> received == Err(OtherError)
      ensures offered == old(offered) + if received.Ok? then [received.value] else []
      ensures r == if received == Err(WouldBlock) then Spurious else Done
    {
      match received
      case Ok(payload) =>
        offered := offered + [payload];
        r := Done;
      case Err(WouldBlock) => r := Spurious;
      case Err(OtherError) =>
        Close();
        r := Done;
    }

    /** The event loop's call. `removed` says whether the connection took itself out of its router. */
    method Process(event: Event, socket: DB.Send, received: Result<seq<byte>>, now: nat)
      returns (r: Outcome, removed: bool)
      requires Valid()
      modifies this, clientToNetwork
      ensures Valid() && (old(Wakes()) && r != Panics ==> Wakes())
      ensures r.Panics? <==> !old(closed) && event.writable && old(clientToNetwork.Queue()) == []
      ensures removed <==> !old(closed) && closed
      ensures old(closed) ==>
        closed && clientToNetwork.Queue() == old(clientToNetwork.Queue()) && idleSince == old(idleSince)
      ensures !old(closed) ==> idleSince == now
      ensures r != Panics && !old(closed) ==>
        (closed <==> if event.writable && old(Breaks(socket, clientToNetwork.Queue()[0])) then true
                     else if event.readable then received == Err(OtherError) else !event.writable)
      ensures r != Panics ==>
        handed == old(handed + if !closed && event.writable then [clientToNetwork.Queue()[0]] else [])
      ensures r != Panics ==>
        var reached := !old(closed) && event.readable
                       && !(event.writable && old(Breaks(socket, clientToNetwork.Queue()[0])));
        offered == old(offered) + if reached && received.Ok? then [received.value] else []
      ensures r.Spurious? <==> !old(closed) && !r.Panics? && !closed && event.readable && received == Err(WouldBlock)
      ensures r != Panics ==>
        clientToNetwork.Queue()
        == old(if !closed && event.writable then clientToNetwork.Queue()[1..] else clientToNetwork.Queue())
      ensures r != Panics && !old(closed) ==> (AsksForNothing() <==>
        && !closed && event.readable && received == Err(WouldBlock)
        && old(interests.writable) && clientToNetwork.Queue() == [])
    {
      removed := false;
      if closed {
        return Done, false;
      }
      idleSince := now;
      if event.readable || event.writable {
        if event.writable {
          r := ProcessSend(socket);
          if r.Panics? {
            return;
          }
        }
        if !closed && event.readable {
          r := ProcessReceive(received);
          if r.Spurious? {
            return;
          }
        }
        if !closed {
          UpdateInterests();
        }
      } else {
        Close();
      }
      return Done, closed;
    }
  }

  /** The client's datagrams of a batch, one after the other. */
  method SendEach(c: UdpConnection, datagrams: seq<DB.Datagram>)
    requires c.Valid()
    modifies c`interests, c.clientToNetwork, c.clientToNetwork.buf
    ensures c.Valid() && (old(c.Wakes()) ==> c.Wakes()) && (c.AsksForNothing() ==> old(c.AsksForNothing()))
    ensures var b := c.clientToNetwork;
      (b.Queue(), b.head) == old(DB.Fed(b.Queue(), b.head, b.tail, b.circularBufferLength, datagrams))
  {
    ghost var b := c.clientToNetwork;
    for i := 0 to |datagrams|
      invariant c.Valid() && (old(c.Wakes()) ==> c.Wakes()) && (c.AsksForNothing() ==> old(c.AsksForNothing()))
      invariant b.tail == old(b.tail)
      invariant DB.Fed(b.Queue(), b.head, b.tail, b.circularBufferLength, datagrams[i..])
        == old(DB.Fed(b.Queue(), b.head, b.tail, b.circularBufferLength, datagrams))
    {
      assert datagrams[i..][1..] == datagrams[i + 1..];
      c.SendToNetwork(datagrams[i]);
    }
    assert datagrams[|datagrams|..] == [];
  }

  /**
   An event is delivered for what the connection asked for at the poll; meanwhile datagrams of the client may arrive.
   It fails the assertion exactly when it is writable and they left nothing in the queue, as a wrap onto the unread
   left end does. Otherwise the connection is left asking for nothing exactly when a datagram announced with the last
   write turns out not to be there.
   */
  method ServePolled(c: UdpConnection, datagrams: seq<DB.Datagram>,
                     event: Event, socket: DB.Send, received: Result<seq<byte>>, now: nat)
    returns (r: Outcome, removed: bool)
    requires c.Valid() && c.Wakes() && !c.closed
    modifies c, c.clientToNetwork, c.clientToNetwork.buf
    ensures c.Valid() && (!r.Panics? ==> c.Wakes())
    ensures var b := c.clientToNetwork;
      var (queue, _) := old(DB.Fed(b.Queue(), b.head, b.tail, b.circularBufferLength, datagrams));
      && (r.Panics? <==> event.writable && queue == [])
      && (!r.Panics? && !old(c.AsksForNothing()) ==>
            (c.AsksForNothing() <==>
               !c.closed && event.readable && event.writable && received == Err(WouldBlock) && |queue| == 1))
  {
    SendEach(c, datagrams);
    r, removed := c.Process(event, socket, received, now);
  }

  /** Nothing arriving in between, an event that was asked for never fails the assertion. */
  method ServeAsked(c: UdpConnection, event: Event, socket: DB.Send, received: Result<seq<byte>>, now: nat)
    returns (r: Outcome, removed: bool)
    requires c.Valid() && c.Wakes() && !c.closed && !c.AsksForNothing()
    requires event.writable ==> c.interests.writable
    modifies c, c.clientToNetwork, c.clientToNetwork.buf
    ensures c.Valid() && c.Wakes() && !r.Panics?
  {
    r, removed := ServePolled(c, [], event, socket, received, now);
  }

  /** One datagram in between can be enough: it wraps onto the unread left end, and the event ends the relay. */
  method CollisionThenPanic(c: UdpConnection, datagram: DB.Datagram, socket: DB.Send) returns (r: Outcome)
    requires c.Valid() && c.Wakes() && !c.closed && c.clientToNetwork.Queue() != []
    requires c.clientToNetwork.Collides(|datagram|)
    modifies c, c.clientToNetwork, c.clientToNetwork.buf
    ensures old(c.interests.writable) && r.Panics?
  {
    var removed;
    r, removed := ServePolled(c, [datagram], Event(false, true), socket, Err(WouldBlock), 0);
  }

  /** Five full datagrams do it from the start: four fill the ring to just below its end. */
  method FiveDatagramsPanic(datagram: DB.Datagram, socket: DB.Send) returns (r: Outcome)
    requires |datagram| == 65507
    ensures r.Panics?
  {
    var c := new UdpConnection(0);
    for i := 0 to 4
      invariant c.Valid() && c.Wakes() && !c.closed
      invariant fresh(c) && fresh(c.clientToNetwork) && fresh(c.clientToNetwork.buf)
      invariant c.clientToNetwork.tail == 0 && c.clientToNetwork.head == 65509 * i
      invariant c.clientToNetwork.circularBufferLength == 262145 && |c.clientToNetwork.Queue()| == i
    {
      c.SendToNetwork(datagram);
    }
    r := CollisionThenPanic(c, datagram, socket);
  }

  /** The next event then ends the relay: the writable interest was never withdrawn. */
  method SpuriousReadThenPanic(datagram: seq<byte>) returns (first: Outcome, second: Outcome)
    requires 0 < |datagram| < 0x1_0000
    ensures first == Spurious && second == Panics
  {
    var c := new UdpConnection(0);
    c.SendToNetwork(datagram);
    var removed;
    first, removed := c.Process(Event(true, true), DB.Sent(|datagram|), Err(WouldBlock), 0);
    second, removed := c.Process(Event(false, true), DB.Sent(0), Err(WouldBlock), 0);
  }
}
