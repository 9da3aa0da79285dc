/** A TCP connection of the relay as the object it is; every method does what TcpSpec says. */
module TcpConnection {
  import opened Bytes
  import opened Io
  import opened TcpSpec
  import SB = StreamBuffer

  /** The client's outgoing queue as a connection sees it: room, and packets taken or refused whole. */
  class ClientChannel {
    var remaining: nat

    constructor (remaining: nat)
      ensures this.remaining == remaining
    {
      this.remaining := remaining;
    }

    /** The declared length is checked, the raw bytes are copied. */
    method SendToClient(declared: nat, raw: nat) returns (ok: bool)
      requires declared <= remaining ==> raw <= remaining
      modifies this
      ensures ok <==> declared <= old(remaining)
      ensures remaining == if ok then old(remaining) - raw else old(remaining)
    {
      ok := declared <= remaining;
      if ok {
        remaining := remaining - raw;
      }
    }
  }

  class TcpConnection {
    const headerLength: nat
    const clientToNetwork: SB.StreamBuffer
    const channel: ClientChannel
    var tcb: Tcb
    var deferred: Option<nat>
    var built: Built
    var closed: bool
    var interests: Ready
    ghost var h: History

    ghost predicate Valid()
      reads this, clientToNetwork
    {
      clientToNetwork.Valid() && clientToNetwork.Capacity() == QUEUE_CAPACITY
    }

    ghost function Repr(): set<object> { {this, clientToNetwork, clientToNetwork.buf, channel} }

    ghost function Abs(): Conn
      reads this, clientToNetwork, clientToNetwork.buf, channel
      requires Valid()
    {
      Conn(headerLength, tcb, clientToNetwork.Contents(), deferred, built, closed, interests, channel.remaining, h)
    }

    constructor (headerLength: nat, channel: ClientChannel, built: Built)
      ensures Valid() && fresh(Repr() - {channel}) && this.channel == channel
      ensures Abs() == NewConn(headerLength, built, channel.remaining)
    {
      this.headerLength := headerLength;
      clientToNetwork := new SB.StreamBuffer(4 * MAX_PACKET_LENGTH);
      this.channel := channel;
      this.built := built;
      tcb, deferred, closed, interests, h := NEW_TCB, None, false, Ready(false, true), NO_HISTORY;
    }

    predicate MayRead()
      reads this, clientToNetwork, clientToNetwork.buf, channel
      requires Valid()
      ensures MayRead() == Abs().MayRead()
    {
      if !tcb.state.IsConnected() || tcb.state.IsClosed() then false
      else if deferred.Some? then false
      else tcb.RemainingClientWindow() > 0
    }

    method UpdateInterests()
      requires Valid()
      modifies this
      ensures Valid() && Abs() == old(Abs()).UpdateInterests()
    {
      var ready := Ready(false, false);
      if tcb.state == SynSent {
        ready := Ready(false, true);
      } else {
        if MayRead() {
          ready := ready.(readable := true);
        }
        if !clientToNetwork.IsEmpty() {
          ready := ready.(writable := true);
        }
      }
      if interests != ready {
        interests := ready;
      }
    }

    method Close()
      requires Valid()
      modifies this
      ensures Valid() && Abs() == old(Abs()).Close()
    {
      closed := true;
      h := h.(closes := h.closes + 1);
    }

    method UpdateHeaders(flags: Flags)
      requires Valid()
      modifies this
      ensures Valid() && Abs() == old(Abs()).UpdateHeaders(flags)
    {
      built := built.(seqNo := tcb.seqNo, ackNo := tcb.ackNo, flags := flags);
    }

    method ReplyEmptyPacketToClient(flags: Flags)
      requires Valid()
      modifies this, channel
      ensures Valid() && Abs() == old(Abs()).Reply(flags)
    {
      UpdateHeaders(flags);
      built := built.(totalLength := headerLength);
      var ok := channel.SendToClient(headerLength, headerLength);
      if ok {
        h := h.(sent := h.sent + [built.(payload := [])]);
      }
    }

    // ---- packets from the phone

    method HandleFirstPacket(seg: Segment, isn: u32)
      requires Valid()
      modifies this, channel
      ensures Valid() && Abs() == old(Abs()).HandleFirstPacket(seg, isn)
    {
      if seg.flags.syn {
        tcb := tcb.(ackNo := Wrap32(seg.seqNo + 1), synSeqNo := seg.seqNo, seqNo := isn,
                    clientWindow := seg.window, state := SynSent);
        h := h.(localIsn := isn);
      } else {
        tcb := tcb.(seqNo := seg.ackNo);
        ReplyEmptyPacketToClient(RST);
        Close();
      }
    }

    method HandleDuplicateSyn(seg: Segment)
      requires Valid()
      modifies this, channel
      ensures Valid() && Abs() == old(Abs()).HandleDuplicateSyn(seg)
    {
      if tcb.state == SynSent {
        tcb := tcb.(synSeqNo := seg.seqNo, ackNo := Wrap32(seg.seqNo + 1));
      } else if seg.seqNo != tcb.synSeqNo {
        ReplyEmptyPacketToClient(RST);
        Close();
      }
    }

    method HandleAck(seg: Segment)
      requires Valid()
      modifies this, clientToNetwork, clientToNetwork.buf
      ensures Valid() && Abs() == old(Abs()).HandleAck(seg)
    {
      if tcb.state == SynReceived {
        tcb := tcb.(state := Established);
        return;
      }
      if seg.payload == [] {
        return;
      }
      if clientToNetwork.Remaining() < |seg.payload| {
        return;
      }
      clientToNetwork.ReadFrom(seg.payload);
    }

    method DoHandleFin()
      requires Valid()
      modifies this, channel
      ensures Valid() && Abs() == old(Abs()).DoHandleFin()
    {
      tcb := tcb.(ackNo := Wrap32(tcb.ackNo + 1));
      h := h.(finsProcessed := h.finsProcessed + 1);
      hide Conn.Reply;
      if tcb.state == Established {
        ReplyEmptyPacketToClient(FIN_ACK);
        AssignFin();
        tcb := tcb.(state := LastAck);
      } else if tcb.state == FinWait1 {
        ReplyEmptyPacketToClient(ACK);
        tcb := tcb.(state := Closing);
      } else if tcb.state == FinWait2 {
        ReplyEmptyPacketToClient(ACK);
        Close();
      }
    }

    method AssignFin()
      requires Valid()
      modifies this
      ensures Valid() && Abs() == old(Abs()).AssignFin()
    {
      tcb := tcb.(finSeqNo := Some(tcb.seqNo));
      tcb := tcb.(seqNo := Wrap32(tcb.seqNo + 1));
      h := h.(finsSent := h.finsSent + 1);
    }

    method HandleFin()
      requires Valid()
      modifies this, channel
      ensures Valid() && Abs() == old(Abs()).HandleFin()
    {
      tcb := tcb.(finReceived := true);
      if clientToNetwork.IsEmpty() {
        DoHandleFin();
      }
    }

    method HandleFinAck()
      requires Valid()
      modifies this
      ensures Valid() && Abs() == old(Abs()).HandleFinAck()
    {
      if tcb.state == LastAck || tcb.state == Closing {
        Close();
      } else if tcb.state == FinWait1 {
        tcb := tcb.(state := FinWait2);
      }
    }

    method HandlePacket(seg: Segment, isn: u32)
      requires Valid()
      modifies Repr()
      ensures Valid() && Abs() == old(Abs()).HandlePacket(seg, isn)
    {
      hide Conn.HandleAck, Conn.HandleFin, Conn.HandleFinAck, Conn.Close,
           Conn.HandleFirstPacket, Conn.HandleDuplicateSyn, SB.StreamBuffer.Contents;
      if tcb.state == Init {
        HandleFirstPacket(seg, isn);
        return;
      }
      if seg.flags.syn {
        HandleDuplicateSyn(seg);
        return;
      }
      var expected := Wrap32(tcb.ackNo + clientToNetwork.Size());
      if seg.seqNo != expected {
        return;
      }
      tcb := tcb.(clientWindow := seg.window);
      tcb := tcb.(theirAckNo := seg.ackNo);
      if seg.flags.rst {
        Close();
        return;
      }
      if seg.flags.ack {
        HandleAck(seg);
      }
      if seg.flags.fin {
        HandleFin();
      }
      if tcb.finSeqNo.Some? && seg.ackNo == Wrap32(tcb.finSeqNo.value + 1) {
        HandleFinAck();
      }
    }

    method SendToNetwork(seg: Segment, isn: u32)
      requires Valid()
      modifies Repr()
      ensures Valid() && Abs() == old(Abs()).SendToNetwork(seg, isn)
    {
      hide Conn.HandlePacket;
      HandlePacket(seg, isn);
      if !closed {
        UpdateInterests();
      }
    }

    // ---- socket events

    method ProcessConnect()
      requires Valid()
      modifies this, channel
      ensures Valid() && Abs() == old(Abs()).ProcessConnect()
    {
      tcb := tcb.(state := SynReceived);
      ReplyEmptyPacketToClient(SYN_ACK);
      tcb := tcb.(seqNo := Wrap32(tcb.seqNo + 1));
      h := h.(synsSent := h.synsSent + 1);
    }

    /** What write_to reports to the connection for this socket. */
    ghost function Outcome(socket: Sink): WriteOutcome
      reads clientToNetwork, clientToNetwork.buf
      requires clientToNetwork.Valid()
    {
      if clientToNetwork.Contents() == [] then Wrote(0)
      else match socket
        case Takes(limit) => Wrote(Min(limit, clientToNetwork.Contiguous()))
        case Fails(WouldBlock) => WriteWouldBlock
        case Fails(OtherError) => WriteFailed
    }

    /** `early` when the error is rethrown. */
    method ProcessSend(socket: Sink) returns (early: bool)
      requires Valid()
      modifies Repr()
      ensures Valid() && Abs() == old(Abs()).ProcessSend(old(Outcome(socket)))
      ensures early <==> old(Outcome(socket)) == WriteWouldBlock
      ensures early ==> Abs() == old(Abs())
    {
      hide Conn.DoHandleFin, Conn.Reply, SB.StreamBuffer.Contents;
      early := false;
      ghost var taken;
      var w;
      w, taken := clientToNetwork.WriteTo(socket);
      match w
      case Ok(n) =>
        if n != 0 {
          tcb := tcb.(ackNo := Wrap32(tcb.ackNo + n));
          h := h.(written := h.written + taken);
          assert old(clientToNetwork.Contents())[..n] == taken;
          assert old(clientToNetwork.Contents())[n..] == clientToNetwork.Contents();
          if tcb.finReceived && clientToNetwork.IsEmpty() {
            DoHandleFin();
          } else {
            ReplyEmptyPacketToClient(ACK);
          }
        } else {
          Close();
        }
      case Err(WouldBlock) =>
        early := true;
      case Err(OtherError) =>
        ReplyEmptyPacketToClient(RST);
        Close();
    }

    method Eof()
      requires Valid()
      modifies this, channel
      ensures Valid() && Abs() == old(Abs()).ProcessEof()
    {
      ReplyEmptyPacketToClient(FIN_ACK);
      AssignFin();
      tcb := tcb.(state := if tcb.state == CloseWait then LastAck else FinWait1);
    }

    method ProcessReceive(r: ReadOutcome) returns (early: bool)
      requires Valid() && Abs().CanReceive() && r.Possible(Abs().MaxRead())
      modifies this, channel
      ensures Valid() && Abs() == old(Abs()).ProcessReceive(r)
      ensures early <==> r == ReadWouldBlock
    {
      early := false;
      UpdateHeaders(PSH_ACK);
      match r
      case Read(data) =>
        var length := headerLength + |data|;
        built := built.(totalLength := length, payload := data);
        h := h.(received := h.received + data);
        var ok := channel.SendToClient(length, length);
        if ok {
          h := h.(sent := h.sent + [built]);
          tcb := tcb.(seqNo := Wrap32(tcb.seqNo + |data|));
        } else {
          deferred := Some(length);
        }
      case Eof => Eof();
      case ReadWouldBlock =>
        early := true;
      case ReadFailed =>
        ReplyEmptyPacketToClient(RST);
        Close();
    }

    method Process(e: Event, socket: Sink, r: ReadOutcome)
      requires Valid() && Abs().Processable(e, Outcome(socket), r)
      modifies Repr()
      ensures Valid() && Abs() == old(Abs()).Process(e, old(Outcome(socket)), r)
    {
      hide Conn.ProcessConnect, Conn.ProcessSend, Conn.ProcessReceive, Conn.UpdateInterests, Conn.Close,
           SB.StreamBuffer.Contents;
      if closed {
        return;
      }
      if !e.readable && !e.writable {
        Close();
        return;
      }
      var early := false;
      if e.writable {
        if tcb.state == SynSent {
          ProcessConnect();
        } else {
          early := ProcessSend(socket);
        }
      }
      if early {
        return;
      }
      assert Abs() == old(Abs()).AfterWritable(e.writable, old(Outcome(socket)));
      if !closed && e.readable {
        early := ProcessReceive(r);
        if early {
          return;
        }
      }
      if !closed {
        UpdateInterests();
      }
    }

    // ---- the client pulls a deferred packet

    /** get(), ClientChannel.SendToClient and next(), as process_pending runs them. */
    method Pull() returns (consumed: bool)
      requires Valid() && Abs().Pullable()
      modifies this, channel
      ensures Valid() && Abs() == old(Abs()).Pull()
      ensures consumed <==> old(built.totalLength <= channel.remaining)
    {
      consumed := channel.SendToClient(built.totalLength, deferred.value);
      if consumed {
        h := h.(sent := h.sent + [built], overrun := h.overrun + headerLength);
        Next();
      }
    }

    method Next()
      requires Valid() && deferred.Some? && !closed
      modifies this
      ensures Valid()
      ensures Abs() == old(Abs()).AdvanceSeq(old(deferred.value)).(deferred := None).UpdateInterests()
    {
      var len := deferred.value;
      tcb := tcb.(seqNo := Wrap32(tcb.seqNo + len));
      deferred := None;
      UpdateInterests();
    }
  }
}
