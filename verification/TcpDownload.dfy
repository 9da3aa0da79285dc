/** Network to phone: every byte read is sent once, and how sequence numbers tile the stream. */
module TcpDownload {
  import opened Bytes
  import opened TcpSpec
  import opened TcpSafety

  function Payloads(sent: seq<Built>): seq<byte> {
    if sent == [] then [] else Payloads(sent[..|sent| - 1]) + sent[|sent| - 1].payload
  }

  lemma PayloadsSnoc(sent: seq<Built>, p: Built)
    ensures Payloads(sent + [p]) == Payloads(sent) + p.payload
  {
    assert (sent + [p])[..|sent|] == sent;
  }

  /** The packet waiting for room in the client's queue. */
  function Waiting(c: Conn): seq<byte> { if c.deferred.Some? then c.built.payload else [] }

  /** Every header announces the length of its packet. */
  ghost predicate Framed(headerLength: nat, sent: seq<Built>) {
    forall i :: 0 <= i < |sent| ==> sent[i].totalLength == headerLength + |sent[i].payload|
  }

  /** Sequence space used after the local ISN; a deferred packet took its headers' length as well. */
  function SeqSpace(c: Conn): int {
    c.h.synsSent + |c.h.received| - |Waiting(c)| + c.h.finsSent + c.h.overrun
  }

  ghost predicate Sequenced(c: Conn) {
    && (c.tcb.state != Init ==> c.tcb.seqNo == Wrap32(c.h.localIsn + SeqSpace(c)))
    && (c.tcb.state == Init ==> SeqSpace(c) == 0 && c.deferred.None? && c.tcb.clientWindow == 0)
    && (c.deferred.Some? ==> c.deferred.value == c.headerLength + |c.built.payload|)
  }

  lemma ReplyKeepsSequenced(c: Conn, flags: Flags)
    requires Sequenced(c)
    ensures Sequenced(c.Reply(flags)) && c.Reply(flags).tcb == c.tcb
    ensures SeqSpace(c.Reply(flags)) == SeqSpace(c) && c.Reply(flags).h.(sent := c.h.sent) == c.h
    ensures c.Reply(flags).deferred == c.deferred && c.Reply(flags).headerLength == c.headerLength
  {}

  lemma AssignFinKeepsSequenced(c: Conn)
    requires Sequenced(c) && c.tcb.state != Init
    ensures Sequenced(c.AssignFin()) && c.AssignFin().tcb.state == c.tcb.state
  {
    WrapAdd(c.h.localIsn + SeqSpace(c), 1);
  }

  lemma SetStateKeepsSequenced(c: Conn, state: State)
    requires Sequenced(c) && c.tcb.state != Init && state != Init
    ensures Sequenced(c.SetState(state))
  {}

  lemma DoHandleFinKeepsSequenced(c: Conn)
    requires Sequenced(c)
    ensures Sequenced(c.DoHandleFin())
  {
    var d := c.AdvanceAck(1).(h := c.h.(finsProcessed := c.h.finsProcessed + 1));
    assert Sequenced(d);
    ReplyKeepsSequenced(d, ACK);
    ReplyKeepsSequenced(d, FIN_ACK);
    hide Conn.Reply;
    if c.tcb.state == Established {
      AssignFinKeepsSequenced(d.Reply(FIN_ACK));
      hide Conn.AssignFin;
      SetStateKeepsSequenced(d.Reply(FIN_ACK).AssignFin(), LastAck);
    } else if c.tcb.state == FinWait1 {
      SetStateKeepsSequenced(d.Reply(ACK), Closing);
    }
  }

  lemma HandleFinKeepsSequenced(c: Conn)
    requires Sequenced(c)
    ensures Sequenced(c.HandleFin())
  {
    var d := c.(tcb := c.tcb.(finReceived := true));
    assert Sequenced(d);
    hide Sequenced, Conn.DoHandleFin;
    DoHandleFinKeepsSequenced(d);
  }

  lemma FinAckKeepsSequenced(c: Conn)
    requires Sequenced(c)
    ensures Sequenced(c.HandleFinAck())
  {
    hide Wrap32;
  }

  lemma AckKeepsSequenced(c: Conn, seg: Segment)
    requires Sequenced(c)
    ensures Sequenced(c.HandleAck(seg)) && Sequenced(c.Settle()) && Sequenced(c.Close())
    ensures c.tcb.state != Init ==>
      Sequenced(c.(tcb := c.tcb.(clientWindow := seg.window, theirAckNo := seg.ackNo)))
  {
    hide Wrap32, Conn.Wanted;
  }

  lemma ExpectedKeepsSequenced(c: Conn, seg: Segment)
    requires Sequenced(c) && c.tcb.state != Init
    ensures Sequenced(c.HandleExpected(seg))
  {
    hide Sequenced, Conn.HandleAck, Conn.HandleFin, Conn.HandleFinAck;
    AckKeepsSequenced(c, seg);
    var c1 := c.(tcb := c.tcb.(clientWindow := seg.window, theirAckNo := seg.ackNo));
    AckKeepsSequenced(c1, seg);
    var c2 := if seg.flags.ack then c1.HandleAck(seg) else c1;
    HandleFinKeepsSequenced(c2);
    FinAckKeepsSequenced(if seg.flags.fin then c2.HandleFin() else c2);
  }

  lemma PacketKeepsSequenced(c: Conn, seg: Segment, isn: u32)
    requires Sequenced(c)
    ensures Sequenced(c.HandlePacket(seg, isn))
  {
    hide Conn.HandleExpected;
    if c.tcb.state != Init {
      ExpectedKeepsSequenced(c, seg);
    }
  }

  lemma WriteKeepsSequenced(c: Conn, n: nat)
    requires Sequenced(c) && n <= |c.queue|
    ensures Sequenced(c.(queue := c.queue[n..], h := c.h.(written := c.h.written + c.queue[..n])).AdvanceAck(n))
  {
    hide Wrap32;
  }

  lemma WritableKeepsSequenced(c: Conn, writable: bool, w: WriteOutcome)
    requires Sequenced(c) && w.Possible(c.queue)
    ensures Sequenced(c.AfterWritable(writable, w))
  {
    if writable && c.tcb.state == SynSent {
      WrapAdd(c.h.localIsn + SeqSpace(c), 1);
    } else if writable {
      hide Sequenced, Conn.Reply, Conn.DoHandleFin, Conn.Close, Conn.AdvanceAck;
      AckKeepsSequenced(c, Segment(0, 0, ACK, 0, []));
      if w.Wrote? {
        WriteKeepsSequenced(c, w.n);
        var d := c.(queue := c.queue[w.n..], h := c.h.(written := c.h.written + c.queue[..w.n])).AdvanceAck(w.n);
        DoHandleFinKeepsSequenced(d);
        ReplyKeepsSequenced(d, ACK);
      } else {
        ReplyKeepsSequenced(c, RST);
        AckKeepsSequenced(c.Reply(RST), Segment(0, 0, ACK, 0, []));
      }
    }
  }

  lemma ReadKeepsSequenced(c: Conn, data: seq<byte>)
    requires Sequenced(c) && c.CanReceive() && Read(data).Possible(c.MaxRead())
    ensures Sequenced(c.ProcessReceive(Read(data)))
  {
    WrapAdd(c.h.localIsn + SeqSpace(c), |data|);
  }

  lemma EofKeepsSequenced(c: Conn)
    requires Sequenced(c) && c.tcb.state != Init
    ensures Sequenced(c.ProcessEof())
  {
    ReplyKeepsSequenced(c, FIN_ACK);
    hide Conn.Reply;
    AssignFinKeepsSequenced(c.Reply(FIN_ACK));
    hide Conn.AssignFin, Sequenced;
    SetStateKeepsSequenced(c.Reply(FIN_ACK).AssignFin(), if c.tcb.state == CloseWait then LastAck else FinWait1);
  }

  /** Before the SYN there is no window to read for. */
  lemma ReceivesOnceStarted(c: Conn)
    requires Sequenced(c) && c.CanReceive()
    ensures c.tcb.state != Init
  {}

  lemma HeadersKeepSequenced(c: Conn, flags: Flags)
    requires Sequenced(c)
    ensures Sequenced(c.UpdateHeaders(flags)) && c.UpdateHeaders(flags).tcb == c.tcb
  {
    hide Wrap32;
  }

  lemma ReceiveKeepsSequenced(c: Conn, r: ReadOutcome)
    requires Sequenced(c) && c.CanReceive() && r.Possible(c.MaxRead())
    ensures Sequenced(c.ProcessReceive(r))
  {
    ReceivesOnceStarted(c);
    if r.Read? {
      ReadKeepsSequenced(c, r.data);
    } else {
      HeadersKeepSequenced(c, PSH_ACK);
      var d := c.UpdateHeaders(PSH_ACK);
      hide Sequenced, Conn.UpdateHeaders, Conn.ProcessEof, Conn.Reply, Conn.Close;
      EofKeepsSequenced(d);
      ReplyKeepsSequenced(d, RST);
      AckKeepsSequenced(d.Reply(RST), Segment(0, 0, ACK, 0, []));
    }
  }

  lemma ReadableKeepsSequenced(c: Conn, readable: bool, r: ReadOutcome)
    requires Sequenced(c) && c.Readable(readable, r)
    ensures Sequenced(c.AfterReadable(readable, r))
  {
    hide Sequenced, Conn.ProcessReceive, Conn.Settle;
    AckKeepsSequenced(c, Segment(0, 0, ACK, 0, []));
    if !c.closed && readable {
      ReceiveKeepsSequenced(c, r);
      AckKeepsSequenced(c.ProcessReceive(r), Segment(0, 0, ACK, 0, []));
    }
  }

  lemma StepKeepsSequenced(c: Conn, s: Step)
    requires Sequenced(c) && s.Enabled(c)
    ensures Sequenced(s.Apply(c))
  {
    hide Conn.AfterWritable, Conn.AfterReadable, Conn.HandlePacket;
    match s
    case Packet(seg, isn) => PacketKeepsSequenced(c, seg, isn);
    case Socket(e, w, r) =>
      if !c.closed && (e.readable || e.writable) && !c.SendBlocks(e, w) {
        WritableKeepsSequenced(c, e.writable, w);
        ReadableKeepsSequenced(c.AfterWritable(e.writable, w), e.readable, r);
      }
    case Deliver =>
      WrapAdd(c.h.localIsn + SeqSpace(c), c.deferred.value);
    case Drain(_) =>
  }

  // ---- packets and payloads

  /** Between `c` and `d` nothing was read or pulled: only packets without payload were queued. */
  ghost predicate Quiet(c: Conn, d: Conn) {
    && d.headerLength == c.headerLength && d.deferred == c.deferred
    && d.built.payload == c.built.payload && d.h.received == c.h.received
    && (d.h.localIsn == c.h.localIsn || c.tcb.state == Init)
    && (c.tcb.state != Init ==> d.tcb.state != Init)
    && d.h.overrun == c.h.overrun
    && c.h.sent <= d.h.sent
    && (forall i :: |c.h.sent| <= i < |d.h.sent| ==>
          d.h.sent[i].payload == [] && d.h.sent[i].totalLength == d.headerLength)
  }

  lemma QuietTwice(c: Conn, d: Conn, e: Conn)
    requires Quiet(c, d) && Quiet(d, e)
    ensures Quiet(c, e)
  {}

  lemma DoHandleFinIsQuiet(c: Conn)
    ensures Quiet(c, c.DoHandleFin())
  {}

  lemma FinIsQuiet(c: Conn)
    ensures Quiet(c, c.HandleFin()) && Quiet(c, c.HandleFinAck())
  {
    hide Conn.DoHandleFin;
    var d := c.(tcb := c.tcb.(finReceived := true));
    DoHandleFinIsQuiet(d);
    QuietTwice(c, d, d.DoHandleFin());
  }

  lemma ExpectedIsQuiet(c: Conn, seg: Segment)
    ensures Quiet(c, c.HandleExpected(seg))
  {
    var c1 := c.(tcb := c.tcb.(clientWindow := seg.window, theirAckNo := seg.ackNo));
    assert Quiet(c, c1) && Quiet(c1, c1.Close()) && Quiet(c1, c1.HandleAck(seg)) && Quiet(c1, c1);
    hide Quiet, Conn.HandleAck, Conn.HandleFin, Conn.HandleFinAck, Conn.Close;
    QuietTwice(c, c1, c1.Close());
    var c2 := if seg.flags.ack then c1.HandleAck(seg) else c1;
    QuietTwice(c, c1, c2);
    FinIsQuiet(c2);
    QuietTwice(c, c2, c2.HandleFin());
    var c3 := if seg.flags.fin then c2.HandleFin() else c2;
    FinIsQuiet(c3);
    QuietTwice(c, c3, c3.HandleFinAck());
  }

  lemma PacketIsQuiet(c: Conn, seg: Segment, isn: u32)
    requires Sequenced(c)
    ensures Quiet(c, c.HandlePacket(seg, isn))
  {
    hide Conn.HandleExpected;
    ExpectedIsQuiet(c, seg);
  }

  lemma WritableIsQuiet(c: Conn, writable: bool, w: WriteOutcome)
    requires w.Possible(c.queue)
    ensures Quiet(c, c.AfterWritable(writable, w))
  {
    if writable && c.tcb.state != SynSent && w.Wrote? {
      hide Conn.DoHandleFin;
      var d := c.(queue := c.queue[w.n..], h := c.h.(written := c.h.written + c.queue[..w.n])).AdvanceAck(w.n);
      DoHandleFinIsQuiet(d);
      QuietTwice(c, d, d.DoHandleFin());
    }
  }

  lemma SettleIsQuiet(c: Conn)
    ensures Quiet(c, c.Settle())
  {}

  lemma UnreadIsQuiet(c: Conn, r: ReadOutcome)
    requires c.CanReceive() && !r.Read?
    ensures Quiet(c, c.ProcessReceive(r))
  {}

  /** Data packets cover the download without gap or overlap, as section 3.3 of RFC 793 numbers it. */
  ghost predicate Tiled(isn: u32, sent: seq<Built>) {
    forall i {:trigger TiledAt(isn, sent, i)} :: 0 <= i < |sent| ==> TiledAt(isn, sent, i)
  }

  predicate TiledAt(isn: u32, sent: seq<Built>, i: nat)
    requires i < |sent|
  {
    sent[i].payload != [] ==> sent[i].seqNo == Wrap32(isn + 1 + |Payloads(sent[..i])|)
  }

  /** Every byte read from the socket was queued to the client once, in order, or is waiting. */
  ghost predicate Conserved(c: Conn) {
    && c.h.received == Payloads(c.h.sent) + Waiting(c)
    && (c.tcb.state == Init ==> c.h.received == [])
  }

  /** As long as no packet was deferred, data packets tile the stream. */
  ghost predicate Tiles(c: Conn) { c.h.overrun == 0 ==> Tiled(c.h.localIsn, c.h.sent) }

  lemma {:induction false} EmptyPayloads(a: seq<Built>, b: seq<Built>)
    requires a <= b && forall i :: |a| <= i < |b| ==> b[i].payload == []
    ensures Payloads(b) == Payloads(a)
  {
    if |a| < |b| {
      EmptyPayloads(a, b[..|b| - 1]);
    } else {
      assert a == b;
    }
  }

  lemma {:induction false} PayloadsAt(sent: seq<Built>, i: nat)
    requires i < |sent| && Payloads(sent) == []
    ensures sent[i].payload == []
  {
    if i < |sent| - 1 {
      PayloadsAt(sent[..|sent| - 1], i);
    }
  }

  lemma TiledAtPrefix(isn: u32, isn': u32, a: seq<Built>, b: seq<Built>, i: nat)
    requires i < |a| && TiledAt(isn, a, i) && a <= b && (isn == isn' || Payloads(a) == [])
    ensures TiledAt(isn', b, i)
  {
    hide Payloads, Wrap32;
    assert b[..i] == a[..i] && b[i] == a[i];
    if isn != isn' {
      PayloadsAt(a, i);
    }
  }

  /** Packets without payload leave the tiling alone; without any payload the ISN is free. */
  lemma EmptyKeepsTiled(isn: u32, isn': u32, a: seq<Built>, b: seq<Built>)
    requires Tiled(isn, a) && a <= b && forall i :: |a| <= i < |b| ==> b[i].payload == []
    requires isn == isn' || Payloads(a) == []
    ensures Tiled(isn', b)
  {
    hide Payloads, Wrap32, Tiled;
    forall i | 0 <= i < |b|
      ensures TiledAt(isn', b, i)
    {
      if i < |a| {
        hide TiledAt;
        TiledGives(isn, a, i);
        TiledAtPrefix(isn, isn', a, b, i);
      }
    }
    TiledIf(isn', b);
  }

  lemma TiledGives(isn: u32, sent: seq<Built>, i: nat)
    requires Tiled(isn, sent) && i < |sent|
    ensures TiledAt(isn, sent, i)
  {}

  lemma TiledIf(isn: u32, sent: seq<Built>)
    requires forall i {:trigger TiledAt(isn, sent, i)} :: 0 <= i < |sent| ==> TiledAt(isn, sent, i)
    ensures Tiled(isn, sent)
  {}

  lemma DataKeepsTiled(isn: u32, sent: seq<Built>, p: Built)
    requires Tiled(isn, sent) && p.seqNo == Wrap32(isn + 1 + |Payloads(sent)|)
    ensures Tiled(isn, sent + [p])
  {
    hide Payloads, Wrap32;
    var b := sent + [p];
    forall i | 0 <= i < |b|
      ensures TiledAt(isn, b, i)
    {
      if i < |sent| {
        assert TiledAt(isn, sent, i) && b[..i] == sent[..i];
      } else {
        assert b[..i] == sent;
      }
    }
  }

  /** Nothing is tiled wrongly before, and nothing but payload is numbered wrongly after. */
  lemma DataTilesIff(isn: u32, sent: seq<Built>, p: Built)
    requires Tiled(isn, sent) && p.payload != []
    ensures Tiled(isn, sent + [p]) <==> p.seqNo == Wrap32(isn + 1 + |Payloads(sent)|)
  {
    if p.seqNo == Wrap32(isn + 1 + |Payloads(sent)|) {
      DataKeepsTiled(isn, sent, p);
    } else {
      var b := sent + [p];
      assert b[..|sent|] == sent && !TiledAt(isn, b, |sent|);
    }
  }

  lemma QuietKeepsConserved(c: Conn, d: Conn)
    requires Conserved(c) && Quiet(c, d)
    ensures Conserved(d)
  {
    EmptyPayloads(c.h.sent, d.h.sent);
    hide Payloads;
  }

  lemma QuietKeepsTiles(c: Conn, d: Conn)
    requires Conserved(c) && Tiles(c) && Quiet(c, d)
    ensures Tiles(d)
  {
    hide Payloads, Wrap32, Tiled;
    if c.h.overrun == 0 {
      assert d.h.localIsn != c.h.localIsn ==> Payloads(c.h.sent) == [];
      EmptyKeepsTiled(c.h.localIsn, d.h.localIsn, c.h.sent, d.h.sent);
    }
  }

  /**
   The next data packet continues the numbering exactly when the SYN, the FIN
   and the numbers skipped by deferred packets come to one, modulo 2^32.
   */
  lemma NextDataSeqNo(c: Conn)
    requires Conserved(c) && Sequenced(c) && c.CanReceive()
    ensures c.tcb.seqNo == Wrap32(c.h.localIsn + 1 + |Payloads(c.h.sent)|)
      <==> (c.h.synsSent + c.h.finsSent + c.h.overrun) % TWO_32 == 1
  {
    ReceivesOnceStarted(c);
    hide Payloads;
    assert c.h.received == Payloads(c.h.sent);
    WrapInjectiveUpTo(c.h.localIsn + 1 + |c.h.received|, c.h.synsSent + c.h.finsSent + c.h.overrun - 1);
  }

  lemma WrapInjectiveUpTo(base: int, n: int)
    ensures Wrap32(base + n) == Wrap32(base) <==> n % TWO_32 == 0
  {}

  function DataPacket(c: Conn, data: seq<byte>): Built {
    Built(c.tcb.seqNo, c.tcb.ackNo, PSH_ACK, c.headerLength + |data|, data)
  }

  lemma ReadEffect(c: Conn, data: seq<byte>)
    requires c.CanReceive() && Read(data).Possible(c.MaxRead())
    ensures var d := c.ProcessReceive(Read(data));
      && d.headerLength == c.headerLength && d.built == DataPacket(c, data)
      && d.h.received == c.h.received + data && d.h.overrun == c.h.overrun && d.h.localIsn == c.h.localIsn
      && d.tcb.state == c.tcb.state
      && if c.headerLength + |data| <= c.room then
           d.h.sent == c.h.sent + [d.built] && d.deferred.None?
         else
           d.h.sent == c.h.sent && d.deferred.Some? && d.tcb.seqNo == c.tcb.seqNo
  {}

  /** A packet read and queued at once, or kept for the client to pull. */
  lemma ReadKeepsConserved(c: Conn, data: seq<byte>)
    requires Conserved(c) && Sequenced(c) && c.CanReceive() && Read(data).Possible(c.MaxRead())
    ensures var d := c.ProcessReceive(Read(data)); Conserved(d) && d.headerLength == c.headerLength
  {
    ReceivesOnceStarted(c);
    NothingDeferred(c);
    ReadEffect(c, data);
    hide Conn.ProcessReceive, Conn.MaxRead, Conn.CanReceive, Sequenced, Payloads;
    PayloadsSnoc(c.h.sent, DataPacket(c, data));
  }

  lemma NothingDeferred(c: Conn)
    requires c.CanReceive()
    ensures c.deferred.None?
  {}

  /** Under the state machine's counts, data is numbered right between the SYN and the FIN and nowhere else. */
  lemma ReadTilesIff(c: Conn, data: seq<byte>)
    requires Core(c) && Conserved(c) && Sequenced(c) && Tiles(c)
    requires c.CanReceive() && Read(data).Possible(c.MaxRead())
    ensures Tiles(c.ProcessReceive(Read(data))) <==>
      (c.headerLength + |data| <= c.room && c.h.overrun == 0 ==>
         c.tcb.state == SynReceived || c.tcb.state == Established)
  {
    NextDataSeqNo(c);
    ReadEffect(c, data);
    CountsBetween(c);
    assert data != [];
    hide Conn.ProcessReceive, Conn.MaxRead, Conn.CanReceive, Core, Sequenced, Conserved, Payloads, Tiled, Wrap32;
    if c.h.overrun == 0 {
      DataTilesIff(c.h.localIsn, c.h.sent, DataPacket(c, data));
    }
  }

  lemma CountsBetween(c: Conn)
    requires Core(c)
    ensures (c.h.synsSent + c.h.finsSent) % TWO_32 == 1 <==>
      (c.tcb.state == SynReceived || c.tcb.state == Established)
  {
    assert c.h.synsSent + c.h.finsSent <= 2;
  }

  // ---- steps

  /** The step reads data from the socket. */
  predicate ReadsData(c: Conn, s: Step)
    requires s.Enabled(c)
  {
    Reads(c, s) && s.r.Read?
  }

  lemma UnreadStepIsQuiet(c: Conn, s: Step)
    requires Sequenced(c) && s.Enabled(c) && s != Deliver && !ReadsData(c, s)
    ensures Quiet(c, s.Apply(c))
  {
    hide Quiet, Conn.HandlePacket, Conn.AfterWritable, Conn.ProcessReceive, Conn.Settle;
    match s
    case Packet(seg, isn) =>
      PacketIsQuiet(c, seg, isn);
      SettleIsQuiet(c.HandlePacket(seg, isn));
      QuietTwice(c, c.HandlePacket(seg, isn), s.Apply(c));
    case Socket(e, w, r) =>
      IdleIsQuiet(c, c.room);
      if !c.closed && (e.readable || e.writable) && !c.SendBlocks(e, w) {
        WritableIsQuiet(c, e.writable, w);
        UnreadHalfIsQuiet(c.AfterWritable(e.writable, w), e.readable, r);
        QuietTwice(c, c.AfterWritable(e.writable, w), s.Apply(c));
      }
    case Drain(room) => IdleIsQuiet(c, room);
  }

  lemma IdleIsQuiet(c: Conn, room: nat)
    ensures Quiet(c, c) && Quiet(c, c.Close()) && Quiet(c, c.(room := room))
  {}

  lemma UnreadHalfIsQuiet(c: Conn, readable: bool, r: ReadOutcome)
    requires c.Readable(readable, r) && (!c.closed && readable ==> !r.Read?)
    ensures Quiet(c, c.AfterReadable(readable, r))
  {
    hide Quiet, Conn.ProcessReceive, Conn.Settle;
    SettleIsQuiet(c);
    if !c.closed && readable {
      UnreadIsQuiet(c, r);
      SettleIsQuiet(c.ProcessReceive(r));
      QuietTwice(c, c.ProcessReceive(r), c.ProcessReceive(r).Settle());
    }
  }

  /** A step that reads data: quiet before the read, and after it. */
  lemma ReadStepIsQuiet(c: Conn, s: Step)
    requires Sequenced(c) && s.Enabled(c) && ReadsData(c, s)
    ensures var mid := c.AfterWritable(s.event.writable, s.w);
      && Sequenced(mid) && Quiet(c, mid) && mid.CanReceive() && s.r.Possible(mid.MaxRead())
      && Quiet(mid.ProcessReceive(s.r), s.Apply(c))
  {
    var mid := c.AfterWritable(s.event.writable, s.w);
    WritableKeepsSequenced(c, s.event.writable, s.w);
    WritableIsQuiet(c, s.event.writable, s.w);
    hide Sequenced, Quiet, Conn.AfterWritable, Conn.ProcessReceive, Conn.Settle;
    SettleIsQuiet(mid.ProcessReceive(s.r));
  }

  lemma PullEffect(c: Conn)
    requires c.Pullable()
    ensures var d := c.Pull();
      && d.headerLength == c.headerLength && d.h.received == c.h.received && d.tcb.state == c.tcb.state
      && if c.built.totalLength <= c.room then
           d.h.sent == c.h.sent + [c.built] && d.deferred.None? && d.h.overrun == c.h.overrun + c.headerLength
         else d == c
  {}

  /** Conservation needs nothing: no step loses or repeats a byte that was read. */
  lemma StepKeepsConserved(c: Conn, s: Step)
    requires Conserved(c) && Sequenced(c) && s.Enabled(c)
    ensures Conserved(s.Apply(c)) && s.Apply(c).headerLength == c.headerLength
  {
    if s == Deliver {
      PullEffect(c);
      PayloadsSnoc(c.h.sent, c.built);
      hide Payloads, Conn.Pull;
    } else if ReadsData(c, s) {
      ReadStepIsQuiet(c, s);
      var mid := c.AfterWritable(s.event.writable, s.w);
      hide Conserved, Sequenced, Conn.AfterWritable, Conn.ProcessReceive, Step.Apply;
      QuietKeepsConserved(c, mid);
      ReadKeepsConserved(mid, s.r.data);
      QuietKeepsConserved(mid.ProcessReceive(s.r), s.Apply(c));
    } else {
      UnreadStepIsQuiet(c, s);
      hide Conserved, Step.Apply;
      QuietKeepsConserved(c, s.Apply(c));
    }
  }

  /** Data is read and queued at once under the guard of an end of file, or after a packet was deferred. */
  predicate NumbersRight(c: Conn, s: Step)
    requires s.Enabled(c)
  {
    ReadsData(c, s) ==>
      var mid := c.AfterWritable(s.event.writable, s.w);
      mid.headerLength + |s.r.data| <= mid.room && mid.h.overrun == 0 ==> EndAllowed(c, s.event, s.w)
  }

  /** Every step keeps the tiling exactly when its data is read between the SYN and the FIN. */
  lemma StepTilesIff(c: Conn, s: Step)
    requires Core(c) && Conserved(c) && Sequenced(c) && Tiles(c) && s.Enabled(c) && 0 < c.headerLength
    ensures Tiles(s.Apply(c)) <==> NumbersRight(c, s)
  {
    if s == Deliver {
      PullEffect(c);
      hide Tiled, Conn.Pull;
    } else if ReadsData(c, s) {
      ReadStepIsQuiet(c, s);
      WritableKeepsSafe(c, s.event.writable, s.w);
      EndAllowedIff(c, s.event, s.w);
      var mid := c.AfterWritable(s.event.writable, s.w);
      hide Core, Conserved, Sequenced, Tiles, Conn.AfterWritable, Conn.ProcessReceive, EndAllowed;
      QuietKeepsConserved(c, mid);
      QuietKeepsTiles(c, mid);
      ReadTilesIff(mid, s.r.data);
      ReadKeepsConserved(mid, s.r.data);
      SettleTiles(mid.ProcessReceive(s.r));
    } else {
      UnreadStepIsQuiet(c, s);
      hide Conserved, Tiles, Step.Apply;
      QuietKeepsTiles(c, s.Apply(c));
    }
  }

  lemma SettleTiles(c: Conn)
    ensures Tiles(c.Settle()) <==> Tiles(c)
  {
    hide Tiled;
  }

  /** Every step keeps headers that announce their packets' lengths exactly when what it delivers is intact. */
  lemma StepFramedIff(c: Conn, s: Step)
    requires Framed(c.headerLength, c.h.sent) && Sequenced(c) && s.Enabled(c)
    ensures Framed(c.headerLength, s.Apply(c).h.sent) <==>
      (s == Deliver && c.built.totalLength <= c.room ==> c.Intact())
  {
    if s == Deliver {
      PullEffect(c);
      FramedSnoc(c.headerLength, c.h.sent, c.built);
      hide Framed, Conn.Pull;
    } else if ReadsData(c, s) {
      ReadStepIsQuiet(c, s);
      var mid := c.AfterWritable(s.event.writable, s.w);
      ReadEffect(mid, s.r.data);
      FramedSnoc(c.headerLength, mid.h.sent, DataPacket(mid, s.r.data));
      hide Sequenced, Conn.AfterWritable, Conn.ProcessReceive, Step.Apply;
      QuietKeepsFramed(c, mid);
      QuietKeepsFramed(mid.ProcessReceive(s.r), s.Apply(c));
    } else {
      UnreadStepIsQuiet(c, s);
      hide Sequenced, Step.Apply;
      QuietKeepsFramed(c, s.Apply(c));
    }
  }

  lemma QuietKeepsFramed(c: Conn, d: Conn)
    requires Framed(c.headerLength, c.h.sent) && Quiet(c, d)
    ensures Framed(c.headerLength, d.h.sent)
  {}

  lemma FramedSnoc(headerLength: nat, sent: seq<Built>, p: Built)
    requires Framed(headerLength, sent)
    ensures Framed(headerLength, sent + [p]) <==> p.totalLength == headerLength + |p.payload|
  {
    assert (sent + [p])[|sent|] == p;
  }

  // ---- whole runs

  /** Over every run at all, every byte read is sent once, in order, or waiting, and the numbers add up. */
  lemma {:induction false} RunConserves(c: Conn, steps: seq<Step>)
    requires Conserved(c) && Sequenced(c) && Runnable(c, steps)
    ensures Conserved(Run(c, steps)) && Sequenced(Run(c, steps))
    decreases steps
  {
    if steps != [] {
      hide Conserved, Sequenced, Step.Apply;
      StepKeepsConserved(c, steps[0]);
      StepKeepsSequenced(c, steps[0]);
      RunConserves(steps[0].Apply(c), steps[1..]);
    }
  }

  /** Ends of file and data come under the same guard. */
  ghost predicate AllGuarded(c: Conn, steps: seq<Step>)
    requires Runnable(c, steps)
    decreases steps
  {
    steps == []
    || (EndsWell(c, steps[0]) && NumbersRight(c, steps[0]) && AllGuarded(steps[0].Apply(c), steps[1..]))
  }

  lemma {:induction false} RunTiles(c: Conn, steps: seq<Step>)
    requires Core(c) && Conserved(c) && Sequenced(c) && Tiles(c) && 0 < c.headerLength
    requires Runnable(c, steps) && AllGuarded(c, steps)
    ensures Core(Run(c, steps)) && Tiles(Run(c, steps))
    decreases steps
  {
    if steps != [] {
      hide Core, Conserved, Sequenced, Tiles, Step.Apply, EndsWell, NumbersRight;
      StepKeepsConserved(c, steps[0]);
      StepKeepsSequenced(c, steps[0]);
      StepCoreIff(c, steps[0]);
      StepTilesIff(c, steps[0]);
      RunTiles(steps[0].Apply(c), steps[1..]);
    }
  }

  /**
   From the first packet on, over every run: every byte read is in exactly one packet, in order, or waiting,
   and the sequence number counts the SYN, the bytes sent, the FIN and what deferred packets skipped.
   */
  lemma DownloadFromStart(headerLength: nat, built: Built, room: nat, steps: seq<Step>)
    requires Runnable(NewConn(headerLength, built, room), steps)
    ensures var d := Run(NewConn(headerLength, built, room), steps);
      && d.h.received == Payloads(d.h.sent) + Waiting(d)
      && (d.tcb.state != Init ==>
            d.tcb.seqNo == Wrap32(d.h.localIsn + d.h.synsSent + |Payloads(d.h.sent)| + d.h.finsSent + d.h.overrun))
  {
    hide Conserved, Sequenced, Runnable, Run;
    NewConnIsConserved(headerLength, built, room);
    RunConserves(NewConn(headerLength, built, room), steps);
    AccountOf(Run(NewConn(headerLength, built, room), steps));
  }

  lemma NewConnIsConserved(headerLength: nat, built: Built, room: nat)
    ensures var c := NewConn(headerLength, built, room);
      Conserved(c) && Sequenced(c) && Tiles(c) && Framed(headerLength, c.h.sent)
  {}

  lemma AccountOf(d: Conn)
    requires Conserved(d) && Sequenced(d)
    ensures d.h.received == Payloads(d.h.sent) + Waiting(d)
    ensures d.tcb.state != Init ==>
      d.tcb.seqNo == Wrap32(d.h.localIsn + d.h.synsSent + |Payloads(d.h.sent)| + d.h.finsSent + d.h.overrun)
  {
    hide Payloads;
  }

  /** And in guarded runs, as long as nothing was deferred, data packets tile the stream without gap or overlap. */
  lemma TilingFromStart(headerLength: nat, built: Built, room: nat, steps: seq<Step>)
    requires 0 < headerLength && Runnable(NewConn(headerLength, built, room), steps)
    requires AllGuarded(NewConn(headerLength, built, room), steps)
    ensures var d := Run(NewConn(headerLength, built, room), steps);
      d.h.overrun == 0 ==> Tiled(d.h.localIsn, d.h.sent)
  {
    hide Core, Conserved, Sequenced, Tiled, Framed, AllGuarded, Runnable, Run;
    NewConnIsSafe(headerLength, built, room);
    NewConnIsConserved(headerLength, built, room);
    RunTiles(NewConn(headerLength, built, room), steps);
  }
}
