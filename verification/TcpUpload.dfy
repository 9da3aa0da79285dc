/** Phone to network: bytes reach the socket exactly once and in order, and are acknowledged when written. */
module TcpUpload {
  import opened Bytes
  import opened Io
  import opened TcpSpec
  import opened TcpEffects

  /** Sequence numbers identify offsets that are less than 2^32 apart. */
  lemma WrapInjective(base: int, a: int, b: int)
    requires -TWO_32 < a - b < TWO_32
    ensures Wrap32(base + a) == Wrap32(base + b) <==> a == b
  {
    if Wrap32(base + a) == Wrap32(base + b) {
      assert base + a - (base + b) == TWO_32 * ((base + a) / TWO_32 - (base + b) / TWO_32);
    }
  }

  /** `seg` carries the bytes of `stream` from offset `o`, as section 3.3 of RFC 793 numbers them. */
  ghost predicate CutAt(seg: Segment, isn: u32, stream: seq<byte>, o: int) {
    && seg.seqNo == Wrap32(isn + 1 + o)
    && seg.flags.ack
    && if o == |stream| + 1 then seg.payload == [] && !seg.flags.fin
       else && 0 <= o && o + |seg.payload| <= |stream|
            && seg.payload == stream[o..o + |seg.payload|]
            && (seg.flags.fin ==> o + |seg.payload| == |stream|)
  }

  /** Offset of the next byte the relay accepts; a processed FIN counts for one. */
  function NextOffset(c: Conn): nat { |c.h.written| + |c.queue| + c.h.finsProcessed }

  /** What a sender obeying RFC 793 may put on the tunnel, lost, repeated or reordered as it pleases. */
  ghost predicate Conforms(c: Conn, isn: u32, stream: seq<byte>, seg: Segment) {
    if seg.flags.syn then seg.seqNo == isn
    else if seg.flags.rst then true
    else c.tcb.state != SynSent
         && exists o :: -TWO_32 < o - NextOffset(c) < TWO_32 && CutAt(seg, isn, stream, o)
  }

  /** A segment with FIN is not dropped for want of space, nor for completing the handshake. */
  predicate KeepsFin(c: Conn, seg: Segment) {
    seg.flags.fin && seg.payload != [] ==>
      c.tcb.state != SynReceived && |seg.payload| <= QUEUE_CAPACITY - |c.queue|
  }

  /** Only a segment that is neither stale nor out of order can lose its payload. */
  predicate KeepsExpectedFin(c: Conn, seg: Segment) {
    !seg.flags.syn && !seg.flags.rst && seg.seqNo == c.ExpectedSeq() ==> KeepsFin(c, seg)
  }

  ghost predicate Upload(c: Conn, isn: u32, stream: seq<byte>) {
    var accepted := c.h.written + c.queue;
    && c.tcb.state != Init && c.tcb.synSeqNo == isn
    && accepted <= stream
    && c.h.finsProcessed <= 1
    && c.tcb.ackNo == Wrap32(isn + 1 + |c.h.written| + c.h.finsProcessed)
    && (c.tcb.finReceived ==> accepted == stream)
    && (c.h.finsProcessed == 1 <==> c.tcb.finReceived && c.queue == [])
    && (c.tcb.state == SynSent ==> accepted == [] && !c.tcb.finReceived)
  }

  /** Side conditions on one step of an upload. */
  ghost predicate Obeys(c: Conn, isn: u32, stream: seq<byte>, s: Step) {
    s.Packet? ==> Conforms(c, isn, stream, s.seg) && KeepsExpectedFin(c, s.seg)
  }

  ghost predicate ObeysAll(c: Conn, isn: u32, stream: seq<byte>, steps: seq<Step>)
    requires Runnable(c, steps)
    decreases steps
  {
    steps == [] || (Obeys(c, isn, stream, steps[0]) && ObeysAll(steps[0].Apply(c), isn, stream, steps[1..]))
  }

  /** The expected sequence number is that of the next offset. */
  lemma ExpectedIsNextOffset(c: Conn, isn: u32, stream: seq<byte>)
    requires Upload(c, isn, stream)
    ensures c.ExpectedSeq() == Wrap32(isn + 1 + NextOffset(c))
  {
    WrapAdd(isn + 1 + |c.h.written| + c.h.finsProcessed, |c.queue|);
  }

  lemma FirstPacketStartsUpload(c: Conn, seg: Segment, isn: u32, stream: seq<byte>)
    requires c.tcb == NEW_TCB && c.queue == [] && c.h == NO_HISTORY && seg.flags.syn
    ensures Upload(c.SendToNetwork(seg, isn), seg.seqNo, stream)
  {}

  lemma DoHandleFinKeepsUpload(c: Conn, isn: u32, stream: seq<byte>)
    requires Upload(c.(h := c.h.(finsProcessed := 1), tcb := c.tcb.(ackNo := Wrap32(c.tcb.ackNo + 1))), isn, stream)
    requires c.h.finsProcessed == 0
    ensures Upload(c.DoHandleFin(), isn, stream)
  {
    var d := c.AdvanceAck(1).(h := c.h.(finsProcessed := 1));
    ReplyFrame(d, FIN_ACK);
    ReplyFrame(d, ACK);
    hide Conn.Reply, Wrap32;
  }

  lemma ReplyFrame(c: Conn, flags: Flags)
    ensures var d := c.Reply(flags); d.tcb == c.tcb && d.queue == c.queue && d.h.(sent := c.h.sent) == c.h
  {}

  /** A segment at the expected offset extends what was accepted by its payload, or leaves it. */
  lemma HandleAckKeepsUpload(c: Conn, isn: u32, stream: seq<byte>, seg: Segment)
    requires Upload(c, isn, stream) && c.tcb.state != SynSent
    requires CutAt(seg, isn, stream, NextOffset(c))
    ensures var d := c.HandleAck(seg);
      && Upload(d, isn, stream)
      && d.h == c.h && d.tcb.(state := c.tcb.state) == c.tcb
      && d.tcb.state != SynSent
      && (seg.flags.fin && KeepsFin(c, seg) ==> d.h.written + d.queue == stream)
      && (seg.flags.fin ==> c.h.finsProcessed == 0)
  {
    var d := c.HandleAck(seg);
    var o := NextOffset(c);
    if d.queue != c.queue {
      assert d.h.written + d.queue == (c.h.written + c.queue) + seg.payload;
      assert stream[..o + |seg.payload|] == stream[..o] + stream[o..o + |seg.payload|];
    }
  }

  lemma HandleFinKeepsUpload(c: Conn, isn: u32, stream: seq<byte>)
    requires Upload(c, isn, stream) && c.tcb.state != SynSent
    requires c.h.finsProcessed == 0 && c.h.written + c.queue == stream
    ensures Upload(c.HandleFin(), isn, stream)
  {
    var d := c.(tcb := c.tcb.(finReceived := true));
    if c.queue == [] {
      WrapAdd(isn + 1 + |c.h.written|, 1);
      DoHandleFinKeepsUpload(d, isn, stream);
    }
  }

  lemma FinAckKeepsUpload(c: Conn, isn: u32, stream: seq<byte>)
    requires Upload(c, isn, stream)
    ensures Upload(c.HandleFinAck(), isn, stream)
  {}

  lemma ExpectedKeepsUpload(c: Conn, isn: u32, stream: seq<byte>, seg: Segment)
    requires Upload(c, isn, stream) && c.tcb.state != SynSent && !seg.flags.rst
    requires CutAt(seg, isn, stream, NextOffset(c)) && KeepsFin(c, seg)
    ensures Upload(c.HandleExpected(seg), isn, stream)
  {
    hide Conn.DoHandleFin;
    var c1 := c.(tcb := c.tcb.(clientWindow := seg.window, theirAckNo := seg.ackNo));
    HandleAckKeepsUpload(c1, isn, stream, seg);
    hide CutAt, Conn.HandleAck;
    var c2 := c1.HandleAck(seg);
    if seg.flags.fin {
      HandleFinKeepsUpload(c2, isn, stream);
    }
    hide Conn.HandleFin, Upload;
    FinAckKeepsUpload(if seg.flags.fin then c2.HandleFin() else c2, isn, stream);
  }

  lemma RstKeepsUpload(c: Conn, isn: u32, stream: seq<byte>, seg: Segment)
    requires Upload(c, isn, stream) && seg.flags.rst
    ensures Upload(c.HandleExpected(seg), isn, stream)
  {}

  lemma PacketKeepsUpload(c: Conn, isn: u32, stream: seq<byte>, seg: Segment, local: u32)
    requires Upload(c, isn, stream) && Conforms(c, isn, stream, seg) && KeepsExpectedFin(c, seg)
    ensures Upload(c.HandlePacket(seg, local), isn, stream)
  {
    hide Conn.HandleExpected, Conn.ExpectedSeq, KeepsFin;
    if seg.flags.syn {
    } else if seg.seqNo != c.ExpectedSeq() {
    } else if seg.flags.rst {
      assert Upload(c.HandleExpected(seg), isn, stream) by { RstKeepsUpload(c, isn, stream, seg); }
    } else {
      var o :| -TWO_32 < o - NextOffset(c) < TWO_32 && CutAt(seg, isn, stream, o);
      ExpectedIsNextOffset(c, isn, stream);
      WrapInjective(isn + 1, o, NextOffset(c));
      ExpectedKeepsUpload(c, isn, stream, seg);
    }
  }

  lemma SendKeepsUpload(c: Conn, isn: u32, stream: seq<byte>, w: WriteOutcome)
    requires Upload(c, isn, stream) && c.tcb.state != SynSent && w.Possible(c.queue)
    ensures Upload(c.ProcessSend(w), isn, stream)
  {
    hide Conn.DoHandleFin;
    if w.Wrote? && w.n > 0 {
      var d := c.(queue := c.queue[w.n..], h := c.h.(written := c.h.written + c.queue[..w.n])).AdvanceAck(w.n);
      assert d.h.written + d.queue == c.h.written + c.queue;
      WrapAdd(isn + 1 + |c.h.written|, w.n);
      if d.tcb.finReceived && d.queue == [] {
        WrapAdd(isn + 1 + |d.h.written|, 1);
        DoHandleFinKeepsUpload(d, isn, stream);
      }
    }
  }

  lemma WritableKeepsUpload(c: Conn, isn: u32, stream: seq<byte>, writable: bool, w: WriteOutcome)
    requires Upload(c, isn, stream) && w.Possible(c.queue)
    ensures Upload(c.AfterWritable(writable, w), isn, stream)
  {
    if writable && c.tcb.state != SynSent {
      SendKeepsUpload(c, isn, stream, w);
    }
  }

  lemma ReadableKeepsUpload(c: Conn, isn: u32, stream: seq<byte>, readable: bool, r: ReadOutcome)
    requires Upload(c, isn, stream) && c.Readable(readable, r)
    ensures Upload(c.AfterReadable(readable, r), isn, stream)
  {}

  lemma SocketKeepsUpload(c: Conn, isn: u32, stream: seq<byte>, e: Event, w: WriteOutcome, r: ReadOutcome)
    requires Upload(c, isn, stream) && c.Processable(e, w, r)
    ensures Upload(c.Process(e, w, r), isn, stream)
  {
    if !c.closed && (e.readable || e.writable) && !c.SendBlocks(e, w) {
      WritableKeepsUpload(c, isn, stream, e.writable, w);
      ReadableKeepsUpload(c.AfterWritable(e.writable, w), isn, stream, e.readable, r);
    }
  }

  lemma StepKeepsUpload(c: Conn, isn: u32, stream: seq<byte>, s: Step)
    requires Upload(c, isn, stream) && s.Enabled(c) && Obeys(c, isn, stream, s)
    ensures Upload(s.Apply(c), isn, stream)
  {
    hide Conn.Process, Conn.HandlePacket, Conforms, KeepsExpectedFin;
    match s
    case Packet(seg, local) => PacketKeepsUpload(c, isn, stream, seg, local);
    case Socket(e, w, r) => SocketKeepsUpload(c, isn, stream, e, w, r);
    case Deliver =>
    case Drain(_) =>
  }

  /** Exactly-once, in-order upload over every run. */
  lemma {:induction false} RunKeepsUpload(c: Conn, isn: u32, stream: seq<byte>, steps: seq<Step>)
    requires Upload(c, isn, stream) && Runnable(c, steps) && ObeysAll(c, isn, stream, steps)
    ensures Upload(Run(c, steps), isn, stream)
    decreases steps
  {
    if steps != [] {
      StepKeepsUpload(c, isn, stream, steps[0]);
      RunKeepsUpload(steps[0].Apply(c), isn, stream, steps[1..]);
    }
  }

  /** From the SYN on, whatever the phone repeats, loses or reorders and however little each write takes. */
  lemma UploadFromSyn(c: Conn, syn: Segment, local: u32, stream: seq<byte>, steps: seq<Step>)
    requires c.tcb == NEW_TCB && c.queue == [] && c.h == NO_HISTORY && c.deferred.None? && !c.closed && syn.flags.syn
    requires var c1 := c.SendToNetwork(syn, local);
      Runnable(c1, steps) && ObeysAll(c1, syn.seqNo, stream, steps)
    ensures var d := Run(c.SendToNetwork(syn, local), steps);
      && d.h.written + d.queue <= stream
      && d.h.finsProcessed <= 1
      && d.tcb.ackNo == Wrap32(syn.seqNo + 1 + |d.h.written| + d.h.finsProcessed)
      && (d.h.finsProcessed == 1 ==> d.h.written == stream)
      && AcksOnlyWritten(d, syn.seqNo)
      && d.h.written + d.queue == AllBrought(c.SendToNetwork(syn, local), steps)
  {
    FirstPacketStartsUpload(c, syn, local, stream);
    RunKeepsUpload(c.SendToNetwork(syn, local), syn.seqNo, stream, steps);
    RunAcksOnlyWritten(c.SendToNetwork(syn, local), syn.seqNo, stream, steps);
    RunAccepts(c.SendToNetwork(syn, local), steps);
    FirstPacket(c, syn, local);
    var d := Run(c.SendToNetwork(syn, local), steps);
    assert d.queue == [] ==> d.h.written + d.queue == d.h.written;
  }

  /** The side condition on a FIN-bearing segment is exactly what the upload needs. */
  lemma FinNeedsItsPayload(c: Conn, isn: u32, stream: seq<byte>, seg: Segment)
    requires Upload(c, isn, stream) && c.tcb.state != SynSent
    requires seg.flags.fin && !seg.flags.rst && CutAt(seg, isn, stream, NextOffset(c))
    ensures Upload(c.HandleExpected(seg), isn, stream) <==> KeepsFin(c, seg)
  {
    if KeepsFin(c, seg) {
      ExpectedKeepsUpload(c, isn, stream, seg);
    } else {
      DroppedFinLosesData(c, isn, stream, seg);
    }
  }

  /** Over every step of a conforming sender, that is the only way to lose a byte. */
  lemma StepUploadsIff(c: Conn, isn: u32, stream: seq<byte>, s: Step)
    requires Upload(c, isn, stream) && s.Enabled(c)
    requires s.Packet? ==> Conforms(c, isn, stream, s.seg)
    ensures Upload(s.Apply(c), isn, stream) <==> (s.Packet? ==> KeepsExpectedFin(c, s.seg))
  {
    if Obeys(c, isn, stream, s) {
      StepKeepsUpload(c, isn, stream, s);
    } else {
      LostFinBreaksUpload(c, isn, stream, s.seg);
      SettleUploads(c.HandleExpected(s.seg), isn, stream);
    }
  }

  lemma LostFinBreaksUpload(c: Conn, isn: u32, stream: seq<byte>, seg: Segment)
    requires Upload(c, isn, stream) && Conforms(c, isn, stream, seg) && !KeepsExpectedFin(c, seg)
    ensures !Upload(c.HandleExpected(seg), isn, stream)
  {
    LostFinHasFlag(c, seg);
    ExpectedIsNextOffset(c, isn, stream);
    hide KeepsFin, Upload, Conn.ExpectedSeq, CutAt;
    var o :| -TWO_32 < o - NextOffset(c) < TWO_32 && CutAt(seg, isn, stream, o);
    assert seg.seqNo == Wrap32(isn + 1 + o) by { CutAtNumbers(seg, isn, stream, o); }
    WrapInjective(isn + 1, o, NextOffset(c));
    DroppedFinLosesData(c, isn, stream, seg);
  }

  lemma CutAtNumbers(seg: Segment, isn: u32, stream: seq<byte>, o: int)
    requires CutAt(seg, isn, stream, o)
    ensures seg.seqNo == Wrap32(isn + 1 + o)
  {}

  lemma SettleUploads(c: Conn, isn: u32, stream: seq<byte>)
    ensures Upload(c.Settle(), isn, stream) <==> Upload(c, isn, stream)
  {}

  lemma LostFinHasFlag(c: Conn, seg: Segment)
    requires !KeepsFin(c, seg)
    ensures seg.flags.fin
  {}

  lemma DroppedFinLosesData(c: Conn, isn: u32, stream: seq<byte>, seg: Segment)
    requires Upload(c, isn, stream) && c.tcb.state != SynSent
    requires seg.flags.fin && !seg.flags.rst && CutAt(seg, isn, stream, NextOffset(c)) && !KeepsFin(c, seg)
    ensures !Upload(c.HandleExpected(seg), isn, stream)
  {
    hide Conn.DoHandleFin;
    var c1 := c.(tcb := c.tcb.(clientWindow := seg.window, theirAckNo := seg.ackNo));
    var c2 := c1.HandleAck(seg);
    assert c2.queue == c.queue && c2.h == c.h;
    var c3 := c2.HandleFin();
    assert c3.tcb.finReceived && c3.queue == c.queue && c3.h.written == c.h.written by {
      DoHandleFinFrame(c2.(tcb := c2.tcb.(finReceived := true)));
    }
    assert |c.h.written + c.queue| < |stream|;
    hide Conn.HandleAck, Conn.HandleFin;
    DropIsFinal(c3, isn, stream);
  }

  lemma DoHandleFinFrame(c: Conn)
    ensures var d := c.DoHandleFin();
      d.tcb.finReceived == c.tcb.finReceived && d.queue == c.queue && d.h.written == c.h.written
  {}

  lemma DropIsFinal(c: Conn, isn: u32, stream: seq<byte>)
    requires c.tcb.finReceived && c.h.written + c.queue != stream
    ensures !Upload(c, isn, stream) && !Upload(c.HandleFinAck(), isn, stream)
  {}

  /** A FIN on the segment that completes the handshake: its byte is acknowledged and never written. */
  lemma FinWithHandshake(c: Conn, isn: u32)
    requires Upload(c, isn, [7]) && c.tcb.state == SynReceived && c.h.written == c.queue == []
    requires !c.tcb.finReceived && c.tcb.finSeqNo.None?
    ensures var seg := Segment(Wrap32(isn + 1), c.tcb.seqNo, FIN_ACK, 1000, [7]);
      var d := c.HandlePacket(seg, 0);
      && CutAt(seg, isn, [7], 0) && seg.seqNo == c.ExpectedSeq()
      && d.tcb.ackNo == Wrap32(isn + 2) && d.h.written + d.queue == [] && d.tcb.state == LastAck
  {}

  // ---- acknowledgements on the wire

  /** Packets queued to the phone between `c` and `d` carry the ack number of `d`. */
  ghost predicate Acking(c: Conn, d: Conn) {
    && c.h.sent <= d.h.sent && c.h.written <= d.h.written && c.h.finsProcessed <= d.h.finsProcessed
    && (forall i :: |c.h.sent| <= i < |d.h.sent| ==> d.h.sent[i].ackNo == d.tcb.ackNo)
    && (d.deferred.Some? ==>
          d.built.ackNo == d.tcb.ackNo || (c.deferred.Some? && d.built.ackNo == c.built.ackNo))
  }

  /** Steps follow one another when the ack number stays, or the first of them queued nothing. */
  lemma AckingTwice(c: Conn, d: Conn, e: Conn)
    requires Acking(c, d) && Acking(d, e)
    requires e.tcb.ackNo == d.tcb.ackNo || (d.h.sent == c.h.sent && d.deferred == c.deferred && d.built == c.built)
    ensures Acking(c, e)
  {}

  lemma ReplyAcks(c: Conn, flags: Flags)
    ensures Acking(c, c.Reply(flags)) && c.Reply(flags).tcb == c.tcb
  {}

  lemma DoHandleFinAcks(c: Conn)
    ensures Acking(c, c.DoHandleFin())
  {
    hide Conn.Reply;
    var d := c.AdvanceAck(1).(h := c.h.(finsProcessed := c.h.finsProcessed + 1));
    ReplyAcks(d, FIN_ACK);
    ReplyAcks(d, ACK);
  }

  lemma ExpectedAcks(c: Conn, seg: Segment)
    ensures Acking(c, c.HandleExpected(seg))
  {
    hide Conn.DoHandleFin;
    var c1 := c.(tcb := c.tcb.(clientWindow := seg.window, theirAckNo := seg.ackNo));
    var c2 := if seg.flags.ack then c1.HandleAck(seg) else c1;
    DoHandleFinAcks(c2.(tcb := c2.tcb.(finReceived := true)));
    var c3 := if seg.flags.fin then c2.HandleFin() else c2;
    assert c2.h == c.h && c2.deferred == c.deferred && c2.built == c.built && c2.tcb.ackNo == c.tcb.ackNo;
    hide Conn.HandleAck;
    assert Acking(c, c3);
  }

  lemma PacketAcks(c: Conn, seg: Segment, isn: u32)
    ensures Acking(c, c.SendToNetwork(seg, isn))
  {
    hide Conn.HandleExpected;
    ExpectedAcks(c, seg);
  }

  lemma WritableAcks(c: Conn, writable: bool, w: WriteOutcome)
    requires w.Possible(c.queue)
    ensures Acking(c, c.AfterWritable(writable, w))
  {
    hide Conn.DoHandleFin, Conn.Reply;
    if writable {
      if c.tcb.state == SynSent {
        ReplyAcks(c.SetState(SynReceived), SYN_ACK);
      } else if w.Wrote? && w.n > 0 {
        var d := c.(queue := c.queue[w.n..], h := c.h.(written := c.h.written + c.queue[..w.n])).AdvanceAck(w.n);
        DoHandleFinAcks(d);
        ReplyAcks(d, ACK);
      } else {
        ReplyAcks(c, RST);
      }
    }
  }

  lemma ReadableAcks(c: Conn, readable: bool, r: ReadOutcome)
    requires c.Readable(readable, r)
    ensures Acking(c, c.AfterReadable(readable, r)) && c.AfterReadable(readable, r).tcb.ackNo == c.tcb.ackNo
  {}

  /** Every packet queued in a step carries the ack number after it; a deferred one that of its own step. */
  lemma StepAcks(c: Conn, s: Step)
    requires s.Enabled(c)
    ensures s != Deliver ==> Acking(c, s.Apply(c))
    ensures s == Deliver ==>
      c.h.sent <= s.Apply(c).h.sent && s.Apply(c).h.written == c.h.written
      && s.Apply(c).h.finsProcessed == c.h.finsProcessed
      && (forall i :: |c.h.sent| <= i < |s.Apply(c).h.sent| ==> s.Apply(c).h.sent[i].ackNo == c.built.ackNo)
      && (s.Apply(c).deferred.Some? ==> s.Apply(c) == c)
  {
    hide Conn.AfterWritable, Conn.AfterReadable, Conn.SendToNetwork;
    match s
    case Packet(seg, isn) => PacketAcks(c, seg, isn);
    case Socket(e, w, r) =>
      if !c.closed && (e.readable || e.writable) && !c.SendBlocks(e, w) {
        WritableAcks(c, e.writable, w);
        ReadableAcks(c.AfterWritable(e.writable, w), e.readable, r);
        AckingTwice(c, c.AfterWritable(e.writable, w), s.Apply(c));
      }
    case Deliver =>
    case Drain(_) =>
  }

  /** This ack number covers only bytes that have reached the network, and the FIN once it is processed. */
  ghost predicate Covered(c: Conn, isn: u32, ackNo: u32) {
    exists k: nat :: k <= |c.h.written| + c.h.finsProcessed && ackNo == AckAfter(isn, k)
  }

  function AckAfter(isn: u32, k: nat): u32 { Wrap32(isn + 1 + k) }

  /** No packet to the phone, queued or deferred, acknowledges a byte that is still in the relay. */
  ghost predicate AcksOnlyWritten(c: Conn, isn: u32) {
    && (forall i :: 0 <= i < |c.h.sent| ==> Covered(c, isn, c.h.sent[i].ackNo))
    && (c.deferred.Some? ==> Covered(c, isn, c.built.ackNo))
  }

  lemma CoveredStays(c: Conn, d: Conn, isn: u32, ackNo: u32)
    requires Covered(c, isn, ackNo) && |c.h.written| <= |d.h.written| && c.h.finsProcessed <= d.h.finsProcessed
    ensures Covered(d, isn, ackNo)
  {
    var k: nat :| k <= |c.h.written| + c.h.finsProcessed && ackNo == AckAfter(isn, k);
    assert k <= |d.h.written| + d.h.finsProcessed;
  }

  lemma CoveredNow(c: Conn, isn: u32, stream: seq<byte>)
    requires Upload(c, isn, stream)
    ensures Covered(c, isn, c.tcb.ackNo)
  {
    var k := |c.h.written| + c.h.finsProcessed;
    assert c.tcb.ackNo == AckAfter(isn, k);
  }

  lemma StepAcksOnlyWritten(c: Conn, isn: u32, stream: seq<byte>, s: Step)
    requires AcksOnlyWritten(c, isn) && s.Enabled(c) && Upload(s.Apply(c), isn, stream)
    ensures AcksOnlyWritten(s.Apply(c), isn)
  {
    hide Upload, Step.Apply, Covered;
    StepAcks(c, s);
    var d := s.Apply(c);
    CoveredNow(d, isn, stream);
    forall i | 0 <= i < |d.h.sent|
      ensures Covered(d, isn, d.h.sent[i].ackNo)
    {
      if i < |c.h.sent| {
        CoveredStays(c, d, isn, c.h.sent[i].ackNo);
      } else if s == Deliver && c.deferred.Some? {
        CoveredStays(c, d, isn, c.built.ackNo);
      }
    }
    if c.deferred.Some? {
      CoveredStays(c, d, isn, c.built.ackNo);
    }
  }

  /** Over every run, what the phone sees acknowledged has been written to the network. */
  lemma {:induction false} RunAcksOnlyWritten(c: Conn, isn: u32, stream: seq<byte>, steps: seq<Step>)
    requires Upload(c, isn, stream) && AcksOnlyWritten(c, isn) && Runnable(c, steps) && ObeysAll(c, isn, stream, steps)
    ensures AcksOnlyWritten(Run(c, steps), isn)
    decreases steps
  {
    if steps != [] {
      hide Upload, AcksOnlyWritten, Step.Apply;
      StepKeepsUpload(c, isn, stream, steps[0]);
      StepAcksOnlyWritten(c, isn, stream, steps[0]);
      RunAcksOnlyWritten(steps[0].Apply(c), isn, stream, steps[1..]);
    }
  }
}
