/**
 What each packet and each event makes of a TCP connection, said from outside: which bytes are taken, written and
 answered, in which state, with which numbers.
 */
module TcpEffects {
  import opened Bytes
  import opened Io
  import opened TcpSpec
  import opened TcpSafety

  /** The flag bits of section 3.1 of RFC 793. */
  function Bits(f: Flags): u16 {
    (if f.fin then 1 else 0) + (if f.syn then 2 else 0) + (if f.rst then 4 else 0)
    + (if f.psh then 8 else 0) + (if f.ack then 16 else 0)
  }

  lemma FlagBits()
    ensures Bits(ACK) == 0x10 && Bits(RST) == 0x04 && Bits(PSH_ACK) == 0x18
    ensures Bits(SYN_ACK) == 0x12 && Bits(FIN_ACK) == 0x11
  {}

  /** A packet without payload is queued to the phone when its headers fit, and lost otherwise. */
  ghost predicate Answers(c: Conn, d: Conn, seqNo: u32, ackNo: u32, flags: Flags) {
    if c.headerLength <= c.room then
      d.h.sent == c.h.sent + [Built(seqNo, ackNo, flags, c.headerLength, [])] && d.room == c.room - c.headerLength
    else Silent(c, d)
  }

  predicate Silent(c: Conn, d: Conn) { d.h.sent == c.h.sent && d.room == c.room }

  // ---- packets of the phone

  /** The segment is the next one of an open, started connection, and nothing that resets it. */
  predicate Expected(c: Conn, seg: Segment) {
    && !c.closed && c.tcb.state != Init && !seg.flags.syn && !seg.flags.rst
    && seg.seqNo == Wrap32(c.tcb.ackNo + |c.queue|)
  }

  /** The payload that is taken: all of it or nothing, and nothing while the handshake completes. */
  function Taken1(c: Conn, seg: Segment): seq<byte> {
    if seg.flags.ack && c.tcb.state != SynReceived && |seg.payload| <= QUEUE_CAPACITY - |c.queue| then seg.payload
    else []
  }

  /** The segment's FIN is processed at once: nothing is left to be written before it. */
  predicate Ends(c: Conn, seg: Segment) { seg.flags.fin && c.queue + Taken1(c, seg) == [] }

  /** The state in which a FIN meets the connection: an acknowledgement completes the handshake first. */
  function Met(c: Conn, seg: Segment): State {
    if c.tcb.state == SynReceived && seg.flags.ack then Established else c.tcb.state
  }

  /** The numbers of the connection after an expected segment: a FIN processed at once counts on both sides. */
  function AckAfter(c: Conn, seg: Segment): u32 { Wrap32(c.tcb.ackNo + if Ends(c, seg) then 1 else 0) }

  function SeqAfter(c: Conn, seg: Segment): u32 {
    Wrap32(c.tcb.seqNo + if Ends(c, seg) && Met(c, seg) == Established then 1 else 0)
  }

  /** The number of our FIN, once it has one. */
  function FinAfter(c: Conn, seg: Segment): Option<u32> {
    if Ends(c, seg) && Met(c, seg) == Established then Some(c.tcb.seqNo) else c.tcb.finSeqNo
  }

  /** The segment acknowledges our FIN. */
  predicate AcksOurs(c: Conn, seg: Segment) {
    FinAfter(c, seg).Some? && seg.ackNo == Wrap32(FinAfter(c, seg).value + 1)
  }

  /** The row of Figure 6 of RFC 793: where the FIN leads, and then the acknowledgement of ours. */
  function StateAfter(c: Conn, seg: Segment): State {
    match Met(c, seg)
    case Established => if Ends(c, seg) then LastAck else Established
    case FinWait1 =>
      if Ends(c, seg) then Closing else if AcksOurs(c, seg) then FinWait2 else FinWait1
    case state => state
  }

  /** What the connection says to an expected segment: only a FIN is answered. */
  ghost predicate AnswersFin(c: Conn, d: Conn, seg: Segment) {
    if !Ends(c, seg) then Silent(c, d)
    else match Met(c, seg)
      case Established => Answers(c, d, c.tcb.seqNo, AckAfter(c, seg), FIN_ACK)
      case FinWait1 => Answers(c, d, c.tcb.seqNo, AckAfter(c, seg), ACK)
      case FinWait2 => Answers(c, d, c.tcb.seqNo, AckAfter(c, seg), ACK)
      case _ => Silent(c, d)
  }

  lemma ReplyAnswers(c: Conn, flags: Flags)
    ensures var d := c.Reply(flags);
      && Answers(c, d, c.tcb.seqNo, c.tcb.ackNo, flags)
      && d.tcb == c.tcb && d.queue == c.queue && d.deferred == c.deferred && d.closed == c.closed
      && d.interests == c.interests && d.headerLength == c.headerLength && d.h.(sent := c.h.sent) == c.h
  {}

  /** The parts of a connection that only answers leave alone. */
  predicate SameRest(c: Conn, d: Conn) {
    && d.queue == c.queue && d.h.written == c.h.written && d.h.received == c.h.received && d.deferred == c.deferred
    && d.headerLength == c.headerLength && d.interests == c.interests
    && d.tcb.theirAckNo == c.tcb.theirAckNo && d.tcb.clientWindow == c.tcb.clientWindow
    && d.tcb.synSeqNo == c.tcb.synSeqNo && d.tcb.finReceived == c.tcb.finReceived
  }

  /** A FIN that is processed. */
  lemma FinMeets(c: Conn)
    ensures var d := c.DoHandleFin();
      && SameRest(c, d) && d.tcb.ackNo == Wrap32(c.tcb.ackNo + 1)
      && d.h.finsProcessed == c.h.finsProcessed + 1
      && (d.closed <==> c.closed || c.tcb.state == FinWait2)
      && (match c.tcb.state
          case Established =>
            && Answers(c, d, c.tcb.seqNo, d.tcb.ackNo, FIN_ACK) && d.tcb.state == LastAck
            && d.tcb.seqNo == Wrap32(c.tcb.seqNo + 1) && d.tcb.finSeqNo == Some(c.tcb.seqNo)
          case FinWait1 =>
            && Answers(c, d, c.tcb.seqNo, d.tcb.ackNo, ACK) && d.tcb.state == Closing
            && d.tcb.seqNo == c.tcb.seqNo && d.tcb.finSeqNo == c.tcb.finSeqNo
          case FinWait2 =>
            && Answers(c, d, c.tcb.seqNo, d.tcb.ackNo, ACK) && d.tcb.state == FinWait2
            && d.tcb.seqNo == c.tcb.seqNo && d.tcb.finSeqNo == c.tcb.finSeqNo
          case _ =>
            && Silent(c, d) && d.tcb.state == c.tcb.state
            && d.tcb.seqNo == c.tcb.seqNo && d.tcb.finSeqNo == c.tcb.finSeqNo)
  {
    hide Conn.Reply, Wrap32;
    var d := c.AdvanceAck(1).(h := c.h.(finsProcessed := c.h.finsProcessed + 1));
    ReplyAnswers(d, FIN_ACK);
    ReplyAnswers(d, ACK);
  }

  /** What an acknowledging segment does before its FIN is looked at. */
  lemma AckTakes(c: Conn, seg: Segment)
    requires Expected(c, seg)
    ensures var c1 := c.(tcb := c.tcb.(clientWindow := seg.window, theirAckNo := seg.ackNo));
      var d := if seg.flags.ack then c1.HandleAck(seg) else c1;
      d == c1.(queue := c.queue + Taken1(c, seg), tcb := c1.tcb.(state := Met(c, seg)))
  {
    assert c.queue + [] == c.queue;
  }

  /** The whole of what an expected segment does. */
  ghost predicate PacketLaw(c: Conn, d: Conn, seg: Segment) {
    && d.queue == c.queue + Taken1(c, seg) && d.h.written == c.h.written && d.h.received == c.h.received
    && d.deferred == c.deferred && d.headerLength == c.headerLength
    && d.tcb == Tcb(StateAfter(c, seg), c.tcb.synSeqNo, SeqAfter(c, seg), AckAfter(c, seg), seg.ackNo,
                    FinAfter(c, seg), c.tcb.finReceived || seg.flags.fin, seg.window)
    && AnswersFin(c, d, seg)
    && d.h.finsProcessed == c.h.finsProcessed + (if Ends(c, seg) then 1 else 0)
  }

  /** The same up to the FIN, without the acknowledgement of ours. */
  ghost predicate FinLaw(c: Conn, d: Conn, fin: bool) {
    var ends := fin && c.queue == [];
    var est := c.tcb.state == Established;
    && d.queue == c.queue && d.h.written == c.h.written && d.h.received == c.h.received
    && d.deferred == c.deferred && d.headerLength == c.headerLength && d.interests == c.interests
    && d.tcb == c.tcb.(
         state := if !ends then c.tcb.state else if est then LastAck
                  else if c.tcb.state == FinWait1 then Closing else c.tcb.state,
         seqNo := Wrap32(c.tcb.seqNo + if ends && est then 1 else 0),
         ackNo := Wrap32(c.tcb.ackNo + if ends then 1 else 0),
         finSeqNo := if ends && est then Some(c.tcb.seqNo) else c.tcb.finSeqNo,
         finReceived := c.tcb.finReceived || fin)
    && d.h.finsProcessed == c.h.finsProcessed + (if ends then 1 else 0)
    && (if ends && est then Answers(c, d, c.tcb.seqNo, d.tcb.ackNo, FIN_ACK)
        else if ends && (c.tcb.state == FinWait1 || c.tcb.state == FinWait2) then
          Answers(c, d, c.tcb.seqNo, d.tcb.ackNo, ACK)
        else Silent(c, d))
  }

  lemma FinStage(c: Conn, fin: bool)
    ensures FinLaw(c, if fin then c.HandleFin() else c, fin)
  {
    hide Conn.DoHandleFin;
    FinMeets(c.(tcb := c.tcb.(finReceived := true)));
    Unwrapped(c.tcb.ackNo);
    Unwrapped(c.tcb.seqNo);
    FinKeepsTcb(c.(tcb := c.tcb.(finReceived := true)));
    hide Wrap32;
  }

  /** Only these fields of the control block take part. */
  lemma FinKeepsTcb(c: Conn)
    ensures var d := c.DoHandleFin();
      d.tcb.(state := c.tcb.state, seqNo := c.tcb.seqNo, ackNo := c.tcb.ackNo, finSeqNo := c.tcb.finSeqNo) == c.tcb
  {}

  /** The acknowledgement of our FIN moves the state, or closes. */
  lemma FinAckStage(c: Conn)
    ensures var d := c.HandleFinAck();
      && d.queue == c.queue && d.h.(closes := c.h.closes) == c.h && d.deferred == c.deferred
      && d.headerLength == c.headerLength && d.room == c.room
      && d.tcb == c.tcb.(state := if c.tcb.state == FinWait1 then FinWait2 else c.tcb.state)
  {}

  lemma ExpectedLaw(c: Conn, seg: Segment)
    requires Expected(c, seg)
    ensures PacketLaw(c, c.HandleExpected(seg), seg)
  {
    hide Conn.DoHandleFin, Conn.HandleAck, Conn.HandleFin, Conn.HandleFinAck, Wrap32;
    AckTakes(c, seg);
    var c1 := c.(tcb := c.tcb.(clientWindow := seg.window, theirAckNo := seg.ackNo));
    var c2 := if seg.flags.ack then c1.HandleAck(seg) else c1;
    var c3 := if seg.flags.fin then c2.HandleFin() else c2;
    FinStage(c2, seg.flags.fin);
    FinAckStage(c3);
  }

  lemma Unwrapped(x: u32)
    ensures Wrap32(x + 0) == x
  {}

  /** An expected segment is accepted, answered and counted as the law says. */
  lemma PacketObeys(c: Conn, seg: Segment, isn: u32)
    requires Expected(c, seg)
    ensures PacketLaw(c, c.SendToNetwork(seg, isn), seg)
  {
    hide Conn.HandleExpected;
    ExpectedLaw(c, seg);
  }

  /** Another segment of a started connection, stale or too early, leaves everything but the interests. */
  lemma StrayIsIgnored(c: Conn, seg: Segment, isn: u32)
    requires !c.closed && c.tcb.state != Init && !seg.flags.syn && seg.seqNo != Wrap32(c.tcb.ackNo + |c.queue|)
    ensures c.SendToNetwork(seg, isn).(interests := c.interests) == c
  {}

  /** An expected RST closes, silently. */
  lemma RstCloses(c: Conn, seg: Segment, isn: u32)
    requires !c.closed && c.tcb.state != Init && !seg.flags.syn && seg.flags.rst
    requires seg.seqNo == Wrap32(c.tcb.ackNo + |c.queue|)
    ensures var d := c.SendToNetwork(seg, isn);
      && d.closed && Silent(c, d) && d.queue == c.queue && d.tcb.state == c.tcb.state
      && d.tcb.seqNo == c.tcb.seqNo && d.tcb.ackNo == c.tcb.ackNo
  {}

  /** The first packet opens the handshake, or is reset with the number that it acknowledges. */
  lemma FirstPacket(c: Conn, seg: Segment, isn: u32)
    requires !c.closed && c.tcb == NEW_TCB
    ensures var d := c.SendToNetwork(seg, isn);
      && d.queue == c.queue && d.h.written == c.h.written
      && if seg.flags.syn then
           && d.tcb == Tcb(SynSent, seg.seqNo, isn, Wrap32(seg.seqNo + 1), 0, None, false, seg.window)
           && Silent(c, d) && !d.closed && d.h.localIsn == isn
         else
           d.closed && d.tcb.state == Init && Answers(c, d, seg.ackNo, 0, RST)
  {}

  /** A repeated SYN is taken as the first one before the connection is made; later only a different one matters. */
  lemma RepeatedSyn(c: Conn, seg: Segment, isn: u32)
    requires !c.closed && c.tcb.state != Init && seg.flags.syn
    ensures var d := c.SendToNetwork(seg, isn);
      && d.queue == c.queue && d.h.written == c.h.written
      && if c.tcb.state == SynSent then
           d.tcb == c.tcb.(synSeqNo := seg.seqNo, ackNo := Wrap32(seg.seqNo + 1)) && Silent(c, d) && !d.closed
         else if seg.seqNo != c.tcb.synSeqNo then
           d.tcb == c.tcb && d.closed && Answers(c, d, c.tcb.seqNo, c.tcb.ackNo, RST)
         else
           d.tcb == c.tcb && !d.closed && Silent(c, d)
  {}

  // ---- interests

  /** An open connection waits for its socket to connect, or for data that fits the window and room to write. */
  predicate Registers(d: Conn) {
    !d.closed ==>
      d.interests ==
        if d.tcb.state == SynSent then Ready(false, true)
        else Ready(d.tcb.state == Established && d.deferred.None? && d.tcb.RemainingClientWindow() > 0, d.queue != [])
  }

  lemma PacketRegisters(c: Conn, seg: Segment, isn: u32)
    requires c.tcb.state != CloseWait && !c.closed
    ensures Registers(c.SendToNetwork(seg, isn))
  {
    hide Conn.HandleExpected;
    if Expected(c, seg) {
      ExpectedLaw(c, seg);
    }
    if seg.flags.rst {
      RstKeepsState(c, seg);
    }
  }

  lemma RstKeepsState(c: Conn, seg: Segment)
    requires seg.flags.rst
    ensures c.HandleExpected(seg).tcb.state == c.tcb.state
  {}

  // ---- a writable event

  /** The connected socket lets the handshake go on: a SYN of ours, acknowledging the phone's. */
  lemma ConnectAnswers(c: Conn, r: ReadOutcome)
    requires !c.closed && c.tcb.state == SynSent
    ensures var d := c.Process(Event(false, true), WriteWouldBlock, r);
      && Answers(c, d, c.tcb.seqNo, c.tcb.ackNo, SYN_ACK)
      && d.tcb == c.tcb.(state := SynReceived, seqNo := Wrap32(c.tcb.seqNo + 1))
      && d.queue == c.queue && !d.closed && d.h.written == c.h.written && Registers(d)
  {}

  /** The write drains the queue ahead of a FIN that has been waiting. */
  predicate Drains(c: Conn, n: nat) { c.tcb.finReceived && n == |c.queue| }

  /** What is written leaves the queue, and is acknowledged to the phone; a FIN that waited is processed with it. */
  lemma WriteAnswers(c: Conn, n: nat, r: ReadOutcome)
    requires !c.closed && c.tcb.state != SynSent && c.tcb.state != CloseWait && 0 < n <= |c.queue|
    ensures var d := c.Process(Event(false, true), Wrote(n), r);
      var ack := Wrap32(c.tcb.ackNo + n);
      && d.queue == c.queue[n..] && d.h.written == c.h.written + c.queue[..n]
      && d.h.received == c.h.received && d.deferred == c.deferred && Registers(d)
      && if !Drains(c, n) then
           && Answers(c, d, c.tcb.seqNo, ack, ACK) && !d.closed
           && d.tcb == c.tcb.(ackNo := ack) && d.h.finsProcessed == c.h.finsProcessed
         else
           && d.tcb.ackNo == Wrap32(ack + 1) && d.h.finsProcessed == c.h.finsProcessed + 1
           && match c.tcb.state
              case Established =>
                && Answers(c, d, c.tcb.seqNo, d.tcb.ackNo, FIN_ACK) && !d.closed && d.tcb.state == LastAck
                && d.tcb.seqNo == Wrap32(c.tcb.seqNo + 1) && d.tcb.finSeqNo == Some(c.tcb.seqNo)
              case FinWait1 => Answers(c, d, c.tcb.seqNo, d.tcb.ackNo, ACK) && !d.closed && d.tcb.state == Closing
              case FinWait2 => Answers(c, d, c.tcb.seqNo, d.tcb.ackNo, ACK) && d.closed
              case state => Silent(c, d) && !d.closed && d.tcb.state == state
  {
    hide Conn.DoHandleFin, Conn.Reply, Wrap32;
    var d := c.(queue := c.queue[n..], h := c.h.(written := c.h.written + c.queue[..n])).AdvanceAck(n);
    FinMeets(d);
    ReplyAnswers(d, ACK);
  }

  /** A write that fails for good is reset; one that takes nothing closes; one that would block changes nothing. */
  lemma WriteFails(c: Conn, w: WriteOutcome, r: ReadOutcome)
    requires !c.closed && c.tcb.state != SynSent && (w == WriteFailed || w == Wrote(0) || w == WriteWouldBlock)
    ensures var d := c.Process(Event(false, true), w, r);
      && d.queue == c.queue && d.h.written == c.h.written && d.tcb == c.tcb
      && (w == WriteFailed ==> d.closed && Answers(c, d, c.tcb.seqNo, c.tcb.ackNo, RST))
      && (w == Wrote(0) ==> d.closed && Silent(c, d))
      && (w == WriteWouldBlock ==> d == c)
  {}

  // ---- a readable event

  /** Data goes to the phone at once, or waits for the client to pull it. */
  lemma ReadSends(c: Conn, w: WriteOutcome, data: seq<byte>)
    requires !c.closed && c.CanReceive() && Read(data).Possible(c.MaxRead()) && w.Possible(c.queue)
    requires c.tcb.state != CloseWait
    ensures var d := c.Process(Event(true, false), w, Read(data));
      var p := Built(c.tcb.seqNo, c.tcb.ackNo, PSH_ACK, c.headerLength + |data|, data);
      && d.queue == c.queue && !d.closed && d.h.received == c.h.received + data && d.built == p && Registers(d)
      && if c.headerLength + |data| <= c.room then
           && d.h.sent == c.h.sent + [p] && d.room == c.room - p.totalLength && d.deferred.None?
           && d.tcb == c.tcb.(seqNo := Wrap32(c.tcb.seqNo + |data|))
         else
           Silent(c, d) && d.deferred == Some(p.totalLength) && d.tcb == c.tcb
  {}

  /** The end of the stream is a FIN of ours; an error is reset; a read that would block changes headers at most. */
  lemma ReadEnds(c: Conn, w: WriteOutcome, r: ReadOutcome)
    requires !c.closed && c.CanReceive() && !r.Read? && w.Possible(c.queue)
    ensures var d := c.Process(Event(true, false), w, r);
      && d.queue == c.queue && d.h.received == c.h.received && d.deferred == c.deferred
      && match r
         case Eof =>
           && Answers(c, d, c.tcb.seqNo, c.tcb.ackNo, FIN_ACK) && !d.closed && Registers(d)
           && d.tcb == c.tcb.(state := if c.tcb.state == CloseWait then LastAck else FinWait1,
                              seqNo := Wrap32(c.tcb.seqNo + 1), finSeqNo := Some(c.tcb.seqNo))
         case ReadFailed => Answers(c, d, c.tcb.seqNo, c.tcb.ackNo, RST) && d.closed && d.tcb == c.tcb
         case _ => Silent(c, d) && d.(built := c.built) == c
  {}

  // ---- events put together

  /** Writable and readable at once: the write first, then the read, unless the write blocked or closed. */
  lemma BothInTurn(c: Conn, w: WriteOutcome, r: ReadOutcome)
    requires !c.closed && c.Processable(Event(true, true), w, r)
    ensures var first := c.Process(Event(false, true), w, r);
      var both := c.Process(Event(true, true), w, r);
      if c.SendBlocks(Event(true, true), w) || first.closed then both == first
      else
        && first.Processable(Event(true, false), Wrote(0), r)
        && var second := first.Process(Event(true, false), Wrote(0), r);
        && both.(interests := c.interests) == second.(interests := c.interests)
        && (if r == ReadWouldBlock then both.interests == c.interests
            else !both.closed ==> both.interests == second.interests)
  {
    WriteHalfSettles(c, w);
    var mid := c.AfterWritable(true, w);
    hide Conn.AfterWritable;
    if !c.SendBlocks(Event(true, true), w) && !mid.closed {
      ReadAfterSettling(mid, r);
    }
  }

  lemma WriteHalfSettles(c: Conn, w: WriteOutcome)
    requires w.Possible(c.queue)
    ensures c.AfterWritable(true, w).interests == c.interests
    ensures forall d: Conn :: d.AfterWritable(false, Wrote(0)) == d
  {
    hide Conn.Reply, Conn.DoHandleFin;
    var n := if w.Wrote? then w.n else 0;
    var d := c.(queue := c.queue[n..], h := c.h.(written := c.h.written + c.queue[..n])).AdvanceAck(n);
    FinMeets(d);
    ReplyAnswers(d, ACK);
    ReplyAnswers(c, RST);
    ReplyAnswers(c.SetState(SynReceived), SYN_ACK);
  }

  lemma ReadAfterSettling(mid: Conn, r: ReadOutcome)
    requires !mid.closed && mid.CanReceive() && r.Possible(mid.MaxRead())
    ensures var settled := mid.Settle();
      && settled.CanReceive() && settled.MaxRead() == mid.MaxRead() && !settled.closed
      && settled.ProcessReceive(r) == mid.ProcessReceive(r).(interests := settled.interests)
      && settled.ProcessReceive(r).Settle().(interests := mid.interests)
         == mid.ProcessReceive(r).Settle().(interests := mid.interests)
      && (!mid.ProcessReceive(r).closed ==> settled.ProcessReceive(r).Settle() == mid.ProcessReceive(r).Settle())
  {
    ReceiveIsIndependent(mid, mid.Wanted(), r);
    hide Conn.ProcessReceive, Conn.Wanted;
    SettleForgets(mid.ProcessReceive(r), mid.Settle().interests);
  }

  lemma SettleForgets(c: Conn, i: Ready)
    ensures !c.closed ==> c.(interests := i).Settle() == c.Settle()
    ensures c.closed ==> c.(interests := i).Settle() == c.(interests := i)
    ensures c.Settle().(interests := i) == c.(interests := i)
  {}

  lemma ReceiveIsIndependent(c: Conn, i: Ready, r: ReadOutcome)
    requires c.CanReceive() && r.Possible(c.MaxRead())
    ensures c.(interests := i).ProcessReceive(r) == c.ProcessReceive(r).(interests := i)
  {
    hide Conn.Reply;
    ReplyIsIndependent(c.UpdateHeaders(PSH_ACK), i, FIN_ACK);
    ReplyIsIndependent(c.UpdateHeaders(PSH_ACK), i, RST);
  }

  lemma ReplyIsIndependent(c: Conn, i: Ready, flags: Flags)
    ensures c.(interests := i).Reply(flags) == c.Reply(flags).(interests := i)
  {}

  /** An event without either is the end of the socket, and a closed connection hears of nothing. */
  lemma OtherEvents(c: Conn, w: WriteOutcome, r: ReadOutcome)
    ensures c.closed ==> forall e :: c.Process(e, w, r) == c
    ensures var e := Event(false, false);
      !c.closed && c.Processable(e, w, r) ==>
        c.Process(e, w, r).closed && Silent(c, c.Process(e, w, r)) && c.Process(e, w, r).queue == c.queue
  {}

  /** The client pulls a deferred packet when the length in its header fits. */
  lemma PullSends(c: Conn)
    requires c.Pullable() && c.tcb.state != CloseWait
    ensures var d := c.Pull();
      if c.built.totalLength <= c.room then
        && d.h.sent == c.h.sent + [c.built] && d.room == c.room - c.deferred.value && d.deferred.None?
        && d.tcb == c.tcb.(seqNo := Wrap32(c.tcb.seqNo + c.deferred.value)) && d.queue == c.queue && Registers(d)
      else d == c
  {}

  lemma Limits()
    ensures MTU == 16384 && MAX_PAYLOAD_LENGTH == 16344 && QUEUE_CAPACITY == 262144
  {}

  // ---- whole runs

  /** A new connection waits to be connected, so that its SYN needs no update. */
  lemma NewListens(headerLength: nat, built: Built, room: nat, syn: Segment, isn: u32)
    requires syn.flags.syn
    ensures var c := NewConn(headerLength, built, room);
      && !c.closed && c.queue == [] && c.deferred == None && c.h == NO_HISTORY && c.room == room
      && c.tcb.state == Init && c.interests == Ready(false, true)
      && c.SendToNetwork(syn, isn).interests == c.interests
  {}

  /** Packets come to an open connection at any time, and the client's queue may change at any time. */
  lemma StepsAreFree(c: Conn, seg: Segment, isn: u32, room: nat)
    ensures Packet(seg, isn).Enabled(c) <==> !c.closed
    ensures Drain(room).Enabled(c) && Drain(room).Apply(c) == c.(room := room)
  {}

  /** Runs are made of their steps in turn. */
  lemma {:induction false} RunsInTurn(c: Conn, a: seq<Step>, b: seq<Step>)
    ensures Runnable(c, a + b) <==> Runnable(c, a) && Runnable(Run(c, a), b)
    ensures Runnable(c, a + b) ==> Run(c, a + b) == Run(Run(c, a), b)
    ensures forall s :: (Runnable(c, [s]) <==> s.Enabled(c)) && (s.Enabled(c) ==> Run(c, [s]) == s.Apply(c))
    decreases |a|
  {
    forall s
      ensures Runnable(c, [s]) <==> s.Enabled(c)
      ensures s.Enabled(c) ==> Run(c, [s]) == s.Apply(c)
    {
      assert [s][1..] == [];
    }
    hide Step.Enabled, Step.Apply;
    if a == [] {
      assert a + b == b;
    } else {
      assert (a + b)[0] == a[0] && (a + b)[1..] == a[1..] + b;
      if a[0].Enabled(c) {
        RunsInTurn(a[0].Apply(c), a[1..], b);
      }
    }
  }

  // ---- whole uploads

  /** The bytes accepted so far: written, or still queued. */
  function Accepted(c: Conn): seq<byte> { c.h.written + c.queue }

  lemma OthersKeepAccepted(c: Conn, seg: Segment, isn: u32)
    requires !c.closed && !Expected(c, seg)
    ensures Accepted(c.SendToNetwork(seg, isn)) == Accepted(c)
  {
    if c.tcb.state != Init && !seg.flags.syn {
      if seg.seqNo == Wrap32(c.tcb.ackNo + |c.queue|) {
        RstCloses(c, seg, isn);
        RstWritesNothing(c, seg);
      } else {
        StrayIsIgnored(c, seg, isn);
      }
    }
  }

  lemma RstWritesNothing(c: Conn, seg: Segment)
    requires seg.flags.rst
    ensures Accepted(c.HandleExpected(seg)) == Accepted(c)
  {}

  lemma SocketKeepsAccepted(c: Conn, e: Event, w: WriteOutcome, r: ReadOutcome)
    requires c.Processable(e, w, r)
    ensures Accepted(c.Process(e, w, r)) == Accepted(c)
  {
    hide Conn.AfterWritable, Conn.ProcessReceive;
    if !c.closed && (e.readable || e.writable) && !c.SendBlocks(e, w) {
      WriteKeepsAccepted(c, e.writable, w);
      var mid := c.AfterWritable(e.writable, w);
      if !mid.closed && e.readable {
        ReceiveKeepsAccepted(mid, r);
      }
    }
  }

  lemma WriteKeepsAccepted(c: Conn, writable: bool, w: WriteOutcome)
    requires w.Possible(c.queue)
    ensures Accepted(c.AfterWritable(writable, w)) == Accepted(c)
  {
    hide Conn.Reply, Conn.DoHandleFin;
    var n := if w.Wrote? then w.n else 0;
    var d := c.(queue := c.queue[n..], h := c.h.(written := c.h.written + c.queue[..n])).AdvanceAck(n);
    FinMeets(d);
    ReplyAnswers(d, ACK);
    ReplyAnswers(c, RST);
    ReplyAnswers(c.SetState(SynReceived), SYN_ACK);
    assert c.queue[..n] + c.queue[n..] == c.queue;
    assert (c.h.written + c.queue[..n]) + c.queue[n..] == c.h.written + (c.queue[..n] + c.queue[n..]);
  }

  lemma ReceiveKeepsAccepted(c: Conn, r: ReadOutcome)
    requires c.CanReceive() && r.Possible(c.MaxRead())
    ensures Accepted(c.ProcessReceive(r)) == Accepted(c)
  {
    hide Conn.Reply;
    ReplyAnswers(c.UpdateHeaders(PSH_ACK), RST);
    ReplyAnswers(c.UpdateHeaders(PSH_ACK), FIN_ACK);
  }

  /** What a step brings: the payload of an expected segment, when it is taken. */
  function Brings(c: Conn, s: Step): seq<byte> {
    if s.Packet? && Expected(c, s.seg) then Taken1(c, s.seg) else []
  }

  function AllBrought(c: Conn, steps: seq<Step>): seq<byte>
    requires Runnable(c, steps)
    decreases steps
  {
    if steps == [] then [] else Brings(c, steps[0]) + AllBrought(steps[0].Apply(c), steps[1..])
  }

  lemma StepAccepts(c: Conn, s: Step)
    requires s.Enabled(c)
    ensures Accepted(s.Apply(c)) == Accepted(c) + Brings(c, s)
  {
    hide Conn.HandlePacket, Conn.Process, Conn.Pull;
    match s
    case Packet(seg, isn) =>
      if Expected(c, seg) {
        PacketObeys(c, seg, isn);
        assert c.h.written + (c.queue + Taken1(c, seg)) == (c.h.written + c.queue) + Taken1(c, seg);
      } else {
        OthersKeepAccepted(c, seg, isn);
      }
    case Socket(e, w, r) => SocketKeepsAccepted(c, e, w, r);
    case Deliver => PullKeepsAccepted(c);
    case Drain(_) =>
  }

  lemma PullKeepsAccepted(c: Conn)
    requires c.Pullable()
    ensures Accepted(c.Pull()) == Accepted(c)
  {}

  /** Over every run exactly what was brought is accepted, in order: nothing is lost, repeated or made up. */
  lemma {:induction false} RunAccepts(c: Conn, steps: seq<Step>)
    requires Runnable(c, steps)
    ensures Accepted(Run(c, steps)) == Accepted(c) + AllBrought(c, steps)
    decreases steps
  {
    hide Accepted, Brings, Step.Apply;
    if steps != [] {
      var next := steps[0].Apply(c);
      StepAccepts(c, steps[0]);
      RunAccepts(next, steps[1..]);
      Regroup(Accepted(c), Brings(c, steps[0]), AllBrought(next, steps[1..]));
    } else {
      Regroup(Accepted(c), [], []);
    }
  }

  lemma Regroup(a: seq<byte>, b: seq<byte>, c: seq<byte>)
    ensures (a + b) + c == a + (b + c) && a + [] == a
  {}

  /** Segments bring `data` piece by piece, each expected when it comes and with room; anything may go between. */
  ghost predicate Delivers(c: Conn, steps: seq<Step>, data: seq<byte>)
    requires Runnable(c, steps)
    decreases steps
  {
    if steps == [] then data == []
    else if steps[0].Packet? then
      var seg := steps[0].seg;
      && Expected(c, seg) && seg.flags.ack && c.tcb.state != SynReceived
      && |seg.payload| <= QUEUE_CAPACITY - |c.queue| && seg.payload <= data
      && Delivers(steps[0].Apply(c), steps[1..], data[|seg.payload|..])
    else Delivers(steps[0].Apply(c), steps[1..], data)
  }

  lemma {:induction false} DeliversBrings(c: Conn, steps: seq<Step>, data: seq<byte>)
    requires Runnable(c, steps) && Delivers(c, steps, data)
    ensures AllBrought(c, steps) == data
    decreases steps
  {
    if steps != [] {
      hide Step.Apply;
      var rest := if steps[0].Packet? then data[|steps[0].seg.payload|..] else data;
      DeliversBrings(steps[0].Apply(c), steps[1..], rest);
    }
  }

  /** A stream delivered in order with room is accepted whole, and is on the network once the queue is empty. */
  lemma InOrderIsAccepted(c: Conn, steps: seq<Step>, data: seq<byte>)
    requires Runnable(c, steps) && Delivers(c, steps, data)
    ensures Accepted(Run(c, steps)) == Accepted(c) + data
    ensures Run(c, steps).queue == [] ==> Run(c, steps).h.written == Accepted(c) + data
  {
    RunAccepts(c, steps);
    DeliversBrings(c, steps, data);
    var d := Run(c, steps);
    assert d.queue == [] ==> d.h.written + d.queue == d.h.written;
  }
}
