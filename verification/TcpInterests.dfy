/** What a connection asks to be woken for, and when the wake-up finds work to do. */
module TcpInterests {
  import opened Bytes
  import opened Io
  import opened TcpSpec
  import opened TcpSafety

  /** No lost wake-up: whatever a connection could do next, it is registered for. */
  ghost predicate Wakes(c: Conn) {
    !c.closed ==>
      && (c.queue != [] ==> c.interests.writable)
      && (c.tcb.state == SynSent ==> c.interests.writable)
      && (c.MayRead() ==> c.interests.readable)
  }

  lemma SettledWakes(c: Conn)
    ensures Wakes(c.Settle()) && (!c.closed ==> c.Settle().interests == c.Settle().Wanted())
  {}

  /** Interests are as before, and every need of `d` was one of `c`. */
  ghost predicate NeedsLess(c: Conn, d: Conn) {
    && d.interests == c.interests
    && (d.queue != [] ==> c.queue != [])
    && (d.tcb.state == SynSent ==> c.tcb.state == SynSent)
    && (d.MayRead() ==> c.MayRead())
  }

  lemma ReplyNeedsNothing(c: Conn, flags: Flags)
    ensures NeedsLess(c, c.Reply(flags)) && c.Reply(flags).closed == c.closed
  {}

  lemma SendNeedsLess(c: Conn, n: nat)
    requires 0 < n <= |c.queue|
    ensures var d := c.ProcessSend(Wrote(n));
      && NeedsLess(c, d)
      && (d.closed && !c.closed ==> c.tcb.state == FinWait2 && c.tcb.finReceived && n == |c.queue|)
  {
    var d := c.(queue := c.queue[n..], h := c.h.(written := c.h.written + c.queue[..n])).AdvanceAck(n);
    assert NeedsLess(c, d) && d.tcb.state == c.tcb.state && d.closed == c.closed;
    FinNeedsLess(d);
    ReplyNeedsNothing(d, ACK);
    hide Conn.DoHandleFin, Conn.Reply, Conn.MayRead;
  }

  /** The writable half opens no new need for a wake-up. */
  lemma WritableNeedsLess(c: Conn, writable: bool, w: WriteOutcome)
    requires w.Possible(c.queue)
    ensures var d := c.AfterWritable(writable, w);
      && NeedsLess(c, d)
      && (writable && c.tcb.state != SynSent && w.Wrote? && w.n > 0 && d.closed && !c.closed ==>
            c.tcb.state == FinWait2 && c.tcb.finReceived && w.n == |c.queue|)
  {
    if writable && c.tcb.state != SynSent && w.Wrote? && w.n > 0 {
      SendNeedsLess(c, w.n);
      hide Conn.ProcessSend, NeedsLess;
    } else if writable {
      ReplyNeedsNothing(c, RST);
      ReplyNeedsNothing(c.SetState(SynReceived), SYN_ACK);
      hide Conn.Reply;
    }
  }

  lemma FinNeedsLess(c: Conn)
    ensures var d := c.DoHandleFin();
      && NeedsLess(c, d)
      && (d.closed && !c.closed ==> c.tcb.state == FinWait2)
  {
    hide Conn.Reply, Wrap32;
    var d := c.AdvanceAck(1).(h := c.h.(finsProcessed := c.h.finsProcessed + 1));
    ReplyNeedsNothing(d, FIN_ACK);
    ReplyNeedsNothing(d, ACK);
    ReplyFrame(d, FIN_ACK);
  }

  lemma BlockedReadNeedsNothing(c: Conn)
    requires c.CanReceive()
    ensures var d := c.ProcessReceive(ReadWouldBlock);
      && d.interests == c.interests && d.Wanted() == c.Wanted()
      && d.closed == c.closed && d.queue == c.queue && d.tcb == c.tcb
  {}

  lemma SocketWakes(c: Conn, e: Event, w: WriteOutcome, r: ReadOutcome)
    requires Wakes(c) && c.Processable(e, w, r)
    ensures Wakes(c.Process(e, w, r))
  {
    if !c.closed && (e.readable || e.writable) && !c.SendBlocks(e, w) {
      hide Conn.AfterWritable, Conn.ProcessReceive, Conn.Settle, Conn.MayRead;
      WritableNeedsLess(c, e.writable, w);
      var d := c.AfterWritable(e.writable, w);
      SettledWakes(d);
      if !d.closed && e.readable {
        SettledWakes(d.ProcessReceive(r));
        if r == ReadWouldBlock {
          BlockedReadNeedsNothing(d);
        }
      }
    }
  }

  lemma StepWakes(c: Conn, s: Step)
    requires Wakes(c) && s.Enabled(c)
    ensures Wakes(s.Apply(c))
  {
    hide Conn.HandlePacket, Conn.Process;
    match s
    case Packet(seg, isn) => SettledWakes(c.HandlePacket(seg, isn));
    case Socket(e, w, r) => SocketWakes(c, e, w, r);
    case Deliver =>
    case Drain(_) =>
  }

  /** No wake-up is lost in any run, whatever the sockets and the phone do. */
  lemma {:induction false} RunWakes(c: Conn, steps: seq<Step>)
    requires Wakes(c) && Runnable(c, steps)
    ensures Wakes(Run(c, steps))
    decreases steps
  {
    if steps != [] {
      hide Wakes;
      StepWakes(c, steps[0]);
      RunWakes(steps[0].Apply(c), steps[1..]);
    }
  }

  // ---- idle wake-ups

  /** Registered for exactly what is wanted. */
  predicate Current(c: Conn) { c.interests == c.Wanted() }

  /** The event that leaves the interests out of date: it met all there was to write, then found nothing to read. */
  predicate ReturnsEarly(c: Conn, e: Event, w: WriteOutcome, r: ReadOutcome) {
    && e.readable && e.writable && r == ReadWouldBlock
    && if c.tcb.state == SynSent then c.queue == [] else w == Wrote(|c.queue|)
  }

  lemma StaleAfterEarlyReturn(c: Conn, e: Event, w: WriteOutcome, r: ReadOutcome)
    requires Current(c) && !c.closed && c.Processable(e, w, r) && !c.Process(e, w, r).closed
    ensures Current(c.Process(e, w, r)) <==> !ReturnsEarly(c, e, w, r)
  {
    if (e.readable || e.writable) && !c.SendBlocks(e, w) {
      var d := c.AfterWritable(e.writable, w);
      WriteChangesNeeds(c, e.writable, w);
      hide Conn.AfterWritable, Conn.ProcessReceive, Conn.Settle, Conn.MayRead, Conn.Wanted;
      SettledWakes(d);
      if !d.closed && e.readable {
        SettledWakes(d.ProcessReceive(r));
        if r == ReadWouldBlock {
          BlockedReadNeedsNothing(d);
        }
      }
    }
  }

  /** The write half changes what is wanted exactly when it connects with, or leaves, nothing to write. */
  lemma WriteChangesNeeds(c: Conn, writable: bool, w: WriteOutcome)
    requires !c.closed && w.Possible(c.queue) && !c.AfterWritable(writable, w).closed
    requires writable && c.tcb.state != SynSent ==> w != WriteWouldBlock
    ensures var d := c.AfterWritable(writable, w);
      && d.interests == c.interests
      && (d.CanReceive() ==>
            (d.Wanted() == c.Wanted() <==>
              !(writable && if c.tcb.state == SynSent then c.queue == [] else w == Wrote(|c.queue|))))
  {
  }

  lemma WritableFindsWork(c: Conn, e: Event, w: WriteOutcome, r: ReadOutcome)
    requires Current(c) && !c.closed && c.Processable(e, w, r)
    requires e.readable || e.writable
    requires (e.writable ==> c.interests.writable) && (e.readable ==> c.interests.readable)
    requires w.Wrote? && r != ReadFailed && (w.n == 0 ==> c.queue == [])
    ensures c.Process(e, w, r).closed ==>
      e.writable && c.tcb.state == FinWait2 && c.tcb.finReceived && w == Wrote(|c.queue|)
  {
    WritableNeedsLess(c, e.writable, w);
    var d := c.AfterWritable(e.writable, w);
    if e.writable && c.tcb.state != SynSent && w.n > 0 {
      hide Conn.AfterWritable;
    }
    if !d.closed && e.readable {
      assert !d.ProcessReceive(r).closed;
    }
  }

  /** Stale interests do harm: the next writable event finds an empty queue and closes the connection. */
  lemma DrainedThenBlockedCloses(c: Conn, n: nat)
    requires Current(c) && !c.closed && c.MayRead() && !c.tcb.finReceived && 0 < n == |c.queue|
    requires c.Processable(Event(true, true), Wrote(n), ReadWouldBlock)
    ensures var d := c.Process(Event(true, true), Wrote(n), ReadWouldBlock);
      && !d.closed && d.queue == [] && d.interests.writable
      && d.Processable(Event(false, true), Wrote(0), Eof)
      && d.Process(Event(false, true), Wrote(0), Eof).closed
  {}

  // ---- window and deferred packet

  /** Bytes in flight are counted modulo 2^32; the remaining window never goes below zero. */
  lemma RemainingWindow(t: Tcb)
    ensures var inFlight := Wrap32(t.seqNo - t.theirAckNo);
      t.RemainingClientWindow() == if inFlight <= t.clientWindow then t.clientWindow - inFlight else 0
  {}

  /** A data packet fits the announced window, and the MTU with headers of 40 bytes. */
  lemma DataFits(c: Conn, data: seq<byte>)
    requires c.CanReceive() && Read(data).Possible(c.MaxRead())
    ensures var d := c.ProcessReceive(Read(data));
      && Wrap32(c.tcb.seqNo - c.tcb.theirAckNo) + |data| <= c.tcb.clientWindow
      && d.built.totalLength <= MTU + c.headerLength - 40
  {
    hide Conn.ProcessReceive;
    RemainingWindow(c.tcb);
    ReadBuilds(c, data);
  }

  lemma ReadBuilds(c: Conn, data: seq<byte>)
    requires c.CanReceive() && Read(data).Possible(c.MaxRead())
    ensures var d := c.ProcessReceive(Read(data));
      && d.built.totalLength == c.headerLength + |data|
      && (d.deferred.None? ==> d.tcb == c.tcb.(seqNo := Wrap32(c.tcb.seqNo + |data|)))
  {}

  /** A packet that is queued at once takes its length out of the window, exactly. */
  lemma DataTakesWindow(c: Conn, data: seq<byte>)
    requires c.CanReceive() && Read(data).Possible(c.MaxRead())
    requires c.ProcessReceive(Read(data)).deferred.None?
    ensures c.ProcessReceive(Read(data)).tcb.RemainingClientWindow() == c.tcb.RemainingClientWindow() - |data|
  {
    hide Conn.ProcessReceive;
    ReadBuilds(c, data);
    RemainingWindow(c.tcb);
    RemainingWindow(c.ProcessReceive(Read(data)).tcb);
    InFlightGrows(c.tcb.seqNo, c.tcb.theirAckNo, |data|);
    hide Wrap32;
  }

  lemma InFlightGrows(seqNo: u32, ackNo: u32, n: nat)
    requires Wrap32(seqNo - ackNo) + n < TWO_32
    ensures Wrap32(Wrap32(seqNo + n) - ackNo) == Wrap32(seqNo - ackNo) + n
  {}

  /** A packet forged while another is deferred overwrites its headers, and nothing else does. */
  lemma ForgingSpoilsDeferred(c: Conn, flags: Flags)
    requires c.deferred.Some? ==> c.headerLength < c.deferred.value
    ensures c.Intact() ==> (c.Reply(flags).Intact() <==> c.deferred.None?)
  {}

  /**
   Whoever pulls it then asks for the room of the empty packet and copies the stored one:
   an intact packet never trips the buffer's assertion, a spoiled one exactly when the room lies between the two.
   */
  lemma ForgingTripsPull(c: Conn, flags: Flags, room: nat)
    requires !c.closed && c.deferred.Some? && c.Intact()
    ensures c.(room := room).Pullable()
    ensures c.Reply(flags).(room := room).Pullable() <==> !(c.headerLength <= room < c.deferred.value)
  {}
}
