/** The connection states of Figure 6 of RFC 793: which moves are made, and what each state rules out. */
module TcpSafety {
  import opened Bytes
  import opened Io
  import opened TcpSpec

  /** The arrows of the figure, except that LAST-ACK is entered directly on a received FIN. */
  predicate Edge(a: State, b: State) {
    match a
    case Init => b == SynSent
    case SynSent => b == SynReceived
    case SynReceived => b == Established || b == FinWait1
    case Established => b == FinWait1 || b == LastAck
    case FinWait1 => b == FinWait2 || b == Closing
    case _ => false
  }

  /** One handler takes at most two arrows: an ACK may complete the handshake and a FIN follow. */
  ghost predicate Path(a: State, b: State) {
    a == b || Edge(a, b) || exists m :: Edge(a, m) && Edge(m, b)
  }

  function Rank(s: State): nat {
    match s
    case Init => 0
    case SynSent => 1
    case SynReceived => 2
    case Established => 3
    case FinWait1 => 4
    case CloseWait => 4
    case _ => 5
  }

  ghost predicate NoFin(sent: seq<Built>) { forall i :: 0 <= i < |sent| ==> !sent[i].flags.fin }

  ghost predicate NoDataAfterFin(sent: seq<Built>) {
    forall i, j :: 0 <= i < j < |sent| && sent[i].flags.fin ==> sent[j].payload == []
  }

  /** The state and its counts: one SYN, one FIN number, one close at most, and CLOSE-WAIT never. */
  ghost predicate Core(c: Conn) {
    && c.tcb.state != CloseWait
    && (c.tcb.finSeqNo.Some? <==> c.tcb.state.IsClosed())
    && c.h.finsSent == (if c.tcb.state.IsClosed() then 1 else 0)
    && c.h.synsSent == (if Rank(c.tcb.state) >= 2 then 1 else 0)
    && c.h.closes == (if c.closed then 1 else 0)
  }

  /** No payload follows a FIN towards the phone. */
  ghost predicate FinLast(c: Conn) {
    && NoDataAfterFin(c.h.sent)
    && (!c.tcb.state.IsClosed() ==> NoFin(c.h.sent))
    && (c.deferred.Some? ==> c.built.payload != [] && (c.built.flags.fin ==> c.tcb.state.IsClosed()))
  }

  ghost predicate Safe(c: Conn) { Core(c) && FinLast(c) }

  /** The read half of an event is reached. */
  predicate Reads(c: Conn, s: Step)
    requires s.Enabled(c)
  {
    match s
    case Socket(e, w, r) => !c.closed && e.readable && !c.SendBlocks(e, w) && !c.AfterWritable(e.writable, w).closed
    case _ => false
  }

  /**
   The guard of an end of file: the SYN is answered, no FIN is assigned,
   and the write before does not finish a pending FIN of the peer.
   */
  predicate EndAllowed(c: Conn, e: Event, w: WriteOutcome) {
    match c.tcb.state
    case SynSent => e.writable
    case SynReceived => true
    case Established => !WriteEnds(c, e, w)
    case _ => false
  }

  /** An end of file comes only when that guard holds. */
  predicate EndsWell(c: Conn, s: Step)
    requires s.Enabled(c)
  {
    Reads(c, s) && s.r == Eof ==> EndAllowed(c, s.event, s.w)
  }

  /** The write half empties the queue ahead of a pending FIN, and answers with ours. */
  predicate WriteEnds(c: Conn, e: Event, w: WriteOutcome) {
    e.writable && c.tcb.state == Established && c.tcb.finReceived && w == Wrote(|c.queue|)
  }

  /** A payload that is queued to the phone, read or deferred, goes out before any FIN. */
  ghost predicate DataBeforeFin(c: Conn, s: Step)
    requires s.Enabled(c)
  {
    && (s == Deliver && c.built.totalLength <= c.room ==> NoFin(c.h.sent))
    && (Reads(c, s) && s.r.Read? ==>
          var mid := c.AfterWritable(s.event.writable, s.w);
          mid.headerLength + |s.r.data| <= mid.room ==> NoFin(c.h.sent) && !WriteEnds(c, s.event, s.w))
  }

  ghost predicate AllEndWell(c: Conn, steps: seq<Step>)
    requires Runnable(c, steps)
    decreases steps
  {
    steps == [] || (EndsWell(c, steps[0]) && AllEndWell(steps[0].Apply(c), steps[1..]))
  }

  ghost predicate AllBeforeFin(c: Conn, steps: seq<Step>)
    requires Runnable(c, steps)
    decreases steps
  {
    steps == [] || (DataBeforeFin(c, steps[0]) && AllBeforeFin(steps[0].Apply(c), steps[1..]))
  }

  // ---- packets of the phone

  lemma ReplyKeepsSafe(c: Conn, flags: Flags)
    requires Core(c)
    ensures Core(c.Reply(flags)) && c.Reply(flags).tcb == c.tcb && c.Reply(flags).headerLength == c.headerLength
    ensures c.Reply(flags).closed == c.closed && c.Reply(flags).h.(sent := c.h.sent) == c.h
    ensures FinLast(c) && !flags.fin ==> FinLast(c.Reply(flags))
  {}

  /** The FIN is the last packet with a claim on sequence space. */
  lemma FinReplyKeepsSafe(c: Conn, state: State)
    requires Core(c) && (c.tcb.state == SynReceived || c.tcb.state == Established)
    requires state == FinWait1 || state == LastAck
    ensures Core(c.Reply(FIN_ACK).AssignFin().SetState(state))
    ensures FinLast(c) ==> FinLast(c.Reply(FIN_ACK).AssignFin().SetState(state))
  {}

  lemma DoHandleFinKeepsSafe(c: Conn)
    requires Core(c) && !c.closed
    ensures Core(c.DoHandleFin()) && (FinLast(c) ==> FinLast(c.DoHandleFin()))
    ensures c.DoHandleFin().headerLength == c.headerLength
    ensures c.DoHandleFin().tcb.state == c.tcb.state || Edge(c.tcb.state, c.DoHandleFin().tcb.state)
    ensures c.DoHandleFin().closed ==> c.DoHandleFin().tcb.state == FinWait2
    ensures c.DoHandleFin().tcb.state != FinWait1
  {
    hide NoDataAfterFin, NoFin;
    var d := c.AdvanceAck(1).(h := c.h.(finsProcessed := c.h.finsProcessed + 1));
    assert Core(d) && (FinLast(c) ==> FinLast(d));
    hide Conn.Reply;
    if d.tcb.state == Established {
      FinReplyKeepsSafe(d, LastAck);
    } else {
      ReplyKeepsSafe(d, ACK);
    }
  }

  lemma HandleFinKeepsSafe(c: Conn)
    requires Core(c) && !c.closed
    ensures Core(c.HandleFin()) && (FinLast(c) ==> FinLast(c.HandleFin()))
    ensures c.HandleFin().tcb.state == c.tcb.state || Edge(c.tcb.state, c.HandleFin().tcb.state)
    ensures c.HandleFin().closed ==> c.HandleFin().tcb.state == FinWait2
    ensures c.HandleFin().tcb.state == FinWait1 ==> c.tcb.state == FinWait1
  {
    hide Conn.DoHandleFin, NoDataAfterFin, NoFin;
    DoHandleFinKeepsSafe(c.(tcb := c.tcb.(finReceived := true)));
  }

  lemma FinAckKeepsSafe(c: Conn)
    requires Core(c) && (c.closed ==> c.tcb.state == FinWait2)
    ensures Core(c.HandleFinAck()) && (FinLast(c) ==> FinLast(c.HandleFinAck()))
    ensures c.HandleFinAck().tcb.state == c.tcb.state || Edge(c.tcb.state, c.HandleFinAck().tcb.state)
  {
    hide NoDataAfterFin, NoFin;
  }

  lemma ExpectedKeepsSafe(c: Conn, seg: Segment)
    requires Core(c) && !c.closed
    ensures Core(c.HandleExpected(seg)) && (FinLast(c) ==> FinLast(c.HandleExpected(seg)))
    ensures Path(c.tcb.state, c.HandleExpected(seg).tcb.state)
  {
    hide Conn.DoHandleFin, NoDataAfterFin, NoFin;
    var c1 := c.(tcb := c.tcb.(clientWindow := seg.window, theirAckNo := seg.ackNo));
    if !seg.flags.rst {
      var c2 := if seg.flags.ack then c1.HandleAck(seg) else c1;
      assert Core(c2) && (FinLast(c) ==> FinLast(c2));
      assert !c2.closed && (c2.tcb.state == c.tcb.state || Edge(c.tcb.state, c2.tcb.state));
      HandleFinKeepsSafe(c2);
      var c3 := if seg.flags.fin then c2.HandleFin() else c2;
      FinAckKeepsSafe(c3);
      assert Path(c.tcb.state, c3.tcb.state);
      assert c3.tcb.state == FinWait1 ==> c.tcb.state == FinWait1;
      hide Conn.HandleAck, Conn.HandleFin, Core, FinLast;
    }
  }

  lemma PacketKeepsSafe(c: Conn, seg: Segment, isn: u32)
    requires Core(c) && !c.closed
    ensures var d := c.HandlePacket(seg, isn);
      Core(d) && (FinLast(c) ==> FinLast(d)) && Path(c.tcb.state, d.tcb.state)
  {
    hide Conn.HandleExpected, Conn.Reply, NoDataAfterFin, NoFin;
    ExpectedKeepsSafe(c, seg);
    ReplyKeepsSafe(c, RST);
    ReplyKeepsSafe(c.(tcb := c.tcb.(seqNo := seg.ackNo)), RST);
  }

  lemma SettleKeepsSafe(c: Conn)
    ensures (Core(c.Settle()) <==> Core(c)) && (FinLast(c.Settle()) <==> FinLast(c)) && c.Settle().tcb == c.tcb
  {
    hide NoDataAfterFin, NoFin;
  }

  // ---- socket events

  lemma WritableKeepsSafe(c: Conn, writable: bool, w: WriteOutcome)
    requires Core(c) && !c.closed && w.Possible(c.queue)
    ensures var d := c.AfterWritable(writable, w);
      && d.headerLength == c.headerLength && Core(d) && (FinLast(c) ==> FinLast(d))
      && (c.tcb.state == d.tcb.state || Edge(c.tcb.state, d.tcb.state))
  {
    hide Conn.DoHandleFin, Conn.Reply, NoDataAfterFin, NoFin;
    if writable {
      if c.tcb.state == SynSent {
        ConnectKeepsSafe(c);
      } else if w.Wrote? && w.n > 0 {
        var d := c.(queue := c.queue[w.n..], h := c.h.(written := c.h.written + c.queue[..w.n])).AdvanceAck(w.n);
        assert Core(d) && (FinLast(c) ==> FinLast(d));
        DoHandleFinKeepsSafe(d);
        ReplyKeepsSafe(d, ACK);
      } else {
        ReplyKeepsSafe(c, RST);
      }
    }
  }

  /** With room for data behind it, the FIN of the write half was queued. */
  lemma NoFinAfterWrite(c: Conn, e: Event, w: WriteOutcome)
    requires Core(c) && !c.closed && w.Possible(c.queue) && !c.AfterWritable(e.writable, w).closed
    requires c.headerLength <= c.AfterWritable(e.writable, w).room
    ensures NoFin(c.AfterWritable(e.writable, w).h.sent) <==> NoFin(c.h.sent) && !WriteEnds(c, e, w)
  {
    hide NoFin, Conn.Reply, Conn.DoHandleFin;
    if e.writable && c.tcb.state == SynSent {
      ReplySends(c.SetState(SynReceived), SYN_ACK);
    } else if e.writable && w.Wrote? && w.n > 0 {
      var d := c.(queue := c.queue[w.n..], h := c.h.(written := c.h.written + c.queue[..w.n])).AdvanceAck(w.n);
      if d.tcb.finReceived && d.queue == [] {
        DoHandleFinSends(d);
      } else {
        ReplySends(d, ACK);
      }
    }
  }

  lemma DoHandleFinSends(c: Conn)
    requires c.headerLength <= c.DoHandleFin().room
    ensures NoFin(c.DoHandleFin().h.sent) <==> NoFin(c.h.sent) && c.tcb.state != Established
  {
    hide NoFin, Conn.Reply;
    var d := c.AdvanceAck(1).(h := c.h.(finsProcessed := c.h.finsProcessed + 1));
    if c.tcb.state == Established {
      ReplySends(d, FIN_ACK);
    } else if c.tcb.state == FinWait1 || c.tcb.state == FinWait2 {
      ReplySends(d, ACK);
    }
  }

  lemma ReplySends(c: Conn, flags: Flags)
    requires c.headerLength <= c.Reply(flags).room
    ensures NoFin(c.Reply(flags).h.sent) <==> NoFin(c.h.sent) && !flags.fin
  {
    var after := c.Reply(flags).h.sent;
    assert after[|c.h.sent|].flags == flags;
    assert forall i :: 0 <= i < |c.h.sent| ==> after[i] == c.h.sent[i];
  }

  lemma ConnectKeepsSafe(c: Conn)
    requires Core(c) && c.tcb.state == SynSent
    ensures Core(c.ProcessConnect()) && (FinLast(c) ==> FinLast(c.ProcessConnect()))
    ensures c.ProcessConnect().tcb.state == SynReceived && c.ProcessConnect().headerLength == c.headerLength
  {}

  /** Of all reads only an end of file can leave the state machine. */
  lemma ReceiveCoreIff(c: Conn, r: ReadOutcome)
    requires Core(c) && !c.closed && c.CanReceive() && r.Possible(c.MaxRead())
    ensures var d := c.ProcessReceive(r);
      && (Core(d) <==> (r == Eof ==> c.tcb.state == SynReceived || c.tcb.state == Established))
      && (Core(d) ==> c.tcb.state == d.tcb.state || Edge(c.tcb.state, d.tcb.state))
  {
    hide Conn.Reply;
    match r
    case Read(data) =>
    case Eof => ReplyFrame(c.UpdateHeaders(PSH_ACK), FIN_ACK);
    case ReadWouldBlock =>
    case ReadFailed => ReplyKeepsSafe(c.UpdateHeaders(PSH_ACK), RST);
  }

  lemma ReplyFrame(c: Conn, flags: Flags)
    ensures var d := c.Reply(flags); d.tcb == c.tcb && d.h.(sent := c.h.sent) == c.h && d.closed == c.closed
  {}

  /** Of all reads only data that is queued at once can follow a FIN. */
  lemma ReceiveFinLastIff(c: Conn, r: ReadOutcome)
    requires Safe(c) && !c.closed && c.CanReceive() && r.Possible(c.MaxRead())
    requires r == Eof ==> c.tcb.state == SynReceived || c.tcb.state == Established
    ensures FinLast(c.ProcessReceive(r)) <==> (r.Read? && c.headerLength + |r.data| <= c.room ==> NoFin(c.h.sent))
  {
    var d := c.UpdateHeaders(PSH_ACK);
    hide Conn.Reply;
    match r
    case Read(data) =>
      hide NoDataAfterFin, NoFin;
      DataAppends(c.h.sent, Built(c.tcb.seqNo, c.tcb.ackNo, PSH_ACK, c.headerLength + |data|, data));
    case Eof => FinReplyKeepsSafe(d, FinWait1);
    case ReadWouldBlock =>
    case ReadFailed => ReplyKeepsSafe(d, RST);
  }

  lemma DataAppends(sent: seq<Built>, p: Built)
    requires NoDataAfterFin(sent) && p.payload != []
    ensures NoDataAfterFin(sent + [p]) <==> NoFin(sent)
    ensures NoFin(sent + [p]) <==> NoFin(sent) && !p.flags.fin
  {
    var after := sent + [p];
    assert forall i :: 0 <= i < |sent| ==> after[i] == sent[i];
    assert after[|sent|] == p;
  }

  lemma PullFinLastIff(c: Conn)
    requires Safe(c) && c.Pullable()
    ensures Core(c.Pull()) && c.Pull().tcb.state == c.tcb.state
    ensures FinLast(c.Pull()) <==> (c.built.totalLength <= c.room ==> NoFin(c.h.sent))
  {
    hide NoDataAfterFin, NoFin;
    DataAppends(c.h.sent, c.built);
  }

  lemma PullKeepsCore(c: Conn)
    requires Core(c) && c.Pullable()
    ensures Core(c.Pull()) && c.Pull().tcb.state == c.tcb.state
  {}

  /** The guard in terms of the state that the write half leaves. */
  lemma EndAllowedIff(c: Conn, e: Event, w: WriteOutcome)
    requires Core(c) && !c.closed && w.Possible(c.queue) && !c.SendBlocks(e, w)
    requires !c.AfterWritable(e.writable, w).closed
    ensures var state := c.AfterWritable(e.writable, w).tcb.state;
      EndAllowed(c, e, w) <==> state == SynReceived || state == Established
  {}

  // ---- whole runs

  /** Every step keeps the state machine, along the arrows, exactly when an end of file meets its guard. */
  lemma StepCoreIff(c: Conn, s: Step)
    requires Core(c) && s.Enabled(c)
    ensures Core(s.Apply(c)) <==> EndsWell(c, s)
    ensures Core(s.Apply(c)) ==> Path(c.tcb.state, s.Apply(c).tcb.state)
    ensures c.closed && s.Socket? ==> s.Apply(c) == c
  {
    hide Core, FinLast, Conn.AfterWritable, Conn.ProcessReceive, Conn.HandlePacket, Conn.Settle, Conn.Pull, EndAllowed;
    match s
    case Packet(seg, isn) =>
      PacketKeepsSafe(c, seg, isn);
      SettleKeepsSafe(c.HandlePacket(seg, isn));
    case Socket(e, w, r) =>
      if !c.closed && !e.readable && !e.writable {
        CloseKeepsCore(c);
      } else if !c.closed && !c.SendBlocks(e, w) {
        var mid := c.AfterWritable(e.writable, w);
        WritableKeepsSafe(c, e.writable, w);
        SettleKeepsSafe(mid);
        if !mid.closed && e.readable {
          EndAllowedIff(c, e, w);
          ReceiveCoreIff(mid, r);
          SettleKeepsSafe(mid.ProcessReceive(r));
        }
      }
    case Deliver => PullKeepsCore(c);
    case Drain(_) => DrainKeeps(c, s.room);
  }

  lemma CloseKeepsCore(c: Conn)
    requires Core(c) && !c.closed
    ensures Core(c.Close()) && (FinLast(c.Close()) <==> FinLast(c)) && c.Close().tcb == c.tcb
  {
    hide NoDataAfterFin, NoFin;
  }

  lemma DrainKeeps(c: Conn, room: nat)
    ensures (Core(c.(room := room)) <==> Core(c)) && (FinLast(c.(room := room)) <==> FinLast(c))
  {
    hide NoDataAfterFin, NoFin;
  }

  /** Every step keeps data ahead of the FIN exactly when no payload is queued behind one. */
  lemma StepSafeIff(c: Conn, s: Step)
    requires Safe(c) && s.Enabled(c) && EndsWell(c, s)
    ensures Safe(s.Apply(c)) <==> DataBeforeFin(c, s)
  {
    StepCoreIff(c, s);
    hide Core, FinLast, Conn.AfterWritable, Conn.ProcessReceive, Conn.HandlePacket, Conn.Settle, Conn.Pull,
         EndAllowed, NoFin, WriteEnds;
    match s
    case Packet(seg, isn) =>
      PacketKeepsSafe(c, seg, isn);
      SettleKeepsSafe(c.HandlePacket(seg, isn));
    case Socket(e, w, r) =>
      if !c.closed && !e.readable && !e.writable {
        CloseKeepsCore(c);
      } else if !c.closed && !c.SendBlocks(e, w) {
        var mid := c.AfterWritable(e.writable, w);
        WritableKeepsSafe(c, e.writable, w);
        SettleKeepsSafe(mid);
        if !mid.closed && e.readable {
          ReadHalfFinLastIff(c, e, w, r);
          SettleKeepsSafe(mid.ProcessReceive(r));
        }
      }
    case Deliver => PullFinLastIff(c);
    case Drain(_) => DrainKeeps(c, s.room);
  }

  lemma ReadHalfFinLastIff(c: Conn, e: Event, w: WriteOutcome, r: ReadOutcome)
    requires Safe(c) && !c.closed && w.Possible(c.queue) && !c.SendBlocks(e, w)
    requires var mid := c.AfterWritable(e.writable, w);
      !mid.closed && mid.CanReceive() && r.Possible(mid.MaxRead())
    requires r == Eof ==> EndAllowed(c, e, w)
    ensures var mid := c.AfterWritable(e.writable, w);
      FinLast(mid.ProcessReceive(r)) <==>
        (r.Read? && mid.headerLength + |r.data| <= mid.room ==> NoFin(c.h.sent) && !WriteEnds(c, e, w))
  {
    var mid := c.AfterWritable(e.writable, w);
    hide Core, FinLast, Conn.AfterWritable, Conn.ProcessReceive, EndAllowed, NoFin, WriteEnds;
    WritableKeepsSafe(c, e.writable, w);
    EndAllowedIff(c, e, w);
    ReceiveFinLastIff(mid, r);
    if c.headerLength <= mid.room {
      NoFinAfterWrite(c, e, w);
    }
  }

  lemma PathClimbs(a: State, b: State)
    requires Path(a, b)
    ensures Rank(a) <= Rank(b) && (Rank(a) == Rank(b) ==> a == b)
  {}

  /** Over every run whose ends of file meet their guard no state is left for an earlier one, and the counts hold. */
  lemma {:induction false} RunKeepsCore(c: Conn, steps: seq<Step>)
    requires Core(c) && Runnable(c, steps) && AllEndWell(c, steps)
    ensures Core(Run(c, steps)) && Rank(c.tcb.state) <= Rank(Run(c, steps).tcb.state)
    ensures Rank(c.tcb.state) == Rank(Run(c, steps).tcb.state) ==> c.tcb.state == Run(c, steps).tcb.state
    decreases steps
  {
    if steps != [] {
      hide Core, Path, Rank, EndsWell, Step.Apply;
      StepCoreIff(c, steps[0]);
      PathClimbs(c.tcb.state, steps[0].Apply(c).tcb.state);
      RunKeepsCore(steps[0].Apply(c), steps[1..]);
    }
  }

  /** And no payload follows a FIN unless one is queued behind it. */
  lemma {:induction false} RunKeepsSafe(c: Conn, steps: seq<Step>)
    requires Safe(c) && Runnable(c, steps) && AllEndWell(c, steps) && AllBeforeFin(c, steps)
    ensures Safe(Run(c, steps))
    decreases steps
  {
    if steps != [] {
      hide Safe, EndsWell, DataBeforeFin, Step.Apply;
      StepSafeIff(c, steps[0]);
      RunKeepsSafe(steps[0].Apply(c), steps[1..]);
    }
  }

  lemma NewConnIsSafe(headerLength: nat, built: Built, room: nat)
    ensures Safe(NewConn(headerLength, built, room))
  {}

  /** A read under `may_read` meets both guards. */
  lemma MayReadSuffices(c: Conn, s: Step)
    requires Safe(c) && s.Enabled(c) && Reads(c, s) && c.AfterWritable(s.event.writable, s.w).MayRead()
    ensures EndsWell(c, s) && DataBeforeFin(c, s)
  {
    hide Conn.AfterWritable, NoDataAfterFin, NoFin;
    WritableKeepsSafe(c, s.event.writable, s.w);
    EndAllowedIff(c, s.event, s.w);
  }

  /**
   One readable and writable event: when the write drains the queue ahead of a pending FIN, the read that
   follows is no longer one `may_read` allows; otherwise it still is.
   */
  lemma ReadAfterWrite(c: Conn, n: nat)
    requires Core(c) && !c.closed && c.MayRead() && 0 < n <= |c.queue|
    ensures c.AfterWritable(true, Wrote(n)).MayRead() <==> !(c.tcb.finReceived && n == |c.queue|)
  {}

  /**
   In that case the FIN takes a number of the window. When that was the last one the read fails an assertion;
   otherwise an end of file assigns a second FIN and leaves LAST-ACK for FIN-WAIT-1.
   */
  lemma SecondFin(c: Conn, n: nat)
    requires Core(c) && !c.closed && c.MayRead() && 0 < n <= |c.queue|
    ensures var drains := c.tcb.finReceived && n == |c.queue|;
      && (c.Processable(Event(true, true), Wrote(n), Eof) <==> !(drains && c.tcb.RemainingClientWindow() == 1))
      && (c.Processable(Event(true, true), Wrote(n), Eof) ==>
            var d := c.Process(Event(true, true), Wrote(n), Eof);
            (Core(d) <==> !drains) && (drains ==> d.h.finsSent == 2 && d.tcb.state == FinWait1))
  {
    hide Core, Conn.AfterWritable, Conn.ProcessReceive, Conn.Process;
    var e, w := Event(true, true), Wrote(n);
    WindowAfterDrain(c, n);
    if c.Processable(e, w, Eof) {
      StepCoreIff(c, Socket(e, w, Eof));
      if c.tcb.finReceived && n == |c.queue| {
        EofAfterFin(c, n);
      }
    }
  }

  lemma WindowAfterDrain(c: Conn, n: nat)
    requires Core(c) && !c.closed && c.MayRead() && 0 < n <= |c.queue|
    ensures c.tcb.state == Established && !c.AfterWritable(true, Wrote(n)).closed
    ensures c.Processable(Event(true, true), Wrote(n), Eof)
      <==> !(c.tcb.finReceived && n == |c.queue| && c.tcb.RemainingClientWindow() == 1)
  {
    assert c.tcb.state == Established;
    WriteCloses(c, Wrote(n));
    hide Core, Conn.AfterWritable;
    WindowAfterWrite(c, Event(true, true), Wrote(n));
    WindowLess(c.tcb);
  }

  lemma WindowLess(t: Tcb)
    ensures t.(seqNo := Wrap32(t.seqNo + 0)) == t
    ensures t.RemainingClientWindow() > 0 ==>
      t.(seqNo := Wrap32(t.seqNo + 1)).RemainingClientWindow() == t.RemainingClientWindow() - 1
  {}

  lemma EofAfterFin(c: Conn, n: nat)
    requires Core(c) && !c.closed && c.MayRead() && c.tcb.finReceived && 0 < n == |c.queue|
    requires c.Processable(Event(true, true), Wrote(n), Eof)
    ensures var d := c.Process(Event(true, true), Wrote(n), Eof); d.h.finsSent == 2 && d.tcb.state == FinWait1
  {}

  // ---- the assertions at the head of process_receive

  /** Sequence numbers that the write half of an event takes: the SYN of a connect, or the FIN of an emptied queue. */
  function Taken(c: Conn, e: Event, w: WriteOutcome): nat {
    if e.writable && (c.tcb.state == SynSent
                      || (c.tcb.state == Established && c.tcb.finReceived && w == Wrote(|c.queue|))) then 1 else 0
  }

  /** The read half meets them exactly when nothing is deferred and the window outlasts the write half. */
  lemma WindowAfterWrite(c: Conn, e: Event, w: WriteOutcome)
    requires !c.closed && w.Possible(c.queue) && !c.SendBlocks(e, w) && !c.AfterWritable(e.writable, w).closed
    ensures c.AfterWritable(e.writable, w).CanReceive() <==>
      c.deferred.None? && c.tcb.(seqNo := Wrap32(c.tcb.seqNo + Taken(c, e, w))).RemainingClientWindow() > 0
  {
    WriteTakes(c, e, w);
    hide Conn.AfterWritable, Wrap32;
  }

  lemma WriteTakes(c: Conn, e: Event, w: WriteOutcome)
    requires !c.closed && w.Possible(c.queue) && !c.SendBlocks(e, w) && !c.AfterWritable(e.writable, w).closed
    ensures var d := c.AfterWritable(e.writable, w);
      && d.tcb.seqNo == Wrap32(c.tcb.seqNo + Taken(c, e, w))
      && d.tcb.theirAckNo == c.tcb.theirAckNo && d.tcb.clientWindow == c.tcb.clientWindow && d.deferred == c.deferred
  {}

  /** A payload deferred while the phone's FIN is processed: pulled later, it follows our FIN. */
  lemma DeferredBehindFin(c: Conn, seg: Segment, isn: u32, room: nat)
    requires Safe(c) && !c.closed && c.tcb.state == Established && c.deferred.Some? && c.queue == []
    requires c.headerLength <= c.room && c.deferred.value <= room && c.headerLength <= room
    requires seg.flags == FIN_ACK && seg.seqNo == c.ExpectedSeq() && seg.payload == []
    requires seg.ackNo != Wrap32(c.tcb.seqNo + 1)
    ensures var d := c.SendToNetwork(seg, isn).(room := room);
      d.Pullable() && !Safe(d.Pull())
  {
    FinIsSent(c, seg, isn);
    var d := c.SendToNetwork(seg, isn).(room := room);
    PacketKeepsSafe(c, seg, isn);
    SettleKeepsSafe(c.HandlePacket(seg, isn));
    DrainKeeps(c.SendToNetwork(seg, isn), room);
    hide Conn.HandlePacket, Core, FinLast, NoFin;
    PullFinLastIff(d);
  }

  lemma FinIsSent(c: Conn, seg: Segment, isn: u32)
    requires !c.closed && c.tcb.state == Established && c.tcb.finSeqNo.None? && c.queue == []
    requires c.headerLength <= c.room
    requires seg.flags == FIN_ACK && seg.seqNo == c.ExpectedSeq() && seg.payload == []
    requires seg.ackNo != Wrap32(c.tcb.seqNo + 1)
    ensures var d := c.SendToNetwork(seg, isn);
      && !d.closed && d.deferred == c.deferred && d.built.totalLength == c.headerLength && !NoFin(d.h.sent)
  {
    var d := c.SendToNetwork(seg, isn);
    assert d.h.sent[|c.h.sent|].flags.fin;
  }

  // ---- when a connection closes

  /** The segment acknowledges our FIN, or the one that it makes us send. */
  predicate AcksFin(c: Conn, seg: Segment) {
    var fin := if c.tcb.finSeqNo.Some? then c.tcb.finSeqNo.value else c.tcb.seqNo;
    seg.ackNo == Wrap32(fin + 1)
  }

  /** Both directions are over once the segment is handled: the ends that the arrows to CLOSED of the figure have. */
  predicate Completes(c: Conn, seg: Segment) {
    var drained := (if seg.flags.ack then c.HandleAck(seg).queue else c.queue) == [];
    match c.tcb.state
    case LastAck => AcksFin(c, seg)
    case Closing => AcksFin(c, seg)
    case FinWait1 => seg.flags.fin && drained && AcksFin(c, seg)
    case FinWait2 => seg.flags.fin && drained
    case Established => seg.flags.fin && drained && AcksFin(c, seg)
    case SynReceived => seg.flags.ack && seg.flags.fin && drained && AcksFin(c, seg)
    case _ => false
  }

  /** A packet of the phone closes the connection in exactly these cases. */
  lemma PacketCloses(c: Conn, seg: Segment, isn: u32)
    requires Core(c) && !c.closed
    ensures c.SendToNetwork(seg, isn).closed <==>
      if c.tcb.state == Init then !seg.flags.syn
      else if seg.flags.syn then c.tcb.state != SynSent && seg.seqNo != c.tcb.synSeqNo
      else seg.seqNo == c.ExpectedSeq() && (seg.flags.rst || Completes(c, seg))
  {
    hide Conn.HandleExpected, Completes, NoDataAfterFin, NoFin;
    if c.tcb.state != Init && !seg.flags.syn && seg.seqNo == c.ExpectedSeq() {
      ExpectedCloses(c, seg);
    }
  }

  lemma ExpectedCloses(c: Conn, seg: Segment)
    requires Core(c) && !c.closed && c.tcb.state != Init
    ensures c.HandleExpected(seg).closed <==> seg.flags.rst || Completes(c, seg)
  {
    hide NoDataAfterFin, NoFin, Conn.Reply;
    var c1 := c.(tcb := c.tcb.(clientWindow := seg.window, theirAckNo := seg.ackNo));
    var c2 := if seg.flags.ack then c1.HandleAck(seg) else c1;
    FinEffect(c2);
    hide Conn.DoHandleFin;
  }

  lemma FinEffect(c: Conn)
    ensures var d := c.HandleFin();
      && d.closed == (c.closed || (c.queue == [] && c.tcb.state == FinWait2))
      && d.tcb.state == (if c.queue != [] then c.tcb.state
                         else if c.tcb.state == Established then LastAck
                         else if c.tcb.state == FinWait1 then Closing else c.tcb.state)
      && d.tcb.finSeqNo == if c.queue == [] && c.tcb.state == Established then Some(c.tcb.seqNo) else c.tcb.finSeqNo
  {}

  /** A socket event closes an open connection in exactly these cases. */
  lemma SocketCloses(c: Conn, e: Event, w: WriteOutcome, r: ReadOutcome)
    requires !c.closed && c.Processable(e, w, r)
    ensures c.Process(e, w, r).closed <==>
      || (!e.readable && !e.writable)
      || (e.writable && c.tcb.state != SynSent
          && (w == WriteFailed || w == Wrote(0)
              || (c.tcb.finReceived && c.tcb.state == FinWait2 && w == Wrote(|c.queue|))))
      || (e.readable && !c.SendBlocks(e, w) && r == ReadFailed)
  {
    if e.writable {
      WriteCloses(c, w);
    }
    hide Conn.WritableHalf;
  }

  lemma WriteCloses(c: Conn, w: WriteOutcome)
    requires !c.closed && w.Possible(c.queue)
    ensures c.WritableHalf(w).closed <==>
      c.tcb.state != SynSent && (w == WriteFailed || w == Wrote(0)
          || (c.tcb.finReceived && c.tcb.state == FinWait2 && w == Wrote(|c.queue|)))
  {}
}
