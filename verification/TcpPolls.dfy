/**
 Events as a poll delivers them to a TCP connection: for the interests registered when the poll returned, with
 other handlers of the batch running before and after.
 */
module TcpPolls {
  import opened Bytes
  import opened Io
  import opened TcpSpec
  import opened TcpSafety
  import opened TcpInterests

  /** What other handlers of a batch do to the connection: packets routed to it, deferred packets pulled, room used. */
  predicate OfOthers(s: Step) { !s.Socket? }

  predicate AllOfOthers(steps: seq<Step>) { forall i :: 0 <= i < |steps| ==> OfOthers(steps[i]) }

  /** The interests of the poll called for this event. */
  predicate Asked(c: Conn, e: Event) {
    (e.writable ==> c.interests.writable) && (e.readable ==> c.interests.readable)
  }

  predicate Readers(state: State) { state == Established || state == LastAck }

  /**
   The connection is started, and whatever it is registered for, up to date or not, it reads only in ESTABLISHED,
   or in LAST-ACK with an interest left over.
   */
  ghost predicate Registered(c: Conn) {
    && Wakes(c) && c.tcb.state != Init && c.tcb.state != CloseWait
    && (!c.closed && c.interests.readable ==> Readers(c.tcb.state) && c.deferred.None?)
  }

  /** Registered for writing with nothing to write, nor a connection to complete. */
  predicate AsksForNothing(c: Conn) {
    !c.closed && c.interests.writable && c.queue == [] && c.tcb.state != SynSent
  }

  // ---- what the others do

  lemma PacketEffect(c: Conn, seg: Segment, isn: u32)
    requires c.tcb.state != Init && c.tcb.state != CloseWait
    ensures var d := c.HandlePacket(seg, isn);
      && c.queue <= d.queue && d.deferred == c.deferred && c.h.finsProcessed <= d.h.finsProcessed
      && d.tcb.state != Init && d.tcb.state != CloseWait
      && (c.tcb.state == SynSent ==> d.tcb.state == SynSent)
      && (Readers(c.tcb.state) ==> Readers(d.tcb.state))
      && (Readers(c.tcb.state) ==>
            (d.tcb.state == Established <==>
              c.tcb.state == Established && d.h.finsProcessed == c.h.finsProcessed))
  {
    hide Conn.HandleExpected;
    ExpectedEffect(c, seg);
  }

  lemma ExpectedEffect(c: Conn, seg: Segment)
    requires c.tcb.state != Init && c.tcb.state != CloseWait
    ensures var d := c.HandleExpected(seg);
      && c.queue <= d.queue && d.deferred == c.deferred && c.h.finsProcessed <= d.h.finsProcessed
      && d.tcb.state != Init && d.tcb.state != CloseWait
      && (c.tcb.state == SynSent ==> d.tcb.state == SynSent)
      && (Readers(c.tcb.state) ==> Readers(d.tcb.state))
      && (Readers(c.tcb.state) ==>
            (d.tcb.state == Established <==>
              c.tcb.state == Established && d.h.finsProcessed == c.h.finsProcessed))
  {
    hide Conn.HandleFin, Conn.HandleAck;
    var c1 := c.(tcb := c.tcb.(clientWindow := seg.window, theirAckNo := seg.ackNo));
    AckEffect(c1, seg);
    var c2 := if seg.flags.ack then c1.HandleAck(seg) else c1;
    FinEffect(c2);
    FinCounts(c2);
  }

  lemma AckEffect(c: Conn, seg: Segment)
    ensures var d := c.HandleAck(seg);
      && c.queue <= d.queue && d.deferred == c.deferred && d.h == c.h
      && d.tcb.state == if c.tcb.state == SynReceived then Established else c.tcb.state
  {}

  lemma FinCounts(c: Conn)
    ensures var d := c.HandleFin();
      && d.queue == c.queue && d.deferred == c.deferred
      && d.h.finsProcessed == c.h.finsProcessed + if c.queue == [] then 1 else 0
  {
    hide Conn.Reply;
    var d := c.(tcb := c.tcb.(finReceived := true)).AdvanceAck(1).(h := c.h.(finsProcessed := c.h.finsProcessed + 1));
    ReplyLeaves(d, ACK);
    ReplyLeaves(d, FIN_ACK);
  }

  lemma ReplyLeaves(c: Conn, flags: Flags)
    ensures var d := c.Reply(flags);
      && d.tcb == c.tcb && d.queue == c.queue && d.deferred == c.deferred && d.interests == c.interests
      && d.closed == c.closed && d.h.(sent := c.h.sent) == c.h
  {}

  lemma PullKeepsState(c: Conn)
    requires c.Pullable()
    ensures var d := c.Pull();
      && d.tcb.state == c.tcb.state && d.queue == c.queue && d.h.finsProcessed == c.h.finsProcessed
      && d.closed == c.closed && (d == c || d == d.UpdateInterests())
  {}

  lemma CurrentIsRegistered(c: Conn)
    requires c.tcb.state != Init && c.tcb.state != CloseWait && (!c.closed ==> Current(c))
    ensures Registered(c) && !AsksForNothing(c)
  {}

  /** Others keep the interests as `Registered` says, and leave none without a need. */
  lemma OthersKeepRegistered(c: Conn, s: Step)
    requires Registered(c) && OfOthers(s) && s.Enabled(c)
    ensures Registered(s.Apply(c)) && (!AsksForNothing(c) ==> !AsksForNothing(s.Apply(c)))
  {
    StepWakes(c, s);
    match s
    case Packet(seg, isn) =>
      PacketEffect(c, seg, isn);
      hide Conn.HandlePacket, Conn.Wanted, Conn.MayRead;
      CurrentIsRegistered(s.Apply(c));
    case Deliver =>
      PullKeepsState(c);
      hide Conn.Pull, Conn.Wanted, Conn.MayRead;
      if s.Apply(c) != c {
        CurrentIsRegistered(s.Apply(c));
      }
    case Drain(_) =>
  }

  /** What a readable event still finds. */
  ghost predicate Awaits(c: Conn, e: Event) {
    !c.closed && e.readable ==> Readers(c.tcb.state) && c.deferred.None?
  }

  /** What a writable event finds to do. */
  predicate HasWork(c: Conn) { c.closed || c.tcb.state == SynSent || c.queue != [] }

  /** The phone's FIN was not processed between `c` and `d`. */
  predicate SameFins(c: Conn, d: Conn) { d.h.finsProcessed == c.h.finsProcessed }

  lemma OthersKeepAwaits(c: Conn, s: Step, e: Event)
    requires Registered(c) && Awaits(c, e) && OfOthers(s) && s.Enabled(c)
    ensures Awaits(s.Apply(c), e) && (HasWork(c) ==> HasWork(s.Apply(c)))
    ensures c.h.finsProcessed <= s.Apply(c).h.finsProcessed && (c.closed ==> s.Apply(c).closed)
    ensures !s.Apply(c).closed && e.readable ==>
      (s.Apply(c).tcb.state == Established <==> c.tcb.state == Established && SameFins(c, s.Apply(c)))
  {
    match s
    case Packet(seg, isn) =>
      PacketEffect(c, seg, isn);
      hide Conn.HandlePacket;
    case Deliver =>
      PullKeepsState(c);
      PullDefersNothing(c);
      hide Conn.Pull;
    case Drain(_) =>
  }

  lemma PullDefersNothing(c: Conn)
    requires c.Pullable()
    ensures c.deferred.Some?
  {}

  lemma {:induction false} OthersRun(c: Conn, steps: seq<Step>, e: Event)
    requires Registered(c) && Awaits(c, e) && Runnable(c, steps) && AllOfOthers(steps)
    ensures var d := Run(c, steps);
      && Registered(d) && Awaits(d, e)
      && (!AsksForNothing(c) ==> !AsksForNothing(d)) && (HasWork(c) ==> HasWork(d))
      && c.h.finsProcessed <= d.h.finsProcessed && (c.closed ==> d.closed)
      && (!d.closed && e.readable ==> (d.tcb.state == Established <==> c.tcb.state == Established && SameFins(c, d)))
    decreases steps
  {
    if steps != [] {
      hide Registered, Awaits, AsksForNothing, HasWork, Step.Apply;
      var s := steps[0];
      assert forall i :: 0 <= i < |steps[1..]| ==> steps[1..][i] == steps[i + 1];
      OthersKeepRegistered(c, s);
      OthersKeepAwaits(c, s, e);
      OthersRun(s.Apply(c), steps[1..], e);
    }
  }

  // ---- the polled event

  lemma AskedAwaits(c: Conn, e: Event)
    requires Registered(c) && Asked(c, e)
    ensures Awaits(c, e) && (e.writable && !AsksForNothing(c) ==> HasWork(c))
  {}

  /** The write half of the event neither blocks nor closes. */
  predicate Writes(e: Event, w: WriteOutcome) {
    e.writable ==> w != WriteWouldBlock && w != WriteFailed && w != Wrote(0)
  }

  /** With something to read or write the event reaches its read half exactly when its write half goes through. */
  lemma ReadIsReached(c: Conn, e: Event, w: WriteOutcome)
    requires !c.closed && Awaits(c, e) && e.readable && w.Possible(c.queue)
    ensures (!c.SendBlocks(e, w) && !c.AfterWritable(e.writable, w).closed) <==> Writes(e, w)
    ensures Taken(c, e, w) == if WriteEnds(c, e, w) then 1 else 0
  {
    WriteCloses(c, w);
    hide Conn.WritableHalf;
  }

  /** The window that the event's read would find, the FIN of an emptied queue taken off. */
  function WindowLeft(c: Conn, e: Event, w: WriteOutcome): u16 {
    c.tcb.(seqNo := Wrap32(c.tcb.seqNo + if WriteEnds(c, e, w) then 1 else 0)).RemainingClientWindow()
  }

  /** The outcome of a read is one that the socket can have. */
  predicate ReadPossible(c: Conn, e: Event, w: WriteOutcome, r: ReadOutcome)
    requires w.Possible(c.queue)
  {
    r.Possible(c.AfterWritable(e.writable, w).MaxRead())
  }

  /**
   Whatever the others did since the poll, the assertions before a read fail exactly when the write half goes through
   and no window is left.
   */
  lemma PolledIsProcessable(c0: Conn, steps: seq<Step>, e: Event, w: WriteOutcome, r: ReadOutcome)
    requires Registered(c0) && Asked(c0, e) && Runnable(c0, steps) && AllOfOthers(steps)
    requires var c := Run(c0, steps);
      !c.closed && w.Possible(c.queue) && (e.readable && Writes(e, w) ==> ReadPossible(c, e, w, r))
    ensures var c := Run(c0, steps);
      c.Processable(e, w, r) <==> (e.readable && Writes(e, w) ==> WindowLeft(c, e, w) > 0)
  {
    AskedAwaits(c0, e);
    OthersRun(c0, steps, e);
    var c := Run(c0, steps);
    AwaitedIsProcessable(c, e, w, r);
  }

  lemma AwaitedIsProcessable(c: Conn, e: Event, w: WriteOutcome, r: ReadOutcome)
    requires Awaits(c, e) && !c.closed && w.Possible(c.queue)
    requires e.readable && Writes(e, w) ==> ReadPossible(c, e, w, r)
    ensures c.Processable(e, w, r) <==> (e.readable && Writes(e, w) ==> WindowLeft(c, e, w) > 0)
  {
    hide Conn.AfterWritable, Writes, WriteEnds, Taken, Conn.MaxRead;
    if e.readable {
      ReadIsReached(c, e, w);
      if Writes(e, w) {
        WindowAfterWrite(c, e, w);
      }
    }
  }

  lemma {:induction false} OthersKeepCore(c: Conn, steps: seq<Step>)
    requires Core(c) && Runnable(c, steps) && AllOfOthers(steps)
    ensures Core(Run(c, steps))
    decreases steps
  {
    if steps != [] {
      hide Core, Step.Apply;
      assert forall i :: 0 <= i < |steps[1..]| ==> steps[1..][i] == steps[i + 1];
      StepCoreIff(c, steps[0]);
      OthersKeepCore(steps[0].Apply(c), steps[1..]);
    }
  }

  /**
   And an end of file then leaves the state machine exactly when the phone's FIN was processed before: in an earlier
   batch with the interest left over, since the poll, or by the write half of the same event.
   */
  lemma PolledKeepsCore(c0: Conn, steps: seq<Step>, e: Event, w: WriteOutcome, r: ReadOutcome)
    requires Registered(c0) && Core(c0) && Asked(c0, e) && Runnable(c0, steps) && AllOfOthers(steps)
    requires !Run(c0, steps).closed && Run(c0, steps).Processable(e, w, r)
    ensures var c := Run(c0, steps);
      Core(c.Process(e, w, r)) <==>
        (e.readable && Writes(e, w) && r == Eof ==>
           c0.tcb.state == Established && SameFins(c0, c) && !WriteEnds(c, e, w))
  {
    AskedAwaits(c0, e);
    OthersRun(c0, steps, e);
    OthersKeepCore(c0, steps);
    var c := Run(c0, steps);
    StepCoreIff(c, Socket(e, w, r));
    hide Core, Registered, Run, Conn.Process, Conn.AfterWritable, Writes, WriteEnds;
    if e.readable {
      ReadIsReached(c, e, w);
    }
  }

  /** A writable event that was asked for with something to write still finds it. */
  lemma PolledFindsWork(c0: Conn, steps: seq<Step>, e: Event)
    requires Registered(c0) && Asked(c0, e) && !AsksForNothing(c0) && Runnable(c0, steps) && AllOfOthers(steps)
    ensures e.writable ==> HasWork(Run(c0, steps))
  {
    AskedAwaits(c0, e);
    OthersRun(c0, steps, e);
  }

  /** The event keeps what `Registered` says; it asks for nothing afterwards exactly when it met all, then blocked. */
  lemma EventKeepsRegistered(c: Conn, e: Event, w: WriteOutcome, r: ReadOutcome)
    requires Registered(c) && Awaits(c, e) && c.Processable(e, w, r)
    ensures Registered(c.Process(e, w, r))
    ensures !c.Process(e, w, r).closed && !AsksForNothing(c) ==>
      (AsksForNothing(c.Process(e, w, r)) <==>
         e.readable && e.writable && r == ReadWouldBlock && w == Wrote(|c.queue|))
  {
    SocketWakes(c, e, w, r);
    hide Conn.AfterWritable, Conn.ProcessReceive, Conn.Wanted, Conn.MayRead, Wakes;
    if !c.closed && (e.readable || e.writable) && !c.SendBlocks(e, w) {
      var mid := c.AfterWritable(e.writable, w);
      WriteHalf(c, e.writable, w);
      if !mid.closed && e.readable {
        ReceiveHalf(mid, r);
        if r != ReadWouldBlock {
          SettledIsRegistered(mid.ProcessReceive(r));
        }
      } else {
        SettledIsRegistered(mid);
      }
    }
  }

  lemma SettledIsRegistered(c: Conn)
    requires c.tcb.state != Init && c.tcb.state != CloseWait
    ensures Registered(c.Settle()) && !AsksForNothing(c.Settle())
  {
    CurrentIsRegistered(c.Settle());
  }

  lemma WriteHalf(c: Conn, writable: bool, w: WriteOutcome)
    requires !c.closed && w.Possible(c.queue) && (writable && c.tcb.state != SynSent ==> w != WriteWouldBlock)
    requires c.tcb.state != Init && c.tcb.state != CloseWait
    ensures var d := c.AfterWritable(writable, w);
      && d.interests == c.interests && d.deferred == c.deferred
      && d.tcb.state != Init && d.tcb.state != CloseWait
      && (Readers(c.tcb.state) ==> Readers(d.tcb.state))
      && (d.closed || d.queue == if writable && c.tcb.state != SynSent then c.queue[w.n..] else c.queue)
  {
    hide Conn.DoHandleFin, Conn.Reply;
    ReplyLeaves(c, RST);
    if writable && c.tcb.state == SynSent {
      ReplyLeaves(c.SetState(SynReceived), SYN_ACK);
    } else if writable && w.Wrote? {
      var d := c.(queue := c.queue[w.n..], h := c.h.(written := c.h.written + c.queue[..w.n])).AdvanceAck(w.n);
      ReplyLeaves(d, ACK);
      DoHandleFinLeaves(d);
    }
  }

  lemma DoHandleFinLeaves(c: Conn)
    requires c.tcb.state != Init && c.tcb.state != CloseWait
    ensures var d := c.DoHandleFin();
      && d.interests == c.interests && d.deferred == c.deferred && d.queue == c.queue
      && d.tcb.state != Init && d.tcb.state != CloseWait && (Readers(c.tcb.state) ==> Readers(d.tcb.state))
  {
    hide Conn.Reply;
    var d := c.AdvanceAck(1).(h := c.h.(finsProcessed := c.h.finsProcessed + 1));
    ReplyLeaves(d, ACK);
    ReplyLeaves(d, FIN_ACK);
  }

  lemma ReceiveHalf(c: Conn, r: ReadOutcome)
    requires c.CanReceive() && r.Possible(c.MaxRead()) && c.tcb.state != Init && c.tcb.state != CloseWait
    ensures var d := c.ProcessReceive(r);
      && d.tcb.state != Init && d.tcb.state != CloseWait
      && (r == ReadWouldBlock ==>
            d.interests == c.interests && d.queue == c.queue && d.deferred == c.deferred
            && d.tcb == c.tcb && d.closed == c.closed)
  {
    hide Conn.Reply;
    ReplyLeaves(c.UpdateHeaders(PSH_ACK), RST);
    ReplyLeaves(c.UpdateHeaders(PSH_ACK), FIN_ACK);
  }

  // ---- whole runs, batch by batch

  datatype Served = Served(e: Event, w: WriteOutcome, r: ReadOutcome)

  /** One poll: at most one event for the connection, with other handlers before and after it. */
  datatype Batch = Batch(before: seq<Step>, served: Option<Served>, after: seq<Step>) {
    /** The event was asked for at the poll; assertions hold. */
    ghost predicate Enabled(c: Conn) {
      && AllOfOthers(before) && AllOfOthers(after) && Runnable(c, before)
      && (served.Some? ==>
            && Asked(c, served.value.e)
            && Run(c, before).Processable(served.value.e, served.value.w, served.value.r))
      && Runnable(Handled(c), after)
    }

    function Handled(c: Conn): Conn
      requires Runnable(c, before)
      requires served.Some? ==> Run(c, before).Processable(served.value.e, served.value.w, served.value.r)
    {
      var d := Run(c, before);
      if served.None? then d else d.Process(served.value.e, served.value.w, served.value.r)
    }

    function Apply(c: Conn): Conn
      requires Enabled(c)
    {
      Run(Handled(c), after)
    }

    /** An end of file in this batch comes before any FIN of the phone is processed. */
    ghost predicate EndsBeforeFin(c: Conn)
      requires Enabled(c)
    {
      var d := Run(c, before);
      served.Some? && !d.closed && served.value.e.readable && Writes(served.value.e, served.value.w)
      && served.value.r == Eof ==>
        c.tcb.state == Established && SameFins(c, d) && !WriteEnds(d, served.value.e, served.value.w)
    }

    /** The event writes all there is, and finds nothing to read. */
    ghost predicate MeetsAll(c: Conn)
      requires Enabled(c)
    {
      && served.Some? && served.value.e == Event(true, true) && served.value.r == ReadWouldBlock
      && served.value.w == Wrote(|Run(c, before).queue|)
    }
  }

  lemma HandledKeeps(c: Conn, b: Batch)
    requires Registered(c) && b.Enabled(c)
    ensures Registered(b.Handled(c))
    ensures !AsksForNothing(c) && !b.Handled(c).closed ==> (AsksForNothing(b.Handled(c)) <==> b.MeetsAll(c))
  {
    var e := if b.served.Some? then b.served.value.e else Event(false, false);
    AskedAwaits(c, e);
    OthersRun(c, b.before, e);
    hide Registered, AsksForNothing, Conn.Process, Run, Awaits;
    if b.served.Some? {
      EventKeepsRegistered(Run(c, b.before), e, b.served.value.w, b.served.value.r);
    }
  }

  /** No batch registers for reading elsewhere, or leaves an interest in nothing but the one that `MeetsAll` names. */
  lemma BatchKeepsRegistered(c: Conn, b: Batch)
    requires Registered(c) && b.Enabled(c)
    ensures Registered(b.Apply(c))
    ensures !AsksForNothing(c) && AsksForNothing(b.Apply(c)) ==> b.MeetsAll(c)
  {
    HandledKeeps(c, b);
    var nothing := Event(false, false);
    assert Awaits(b.Handled(c), nothing);
    OthersRun(b.Handled(c), b.after, nothing);
  }

  /** Over a batch the state machine is left exactly when an end of file comes after a FIN of the phone. */
  lemma BatchCoreIff(c: Conn, b: Batch)
    requires Registered(c) && Core(c) && b.Enabled(c)
    ensures Core(b.Handled(c)) <==> b.EndsBeforeFin(c)
    ensures b.EndsBeforeFin(c) ==> Core(b.Apply(c))
  {
    OthersKeepCore(c, b.before);
    var d := Run(c, b.before);
    if b.served.Some? && !d.closed {
      PolledKeepsCore(c, b.before, b.served.value.e, b.served.value.w, b.served.value.r);
    }
    hide Core, Registered, Writes, WriteEnds, Asked;
    if Core(b.Handled(c)) {
      OthersKeepCore(b.Handled(c), b.after);
    }
  }

  ghost predicate AllEnabled(c: Conn, batches: seq<Batch>)
    decreases batches
  {
    batches == [] || (batches[0].Enabled(c) && AllEnabled(batches[0].Apply(c), batches[1..]))
  }

  function RunBatches(c: Conn, batches: seq<Batch>): Conn
    requires AllEnabled(c, batches)
    decreases batches
  {
    if batches == [] then c else RunBatches(batches[0].Apply(c), batches[1..])
  }

  ghost predicate AllEndBeforeFin(c: Conn, batches: seq<Batch>)
    requires AllEnabled(c, batches)
    decreases batches
  {
    batches == [] || (batches[0].EndsBeforeFin(c) && AllEndBeforeFin(batches[0].Apply(c), batches[1..]))
  }

  /**
   Over every run of asked-for events, stale interests included, the connection stays registered as said;
   and the state machine is kept as long as no end of file comes after a FIN of the phone.
   */
  lemma {:induction false} PollsKeepCore(c: Conn, batches: seq<Batch>)
    requires Registered(c) && AllEnabled(c, batches)
    ensures Registered(RunBatches(c, batches))
    ensures Core(c) && AllEndBeforeFin(c, batches) ==> Core(RunBatches(c, batches))
    decreases batches
  {
    if batches != [] {
      hide Registered, Core, Batch.Enabled, Batch.Apply, Batch.EndsBeforeFin;
      BatchKeepsRegistered(c, batches[0]);
      if Core(c) {
        BatchCoreIff(c, batches[0]);
      }
      PollsKeepCore(batches[0].Apply(c), batches[1..]);
    }
  }

  /** A connection meets its first poll after its SYN was handled. */
  lemma SynStarts(c: Conn, syn: Segment, isn: u32)
    requires c.tcb == NEW_TCB && c.queue == [] && c.h == NO_HISTORY && !c.closed && syn.flags.syn
    ensures var d := c.SendToNetwork(syn, isn); Registered(d) && Core(d) && !AsksForNothing(d)
  {
    var d := c.SendToNetwork(syn, isn);
    assert d.tcb.state == SynSent && Current(d);
  }

  // ---- three ways to meet the exceptions

  /** The interest left over by a blocked read: the next end of file assigns a second FIN. */
  lemma StaleReadThenSecondFin(c: Conn)
    requires Core(c) && Current(c) && !c.closed && c.MayRead() && c.tcb.finReceived && c.queue != []
    requires c.tcb.RemainingClientWindow() > 1
    ensures var w := Wrote(|c.queue|);
      && Asked(c, Event(true, true)) && c.Processable(Event(true, true), w, ReadWouldBlock)
      && var d := c.Process(Event(true, true), w, ReadWouldBlock);
      && Asked(d, Event(true, false)) && d.Processable(Event(true, false), Wrote(0), Eof)
      && d.Process(Event(true, false), Wrote(0), Eof).h.finsSent == 2
      && d.Process(Event(true, false), Wrote(0), Eof).tcb.state == FinWait1
  {
    var w := Wrote(|c.queue|);
    var mid := c.AfterWritable(true, w);
    DrainLeavesLastAck(c);
    assert Asked(c, Event(true, true));
    hide Conn.AfterWritable, Core, Current, Conn.MayRead;
    ReceiveHalf(mid, ReadWouldBlock);
    BlockedCounts(mid);
    hide Conn.ProcessReceive;
    EofSecondFin(c.Process(Event(true, true), w, ReadWouldBlock));
  }

  lemma BlockedCounts(c: Conn)
    requires c.CanReceive()
    ensures c.ProcessReceive(ReadWouldBlock).h == c.h
  {}

  lemma DrainLeavesLastAck(c: Conn)
    requires Core(c) && Current(c) && !c.closed && c.MayRead() && c.tcb.finReceived && c.queue != []
    requires c.tcb.RemainingClientWindow() > 1
    ensures var d := c.AfterWritable(true, Wrote(|c.queue|));
      && !d.closed && d.tcb.state == LastAck && d.interests == c.interests && d.CanReceive() && d.h.finsSent == 1
  {
    var w := Wrote(|c.queue|);
    assert c.tcb.state == Established && c.h.finsSent == 0;
    hide Core, Current, Conn.MayRead, Conn.DoHandleFin;
    WindowLess(c.tcb);
    WindowAfterWrite(c, Event(true, true), w);
    hide Tcb.RemainingClientWindow;
    FinFromEstablished(c.(queue := [], h := c.h.(written := c.h.written + c.queue)).AdvanceAck(|c.queue|));
    assert c.queue[|c.queue|..] == [] && c.queue[..|c.queue|] == c.queue;
  }

  lemma FinFromEstablished(c: Conn)
    requires c.tcb.state == Established
    ensures var d := c.DoHandleFin();
      && d.closed == c.closed && d.tcb.state == LastAck && d.interests == c.interests && d.deferred == c.deferred
      && d.h.finsSent == c.h.finsSent + 1 && d.tcb.finSeqNo == Some(c.tcb.seqNo)
      && d.tcb.(state := c.tcb.state, ackNo := c.tcb.ackNo, finSeqNo := c.tcb.finSeqNo)
         == c.tcb.(seqNo := Wrap32(c.tcb.seqNo + 1))
  {}

  lemma EofSecondFin(d: Conn)
    requires !d.closed && d.tcb.state == LastAck && d.CanReceive() && d.h.finsSent == 1
    ensures var e := Event(true, false);
      && d.Processable(e, Wrote(0), Eof)
      && d.Process(e, Wrote(0), Eof).h.finsSent == 2 && d.Process(e, Wrote(0), Eof).tcb.state == FinWait1
  {}

  /** A FIN routed between the poll and the event: the end of file assigns a second one. */
  lemma FinOfTheBatch(c: Conn, seg: Segment, isn: u32)
    requires Core(c) && Current(c) && !c.closed && c.MayRead() && c.queue == []
    requires seg.flags == FIN_ACK && seg.seqNo == c.ExpectedSeq() && seg.payload == []
    requires seg.ackNo == c.tcb.theirAckNo && seg.ackNo != Wrap32(c.tcb.seqNo + 1)
    requires seg.window == c.tcb.clientWindow && c.tcb.RemainingClientWindow() > 1
    ensures var e := Event(true, false);
      var d := c.SendToNetwork(seg, isn);
      && Asked(c, e) && d.Processable(e, Wrote(0), Eof)
      && d.Process(e, Wrote(0), Eof).h.finsSent == 2 && d.Process(e, Wrote(0), Eof).tcb.state == FinWait1
  {
    FinLeavesLastAck(c, seg, isn);
    EofSecondFin(c.SendToNetwork(seg, isn));
  }

  lemma FinLeavesLastAck(c: Conn, seg: Segment, isn: u32)
    requires Core(c) && !c.closed && c.MayRead() && c.queue == []
    requires seg.flags == FIN_ACK && seg.seqNo == c.ExpectedSeq() && seg.payload == []
    requires seg.ackNo == c.tcb.theirAckNo && seg.ackNo != Wrap32(c.tcb.seqNo + 1)
    requires seg.window == c.tcb.clientWindow && c.tcb.RemainingClientWindow() > 1
    ensures var d := c.SendToNetwork(seg, isn);
      !d.closed && d.tcb.state == LastAck && d.CanReceive() && d.h.finsSent == 1
  {
    assert c.tcb.state == Established && c.h.finsSent == 0 && c.tcb.finSeqNo.None? && c.deferred.None?;
    hide Core, Conn.MayRead, Conn.DoHandleFin, Conn.HandlePacket, Tcb.RemainingClientWindow;
    var d := c.(tcb := c.tcb.(finReceived := true));
    FinSegmentIs(c, seg, isn);
    FinFromEstablished(d);
    WindowDependsOn(c.tcb, d.DoHandleFin().tcb);
  }

  lemma WindowDependsOn(t: Tcb, u: Tcb)
    requires u.seqNo == Wrap32(t.seqNo + 1) && u.theirAckNo == t.theirAckNo && u.clientWindow == t.clientWindow
    ensures t.RemainingClientWindow() > 0 ==> u.RemainingClientWindow() == t.RemainingClientWindow() - 1
  {
    WindowLess(t);
  }

  lemma FinSegmentIs(c: Conn, seg: Segment, isn: u32)
    requires c.tcb.state == Established && c.tcb.finSeqNo.None? && c.queue == []
    requires seg.flags == FIN_ACK && seg.seqNo == c.ExpectedSeq() && seg.payload == []
    requires seg.ackNo == c.tcb.theirAckNo && seg.ackNo != Wrap32(c.tcb.seqNo + 1) && seg.window == c.tcb.clientWindow
    ensures c.HandlePacket(seg, isn) == c.(tcb := c.tcb.(finReceived := true)).DoHandleFin()
  {
    FinFromEstablished(c.(tcb := c.tcb.(finReceived := true)));
    hide Conn.DoHandleFin, Wrap32;
  }

  /** An acknowledgement with window zero routed between the poll and the event: the assertion fails. */
  lemma WindowOfTheBatch(c: Conn, seg: Segment, isn: u32, r: ReadOutcome)
    requires Core(c) && Current(c) && !c.closed && c.MayRead()
    requires seg.flags == ACK && seg.seqNo == c.ExpectedSeq() && seg.payload == [] && seg.window == 0
    ensures Asked(c, Event(true, false)) && !c.SendToNetwork(seg, isn).Processable(Event(true, false), Wrote(0), r)
  {}
}
