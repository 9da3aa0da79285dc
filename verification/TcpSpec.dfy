/**
 The relay's TCP endpoint as functions on values: what each handler of a connection makes of its state.
 The class in TcpConnection.dfy is proved to do exactly this; the lemmas about whole runs are in the
 Tcp*.dfy files beside this one.
 */
module TcpSpec {
  import opened Bytes
  import opened Io

  const MTU: u16 := 0x4000
  const MAX_PAYLOAD_LENGTH: u16 := MTU - 20 - 20
  const QUEUE_CAPACITY: nat := 4 * MAX_PACKET_LENGTH

  datatype State = Init | SynSent | SynReceived | Established | CloseWait | LastAck | Closing | FinWait1 | FinWait2
  {
    predicate IsConnected() { this != Init && this != SynSent && this != SynReceived }
    predicate IsClosed() { this == FinWait1 || this == FinWait2 || this == Closing || this == LastAck }
  }

  datatype Flags = Flags(fin: bool, syn: bool, rst: bool, psh: bool, ack: bool)

  const ACK := Flags(false, false, false, false, true)
  const RST := Flags(false, false, true, false, false)
  const PSH_ACK := Flags(false, false, false, true, true)
  const SYN_ACK := Flags(false, true, false, false, true)
  const FIN_ACK := Flags(true, false, false, false, true)

  /** A TCP packet received from the phone. */
  datatype Segment = Segment(seqNo: u32, ackNo: u32, flags: Flags, window: u16, payload: seq<byte>)

  datatype Tcb = Tcb(
    state: State,
    synSeqNo: u32,
    seqNo: u32,
    ackNo: u32,
    theirAckNo: u32,
    finSeqNo: Option<u32>,
    finReceived: bool,
    clientWindow: u16)
  {
    function RemainingClientWindow(): u16 {
      var remaining := Wrap32(theirAckNo + clientWindow - seqNo);
      if remaining <= clientWindow then remaining else 0
    }
  }

  const NEW_TCB := Tcb(Init, 0, 0, 0, 0, None, false, 0)

  /** The packet held by the packetizer: header fields as last written, and the payload last read. */
  datatype Built = Built(seqNo: u32, ackNo: u32, flags: Flags, totalLength: nat, payload: seq<byte>)

  /** What has happened so far; no decision depends on it. */
  datatype History = History(
    localIsn: u32,
    synsSent: nat,
    finsSent: nat,
    finsProcessed: nat,
    closes: nat,
    overrun: nat,           // sequence numbers skipped by deferred packets
    written: seq<byte>,
    received: seq<byte>,
    sent: seq<Built>)

  const NO_HISTORY := History(0, 0, 0, 0, 0, 0, [], [], [])

  datatype Conn = Conn(
    headerLength: nat,      // IPv4 and TCP header of every packet to the phone
    tcb: Tcb,
    queue: seq<byte>,       // contents of client_to_network
    deferred: Option<nat>,  // packet_for_client_length
    built: Built,
    closed: bool,
    interests: Ready,
    room: nat,              // bytes left in the client's queue
    h: History)
  {
    predicate MayRead() {
      tcb.state.IsConnected() && !tcb.state.IsClosed() && deferred.None? && tcb.RemainingClientWindow() > 0
    }

    function Wanted(): Ready {
      if tcb.state == SynSent then Ready(false, true) else Ready(MayRead(), queue != [])
    }

    function UpdateInterests(): Conn { this.(interests := Wanted()) }

    function Close(): Conn { this.(closed := true, h := h.(closes := h.closes + 1)) }

    function UpdateHeaders(flags: Flags): Conn {
      this.(built := built.(seqNo := tcb.seqNo, ackNo := tcb.ackNo, flags := flags))
    }

    /** Append a packet of `length` raw bytes to the client's queue. */
    function Emit(packet: Built, length: nat): Conn
      requires length <= room
    {
      this.(room := room - length, h := h.(sent := h.sent + [packet]))
    }

    /** Forge a packet without payload and try to queue it; losing it is accepted. */
    function Reply(flags: Flags): Conn {
      var c := UpdateHeaders(flags);
      var c := c.(built := c.built.(totalLength := headerLength));
      if headerLength <= room then c.Emit(c.built.(payload := []), headerLength) else c
    }

    function AdvanceSeq(n: nat): Conn { this.(tcb := tcb.(seqNo := Wrap32(tcb.seqNo + n))) }

    function AdvanceAck(n: nat): Conn { this.(tcb := tcb.(ackNo := Wrap32(tcb.ackNo + n))) }

    function SetState(state: State): Conn { this.(tcb := tcb.(state := state)) }

    /** Assign the sequence number of our FIN; it counts for one byte. */
    function AssignFin(): Conn {
      this.(tcb := tcb.(finSeqNo := Some(tcb.seqNo)), h := h.(finsSent := h.finsSent + 1)).AdvanceSeq(1)
    }

    // ---- packets from the phone

    function HandleFirstPacket(seg: Segment, isn: u32): Conn {
      if seg.flags.syn then
        this.(tcb := tcb.(ackNo := Wrap32(seg.seqNo + 1), synSeqNo := seg.seqNo, seqNo := isn,
                          clientWindow := seg.window, state := SynSent),
              h := h.(localIsn := isn))
      else
        this.(tcb := tcb.(seqNo := seg.ackNo)).Reply(RST).Close()
    }

    function HandleDuplicateSyn(seg: Segment): Conn {
      if tcb.state == SynSent then
        this.(tcb := tcb.(synSeqNo := seg.seqNo, ackNo := Wrap32(seg.seqNo + 1)))
      else if seg.seqNo != tcb.synSeqNo then
        Reply(RST).Close()
      else
        this
    }

    function HandleAck(seg: Segment): Conn {
      if tcb.state == SynReceived then SetState(Established)
      else if seg.payload == [] || QUEUE_CAPACITY - |queue| < |seg.payload| then this
      else this.(queue := queue + seg.payload)
    }

    function DoHandleFin(): Conn {
      var c := AdvanceAck(1).(h := h.(finsProcessed := h.finsProcessed + 1));
      if tcb.state == Established then c.Reply(FIN_ACK).AssignFin().SetState(LastAck)
      else if tcb.state == FinWait1 then c.Reply(ACK).SetState(Closing)
      else if tcb.state == FinWait2 then c.Reply(ACK).Close()
      else c
    }

    function HandleFin(): Conn {
      var c := this.(tcb := tcb.(finReceived := true));
      if queue == [] then c.DoHandleFin() else c
    }

    function HandleFinAck(): Conn {
      if tcb.state == LastAck || tcb.state == Closing then Close()
      else if tcb.state == FinWait1 then SetState(FinWait2)
      else this
    }

    function ExpectedSeq(): u32 { Wrap32(tcb.ackNo + |queue|) }

    function HandleExpected(seg: Segment): Conn {
      var c := this.(tcb := tcb.(clientWindow := seg.window, theirAckNo := seg.ackNo));
      if seg.flags.rst then c.Close()
      else
        var c := if seg.flags.ack then c.HandleAck(seg) else c;
        var c := if seg.flags.fin then c.HandleFin() else c;
        if c.tcb.finSeqNo.Some? && seg.ackNo == Wrap32(c.tcb.finSeqNo.value + 1) then c.HandleFinAck() else c
    }

    function HandlePacket(seg: Segment, isn: u32): Conn {
      if tcb.state == Init then HandleFirstPacket(seg, isn)
      else if seg.flags.syn then HandleDuplicateSyn(seg)
      else if seg.seqNo != ExpectedSeq() then this
      else HandleExpected(seg)
    }

    function SendToNetwork(seg: Segment, isn: u32): Conn {
      HandlePacket(seg, isn).Settle()
    }

    // ---- socket events

    function ProcessConnect(): Conn {
      var c := SetState(SynReceived).Reply(SYN_ACK).AdvanceSeq(1);
      c.(h := c.h.(synsSent := c.h.synsSent + 1))
    }

    function ProcessSend(w: WriteOutcome): Conn
      requires w.Possible(queue)
    {
      match w
      case Wrote(n) =>
        if n == 0 then Close()
        else
          var c := this.(queue := queue[n..], h := h.(written := h.written + queue[..n])).AdvanceAck(n);
          if tcb.finReceived && c.queue == [] then c.DoHandleFin() else c.Reply(ACK)
      case WriteWouldBlock => this
      case WriteFailed => Reply(RST).Close()
    }

    /** The assertions at the head of process_receive. */
    predicate CanReceive() { deferred.None? && tcb.RemainingClientWindow() > 0 }

    function MaxRead(): nat { Min(tcb.RemainingClientWindow(), MAX_PAYLOAD_LENGTH) }

    function ProcessReceive(r: ReadOutcome): Conn
      requires CanReceive() && r.Possible(MaxRead())
    {
      var c := UpdateHeaders(PSH_ACK);
      match r
      case Read(data) =>
        var length := headerLength + |data|;
        var c := c.(built := c.built.(totalLength := length, payload := data),
                    h := c.h.(received := h.received + data));
        if length <= room then c.Emit(c.built, length).AdvanceSeq(|data|) else c.(deferred := Some(length))
      case Eof => c.ProcessEof()
      case ReadWouldBlock => c
      case ReadFailed => c.Reply(RST).Close()
    }

    function ProcessEof(): Conn {
      Reply(FIN_ACK).AssignFin().SetState(if tcb.state == CloseWait then LastAck else FinWait1)
    }

    function WritableHalf(w: WriteOutcome): Conn
      requires w.Possible(queue)
    {
      if tcb.state == SynSent then ProcessConnect() else ProcessSend(w)
    }

    function AfterWritable(writable: bool, w: WriteOutcome): Conn
      requires w.Possible(queue)
    {
      if writable then WritableHalf(w) else this
    }

    predicate Readable(readable: bool, r: ReadOutcome) {
      !closed && readable ==> CanReceive() && r.Possible(MaxRead())
    }

    function AfterReadable(readable: bool, r: ReadOutcome): Conn
      requires Readable(readable, r)
    {
      if closed || !readable then Settle()
      else if r == ReadWouldBlock then ProcessReceive(r)
      else ProcessReceive(r).Settle()
    }

    /** An open connection re-registers its interests at the end of a handler. */
    function Settle(): Conn { if closed then this else UpdateInterests() }

    /** The handler returns early, without settling, when the socket would block. */
    predicate SendBlocks(e: Event, w: WriteOutcome) {
      e.writable && tcb.state != SynSent && w == WriteWouldBlock
    }

    predicate Processable(e: Event, w: WriteOutcome, r: ReadOutcome) {
      !closed ==> w.Possible(queue) && (!SendBlocks(e, w) ==> AfterWritable(e.writable, w).Readable(e.readable, r))
    }

    function Process(e: Event, w: WriteOutcome, r: ReadOutcome): Conn
      requires Processable(e, w, r)
    {
      if closed then this
      else if !e.readable && !e.writable then Close()
      else if SendBlocks(e, w) then this
      else AfterWritable(e.writable, w).AfterReadable(e.readable, r)
    }

    // ---- the client pulls a deferred packet

    /** The deferred packet's headers are still its own. */
    predicate Intact() {
      deferred.Some? ==> built.totalLength == deferred.value && headerLength + |built.payload| == deferred.value
    }

    /** get(), send_to_client() and next(): the queue checks the declared length and copies the deferred one. */
    predicate Pullable() {
      !closed && deferred.Some? && (built.totalLength <= room ==> deferred.value <= room)
    }

    function Pull(): Conn
      requires Pullable()
    {
      if built.totalLength <= room then
        var c := this.(deferred := None).Emit(built, deferred.value).AdvanceSeq(deferred.value);
        c.(h := c.h.(overrun := c.h.overrun + headerLength)).UpdateInterests()
      else this
    }
  }

  datatype WriteOutcome = Wrote(n: nat) | WriteWouldBlock | WriteFailed {
    predicate Possible(queue: seq<byte>) { Wrote? ==> n <= |queue| }
  }

  datatype ReadOutcome = Read(data: seq<byte>) | Eof | ReadWouldBlock | ReadFailed {
    predicate Possible(max: nat) { Read? ==> 0 < |data| <= max }
  }

  function NewConn(headerLength: nat, built: Built, room: nat): Conn {
    Conn(headerLength, NEW_TCB, [], None, built, false, Ready(false, true), room, NO_HISTORY)
  }

  // ---- whole runs

  datatype Step =
    | Packet(seg: Segment, isn: u32)
    | Socket(event: Event, w: WriteOutcome, r: ReadOutcome)
    | Deliver
    | Drain(room: nat)   // the client's queue changes under the connection
  {
    /** No assertion of the source fails, and the outcome is one the socket can have. */
    predicate Enabled(c: Conn) {
      match this
      case Packet(_, _) => !c.closed
      case Socket(e, w, r) => c.Processable(e, w, r)
      case Deliver => c.Pullable()
      case Drain(_) => true
    }

    function Apply(c: Conn): Conn
      requires Enabled(c)
    {
      match this
      case Packet(seg, isn) => c.SendToNetwork(seg, isn)
      case Socket(e, w, r) => c.Process(e, w, r)
      case Deliver => c.Pull()
      case Drain(room) => c.(room := room)
    }
  }

  predicate Runnable(c: Conn, steps: seq<Step>)
    decreases steps
  {
    steps == [] || (steps[0].Enabled(c) && Runnable(steps[0].Apply(c), steps[1..]))
  }

  function Run(c: Conn, steps: seq<Step>): Conn
    requires Runnable(c, steps)
    decreases steps
  {
    if steps == [] then c else Run(steps[0].Apply(c), steps[1..])
  }
}
