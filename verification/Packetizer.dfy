/** The packet builder: one buffer holding swapped reference headers, rewritten in place for every packet. */
module Packetizers {
  import opened Bytes
  import opened Headers
  import opened Io

  /** Headers of these two kinds and lengths fit in `raw`. */
  ghost predicate Shape(raw: seq<byte>, ip: Ipv4HeaderData, transport: TransportHeaderData) {
    && ip.protocol == (if transport.TcpData? then Tcp else Udp)
    && 20 <= ip.headerLength <= 60
    && 8 <= transport.HeaderLength() <= 60
    && (transport.TcpData? ==> 20 <= transport.HeaderLength())
    && ip.headerLength + transport.HeaderLength() <= |raw|
  }

  /** The first bytes of `raw` are these headers. */
  ghost predicate Coherent(raw: seq<byte>, ip: Ipv4HeaderData, transport: TransportHeaderData) {
    && Shape(raw, ip, transport)
    && ParseIpv4(raw) == ip
    && ParseTransport(ip.protocol, raw, ip.headerLength) == Some(transport)
  }

  /** `raw` is a whole packet with these headers: what parsing it returns, with its declared length. */
  ghost predicate ParsesTo(raw: seq<byte>, ip: Ipv4HeaderData, transport: TransportHeaderData) {
    Coherent(raw, ip, transport) && ip.totalLength == |raw|
  }

  /** What a receiver checks on a packet, and what a UDP header declares. */
  ghost predicate Sound(raw: seq<byte>, ip: Ipv4HeaderData, transport: TransportHeaderData)
    requires ip.headerLength + transport.HeaderLength() <= |raw| && 8 <= transport.HeaderLength()
  {
    var at, end := ip.headerLength, ip.headerLength + transport.HeaderLength();
    && Ipv4Verifies(raw[..at])
    && if transport.TcpData?
       then TcpVerifies(ip.source, ip.destination, raw[at..end], raw[end..])
       else Be16(raw, at + 4) == |raw| - at && Be16(raw, at + 6) == 0
  }

  lemma CoherentShape(raw: seq<byte>, ip: Ipv4HeaderData, transport: TransportHeaderData)
    requires Coherent(raw, ip, transport)
    ensures Shape(raw, ip, transport)
  {}

  // ---- slices of patched bytes

  lemma PatchSlice(raw: seq<byte>, w: nat, field: seq<byte>, a: nat, b: nat)
    requires w + |field| <= |raw| && a <= b <= |raw|
    ensures w + |field| <= a || b <= w ==> Patch(raw, w, field)[a..b] == raw[a..b]
    ensures a <= w && w + |field| <= b ==> Patch(raw, w, field)[a..b] == Patch(raw[a..b], w - a, field)
  {}

  /** Parsing reads no byte behind the headers. */
  lemma CoherentPrefix(raw: seq<byte>, ip: Ipv4HeaderData, transport: TransportHeaderData, n: nat)
    requires ip.headerLength + transport.HeaderLength() <= n <= |raw|
    ensures Coherent(raw[..n], ip, transport) <==> Coherent(raw, ip, transport)
  {
    forall i: nat | i + 2 <= n
      ensures Be16(raw[..n], i) == Be16(raw, i) && raw[..n][i] == raw[i]
    {}
  }

  // ---- swapping

  /** Two neighbouring fields of `n` bytes, exchanged. */
  function Exchanged(s: seq<byte>, at: nat, n: nat): (r: seq<byte>)
    requires at + 2 * n <= |s|
    ensures |r| == |s|
  {
    s[..at] + s[at + n..at + 2 * n] + s[at..at + n] + s[at + 2 * n..]
  }

  lemma ExchangeTwice(s: seq<byte>, at: nat, n: nat)
    requires at + 2 * n <= |s|
    ensures Exchanged(Exchanged(s, at, n), at, n) == s
  {
    var r := Exchanged(s, at, n);
    assert r[..at] == s[..at] && r[at + 2 * n..] == s[at + 2 * n..];
    assert r[at..at + n] == s[at + n..at + 2 * n] && r[at + n..at + 2 * n] == s[at..at + n];
    assert s == s[..at] + s[at..at + n] + s[at + n..at + 2 * n] + s[at + 2 * n..];
  }

  lemma ExchangedApart(s: seq<byte>, at: nat, n: nat, i: nat)
    requires at + 2 * n <= |s| && i + 2 <= |s|
    requires i + 2 <= at || at + 2 * n <= i
    ensures Be16(Exchanged(s, at, n), i) == Be16(s, i) && Exchanged(s, at, n)[i] == s[i]
  {}

  lemma ExchangedWords(s: seq<byte>, at: nat)
    requires at + 4 <= |s|
    ensures Be16(Exchanged(s, at, 2), at) == Be16(s, at + 2)
    ensures Be16(Exchanged(s, at, 2), at + 2) == Be16(s, at)
  {}

  lemma ExchangedElsewhere(s: seq<byte>, at: nat, n: nat)
    requires at + 2 * n <= |s|
    ensures forall k :: 0 <= k < |s| && !(at <= k < at + 2 * n) ==> Exchanged(s, at, n)[k] == s[k]
  {}

  /** The byte-by-byte swap loop. */
  method Exchange(raw: array<byte>, at: nat, n: nat)
    requires at + 2 * n <= raw.Length
    modifies raw
    ensures raw[..] == Exchanged(old(raw[..]), at, n)
  {
    for i := at to at + n
      invariant forall k :: 0 <= k < raw.Length ==> raw[k] == old(
        if at <= k < i then raw[k + n] else if at + n <= k < i + n then raw[k - n] else raw[k])
    {
      raw[i], raw[i + n] := raw[i + n], raw[i];
    }
  }

  lemma ExchangeAddresses(raw: seq<byte>)
    requires |raw| >= 20
    ensures ParseIpv4(Exchanged(raw, 12, 4)) == ParseIpv4(raw).Swapped()
  {
    var after := Exchanged(raw, 12, 4);
    assert forall k :: 12 <= k < 16 ==> after[k] == raw[k + 4] && after[k + 4] == raw[k];
  }

  lemma ExchangePorts(raw: seq<byte>, ip: Ipv4HeaderData, transport: TransportHeaderData)
    requires Coherent(raw, ip, transport)
    ensures Coherent(Exchanged(raw, ip.headerLength, 2), ip, transport.Swapped())
  {
    hide Exchanged, Be16;
    var at := ip.headerLength;
    forall i: nat | i + 2 <= at || (at + 4 <= i && i + 2 <= |raw|)
      ensures Be16(Exchanged(raw, at, 2), i) == Be16(raw, i) && Exchanged(raw, at, 2)[i] == raw[i]
    {
      ExchangedApart(raw, at, 2, i);
    }
    ExchangedWords(raw, at);
  }

  lemma ExchangeAddressesKeeps(raw: seq<byte>, ip: Ipv4HeaderData, transport: TransportHeaderData)
    requires Coherent(raw, ip, transport)
    ensures Coherent(Exchanged(raw, 12, 4), ip.Swapped(), transport)
  {
    ExchangeAddresses(raw);
    hide Exchanged, Be16, ParseIpv4;
    forall i: nat | ip.headerLength <= i && i + 2 <= |raw|
      ensures Be16(Exchanged(raw, 12, 4), i) == Be16(raw, i)
    {
      ExchangedApart(raw, 12, 4, i);
    }
  }

  // ---- field writes

  lemma SetTotalLengthKeeps(raw: seq<byte>, ip: Ipv4HeaderData, transport: TransportHeaderData, n: u16)
    requires Coherent(raw, ip, transport)
    ensures Coherent(Patch(raw, 2, Encode16(n)), ip.(totalLength := n), transport)
  {
    SetTotalLengthParses(raw, n);
    OtherWriteParsesTransport(ip.protocol, raw, ip.headerLength, 2, Encode16(n));
  }

  /** Writes of unparsed fields, and of the payload. */
  lemma OtherWriteKeeps(raw: seq<byte>, ip: Ipv4HeaderData, transport: TransportHeaderData, w: nat, field: seq<byte>)
    requires Coherent(raw, ip, transport) && w + |field| <= |raw|
    requires (w == 10 && |field| == 2) || ip.headerLength + (if transport.TcpData? then 16 else 4) <= w
    ensures Coherent(Patch(raw, w, field), ip, transport)
  {
    OtherWriteParsesIpv4(raw, w, field);
    OtherWriteParsesTransport(ip.protocol, raw, ip.headerLength, w, field);
  }

  /** The header bytes of `raw`, copied from `reference`. */
  function Copied(raw: seq<byte>, reference: seq<byte>, middle: nat, end: nat): (r: seq<byte>)
    requires middle <= end <= |reference| && end <= |raw|
    ensures |r| == |raw|
  {
    Patch(Patch(raw, 0, reference[..middle]), middle, reference[middle..end])
  }

  lemma CopiedInTurn(raw: seq<byte>, reference: seq<byte>, middle: nat, end: nat)
    requires middle <= end <= |reference| && end <= |raw|
    ensures Copied(raw, reference, middle, end)[..end] == reference[..end]
  {
    assert reference[..end] == reference[..middle] + reference[middle..end];
  }

  lemma CopiedIsCoherent(raw: seq<byte>, reference: seq<byte>, ip: Ipv4HeaderData, transport: TransportHeaderData)
    requires Coherent(reference, ip, transport)
    requires ip.headerLength + transport.HeaderLength() <= |raw|
    ensures Coherent(Copied(raw, reference, ip.headerLength, ip.headerLength + transport.HeaderLength()), ip, transport)
  {
    CoherentShape(reference, ip, transport);
    hide Coherent, Copied;
    var middle, end := ip.headerLength, ip.headerLength + transport.HeaderLength();
    CopiedInTurn(raw, reference, middle, end);
    CoherentPrefix(reference, ip, transport, end);
    CoherentPrefix(Copied(raw, reference, middle, end), ip, transport, end);
  }

  /** Both pairs of fields of the headers exchanged. */
  function Turned(raw: seq<byte>, middle: nat): (r: seq<byte>)
    requires 20 <= middle && middle + 4 <= |raw|
    ensures |r| == |raw|
  {
    Exchanged(Exchanged(raw, 12, 4), middle, 2)
  }

  lemma TurnedIsCoherent(raw: seq<byte>, ip: Ipv4HeaderData, transport: TransportHeaderData)
    requires Coherent(raw, ip, transport)
    ensures Coherent(Turned(raw, ip.headerLength), ip.Swapped(), transport.Swapped())
  {
    CoherentShape(raw, ip, transport);
    hide Coherent, Exchanged;
    ExchangeAddressesKeeps(raw, ip, transport);
    ExchangePorts(Exchanged(raw, 12, 4), ip.Swapped(), transport);
  }

  lemma TurnedElsewhere(raw: seq<byte>, middle: nat)
    requires 20 <= middle && middle + 4 <= |raw|
    ensures forall k :: 0 <= k < |raw| && !(12 <= k < 20) && !(middle <= k < middle + 4) ==>
      Turned(raw, middle)[k] == raw[k]
  {
    hide Exchanged;
    ExchangedElsewhere(raw, 12, 4);
    ExchangedElsewhere(Exchanged(raw, 12, 4), middle, 2);
  }

  method CopyHeaders(buffer: array<byte>, reference: seq<byte>, middle: nat, end: nat)
    requires middle <= end <= |reference| && end <= buffer.Length
    modifies buffer
    ensures buffer[..] == Copied(old(buffer[..]), reference, middle, end)
  {
    hide Patch;
    CopyFromSlice(buffer, 0, reference[..middle]);
    CopyFromSlice(buffer, middle, reference[middle..end]);
  }

  method Turn(buffer: array<byte>, middle: nat)
    requires 20 <= middle && middle + 4 <= buffer.Length
    modifies buffer
    ensures buffer[..] == Turned(old(buffer[..]), middle)
  {
    hide Exchanged;
    Exchange(buffer, 12, 4);
    Exchange(buffer, middle, 2);
  }

  lemma TurnedCopy(before: seq<byte>, reference: seq<byte>, ip: Ipv4HeaderData, transport: TransportHeaderData)
    requires Coherent(reference, ip, transport) && ip.headerLength + transport.HeaderLength() <= |before|
    ensures var at, end := ip.headerLength, ip.headerLength + transport.HeaderLength();
      var copied := Copied(before, reference, at, end);
      && Coherent(Turned(copied, at), ip.Swapped(), transport.Swapped())
      && forall k :: 0 <= k < end && !(12 <= k < 20) && !(at <= k < at + 4) ==> Turned(copied, at)[k] == reference[k]
  {
    hide Coherent, Copied, Turned;
    CoherentShape(reference, ip, transport);
    var at, end := ip.headerLength, ip.headerLength + transport.HeaderLength();
    var copied := Copied(before, reference, at, end);
    CopiedIsCoherent(before, reference, ip, transport);
    TurnedIsCoherent(copied, ip, transport);
    CopiedInTurn(before, reference, at, end);
    TurnedElsewhere(copied, at);
    forall k | 0 <= k < end
      ensures copied[k] == reference[k]
    {
      assert copied[..end][k] == reference[..end][k];
    }
  }

  method CopyTurned(buffer: array<byte>, reference: seq<byte>, ip: Ipv4HeaderData, transport: TransportHeaderData)
    requires Coherent(reference, ip, transport) && ip.headerLength + transport.HeaderLength() <= buffer.Length
    modifies buffer
    ensures Coherent(buffer[..], ip.Swapped(), transport.Swapped())
    ensures var at, end := ip.headerLength, ip.headerLength + transport.HeaderLength();
      forall k :: 0 <= k < end && !(12 <= k < 20) && !(at <= k < at + 4) ==> buffer[..][k] == reference[k]
  {
    hide Coherent, Copied, Turned;
    CoherentShape(reference, ip, transport);
    var middle := ip.headerLength;
    TurnedCopy(buffer[..], reference, ip, transport);
    CopyHeaders(buffer, reference, middle, middle + transport.HeaderLength());
    Turn(buffer, middle);
  }

  /** The reference of a TCP connection: the headers of its SYN with the options cut off. */
  lemma ShrunkIsCoherent(raw: seq<byte>, ip: Ipv4HeaderData, tcp: TcpHeaderData)
    requires Coherent(raw, ip, TcpData(tcp))
    ensures var at := ip.headerLength;
      var shrunk := Patch(raw, at + 12, Encode16(WithFiveWords(Be16(raw, at + 12))));
      Coherent(shrunk[..at + 20], ip, TcpData(tcp.(headerLength := 20)))
  {
    var at := ip.headerLength;
    var word := Encode16(WithFiveWords(Be16(raw, at + 12)));
    ShrinkOptionsParses(raw, at);
    OtherWriteParsesIpv4(raw, at + 12, word);
    CoherentPrefix(Patch(raw, at + 12, word), ip, TcpData(tcp.(headerLength := 20)), at + 20);
  }

  /** The header bytes that building a packet rewrites: the lengths and the checksums. */
  predicate Rewritten(ip: Ipv4HeaderData, transport: TransportHeaderData, k: nat) {
    var at := ip.headerLength;
    || 2 <= k < 4 || 10 <= k < 12
    || (if transport.TcpData? then at + 16 <= k < at + 18 else at + 4 <= k < at + 8)
  }

  ghost predicate SameElsewhere(ip: Ipv4HeaderData, transport: TransportHeaderData,
                                before: seq<byte>, after: seq<byte>) {
    |before| == |after| && forall k :: 0 <= k < |before| && !Rewritten(ip, transport, k) ==> after[k] == before[k]
  }

  /** The other bytes of the headers are as they were. */
  ghost predicate SameHeaders(ip: Ipv4HeaderData, transport: TransportHeaderData, before: seq<byte>, after: seq<byte>) {
    && |before| == |after|
    && forall k :: 0 <= k < ip.headerLength + transport.HeaderLength() && k < |before| && !Rewritten(ip, transport, k)
         ==> after[k] == before[k]
  }

  lemma SameElsewhereStep(ip: Ipv4HeaderData, transport: TransportHeaderData, before: seq<byte>, raw: seq<byte>,
                          w: nat, field: seq<byte>)
    requires SameElsewhere(ip, transport, before, raw) && w + |field| <= |raw|
    requires forall k :: w <= k < w + |field| ==> Rewritten(ip, transport, k)
    ensures SameElsewhere(ip, transport, before, Patch(raw, w, field))
  {}

  /** Where a built packet's bytes come from: the length fields first, then both checksums. */
  function Lengths(raw: seq<byte>, ip: Ipv4HeaderData, transport: TransportHeaderData, n: nat): (r: seq<byte>)
    requires ip.headerLength + transport.HeaderLength() + n < 0x1_0000
    requires 4 <= ip.headerLength && ip.headerLength + 8 <= |raw|
    ensures |r| == |raw|
  {
    var total := Patch(raw, 2, Encode16(ip.headerLength + transport.HeaderLength() + n));
    if transport.UdpData? then Patch(total, ip.headerLength + 4, Encode16(8 + n)) else total
  }

  function ChecksumIndex(ip: Ipv4HeaderData, transport: TransportHeaderData): nat {
    ip.headerLength + if transport.TcpData? then 16 else 6
  }

  lemma BuildWrites(raw: seq<byte>, ip: Ipv4HeaderData, transport: TransportHeaderData, n: nat, c: u16, c': u16)
    requires Shape(raw, ip, transport) && ip.headerLength + transport.HeaderLength() + n < 0x1_0000
    ensures var sized := Lengths(raw, ip, transport, n);
      var checked := Patch(sized, 10, Encode16(c));
      SameElsewhere(ip, transport, raw, Patch(checked, ChecksumIndex(ip, transport), Encode16(c')))
  {
    var total := Encode16(ip.headerLength + transport.HeaderLength() + n);
    var sized := Lengths(raw, ip, transport, n);
    SameElsewhereStep(ip, transport, raw, raw, 2, total);
    if transport.UdpData? {
      SameElsewhereStep(ip, transport, raw, Patch(raw, 2, total), ip.headerLength + 4, Encode16(8 + n));
    }
    SameElsewhereStep(ip, transport, raw, sized, 10, Encode16(c));
    SameElsewhereStep(ip, transport, raw, Patch(sized, 10, Encode16(c)), ChecksumIndex(ip, transport), Encode16(c'));
  }

  lemma UdpFields(raw: seq<byte>, ip: Ipv4HeaderData, transport: TransportHeaderData, n: nat, c: u16)
    requires Shape(raw, ip, transport) && ip.headerLength + transport.HeaderLength() + n < 0x1_0000
    requires transport.UdpData?
    ensures var checked := Patch(Lengths(raw, ip, transport, n), 10, Encode16(c));
      var built := Patch(checked, ip.headerLength + 6, Encode16(0));
      Be16(built, ip.headerLength + 4) == 8 + n && Be16(built, ip.headerLength + 6) == 0
  {
    var at := ip.headerLength;
    var sized := Lengths(raw, ip, transport, n);
    var checked := Patch(sized, 10, Encode16(c));
    PatchField16(Patch(raw, 2, Encode16(at + 8 + n)), at + 4, 8 + n);
    PatchApart(sized, 10, Encode16(c), at + 4);
    PatchApart(checked, at + 6, Encode16(0), at + 4);
    PatchField16(checked, at + 6, 0);
  }

  /** The built packet is sound when both checksum steps verified. */
  lemma BuildSound(raw: seq<byte>, ip: Ipv4HeaderData, transport: TransportHeaderData, n: nat, c: u16, c': u16)
    requires Shape(raw, ip, transport) && ip.headerLength + transport.HeaderLength() + n < 0x1_0000
    requires ip.headerLength + transport.HeaderLength() + n <= |raw|
    requires transport.UdpData? ==> c' == 0
    requires Ipv4Verifies(Patch(Lengths(raw, ip, transport, n), 10, Encode16(c))[..ip.headerLength])
    requires var at, end := ip.headerLength, ip.headerLength + transport.HeaderLength();
      var checked := Patch(Lengths(raw, ip, transport, n), 10, Encode16(c));
      var built := Patch(checked, ChecksumIndex(ip, transport), Encode16(c'));
      transport.TcpData? ==> TcpVerifies(ip.source, ip.destination, built[at..end], built[end..end + n])
    ensures
      var checked := Patch(Lengths(raw, ip, transport, n), 10, Encode16(c));
      var built := Patch(checked, ChecksumIndex(ip, transport), Encode16(c'));
      Sound(built[..ip.headerLength + transport.HeaderLength() + n], ip, transport)
  {
    hide Ipv4Verifies, TcpVerifies, Patch, Lengths;
    var at, end := ip.headerLength, ip.headerLength + transport.HeaderLength();
    var checked := Patch(Lengths(raw, ip, transport, n), 10, Encode16(c));
    var built := Patch(checked, ChecksumIndex(ip, transport), Encode16(c'));
    PatchSlice(checked, ChecksumIndex(ip, transport), Encode16(c'), 0, at);
    var packet := built[..end + n];
    assert packet[..at] == built[..at] == checked[..at];
    assert packet[at..end] == built[at..end] && packet[end..] == built[end..end + n];
    if transport.UdpData? {
      UdpFields(raw, ip, transport, n, c);
      assert Be16(packet, at + 4) == Be16(built, at + 4) && Be16(packet, at + 6) == Be16(built, at + 6);
    }
  }

  class Packetizer {
    const buffer: array<byte>
    const transportIndex: nat
    const payloadIndex: nat
    var ipv4: Ipv4HeaderData
    var transport: TransportHeaderData

    /** Cached headers and raw bytes agree. */
    ghost predicate Agree()
      reads this, buffer
    {
      && buffer.Length == MAX_PACKET_LENGTH
      && transportIndex == ipv4.headerLength
      && payloadIndex == transportIndex + transport.HeaderLength()
      && ipv4.headerLength % 4 == 0 && transport.HeaderLength() % 4 == 0
      && Coherent(buffer[..], ipv4, transport)
    }

    /** Copies the headers of a packet coming from the client, and turns them round. */
    constructor (reference: seq<byte>, ip: Ipv4HeaderData, tr: TransportHeaderData)
      requires Coherent(reference, ip, tr)
      requires ip.headerLength % 4 == 0 && tr.HeaderLength() % 4 == 0
      ensures Agree() && fresh(buffer)
      ensures ipv4 == ip.Swapped()
      ensures transport == tr.Swapped()
      ensures forall k :: 0 <= k < payloadIndex && !(12 <= k < 20) && !(transportIndex <= k < transportIndex + 4)
                ==> buffer[..][k] == reference[k]
    {
      buffer := new byte[MAX_PACKET_LENGTH](_ => 0);
      transportIndex := ip.headerLength;
      payloadIndex := ip.headerLength + tr.HeaderLength();
      ipv4 := ip.Swapped();
      transport := tr.Swapped();
      new;
      CopyTurned(buffer, reference, ip, tr);
    }

    method SetTotalLength(n: u16)
      requires Agree()
      modifies this`ipv4, buffer
      ensures Agree() && ipv4 == old(ipv4).(totalLength := n)
      ensures buffer[..] == Patch(old(buffer[..]), 2, Encode16(n))
    {
      SetTotalLengthKeeps(buffer[..], ipv4, transport, n);
      ipv4 := ipv4.(totalLength := n);
      CopyFromSlice(buffer, 2, Encode16(n));
    }

    method SetSequenceNumber(x: u32)
      requires Agree() && transport.TcpData?
      modifies this`transport, buffer
      ensures Agree() && transport == TcpData(old(transport.tcp).(seqNo := x))
      ensures buffer[..] == Patch(old(buffer[..]), transportIndex + 4, Encode32(x))
    {
      var at := transportIndex + 4;
      SetSequenceNumberParses(buffer[..], transportIndex, x);
      OtherWriteParsesIpv4(buffer[..], at, Encode32(x));
      transport := TcpData(transport.tcp.(seqNo := x));
      CopyFromSlice(buffer, at, Encode32(x));
    }

    method SetAcknowledgementNumber(x: u32)
      requires Agree() && transport.TcpData?
      modifies this`transport, buffer
      ensures Agree() && transport == TcpData(old(transport.tcp).(ackNo := x))
      ensures buffer[..] == Patch(old(buffer[..]), transportIndex + 8, Encode32(x))
    {
      var at := transportIndex + 8;
      SetAckNumberParses(buffer[..], transportIndex, x);
      OtherWriteParsesIpv4(buffer[..], at, Encode32(x));
      transport := TcpData(transport.tcp.(ackNo := x));
      CopyFromSlice(buffer, at, Encode32(x));
    }

    /** The cached flags keep all sixteen bits, the raw ones nine: they agree only on flags that fit. */
    method SetFlags(flags: u16)
      requires Agree() && transport.TcpData?
      modifies this`transport, buffer
      ensures Agree() <==> flags < 0x200
      ensures transport == TcpData(old(transport.tcp).(flags := flags))
      ensures Coherent(buffer[..], ipv4, TcpData(transport.tcp.(flags := flags % 0x200)))
    {
      var at := transportIndex + 12;
      var word := WithFlags(Be16(buffer[..], at), flags);
      SetFlagsParses(buffer[..], transportIndex, flags);
      OtherWriteParsesIpv4(buffer[..], at, Encode16(word));
      transport := TcpData(transport.tcp.(flags := flags));
      CopyFromSlice(buffer, at, Encode16(word));
    }

    /** Everything a built packet is. */
    ghost predicate Built(packet: seq<byte>)
      reads this, buffer
    {
      && Agree()
      && |packet| <= buffer.Length && packet == buffer[..|packet|]
      && ParsesTo(packet, ipv4, transport)
      && Sound(packet, ipv4, transport)
    }

    /** Only UDP stores its payload length. */
    method SetPayloadLength(n: u16)
      requires Agree() && (transport.UdpData? ==> n < 0xFFF8)
      modifies buffer
      ensures Agree()
      ensures buffer[..] == if transport.UdpData? then Patch(old(buffer[..]), transportIndex + 4, Encode16(8 + n))
                            else old(buffer[..])
    {
      if transport.UdpData? {
        OtherWriteKeeps(buffer[..], ipv4, transport, transportIndex + 4, Encode16(8 + n));
        CopyFromSlice(buffer, transportIndex + 4, Encode16(8 + n));
      }
    }

    method UpdateIpv4Checksum() returns (checksum: u16)
      requires Agree()
      modifies buffer
      ensures Agree()
      ensures Ipv4Verifies(buffer[..transportIndex])
      ensures buffer[..] == Patch(old(buffer[..]), 10, Encode16(checksum))
    {
      var raw := buffer[..];
      checksum := Ipv4Checksum(raw[..transportIndex]);
      OtherWriteKeeps(raw, ipv4, transport, 10, Encode16(checksum));
      PatchSlice(raw, 10, Encode16(checksum), 0, transportIndex);
      CopyFromSlice(buffer, 10, Encode16(checksum));
    }

    /** UDP checksums are switched off. */
    method UpdateTransportChecksum(total: u16) returns (checksum: u16)
      requires Agree() && payloadIndex <= total
      modifies buffer
      ensures Agree()
      ensures var at := transportIndex + if transport.TcpData? then 16 else 6;
        buffer[..] == Patch(old(buffer[..]), at, Encode16(checksum))
      ensures transport.TcpData? ==>
        TcpVerifies(ipv4.source, ipv4.destination, buffer[transportIndex..payloadIndex], buffer[payloadIndex..total])
      ensures transport.UdpData? ==> checksum == 0
    {
      var raw := buffer[..];
      if transport.TcpData? {
        checksum := TcpChecksum(ipv4.source, ipv4.destination,
                                raw[transportIndex..payloadIndex], raw[payloadIndex..total]);
        OtherWriteKeeps(raw, ipv4, transport, transportIndex + 16, Encode16(checksum));
        PatchSlice(raw, transportIndex + 16, Encode16(checksum), transportIndex, payloadIndex);
        PatchSlice(raw, transportIndex + 16, Encode16(checksum), payloadIndex, total);
        CopyFromSlice(buffer, transportIndex + 16, Encode16(checksum));
      } else {
        checksum := 0;
        OtherWriteKeeps(raw, ipv4, transport, transportIndex + 6, Encode16(0));
        CopyFromSlice(buffer, transportIndex + 6, Encode16(0));
      }
    }

    method Build(payloadLength: u16) returns (packet: seq<byte>)
      requires Agree() && payloadIndex + payloadLength < 0x1_0000
      modifies this`ipv4, buffer
      ensures |packet| == payloadIndex + payloadLength
      ensures Built(packet)
      ensures ipv4 == old(ipv4).(totalLength := |packet|)
      ensures SameElsewhere(ipv4, transport, old(buffer[..]), buffer[..])
    {
      hide Coherent, Patch, SameElsewhere, Sound, Ipv4Verifies, TcpVerifies;
      ghost var raw := buffer[..];
      CoherentShape(raw, ipv4, transport);
      var total: u16 := payloadIndex + payloadLength;
      SetTotalLength(total);
      SetPayloadLength(payloadLength);
      assert buffer[..] == Lengths(raw, ipv4, transport, payloadLength);
      var headerChecksum := UpdateIpv4Checksum();
      var checksum := UpdateTransportChecksum(total);
      BuildWrites(raw, ipv4, transport, payloadLength, headerChecksum, checksum);
      BuildSound(raw, ipv4, transport, payloadLength, headerChecksum, checksum);
      CoherentPrefix(buffer[..], ipv4, transport, total);
      packet := buffer[..total];
    }

    /** The stored packet again, with whatever its headers have become meanwhile. */
    method Inflate(length: u16) returns (packet: seq<byte>)
      requires Agree()
      ensures packet == buffer[..length]
    {
      packet := buffer[..length];
    }

    /** The receive call writes the payload at its place. */
    method Receive(payload: seq<byte>)
      requires Agree() && payloadIndex + |payload| <= MAX_PACKET_LENGTH
      modifies buffer
      ensures Agree()
      ensures buffer[..] == Patch(old(buffer[..]), payloadIndex, payload)
    {
      hide Patch, Coherent;
      CoherentShape(buffer[..], ipv4, transport);
      OtherWriteKeeps(buffer[..], ipv4, transport, payloadIndex, payload);
      CopyFromSlice(buffer, payloadIndex, payload);
    }

    /**
     One datagram into one packet.
     The 16-bit length sum overflows exactly when the datagram fills the buffer to its last byte.
     */
    method Packetize(received: Result<seq<byte>>) returns (r: Packetized)
      requires Agree()
      requires received.Ok? ==> payloadIndex + |received.value| <= MAX_PACKET_LENGTH
      modifies this`ipv4, buffer
      ensures Agree()
      ensures received.Err? ==> r == Failed(received.error) && ipv4 == old(ipv4) && buffer[..] == old(buffer[..])
      ensures received.Ok? ==> (r.Overflows? <==> payloadIndex + |received.value| == MAX_PACKET_LENGTH)
      ensures received.Ok? && !r.Overflows? ==> r.Packet? && Carries(r.raw, received.value)
      ensures r.Packet? ==> ipv4 == old(ipv4).(totalLength := |r.raw|)
      ensures r.Packet? ==> SameHeaders(ipv4, transport, old(buffer[..]), buffer[..])
    {
      if received.Err? {
        return Failed(received.error);
      }
      r := Fill(received.value);
    }

    /** A read of no byte is the end of the stream, and leaves the buffer alone. */
    method PacketizeRead(received: Result<seq<byte>>) returns (r: Packetized)
      requires Agree()
      requires received.Ok? ==> payloadIndex + |received.value| <= MAX_PACKET_LENGTH
      modifies this`ipv4, buffer
      ensures Agree()
      ensures received.Err? ==> r == Failed(received.error) && ipv4 == old(ipv4) && buffer[..] == old(buffer[..])
      ensures received.Ok? ==> (r.EndOfStream? <==> received.value == [])
      ensures r.EndOfStream? ==> ipv4 == old(ipv4) && buffer[..] == old(buffer[..])
      ensures received.Ok? ==> (r.Overflows? <==> payloadIndex + |received.value| == MAX_PACKET_LENGTH)
      ensures r.Packet? ==> Carries(r.raw, received.value) && ipv4 == old(ipv4).(totalLength := |r.raw|)
      ensures r.Packet? ==> SameHeaders(ipv4, transport, old(buffer[..]), buffer[..])
    {
      if received.Err? {
        return Failed(received.error);
      } else if received.value == [] {
        return EndOfStream;
      }
      r := Fill(received.value);
    }

    /** A sound packet with this payload behind its headers. */
    ghost predicate Carries(packet: seq<byte>, payload: seq<byte>)
      reads this, buffer
    {
      Built(packet) && payloadIndex <= |packet| && packet[payloadIndex..] == payload
    }

    method Fill(payload: seq<byte>) returns (r: Packetized)
      requires Agree() && payloadIndex + |payload| <= MAX_PACKET_LENGTH
      modifies this`ipv4, buffer
      ensures Agree()
      ensures r.Overflows? <==> payloadIndex + |payload| == MAX_PACKET_LENGTH
      ensures !r.Overflows? ==> r.Packet? && Carries(r.raw, payload) && ipv4 == old(ipv4).(totalLength := |r.raw|)
      ensures !r.Overflows? ==> SameHeaders(ipv4, transport, old(buffer[..]), buffer[..])
    {
      hide Coherent, Sound, SameElsewhere, Patch;
      CoherentShape(buffer[..], ipv4, transport);
      PatchedSlice(buffer[..], payloadIndex, payload);
      ghost var before := buffer[..];
      Receive(payload);
      if payloadIndex + |payload| > 0xFFFF {
        return Overflows;
      }
      ghost var filled := buffer[..];
      var packet := Build(|payload|);
      FilledPayload(filled, buffer[..], ipv4, transport, payload);
      FilledHeaders(before, buffer[..], ipv4, transport, payload);
      r := Packet(packet);
    }
  }

  datatype Packetized = Packet(raw: seq<byte>) | EndOfStream | Failed(error: IoError) | Overflows

  lemma FilledHeaders(before: seq<byte>, built: seq<byte>, ip: Ipv4HeaderData, transport: TransportHeaderData,
                      payload: seq<byte>)
    requires var end := ip.headerLength + transport.HeaderLength();
      end + |payload| <= |before| && SameElsewhere(ip, transport, Patch(before, end, payload), built)
    ensures SameHeaders(ip, transport, before, built)
  {}

  lemma PatchedSlice(raw: seq<byte>, at: nat, field: seq<byte>)
    requires at + |field| <= |raw|
    ensures Patch(raw, at, field)[at..at + |field|] == field
  {}

  lemma FilledPayload(filled: seq<byte>, built: seq<byte>, ip: Ipv4HeaderData, transport: TransportHeaderData,
                      payload: seq<byte>)
    requires Shape(filled, ip, transport) && SameElsewhere(ip, transport, filled, built)
    requires var end := ip.headerLength + transport.HeaderLength();
      end + |payload| <= |filled| && filled[end..end + |payload|] == payload
    ensures var end := ip.headerLength + transport.HeaderLength();
      built[..end + |payload|][end..] == payload
  {
    var end := ip.headerLength + transport.HeaderLength();
    forall k | end <= k < end + |payload|
      ensures built[k] == payload[k - end]
    {
      assert filled[k] == filled[end..end + |payload|][k - end];
    }
  }

  /** The answer to a client's packet: addresses and ports turned round, this payload, sound checksums. */
  method Answer(reference: seq<byte>, ip: Ipv4HeaderData, transport: TransportHeaderData, payload: seq<byte>)
    returns (packet: seq<byte>)
    requires Coherent(reference, ip, transport) && ip.headerLength % 4 == 0 && transport.HeaderLength() % 4 == 0
    requires ip.headerLength + transport.HeaderLength() + |payload| < 0x1_0000
    ensures |packet| == ip.headerLength + transport.HeaderLength() + |payload|
    ensures ParsesTo(packet, ip.Swapped().(totalLength := |packet|), transport.Swapped())
    ensures Sound(packet, ip.Swapped().(totalLength := |packet|), transport.Swapped())
    ensures packet[ip.headerLength + transport.HeaderLength()..] == payload
    ensures forall k :: 0 <= k < ip.headerLength + transport.HeaderLength() ==>
      packet[k] == reference[k]
      || 2 <= k < 4 || 10 <= k < 20 || 0 <= k - ip.headerLength < 4
      || (if transport.TcpData? then 16 <= k - ip.headerLength < 18 else 4 <= k - ip.headerLength < 8)
  {
    hide Coherent, Sound, SameHeaders;
    CoherentShape(reference, ip, transport);
    var packetizer := new Packetizer(reference, ip, transport);
    ghost var turned := packetizer.buffer[..];
    var r := packetizer.Packetize(Ok(payload));
    packet := r.raw;
    OtherBytes(reference, turned, packetizer.buffer[..], ip, transport, packetizer.ipv4);
  }

  /** Every other byte of the reference's headers comes back. */
  lemma OtherBytes(reference: seq<byte>, turned: seq<byte>, built: seq<byte>, ip: Ipv4HeaderData,
                   transport: TransportHeaderData, data: Ipv4HeaderData)
    requires var end := ip.headerLength + transport.HeaderLength();
      && end <= |reference| && end <= |turned|
      && (forall k :: 0 <= k < end && !(12 <= k < 20) && !(ip.headerLength <= k < ip.headerLength + 4) ==>
            turned[k] == reference[k])
    requires SameHeaders(data, transport.Swapped(), turned, built) && data.headerLength == ip.headerLength
    ensures |built| == |turned|
    ensures forall k :: 0 <= k < ip.headerLength + transport.HeaderLength() ==>
      built[k] == reference[k]
      || 2 <= k < 4 || 10 <= k < 20 || 0 <= k - ip.headerLength < 4
      || (if transport.TcpData? then 16 <= k - ip.headerLength < 18 else 4 <= k - ip.headerLength < 8)
  {}

  lemma CoherentLength(raw: seq<byte>, ip: Ipv4HeaderData, transport: TransportHeaderData)
    requires Coherent(raw, ip, transport)
    ensures Shape(raw, ip, transport) && Be16(raw, 2) == ip.totalLength
  {}

  lemma Be16Prefix(raw: seq<byte>, n: nat)
    requires 4 <= n <= |raw|
    ensures Be16(raw[..n], 2) == Be16(raw, 2)
  {}

  /**
   A packet left in the buffer while an empty one is built loses its declared length,
   exactly when it had a payload; its payload bytes stay.
   */
  method BuildOverDeferred(p: Packetizer, payload: seq<byte>) returns (deferred: seq<byte>, inflated: seq<byte>)
    requires p.Agree() && p.payloadIndex + |payload| < 0x1_0000
    modifies p`ipv4, p.buffer
    ensures p.Agree()
    ensures |inflated| == |deferred| == p.payloadIndex + |payload|
    ensures inflated[p.payloadIndex..] == deferred[p.payloadIndex..] == payload
    ensures Be16(deferred, 2) == |deferred|
    ensures Be16(inflated, 2) == p.payloadIndex
    ensures Be16(inflated, 2) == |inflated| <==> payload == []
  {
    hide Coherent, Sound, SameElsewhere, Be16;
    var r := p.Fill(payload);
    deferred := r.raw;
    CoherentLength(deferred, p.ipv4, p.transport);
    ghost var filled := p.buffer[..];
    var acknowledgement := p.Build(0);
    inflated := p.Inflate(|deferred|);
    CoherentLength(p.buffer[..], p.ipv4, p.transport);
    Be16Prefix(p.buffer[..], |inflated|);
    FilledPayload(filled, p.buffer[..], p.ipv4, p.transport, payload);
  }
}
