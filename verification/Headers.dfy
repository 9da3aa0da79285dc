/** IPv4, TCP and UDP headers: their cached fields, and where each lies in the raw bytes. */
module Headers {
  import opened Bytes
  import opened Checksum

  datatype Protocol = Tcp | Udp | Other

  datatype Ipv4HeaderData = Ipv4HeaderData(
    version: nat, headerLength: nat, totalLength: u16, protocol: Protocol, source: u32, destination: u32)
  {
    function Swapped(): Ipv4HeaderData { this.(source := destination, destination := source) }
  }

  datatype TcpHeaderData = TcpHeaderData(
    sourcePort: u16, destinationPort: u16, seqNo: u32, ackNo: u32, headerLength: nat, flags: u16, window: u16)

  datatype UdpHeaderData = UdpHeaderData(sourcePort: u16, destinationPort: u16)

  datatype TransportHeaderData = TcpData(tcp: TcpHeaderData) | UdpData(udp: UdpHeaderData) {
    function HeaderLength(): nat { if TcpData? then tcp.headerLength else 8 }

    function Swapped(): TransportHeaderData {
      if TcpData? then TcpData(tcp.(sourcePort := tcp.destinationPort, destinationPort := tcp.sourcePort))
      else UdpData(UdpHeaderData(udp.destinationPort, udp.sourcePort))
    }
  }

  function ProtocolOf(b: byte): Protocol { if b == 6 then Tcp else if b == 17 then Udp else Other }

  function ParseIpv4(raw: seq<byte>): Ipv4HeaderData
    requires |raw| >= 20
  {
    Ipv4HeaderData(raw[0] / 16, raw[0] % 16 * 4, Be16(raw, 2), ProtocolOf(raw[9]), Be32(raw, 12), Be32(raw, 16))
  }

  /** Bytes of a transport header that parsing reads. */
  function MinLength(p: Protocol): nat { if p == Tcp then 16 else if p == Udp then 4 else 0 }

  /** The bytes that parsing reads are there; otherwise it panics. */
  predicate ParseFits(raw: seq<byte>) {
    |raw| >= 20 && ParseIpv4(raw).headerLength + MinLength(ParseIpv4(raw).protocol) <= |raw|
  }

  function ParseTcp(raw: seq<byte>, at: nat): TcpHeaderData
    requires at + 16 <= |raw|
  {
    var offsetAndFlags := Be16(raw, at + 12);
    TcpHeaderData(Be16(raw, at), Be16(raw, at + 2), Be32(raw, at + 4), Be32(raw, at + 8),
                  offsetAndFlags / 0x1000 * 4, offsetAndFlags % 0x200, Be16(raw, at + 14))
  }

  function ParseTransport(p: Protocol, raw: seq<byte>, at: nat): Option<TransportHeaderData>
    requires at + MinLength(p) <= |raw|
  {
    match p
    case Tcp => Some(TcpData(ParseTcp(raw, at)))
    case Udp => Some(UdpData(UdpHeaderData(Be16(raw, at), Be16(raw, at + 2))))
    case Other => None
  }

  /** A field write leaves every field apart from it alone. */
  lemma PatchApart(raw: seq<byte>, at: nat, field: seq<byte>, i: nat)
    requires at + |field| <= |raw| && i + 2 <= |raw|
    requires i + 2 <= at || at + |field| <= i
    ensures Be16(Patch(raw, at, field), i) == Be16(raw, i)
    ensures Patch(raw, at, field)[i] == raw[i]
  {}

  lemma PatchField16(raw: seq<byte>, at: nat, x: u16)
    requires at + 2 <= |raw|
    ensures Be16(Patch(raw, at, Encode16(x)), at) == x
  {
    var after := Patch(raw, at, Encode16(x));
    assert after[at] == Encode16(x)[0] && after[at + 1] == Encode16(x)[1];
  }

  lemma PatchField32(raw: seq<byte>, at: nat, x: u32)
    requires at + 4 <= |raw|
    ensures Be32(Patch(raw, at, Encode32(x)), at) == x
  {
    var after := Patch(raw, at, Encode32(x));
    assert forall k :: 0 <= k < 4 ==> after[at + k] == Encode32(x)[k];
  }

  // ---- where the fields lie

  /** An IPv4 header laid out as section 3.1 of RFC 791 says is read back. */
  lemma Ipv4Layout(words: nat, service: byte, total: u16, fragment: seq<byte>, ttl: byte, protocol: byte,
                   checksum: u16, source: u32, destination: u32, rest: seq<byte>)
    requires words < 16 && |fragment| == 4
    ensures var raw := [0x40 + words, service] + Encode16(total) + fragment + [ttl, protocol] + Encode16(checksum)
                       + Encode32(source) + Encode32(destination) + rest;
      ParseIpv4(raw) == Ipv4HeaderData(
        4, 4 * words, total, if protocol == 6 then Tcp else if protocol == 17 then Udp else Other, source, destination)
  {
    var raw := [0x40 + words, service] + Encode16(total) + fragment + [ttl, protocol] + Encode16(checksum)
               + Encode32(source) + Encode32(destination) + rest;
    hide Encode16, Encode32, Be16, Be32;
    FieldAt16(raw, 2, total);
    FieldAt32(raw, 12, source);
    FieldAt32(raw, 16, destination);
  }

  /** And a TCP header laid out as section 3.1 of RFC 793 says. */
  lemma TcpLayout(before: seq<byte>, sourcePort: u16, destinationPort: u16, seqNo: u32, ackNo: u32, words: nat,
                  reserved: nat, flags: nat, window: u16, rest: seq<byte>)
    requires words < 16 && reserved < 8 && flags < 0x200
    ensures var raw := before + Encode16(sourcePort) + Encode16(destinationPort) + Encode32(seqNo) + Encode32(ackNo)
                       + Encode16(0x1000 * words + 0x200 * reserved + flags) + Encode16(window) + rest;
      ParseTransport(Tcp, raw, |before|)
        == Some(TcpData(TcpHeaderData(sourcePort, destinationPort, seqNo, ackNo, 4 * words, flags, window)))
  {
    hide Encode16, Encode32, Be16, Be32;
    var word: u16 := 0x1000 * words + 0x200 * reserved + flags;
    OffsetAndFlags(words, reserved, flags);
    var raw := before + Encode16(sourcePort) + Encode16(destinationPort) + Encode32(seqNo) + Encode32(ackNo)
               + Encode16(word) + Encode16(window) + rest;
    var at := |before|;
    FieldAt16(raw, at, sourcePort);
    FieldAt16(raw, at + 2, destinationPort);
    FieldAt32(raw, at + 4, seqNo);
    FieldAt32(raw, at + 8, ackNo);
    FieldAt16(raw, at + 12, word);
    FieldAt16(raw, at + 14, window);
  }

  lemma OffsetAndFlags(words: nat, reserved: nat, flags: nat)
    requires words < 16 && reserved < 8 && flags < 0x200
    ensures (0x1000 * words + 0x200 * reserved + flags) / 0x1000 == words
    ensures (0x1000 * words + 0x200 * reserved + flags) % 0x200 == flags
  {}

  lemma FieldAt16(raw: seq<byte>, at: nat, x: u16)
    requires at + 2 <= |raw| && raw[at..at + 2] == Encode16(x)
    ensures Be16(raw, at) == x
  {
    assert raw[at] == raw[at..at + 2][0] && raw[at + 1] == raw[at..at + 2][1];
  }

  lemma FieldAt32(raw: seq<byte>, at: nat, x: u32)
    requires at + 4 <= |raw| && raw[at..at + 4] == Encode32(x)
    ensures Be32(raw, at) == x
  {
    var field := raw[at..at + 4];
    assert field[0] == raw[at] && field[1] == raw[at + 1] && field[2] == raw[at + 2] && field[3] == raw[at + 3];
  }

  /** What parsing needs: the words of the IPv4 header, and then 16 bytes of TCP or 4 of UDP. */
  lemma ParseFitsWhere(raw: seq<byte>)
    ensures ParseFits(raw) <==>
      && |raw| >= 20
      && raw[0] % 16 * 4 + (if raw[9] == 6 then 16 else if raw[9] == 17 then 4 else 0) <= |raw|
  {}

  /** And a UDP header, as RFC 768 says. */
  lemma UdpLayout(before: seq<byte>, sourcePort: u16, destinationPort: u16, rest: seq<byte>)
    ensures ParseTransport(Udp, before + Encode16(sourcePort) + Encode16(destinationPort) + rest, |before|)
      == Some(UdpData(UdpHeaderData(sourcePort, destinationPort)))
  {
    var raw := before + Encode16(sourcePort) + Encode16(destinationPort) + rest;
    hide Encode16;
    FieldAt16(raw, |before|, sourcePort);
    FieldAt16(raw, |before| + 2, destinationPort);
  }

  // ---- what the setters do to the parsed fields

  lemma SetTotalLengthParses(raw: seq<byte>, n: u16)
    requires |raw| >= 20
    ensures ParseIpv4(Patch(raw, 2, Encode16(n))) == ParseIpv4(raw).(totalLength := n)
  {
    PatchField16(raw, 2, n);
    PatchApart(raw, 2, Encode16(n), 0);
    PatchApart(raw, 2, Encode16(n), 9);
    forall i | 12 <= i <= 18
      ensures Be16(Patch(raw, 2, Encode16(n)), i) == Be16(raw, i)
    {
      PatchApart(raw, 2, Encode16(n), i);
    }
  }

  /** Writes outside the parsed IPv4 fields. */
  lemma OtherWriteParsesIpv4(raw: seq<byte>, at: nat, field: seq<byte>)
    requires |raw| >= 20 && at + |field| <= |raw| && (20 <= at || (at == 10 && |field| == 2))
    ensures ParseIpv4(Patch(raw, at, field)) == ParseIpv4(raw)
  {
    forall i | (0 <= i <= 8) || (12 <= i <= 18)
      ensures Be16(Patch(raw, at, field), i) == Be16(raw, i) && Patch(raw, at, field)[i] == raw[i]
    {
      PatchApart(raw, at, field, i);
    }
    assert Patch(raw, at, field)[9] == raw[9];
  }

  /** Writes outside the transport header's parsed fields. */
  lemma OtherWriteParsesTransport(p: Protocol, raw: seq<byte>, at: nat, w: nat, field: seq<byte>)
    requires p != Other && at + MinLength(p) <= |raw| && w + |field| <= |raw|
    requires w + |field| <= at || at + 16 <= w || (p == Udp && at + 4 <= w)
    ensures ParseTransport(p, Patch(raw, w, field), at) == ParseTransport(p, raw, at)
  {
    forall i | at <= i <= at + (if p == Udp then 2 else 14)
      ensures Be16(Patch(raw, w, field), i) == Be16(raw, i)
    {
      PatchApart(raw, w, field, i);
    }
  }

  lemma SetSequenceNumberParses(raw: seq<byte>, at: nat, x: u32)
    requires at + 20 <= |raw|
    ensures ParseTcp(Patch(raw, at + 4, Encode32(x)), at)
      == ParseTcp(raw, at).(seqNo := x)
  {
    PatchField32(raw, at + 4, x);
    forall i | at <= i <= at + 2 || at + 8 <= i <= at + 14
      ensures Be16(Patch(raw, at + 4, Encode32(x)), i) == Be16(raw, i)
    {
      PatchApart(raw, at + 4, Encode32(x), i);
    }
  }

  lemma SetAckNumberParses(raw: seq<byte>, at: nat, x: u32)
    requires at + 20 <= |raw|
    ensures ParseTcp(Patch(raw, at + 8, Encode32(x)), at)
      == ParseTcp(raw, at).(ackNo := x)
  {
    PatchField32(raw, at + 8, x);
    forall i | at <= i <= at + 6 || at + 12 <= i <= at + 14
      ensures Be16(Patch(raw, at + 8, Encode32(x)), i) == Be16(raw, i)
    {
      PatchApart(raw, at + 8, Encode32(x), i);
    }
  }

  /** The word that set_flags writes: the upper seven bits stay, the lower nine are replaced. */
  function WithFlags(offsetAndFlags: u16, flags: u16): u16 { offsetAndFlags / 0x200 * 0x200 + flags % 0x200 }

  lemma WithFlagsParts(offsetAndFlags: u16, flags: u16)
    ensures WithFlags(offsetAndFlags, flags) / 0x1000 == offsetAndFlags / 0x1000
    ensures WithFlags(offsetAndFlags, flags) % 0x200 == flags % 0x200
  {}

  /** Cached and raw flags agree exactly when the flags fit their nine bits. */
  lemma SetFlagsParses(raw: seq<byte>, at: nat, flags: u16)
    requires at + 20 <= |raw|
    ensures ParseTcp(Patch(raw, at + 12, Encode16(WithFlags(Be16(raw, at + 12), flags))), at)
      == ParseTcp(raw, at).(flags := flags % 0x200)
    ensures flags % 0x200 == flags <==> flags < 0x200
  {
    var word := WithFlags(Be16(raw, at + 12), flags);
    PatchField16(raw, at + 12, word);
    WithFlagsParts(Be16(raw, at + 12), flags);
    hide WithFlags, Patch;
    forall i | at <= i <= at + 10 || i == at + 14
      ensures Be16(Patch(raw, at + 12, Encode16(word)), i) == Be16(raw, i)
    {
      PatchApart(raw, at + 12, Encode16(word), i);
    }
  }

  /** The word that set_data_offset writes for a header of five words. */
  function WithFiveWords(offsetAndFlags: u16): u16 { offsetAndFlags % 0x1000 + 0x5000 }

  lemma WithFiveWordsParts(offsetAndFlags: u16)
    ensures WithFiveWords(offsetAndFlags) / 0x1000 == 5
    ensures WithFiveWords(offsetAndFlags) % 0x200 == offsetAndFlags % 0x200
  {}

  /** Shrinking the options leaves a header of five words and everything else. */
  lemma ShrinkOptionsParses(raw: seq<byte>, at: nat)
    requires at + 20 <= |raw|
    ensures ParseTcp(Patch(raw, at + 12, Encode16(WithFiveWords(Be16(raw, at + 12)))), at)
      == ParseTcp(raw, at).(headerLength := 20)
  {
    var word := WithFiveWords(Be16(raw, at + 12));
    WithFiveWordsParts(Be16(raw, at + 12));
    PatchField16(raw, at + 12, word);
    hide Patch, WithFiveWords;
    forall i | at <= i <= at + 10 || i == at + 14
      ensures Be16(Patch(raw, at + 12, Encode16(word)), i) == Be16(raw, i)
    {
      PatchApart(raw, at + 12, Encode16(word), i);
    }
  }

  // ---- checksums

  /** The pseudo-header of section 3.1 of RFC 793: addresses, protocol 6 and length. */
  function PseudoHeader(source: u32, destination: u32, transportLength: u16): (s: seq<byte>)
    ensures |s| == 12
  {
    Encode32(source) + Encode32(destination) + [0, 6] + Encode16(transportLength)
  }

  /** The bytes that the TCP checksum covers. */
  function Covered(source: u32, destination: u32, header: seq<byte>, payload: seq<byte>): seq<byte> {
    PseudoHeader(source, destination, (|header| + |payload|) % 0x1_0000) + header + payload
  }

  /** The sum of the pseudo-header's words, as the code adds them up. */
  function PseudoSum(source: u32, destination: u32, transportLength: nat): nat {
    6 + source / 0x1_0000 + source % 0x1_0000 + destination / 0x1_0000 + destination % 0x1_0000 + transportLength
  }

  ghost predicate Ipv4Verifies(header: seq<byte>) { Fold(WordSum(header)) == 0xFFFF }

  ghost predicate TcpVerifies(source: u32, destination: u32, header: seq<byte>, payload: seq<byte>) {
    Fold(WordSum(Covered(source, destination, header, payload))) == 0xFFFF
  }

  lemma PseudoSumIsSum(source: u32, destination: u32, n: u16)
    ensures PseudoSum(source, destination, n) == WordSum(PseudoHeader(source, destination, n))
  {
    var a, b, c, d := Encode32(source), Encode32(destination), [0, 6], Encode16(n);
    WordSumAppend(a + b + c, d);
    WordSumAppend(a + b, c);
    WordSumAppend(a, b);
    WordSumOfTwo(source);
    WordSumOfTwo(destination);
    WordSumOfWord(c);
    WordSumOfWord(d);
  }

  lemma WordSumOfTwo(x: u32)
    ensures WordSum(Encode32(x)) == x / 0x1_0000 + x % 0x1_0000
  {
    var s := Encode32(x);
    WordSumOfWord(s[2..]);
    HalvesOf(x);
  }

  lemma HalvesOf(x: u32)
    ensures Be16(Encode32(x), 0) == x / 0x1_0000 && Be16(Encode32(x)[2..], 0) == x % 0x1_0000
  {}

  /** Adding part by part is adding word by word. */
  lemma CoveredSum(source: u32, destination: u32, header: seq<byte>, payload: seq<byte>)
    requires |header| % 2 == 0 && |header| + |payload| < 0x1_0000
    ensures WordSum(Covered(source, destination, header, payload))
      == PseudoSum(source, destination, |header| + |payload|) + WordSum(header) + WordSum(payload)
  {
    hide PseudoHeader, PseudoSum, WordSum;
    var pseudo := PseudoHeader(source, destination, |header| + |payload|);
    PseudoSumIsSum(source, destination, |header| + |payload|);
    WordSumAppend(pseudo + header, payload);
    WordSumAppend(pseudo, header);
  }

  /** The IPv4 header checksum, over the words before and behind its own field. */
  method Ipv4Checksum(header: seq<byte>) returns (checksum: u16)
    requires 20 <= |header| <= 60 && |header| % 4 == 0
    ensures checksum == Complement(WordSum(Patch(header, 10, [0, 0])))
    ensures Ipv4Verifies(Patch(header, 10, Encode16(checksum)))
  {
    var j := |header| / 2;
    var sum: u32 := 0;
    ghost var blank := Patch(header, 10, [0, 0]);
    for i := 0 to j
      invariant sum == WordSum(blank[..2 * i]) <= 0xFFFF * i
    {
      WordSumStep(blank, 2 * i);
      if i != 5 {
        assert Be16(blank, 2 * i) == Be16(header, 2 * i);
        sum := sum + Be16(header, 2 * i);
      } else {
        assert blank[10] == 0 && blank[11] == 0;
      }
    }
    assert blank[..2 * j] == blank;
    var folded := FoldLoop(sum);
    checksum := 0xFFFF - folded;
    WordSumField(header, 10, checksum);
    ComplementVerifies(sum);
  }

  /** The optimised TCP checksum equals the word-by-word one, and the receiver's sum verifies it. */
  method TcpChecksum(source: u32, destination: u32, header: seq<byte>, payload: seq<byte>)
    returns (checksum: u16)
    requires 20 <= |header| <= 60 && |header| % 4 == 0 && |header| + |payload| < 0x1_0000
    ensures checksum == Complement(WordSum(Covered(source, destination, Patch(header, 16, [0, 0]), payload)))
    ensures TcpVerifies(source, destination, Patch(header, 16, Encode16(checksum)), payload)
  {
    var sum: u32 := 6;
    sum := sum + source / 0x1_0000;
    sum := sum + source % 0x1_0000;
    sum := sum + destination / 0x1_0000;
    sum := sum + destination % 0x1_0000;
    sum := sum + (|header| + |payload|);
    var highSum: u32 := 0;
    var blank := Patch(header, 16, [0, 0]);
    highSum, sum := AddBytes(blank, highSum, sum);
    highSum, sum := AddBytes(payload, highSum, sum);
    sum := sum + 0x100 * highSum;
    var folded := FoldLoop(sum);
    checksum := 0xFFFF - folded;
    WordSumField(header, 16, checksum);
    ComplementVerifies(sum);
    CoveredSum(source, destination, blank, payload);
    CoveredSum(source, destination, Patch(header, 16, Encode16(checksum)), payload);
  }
}
