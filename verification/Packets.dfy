/** Packet formats: building into a buffer, parsing, and the proof that parsing inverts building. */
module Packets {
  import opened Bits
  import opened Options
  import opened Checksum

  type Address = a: seq<byte> | |a| == 4 witness [0, 0, 0, 0]
  type Hardware = a: seq<byte> | |a| == 6 witness [0, 0, 0, 0, 0, 0]

  // ------------------------------------------------------------ writing into a buffer

  /** `s` with `data` written at `at`. */
  function Put(s: seq<byte>, at: nat, data: seq<byte>): (r: seq<byte>)
    requires at + |data| <= |s|
    ensures |r| == |s|
  {
    s[..at] + data + s[at + |data|..]
  }

  /** The byte loops of the builders. */
  method Store(buffer: array<byte>, at: nat, data: seq<byte>)
    requires at + |data| <= buffer.Length
    modifies buffer
    ensures buffer[..] == Put(old(buffer[..]), at, data)
  {
    var i := 0;
    while i < |data|
      invariant 0 <= i <= |data|
      invariant forall k :: 0 <= k < i ==> buffer[at + k] == data[k]
      invariant forall k :: 0 <= k < buffer.Length && !(at <= k < at + i) ==> buffer[k] == old(buffer[k])
    {
      buffer[at + i] := data[i];
      i := i + 1;
    }
  }

  /** Writing a header, a payload behind it and then a field of the header. */
  lemma PutAll(s: seq<byte>, header: seq<byte>, payload: seq<byte>, at: nat, field: seq<byte>)
    requires |header| + |payload| <= |s| && at + |field| <= |header|
    ensures Put(Put(Put(s, 0, header), |header|, payload), at, field)[..|header| + |payload|]
         == Put(header, at, field) + payload
  {}

  // ------------------------------------------------------------ pseudo headers

  function PseudoSum(source: Address, destination: Address, protocol: byte, length: u16): (s: nat) {
    WordSum(source) + WordSum(destination) + protocol + length
  }

  lemma PseudoSumBound(source: Address, destination: Address, protocol: byte, length: u16, packet: seq<byte>)
    requires |packet| <= 0xffff
    ensures PseudoSum(source, destination, protocol, length) + WordSum(packet) < 0x1_0000_0000
  {
    WordSumBound(source);
    WordSumBound(destination);
    WordSumBound(packet);
  }

  /** The checksum field of a packet with the given pseudo header. */
  function TransportChecksum(source: Address, destination: Address, protocol: byte, packet: seq<byte>): (c: u16)
    requires |packet| <= 0xffff
  {
    0xffff - Folded(PseudoSum(source, destination, protocol, |packet|) + WordSum(packet))
  }

  method ComputeTransportChecksum(source: Address, destination: Address, protocol: byte, packet: seq<byte>)
    returns (c: u16)
    requires |packet| <= 0xffff
    ensures c == TransportChecksum(source, destination, protocol, packet)
  {
    PseudoSumBound(source, destination, protocol, |packet|, packet);
    var sum := AddBytes(0, source);
    sum := AddBytes(sum, destination);
    sum := sum + protocol;
    sum := sum + |packet|;
    sum := AddBytes(sum, packet);
    c := FoldAndComplement(sum);
  }

  // ------------------------------------------------------------ TCP

  const TCP_HEADER := 20

  datatype TcpSegment = TcpSegment(sourcePort: u16, destinationPort: u16, sequence: u32, acknowledgment: u32,
                                   flags: byte, window: u16, payload: seq<byte>)

  predicate Fin(flags: byte) { flags % 2 == 1 }
  predicate Syn(flags: byte) { flags / 2 % 2 == 1 }
  predicate Rst(flags: byte) { flags / 4 % 2 == 1 }
  predicate Ack(flags: byte) { flags / 16 % 2 == 1 }

  /** What the segment builder accepts. */
  predicate TcpBuildable(s: TcpSegment) {
    s.sourcePort != 0 && s.destinationPort != 0 && !(Syn(s.flags) && Fin(s.flags)) && |s.payload| <= 0xffff - TCP_HEADER
  }

  function TcpHeader(s: TcpSegment, checksum: u16): (h: seq<byte>)
    ensures |h| == TCP_HEADER
  {
    [s.sourcePort / 256, s.sourcePort % 256, s.destinationPort / 256, s.destinationPort % 256]
    + Be32(s.sequence) + Be32(s.acknowledgment)
    + [0x50, s.flags, s.window / 256, s.window % 256, checksum / 256, checksum % 256, 0, 0]
  }

  function TcpPacket(source: Address, destination: Address, s: TcpSegment): (p: seq<byte>)
    requires TcpBuildable(s)
    ensures |p| == TCP_HEADER + |s.payload|
  {
    TcpHeader(s, TransportChecksum(source, destination, 6, TcpHeader(s, 0) + s.payload)) + s.payload
  }

  datatype TcpView = TcpView(segment: TcpSegment, dataOffset: nat, urgent: u16)

  function TcpParse(packet: seq<byte>, source: Address, destination: Address): (v: Option<TcpView>)
    requires |packet| <= 0xffff
  {
    if |packet| < TCP_HEADER then None
    else
      var offset, flags := packet[12] / 16, packet[13];
      if offset < 5 || offset * 4 > |packet| || Load16(packet, 0) == 0 || Load16(packet, 2) == 0 || packet[12] % 16 != 0
         || (Syn(flags) && Fin(flags)) || TransportChecksum(source, destination, 6, packet) != 0 then None
      else Some(TcpView(TcpSegment(Load16(packet, 0), Load16(packet, 2), Load32(packet, 4), Load32(packet, 8), flags,
                                   Load16(packet, 14), packet[offset * 4..]), offset, Load16(packet, 18)))
  }

  /** The header around its checksum field. */
  lemma TcpHeaderSplit(s: TcpSegment, c: u16)
    ensures TcpHeader(s, c)[..16] == TcpHeader(s, 0)[..16]
    ensures TcpHeader(s, c) == TcpHeader(s, 0)[..16] + Be16(c) + [0, 0]
    ensures Put(TcpHeader(s, 0), 16, Be16(c)) == TcpHeader(s, c)
  {}

  /** The field stored by the builder always verifies. */
  lemma TcpVerifies(source: Address, destination: Address, s: TcpSegment)
    requires TcpBuildable(s)
    ensures TransportChecksum(source, destination, 6, TcpPacket(source, destination, s)) == 0
  {
    var zero := TcpHeader(s, 0) + s.payload;
    var c := TransportChecksum(source, destination, 6, zero);
    var head, tail := TcpHeader(s, 0)[..16], [0, 0] + s.payload;
    TcpHeaderSplit(s, c);
    TcpHeaderSplit(s, 0);
    assert TcpPacket(source, destination, s) == head + Be16(c) + tail;
    assert zero == head + Be16(0) + tail;
    SumWithField(head, c, tail);
    SumWithField(head, 0, tail);
    ChecksumVerifies(PseudoSum(source, destination, 6, |zero|) + WordSum(zero), c);
  }

  lemma TcpFields(s: TcpSegment, c: u16, payload: seq<byte>)
    ensures var p := TcpHeader(s, c) + payload;
      && Load16(p, 0) == s.sourcePort && Load16(p, 2) == s.destinationPort
      && Load32(p, 4) == s.sequence && Load32(p, 8) == s.acknowledgment
      && p[12] == 0x50 && p[13] == s.flags && Load16(p, 14) == s.window && Load16(p, 18) == 0 && p[20..] == payload
  {}

  /** Parsing a built segment recovers every field. */
  lemma TcpRoundTrip(source: Address, destination: Address, s: TcpSegment)
    requires TcpBuildable(s)
    ensures TcpParse(TcpPacket(source, destination, s), source, destination) == Some(TcpView(s, 5, 0))
  {
    hide TransportChecksum, TcpHeader, Load16, Load32;
    TcpVerifies(source, destination, s);
    TcpFields(s, TransportChecksum(source, destination, 6, TcpHeader(s, 0) + s.payload), s.payload);
  }

  method TcpBuild(packet: array<byte>, source: Address, destination: Address, s: TcpSegment)
    returns (ok: bool, length: nat)
    modifies packet
    ensures ok <==> TcpBuildable(s) && TCP_HEADER + |s.payload| <= packet.Length
    ensures ok ==> length == TCP_HEADER + |s.payload| && packet[..length] == TcpPacket(source, destination, s)
    ensures !ok ==> packet[..] == old(packet[..])
  {
    length := 0;
    if s.sourcePort == 0 || s.destinationPort == 0 || (Syn(s.flags) && Fin(s.flags))
      || |s.payload| > 0xffff - TCP_HEADER {
      return false, 0;
    }
    length := TCP_HEADER + |s.payload|;
    if packet.Length < length {
      return false, 0;
    }
    ghost var before := packet[..];
    Store(packet, 0, TcpHeader(s, 0));
    Store(packet, TCP_HEADER, s.payload);
    assert packet[..length] == TcpHeader(s, 0) + s.payload;
    var c := ComputeTransportChecksum(source, destination, 6, packet[..length]);
    Store(packet, 16, Be16(c));
    PutAll(before, TcpHeader(s, 0), s.payload, 16, Be16(c));
    TcpHeaderSplit(s, c);
    ok := true;
  }

  // ------------------------------------------------------------ UDP

  const UDP_HEADER := 8

  datatype UdpDatagram = UdpDatagram(sourcePort: u16, destinationPort: u16, payload: seq<byte>)

  predicate UdpBuildable(d: UdpDatagram) {
    d.sourcePort != 0 && d.destinationPort != 0 && |d.payload| <= 0xffff - UDP_HEADER
  }

  /** A checksum of zero is sent as all ones, since zero means that there is none. */
  function UdpChecksum(source: Address, destination: Address, packet: seq<byte>): (c: u16)
    requires |packet| <= 0xffff
  {
    var c := TransportChecksum(source, destination, 17, packet);
    if c == 0 then 0xffff else c
  }

  /** Header and payload are summed one after the other. */
  method ComputeUdpChecksum(source: Address, destination: Address, packet: seq<byte>) returns (c: u16)
    requires UDP_HEADER <= |packet| <= 0xffff
    ensures c == UdpChecksum(source, destination, packet)
  {
    PseudoSumBound(source, destination, 17, |packet|, packet);
    WordSumAppend(packet[..UDP_HEADER], packet[UDP_HEADER..]);
    assert packet == packet[..UDP_HEADER] + packet[UDP_HEADER..];
    var sum := AddBytes(0, source);
    sum := AddBytes(sum, destination);
    sum := sum + 17;
    sum := sum + |packet|;
    sum := AddBytes(sum, packet[..UDP_HEADER]);
    sum := AddBytes(sum, packet[UDP_HEADER..]);
    c := FoldAndComplement(sum);
    if c == 0 {
      c := 0xffff;
    }
  }

  function UdpHeader(d: UdpDatagram, length: u16, checksum: u16): (h: seq<byte>)
    ensures |h| == UDP_HEADER
  {
    Be16(d.sourcePort) + Be16(d.destinationPort) + Be16(length) + Be16(checksum)
  }

  function UdpPacket(source: Address, destination: Address, d: UdpDatagram): (p: seq<byte>)
    requires UdpBuildable(d)
    ensures |p| == UDP_HEADER + |d.payload|
  {
    var n := UDP_HEADER + |d.payload|;
    UdpHeader(d, n, UdpChecksum(source, destination, UdpHeader(d, n, 0) + d.payload)) + d.payload
  }

  function UdpParse(packet: seq<byte>, source: Address, destination: Address): (v: Option<UdpDatagram>)
    requires |packet| <= 0xffff
  {
    if |packet| < UDP_HEADER then None
    else
      var length, checksum := Load16(packet, 4), Load16(packet, 6);
      if Load16(packet, 0) == 0 || Load16(packet, 2) == 0 || length < UDP_HEADER || length > |packet|
         || (checksum != 0 && UdpChecksum(source, destination, packet[..length]) != 0xffff) then None
      else Some(UdpDatagram(Load16(packet, 0), Load16(packet, 2), packet[UDP_HEADER..length]))
  }

  lemma UdpFields(d: UdpDatagram, length: u16, c: u16, payload: seq<byte>)
    ensures var p := UdpHeader(d, length, c) + payload;
      && Load16(p, 0) == d.sourcePort && Load16(p, 2) == d.destinationPort && Load16(p, 4) == length
        && Load16(p, 6) == c
      && p[8..] == payload
  {}

  lemma UdpHeaderSplit(d: UdpDatagram, length: u16, c: u16)
    ensures UdpHeader(d, length, c)[..6] == UdpHeader(d, length, 0)[..6]
    ensures UdpHeader(d, length, c) == UdpHeader(d, length, 0)[..6] + Be16(c) + []
    ensures Put(UdpHeader(d, length, 0), 6, Be16(c)) == UdpHeader(d, length, c)
  {}

  lemma UdpVerifies(source: Address, destination: Address, d: UdpDatagram)
    requires UdpBuildable(d)
    ensures UdpChecksum(source, destination, UdpPacket(source, destination, d)) == 0xffff
  {
    var n := UDP_HEADER + |d.payload|;
    var zero := UdpHeader(d, n, 0) + d.payload;
    var c := UdpChecksum(source, destination, zero);
    var head := UdpHeader(d, n, 0)[..6];
    UdpHeaderSplit(d, n, c);
    UdpHeaderSplit(d, n, 0);
    assert UdpPacket(source, destination, d) == head + Be16(c) + d.payload;
    assert zero == head + Be16(0) + d.payload;
    SumWithField(head, c, d.payload);
    SumWithField(head, 0, d.payload);
    ChecksumVerifies(PseudoSum(source, destination, 17, n) + WordSum(zero), c);
  }

  /** Parsing recovers the datagram, also from a packet with bytes behind it. */
  lemma UdpRoundTrip(source: Address, destination: Address, d: UdpDatagram, behind: seq<byte>)
    requires UdpBuildable(d) && UDP_HEADER + |d.payload| + |behind| <= 0xffff
    ensures UdpParse(UdpPacket(source, destination, d) + behind, source, destination) == Some(d)
  {
    hide UdpChecksum, UdpHeader, Load16;
    var n := UDP_HEADER + |d.payload|;
    var packet := UdpPacket(source, destination, d);
    var c := UdpChecksum(source, destination, UdpHeader(d, n, 0) + d.payload);
    UdpVerifies(source, destination, d);
    UdpFields(d, n, c, d.payload + behind);
    assert packet + behind == UdpHeader(d, n, c) + (d.payload + behind);
    assert (packet + behind)[..n] == packet;
    assert (packet + behind)[UDP_HEADER..n] == d.payload;
  }

  method UdpBuild(packet: array<byte>, source: Address, destination: Address, d: UdpDatagram)
    returns (ok: bool, length: nat)
    modifies packet
    ensures ok <==> UdpBuildable(d) && UDP_HEADER + |d.payload| <= packet.Length
    ensures ok ==> length == UDP_HEADER + |d.payload| && packet[..length] == UdpPacket(source, destination, d)
    ensures !ok ==> packet[..] == old(packet[..])
  {
    length := 0;
    if d.sourcePort == 0 || d.destinationPort == 0 || |d.payload| > 0xffff - UDP_HEADER {
      return false, 0;
    }
    length := UDP_HEADER + |d.payload|;
    if packet.Length < length {
      return false, 0;
    }
    ghost var before := packet[..];
    Store(packet, 0, UdpHeader(d, length, 0));
    Store(packet, UDP_HEADER, d.payload);
    assert packet[..length] == UdpHeader(d, length, 0) + d.payload;
    var c := ComputeUdpChecksum(source, destination, packet[..length]);
    Store(packet, 6, Be16(c));
    PutAll(before, UdpHeader(d, length, 0), d.payload, 6, Be16(c));
    UdpHeaderSplit(d, length, c);
    ok := true;
  }

  // ------------------------------------------------------------ ICMP echo and the plain checksum

  /** The checksum of IPv4 headers and ICMP messages. */
  function PlainChecksum(data: seq<byte>): (c: u16) {
    0xffff - Folded(WordSum(data))
  }

  method ComputePlainChecksum(data: seq<byte>) returns (c: u16)
    requires |data| <= 0xffff
    ensures c == if data == [] then 0 else PlainChecksum(data)
  {
    if data == [] {
      return 0;
    }
    WordSumBound(data);
    var sum := AddBytes(0, data);
    c := FoldAndComplement(sum);
  }

  lemma PlainVerifies(head: seq<byte>, tail: seq<byte>)
    requires |head| % 2 == 0
    ensures PlainChecksum(head + Be16(PlainChecksum(head + Be16(0) + tail)) + tail) == 0
  {
    var c := PlainChecksum(head + Be16(0) + tail);
    SumWithField(head, c, tail);
    SumWithField(head, 0, tail);
    ChecksumVerifies(WordSum(head + Be16(0) + tail), c);
  }

  const ICMP_HEADER := 8

  datatype IcmpEcho = IcmpEcho(kind: byte, identifier: u16, sequence: u16, payload: seq<byte>)

  predicate IcmpBuildable(e: IcmpEcho) {
    (e.kind == 8 || e.kind == 0) && |e.payload| <= 0xffff - ICMP_HEADER
  }

  function IcmpBytes(e: IcmpEcho, checksum: u16): (p: seq<byte>)
    ensures |p| == ICMP_HEADER + |e.payload|
  {
    [e.kind, 0] + Be16(checksum) + (Be16(e.identifier) + Be16(e.sequence) + e.payload)
  }

  function IcmpPacket(e: IcmpEcho): (p: seq<byte>)
    requires IcmpBuildable(e)
    ensures |p| == ICMP_HEADER + |e.payload|
  {
    IcmpBytes(e, PlainChecksum(IcmpBytes(e, 0)))
  }

  function IcmpParse(packet: seq<byte>): (v: Option<IcmpEcho>) {
    if |packet| < ICMP_HEADER || (packet[0] != 8 && packet[0] != 0) || packet[1] != 0 || PlainChecksum(packet) != 0
      then None
    else Some(IcmpEcho(packet[0], Load16(packet, 4), Load16(packet, 6), packet[ICMP_HEADER..]))
  }

  lemma IcmpFields(e: IcmpEcho, c: u16)
    ensures var p := IcmpBytes(e, c);
      p[0] == e.kind && p[1] == 0 && Load16(p, 4) == e.identifier && Load16(p, 6) == e.sequence && p[8..] == e.payload
  {}

  lemma IcmpRoundTrip(e: IcmpEcho)
    requires IcmpBuildable(e)
    ensures IcmpParse(IcmpPacket(e)) == Some(e)
  {
    var c := PlainChecksum(IcmpBytes(e, 0));
    IcmpFields(e, c);
    PlainVerifies([e.kind, 0], Be16(e.identifier) + Be16(e.sequence) + e.payload);
  }

  /** The header before its checksum is known. */
  function IcmpHeader(e: IcmpEcho): (h: seq<byte>)
    ensures |h| == ICMP_HEADER
  {
    [e.kind, 0, 0, 0] + Be16(e.identifier) + Be16(e.sequence)
  }

  lemma IcmpHeaderSplit(e: IcmpEcho, c: u16)
    ensures Put(IcmpHeader(e), 2, Be16(c)) + e.payload == IcmpBytes(e, c)
    ensures IcmpHeader(e) + e.payload == IcmpBytes(e, 0)
  {}

  method IcmpBuild(packet: array<byte>, e: IcmpEcho) returns (ok: bool, length: nat)
    modifies packet
    ensures ok <==> IcmpBuildable(e) && ICMP_HEADER + |e.payload| <= packet.Length
    ensures ok ==> length == ICMP_HEADER + |e.payload| && packet[..length] == IcmpPacket(e)
    ensures !ok ==> packet[..] == old(packet[..])
  {
    hide Be16, PlainChecksum, IcmpHeader, IcmpBytes;
    length := 0;
    if (e.kind != 8 && e.kind != 0) || |e.payload| > 0xffff - ICMP_HEADER {
      return false, 0;
    }
    length := ICMP_HEADER + |e.payload|;
    if packet.Length < length {
      return false, 0;
    }
    ghost var before := packet[..];
    Store(packet, 0, IcmpHeader(e));
    Store(packet, ICMP_HEADER, e.payload);
    assert packet[..length] == IcmpHeader(e) + e.payload;
    IcmpHeaderSplit(e, 0);
    var c := ComputePlainChecksum(packet[..length]);
    Store(packet, 2, Be16(c));
    PutAll(before, IcmpHeader(e), e.payload, 2, Be16(c));
    IcmpHeaderSplit(e, c);
    ok := true;
  }

  // ------------------------------------------------------------ IPv4

  const IPV4_HEADER := 20

  datatype Ipv4Fields = Ipv4Fields(source: Address, destination: Address, protocol: byte, ttl: byte,
                                   identification: u16)

  datatype Ipv4View = Ipv4View(headerLength: nat, fields: Ipv4Fields, fragmentOffset: nat, moreFragments: bool,
                               payload: seq<byte>)

  predicate Ipv4Buildable(f: Ipv4Fields, payload: seq<byte>) {
    f.ttl != 0 && |payload| <= 0xffff - IPV4_HEADER
  }

  function Ipv4Head(f: Ipv4Fields, total: u16): (h: seq<byte>)
    ensures |h| == 10
  {
    [0x45, 0, total / 256, total % 256, f.identification / 256, f.identification % 256, 0, 0, f.ttl, f.protocol]
  }

  function Ipv4Header(f: Ipv4Fields, total: u16, checksum: u16): (h: seq<byte>)
    ensures |h| == IPV4_HEADER
  {
    Ipv4Head(f, total) + Be16(checksum) + (f.source + f.destination)
  }

  function Ipv4Packet(f: Ipv4Fields, payload: seq<byte>): (p: seq<byte>)
    requires Ipv4Buildable(f, payload)
    ensures |p| == IPV4_HEADER + |payload|
  {
    var total := IPV4_HEADER + |payload|;
    Ipv4Header(f, total, PlainChecksum(Ipv4Header(f, total, 0))) + payload
  }

  function Ipv4Parse(packet: seq<byte>): (v: Option<Ipv4View>)
    ensures v.Some? ==> |v.value.payload| <= 0xffff
  {
    if |packet| < IPV4_HEADER || packet[0] / 16 != 4 then None
    else
      var header := packet[0] % 16 * 4;
      if header < IPV4_HEADER || header > 60 || header > |packet| then None
      else
        var total, fragments := Load16(packet, 2), Load16(packet, 6);
        var offset, more := fragments % 0x2000 * 8, fragments / 0x2000 % 2 == 1;
        if total < header || total > |packet| || offset > 0xffff - header || offset > 0xffff - total + header
           || (more && total == header) || (more && (total - header) % 8 != 0)
           || PlainChecksum(packet[..header]) != 0 then None
        else Some(Ipv4View(header, Ipv4Fields(packet[12..16], packet[16..20], packet[9], packet[8], Load16(packet, 4)),
                           offset, more, packet[header..total]))
  }

  lemma Ipv4FieldsBack(f: Ipv4Fields, total: u16, c: u16, rest: seq<byte>)
    ensures var p := Ipv4Header(f, total, c) + rest;
      && p[0] == 0x45 && Load16(p, 2) == total && Load16(p, 4) == f.identification && Load16(p, 6) == 0
      && p[8] == f.ttl && p[9] == f.protocol && p[12..16] == f.source && p[16..20] == f.destination
      && p[..20] == Ipv4Header(f, total, c) && p[20..] == rest
  {}

  /** Parsing recovers the packet, also from a frame padded behind it. */
  lemma Ipv4RoundTrip(f: Ipv4Fields, payload: seq<byte>, padding: seq<byte>)
    requires Ipv4Buildable(f, payload)
    ensures Ipv4Parse(Ipv4Packet(f, payload) + padding) == Some(Ipv4View(IPV4_HEADER, f, 0, false, payload))
  {
    hide PlainChecksum, Ipv4Header, Load16;
    var total := IPV4_HEADER + |payload|;
    var c := PlainChecksum(Ipv4Header(f, total, 0));
    var p := Ipv4Packet(f, payload) + padding;
    Ipv4Verifies(f, total);
    Ipv4FieldsBack(f, total, c, payload + padding);
    assert p == Ipv4Header(f, total, c) + (payload + padding);
    assert p[20..total] == payload;
  }

  lemma Ipv4Verifies(f: Ipv4Fields, total: u16)
    ensures PlainChecksum(Ipv4Header(f, total, PlainChecksum(Ipv4Header(f, total, 0)))) == 0
  {
    PlainVerifies(Ipv4Head(f, total), f.source + f.destination);
  }

  lemma Ipv4HeaderSplit(f: Ipv4Fields, total: u16, c: u16)
    ensures Put(Ipv4Header(f, total, 0), 10, Be16(c)) == Ipv4Header(f, total, c)
  {}

  /** Writing a field of the header before the payload. */
  lemma PutInside(s: seq<byte>, header: seq<byte>, payload: seq<byte>, at: nat, field: seq<byte>)
    requires |header| + |payload| <= |s| && at + |field| <= |header|
    ensures Put(Put(Put(s, 0, header), at, field), |header|, payload)[..|header| + |payload|]
         == Put(header, at, field) + payload
  {}

  method Ipv4Build(packet: array<byte>, f: Ipv4Fields, payload: seq<byte>) returns (ok: bool, length: nat)
    modifies packet
    ensures ok <==> Ipv4Buildable(f, payload) && IPV4_HEADER + |payload| <= packet.Length
    ensures ok ==> length == IPV4_HEADER + |payload| && packet[..length] == Ipv4Packet(f, payload)
    ensures !ok ==> packet[..] == old(packet[..])
  {
    hide Be16, PlainChecksum, Ipv4Header;
    length := 0;
    if f.ttl == 0 || |payload| > 0xffff - IPV4_HEADER {
      return false, 0;
    }
    length := IPV4_HEADER + |payload|;
    if packet.Length < length {
      return false, 0;
    }
    ghost var before := packet[..];
    Store(packet, 0, Ipv4Header(f, length, 0));
    assert packet[..IPV4_HEADER] == Ipv4Header(f, length, 0);
    var c := ComputePlainChecksum(packet[..IPV4_HEADER]);
    Store(packet, 10, Be16(c));
    Store(packet, IPV4_HEADER, payload);
    PutInside(before, Ipv4Header(f, length, 0), payload, 10, Be16(c));
    Ipv4HeaderSplit(f, length, c);
    ok := true;
  }

  // ------------------------------------------------------------ Ethernet

  const ETHERNET_HEADER := 14
  const ETHERNET_MIN := 60

  datatype Frame = Frame(destination: Hardware, source: Hardware, etherType: u16, payload: seq<byte>)

  predicate FrameBuildable(f: Frame) {
    f.etherType >= 0x0600 && |f.payload| <= 1500
  }

  /** Zero bytes up to the minimum frame size. */
  function Padding(payload: seq<byte>): (z: seq<byte>) {
    if ETHERNET_HEADER + |payload| < ETHERNET_MIN then ZeroBytes(ETHERNET_MIN - ETHERNET_HEADER - |payload|) else []
  }

  function FrameBytes(f: Frame): (b: seq<byte>)
    requires FrameBuildable(f)
    ensures ETHERNET_MIN <= |b| <= 1518
  {
    f.destination + f.source + Be16(f.etherType) + (f.payload + Padding(f.payload))
  }

  function FrameParse(b: seq<byte>): (f: Option<Frame>) {
    if |b| < ETHERNET_MIN || |b| > 1518 || Load16(b, 12) < 0x0600 then None
    else Some(Frame(b[..6], b[6..12], Load16(b, 12), b[ETHERNET_HEADER..]))
  }

  lemma FrameRoundTrip(f: Frame)
    requires FrameBuildable(f)
    ensures FrameParse(FrameBytes(f)) == Some(f.(payload := f.payload + Padding(f.payload)))
  {
    var b, rest := FrameBytes(f), f.payload + Padding(f.payload);
    assert b[..6] == f.destination && b[6..12] == f.source && b[12..14] == Be16(f.etherType) && b[14..] == rest;
    LoadsBack16(b, 12, f.etherType);
  }

  method FrameBuild(buffer: array<byte>, f: Frame) returns (ok: bool, length: nat)
    modifies buffer
    ensures ok <==> FrameBuildable(f) && |FrameBytes(f)| <= buffer.Length
    ensures ok ==> length == |FrameBytes(f)| && buffer[..length] == FrameBytes(f)
  {
    length := 0;
    if f.etherType < 0x0600 || |f.payload| > 1500 {
      return false, 0;
    }
    length := ETHERNET_HEADER + |f.payload|;
    if length < ETHERNET_MIN {
      length := ETHERNET_MIN;
    }
    if buffer.Length < length || length > 1518 {
      return false, 0;
    }
    var header := f.destination + f.source + Be16(f.etherType);
    Store(buffer, 0, header);
    Store(buffer, ETHERNET_HEADER, f.payload);
    assert buffer[..ETHERNET_HEADER + |f.payload|] == header + f.payload;
    Store(buffer, ETHERNET_HEADER + |f.payload|, ZeroBytes(length - ETHERNET_HEADER - |f.payload|));
    assert buffer[..length] == header + f.payload + ZeroBytes(length - ETHERNET_HEADER - |f.payload|);
    assert buffer[..length] == FrameBytes(f);
    ok := true;
  }

  // ------------------------------------------------------------ whole frames

  /** A decoded frame; the body of an ARP frame is left as it is. */
  datatype View =
    | ArpFrame(frame: Frame)
    | UdpFrame(frame: Frame, ip: Ipv4View, udp: UdpDatagram)
    | TcpFrame(frame: Frame, ip: Ipv4View, tcp: TcpView)
    | IcmpFrame(frame: Frame, ip: Ipv4View, icmp: IcmpEcho)
    | OtherFrame(frame: Frame, ip: Ipv4View)

  function Decode(b: seq<byte>): (v: Option<View>) {
    var f := FrameParse(b);
    if f.None? then None
    else if f.value.etherType == 0x0806 then Some(ArpFrame(f.value))
    else if f.value.etherType != 0x0800 then None
    else
      var ip := Ipv4Parse(f.value.payload);
      if ip.None? then None else DecodeTransport(f.value, ip.value)
  }

  function DecodeTransport(frame: Frame, ip: Ipv4View): (v: Option<View>)
    requires |ip.payload| <= 0xffff
  {
    if ip.fields.protocol == 17 then
      var udp := UdpParse(ip.payload, ip.fields.source, ip.fields.destination);
      if udp.None? then None else Some(UdpFrame(frame, ip, udp.value))
    else if ip.fields.protocol == 6 then
      var tcp := TcpParse(ip.payload, ip.fields.source, ip.fields.destination);
      if tcp.None? then None else Some(TcpFrame(frame, ip, tcp.value))
    else if ip.fields.protocol == 1 then
      var icmp := IcmpParse(ip.payload);
      if icmp.None? then None else Some(IcmpFrame(frame, ip, icmp.value))
    else Some(OtherFrame(frame, ip))
  }

  /** The frame that carries an IPv4 packet. */
  function IpFrame(destination: Hardware, source: Hardware, f: Ipv4Fields, payload: seq<byte>): (frame: Frame)
    requires Ipv4Buildable(f, payload)
  {
    Frame(destination, source, 0x0800, Ipv4Packet(f, payload))
  }

  /** Decoding reaches the transport layer with the packet's own fields, whatever the padding. */
  lemma IpFrameDecodes(destination: Hardware, source: Hardware, f: Ipv4Fields, payload: seq<byte>)
    requires f.ttl != 0 && IPV4_HEADER + |payload| <= 1500
    ensures var frame := IpFrame(destination, source, f, payload);
      Decode(FrameBytes(frame))
      == DecodeTransport(frame.(payload := frame.payload + Padding(frame.payload)),
                         Ipv4View(IPV4_HEADER, f, 0, false, payload))
  {
    hide FrameBytes, FrameParse, Ipv4Parse, Ipv4Packet, DecodeTransport, Padding;
    var frame := IpFrame(destination, source, f, payload);
    FrameRoundTrip(frame);
    Ipv4RoundTrip(f, payload, Padding(frame.payload));
  }

  /** A TCP segment sent through the IPv4 and Ethernet builders is decoded field by field. */
  lemma TcpFrameRoundTrip(destination: Hardware, source: Hardware, f: Ipv4Fields, s: TcpSegment)
    requires TcpBuildable(s) && f.ttl != 0 && f.protocol == 6 && IPV4_HEADER + TCP_HEADER + |s.payload| <= 1500
    ensures var v := Decode(FrameBytes(IpFrame(destination, source, f, TcpPacket(f.source, f.destination, s))));
      v.Some? && v.value.TcpFrame? && v.value.tcp == TcpView(s, 5, 0) && v.value.ip.fields == f
      && v.value.frame.destination == destination && v.value.frame.source == source
  {
    hide FrameBytes, Decode, TcpParse, TcpPacket, Ipv4Packet, Padding;
    IpFrameDecodes(destination, source, f, TcpPacket(f.source, f.destination, s));
    TcpRoundTrip(f.source, f.destination, s);
  }

  lemma UdpFrameRoundTrip(destination: Hardware, source: Hardware, f: Ipv4Fields, d: UdpDatagram)
    requires UdpBuildable(d) && f.ttl != 0 && f.protocol == 17 && IPV4_HEADER + UDP_HEADER + |d.payload| <= 1500
    ensures var v := Decode(FrameBytes(IpFrame(destination, source, f, UdpPacket(f.source, f.destination, d))));
      v.Some? && v.value.UdpFrame? && v.value.udp == d && v.value.ip.fields == f
      && v.value.frame.destination == destination && v.value.frame.source == source
  {
    hide FrameBytes, Decode, UdpParse, UdpPacket, Ipv4Packet, Padding;
    var packet := UdpPacket(f.source, f.destination, d);
    IpFrameDecodes(destination, source, f, packet);
    UdpRoundTrip(f.source, f.destination, d, []);
    assert packet + [] == packet;
  }

  lemma IcmpFrameRoundTrip(destination: Hardware, source: Hardware, f: Ipv4Fields, e: IcmpEcho)
    requires IcmpBuildable(e) && f.ttl != 0 && f.protocol == 1 && IPV4_HEADER + ICMP_HEADER + |e.payload| <= 1500
    ensures var v := Decode(FrameBytes(IpFrame(destination, source, f, IcmpPacket(e))));
      v.Some? && v.value.IcmpFrame? && v.value.icmp == e && v.value.ip.fields == f
      && v.value.frame.destination == destination && v.value.frame.source == source
  {
    hide FrameBytes, Decode, IcmpParse, IcmpPacket, Ipv4Packet, Padding;
    IpFrameDecodes(destination, source, f, IcmpPacket(e));
    IcmpRoundTrip(e);
  }
}
