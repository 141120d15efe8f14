/** Where the fields of packets stand on the wire, and what their checksums cover. */
module PacketFormats {
  import opened Bits
  import opened Options
  import opened Checksum
  import opened Packets

  /** The 16 bits at an offset, the first byte being the more significant. */
  predicate Short(p: seq<byte>, at: nat, v: int) {
    at + 2 <= |p| && v == 256 * p[at] as int + p[at + 1]
  }

  predicate Long(p: seq<byte>, at: nat, v: int) {
    at + 4 <= |p| && v == 0x100_0000 * p[at] as int + 0x1_0000 * p[at + 1] as int + 256 * p[at + 2] as int + p[at + 3]
  }

  // ------------------------------------------------------------ checksums

  /** The example of section 3 of RFC 1071. */
  lemma ChecksumExample()
    ensures WordSum([0x00, 0x01, 0xf2, 0x03, 0xf4, 0xf5, 0xf6, 0xf7]) == 0x2ddf0
    ensures PlainChecksum([0x00, 0x01, 0xf2, 0x03, 0xf4, 0xf5, 0xf6, 0xf7]) == 0x220d
  {}

  /** The checksum of a segment or datagram covers the pseudo header in front of it: both addresses, the protocol and
      the length (section 3.1 of RFC 793). */
  lemma TransportCoversPseudoHeader(source: Address, destination: Address, protocol: byte, packet: seq<byte>)
    requires |packet| <= 0xffff
    ensures TransportChecksum(source, destination, protocol, packet)
         == PlainChecksum(source + destination + [0, protocol, |packet| / 256, |packet| % 256] + packet)
  {
    var kind, length := [0, protocol], Be16(|packet|);
    WordSumAppend(source, destination);
    WordSumAppend(source + destination, kind);
    WordSumAppend(source + destination + kind, length);
    WordSumAppend(source + destination + kind + length, packet);
    WordSumOf16(protocol);
    WordSumOf16(|packet|);
    assert kind == Be16(protocol);
    assert source + destination + kind + length
        == source + destination + [0, protocol, |packet| / 256, |packet| % 256];
  }

  // ------------------------------------------------------------ layouts

  lemma FinMask(flags: bv8)
    ensures Fin(flags as nat) <==> flags & 1 == 1
  {}

  lemma SynMask(flags: bv8)
    ensures Syn(flags as nat) <==> flags & 2 == 2
  {}

  lemma RstMask(flags: bv8)
    ensures Rst(flags as nat) <==> flags & 4 == 4
  {}

  lemma AckMask(flags: bv8)
    ensures Ack(flags as nat) <==> flags & 16 == 16
  {}

  /** The control bits of section 3.1 of RFC 793. */
  lemma FlagMasks(flags: bv8)
    ensures (Fin(flags as nat) <==> flags & 1 == 1) && (Syn(flags as nat) <==> flags & 2 == 2)
    ensures (Rst(flags as nat) <==> flags & 4 == 4) && (Ack(flags as nat) <==> flags & 16 == 16)
  {
    hide Fin, Syn, Rst, Ack;
    FinMask(flags);
    SynMask(flags);
    RstMask(flags);
    AckMask(flags);
  }

  /** Section 3.1 of RFC 793. */
  lemma TcpLayout(source: Address, destination: Address, s: TcpSegment)
    requires TcpBuildable(s)
    ensures var p := TcpPacket(source, destination, s);
      && Short(p, 0, s.sourcePort) && Short(p, 2, s.destinationPort)
      && Long(p, 4, s.sequence) && Long(p, 8, s.acknowledgment)
      && p[12] == 5 * 16 && p[13] == s.flags && Short(p, 14, s.window) && Short(p, 18, 0) && p[20..] == s.payload
  {
    hide TransportChecksum;
  }

  /** RFC 768. */
  lemma UdpLayout(source: Address, destination: Address, d: UdpDatagram)
    requires UdpBuildable(d)
    ensures var p := UdpPacket(source, destination, d);
      && Short(p, 0, d.sourcePort) && Short(p, 2, d.destinationPort) && Short(p, 4, 8 + |d.payload|)
      && !Short(p, 6, 0) && p[8..] == d.payload
  {
    hide TransportChecksum;
  }

  /** RFC 792, echo and echo reply. */
  lemma IcmpLayout(e: IcmpEcho)
    requires IcmpBuildable(e)
    ensures var p := IcmpPacket(e);
      && p[0] == e.kind && p[1] == 0 && Short(p, 4, e.identifier) && Short(p, 6, e.sequence) && p[8..] == e.payload
  {
    hide PlainChecksum;
  }

  /** Section 3.1 of RFC 791. */
  lemma Ipv4Layout(f: Ipv4Fields, payload: seq<byte>)
    requires Ipv4Buildable(f, payload)
    ensures var p := Ipv4Packet(f, payload);
      && p[0] == 4 * 16 + 5 && Short(p, 2, 20 + |payload|) && Short(p, 4, f.identification) && Short(p, 6, 0)
      && p[8] == f.ttl && p[9] == f.protocol && p[12..16] == f.source && p[16..20] == f.destination
      && p[20..] == payload
  {
    hide PlainChecksum;
  }

  /** The frame of RFC 894: destination, source, type, data. */
  lemma FrameLayout(f: Frame)
    requires FrameBuildable(f)
    ensures var b := FrameBytes(f);
      && b[..6] == f.destination && b[6..12] == f.source && Short(b, 12, f.etherType)
      && |b| == (if |f.payload| < 46 then 60 else 14 + |f.payload|)
      && b[14..14 + |f.payload|] == f.payload && forall i :: 14 + |f.payload| <= i < |b| ==> b[i] == 0
  {}

  // ------------------------------------------------------------ fragments

  /** A packet with options and a place in a larger datagram, as any sender may write it. */
  function FragmentHead(f: Ipv4Fields, options: seq<byte>, unit: nat, more: bool, total: u16): (h: seq<byte>)
    requires |options| <= 40 && |options| % 4 == 0 && unit < 0x2000
    ensures |h| == 10
  {
    [0x40 + 5 + |options| / 4, 0, total / 256, total % 256, f.identification / 256, f.identification % 256,
     (if more then 0x20 else 0) + unit / 256, unit % 256, f.ttl, f.protocol]
  }

  function FragmentHeader(f: Ipv4Fields, options: seq<byte>, unit: nat, more: bool, total: u16, checksum: u16)
    : (h: seq<byte>)
    requires |options| <= 40 && |options| % 4 == 0 && unit < 0x2000
    ensures |h| == 20 + |options|
  {
    FragmentHead(f, options, unit, more, total) + Be16(checksum) + (f.source + f.destination + options)
  }

  function FragmentPacket(f: Ipv4Fields, options: seq<byte>, unit: nat, more: bool, payload: seq<byte>): (p: seq<byte>)
    requires |options| <= 40 && |options| % 4 == 0 && unit < 0x2000 && 20 + |options| + |payload| <= 0xffff
  {
    var total := 20 + |options| + |payload|;
    FragmentHeader(f, options, unit, more, total,
                   PlainChecksum(FragmentHeader(f, options, unit, more, total, 0))) + payload
  }

  lemma FragmentFieldsBack(f: Ipv4Fields, options: seq<byte>, unit: nat, more: bool, total: u16, c: u16,
                           rest: seq<byte>)
    requires |options| <= 40 && |options| % 4 == 0 && unit < 0x2000
    ensures var p := FragmentHeader(f, options, unit, more, total, c) + rest;
      && p[0] / 16 == 4 && p[0] % 16 * 4 == 20 + |options| && Load16(p, 2) == total
      && Load16(p, 4) == f.identification && Load16(p, 6) == (if more then 0x2000 else 0) + unit
      && p[8] == f.ttl && p[9] == f.protocol && p[12..16] == f.source && p[16..20] == f.destination
      && p[..20 + |options|] == FragmentHeader(f, options, unit, more, total, c) && p[20 + |options|..] == rest
  {}

  /** Every fragment parses, with its offset in bytes, its flag and its data, unless it reaches past the largest
      datagram or is not last and not of whole units. */
  lemma FragmentParses(f: Ipv4Fields, options: seq<byte>, unit: nat, more: bool, payload: seq<byte>, padding: seq<byte>)
    requires |options| <= 40 && |options| % 4 == 0 && unit < 0x2000 && 20 + |options| + |payload| <= 0xffff
    ensures Ipv4Parse(FragmentPacket(f, options, unit, more, payload) + padding)
         == if 8 * unit + 20 + |options| <= 0xffff && 8 * unit + |payload| <= 0xffff
               && (more ==> payload != [] && |payload| % 8 == 0)
            then Some(Ipv4View(20 + |options|, f, 8 * unit, more, payload)) else None
  {
    hide PlainChecksum, FragmentHeader, Load16;
    var total := 20 + |options| + |payload|;
    var c := PlainChecksum(FragmentHeader(f, options, unit, more, total, 0));
    var p := FragmentPacket(f, options, unit, more, payload) + padding;
    FragmentVerifies(f, options, unit, more, total);
    FragmentFieldsBack(f, options, unit, more, total, c, payload + padding);
    assert p == FragmentHeader(f, options, unit, more, total, c) + (payload + padding);
    assert p[20 + |options|..total] == payload;
  }

  lemma FragmentVerifies(f: Ipv4Fields, options: seq<byte>, unit: nat, more: bool, total: u16)
    requires |options| <= 40 && |options| % 4 == 0 && unit < 0x2000
    ensures var c := PlainChecksum(FragmentHeader(f, options, unit, more, total, 0));
      PlainChecksum(FragmentHeader(f, options, unit, more, total, c)) == 0
  {
    PlainVerifies(FragmentHead(f, options, unit, more, total), f.source + f.destination + options);
  }

  // ------------------------------------------------------------ damaged packets

  /** A changed byte changes the sum by less than 65535. */
  lemma {:induction false} WordSumChanged(p: seq<byte>, i: nat, v: byte)
    requires i < |p|
    ensures WordSum(p[i := v]) - WordSum(p) == (v - p[i]) * (if i % 2 == 0 then 256 else 1)
    decreases |p|
  {
    if i >= 2 {
      WordSumChanged(p[2..], i - 2, v);
      assert p[i := v][2..] == p[2..][i - 2 := v];
    } else if |p| >= 2 {
      assert p[i := v][2..] == p[2..];
    }
  }

  lemma FoldedAllOnes(s: nat)
    ensures Folded(s) == 0xffff <==> s > 0 && s % 0xffff == 0
  {}

  /** Sums that all come to all ones are multiples of 65535 apart. */
  lemma FoldedChanged(s: nat, s': nat)
    requires Folded(s) == 0xffff && s != s' && -0xffff < s' - s < 0xffff
    ensures Folded(s') != 0xffff
  {
    FoldedAllOnes(s);
    FoldedAllOnes(s');
  }

  lemma TransportDamaged(source: Address, destination: Address, protocol: byte, p: seq<byte>, i: nat, v: byte)
    requires |p| <= 0xffff && i < |p| && v != p[i] && TransportChecksum(source, destination, protocol, p) == 0
    ensures TransportChecksum(source, destination, protocol, p[i := v]) != 0
  {
    hide WordSum, Folded;
    WordSumChanged(p, i, v);
    var sum := PseudoSum(source, destination, protocol, |p|);
    FoldedChanged(sum + WordSum(p), sum + WordSum(p[i := v]));
  }

  lemma PlainDamaged(p: seq<byte>, i: nat, v: byte)
    requires i < |p| && v != p[i] && PlainChecksum(p) == 0
    ensures PlainChecksum(p[i := v]) != 0
  {
    hide WordSum, Folded;
    WordSumChanged(p, i, v);
    FoldedChanged(WordSum(p), WordSum(p[i := v]));
  }

  /** A segment in which any one byte was changed is refused. */
  lemma DamagedTcpRefused(source: Address, destination: Address, s: TcpSegment, i: nat, v: byte)
    requires TcpBuildable(s) && i < TCP_HEADER + |s.payload| && v != TcpPacket(source, destination, s)[i]
    ensures TcpParse(TcpPacket(source, destination, s)[i := v], source, destination) == None
  {
    hide TransportChecksum, TcpPacket;
    TcpVerifies(source, destination, s);
    TransportDamaged(source, destination, 6, TcpPacket(source, destination, s), i, v);
  }

  /** So is an echo message. */
  lemma DamagedIcmpRefused(e: IcmpEcho, i: nat, v: byte)
    requires IcmpBuildable(e) && i < ICMP_HEADER + |e.payload| && v != IcmpPacket(e)[i]
    ensures IcmpParse(IcmpPacket(e)[i := v]) == None
  {
    hide PlainChecksum, IcmpPacket;
    IcmpVerifies(e);
    PlainDamaged(IcmpPacket(e), i, v);
  }

  lemma IcmpVerifies(e: IcmpEcho)
    requires IcmpBuildable(e)
    ensures PlainChecksum(IcmpPacket(e)) == 0
  {
    PlainVerifies([e.kind, 0], Be16(e.identifier) + Be16(e.sequence) + e.payload);
  }

  /** So is an IPv4 packet with a change in its header, unless it is in the byte that says how long the header is. */
  lemma DamagedIpv4Refused(f: Ipv4Fields, payload: seq<byte>, padding: seq<byte>, i: nat, v: byte)
    requires Ipv4Buildable(f, payload) && 1 <= i < IPV4_HEADER && v != Ipv4Packet(f, payload)[i]
    ensures Ipv4Parse(Ipv4Packet(f, payload)[i := v] + padding) == None
  {
    hide PlainChecksum, Ipv4Header;
    var total := IPV4_HEADER + |payload|;
    var header := Ipv4Header(f, total, PlainChecksum(Ipv4Header(f, total, 0)));
    Ipv4Verifies(f, total);
    PlainDamaged(header, i, v);
    var p := Ipv4Packet(f, payload)[i := v] + padding;
    assert p[..IPV4_HEADER] == header[i := v];
    FirstByte(f, total, PlainChecksum(Ipv4Header(f, total, 0)));
  }

  lemma FirstByte(f: Ipv4Fields, total: u16, c: u16)
    ensures Ipv4Header(f, total, c)[0] == 0x45
  {}

  /** So is a datagram with a change outside its length, unless the change makes the checksum zero: that means that
      there is none to test. */
  lemma DamagedUdpRefusedIff(source: Address, destination: Address, d: UdpDatagram, i: nat, v: byte)
    requires UdpBuildable(d) && i < UDP_HEADER + |d.payload| && i != 4 && i != 5
    requires v != UdpPacket(source, destination, d)[i]
    ensures var p := UdpPacket(source, destination, d)[i := v];
      UdpParse(p, source, destination) == None <==> Load16(p, 6) != 0
  {
    hide TransportChecksum, UdpPacket;
    var p := UdpPacket(source, destination, d);
    UdpVerifies(source, destination, d);
    TransportNotAllOnes(source, destination, p);
    TransportNotAllOnes(source, destination, p[i := v]);
    TransportDamaged(source, destination, 17, p, i, v);
    UdpLayout(source, destination, d);
    assert p[i := v][..|p|] == p[i := v];
  }

  lemma TransportNotAllOnes(source: Address, destination: Address, p: seq<byte>)
    requires |p| <= 0xffff
    ensures TransportChecksum(source, destination, 17, p) != 0xffff
  {}

  // ------------------------------------------------------------ a whole frame

  const PING_FRAME: seq<byte> := [0x52, 0x54, 0x00, 0x12, 0x34, 0x56, 0x02, 0x00, 0x00, 0x00, 0x00, 0x01, 0x08, 0x00]
  const PING_IP: seq<byte> := [0x45, 0x00, 0x00, 0x1c, 0x00, 0x01, 0x00, 0x00, 0x40, 0x01] + [0xf9, 0x8c]
    + [0xc0, 0xa8, 0x00, 0x01, 0xc0, 0xa8, 0x00, 0x02]
  const PING_ECHO: seq<byte> := [0x08, 0x00, 0xf7, 0xf7, 0x00, 0x07, 0x00, 0x01]

  /** Frames of 60 to 1518 bytes with a type from 1536 on are taken apart; others are not looked at. */
  lemma FrameTakenIff(b: seq<byte>)
    ensures FrameParse(b).Some? <==> 60 <= |b| <= 1518 && 256 * b[12] as int + b[13] >= 1536
  {}

  lemma PingSums()
    ensures PlainChecksum(PING_IP) == 0 && PlainChecksum(PING_ECHO) == 0
  {
    hide WordSum;
    var head, sum, addresses := PING_IP[..10], PING_IP[10..12], PING_IP[12..];
    WordSumAppend(head, sum);
    WordSumAppend(head + sum, addresses);
    assert PING_IP == head + sum + addresses;
    PingWords();
  }

  lemma PingWords()
    ensures WordSum([0x45, 0x00, 0x00, 0x1c, 0x00, 0x01, 0x00, 0x00, 0x40, 0x01]) == 0x851e
    ensures WordSum([0xf9, 0x8c]) == 0xf98c
    ensures WordSum([0xc0, 0xa8, 0x00, 0x01, 0xc0, 0xa8, 0x00, 0x02]) == 0x18153
    ensures WordSum(PING_ECHO) == 0xffff
  {}

  lemma PingEcho()
    ensures IcmpParse(PING_ECHO) == Some(IcmpEcho(8, 7, 1, []))
  {
    hide PlainChecksum;
    PingSums();
    var none: seq<byte> := [];
    assert PING_ECHO[8..] == none;
  }

  lemma PingIp(padding: seq<byte>)
    ensures Ipv4Parse(PING_IP + PING_ECHO + padding)
         == Some(Ipv4View(20, Ipv4Fields([192, 168, 0, 1], [192, 168, 0, 2], 1, 64, 1), 0, false, PING_ECHO))
  {
    hide PlainChecksum;
    PingSums();
    var p := PING_IP + PING_ECHO + padding;
    assert p[..20] == PING_IP && p[20..28] == PING_ECHO;
    assert p[12..16] == [192, 168, 0, 1] && p[16..20] == [192, 168, 0, 2];
  }

  /** An echo request from 192.168.0.1 to 192.168.0.2 as it stands on the wire, padded to 60 bytes. */
  lemma PingDecodes(padding: seq<byte>)
    requires |padding| == 18
    ensures var b := PING_FRAME + (PING_IP + PING_ECHO + padding);
      && Decode(b).Some? && Decode(b).value.IcmpFrame?
      && Decode(b).value.icmp == IcmpEcho(8, 7, 1, [])
      && Decode(b).value.ip.fields == Ipv4Fields([192, 168, 0, 1], [192, 168, 0, 2], 1, 64, 1)
      && Decode(b).value.frame.destination == [0x52, 0x54, 0x00, 0x12, 0x34, 0x56]
      && Decode(b).value.frame.source == [0x02, 0x00, 0x00, 0x00, 0x00, 0x01]
  {
    hide Ipv4Parse, IcmpParse;
    var body := PING_IP + PING_ECHO + padding;
    var b := PING_FRAME + body;
    PingIp(padding);
    PingEcho();
    assert b[14..] == body && b[12] == 0x08 && b[13] == 0x00;
    assert b[..6] == [0x52, 0x54, 0x00, 0x12, 0x34, 0x56] && b[6..12] == [0x02, 0x00, 0x00, 0x00, 0x00, 0x01];
  }
}
