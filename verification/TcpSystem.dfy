/**
 * Two connections and a network that loses, repeats and reorders their packets. Packets carry
 * the history of where they belong in their stream; the connections never look at it.
 */
module TcpSystem {
  import opened Bits
  import opened Options
  import opened Checksum
  import opened Packets
  import opened Tcp

  /** A packet that was sent, with the segment it was made from and the stream positions it speaks of. */
  datatype InFlight = InFlight(bytes: seq<byte>, segment: TcpSegment, position: int, ackPosition: int)

  /** One end with its history: the bytes it was given to send and the bytes it has accepted. */
  datatype End = End(conn: Conn, used: bool, started: bool, iss: u32, given: seq<byte>, fin: bool,
                     synced: bool, accepted: seq<byte>, finSeen: bool, acked: int, kept: set<InFlight>) {
    /** The position of the next sequence number to send; the SYN stands at -1. */
    function SendPosition(): (p: nat) { |given| + (if fin then 1 else 0) }
    /** The position of the next sequence number to receive. */
    function ReceivePosition(): (p: nat) { |accepted| + (if finSeen then 1 else 0) }
  }

  const FRESH := End(Initial(0, 0), false, false, 0, [], false, false, [], false, -1, {})

  /** One side's part of the system. */
  datatype Half = Half(me: End, peer: End, inbox: set<InFlight>, outbox: set<InFlight>, mine: Address, theirs: Address)

  /** Sequence numbers of a stream are distinct while it is shorter than 2^32 - 3 bytes. */
  predicate Short(e: End) {
    |e.given| + 3 <= 0x1_0000_0000
  }

  // ------------------------------------------------------------ events

  datatype Event =
    | Connect(localPort: u16, window: u16, sequence: u32, remotePort: u16)
    | StartListen(localPort: u16, window: u16)
    | Write(flags: byte, payload: seq<byte>, capacity: nat)
    | Deliver(packet: InFlight)
    | Tick(now: nat, timeout: nat, capacity: nat)
    | Reset(bytes: seq<byte>, segment: TcpSegment)

  function Send(h: Half, me: End, s: TcpSegment, position: int, ackPosition: int): (h': Half)
    requires TcpBuildable(s)
  {
    h.(me := me, outbox := h.outbox + {InFlight(TcpPacket(h.mine, h.theirs, s), s, position, ackPosition)})
  }

  /** Initialize, open, send the SYN and keep it for retransmission. */
  function DoConnect(h: Half, localPort: u16, window: u16, sequence: u32, remotePort: u16): (h': Half) {
    var r := OpenTo(Initial(localPort, window), sequence, remotePort);
    if h.me.used || r.Refused? then h
    else
      var s := TcpSegment(localPort, remotePort, sequence, 0, SYN, window, []);
      var packet := InFlight(TcpPacket(h.mine, h.theirs, s), s, -1, 0);
      Send(h, h.me.(conn := Record(r.conn, packet.bytes), used := true, started := true, iss := sequence,
                    kept := {packet}), s, -1, 0)
  }

  function DoListen(h: Half, localPort: u16, window: u16): (h': Half) {
    var r := ListenOn(Initial(localPort, window));
    if h.me.used || r.Refused? then h else h.(me := h.me.(conn := r.conn, used := true))
  }

  function DoWrite(h: Half, flags: byte, payload: seq<byte>, capacity: nat): (h': Half) {
    var c := h.me.conn;
    if !MayBuild(c, flags, payload, capacity) then h
    else
      var s := Outgoing(c, flags, payload);
      var packet := InFlight(TcpPacket(h.mine, h.theirs, s), s, h.me.SendPosition(), h.me.ReceivePosition());
      var me := h.me.(conn := AfterBuild(c, h.mine, h.theirs, flags, payload), given := h.me.given + payload,
                      fin := h.me.fin || Fin(s.flags), kept := {packet});
      Send(h, me, s, packet.position, packet.ackPosition)
  }

  /** The history of an end after its connection took a segment. */
  function Took(me: End, s: TcpSegment, ackPosition: int, c: Conn, reply: Reply): (me': End) {
    me.(conn := c,
        started := me.started || c.state.SynReceived?,
        synced := me.synced || c.state.SynReceived? || c.state.Established?,
        accepted := if reply.accepted > 0 then me.accepted + s.payload else me.accepted,
        finSeen := me.finSeen || c.state.CloseWait? || c.state.TimeWait?,
        acked := if c.unacknowledged == me.conn.unacknowledged then me.acked
                 else if me.conn.state.Listen? then -1 else ackPosition)
  }

  /** The segment that answers `s`. */
  function Answer(s: TcpSegment, reply: Reply): (a: TcpSegment) {
    TcpSegment(s.destinationPort, s.sourcePort, reply.sequence, reply.acknowledgment, reply.flags, s.window, [])
  }

  function DoDeliver(h: Half, packet: InFlight): (h': Half) {
    if packet !in h.inbox || |packet.bytes| > 0xffff then h
    else
      var view := TcpParse(packet.bytes, h.theirs, h.mine);
      if view.None? then h
      else
        var s := view.value.segment;
        match Receive(h.me.conn, s)
        case Ignored => h
        case Received(c, reply) =>
          var me := Took(h.me, s, packet.ackPosition, c, reply);
          if reply.flags == 0 || reply.flags == RST || !TcpBuildable(Answer(s, reply)) then h.(me := me)
          else Send(h, me, Answer(s, reply), if Syn(reply.flags) then -1 else me.SendPosition(), me.ReceivePosition())
  }

  /** A due retransmission sends the kept packet again. */
  function DoTick(h: Half, now: nat, timeout: nat, capacity: nat): (h': Half) {
    var c := h.me.conn;
    if !Due(c, now, timeout, capacity) then h
    else h.(me := h.me.(conn := c.(lastTick := now, retries := c.retries + 1)), 
            outbox := h.outbox + set m | m in h.me.kept && m.bytes == c.recorded)
  }

  /** Someone resets the connection. */
  function DoReset(h: Half, bytes: seq<byte>, s: TcpSegment): (h': Half) {
    if !TcpBuildable(s) || !Rst(s.flags) || bytes != TcpPacket(h.theirs, h.mine, s) then h
    else h.(inbox := h.inbox + {InFlight(bytes, s, 0, 0)})
  }

  function Act(h: Half, e: Event): (h': Half) {
    match e
    case Connect(localPort, window, sequence, remotePort) => DoConnect(h, localPort, window, sequence, remotePort)
    case StartListen(localPort, window) => DoListen(h, localPort, window)
    case Write(flags, payload, capacity) => DoWrite(h, flags, payload, capacity)
    case Deliver(packet) => DoDeliver(h, packet)
    case Tick(now, timeout, capacity) => DoTick(h, now, timeout, capacity)
    case Reset(bytes, s) => DoReset(h, bytes, s)
  }

  // ------------------------------------------------------------ the invariant

  /** `x`'s own fields and what it knows of `y`'s stream. */
  predicate EndOk(x: End, y: End) {
    && (x.started ==> x.used) && (!x.used ==> x.conn.localPort == 0)
    && (!x.started ==>
      !x.synced && x.iss == 0 && x.given == [] && !x.fin && x.acked == -1
        && (x.conn.state.Closed? || x.conn.state.Listen?))
    && (!x.synced ==> x.accepted == [] && !x.finSeen)
    && (x.synced ==> y.started && x.conn.receiveNext == Wrap(y.iss + 1 + x.ReceivePosition()))
    && x.accepted <= y.given
    && (x.finSeen ==> y.fin)
    && (x.started ==> x.conn.sendNext == Wrap(x.iss + 1 + x.SendPosition()))
    && (x.started ==> x.conn.unacknowledged == Wrap(x.iss + 1 + x.acked))
    && -1 <= x.acked <= x.SendPosition()
    && (x.acked >= 0 ==> y.synced) && x.acked <= y.ReceivePosition()
    && StateOk(x, y)
  }

  predicate StateOk(x: End, y: End) {
    match x.conn.state
    case Closed => true
    case Listen => !x.started && !x.synced
    case SynSent => x.started && !x.synced && x.given == [] && !x.fin && x.acked == -1
    case SynReceived => x.started && x.synced && x.iss == 0 && x.given == [] && !x.fin && !x.finSeen && x.accepted == []
      && x.acked == -1
    case Established => x.started && x.synced && !x.fin && !x.finSeen
    case FinWait1 => x.started && x.synced && x.fin && !x.finSeen
    case FinWait2 => x.started && x.synced && x.fin && !x.finSeen
    case CloseWait => x.started && x.synced && !x.fin && x.finSeen && x.accepted == y.given
    case LastAck => x.started && x.synced && x.fin && x.finSeen && x.accepted == y.given
    case TimeWait => x.started && x.synced && x.fin && x.finSeen
  }

  /** A packet that `x` sent to `y`. */
  predicate PacketOk(m: InFlight, x: End, y: End, source: Address, destination: Address) {
    && TcpBuildable(m.segment) && m.bytes == TcpPacket(source, destination, m.segment)
    && (Rst(m.segment.flags) || SegmentOk(m, x, y))
  }

  predicate SegmentOk(m: InFlight, x: End, y: End) {
    var s := m.segment;
    && x.started && s.sequence == Wrap(x.iss + 1 + m.position)
    && -1 <= m.position <= x.SendPosition()
    && (s.payload != [] ==> 0 <= m.position && m.position + |s.payload| <= |x.given|
                            && s.payload == x.given[m.position..m.position + |s.payload|])
    && (Syn(s.flags) ==> m.position == -1 && s.payload == [])
    && (Fin(s.flags) ==> x.fin && m.position + |s.payload| == |x.given|)
    && (Ack(s.flags) ==> x.synced && y.started && s.acknowledgment == Wrap(y.iss + 1 + m.ackPosition)
                         && 0 <= m.ackPosition <= x.ReceivePosition())
  }

  predicate AllOk(packets: set<InFlight>, x: End, y: End, source: Address, destination: Address) {
    forall m :: m in packets ==> PacketOk(m, x, y, source, destination)
  }

  predicate Inv(h: Half) {
    && EndOk(h.me, h.peer) && EndOk(h.peer, h.me)
    && AllOk(h.outbox, h.me, h.peer, h.mine, h.theirs) && AllOk(h.inbox, h.peer, h.me, h.theirs, h.mine)
    && KeptOk(h.me, h.outbox) && KeptOk(h.peer, h.inbox)
  }

  /** What may be retransmitted was sent before. */
  predicate KeptOk(x: End, sent: set<InFlight>) {
    x.kept <= sent && (x.conn.pending ==> exists m :: m in x.kept && m.bytes == x.conn.recorded)
  }

  // ------------------------------------------------------------ growth

  /** Histories only grow. */
  predicate Grew(x: End, x': End) {
    && (x.started ==> x'.started && x'.iss == x.iss)
    && x.given <= x'.given && (x.fin ==> x'.fin && x'.given == x.given)
    && (x.synced ==> x'.synced) && x.accepted <= x'.accepted && (x.finSeen ==> x'.finSeen)
  }

  lemma AllGrow(packets: set<InFlight>, x: End, x': End, y: End, y': End, source: Address, destination: Address)
    requires AllOk(packets, x, y, source, destination) && Grew(x, x') && Grew(y, y')
    ensures AllOk(packets, x', y', source, destination)
  {}

  lemma PeerGrows(y: End, x: End, x': End)
    requires EndOk(y, x) && Grew(x, x')
    ensures EndOk(y, x')
  {}

  // ------------------------------------------------------------ positions

  /** Within one stream a sequence number determines its position. */
  lemma WrapInjective(base: int, p: int, q: int)
    requires -1 <= p < 0xffff_ffff && -1 <= q < 0xffff_ffff
    requires Wrap(base + p) == Wrap(base + q)
    ensures p == q
  {}

  lemma WrapAdd(base: int, n: nat)
    ensures Wrap(Wrap(base) + n) == Wrap(base + n)
  {}

  /** A receiver never gets ahead of its sender. */
  lemma ReceiverBehind(x: End, y: End)
    requires EndOk(x, y)
    ensures x.ReceivePosition() <= y.SendPosition()
  {}

  /** An acknowledged sequence number belongs to the position the packet says. */
  lemma AckPositionIs(m: InFlight, me: End, peer: End, position: int)
    requires SegmentOk(m, peer, me) && Ack(m.segment.flags) && EndOk(peer, me) && Short(me) && me.started
    requires -1 <= position <= me.SendPosition() && m.segment.acknowledgment == Wrap(me.iss + 1 + position)
    ensures m.ackPosition == position
  {
    ReceiverBehind(peer, me);
    WrapInjective(me.iss + 1, m.ackPosition, position);
  }

  /** A segment with the awaited sequence number stands at the awaited position. */
  lemma PositionIs(m: InFlight, me: End, peer: End)
    requires SegmentOk(m, peer, me) && EndOk(me, peer) && Short(peer) && me.synced
    requires m.segment.sequence == me.conn.receiveNext
    ensures m.position == me.ReceivePosition()
  {
    ReceiverBehind(me, peer);
    WrapInjective(peer.iss + 1, m.position, me.ReceivePosition());
  }

  // ------------------------------------------------------------ what a segment does to its receiver

  /** The receiver's history stays right and only grows, and so does the rest of what a step must keep. */
  predicate TookOk(me: End, peer: End, me': End, reply: Reply) {
    && EndOk(me', peer) && Grew(me, me')
    && (reply.flags != 0 && reply.flags != RST ==> ReplyOk(me', reply))
  }

  predicate ReplyOk(me: End, reply: Reply) {
    && me.started && me.synced
    && reply.acknowledgment == me.conn.receiveNext
    && ((reply.flags == SYN + ACK && reply.sequence == me.iss)
        || (reply.flags == ACK && reply.sequence == me.conn.sendNext))
  }

  lemma TookReset(me: End, peer: End, m: InFlight)
    requires EndOk(me, peer)
    ensures var c := me.conn.(state := Closed);
      TookOk(me, peer, Took(me, m.segment, m.ackPosition, c, Reply(RST, 0, 0, 0)), Reply(RST, 0, 0, 0))
  {}

  lemma TookListen(me: End, peer: End, m: InFlight)
    requires EndOk(me, peer) && SegmentOk(m, peer, me) && me.conn.state.Listen? && me.used
    requires ReceiveHandshake(me.conn, m.segment).Received?
    ensures var r := ReceiveHandshake(me.conn, m.segment);
      TookOk(me, peer, Took(me, m.segment, m.ackPosition, r.conn, r.reply), r.reply)
  {}

  lemma TookSynSent(me: End, peer: End, m: InFlight)
    requires EndOk(me, peer) && EndOk(peer, me) && SegmentOk(m, peer, me) && me.conn.state.SynSent? && Short(me)
    requires ReceiveHandshake(me.conn, m.segment).Received?
    ensures var r := ReceiveHandshake(me.conn, m.segment);
      TookOk(me, peer, Took(me, m.segment, m.ackPosition, r.conn, r.reply), r.reply)
  {
    WrapAdd(peer.iss + 1 + m.position, 1);
    AckPositionIs(m, me, peer, me.SendPosition());
  }

  lemma TookSynReceived(me: End, peer: End, m: InFlight)
    requires EndOk(me, peer) && EndOk(peer, me) && SegmentOk(m, peer, me) && me.conn.state.SynReceived? && Short(me)
    requires ReceiveHandshake(me.conn, m.segment).Received?
    ensures var r := ReceiveHandshake(me.conn, m.segment);
      TookOk(me, peer, Took(me, m.segment, m.ackPosition, r.conn, r.reply), r.reply)
  {}

  lemma TookClosing(me: End, peer: End, m: InFlight)
    requires EndOk(me, peer) && EndOk(peer, me) && SegmentOk(m, peer, me) && Short(me) && Short(peer)
    requires me.conn.state.FinWait1? || me.conn.state.FinWait2? || me.conn.state.LastAck?
    requires ReceiveClosing(me.conn, m.segment).Received?
    ensures var r := ReceiveClosing(me.conn, m.segment);
      TookOk(me, peer, Took(me, m.segment, m.ackPosition, r.conn, r.reply), r.reply)
  {
    hide Short, Wrap;
    if me.conn.state.FinWait2? {
      PositionIs(m, me, peer);
      WrapAdd(peer.iss + 1 + me.ReceivePosition(), 1);
    } else {
      AckPositionIs(m, me, peer, me.SendPosition());
    }
  }

  /** Data in order extends the accepted prefix; behind the FIN there is none. */
  lemma InOrderData(me: End, peer: End, m: InFlight)
    requires EndOk(me, peer) && SegmentOk(m, peer, me) && m.position == me.ReceivePosition()
    requires me.finSeen ==> me.accepted == peer.given
    ensures me.accepted + m.segment.payload <= peer.given
    ensures me.finSeen ==> m.segment.payload == [] && !Fin(m.segment.flags)
    ensures Fin(m.segment.flags) ==> me.accepted + m.segment.payload == peer.given && peer.fin
  {}

  lemma TookInOrder(me: End, peer: End, m: InFlight)
    requires EndOk(me, peer) && EndOk(peer, me) && SegmentOk(m, peer, me) && Short(me) && Short(peer)
    requires me.conn.state.Established? || me.conn.state.CloseWait?
    requires ReceiveData(me.conn, m.segment).Received? && m.segment.sequence == me.conn.receiveNext
    ensures var r := ReceiveData(me.conn, m.segment);
      TookOk(me, peer, Took(me, m.segment, m.ackPosition, r.conn, r.reply), r.reply)
  {
    hide SegmentOk, Short, Wrap;
    PositionIs(m, me, peer);
    InOrderData(me, peer, m);
    ReceiverBehind(peer, me);
    AckBounds(m, peer, me);
    WrapAdd(peer.iss + 1 + me.ReceivePosition(), |m.segment.payload| + if Fin(m.segment.flags) then 1 else 0);
  }

  lemma AckBounds(m: InFlight, x: End, y: End)
    requires SegmentOk(m, x, y) && Ack(m.segment.flags)
    ensures x.synced && m.segment.acknowledgment == Wrap(y.iss + 1 + m.ackPosition)
    ensures 0 <= m.ackPosition <= x.ReceivePosition()
  {}

  lemma TookData(me: End, peer: End, m: InFlight)
    requires EndOk(me, peer) && EndOk(peer, me) && SegmentOk(m, peer, me) && Short(me) && Short(peer)
    requires me.conn.state.Established? || me.conn.state.CloseWait?
    requires ReceiveData(me.conn, m.segment).Received?
    ensures var r := ReceiveData(me.conn, m.segment);
      TookOk(me, peer, Took(me, m.segment, m.ackPosition, r.conn, r.reply), r.reply)
  {
    hide EndOk, SegmentOk, TookOk, Took, Short;
    if m.segment.sequence == me.conn.receiveNext {
      TookInOrder(me, peer, m);
    } else {
      TookDuplicate(me, peer, m);
    }
  }

  /** A segment out of order changes nothing and is answered with the awaited number. */
  lemma TookDuplicate(me: End, peer: End, m: InFlight)
    requires EndOk(me, peer) && (me.conn.state.Established? || me.conn.state.CloseWait?)
    ensures var r := AckReply(me.conn, 0); TookOk(me, peer, Took(me, m.segment, m.ackPosition, me.conn, r), r)
  {}

  lemma TookAny(me: End, peer: End, m: InFlight, source: Address, destination: Address)
    requires EndOk(me, peer) && EndOk(peer, me) && PacketOk(m, peer, me, source, destination) && Short(me)
    requires Short(peer)
    requires me.used && Receive(me.conn, m.segment).Received?
    ensures var r := Receive(me.conn, m.segment);
      TookOk(me, peer, Took(me, m.segment, m.ackPosition, r.conn, r.reply), r.reply)
  {
    hide EndOk, SegmentOk, TookOk, Took, ReceiveData, ReceiveHandshake, ReceiveClosing, Short;
    if Rst(m.segment.flags) {
      TookReset(me, peer, m);
    } else if me.conn.state.Established? || me.conn.state.CloseWait? {
      TookData(me, peer, m);
    } else if me.conn.state.Listen? {
      TookListen(me, peer, m);
    } else if me.conn.state.SynSent? {
      TookSynSent(me, peer, m);
    } else if me.conn.state.SynReceived? {
      TookSynReceived(me, peer, m);
    } else {
      ClosingStates(me.conn, m.segment);
      TookClosing(me, peer, m);
    }
  }

  lemma ClosingStates(c: Conn, s: TcpSegment)
    ensures ReceiveClosing(c, s).Received? ==> c.state.FinWait1? || c.state.FinWait2? || c.state.LastAck?
  {}

  // ------------------------------------------------------------ steps keep the invariant

  /** Sending one more packet. */
  lemma SendKeeps(h: Half, me: End, s: TcpSegment, position: int, ackPosition: int)
    requires Inv(h) && EndOk(me, h.peer) && Grew(h.me, me) && TcpBuildable(s)
    requires SegmentOk(InFlight(TcpPacket(h.mine, h.theirs, s), s, position, ackPosition), me, h.peer)
    requires KeptOk(me, Send(h, me, s, position, ackPosition).outbox)
    ensures Inv(Send(h, me, s, position, ackPosition))
  {
    hide EndOk, SegmentOk, KeptOk, TcpPacket, Grew;
    GrewSelf(h.peer);
    PeerGrows(h.peer, h.me, me);
    AllGrow(h.outbox, h.me, me, h.peer, h.peer, h.mine, h.theirs);
    AllGrow(h.inbox, h.peer, h.peer, h.me, me, h.theirs, h.mine);
  }

  lemma GrewSelf(x: End)
    ensures Grew(x, x)
  {}

  /** Changing this end without sending. */
  lemma QuietKeeps(h: Half, me: End)
    requires Inv(h) && EndOk(me, h.peer) && Grew(h.me, me) && KeptOk(me, h.outbox)
    ensures Inv(h.(me := me))
  {
    hide EndOk, KeptOk, Grew;
    GrewSelf(h.peer);
    PeerGrows(h.peer, h.me, me);
    AllGrow(h.outbox, h.me, me, h.peer, h.peer, h.mine, h.theirs);
    AllGrow(h.inbox, h.peer, h.peer, h.me, me, h.theirs, h.mine);
  }

  lemma ConnectKeeps(h: Half, localPort: u16, window: u16, sequence: u32, remotePort: u16)
    requires Inv(h)
    ensures Inv(DoConnect(h, localPort, window, sequence, remotePort))
  {
    hide TcpPacket;
    var r := OpenTo(Initial(localPort, window), sequence, remotePort);
    if !h.me.used && r.Changed? {
      var s := TcpSegment(localPort, remotePort, sequence, 0, SYN, window, []);
      var packet := InFlight(TcpPacket(h.mine, h.theirs, s), s, -1, 0);
      var me := h.me.(conn := Record(r.conn, packet.bytes), used := true, started := true, iss := sequence,
                      kept := {packet});
      assert packet in me.kept;
      SendKeeps(h, me, s, -1, 0);
    }
  }

  lemma ListenKeeps(h: Half, localPort: u16, window: u16)
    requires Inv(h)
    ensures Inv(DoListen(h, localPort, window))
  {}

  /** The three lowest flags. */
  predicate SameLow(f: byte, g: byte) {
    Fin(f) == Fin(g) && Syn(f) == Syn(g) && Rst(f) == Rst(g)
  }

  lemma AddEight(f: nat)
    ensures (f + 8) % 2 == f % 2 && (f + 8) / 2 % 2 == f / 2 % 2 && (f + 8) / 4 % 2 == f / 4 % 2
  {}

  /** Data and FIN leave the other flags alone. */
  lemma FlagsKept(flags: byte, payload: seq<byte>)
    ensures SameLow(SendFlags(flags, payload), flags)
  {
    AddEight(flags);
    AddEight(flags + 8);
    AddEight(WithAck(flags));
    assert SameLow(WithAck(flags), flags);
  }

  /** The sender's history after a segment was built. */
  lemma WroteOk(me: End, peer: End, source: Address, destination: Address, flags: byte, payload: seq<byte>,
                capacity: nat, kept: set<InFlight>)
    requires EndOk(me, peer) && MayBuild(me.conn, flags, payload, capacity)
    ensures var me' := me.(conn := AfterBuild(me.conn, source, destination, flags, payload),
                           given := me.given + payload, fin := me.fin || Fin(SendFlags(flags, payload)), kept := kept);
      EndOk(me', peer) && Grew(me, me')
  {
    hide TcpPacket, SendFlags;
    WrapAdd(me.iss + 1 + me.SendPosition(), Space(SendFlags(flags, payload), payload));
  }

  lemma WriteKeeps(h: Half, flags: byte, payload: seq<byte>, capacity: nat)
    requires Inv(h)
    ensures Inv(DoWrite(h, flags, payload, capacity))
  {
    hide TcpPacket, SendFlags, AfterBuild, Grew, AllOk;
    var c := h.me.conn;
    if MayBuild(c, flags, payload, capacity) {
      var s := Outgoing(c, flags, payload);
      var packet := InFlight(TcpPacket(h.mine, h.theirs, s), s, h.me.SendPosition(), h.me.ReceivePosition());
      var me := h.me.(conn := AfterBuild(c, h.mine, h.theirs, flags, payload), given := h.me.given + payload,
                      fin := h.me.fin || Fin(s.flags), kept := {packet});
      FlagsKept(flags, payload);
      WroteOk(h.me, h.peer, h.mine, h.theirs, flags, payload, capacity, {packet});
      BuildRecords(c, h.mine, h.theirs, flags, payload);
      assert packet in me.kept;
      assert SegmentOk(packet, me, h.peer);
      SendKeeps(h, me, s, packet.position, packet.ackPosition);
    }
  }

  lemma BuildRecords(c: Conn, source: Address, destination: Address, flags: byte, payload: seq<byte>)
    requires TcpBuildable(Outgoing(c, flags, payload))
    ensures AfterBuild(c, source, destination, flags, payload).recorded
      == TcpPacket(source, destination, Outgoing(c, flags, payload))
  {}

  lemma ReceiveKeepsRecord(c: Conn, s: TcpSegment)
    ensures var r := Receive(c, s); r.Received? ==> r.conn.recorded == c.recorded && (r.conn.pending ==> c.pending)
    ensures c.localPort == 0 && TcpBuildable(s) ==> Receive(c, s).Ignored?
  {}

  /** The answer to a segment is itself a good packet. */
  lemma AnswerOk(h: Half, me: End, s: TcpSegment, reply: Reply)
    requires EndOk(me, h.peer) && ReplyOk(me, reply) && TcpBuildable(Answer(s, reply))
    ensures var position := if Syn(reply.flags) then -1 else me.SendPosition();
      SegmentOk(InFlight(TcpPacket(h.mine, h.theirs, Answer(s, reply)), Answer(s, reply), position,
                         me.ReceivePosition()), me, h.peer)
  {
    hide TcpPacket;
  }

  /** A good packet arrives as the segment it was made from. */
  lemma PacketParses(m: InFlight, x: End, y: End, source: Address, destination: Address)
    requires PacketOk(m, x, y, source, destination)
    ensures |m.bytes| <= 0xffff && TcpParse(m.bytes, source, destination) == Some(TcpView(m.segment, 5, 0))
  {
    TcpRoundTrip(source, destination, m.segment);
  }

  lemma DeliverKeeps(h: Half, m: InFlight)
    requires Inv(h) && Short(h.me) && Short(h.peer)
    ensures Inv(DoDeliver(h, m))
  {
    hide EndOk, SegmentOk, TcpPacket, TcpParse, Receive, Took, Grew, Short, TcpBuildable;
    if m in h.inbox {
      assert PacketOk(m, h.peer, h.me, h.theirs, h.mine);
      PacketParses(m, h.peer, h.me, h.theirs, h.mine);
      ReceiveKeepsRecord(h.me.conn, m.segment);
      var r := Receive(h.me.conn, m.segment);
      if r.Received? {
        UsedToReceive(h.me, h.peer, m.segment);
        TookAny(h.me, h.peer, m, h.theirs, h.mine);
        var me := Took(h.me, m.segment, m.ackPosition, r.conn, r.reply);
        TookKeepsKept(h.me, m.segment, m.ackPosition, r.conn, r.reply, h.outbox);
        if r.reply.flags == 0 || r.reply.flags == RST || !TcpBuildable(Answer(m.segment, r.reply)) {
          QuietKeeps(h, me);
        } else {
          AnswerOk(h, me, m.segment, r.reply);
          var position := if Syn(r.reply.flags) then -1 else me.SendPosition();
          SendKeeps(h, me, Answer(m.segment, r.reply), position, me.ReceivePosition());
        }
      }
    }
  }

  lemma UsedToReceive(me: End, peer: End, s: TcpSegment)
    requires EndOk(me, peer) && TcpBuildable(s) && Receive(me.conn, s).Received?
    ensures me.used
  {}

  lemma TookKeepsKept(me: End, s: TcpSegment, ackPosition: int, c: Conn, reply: Reply, sent: set<InFlight>)
    requires KeptOk(me, sent) && c.recorded == me.conn.recorded && (c.pending ==> me.conn.pending)
    ensures KeptOk(Took(me, s, ackPosition, c, reply), sent)
    ensures forall more :: sent <= more ==> KeptOk(Took(me, s, ackPosition, c, reply), more)
  {}

  lemma TickedEnd(me: End, peer: End, now: nat)
    requires EndOk(me, peer)
    ensures var me' := me.(conn := me.conn.(lastTick := now, retries := me.conn.retries + 1));
      EndOk(me', peer) && Grew(me, me')
  {}

  lemma TickKeeps(h: Half, now: nat, timeout: nat, capacity: nat)
    requires Inv(h)
    ensures Inv(DoTick(h, now, timeout, capacity))
    ensures Due(h.me.conn, now, timeout, capacity) ==> DoTick(h, now, timeout, capacity).outbox == h.outbox
  {
    hide EndOk, AllOk, Grew;
    if Due(h.me.conn, now, timeout, capacity) {
      var c := h.me.conn;
      TickedEnd(h.me, h.peer, now);
      assert h.outbox + (set m | m in h.me.kept && m.bytes == c.recorded) == h.outbox;
      QuietKeeps(h, h.me.(conn := c.(lastTick := now, retries := c.retries + 1)));
    }
  }

  lemma ResetKeeps(h: Half, bytes: seq<byte>, s: TcpSegment)
    requires Inv(h)
    ensures Inv(DoReset(h, bytes, s))
  {}

  lemma ActKeeps(h: Half, e: Event)
    requires Inv(h) && Short(h.me) && Short(h.peer)
    ensures Inv(Act(h, e))
  {
    hide Inv, DoConnect, DoListen, DoWrite, DoDeliver, DoTick, DoReset, Short;
    match e
    case Connect(localPort, window, sequence, remotePort) => ConnectKeeps(h, localPort, window, sequence, remotePort);
    case StartListen(localPort, window) => ListenKeeps(h, localPort, window);
    case Write(flags, payload, capacity) => WriteKeeps(h, flags, payload, capacity);
    case Deliver(packet) => DeliverKeeps(h, packet);
    case Tick(now, timeout, capacity) => TickKeeps(h, now, timeout, capacity);
    case Reset(bytes, s) => ResetKeeps(h, bytes, s);
  }

  // ------------------------------------------------------------ runs of the whole system

  datatype System = System(a: End, b: End, toA: set<InFlight>, toB: set<InFlight>, addressA: Address,
                           addressB: Address) {
    function Side(first: bool): (h: Half) {
      if first then Half(a, b, toA, toB, addressA, addressB) else Half(b, a, toB, toA, addressB, addressA)
    }

    function Step(first: bool, e: Event): (s: System) {
      var h := Act(Side(first), e);
      if first then this.(a := h.me, toA := h.inbox, toB := h.outbox)
        else this.(b := h.me, toB := h.inbox, toA := h.outbox)
    }
  }

  function Start(addressA: Address, addressB: Address): (s: System) {
    System(FRESH, FRESH, {}, {}, addressA, addressB)
  }

  /** The state after a run; each event says at which side it happens. */
  function Run(s: System, events: seq<(bool, Event)>): (s': System) {
    if events == [] then s
    else
      var (first, e) := events[|events| - 1];
      Run(s, events[..|events| - 1]).Step(first, e)
  }

  lemma InvBothWays(s: System)
    ensures Inv(s.Side(true)) <==> Inv(s.Side(false))
  {}

  /** An event changes only its own end, and that end's stream only grows. */
  lemma ActGrows(h: Half, e: Event)
    ensures Act(h, e).peer == h.peer && |h.me.given| <= |Act(h, e).me.given|
    ensures Act(h, e).mine == h.mine && Act(h, e).theirs == h.theirs
  {}

  lemma StepKeeps(s: System, first: bool, e: Event)
    requires Inv(s.Side(true)) && Short(s.Step(first, e).a) && Short(s.Step(first, e).b)
    ensures Inv(s.Step(first, e).Side(true)) && Short(s.a) && Short(s.b)
  {
    hide Inv, Act;
    var h := s.Side(first);
    ActGrows(h, e);
    InvBothWays(s);
    ActKeeps(h, e);
    assert s.Step(first, e).Side(first) == Act(h, e);
    InvBothWays(s.Step(first, e));
  }

  lemma StartOk(addressA: Address, addressB: Address)
    ensures Inv(Start(addressA, addressB).Side(true))
  {}

  /** The invariant holds after every run whose streams stay short. */
  lemma {:induction false} RunKeeps(addressA: Address, addressB: Address, events: seq<(bool, Event)>)
    requires var s := Run(Start(addressA, addressB), events); Short(s.a) && Short(s.b)
    ensures Inv(Run(Start(addressA, addressB), events).Side(true))
  {
    hide Inv, Act;
    if events == [] {
      StartOk(addressA, addressB);
    } else {
      var (first, e) := events[|events| - 1];
      var before := Run(Start(addressA, addressB), events[..|events| - 1]);
      ActGrows(before.Side(first), e);
      RunKeeps(addressA, addressB, events[..|events| - 1]);
      StepKeeps(before, first, e);
    }
  }

  /**
   * Stream safety for every interleaving of sending, retransmission, loss, repetition and
   * reordering: what an end has accepted is a prefix of what its peer was given, `receive_next`
   * counts exactly the accepted bytes and the SYN and FIN, an end that saw the FIN in
   * CLOSE_WAIT or LAST_ACK has the whole stream, and nothing is acknowledged that was not received.
   */
  lemma StreamSafety(addressA: Address, addressB: Address, events: seq<(bool, Event)>, first: bool)
    requires var s := Run(Start(addressA, addressB), events); Short(s.a) && Short(s.b)
    ensures var h := Run(Start(addressA, addressB), events).Side(first);
      && h.me.accepted <= h.peer.given
      && (h.me.synced ==>
          h.me.conn.receiveNext == Wrap(h.peer.iss + 1 + |h.me.accepted| + (if h.me.finSeen then 1 else 0)))
      && (h.me.conn.state.CloseWait? || h.me.conn.state.LastAck? ==> h.me.accepted == h.peer.given && h.peer.fin)
      && (h.me.started ==> h.me.conn.unacknowledged == Wrap(h.me.iss + 1 + h.me.acked))
      && h.me.acked <= |h.peer.accepted| + (if h.peer.finSeen then 1 else 0)
  {
    hide Act;
    RunKeeps(addressA, addressB, events);
    InvBothWays(Run(Start(addressA, addressB), events));
  }

  /**
   * In FIN_WAIT_2 the FIN is accepted without the data that comes with it: the stream is complete
   * in TIME_WAIT exactly when the FIN came alone.
   */
  lemma CompleteIffFinAlone(h: Half, m: InFlight)
    requires Inv(h) && Short(h.me) && Short(h.peer) && m in h.inbox && h.me.conn.state.FinWait2?
    requires PortsMatch(h.me.conn, m.segment) && Fin(m.segment.flags) && !Rst(m.segment.flags)
    requires m.segment.sequence == h.me.conn.receiveNext
    ensures DoDeliver(h, m).me.conn.state.TimeWait?
    ensures DoDeliver(h, m).me.accepted == h.peer.given <==> m.segment.payload == []
  {
    hide TcpParse, TcpPacket, TcpBuildable;
    assert PacketOk(m, h.peer, h.me, h.theirs, h.mine);
    PacketParses(m, h.peer, h.me, h.theirs, h.mine);
    PositionIs(m, h.me, h.peer);
    InOrderData(h.me, h.peer, m);
  }

  /** A FIN that brings a byte to FIN_WAIT_2: the byte is not accepted, yet the next number is acknowledged. */
  lemma FinLosesItsData()
    ensures var c := Conn(FinWait2, 100, 100, 500, 1000, 1000, 80, 90, false, 0, [], 0, 0);
      var s := TcpSegment(90, 80, 500, 100, FIN + ACK, 1000, [7]);
      Receive(c, s) == Received(c.(receiveNext := 501, state := TimeWait), Reply(ACK, 100, 501, 0))
  {}
}
