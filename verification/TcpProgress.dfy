/** What a connection takes, acknowledges and keeps, packet by packet. */
module TcpProgress {
  import opened Bits
  import opened Packets
  import opened Tcp
  import opened TcpSystem

  /** The same system seen from the other side. */
  function Swap(h: Half): (g: Half) {
    Half(h.peer, h.me, h.outbox, h.inbox, h.theirs, h.mine)
  }

  lemma SwapKeeps(h: Half)
    ensures Inv(Swap(h)) <==> Inv(h)
  {}

  /** A packet's delivery, without the parser between. */
  function Taken(h: Half, m: InFlight): (h': Half) {
    match Receive(h.me.conn, m.segment)
    case Ignored => h
    case Received(c, reply) =>
      var me := Took(h.me, m.segment, m.ackPosition, c, reply);
      if reply.flags == 0 || reply.flags == RST || !TcpBuildable(Answer(m.segment, reply)) then h.(me := me)
      else Send(h, me, Answer(m.segment, reply), if Syn(reply.flags) then -1 else me.SendPosition(),
                me.ReceivePosition())
  }

  lemma DeliverIs(h: Half, m: InFlight)
    requires Inv(h) && m in h.inbox
    ensures DoDeliver(h, m) == Taken(h, m) && PacketOk(m, h.peer, h.me, h.theirs, h.mine)
  {
    hide EndOk, SegmentOk, KeptOk, TcpPacket, TcpParse, Receive, Took, TcpBuildable;
    assert PacketOk(m, h.peer, h.me, h.theirs, h.mine);
    PacketParses(m, h.peer, h.me, h.theirs, h.mine);
  }

  // ------------------------------------------------------------ opening

  /** A listening end takes any SYN: it has a peer, whose next number it awaits, and answers with a SYN of number 0. */
  lemma SynTaken(h: Half, m: InFlight)
    requires Inv(h) && m in h.inbox && h.me.conn.state.Listen? && PortsMatch(h.me.conn, m.segment)
    requires Syn(m.segment.flags) && !Rst(m.segment.flags)
    ensures var s, c := m.segment, h.me.conn.(
              state := SynReceived, unacknowledged := 0, sendNext := 1, receiveNext := Wrap(m.segment.sequence + 1),
              peerWindow := m.segment.window, remotePort := m.segment.sourcePort);
      var a := TcpSegment(s.destinationPort, s.sourcePort, 0, c.receiveNext, 18, s.window, []);
      && TcpBuildable(a)
      && DoDeliver(h, m) == h.(me := h.me.(conn := c, started := true, synced := true),
                               outbox := h.outbox + {Packet(h, a, -1, 0)})
  {
    hide TcpPacket, KeptOk, AllOk, Wrap;
    DeliverIs(h, m);
  }

  /** The connection of a calling end after the answer to its SYN. */
  function Opened(c: Conn, s: TcpSegment): (c': Conn) {
    c.(state := Established, unacknowledged := c.sendNext, receiveNext := Wrap(s.sequence + 1), peerWindow := s.window,
       pending := false)
  }

  lemma SynAckReceived(c: Conn, s: TcpSegment)
    requires c.state.SynSent? && PortsMatch(c, s) && Syn(s.flags) && Ack(s.flags) && !Rst(s.flags)
    requires c.unacknowledged <= s.acknowledgment == c.sendNext
    ensures Receive(c, s) == Received(Opened(c, s), AckReply(Opened(c, s), 0))
  {
    hide Wrap, Syn, Ack, Rst;
  }

  lemma TookOpened(h: Half, m: InFlight)
    requires Inv(h) && Short(h.me) && PacketOk(m, h.peer, h.me, h.theirs, h.mine) && h.me.conn.state.SynSent?
    requires Ack(m.segment.flags) && !Rst(m.segment.flags) && m.segment.acknowledgment == h.me.conn.sendNext
    ensures h.me.SendPosition() == 0 && h.me.ReceivePosition() == 0 && TcpBuildable(m.segment)
    ensures var c := Opened(h.me.conn, m.segment);
      Took(h.me, m.segment, m.ackPosition, c, AckReply(c, 0)) == h.me.(conn := c, synced := true, acked := 0)
  {
    hide TcpPacket, KeptOk, AllOk;
    AckPositionIs(m, h.me, h.peer, 0);
  }

  /** A calling end takes a SYN that acknowledges its own: it is open, and acknowledges in turn. */
  lemma SynAckTaken(h: Half, m: InFlight)
    requires Inv(h) && Short(h.me) && m in h.inbox && h.me.conn.state.SynSent? && PortsMatch(h.me.conn, m.segment)
    requires Syn(m.segment.flags) && Ack(m.segment.flags) && !Rst(m.segment.flags)
    requires h.me.conn.unacknowledged <= m.segment.acknowledgment == h.me.conn.sendNext
    ensures var c := h.me.conn.(
              state := Established, unacknowledged := h.me.conn.sendNext, receiveNext := Wrap(m.segment.sequence + 1),
              peerWindow := m.segment.window, pending := false);
      var h' := DoDeliver(h, m);
      && h'.me == h.me.(conn := c, synced := true, acked := 0) && TcpBuildable(PlainAck(h', m.segment))
      && h' == h.(me := h'.me, outbox := h.outbox + {Packet(h, PlainAck(h', m.segment), 0, 0)})
  {
    hide EndOk, SegmentOk, TcpPacket, Short, KeptOk, AllOk, Wrap, TcpBuildable, Receive, Took, DoDeliver, Syn, Ack, Rst;
    DeliverIs(h, m);
    SynAckReceived(h.me.conn, m.segment);
    TookOpened(h, m);
    AckHasNoSyn();
    AnswerBuildable(m.segment, AckReply(Opened(h.me.conn, m.segment), 0));
  }

  /** An end that has answered a SYN is open once its own is acknowledged. */
  lemma FirstAckTaken(h: Half, m: InFlight)
    requires Inv(h) && Short(h.me) && m in h.inbox && h.me.conn.state.SynReceived? && PortsMatch(h.me.conn, m.segment)
    requires !Syn(m.segment.flags) && Ack(m.segment.flags) && !Rst(m.segment.flags)
    requires m.segment.acknowledgment == h.me.conn.sendNext
    ensures var c := h.me.conn.(state := Established, unacknowledged := h.me.conn.sendNext,
                                peerWindow := m.segment.window, pending := false);
      DoDeliver(h, m) == h.(me := h.me.(conn := c, acked := 0))
  {
    hide TcpPacket, KeptOk, AllOk, TcpBuildable;
    DeliverIs(h, m);
    AckPositionIs(m, h.me, h.peer, 0);
  }

  // ------------------------------------------------------------ data in order

  predicate Open(c: Conn) {
    c.state.Established? || c.state.CloseWait?
  }

  /** The packet of a segment at a position. */
  function Packet(h: Half, s: TcpSegment, position: int, ackPosition: int): (m: InFlight)
    requires TcpBuildable(s)
  {
    InFlight(TcpPacket(h.mine, h.theirs, s), s, position, ackPosition)
  }

  /** An acknowledgment of everything received, as an answer to `s`. */
  function PlainAck(h: Half, s: TcpSegment): (a: TcpSegment) {
    TcpSegment(s.destinationPort, s.sourcePort, h.me.conn.sendNext, h.me.conn.receiveNext, 16, s.window, [])
  }

  /** The connection after a segment in order. */
  function Advanced(c: Conn, s: TcpSegment): (c': Conn) {
    c.(unacknowledged := s.acknowledgment, peerWindow := s.window,
       receiveNext := Wrap(c.receiveNext + |s.payload| + if Fin(s.flags) then 1 else 0),
       pending := c.pending && s.acknowledgment < c.sequenceEnd,
       state := if Fin(s.flags) then CloseWait else c.state)
  }

  lemma ReceivedInOrder(c: Conn, s: TcpSegment)
    requires Open(c) && PortsMatch(c, s) && !Rst(s.flags) && Ack(s.flags) && s.sequence == c.receiveNext
    requires c.unacknowledged <= s.acknowledgment <= c.sendNext
    ensures Receive(c, s) == Received(Advanced(c, s), AckReply(Advanced(c, s), |s.payload|))
  {
    hide Wrap, Fin, Ack, Rst;
  }

  lemma TookInOrderIs(me: End, m: InFlight)
    requires Open(me.conn) && me.started && me.synced && (me.finSeen <==> me.conn.state.CloseWait?)
    requires m.segment.acknowledgment == me.conn.unacknowledged ==> m.ackPosition == me.acked
    ensures var c := Advanced(me.conn, m.segment);
      Took(me, m.segment, m.ackPosition, c, AckReply(c, |m.segment.payload|))
      == me.(conn := c, accepted := me.accepted + m.segment.payload, finSeen := me.finSeen || Fin(m.segment.flags),
             acked := m.ackPosition)
  {
    hide Wrap, Fin;
  }

  /**
   * A packet that stands where the receiver stands, with an acknowledgment between what is acknowledged already and
   * what was sent, is taken: its payload is accepted, its FIN is seen, what it acknowledges counts as acknowledged
   * and is no longer pending, and all that has been received is acknowledged in answer.
   */
  lemma InOrderTaken(h: Half, m: InFlight)
    requires Inv(h) && Short(h.me) && Short(h.peer) && m in h.inbox && Open(h.me.conn)
    requires PortsMatch(h.me.conn, m.segment) && !Rst(m.segment.flags) && Ack(m.segment.flags)
    requires m.position == h.me.ReceivePosition()
    requires h.me.conn.unacknowledged <= m.segment.acknowledgment <= h.me.conn.sendNext
    ensures var h', fin := DoDeliver(h, m), Fin(m.segment.flags);
      && h'.me == h.me.(conn := h'.me.conn, accepted := h.me.accepted + m.segment.payload,
                        finSeen := h.me.finSeen || fin, acked := m.ackPosition)
      && h'.me.conn == h.me.conn.(
           unacknowledged := m.segment.acknowledgment, peerWindow := m.segment.window,
           receiveNext := Wrap(h.me.conn.receiveNext + |m.segment.payload| + if fin then 1 else 0),
           pending := h.me.conn.pending && m.segment.acknowledgment < h.me.conn.sequenceEnd,
           state := if fin then CloseWait else h.me.conn.state)
      && TcpBuildable(PlainAck(h', m.segment))
      && h' == h.(me := h'.me, outbox := h.outbox + {
           Packet(h, PlainAck(h', m.segment), h'.me.SendPosition(), h'.me.ReceivePosition())})
  {
    hide EndOk, SegmentOk, TcpPacket, Short, KeptOk, AllOk, Wrap, TcpBuildable, Receive, Took, DoDeliver, Fin, Ack, Rst;
    DeliverIs(h, m);
    InOrderFields(h, m);
    ReceivedInOrder(h.me.conn, m.segment);
    TookInOrderIs(h.me, m);
    AckHasNoSyn();
    AnswerBuildable(m.segment, AckReply(Advanced(h.me.conn, m.segment), |m.segment.payload|));
  }

  lemma AckHasNoSyn()
    ensures !Syn(ACK) && ACK != 0 && ACK != RST
  {}

  lemma InOrderFields(h: Half, m: InFlight)
    requires Inv(h) && Short(h.me) && Short(h.peer) && PacketOk(m, h.peer, h.me, h.theirs, h.mine) && Open(h.me.conn)
    requires !Rst(m.segment.flags) && Ack(m.segment.flags) && m.position == h.me.ReceivePosition()
    requires h.me.conn.unacknowledged <= m.segment.acknowledgment <= h.me.conn.sendNext
    ensures m.segment.sequence == h.me.conn.receiveNext
    ensures m.segment.acknowledgment == h.me.conn.unacknowledged ==> m.ackPosition == h.me.acked
    ensures TcpBuildable(m.segment) && h.me.started && h.me.synced && (h.me.finSeen <==> h.me.conn.state.CloseWait?)
  {
    hide TcpPacket, KeptOk, AllOk, Wrap;
    if m.segment.acknowledgment == h.me.conn.unacknowledged {
      AckPositionIs(m, h.me, h.peer, h.me.acked);
    }
  }

  lemma AnswerBuildable(s: TcpSegment, reply: Reply)
    requires TcpBuildable(s) && reply.flags == ACK
    ensures TcpBuildable(Answer(s, reply))
  {}

  // ------------------------------------------------------------ what is pending

  /** What is kept for retransmission ends where sending goes on. */
  predicate EndsAtNext(c: Conn) {
    c.pending && (Open(c) || c.state.FinWait1? || c.state.LastAck?) ==> c.sequenceEnd == c.sendNext
  }

  lemma ReceiveEndsAtNext(c: Conn, s: TcpSegment)
    requires EndsAtNext(c) && Receive(c, s).Received?
    ensures EndsAtNext(Receive(c, s).conn)
  {
    hide Wrap, Fin, Ack, Rst, Syn;
  }

  lemma ActEndsAtNext(h: Half, e: Event)
    requires EndsAtNext(h.me.conn)
    ensures EndsAtNext(Act(h, e).me.conn)
  {
    hide Receive, TcpPacket, TcpParse, Wrap, SendFlags, TcpBuildable, EndsAtNext;
    match e
    case Deliver(packet) =>
      if packet in h.inbox && |packet.bytes| <= 0xffff && TcpParse(packet.bytes, h.theirs, h.mine).Some? {
        var s := TcpParse(packet.bytes, h.theirs, h.mine).value.segment;
        if Receive(h.me.conn, s).Received? {
          ReceiveEndsAtNext(h.me.conn, s);
        }
      }
    case Write(flags, payload, capacity) => WriteEndsAtNext(h, flags, payload, capacity);
    case _ => OtherEndsAtNext(h, e);
  }

  lemma WriteEndsAtNext(h: Half, flags: byte, payload: seq<byte>, capacity: nat)
    requires EndsAtNext(h.me.conn)
    ensures EndsAtNext(DoWrite(h, flags, payload, capacity).me.conn)
  {
    hide TcpPacket, Wrap, SendFlags, TcpBuildable, MayBuild, Outgoing, Space;
  }

  lemma OtherEndsAtNext(h: Half, e: Event)
    requires EndsAtNext(h.me.conn) && !e.Deliver? && !e.Write?
    ensures EndsAtNext(Act(h, e).me.conn)
  {
    hide TcpPacket, Wrap, TcpBuildable, Due;
  }

  lemma {:induction false} RunEndsAtNext(addressA: Address, addressB: Address, events: seq<(bool, Event)>, first: bool)
    ensures EndsAtNext(Run(Start(addressA, addressB), events).Side(first).me.conn)
  {
    hide Act, EndsAtNext;
    if events == [] {
      FreshEndsAtNext();
    } else {
      var (side, e) := events[|events| - 1];
      var before := Run(Start(addressA, addressB), events[..|events| - 1]);
      RunEndsAtNext(addressA, addressB, events[..|events| - 1], first);
      if side == first {
        ActEndsAtNext(before.Side(first), e);
      } else {
        ActGrows(before.Side(side), e);
      }
    }
  }

  lemma FreshEndsAtNext()
    ensures EndsAtNext(FRESH.conn)
  {}

  /** Over every run: a packet in order that acknowledges everything sent leaves nothing to be sent again. */
  lemma AcknowledgedIsNotPending(addressA: Address, addressB: Address, events: seq<(bool, Event)>, first: bool,
                                 m: InFlight)
    requires var s := Run(Start(addressA, addressB), events); Short(s.a) && Short(s.b)
    requires var h := Run(Start(addressA, addressB), events).Side(first);
      && m in h.inbox && Open(h.me.conn) && PortsMatch(h.me.conn, m.segment)
      && !Rst(m.segment.flags) && Ack(m.segment.flags) && m.position == h.me.ReceivePosition()
      && h.me.conn.unacknowledged <= m.segment.acknowledgment == h.me.conn.sendNext
    ensures !DoDeliver(Run(Start(addressA, addressB), events).Side(first), m).me.conn.pending
  {
    hide Inv, Run, DoDeliver, Short, TcpPacket;
    var s := Run(Start(addressA, addressB), events);
    RunKeeps(addressA, addressB, events);
    InvBothWays(s);
    RunEndsAtNext(addressA, addressB, events, first);
    InOrderTaken(s.Side(first), m);
  }

  // ------------------------------------------------------------ packets out of order, resets and the window

  /** A packet that stands elsewhere changes nothing, and is answered with what has been received; one with another
      acknowledgment is not answered at all. */
  lemma OutOfOrderAnswered(h: Half, m: InFlight)
    requires Inv(h) && Short(h.peer) && m in h.inbox && Open(h.me.conn)
    requires PortsMatch(h.me.conn, m.segment) && !Rst(m.segment.flags) && Ack(m.segment.flags)
    requires m.position != h.me.ReceivePosition()
    ensures TcpBuildable(PlainAck(h, m.segment))
    ensures DoDeliver(h, m)
         == if h.me.conn.unacknowledged <= m.segment.acknowledgment <= h.me.conn.sendNext
            then h.(outbox := h.outbox + {
                Packet(h, PlainAck(h, m.segment), h.me.SendPosition(), h.me.ReceivePosition())})
            else h
  {
    hide TcpPacket, Short, KeptOk, AllOk, Wrap, TcpBuildable;
    DeliverIs(h, m);
    if m.segment.sequence == h.me.conn.receiveNext {
      PositionIs(m, h.me, h.peer);
      assert false;
    }
    AnswerBuildable(m.segment, AckReply(h.me.conn, 0));
  }

  /** A reset with the right ports closes the connection, whatever its state, and is not answered. */
  lemma ResetCloses(h: Half, s: TcpSegment)
    requires Inv(h) && TcpBuildable(s) && Rst(s.flags) && PortsMatch(h.me.conn, s)
    ensures var bytes := TcpPacket(h.theirs, h.mine, s);
      var h' := DoReset(h, bytes, s);
      DoDeliver(h', InFlight(bytes, s, 0, 0)) == h'.(me := h.me.(conn := h.me.conn.(state := Closed)))
  {
    hide TcpPacket, TcpBuildable, EndOk, SegmentOk, KeptOk;
    var bytes := TcpPacket(h.theirs, h.mine, s);
    ResetKeeps(h, bytes, s);
    DeliverIs(DoReset(h, bytes, s), InFlight(bytes, s, 0, 0));
  }

  /** What is sent and not acknowledged never exceeds the window that the other end announced last. */
  lemma WindowRespected(h: Half, flags: byte, payload: seq<byte>, capacity: nat)
    requires Inv(h) && Short(DoWrite(h, flags, payload, capacity).me) && MayBuild(h.me.conn, flags, payload, capacity)
    ensures var me := DoWrite(h, flags, payload, capacity).me;
      me.SendPosition() - me.acked <= h.me.conn.peerWindow
  {
    hide AllOk, KeptOk, TcpPacket, TcpBuildable, SendFlags;
    WrapDifference(h.me.iss + 1, h.me.SendPosition(), h.me.acked);
  }

  /** With nothing outstanding and a window wide enough, up to 1480 bytes can be sent at once. */
  lemma LargestPayload(c: Conn, payload: seq<byte>, capacity: nat)
    requires c.state.Established? && c.localPort != 0 && c.remotePort != 0 && c.unacknowledged == c.sendNext
    requires |payload| <= c.peerWindow && capacity >= 20 + |payload|
    ensures MayBuild(c, 0, payload, capacity) <==> |payload| <= 1480
  {}

  lemma WrapDifference(base: int, p: int, q: int)
    requires 0 <= p - q < 0x1_0000_0000
    ensures Wrap(Wrap(base + p) - Wrap(base + q)) == p - q
  {}
}
