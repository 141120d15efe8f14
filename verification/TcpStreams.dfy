/** Runs from the start that open a connection, bring any two streams across and close it again. */
module TcpStreams {
  import opened Bits
  import opened Checksum
  import opened Packets
  import opened Tcp
  import opened TcpSystem
  import opened TcpProgress

  // ------------------------------------------------------------ one segment across and back

  /** One end of an open connection that has sent, and had acknowledged, all it was given. */
  predicate Settled(x: End, y: End) {
    && x.conn.state.Established? && x.conn.localPort != 0 && x.conn.remotePort == y.conn.localPort
    && x.conn.peerWindow > 0 && x.conn.window > 0 && !x.conn.pending
    && x.accepted == y.given && x.acked == |x.given|
  }

  predicate Idle(h: Half) {
    Inv(h) && Settled(h.me, h.peer) && Settled(h.peer, h.me)
  }

  /** There are numbers for `n` more bytes before 2^32, and for the stream as a whole. */
  predicate Room(x: End, n: nat) {
    |x.given| + n + 3 <= 0x1_0000_0000 && x.iss + 1 + |x.given| + n < 0x1_0000_0000
  }

  /** Sequence numbers of an idle end are plain sums. */
  lemma IdleNumbers(h: Half)
    requires Idle(h) && Room(h.me, 0) && Room(h.peer, 0)
    ensures h.me.started && h.me.synced && !h.me.fin && !h.me.finSeen
    ensures h.me.conn.sendNext == h.me.conn.unacknowledged == h.peer.conn.receiveNext == h.me.iss + 1 + |h.me.given|
    ensures h.me.conn.receiveNext == h.peer.conn.sendNext == h.peer.iss + 1 + |h.peer.given|
  {
    hide AllOk, KeptOk;
  }

  /** The packet of one byte. */
  function ByteSegment(h: Half, b: byte): (s: TcpSegment) {
    TcpSegment(h.me.conn.localPort, h.me.conn.remotePort, h.me.conn.sendNext, h.me.conn.receiveNext, 24,
               h.me.conn.window, [b])
  }

  function BytePacket(h: Half, b: byte): (m: InFlight)
    requires TcpBuildable(ByteSegment(h, b))
  {
    Packet(h, ByteSegment(h, b), |h.me.given|, |h.me.accepted|)
  }

  const WRITE_CAPACITY := 1500

  function Written(h: Half, b: byte): (h': Half) {
    DoWrite(h, 0, [b], WRITE_CAPACITY)
  }

  /** An idle end may send a byte. */
  lemma ByteWritten(h: Half, b: byte)
    requires Idle(h) && Room(h.me, 1) && Room(h.peer, 0)
    ensures TcpBuildable(ByteSegment(h, b))
    ensures var h', m := Written(h, b), BytePacket(h, b);
      && h'.me == h.me.(conn := h'.me.conn, given := h.me.given + [b], kept := {m})
      && h'.me.conn == h.me.conn.(sendNext := Wrap(h.me.conn.sendNext + 1), recorded := m.bytes, retries := 0,
                                  lastTick := 0, pending := true, sequenceEnd := Wrap(h.me.conn.sendNext + 1))
      && h' == h.(me := h'.me, outbox := h.outbox + {m}) && Inv(h')
  {
    hide AllOk, KeptOk, EndOk, TcpPacket;
    IdleNumbers(h);
    assert SendFlags(0, [b]) == 24;
    assert Outgoing(h.me.conn, 0, [b]) == ByteSegment(h, b);
    WriteKeeps(h, 0, [b], WRITE_CAPACITY);
  }

  /** The byte arrives at the other end. */
  function Arrived(h: Half, b: byte): (g: Half)
    requires TcpBuildable(ByteSegment(h, b))
  {
    DoDeliver(Swap(Written(h, b)), BytePacket(h, b))
  }

  lemma ByteArrives(h: Half, b: byte)
    requires Idle(h) && Room(h.me, 1) && Room(h.peer, 0) && TcpBuildable(ByteSegment(h, b))
    ensures var g, g' := Swap(Written(h, b)), Arrived(h, b);
      && g'.me == h.peer.(conn := h.peer.conn.(peerWindow := h.me.conn.window,
                                               receiveNext := Wrap(h.peer.conn.receiveNext + 1)),
                          accepted := h.peer.accepted + [b])
      && TcpBuildable(PlainAck(g', ByteSegment(h, b)))
      && g' == g.(me := g'.me, outbox := g.outbox + {
           Packet(g, PlainAck(g', ByteSegment(h, b)), |h.peer.given|, |h.me.given| + 1)})
      && Inv(g')
  {
    hide AllOk, KeptOk, EndOk, TcpPacket, TcpBuildable, Wrap, DoDeliver, DoWrite;
    IdleNumbers(h);
    SwapKeeps(h);
    IdleNumbers(Swap(h));
    ByteWritten(h, b);
    SwapKeeps(Written(h, b));
    var g := Swap(Written(h, b));
    InOrderTaken(g, BytePacket(h, b));
    DeliverKeeps(g, BytePacket(h, b));
  }

  /** The acknowledgment of the byte. */
  function ByteAck(h: Half, b: byte): (m: InFlight)
    requires TcpBuildable(ByteSegment(h, b)) && TcpBuildable(PlainAck(Arrived(h, b), ByteSegment(h, b)))
  {
    Packet(Swap(h), PlainAck(Arrived(h, b), ByteSegment(h, b)), |h.peer.given|, |h.me.given| + 1)
  }

  /** The acknowledgment comes back, and both ends are idle again with one byte more across. */
  lemma ByteCrosses(h: Half, b: byte)
    requires Idle(h) && Room(h.me, 1) && Room(h.peer, 0) && TcpBuildable(ByteSegment(h, b))
    requires TcpBuildable(PlainAck(Arrived(h, b), ByteSegment(h, b)))
    ensures var h' := DoDeliver(Swap(Arrived(h, b)), ByteAck(h, b));
      && Idle(h') && h'.me.given == h.me.given + [b] && h'.me.iss == h.me.iss
      && h'.peer.given == h.peer.given && h'.peer.iss == h.peer.iss
  {
    hide AllOk, KeptOk, EndOk, TcpPacket, TcpBuildable, DoDeliver, DoWrite;
    IdleNumbers(h);
    SwapKeeps(h);
    IdleNumbers(Swap(h));
    ByteWritten(h, b);
    ByteArrives(h, b);
    SwapKeeps(Arrived(h, b));
    var h2 := Swap(Arrived(h, b));
    InOrderTaken(h2, ByteAck(h, b));
    DeliverKeeps(h2, ByteAck(h, b));
  }

  // ------------------------------------------------------------ on the whole system

  lemma SideStep(s: System, first: bool, e: Event)
    ensures s.Step(first, e).Side(first) == Act(s.Side(first), e)
    ensures s.Step(!first, e).Side(first) == Swap(Act(Swap(s.Side(first)), e))
  {
    hide Act;
    ActGrows(s.Side(first), e);
    ActGrows(s.Side(!first), e);
  }

  lemma {:induction false} RunAppend(s: System, before: seq<(bool, Event)>, after: seq<(bool, Event)>)
    ensures Run(s, before + after) == Run(Run(s, before), after)
    decreases |after|
  {
    hide Act;
    if after == [] {
      assert before + after == before;
    } else {
      var n := |after| - 1;
      RunAppend(s, before, after[..n]);
      assert (before + after)[..|before| + n] == before + after[..n];
    }
  }

  lemma RunThree(s: System, x: (bool, Event), y: (bool, Event), z: (bool, Event))
    ensures Run(s, [x, y, z]) == s.Step(x.0, x.1).Step(y.0, y.1).Step(z.0, z.1)
  {
    assert [x, y, z][..2] == [x, y] && [x, y][..1] == [x] && [x][..0] == [];
    assert Run(s, [x]) == s.Step(x.0, x.1);
    assert Run(s, [x, y]) == s.Step(x.0, x.1).Step(y.0, y.1);
  }

  /** Three events bring one byte across. */
  lemma ByteEvents(s: System, first: bool, b: byte) returns (events: seq<(bool, Event)>)
    requires Idle(s.Side(first)) && Room(s.Side(first).me, 1) && Room(s.Side(first).peer, 0)
    ensures var h, h' := s.Side(first), Run(s, events).Side(first);
      && Idle(h') && h'.me.given == h.me.given + [b] && h'.me.iss == h.me.iss
      && h'.peer.given == h.peer.given && h'.peer.iss == h.peer.iss
  {
    hide Idle, Room, Settled, DoDeliver, DoWrite, TcpBuildable, Run;
    var h := s.Side(first);
    ByteWritten(h, b);
    ByteArrives(h, b);
    ByteCrosses(h, b);
    var x, y, z := Write(0, [b], WRITE_CAPACITY), Deliver(BytePacket(h, b)), Deliver(ByteAck(h, b));
    SideStep(s, first, x);
    SideStep(s.Step(first, x), first, y);
    SideStep(s.Step(first, x).Step(!first, y), first, z);
    RunThree(s, (first, x), (!first, y), (first, z));
    events := [(first, x), (!first, y), (first, z)];
  }

  /** From an idle connection, any bytes that there are numbers for can be brought across and acknowledged. */
  lemma {:induction false} BytesCross(s: System, first: bool, data: seq<byte>) returns (events: seq<(bool, Event)>)
    requires Idle(s.Side(first)) && Room(s.Side(first).me, |data|) && Room(s.Side(first).peer, 0)
    ensures var h, h' := s.Side(first), Run(s, events).Side(first);
      && Idle(h') && h'.me.given == h.me.given + data && h'.me.iss == h.me.iss
      && h'.peer.given == h.peer.given && h'.peer.iss == h.peer.iss
    decreases |data|
  {
    hide Idle, Settled;
    if data == [] {
      events := [];
      assert s.Side(first).me.given + data == s.Side(first).me.given;
    } else {
      var one := ByteEvents(s, first, data[0]);
      var rest := BytesCross(Run(s, one), first, data[1..]);
      RunAppend(s, one, rest);
      events := one + rest;
      assert s.Side(first).me.given + [data[0]] + data[1..] == s.Side(first).me.given + data;
    }
  }

  // ------------------------------------------------------------ opening

  /** Who calls whom: the caller's first sequence number, and both ends' addresses, ports and windows. */
  datatype Setup = Setup(addressA: Address, addressB: Address, portA: u16, windowA: u16, portB: u16, windowB: u16,
                         sequence: u32)

  predicate Proper(p: Setup) {
    p.portA != 0 && p.portB != 0 && p.windowA > 0 && p.windowB > 0 && p.sequence < 0xffff_ffff
  }

  function SynPacket(p: Setup): (m: InFlight)
    requires Proper(p)
  {
    var s := TcpSegment(p.portA, p.portB, p.sequence, 0, SYN, p.windowA, []);
    InFlight(TcpPacket(p.addressA, p.addressB, s), s, -1, 0)
  }

  function SynAckPacket(p: Setup): (m: InFlight)
    requires Proper(p)
  {
    var s := TcpSegment(p.portB, p.portA, 0, p.sequence + 1, SYN + ACK, p.windowA, []);
    InFlight(TcpPacket(p.addressB, p.addressA, s), s, -1, 0)
  }

  function AckPacket(p: Setup): (m: InFlight)
    requires Proper(p)
  {
    var s := TcpSegment(p.portA, p.portB, p.sequence + 1, 1, ACK, p.windowA, []);
    InFlight(TcpPacket(p.addressA, p.addressB, s), s, 0, 0)
  }

  function Caller(p: Setup): (e: End)
    requires Proper(p)
  {
    FRESH.(conn := Conn(SynSent, p.sequence, p.sequence + 1, 0, p.windowA, p.windowA, p.portA, p.portB, true, 0,
                        SynPacket(p).bytes, 0, 0),
           used := true, started := true, iss := p.sequence, kept := {SynPacket(p)})
  }

  function Listener(p: Setup): (e: End) {
    FRESH.(conn := Initial(p.portB, p.windowB).(state := Listen), used := true)
  }

  function Answering(p: Setup): (e: End)
    requires Proper(p)
  {
    FRESH.(conn := Conn(SynReceived, 0, 1, p.sequence + 1, p.windowB, p.windowA, p.portB, p.portA, false, 0, [], 0, 0),
           used := true, started := true, synced := true)
  }

  /** One end listens and the other calls. */
  function Called(p: Setup): (h: Half)
    requires Proper(p)
  {
    Half(Caller(p), Listener(p), {}, {SynPacket(p)}, p.addressA, p.addressB)
  }

  lemma CalledFrom(p: Setup)
    requires Proper(p)
    ensures var h := Start(p.addressA, p.addressB).Side(true);
      Called(p) == DoConnect(Swap(DoListen(Swap(h), p.portB, p.windowB)), p.portA, p.windowA, p.sequence, p.portB)
    ensures Inv(Called(p))
  {
    hide TcpPacket;
    var h := Start(p.addressA, p.addressB).Side(true);
    var g := DoListen(Swap(h), p.portB, p.windowB);
    StartOk(p.addressA, p.addressB);
    SwapKeeps(h);
    ListenKeeps(Swap(h), p.portB, p.windowB);
    SwapKeeps(g);
    ConnectKeeps(Swap(g), p.portA, p.windowA, p.sequence, p.portB);
  }

  /** The SYN is answered. */
  function Answered(p: Setup): (g: Half)
    requires Proper(p)
  {
    Half(Answering(p), Caller(p), {SynPacket(p)}, {SynAckPacket(p)}, p.addressB, p.addressA)
  }

  lemma AnsweredFrom(p: Setup)
    requires Proper(p) && Inv(Called(p))
    ensures DoDeliver(Swap(Called(p)), SynPacket(p)) == Answered(p) && Inv(Answered(p))
  {
    hide TcpPacket, Inv, DoDeliver, TcpBuildable;
    SwapKeeps(Called(p));
    SynTaken(Swap(Called(p)), SynPacket(p));
    DeliverKeeps(Swap(Called(p)), SynPacket(p));
  }

  /** If the answer is lost, the SYN sent again is answered again in the same way. */
  lemma SynAnsweredAgain(p: Setup)
    requires Proper(p) && Inv(Answered(p))
    ensures DoDeliver(Answered(p), SynPacket(p)) == Answered(p)
  {
    hide TcpPacket, Inv;
    DeliverIs(Answered(p), SynPacket(p));
  }

  /** The caller's connection is open. */
  function CallerOpen(p: Setup): (h: Half)
    requires Proper(p)
  {
    Half(Caller(p).(conn := Caller(p).conn.(state := Established, unacknowledged := p.sequence + 1, receiveNext := 1,
                                            pending := false),
                    synced := true, acked := 0),
         Answering(p), {SynAckPacket(p)}, {SynPacket(p), AckPacket(p)}, p.addressA, p.addressB)
  }

  lemma CallerOpenFrom(p: Setup)
    requires Proper(p) && Inv(Answered(p))
    ensures DoDeliver(Swap(Answered(p)), SynAckPacket(p)) == CallerOpen(p) && Inv(CallerOpen(p))
  {
    hide TcpPacket, Inv, DoDeliver, TcpBuildable;
    SwapKeeps(Answered(p));
    SynAckTaken(Swap(Answered(p)), SynAckPacket(p));
    DeliverKeeps(Swap(Answered(p)), SynAckPacket(p));
  }

  lemma BothOpenFrom(p: Setup)
    requires Proper(p) && Inv(CallerOpen(p))
    ensures var h := Swap(DoDeliver(Swap(CallerOpen(p)), AckPacket(p)));
      && Idle(h) && h.me.given == [] && h.peer.given == [] && h.me.iss == p.sequence && h.peer.iss == 0
  {
    hide TcpPacket, Inv, DoDeliver, TcpBuildable;
    SwapKeeps(CallerOpen(p));
    FirstAckTaken(Swap(CallerOpen(p)), AckPacket(p));
    DeliverKeeps(Swap(CallerOpen(p)), AckPacket(p));
    SwapKeeps(DoDeliver(Swap(CallerOpen(p)), AckPacket(p)));
  }

  /** Five events open both ends. */
  lemma OpenEvents(p: Setup) returns (events: seq<(bool, Event)>)
    requires Proper(p)
    ensures var h := Run(Start(p.addressA, p.addressB), events).Side(true);
      && Idle(h) && h.me.given == [] && h.peer.given == [] && h.me.iss == p.sequence && h.peer.iss == 0
  {
    hide Idle, DoDeliver, DoListen, DoConnect, Inv, Run;
    var s := Start(p.addressA, p.addressB);
    var v, w := StartListen(p.portB, p.windowB), Connect(p.portA, p.windowA, p.sequence, p.portB);
    var x, y, z := Deliver(SynPacket(p)), Deliver(SynAckPacket(p)), Deliver(AckPacket(p));
    CalledFrom(p);
    SideStep(s, true, v);
    var s1 := s.Step(false, v);
    SideStep(s1, true, w);
    var s2 := s1.Step(true, w);
    AnsweredFrom(p);
    SideStep(s2, true, x);
    var s3 := s2.Step(false, x);
    CallerOpenFrom(p);
    SideStep(s3, true, y);
    var s4 := s3.Step(true, y);
    BothOpenFrom(p);
    SideStep(s4, true, z);
    RunTwo(s, (false, v), (true, w));
    RunThree(s2, (false, x), (true, y), (false, z));
    RunAppend(s, [(false, v), (true, w)], [(false, x), (true, y), (false, z)]);
    events := [(false, v), (true, w)] + [(false, x), (true, y), (false, z)];
  }

  lemma RunTwo(s: System, x: (bool, Event), y: (bool, Event))
    ensures Run(s, [x, y]) == s.Step(x.0, x.1).Step(y.0, y.1)
  {
    assert [x, y][..1] == [x] && [x][..0] == [];
    assert Run(s, [x]) == s.Step(x.0, x.1);
  }

  // ------------------------------------------------------------ closing

  function FinSegment(h: Half): (s: TcpSegment) {
    TcpSegment(h.me.conn.localPort, h.me.conn.remotePort, h.me.conn.sendNext, h.me.conn.receiveNext, FIN + ACK,
               h.me.conn.window, [])
  }

  /** An end with nothing outstanding may send its FIN. */
  lemma FinWritten(h: Half) returns (m: InFlight)
    requires Inv(h) && Open(h.me.conn) && h.me.conn.localPort != 0 && h.me.conn.remotePort != 0
    requires h.me.conn.unacknowledged == h.me.conn.sendNext && h.me.conn.peerWindow > 0
    ensures TcpBuildable(FinSegment(h)) && m == Packet(h, FinSegment(h), |h.me.given|, h.me.ReceivePosition())
    ensures var h' := DoWrite(h, FIN, [], WRITE_CAPACITY);
      && h'.me == h.me.(conn := h'.me.conn, fin := true, kept := {m})
      && h'.me.conn == h.me.conn.(sendNext := Wrap(h.me.conn.sendNext + 1), recorded := m.bytes, retries := 0,
                                  lastTick := 0, pending := true, sequenceEnd := Wrap(h.me.conn.sendNext + 1),
                                  state := if h.me.conn.state.CloseWait? then LastAck else FinWait1)
      && h' == h.(me := h'.me, outbox := h.outbox + {m}) && Inv(h')
  {
    hide AllOk, KeptOk, TcpPacket;
    assert SendFlags(FIN, []) == FIN + ACK;
    assert Outgoing(h.me.conn, FIN, []) == FinSegment(h);
    m := Packet(h, FinSegment(h), |h.me.given|, h.me.ReceivePosition());
    assert h.me.given + [] == h.me.given;
    WriteKeeps(h, FIN, [], WRITE_CAPACITY);
  }

  /** One end has closed its stream and knows that the other has seen it. */
  predicate HalfClosed(h: Half) {
    && Inv(h) && h.me.conn.state.FinWait2? && h.peer.conn.state.CloseWait?
    && h.me.conn.localPort != 0 && h.peer.conn.localPort != 0
    && h.me.conn.remotePort == h.peer.conn.localPort && h.peer.conn.remotePort == h.me.conn.localPort
    && h.peer.conn.peerWindow > 0 && h.me.accepted == h.peer.given
    && h.me.acked == |h.me.given| + 1 && h.peer.acked == |h.peer.given|
  }

  /** The other end takes the FIN. */
  lemma FinArrives(h: Half, h1: Half, m: InFlight) returns (a: InFlight)
    requires Idle(h) && Room(h.me, 0) && Room(h.peer, 0) && h1 == DoWrite(h, FIN, [], WRITE_CAPACITY)
    requires TcpBuildable(FinSegment(h)) && m == Packet(h, FinSegment(h), |h.me.given|, h.me.ReceivePosition())
    ensures var g := DoDeliver(Swap(h1), m);
      && g.me == h.peer.(conn := h.peer.conn.(peerWindow := h.me.conn.window, state := CloseWait,
                                              receiveNext := Wrap(h.peer.conn.receiveNext + 1)), finSeen := true)
      && g == Swap(h1).(me := g.me, outbox := h.inbox + {a}) && Inv(g)
      && TcpBuildable(PlainAck(g, m.segment))
      && a == Packet(Swap(h), PlainAck(g, m.segment), |h.peer.given|, |h.me.given| + 1)
  {
    hide AllOk, KeptOk, EndOk, TcpPacket, TcpBuildable, Wrap, DoDeliver, DoWrite;
    IdleNumbers(h);
    SwapKeeps(h);
    IdleNumbers(Swap(h));
    var m1 := FinWritten(h);
    SwapKeeps(h1);
    InOrderTaken(Swap(h1), m);
    DeliverKeeps(Swap(h1), m);
    var g := DoDeliver(Swap(h1), m);
    assert h.peer.accepted + [] == h.peer.accepted;
    a := Packet(Swap(h), PlainAck(g, m.segment), |h.peer.given|, |h.me.given| + 1);
  }

  /** An acknowledgment of everything lets FIN_WAIT_1 pass. */
  lemma FinAcknowledged(h: Half, a: InFlight)
    requires Inv(h) && Short(h.me) && a in h.inbox && h.me.conn.state.FinWait1?
    requires PortsMatch(h.me.conn, a.segment) && !Rst(a.segment.flags) && Ack(a.segment.flags)
    requires a.segment.acknowledgment == h.me.conn.sendNext
    ensures DoDeliver(h, a) == h.(me := h.me.(
      conn := h.me.conn.(unacknowledged := h.me.conn.sendNext, peerWindow := a.segment.window, pending := false,
                         state := FinWait2), acked := h.me.SendPosition()))
  {
    hide AllOk, KeptOk, TcpPacket, TcpBuildable, Wrap;
    DeliverIs(h, a);
    AckPositionIs(a, h.me, h.peer, h.me.SendPosition());
    if h.me.conn.unacknowledged == h.me.conn.sendNext {
      WrapInjective(h.me.iss + 1, h.me.acked, h.me.SendPosition());
    }
  }

  lemma HalfCloses(h: Half) returns (m: InFlight, a: InFlight)
    requires Idle(h) && Room(h.me, 0) && Room(h.peer, 0)
    ensures var h' := DoDeliver(Swap(DoDeliver(Swap(DoWrite(h, FIN, [], WRITE_CAPACITY)), m)), a);
      HalfClosed(h') && h'.me.given == h.me.given && h'.peer.given == h.peer.given
  {
    hide AllOk, KeptOk, EndOk, TcpPacket, TcpBuildable, DoDeliver, DoWrite;
    IdleNumbers(h);
    SwapKeeps(h);
    IdleNumbers(Swap(h));
    m := FinWritten(h);
    var h1 := DoWrite(h, FIN, [], WRITE_CAPACITY);
    a := FinArrives(h, h1, m);
    var h2 := Swap(DoDeliver(Swap(h1), m));
    SwapKeeps(h2);
    FinAcknowledged(h2, a);
    DeliverKeeps(h2, a);
  }

  /** FIN_WAIT_2 takes the other end's FIN and answers it. */
  lemma LastFinArrives(h: Half, m: InFlight) returns (a: InFlight)
    requires Inv(h) && Short(h.peer) && m in h.inbox && h.me.conn.state.FinWait2?
    requires PortsMatch(h.me.conn, m.segment) && !Rst(m.segment.flags) && Fin(m.segment.flags)
    requires m.segment.sequence == h.me.conn.receiveNext
    ensures var h' := DoDeliver(h, m);
      && h'.me == h.me.(conn := h.me.conn.(receiveNext := Wrap(h.me.conn.receiveNext + 1), state := TimeWait),
                        finSeen := true)
      && h' == h.(me := h'.me, outbox := h.outbox + {a}) && TcpBuildable(PlainAck(h', m.segment))
      && a == Packet(h, PlainAck(h', m.segment), h'.me.SendPosition(), h'.me.ReceivePosition())
  {
    hide AllOk, KeptOk, TcpPacket, TcpBuildable, Wrap;
    DeliverIs(h, m);
    var c := h.me.conn.(receiveNext := Wrap(h.me.conn.receiveNext + 1), state := TimeWait);
    AnswerBuildable(m.segment, AckReply(c, 0));
    var h' := DoDeliver(h, m);
    a := Packet(h, PlainAck(h', m.segment), h'.me.SendPosition(), h'.me.ReceivePosition());
  }

  /** An acknowledgment of everything ends LAST_ACK. */
  lemma LastAcknowledged(h: Half, a: InFlight)
    requires Inv(h) && Short(h.me) && a in h.inbox && h.me.conn.state.LastAck?
    requires PortsMatch(h.me.conn, a.segment) && !Rst(a.segment.flags) && Ack(a.segment.flags)
    requires a.segment.acknowledgment == h.me.conn.sendNext
    ensures DoDeliver(h, a) == h.(me := h.me.(
      conn := h.me.conn.(unacknowledged := h.me.conn.sendNext, state := Closed), acked := h.me.SendPosition()))
  {
    hide AllOk, KeptOk, TcpPacket, TcpBuildable, Wrap;
    DeliverIs(h, a);
    AckPositionIs(a, h.me, h.peer, h.me.SendPosition());
    if h.me.conn.unacknowledged == h.me.conn.sendNext {
      WrapInjective(h.me.iss + 1, h.me.acked, h.me.SendPosition());
    }
  }

  /** Both streams are closed, seen to be closed, and known to be seen. */
  predicate AllClosed(h: Half) {
    && h.me.conn.state.TimeWait? && h.peer.conn.state.Closed?
    && h.me.fin && h.peer.fin && h.me.finSeen && h.peer.finSeen
    && h.me.accepted == h.peer.given && h.peer.accepted == h.me.given
    && h.me.acked == |h.me.given| + 1 && h.peer.acked == |h.peer.given| + 1
  }

  lemma HalfClosedNumbers(h: Half)
    requires HalfClosed(h)
    ensures h.me.synced && h.me.fin && !h.me.finSeen && !h.peer.fin && h.peer.finSeen && h.peer.accepted == h.me.given
    ensures h.peer.conn.unacknowledged == h.peer.conn.sendNext == h.me.conn.receiveNext
  {
    hide AllOk, KeptOk;
  }

  lemma OtherCloses(h: Half) returns (m: InFlight, a: InFlight)
    requires HalfClosed(h) && Short(h.me) && Short(h.peer)
    ensures var h' := Swap(DoDeliver(Swap(DoDeliver(Swap(DoWrite(Swap(h), FIN, [], WRITE_CAPACITY)), m)), a));
      AllClosed(h') && h'.me.given == h.me.given && h'.peer.given == h.peer.given
  {
    hide AllOk, KeptOk, EndOk, TcpPacket, TcpBuildable, DoDeliver, DoWrite, Wrap, Inv;
    HalfClosedNumbers(h);
    SwapKeeps(h);
    m := FinWritten(Swap(h));
    var h1 := Swap(DoWrite(Swap(h), FIN, [], WRITE_CAPACITY));
    SwapKeeps(h1);
    a := LastFinArrives(h1, m);
    DeliverKeeps(h1, m);
    var h2 := DoDeliver(h1, m);
    SwapKeeps(h2);
    AckNumber(h2);
    LastAcknowledged(Swap(h2), a);
  }

  /** What has been received to the end is acknowledged with the other end's next number. */
  lemma AckNumber(h: Half)
    requires Inv(h) && h.me.synced && h.me.ReceivePosition() == h.peer.SendPosition()
    ensures h.me.conn.receiveNext == h.peer.conn.sendNext
  {
    hide AllOk, KeptOk;
  }

  /** Six events close an idle connection from both ends. */
  lemma CloseEvents(s: System, first: bool) returns (events: seq<(bool, Event)>)
    requires Idle(s.Side(first)) && Room(s.Side(first).me, 0) && Room(s.Side(first).peer, 0)
    ensures var h, h' := s.Side(first), Run(s, events).Side(first);
      AllClosed(h') && h'.me.given == h.me.given && h'.peer.given == h.peer.given
  {
    hide Idle, AllClosed, HalfClosed, DoDeliver, DoWrite, Run;
    var m, a := HalfCloses(s.Side(first));
    var w, x, y := Write(FIN, [], WRITE_CAPACITY), Deliver(m), Deliver(a);
    SideStep(s, first, w);
    SideStep(s.Step(first, w), first, x);
    SideStep(s.Step(first, w).Step(!first, x), first, y);
    RunThree(s, (first, w), (!first, x), (first, y));
    var s3 := s.Step(first, w).Step(!first, x).Step(first, y);
    var m', a' := OtherCloses(s3.Side(first));
    var x', y' := Deliver(m'), Deliver(a');
    SideStep(s3, first, w);
    SideStep(s3.Step(!first, w), first, x');
    SideStep(s3.Step(!first, w).Step(first, x'), first, y');
    RunThree(s3, (!first, w), (first, x'), (!first, y'));
    RunAppend(s, [(first, w), (!first, x), (first, y)], [(!first, w), (first, x'), (!first, y')]);
    events := [(first, w), (!first, x), (first, y)] + [(!first, w), (first, x'), (!first, y')];
  }

  /**
   * Whatever the two streams, there is a run from the start that opens both ends and ends with each having accepted
   * all that the other was given, and everything acknowledged. The streams need distinct numbers, and the caller's
   * must not pass 2^32: with a first number of 0 any stream that is short will do.
   */
  lemma StreamsComplete(p: Setup, dataA: seq<byte>, dataB: seq<byte>) returns (events: seq<(bool, Event)>)
    requires Proper(p) && |dataA| + 3 <= 0x1_0000_0000 && |dataB| + 3 <= 0x1_0000_0000
    requires p.sequence + 1 + |dataA| < 0x1_0000_0000
    ensures var s := Run(Start(p.addressA, p.addressB), events);
      && s.a.conn.state.Established? && s.b.conn.state.Established? && s.a.iss == p.sequence
      && s.a.given == dataA && s.b.given == dataB && s.a.accepted == dataB && s.b.accepted == dataA
      && s.a.acked == |dataA| && s.b.acked == |dataB| && !s.a.conn.pending && !s.b.conn.pending
      && Idle(s.Side(true)) && s.b.iss == 0
  {
    hide Proper, Inv, Run;
    var start := Start(p.addressA, p.addressB);
    var opening := OpenEvents(p);
    var s1 := Run(start, opening);
    var over := BytesCross(s1, true, dataA);
    var s2 := Run(s1, over);
    SwapKeeps(s2.Side(true));
    var back := BytesCross(s2, false, dataB);
    SwapKeeps(Run(s2, back).Side(false));
    RunAppend(start, opening, over);
    RunAppend(start, opening + over, back);
    events := opening + over + back;
  }

  /** And from there the run can go on until both streams are closed at both ends. */
  lemma StreamsClose(p: Setup, dataA: seq<byte>, dataB: seq<byte>) returns (events: seq<(bool, Event)>)
    requires Proper(p) && |dataA| + 3 <= 0x1_0000_0000 && |dataB| + 3 <= 0x1_0000_0000
    requires p.sequence + 1 + |dataA| < 0x1_0000_0000
    ensures var s := Run(Start(p.addressA, p.addressB), events);
      && AllClosed(s.Side(true)) && s.a.given == dataA && s.b.given == dataB
  {
    hide Proper, AllClosed, Run, Inv, Settled;
    var start := Start(p.addressA, p.addressB);
    var before := StreamsComplete(p, dataA, dataB);
    var after := CloseEvents(Run(start, before), true);
    RunAppend(start, before, after);
    events := before + after;
  }
}
