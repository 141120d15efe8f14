/** One end of a TCP connection. */
module Tcp {
  import opened Bits
  import opened Checksum
  import opened Packets

  const FIN: byte := 1
  const SYN: byte := 2
  const RST: byte := 4
  const ACK: byte := 16
  const RETRANSMIT_MAX := 1500
  const RETRIES_MAX := 3

  datatype State =
    | Closed | Listen | SynSent | SynReceived | Established | FinWait1 | FinWait2 | CloseWait | LastAck | TimeWait

  /** Sequence numbers wrap at 2^32. */
  function Wrap(x: int): (w: u32) {
    x % 0x1_0000_0000
  }

  datatype Conn = Conn(state: State, unacknowledged: u32, sendNext: u32, receiveNext: u32, window: u16, peerWindow: u16,
                       localPort: u16, remotePort: u16, pending: bool, retries: nat, recorded: seq<byte>,
                       sequenceEnd: u32, lastTick: nat)

  /** The answer a received segment calls for; flags 0 stand for none. */
  datatype Reply = Reply(flags: byte, sequence: u32, acknowledgment: u32, accepted: nat)

  const NO_REPLY := Reply(0, 0, 0, 0)

  function Initial(localPort: u16, window: u16): (c: Conn) {
    Conn(Closed, 0, 0, 0, window, window, localPort, 0, false, 0, [], 0, 0)
  }

  // ------------------------------------------------------------ opening

  datatype Changed = Refused | Changed(conn: Conn)

  function ListenOn(c: Conn): (r: Changed) {
    if c.localPort == 0 || !c.state.Closed? then Refused else Changed(c.(state := Listen))
  }

  function OpenTo(c: Conn, sequence: u32, remotePort: u16): (r: Changed) {
    if c.localPort == 0 || remotePort == 0 || !c.state.Closed? then Refused
    else Changed(c.(remotePort := remotePort, sendNext := Wrap(sequence + 1), unacknowledged := sequence,
                    state := SynSent))
  }

  // ------------------------------------------------------------ receiving

  datatype Received = Ignored | Received(conn: Conn, reply: Reply)

  predicate PortsMatch(c: Conn, s: TcpSegment) {
    s.destinationPort == c.localPort && (c.remotePort != 0 ==> s.sourcePort == c.remotePort)
  }

  function AckReply(c: Conn, accepted: nat): (r: Reply) {
    Reply(ACK, c.sendNext, c.receiveNext, accepted)
  }

  /** A segment that acknowledges everything sent. */
  function Acknowledged(c: Conn, s: TcpSegment): (c': Conn) {
    c.(unacknowledged := c.sendNext, peerWindow := s.window, pending := false)
  }

  /** Segments before the connection is established. */
  function ReceiveHandshake(c: Conn, s: TcpSegment): (r: Received) {
    match c.state
    case Listen =>
      if !Syn(s.flags) then Ignored
      else
        var c' := c.(remotePort := s.sourcePort, receiveNext := Wrap(s.sequence + 1), sendNext := 1,
                     unacknowledged := 0, peerWindow := s.window, state := SynReceived);
        Received(c', Reply(SYN + ACK, 0, c'.receiveNext, 0))
    case SynSent =>
      if !Syn(s.flags) || !Ack(s.flags) || s.acknowledgment != c.sendNext || s.acknowledgment < c.unacknowledged
        then Ignored
      else
        var c' := Acknowledged(c, s).(receiveNext := Wrap(s.sequence + 1), state := Established);
        Received(c', AckReply(c', 0))
    case SynReceived =>
      if Syn(s.flags) && Wrap(s.sequence + 1) == c.receiveNext then
        Received(c, Reply(SYN + ACK, c.unacknowledged, c.receiveNext, 0))
      else if Ack(s.flags) && s.acknowledgment == c.sendNext then
        Received(Acknowledged(c, s).(state := Established), NO_REPLY)
      else Ignored
    case _ => Ignored
  }

  /** Segments while this end is closing. */
  function ReceiveClosing(c: Conn, s: TcpSegment): (r: Received) {
    match c.state
    case FinWait1 =>
      if Ack(s.flags) && s.acknowledgment == c.sendNext then Received(Acknowledged(c, s).(state := FinWait2), NO_REPLY)
      else Ignored
    case FinWait2 =>
      if Fin(s.flags) && s.sequence == c.receiveNext then
        var c' := c.(receiveNext := Wrap(c.receiveNext + 1), state := TimeWait);
        Received(c', AckReply(c', 0))
      else Ignored
    case LastAck =>
      if Ack(s.flags) && s.acknowledgment == c.sendNext then
        Received(c.(unacknowledged := c.sendNext, state := Closed), NO_REPLY)
      else Ignored
    case _ => Ignored
  }

  /** Segments of an established connection. */
  function ReceiveData(c: Conn, s: TcpSegment): (r: Received) {
    if !Ack(s.flags) || s.acknowledgment < c.unacknowledged || s.acknowledgment > c.sendNext then Ignored
    else if s.sequence != c.receiveNext then Received(c, AckReply(c, 0))
    else
      var c' := c.(unacknowledged := s.acknowledgment, peerWindow := s.window,
                   pending := c.pending && s.acknowledgment < c.sequenceEnd,
                   receiveNext := Wrap(c.receiveNext + |s.payload| + (if Fin(s.flags) then 1 else 0)),
                   state := if Fin(s.flags) then CloseWait else c.state);
      Received(c', AckReply(c', |s.payload|))
  }

  function Receive(c: Conn, s: TcpSegment): (r: Received) {
    if !PortsMatch(c, s) then Ignored
    else if Rst(s.flags) then Received(c.(state := Closed), Reply(RST, 0, 0, 0))
    else if c.state.Established? || c.state.CloseWait? then ReceiveData(c, s)
    else if c.state.Listen? || c.state.SynSent? || c.state.SynReceived? then ReceiveHandshake(c, s)
    else ReceiveClosing(c, s)
  }

  lemma WrapWithin(x: nat)
    requires x < 0x2_0000_0000
    ensures Wrap(x) == if x < 0x1_0000_0000 then x else x - 0x1_0000_0000
  {}

  /** With `n` numbers outstanding, a segment that acknowledges any of them, or none, is heard at all exactly when
      the outstanding numbers do not pass 2^32: acknowledgments are compared as they stand. */
  lemma AckHeardIffUnwrapped(c: Conn, s: TcpSegment, n: nat, a: nat)
    requires (c.state.Established? || c.state.CloseWait?) && PortsMatch(c, s) && !Rst(s.flags) && Ack(s.flags)
    requires a <= n < 0x1_0000_0000 && c.sendNext == Wrap(c.unacknowledged + n)
    requires s.acknowledgment == Wrap(c.unacknowledged + a)
    ensures Receive(c, s).Received? <==> c.unacknowledged + n < 0x1_0000_0000
  {
    hide Wrap, Ack, Rst, Fin;
    WrapWithin(c.unacknowledged + n);
    WrapWithin(c.unacknowledged + a);
  }

  /** Two bytes outstanding across 2^32: the segment that acknowledges both and brings data is ignored. */
  lemma WrappedAckIgnored()
    ensures var c := Conn(Established, 0xffff_ffff, 1, 500, 1000, 1000, 80, 90, true, 0, [], 1, 0);
      Receive(c, TcpSegment(90, 80, 500, 1, ACK, 1000, [7])) == Ignored
  {}

  // ------------------------------------------------------------ sending

  function WithAck(flags: byte): (f: byte) {
    if Ack(flags) then flags else flags + 16
  }

  function WithPush(flags: byte): (f: byte) {
    if flags / 8 % 2 == 1 then flags else flags + 8
  }

  /** Data carries ACK and PSH, and FIN carries ACK. */
  function SendFlags(flags: byte, payload: seq<byte>): (f: byte) {
    if payload != [] then WithPush(WithAck(flags)) else if Fin(flags) then WithAck(flags) else flags
  }

  /** Sequence numbers a segment takes up. */
  function Space(flags: byte, payload: seq<byte>): (n: nat) {
    |payload| + (if Fin(flags) then 1 else 0)
  }

  /** The segment `Build` sends. */
  function Outgoing(c: Conn, flags: byte, payload: seq<byte>): (s: TcpSegment) {
    TcpSegment(c.localPort, c.remotePort, c.sendNext, c.receiveNext, SendFlags(flags, payload), c.window, payload)
  }

  predicate MayBuild(c: Conn, flags: byte, payload: seq<byte>, capacity: nat) {
    var f := SendFlags(flags, payload);
    && (c.state.Established? || c.state.CloseWait?)
    && !Syn(flags) && !Rst(flags)
    && |payload| <= RETRANSMIT_MAX - TCP_HEADER
    && Space(f, payload) <= c.peerWindow
    && Wrap(c.sendNext - c.unacknowledged) <= c.peerWindow - Space(f, payload)
    && TcpBuildable(Outgoing(c, flags, payload)) && TCP_HEADER + |payload| <= capacity
  }

  /** Keeps a segment for retransmission. */
  function Record(c: Conn, packet: seq<byte>): (c': Conn) {
    c.(recorded := packet, retries := 0, lastTick := 0, pending := true)
  }

  function AfterBuild(c: Conn, source: Address, destination: Address, flags: byte, payload: seq<byte>): (c': Conn)
    requires TcpBuildable(Outgoing(c, flags, payload))
  {
    var f := SendFlags(flags, payload);
    var next := Wrap(c.sendNext + Space(f, payload));
    var c1 := Record(c.(sendNext := next), TcpPacket(source, destination, Outgoing(c, flags, payload)));
    c1.(sequenceEnd := next,
        state := if Fin(f) then if c.state.CloseWait? then LastAck else FinWait1 else c.state)
  }

  /** The recorded segment is due: pending, within its retries, and long enough ago. */
  predicate Due(c: Conn, now: nat, timeout: nat, capacity: nat) {
    timeout != 0 && c.pending && |c.recorded| <= capacity && c.retries < RETRIES_MAX && now >= c.lastTick
    && now - c.lastTick >= timeout
  }

  // ------------------------------------------------------------ the connection object

  class TcpConnection {
    var conn: Conn

    constructor (localPort: u16, window: u16)
      ensures conn == Initial(localPort, window)
    {
      conn := Initial(localPort, window);
    }

    method StartListening() returns (ok: bool)
      modifies this
      ensures ok <==> ListenOn(old(conn)).Changed?
      ensures conn == if ok then ListenOn(old(conn)).conn else old(conn)
    {
      if conn.localPort == 0 || conn.state != Closed {
        return false;
      }
      conn := conn.(state := Listen);
      ok := true;
    }

    method Open(sequence: u32, remotePort: u16) returns (ok: bool)
      modifies this
      ensures ok <==> OpenTo(old(conn), sequence, remotePort).Changed?
      ensures conn == if ok then OpenTo(old(conn), sequence, remotePort).conn else old(conn)
    {
      if conn.localPort == 0 || remotePort == 0 || conn.state != Closed {
        return false;
      }
      conn := conn.(remotePort := remotePort, sendNext := Wrap(sequence + 1));
      conn := conn.(unacknowledged := sequence);
      conn := conn.(state := SynSent);
      ok := true;
    }

    /** The chain of tests of the receiver, in its order. */
    method OnSegment(s: TcpSegment) returns (ok: bool, reply: Reply)
      modifies this
      ensures ok <==> Receive(old(conn), s).Received?
      ensures ok ==> Receive(old(conn), s) == Received(conn, reply)
      ensures !ok ==> conn == old(conn)
    {
      hide Wrap, Rst, Syn, Ack, Fin, ReceiveData;
      reply := NO_REPLY;
      if s.destinationPort != conn.localPort || (conn.remotePort != 0 && s.sourcePort != conn.remotePort) {
        return false, reply;
      }
      if Rst(s.flags) {
        conn := conn.(state := Closed);
        return true, Reply(RST, 0, 0, 0);
      }
      if conn.state == Listen && Syn(s.flags) {
        conn := conn.(remotePort := s.sourcePort, receiveNext := Wrap(s.sequence + 1), sendNext := 1);
        conn := conn.(unacknowledged := 0, peerWindow := s.window, state := SynReceived);
        return true, Reply(SYN + ACK, 0, conn.receiveNext, 0);
      }
      if conn.state == SynSent && Syn(s.flags) && Ack(s.flags) && s.acknowledgment == conn.sendNext {
        if s.acknowledgment < conn.unacknowledged {
          return false, reply;
        }
        conn := conn.(unacknowledged := conn.sendNext, peerWindow := s.window, pending := false);
        conn := conn.(receiveNext := Wrap(s.sequence + 1), state := Established);
        return true, Reply(ACK, conn.sendNext, conn.receiveNext, 0);
      }
      if conn.state == SynReceived && Syn(s.flags) && Wrap(s.sequence + 1) == conn.receiveNext {
        return true, Reply(SYN + ACK, conn.unacknowledged, conn.receiveNext, 0);
      }
      if conn.state == SynReceived && Ack(s.flags) && s.acknowledgment == conn.sendNext {
        conn := conn.(unacknowledged := conn.sendNext, peerWindow := s.window, pending := false, state := Established);
        return true, reply;
      }
      if conn.state == FinWait1 && Ack(s.flags) && s.acknowledgment == conn.sendNext {
        conn := conn.(unacknowledged := conn.sendNext, peerWindow := s.window, pending := false, state := FinWait2);
        return true, reply;
      }
      if conn.state == FinWait2 && Fin(s.flags) && s.sequence == conn.receiveNext {
        conn := conn.(receiveNext := Wrap(conn.receiveNext + 1), state := TimeWait);
        return true, Reply(ACK, conn.sendNext, conn.receiveNext, 0);
      }
      if conn.state == LastAck && Ack(s.flags) && s.acknowledgment == conn.sendNext {
        conn := conn.(unacknowledged := conn.sendNext, state := Closed);
        return true, reply;
      }
      if conn.state != Established && conn.state != CloseWait {
        return false, reply;
      }
      ok, reply := OnData(s);
    }

    /** The tests of an established connection. */
    method OnData(s: TcpSegment) returns (ok: bool, reply: Reply)
      modifies this
      ensures ok <==> ReceiveData(old(conn), s).Received?
      ensures ok ==> ReceiveData(old(conn), s) == Received(conn, reply)
      ensures !ok ==> conn == old(conn) && reply == NO_REPLY
    {
      hide Wrap, Ack, Fin;
      reply := NO_REPLY;
      if !Ack(s.flags) || s.acknowledgment < conn.unacknowledged || s.acknowledgment > conn.sendNext {
        return false, reply;
      }
      if s.sequence != conn.receiveNext {
        return true, Reply(ACK, conn.sendNext, conn.receiveNext, 0);
      }
      conn := conn.(unacknowledged := s.acknowledgment, peerWindow := s.window);
      if conn.pending && s.acknowledgment >= conn.sequenceEnd {
        conn := conn.(pending := false);
      }
      var advance := |s.payload| + if Fin(s.flags) then 1 else 0;
      conn := conn.(receiveNext := Wrap(conn.receiveNext + advance));
      if Fin(s.flags) {
        conn := conn.(state := CloseWait);
      }
      return true, Reply(ACK, conn.sendNext, conn.receiveNext, |s.payload|);
    }

    method RecordSegment(packet: seq<byte>) returns (ok: bool)
      modifies this
      ensures ok <==> 0 < |packet| <= RETRANSMIT_MAX
      ensures conn == if ok then Record(old(conn), packet) else old(conn)
    {
      if |packet| == 0 || |packet| > RETRANSMIT_MAX {
        return false;
      }
      conn := conn.(recorded := packet, retries := 0, lastTick := 0, pending := true);
      ok := true;
    }

    method Build(source: Address, destination: Address, flags: byte, payload: seq<byte>, packet: array<byte>)
      returns (ok: bool, length: nat)
      modifies this, packet
      ensures ok <==> MayBuild(old(conn), flags, payload, packet.Length)
      ensures ok ==> conn == AfterBuild(old(conn), source, destination, flags, payload)
      ensures ok ==> length == TCP_HEADER + |payload|
                     && packet[..length] == TcpPacket(source, destination, Outgoing(old(conn), flags, payload))
      ensures !ok ==> conn == old(conn)
    {
      length := 0;
      if (conn.state != Established && conn.state != CloseWait) || Syn(flags) || Rst(flags)
         || |payload| > RETRANSMIT_MAX - TCP_HEADER {
        return false, 0;
      }
      var f := SendFlags(flags, payload);
      var space := Space(f, payload);
      var outstanding := Wrap(conn.sendNext - conn.unacknowledged);
      if space > conn.peerWindow || outstanding > conn.peerWindow - space {
        return false, 0;
      }
      ok, length := TcpBuild(packet, source, destination, Outgoing(conn, flags, payload));
      if !ok {
        return;
      }
      conn := conn.(sendNext := Wrap(conn.sendNext + space));
      ok := RecordSegment(packet[..length]);
      if !ok {
        return;
      }
      conn := conn.(sequenceEnd := conn.sendNext);
      if Fin(f) {
        conn := conn.(state := if conn.state == CloseWait then LastAck else FinWait1);
      }
    }

    method RetransmitDue(now: nat, timeout: nat, capacity: nat) returns (ok: bool, packet: seq<byte>)
      modifies this
      ensures ok <==> Due(old(conn), now, timeout, capacity)
      ensures ok ==> packet == old(conn).recorded
      ensures conn == if ok then old(conn).(lastTick := now, retries := old(conn).retries + 1) else old(conn)
    {
      if timeout == 0 || !conn.pending || |conn.recorded| > capacity || conn.retries >= RETRIES_MAX
         || now < conn.lastTick || now - conn.lastTick < timeout {
        return false, [];
      }
      packet := conn.recorded;
      conn := conn.(lastTick := now, retries := conn.retries + 1);
      ok := true;
    }
  }
}
