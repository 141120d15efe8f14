/** Which segments can be sent again: one is kept, and recording another replaces it. */
module TcpResends {
  import opened Bits
  import opened Packets
  import opened Tcp
  import opened TcpSystem

  /** A retransmission at this moment sends the packet again. */
  predicate Resends(h: Half, now: nat, timeout: nat, capacity: nat, m: InFlight) {
    Due(h.me.conn, now, timeout, capacity) && m in h.me.kept && m.bytes == h.me.conn.recorded
  }

  /** However things go on at both ends and in the network, the packet may be sent again. */
  ghost predicate CanResend(s: System, first: bool, m: InFlight) {
    exists events: seq<(bool, Event)>, now: nat, timeout: nat, capacity: nat ::
      Resends(Run(s, events).Side(first), now, timeout, capacity, m)
  }

  /** The packet is the one kept, not acknowledged yet, and has retries left. */
  predicate Kept(me: End, m: InFlight) {
    m in me.kept && m.bytes == me.conn.recorded && me.conn.pending && me.conn.retries < RETRIES_MAX
  }

  /** A packet that takes up sequence numbers, all of them sent. */
  predicate Behind(me: End, m: InFlight) {
    var space := Space(m.segment.flags, m.segment.payload);
    me.used && space > 0 && m.position + space <= me.SendPosition()
  }

  /** What is not kept now is not kept after any event at this end. */
  lemma ForgottenStays(h: Half, e: Event, m: InFlight)
    requires Behind(h.me, m) && !Kept(h.me, m)
    ensures Behind(Act(h, e).me, m) && !Kept(Act(h, e).me, m)
  {
    hide TcpBuildable, TcpPacket, TcpParse, Wrap, Ack, Rst, Syn, Fin;
  }

  lemma {:induction false} RunForgets(s: System, first: bool, events: seq<(bool, Event)>, m: InFlight)
    requires Behind(s.Side(first).me, m) && !Kept(s.Side(first).me, m)
    ensures var me := Run(s, events).Side(first).me; Behind(me, m) && !Kept(me, m)
    decreases |events|
  {
    hide Act, Behind, Kept;
    if events != [] {
      var (side, e) := events[|events| - 1];
      var before := Run(s, events[..|events| - 1]);
      RunForgets(s, first, events[..|events| - 1], m);
      if side == first {
        ForgottenStays(before.Side(first), e, m);
      } else {
        ActGrows(before.Side(side), e);
      }
    }
  }

  lemma DueSoon(h: Half, m: InFlight)
    requires Kept(h.me, m)
    ensures var c := h.me.conn; Resends(h, c.lastTick + 1, 1, |c.recorded|, m)
  {}

  lemma ResentWasKept(h: Half, now: nat, timeout: nat, capacity: nat, m: InFlight)
    requires Resends(h, now, timeout, capacity, m)
    ensures Kept(h.me, m)
  {}

  /** A segment that has been sent can be sent again, in any continuation at all, exactly if it is the one kept, is not
      acknowledged yet and has retries left. */
  lemma CanResendIffKept(s: System, first: bool, m: InFlight)
    requires Behind(s.Side(first).me, m)
    ensures CanResend(s, first, m) <==> Kept(s.Side(first).me, m)
  {
    hide Kept, Behind, Resends;
    var h := s.Side(first);
    if Kept(h.me, m) {
      DueSoon(h, m);
      var none: seq<(bool, Event)> := [];
      assert Run(s, none).Side(first) == h;
    } else if CanResend(s, first, m) {
      var events: seq<(bool, Event)>, now: nat, timeout: nat, capacity: nat :|
        Resends(Run(s, events).Side(first), now, timeout, capacity, m);
      RunForgets(s, first, events, m);
      ResentWasKept(Run(s, events).Side(first), now, timeout, capacity, m);
      assert false;
    }
  }

  /** Sending anything replaces what was kept: no segment sent before can be sent again, acknowledged or not. */
  lemma NextWriteForgets(s: System, first: bool, flags: byte, payload: seq<byte>, capacity: nat, m: InFlight)
    requires var h := s.Side(first); Behind(h.me, m) && MayBuild(h.me.conn, flags, payload, capacity)
    ensures !CanResend(s.Step(first, Write(flags, payload, capacity)), first, m)
  {
    hide CanResend, MayBuild;
    var s' := s.Step(first, Write(flags, payload, capacity));
    WriteReplaces(s.Side(first), flags, payload, capacity, m);
    assert s'.Side(first).me == DoWrite(s.Side(first), flags, payload, capacity).me;
    CanResendIffKept(s', first, m);
  }

  lemma WriteReplaces(h: Half, flags: byte, payload: seq<byte>, capacity: nat, m: InFlight)
    requires Behind(h.me, m) && MayBuild(h.me.conn, flags, payload, capacity)
    ensures var me := DoWrite(h, flags, payload, capacity).me; Behind(me, m) && !Kept(me, m)
  {
    hide TcpPacket, Wrap, Fin;
  }

  /** A segment that is not acknowledged is sent again three times, each a timeout after the last, and then never. */
  lemma ResentThreeTimes(h: Half, now: nat, timeout: nat, later: nat, timeout': nat, capacity': nat)
    requires h.me.conn.pending && h.me.conn.retries == 0 && timeout > 0 && now >= h.me.conn.lastTick + timeout
    ensures var n := |h.me.conn.recorded|;
      var h1 := DoTick(h, now, timeout, n);
      var h2 := DoTick(h1, now + timeout, timeout, n);
      var h3 := DoTick(h2, now + 2 * timeout, timeout, n);
      && Due(h.me.conn, now, timeout, n) && Due(h1.me.conn, now + timeout, timeout, n)
      && Due(h2.me.conn, now + 2 * timeout, timeout, n) && !Due(h3.me.conn, later, timeout', capacity')
      && !Due(h1.me.conn, now + timeout - 1, timeout, n)
  {}
}
