/** Two runs from a table of free entries that bring out bytes nobody sent as part of that datagram. */
module ReassemblyMixes {
  import opened Bits
  import opened Options
  import opened Reassembly
  import opened ReassemblyOrigins
  import opened ReassemblyRepeats

  function Eight(fill: byte): (s: seq<byte>)
    ensures |s| == 8 && forall i :: 0 <= i < 8 ==> s[i] == fill
  {
    [fill, fill, fill, fill, fill, fill, fill, fill]
  }

  function KeyOf(id: nat): (k: Key) {
    Key(id, [10, 0, 0, 1], [10, 0, 0, 2], 17)
  }

  /** Eight bytes of the datagram `id`. */
  function Piece(id: nat, offset: nat, more: bool, fill: byte): (p: Packet) {
    Packet(KeyOf(id), Fragment(offset, more, Eight(fill)), 0, 64)
  }

  predicate AllFree(t: Table) {
    forall i :: 0 <= i < SLOTS ==> !t[i].valid
  }

  /** Without a timeout nothing expires. */
  lemma NoneExpires(t: Table, now: nat)
    ensures Expired(t, now, 0) == t
  {}

  /** A fragment without a clash goes into its entry. */
  lemma GoesInto(t: Table, p: Packet, k: nat)
    requires AllSound(t) && p.fragment.Proper() && k == Select(t, p.key) && |t[k].payload| == MAX_PAYLOAD
    requires !Conflicts(Taken(t[k], p.key), p.fragment)
    ensures var m := Merged(Taken(t[k], p.key), p.fragment, p.now);
      Receive(t, p, 0) == if Whole(m) && m.total <= p.capacity && m.total <= MAX_PAYLOAD
                          then (t[k := Cleared(m)], Some(m.payload[..m.total])) else (t[k := m], None)
  {
    hide Conflicts, Whole, Merged, Select, Fragment.Proper, Sound;
    NoneExpires(t, p.now);
  }

  lemma NoClash(e: Entry, f: Fragment)
    requires e.total == 0 && forall i :: i in e.have ==> i < f.offset || i >= f.End()
    ensures !Conflicts(e, f)
  {
    hide Interval;
  }

  /** Merging changes the bytes of the fragment and no others. */
  lemma MergedSlices(e: Entry, f: Fragment, from: nat, to: nat)
    requires |e.payload| == MAX_PAYLOAD && f.Proper() && from <= to <= MAX_PAYLOAD
    requires to <= f.offset || f.End() <= from
    ensures var m := Merged(e, f, 0);
      m.payload[from..to] == e.payload[from..to] && m.payload[f.offset..f.End()] == f.payload
  {
    hide Interval;
  }

  lemma PieceProper(id: nat, offset: nat, more: bool, fill: byte)
    requires offset <= 64
    ensures Piece(id, offset, more, fill).fragment.Proper()
    ensures Piece(id, offset, more, fill).fragment.End() == offset + 8
    ensures Piece(id, offset, more, fill).fragment.Span() == Interval(offset, 8)
  {
    hide Interval, Eight;
  }

  lemma RunNext(t: Table, logs: Logs, p: Packet, rest: seq<Packet>)
    requires AllSound(t)
    ensures Run(t, logs, [p] + rest, 0) == Run(Receive(t, p, 0).0, NextLogs(t, logs, p, 0), rest, 0)
  {
    hide Receive, NextLogs;
    assert ([p] + rest)[1..] == rest;
  }

  // ------------------------------------------------------------ bytes of two datagrams

  /** An entry that holds the first eight bytes of a datagram. */
  ghost predicate Begun(e: Entry, id: nat, fill: byte) {
    && e.valid && e.key == KeyOf(id) && e.first && e.total == 0 && e.received == 8 && e.lastSeen == 0
    && e.have == Interval(0, 8) && |e.payload| == MAX_PAYLOAD && e.payload[..8] == Eight(fill)
  }

  lemma BeginsOne(e: Entry, id: nat, fill: byte)
    requires Sound(e) && !e.valid
    ensures var p := Piece(id, 0, true, fill); var e' := Taken(e, p.key);
      && p.fragment.Proper() && |e'.payload| == MAX_PAYLOAD
      && !Conflicts(e', p.fragment) && Begun(Merged(e', p.fragment, 0), id, fill)
  {
    hide Interval, Eight, Conflicts, Overlaid, Fragment.Proper;
    var p := Piece(id, 0, true, fill);
    PieceProper(id, 0, true, fill);
    NoClash(Taken(e, p.key), p.fragment);
    MergedSlices(Taken(e, p.key), p.fragment, 8, 8);
    var m := Merged(Taken(e, p.key), p.fragment, 0);
    assert m.payload[..8] == m.payload[0..8];
  }

  /** The last `n` entries hold the beginnings of the datagrams 1 to `n`; the others are free. */
  ghost predicate Filled(t: Table, n: nat) {
    && n <= SLOTS && AllSound(t)
    && (forall i :: 0 <= i < SLOTS - n ==> !t[i].valid)
    && (forall i :: SLOTS - n <= i < SLOTS ==> Begun(t[i], SLOTS - i, 11 * (SLOTS - i)))
  }

  lemma FillsNext(t: Table, n: nat)
    requires Filled(t, n) && n < SLOTS
    ensures Filled(Receive(t, Piece(n + 1, 0, true, 11 * (n + 1)), 0).0, n + 1)
  {
    hide Interval, Conflicts, Merged, Sound, Fragment.Proper, Receive, Taken;
    var p, k := Piece(n + 1, 0, true, 11 * (n + 1)), SLOTS - n - 1;
    assert Select(t, p.key) == k by { FreeChosen(t, n); }
    SoundAt(t, k);
    BeginsOne(t[k], n + 1, 11 * (n + 1));
    GoesInto(t, p, k);
    BegunNotWhole(Merged(Taken(t[k], p.key), p.fragment, 0), n + 1, 11 * (n + 1));
  }

  lemma BegunNotWhole(e: Entry, id: nat, fill: byte)
    requires Begun(e, id, fill)
    ensures !Whole(e)
  {}

  lemma FreeChosen(t: Table, n: nat)
    requires Filled(t, n) && n < SLOTS
    ensures Select(t, KeyOf(n + 1)) == SLOTS - n - 1
  {
    hide Interval, Sound, Oldest;
    var key, k := KeyOf(n + 1), SLOTS - n - 1;
    assert FirstSame(t, key, SLOTS) == SLOTS;
    var free := LastFree(t, SLOTS);
    assert !t[k].valid;
    assert free != SLOTS && free <= k;
    LastFreeIsLast(t, SLOTS, k);
  }

  lemma {:induction false} LastFreeIsLast(t: Table, n: nat, k: nat)
    requires k < n <= SLOTS && !t[k].valid
    ensures k <= LastFree(t, n)
    decreases n
  {
    if k < n - 1 {
      LastFreeIsLast(t, n - 1, k);
    }
  }

  /** The last eight bytes of any datagram complete an entry that holds the first eight of one. */
  lemma CompletesBegun(e: Entry, id: nat, fill: byte)
    requires Begun(e, id, fill)
    ensures var p := Piece(5, 8, false, 55); p.fragment.Proper() && !Conflicts(e, p.fragment)
    ensures var m := Merged(e, Piece(5, 8, false, 55).fragment, 0);
      Whole(m) && m.total == 16 && m.payload[..16] == Eight(fill) + Eight(55)
  {
    hide Interval, Eight, Conflicts, Overlaid, Fragment.Proper;
    var f := Piece(5, 8, false, 55).fragment;
    PieceProper(5, 8, false, 55);
    NoClash(e, f);
    MergedSlices(e, f, 0, 8);
    var m := Merged(e, f, 0);
    assert m.payload[..16] == m.payload[0..8] + m.payload[8..16];
  }

  lemma OldestChosen(t: Table)
    requires Filled(t, SLOTS)
    ensures Select(t, Piece(5, 8, false, 55).key) == 0 && Begun(t[0], 4, 44)
  {
    hide FirstSame, LastFree, Sound, Interval, Oldest, Eight;
    FirstOldest(t);
    assert forall i :: 0 <= i < SLOTS ==> t[i].valid && t[i].key != Piece(5, 8, false, 55).key;
  }

  /** The last fragment of a fifth datagram joins the beginning of the fourth. */
  lemma JoinsOldest(t: Table)
    requires Filled(t, SLOTS)
    ensures Receive(t, Piece(5, 8, false, 55), 0).1 == Some(Eight(44) + Eight(55))
  {
    hide Select, Sound, Interval, Receive, Merged, Whole, Conflicts, Eight, Fragment.Proper;
    var p := Piece(5, 8, false, 55);
    OldestChosen(t);
    CompletesBegun(t[0], 4, 44);
    GoesInto(t, p, 0);
  }

  lemma FirstOldest(t: Table)
    requires forall i :: 0 <= i < SLOTS ==> t[i].lastSeen == 0
    ensures Oldest(t, SLOTS) == 0
  {
    assert Oldest(t, 1) == 0;
    assert Oldest(t, 2) == 0;
    assert Oldest(t, 3) == 0;
  }

  const SENDERS := [Piece(1, 0, true, 11), Piece(2, 0, true, 22), Piece(3, 0, true, 33), Piece(4, 0, true, 44)]

  /** With four datagrams begun, the last fragment of a fifth brings out eight bytes of the fourth and eight of the
      fifth. */
  lemma TwoSendersMix(t: Table, logs: Logs)
    requires AllSound(t) && AllFree(t)
    ensures Receive(Run(t, logs, SENDERS, 0).0, Piece(5, 8, false, 55), 0).1 == Some(Eight(44) + Eight(55))
  {
    hide Receive, NextLogs, Piece, Eight, AllSound;
    assert Filled(t, 0);
    var (p1, p2, p3, p4) :=
      (Piece(1, 0, true, 11), Piece(2, 0, true, 22), Piece(3, 0, true, 33), Piece(4, 0, true, 44));
    FillsNext(t, 0);
    var t1, l1 := Receive(t, p1, 0).0, NextLogs(t, logs, p1, 0);
    RunNext(t, logs, p1, [p2, p3, p4]);
    FillsNext(t1, 1);
    var t2, l2 := Receive(t1, p2, 0).0, NextLogs(t1, l1, p2, 0);
    RunNext(t1, l1, p2, [p3, p4]);
    FillsNext(t2, 2);
    var t3, l3 := Receive(t2, p3, 0).0, NextLogs(t2, l2, p3, 0);
    RunNext(t2, l2, p3, [p4]);
    FillsNext(t3, 3);
    RunNext(t3, l3, p4, []);
    assert SENDERS == [p1] + [p2, p3, p4] && [p2, p3, p4] == [p2] + [p3, p4] && [p3, p4] == [p3] + [p4]
      && [p4] == [p4] + [];
    JoinsOldest(Receive(t3, p4, 0).0);
  }

  // ------------------------------------------------------------ bytes that never came

  /** The first entry of a key. */
  lemma OwnChosen(t: Table, key: Key, k: nat)
    requires k < SLOTS && Same(t[k], key) && forall i :: 0 <= i < SLOTS && i != k ==> !t[i].valid
    ensures Select(t, key) == k
  {
    hide LastFree, Oldest;
  }

  /** An entry after bytes 0 to 8 and, if `further`, 24 to 32 of the datagram 1; the others are free. */
  ghost predicate Gapped(t: Table, further: bool, was: seq<byte>) {
    && AllSound(t) && (forall i :: 0 <= i < SLOTS - 1 ==> !t[i].valid)
    && var e := t[SLOTS - 1];
       && e.valid && e.key == KeyOf(1) && e.first && e.total == 0
       && e.have == (if further then Interval(0, 8) + Interval(24, 8) else Interval(0, 8))
       && e.received == (if further then 16 else 8)
       && |e.payload| == MAX_PAYLOAD == |was| && e.payload[..8] == Eight(11) && e.payload[8..16] == was[8..16]
  }

  lemma StartsGapped(t: Table)
    requires AllSound(t) && AllFree(t)
    ensures Gapped(Receive(t, Piece(1, 0, true, 11), 0).0, false, t[SLOTS - 1].payload)
  {
    hide Interval, Conflicts, Sound, Fragment.Proper, Receive, Select, Overlaid, Eight;
    var p, k := Piece(1, 0, true, 11), SLOTS - 1;
    assert Filled(t, 0);
    FreeChosen(t, 0);
    SoundAt(t, k);
    BeginsOne(t[k], 1, 11);
    GoesInto(t, p, k);
    BegunNotWhole(Merged(Taken(t[k], p.key), p.fragment, 0), 1, 11);
    var m := Merged(Taken(t[k], p.key), p.fragment, 0);
    assert m.payload[8..16] == t[k].payload[8..16];
  }

  lemma FartherBytes(e: Entry, was: seq<byte>)
    requires e.valid && e.first && e.total == 0 && e.have == Interval(0, 8) && e.received == 8
    requires |e.payload| == MAX_PAYLOAD == |was| && e.payload[..8] == Eight(11) && e.payload[8..16] == was[8..16]
    ensures var p := Piece(1, 24, true, 33); p.fragment.Proper() && !Conflicts(e, p.fragment)
    ensures var m := Merged(e, Piece(1, 24, true, 33).fragment, 0);
      && m.valid && m.key == e.key && m.first && m.total == 0 && m.have == Interval(0, 8) + Interval(24, 8)
        && m.received == 16
      && |m.payload| == MAX_PAYLOAD && m.payload[..8] == Eight(11) && m.payload[8..16] == was[8..16]
  {
    hide Interval, Eight, Conflicts, Overlaid, Fragment.Proper;
    var f := Piece(1, 24, true, 33).fragment;
    PieceProper(1, 24, true, 33);
    NoClash(e, f);
    MergedSlices(e, f, 0, 8);
    MergedSlices(e, f, 8, 16);
  }

  lemma WidensGap(t: Table, was: seq<byte>)
    requires Gapped(t, false, was)
    ensures Gapped(Receive(t, Piece(1, 24, true, 33), 0).0, true, was)
  {
    hide Interval, Conflicts, Sound, Fragment.Proper, Receive, Select, Merged, Eight;
    var p, k := Piece(1, 24, true, 33), SLOTS - 1;
    OwnChosen(t, p.key, k);
    FartherBytes(t[k], was);
    GoesInto(t, p, k);
  }

  lemma LastBytes(e: Entry, was: seq<byte>)
    requires e.valid && e.first && e.total == 0 && e.have == Interval(0, 8) + Interval(24, 8) && e.received == 16
    requires |e.payload| == MAX_PAYLOAD == |was| && e.payload[..8] == Eight(11) && e.payload[8..16] == was[8..16]
    ensures var p := Piece(1, 16, false, 22); p.fragment.Proper() && !Conflicts(e, p.fragment)
    ensures var m := Merged(e, Piece(1, 16, false, 22).fragment, 0);
      Whole(m) && m.total == 24 && m.payload[..24] == Eight(11) + was[8..16] + Eight(22)
  {
    hide Interval, Eight, Conflicts, Overlaid, Fragment.Proper;
    var f := Piece(1, 16, false, 22).fragment;
    PieceProper(1, 16, false, 22);
    NoClash(e, f);
    MergedSlices(e, f, 0, 8);
    MergedSlices(e, f, 8, 16);
    var m := Merged(e, f, 0);
    assert m.payload[..24] == m.payload[0..8] + m.payload[8..16] + m.payload[16..24];
  }

  /** Bytes 0 to 8, 24 to 32 and the last ones 16 to 24 bring out 24 bytes, though 8 to 16 never came: 24 to 32 were
      counted in their place, and 8 to 16 are what the buffer held before. */
  lemma BytesNobodySent(t: Table, logs: Logs)
    requires AllSound(t) && AllFree(t)
    ensures |t[SLOTS - 1].payload| == MAX_PAYLOAD
    ensures Receive(Run(t, logs, [Piece(1, 0, true, 11), Piece(1, 24, true, 33)], 0).0, Piece(1, 16, false, 22), 0).1
         == Some(Eight(11) + t[SLOTS - 1].payload[8..16] + Eight(22))
  {
    hide Receive, NextLogs, Eight, AllSound, Merged, Whole, Conflicts, Interval, Select, Fragment.Proper;
    var p1, p2, p3, was := Piece(1, 0, true, 11), Piece(1, 24, true, 33), Piece(1, 16, false, 22), t[SLOTS - 1].payload;
    SoundAt(t, SLOTS - 1);
    StartsGapped(t);
    var t1, l1 := Receive(t, p1, 0).0, NextLogs(t, logs, p1, 0);
    WidensGap(t1, was);
    var t2 := Receive(t1, p2, 0).0;
    RunNext(t, logs, p1, [p2]);
    RunNext(t1, l1, p2, []);
    assert [p1, p2] == [p1] + [p2] && [p2] == [p2] + [];
    OwnChosen(t2, p3.key, SLOTS - 1);
    LastBytes(t2[SLOTS - 1], was);
    GoesInto(t2, p3, SLOTS - 1);
  }

  // ------------------------------------------------------------ a fragment that comes twice

  lemma ClashClears(e: Entry, id: nat, fill: byte)
    requires Begun(e, id, fill)
    ensures Conflicts(e, Piece(id, 0, true, fill).fragment)
  {
    hide Eight;
    PieceProper(id, 0, true, fill);
    assert 0 in e.have * Piece(id, 0, true, fill).fragment.Span();
  }

  /** The first eight bytes of a datagram are kept when they come, and lost when they come again. */
  lemma SecondCopyLoses(t: Table)
    requires AllSound(t) && AllFree(t)
    ensures var p := Piece(1, 0, true, 11); var t1 := Receive(t, p, 0).0;
      Same(t1[SLOTS - 1], p.key) && Lost(Receive(t1, p, 0), p.key)
  {
    hide Interval, Conflicts, Merged, Sound, Fragment.Proper, Taken, Eight, Select, Overlaid;
    var p, k := Piece(1, 0, true, 11), SLOTS - 1;
    assert Filled(t, 0);
    FillsNext(t, 0);
    var t1 := Receive(t, p, 0).0;
    OwnChosen(t1, p.key, k);
    ClashClears(t1[k], 1, 11);
    PieceProper(1, 0, true, 11);
    ClashReceived(t1, p, k);
  }

  lemma ClashReceived(t: Table, p: Packet, k: nat)
    requires AllSound(t) && p.fragment.Proper() && k == Select(t, p.key) && t[k].valid && Conflicts(t[k], p.fragment)
    ensures Receive(t, p, 0) == (t[k := Cleared(t[k])], None)
  {
    hide Conflicts, Select, Fragment.Proper, Sound;
    NoneExpires(t, p.now);
  }
}
