/** When an entry lasts and when it is thrown away, with the limits of the source written out. */
module ReassemblyCases {
  import opened Bits
  import opened Options
  import opened Reassembly

  /** A fragment that is empty, reaches past 65515 bytes, or is not last and not of whole units of eight bytes changes
      nothing; every other one is looked at. */
  lemma RefusedIff(f: Fragment)
    ensures !f.Proper()
      <==> (f.payload == [] || f.offset + |f.payload| > 65515 || (f.more && |f.payload| % 8 != 0))
  {}

  /** The table has an entry for a datagram. */
  predicate Known(t: Table, key: Key) {
    exists i :: 0 <= i < SLOTS && Same(t[i], key)
  }

  /** What arrives for another datagram, which has an entry or finds one, leaves this one known exactly if less than
      the timeout has passed since its last fragment; a timeout of zero never passes. */
  lemma ForgottenIffOld(t: Table, i: nat, p: Packet, timeout: nat, key: Key)
    requires AllSound(t) && Unique(t) && i < SLOTS && Same(t[i], key) && p.key != key && p.fragment.Proper()
    requires exists j :: 0 <= j < SLOTS && (Same(t[j], p.key) || !t[j].valid)
    ensures Known(Receive(t, p, timeout).0, key)
      <==> (timeout == 0 || p.now < t[i].lastSeen || p.now - t[i].lastSeen < timeout)
  {
    hide Interval, FirstSame, LastFree, Oldest, Add, AllSound, Sound;
    ExpiredSound(t, p.now, timeout);
    var t1, t' := Expired(t, p.now, timeout), Receive(t, p, timeout).0;
    var k := Select(t1, p.key);
    SoundAt(t1, k);
    AddKey(t1[k], p.key, p.fragment, p.now, p.capacity);
    assert !Same(t1[k], key);
    if !Stale(t[i], p.now, timeout) {
      assert t'[i] == t[i];
    } else {
      assert forall j :: 0 <= j < SLOTS && Same(t[j], key) ==> j == i;
    }
  }

  /** A fragment that is kept starts the time again. */
  lemma KeptIsFresh(t: Table, p: Packet, timeout: nat)
    requires AllSound(t) && p.fragment.Proper()
    ensures var t1 := Expired(t, p.now, timeout);
      var e := Receive(t, p, timeout).0[Select(t1, p.key)]; e.valid ==> e.lastSeen == p.now
  {
    hide Interval, FirstSame, LastFree, Oldest;
  }

  /** A fragment that brings a byte the datagram has already, or that does not agree about where it ends, throws the
      whole datagram away. */
  lemma ConflictForgets(t: Table, i: nat, p: Packet, timeout: nat, at: nat)
    requires AllSound(t) && Unique(t) && i < SLOTS && Same(t[i], p.key) && p.fragment.Proper()
    requires timeout == 0 || p.now < t[i].lastSeen || p.now - t[i].lastSeen < timeout
    requires var f := p.fragment;
      || (at in t[i].have && f.offset <= at < f.offset + |f.payload|)
      || (t[i].total != 0 && f.offset + |f.payload| > t[i].total)
      || (t[i].total != 0 && !f.more && f.offset + |f.payload| != t[i].total)
    ensures Receive(t, p, timeout).1 == None && !Known(Receive(t, p, timeout).0, p.key)
  {
    hide Interval, FirstSame, LastFree, Oldest, AllSound, Sound;
    ExpiredSound(t, p.now, timeout);
    var t1 := Expired(t, p.now, timeout);
    var k := Select(t1, p.key);
    assert t1[i] == t[i];
    assert k == i;
    SoundAt(t1, k);
    if at in t[i].have && p.fragment.offset <= at < p.fragment.End() {
      assert at in t[i].have * p.fragment.Span();
    }
    assert Conflicts(t1[k], p.fragment);
  }

  // ------------------------------------------------------------ two fragments

  /** The two pieces of a datagram cut at a place. */
  function Pieces(datagram: seq<byte>, cut: nat): (f: seq<Fragment>)
    requires cut <= |datagram|
    ensures |f| == 2
  {
    [Fragment(0, true, datagram[..cut]), Fragment(cut, false, datagram[cut..])]
  }

  lemma PiecesPartition(datagram: seq<byte>, cut: nat, swapped: bool)
    requires 0 < cut < |datagram| <= 65515 && cut % 8 == 0
    ensures var f := Pieces(datagram, cut); Partition(if swapped then [f[1], f[0]] else f, datagram)
  {
    hide Interval;
    var pieces := Pieces(datagram, cut);
    var f := if swapped then [pieces[1], pieces[0]] else pieces;
    assert pieces[0].Span() !! pieces[1].Span();
    forall p: nat | p < |datagram|
      ensures Brought(f, 2, p)
    {
      assert p in f[0].Span() || p in f[1].Span();
    }
  }

  /** Any datagram of up to 65515 bytes, cut anywhere into whole units and a rest, comes out of a free table when the
      second piece arrives, in either order, however much later if there is no timeout. */
  lemma CutInTwo(datagram: seq<byte>, cut: nat, swapped: bool, key: Key, now: nat, later: nat, t: Table)
    requires 0 < cut < |datagram| <= 65515 && cut % 8 == 0
    requires AllSound(t) && forall i :: 0 <= i < SLOTS ==> !t[i].valid
    ensures var f := Pieces(datagram, cut);
      var first, second := if swapped then f[1] else f[0], if swapped then f[0] else f[1];
      Outputs(t, [Packet(key, first, now, |datagram|), Packet(key, second, later, |datagram|)], 0)
      == [None, Some(datagram)]
  {
    hide Interval, Partition, FirstSame, LastFree, Oldest, Add, Receive;
    var f := Pieces(datagram, cut);
    var fragments := if swapped then [f[1], f[0]] else f;
    PiecesPartition(datagram, cut, swapped);
    PartAt(fragments, datagram, 0);
    PartAt(fragments, datagram, 1);
    var p, q := Packet(key, fragments[0], now, |datagram|), Packet(key, fragments[1], later, |datagram|);
    assert !t[0].valid;
    assert Expired(t, now, 0) == t;
    OwnStep(t, p, 0, fragments, 0, datagram);
    var t1 := Receive(t, p, 0).0;
    assert Expired(t1, later, 0) == t1;
    OwnStep(t1, q, 0, fragments, 1, datagram);
    assert [p, q][1..] == [q] && [q][1..] == [];
  }
}
