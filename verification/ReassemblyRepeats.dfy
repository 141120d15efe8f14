/** A fragment that arrives twice: the second copy clears the entry, and what had arrived is lost. */
module ReassemblyRepeats {
  import opened Bits
  import opened Options
  import opened Reassembly

  // ------------------------------------------------------------ one entry

  lemma {:induction false} SpanHeld(fragments: seq<Fragment>, n: nat, j: nat)
    requires j < n <= |fragments|
    ensures fragments[j].Span() <= Spans(fragments, n)
    decreases n
  {
    hide Interval, Fragment.Span;
    if j < n - 1 {
      SpanHeld(fragments, n - 1, j);
    }
  }

  lemma {:induction false} SpanApart(fragments: seq<Fragment>, n: nat, j: nat)
    requires n <= j < |fragments|
    requires forall i, k :: 0 <= i < k < |fragments| ==> fragments[i].Span() !! fragments[k].Span()
    ensures Spans(fragments, n) !! fragments[j].Span()
    decreases n
  {
    hide Interval, Fragment.Span;
    if n > 0 {
      SpanApart(fragments, n - 1, j);
      assert fragments[n - 1].Span() !! fragments[j].Span();
    }
  }

  lemma SpanStart(f: Fragment)
    requires f.Proper()
    ensures f.offset in f.Span()
  {}

  /** An entry that has taken in the first `n` fragments clashes with exactly those. */
  lemma ClashIff(e: Entry, fragments: seq<Fragment>, n: nat, datagram: seq<byte>, j: nat)
    requires Partition(fragments, datagram) && n <= |fragments| && j < |fragments| && Holds(e, fragments, n, datagram)
    ensures fragments[j].Proper() && (Conflicts(e, fragments[j]) <==> j < n)
  {
    hide Interval, Spans, Fragment.Proper, Fragment.Span, HasFirst, HasLast, Sound;
    assert PartOf(fragments[j], datagram);
    if j < n {
      SpanHeld(fragments, n, j);
      SpanStart(fragments[j]);
      assert fragments[j].offset in e.have * fragments[j].Span();
    } else {
      SpanApart(fragments, n, j);
    }
  }

  /** An entry in use keeps its key and stays in use, or brings something out, exactly when there is no clash. */
  lemma ClearedIff(e: Entry, f: Fragment, now: nat, capacity: nat)
    requires Sound(e) && e.valid && f.Proper()
    ensures var r := Add(e, f, now, capacity); r.1 == None && !Same(r.0, e.key) <==> Conflicts(e, f)
  {
    hide Conflicts, Interval, Overlaid, Whole;
  }

  // ------------------------------------------------------------ the table

  /** What a table has of a datagram is gone, and nothing has come out. */
  predicate Lost(r: (Table, Option<seq<byte>>), key: Key) {
    r.1 == None && forall i :: 0 <= i < SLOTS ==> !Same(r.0[i], key)
  }

  /** With the first `n` fragments in, but not all, a fragment of the datagram loses them all exactly when it is one
      of them. */
  lemma RepeatLosesIff(t: Table, p: Packet, timeout: nat, fragments: seq<Fragment>, n: nat, datagram: seq<byte>, j: nat)
    requires Partition(fragments, datagram) && 0 < n < |fragments| && j < |fragments| && p.fragment == fragments[j]
    requires Tracks(t, p.key, fragments, n, datagram) && Calm(t, p, timeout, p.key)
    ensures Lost(Receive(t, p, timeout), p.key) <==> j < n
  {
    hide Interval, Select, Partition, Calm, Add, Holds, Unique, Fragment.Proper, Conflicts;
    PartAt(fragments, datagram, j);
    OwnEntry(t, p, timeout, fragments, n, datagram);
    var t1 := Expired(t, p.now, timeout);
    var k := Select(t1, p.key);
    var e := Taken(t1[k], p.key);
    HoldsValid(e, fragments, n, datagram);
    ClashIff(e, fragments, n, datagram, j);
    ClearedIff(e, p.fragment, p.now, p.capacity);
    var r := Receive(t, p, timeout);
    assert forall i :: 0 <= i < SLOTS && i != k ==> r.0[i] == t1[i];
    assert r.0[k] == Add(e, p.fragment, p.now, p.capacity).0;
  }

  lemma HoldsValid(e: Entry, fragments: seq<Fragment>, n: nat, datagram: seq<byte>)
    requires n <= |fragments| && Holds(e, fragments, n, datagram)
    ensures Sound(e) && e.valid
  {}

  // ------------------------------------------------------------ runs

  /** Nothing of a datagram comes out. */
  predicate Silent(out: seq<Option<seq<byte>>>, packets: seq<Packet>, key: Key)
    requires |out| == |packets|
  {
    forall i :: 0 <= i < |packets| && packets[i].key == key ==> out[i] == None
  }

  lemma SilentNext(t: Table, packets: seq<Packet>, timeout: nat, key: Key)
    requires AllSound(t) && packets != []
    requires var r := Receive(t, packets[0], timeout);
      && Silent(Outputs(r.0, packets[1..], timeout), packets[1..], key)
      && (packets[0].key == key ==> r.1 == None)
    ensures Silent(Outputs(t, packets, timeout), packets, key)
  {
    hide Receive;
  }

  /** Nothing comes out as long as a fragment is missing. */
  lemma {:induction false} SilentFrom(t: Table, packets: seq<Packet>, timeout: nat, key: Key,
                                      fragments: seq<Fragment>, n: nat, m: nat, datagram: seq<byte>)
    requires Partition(fragments, datagram) && n <= m < |fragments| && Tracks(t, key, fragments, n, datagram)
    requires FragmentsOf(packets, key) == fragments[n..m]
    requires AllSound(t) && CalmRun(t, packets, timeout, key) && Spacious(packets, key, |datagram|)
    ensures Silent(Outputs(t, packets, timeout), packets, key)
    decreases |packets|
  {
    hide Partition, Tracks, Calm, Receive;
    if packets != [] {
      var p, rest := packets[0], packets[1..];
      var r := Receive(t, p, timeout);
      if p.key == key {
        assert p.fragment == FragmentsOf(packets, key)[0] == fragments[n];
        assert FragmentsOf(rest, key) == FragmentsOf(packets, key)[1..] == fragments[n + 1..m];
        OwnStep(t, p, timeout, fragments, n, datagram);
        SilentFrom(r.0, rest, timeout, key, fragments, n + 1, m, datagram);
      } else {
        OtherStep(t, p, timeout, key, fragments, n, datagram);
        SilentFrom(r.0, rest, timeout, key, fragments, n, m, datagram);
      }
      SilentNext(t, packets, timeout, key);
    }
  }

  /** The fragments from `n` on, and then the others. */
  function Rotated(fragments: seq<Fragment>, n: nat): (r: seq<Fragment>)
    requires n <= |fragments|
    ensures |r| == |fragments|
    ensures forall i :: 0 <= i < |r| ==> r[i] == fragments[if i < |fragments| - n then i + n else i + n - |fragments|]
  {
    fragments[n..] + fragments[..n]
  }

  lemma RotatedBrings(fragments: seq<Fragment>, n: nat, p: nat)
    requires n <= |fragments| && Brought(fragments, |fragments|, p)
    ensures Brought(Rotated(fragments, n), |fragments|, p)
  {
    hide Interval, Fragment.Span, Rotated;
    var i :| 0 <= i < |fragments| && p in fragments[i].Span();
    var r := Rotated(fragments, n);
    assert r[if i < n then i + |fragments| - n else i - n] == fragments[i];
  }

  lemma RotatedApart(fragments: seq<Fragment>, n: nat, i: nat, j: nat)
    requires n <= |fragments| && i < j < |fragments|
    requires forall i, j :: 0 <= i < j < |fragments| ==> fragments[i].Span() !! fragments[j].Span()
    ensures Rotated(fragments, n)[i].Span() !! Rotated(fragments, n)[j].Span()
  {
    hide Interval, Fragment.Span, Rotated;
  }

  /** The order of arrival does not matter for cutting a datagram up. */
  lemma RotatedPartition(fragments: seq<Fragment>, n: nat, datagram: seq<byte>)
    requires Partition(fragments, datagram) && n <= |fragments|
    ensures Partition(Rotated(fragments, n), datagram)
  {
    hide Interval, Fragment.Span, Rotated, PartOf, Brought;
    var r := Rotated(fragments, n);
    forall i, j | 0 <= i < j < |r|
      ensures r[i].Span() !! r[j].Span()
    {
      RotatedApart(fragments, n, i, j);
    }
    forall p: nat | p < |datagram|
      ensures Brought(r, |r|, p)
    {
      RotatedBrings(fragments, n, p);
    }
  }

  lemma LostTracks(t: Table, p: Packet, timeout: nat, fragments: seq<Fragment>, datagram: seq<byte>)
    requires AllSound(t) && Unique(t) && Lost(Receive(t, p, timeout), p.key)
    ensures Tracks(Receive(t, p, timeout).0, p.key, fragments, 0, datagram)
  {
    hide Receive, Unique, Sound;
    UniqueKept(t, p, timeout);
  }

  /** The fragments of a datagram, one of which arrives again after the first `n`. */
  function Repeated(fragments: seq<Fragment>, m: nat, n: nat, j: nat): (f: seq<Fragment>)
    requires m <= n <= |fragments| && j < |fragments|
  {
    fragments[m..n] + [fragments[j]] + fragments[n..]
  }

  lemma RepeatedFirst(fragments: seq<Fragment>, m: nat, n: nat, j: nat)
    requires m < n <= |fragments| && j < |fragments|
    ensures Repeated(fragments, m, n, j) == [fragments[m]] + Repeated(fragments, m + 1, n, j)
  {}

  lemma RepeatedNow(fragments: seq<Fragment>, n: nat, j: nat)
    requires n <= |fragments| && j < |fragments|
    ensures Repeated(fragments, n, n, j) == [fragments[j]] + Rotated(fragments, n)[0..|fragments| - n]
  {}

  lemma TracksUnique(t: Table, key: Key, fragments: seq<Fragment>, n: nat, datagram: seq<byte>)
    requires n <= |fragments| && Tracks(t, key, fragments, n, datagram)
    ensures AllSound(t) && Unique(t)
  {}

  lemma {:induction false} RepeatFrom(t: Table, packets: seq<Packet>, timeout: nat, key: Key,
                                      fragments: seq<Fragment>, m: nat, n: nat, j: nat, datagram: seq<byte>)
    requires Partition(fragments, datagram) && m <= n < |fragments| && j < n && Tracks(t, key, fragments, m, datagram)
    requires FragmentsOf(packets, key) == Repeated(fragments, m, n, j)
    requires AllSound(t) && CalmRun(t, packets, timeout, key) && Spacious(packets, key, |datagram|)
    ensures Silent(Outputs(t, packets, timeout), packets, key)
    decreases |packets|
  {
    hide Partition, Tracks, Calm, Receive, Repeated, Rotated, Lost, Unique, AllSound;
    if packets != [] {
      var p, rest := packets[0], packets[1..];
      var r := Receive(t, p, timeout);
      if p.key != key {
        OtherStep(t, p, timeout, key, fragments, m, datagram);
        RepeatFrom(r.0, rest, timeout, key, fragments, m, n, j, datagram);
      } else if m < n {
        RepeatedFirst(fragments, m, n, j);
        HeadAndTail(p.fragment, FragmentsOf(rest, key), fragments[m], Repeated(fragments, m + 1, n, j));
        OwnStep(t, p, timeout, fragments, m, datagram);
        RepeatFrom(r.0, rest, timeout, key, fragments, m + 1, n, j, datagram);
      } else {
        RepeatedNow(fragments, n, j);
        HeadAndTail(p.fragment, FragmentsOf(rest, key), fragments[j], Rotated(fragments, n)[0..|fragments| - n]);
        RepeatLosesIff(t, p, timeout, fragments, n, datagram, j);
        TracksUnique(t, key, fragments, n, datagram);
        RotatedPartition(fragments, n, datagram);
        LostTracks(t, p, timeout, Rotated(fragments, n), datagram);
        SilentFrom(r.0, rest, timeout, key, Rotated(fragments, n), 0, |fragments| - n, datagram);
        LostNone(r, key);
      }
      SilentNext(t, packets, timeout, key);
    }
  }

  lemma LostNone(r: (Table, Option<seq<byte>>), key: Key)
    requires Lost(r, key)
    ensures r.1 == None
  {}

  lemma HeadAndTail<T>(a: T, s: seq<T>, b: T, u: seq<T>)
    requires [a] + s == [b] + u
    ensures a == b && s == u
  {
    assert ([a] + s)[0] == a && ([a] + s)[1..] == s && ([b] + u)[1..] == u;
  }

  /** However a datagram is cut up and in whatever order its fragments arrive: if one of the first `n` arrives again
      before the others, nothing of the datagram ever comes out, though every fragment has arrived. */
  lemma RepeatLosesDatagram(t: Table, packets: seq<Packet>, timeout: nat, key: Key,
                            fragments: seq<Fragment>, n: nat, j: nat, datagram: seq<byte>)
    requires AllSound(t) && Unique(t) && forall i :: 0 <= i < SLOTS ==> !Same(t[i], key)
    requires Partition(fragments, datagram) && j < n < |fragments|
    requires FragmentsOf(packets, key) == Repeated(fragments, 0, n, j)
    requires CalmRun(t, packets, timeout, key) && Spacious(packets, key, |datagram|)
    ensures Silent(Outputs(t, packets, timeout), packets, key)
  {
    hide Partition, CalmRun, Silent, Outputs, Repeated;
    RepeatFrom(t, packets, timeout, key, fragments, 0, n, j, datagram);
  }
}
