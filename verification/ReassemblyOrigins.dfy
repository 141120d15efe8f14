/** Where the bytes of a reassembled datagram come from: which packets went into the entry that held it. */
module ReassemblyOrigins {
  import opened Bits
  import opened Reassembly

  // ------------------------------------------------------------ the packets of an entry

  /** The packets merged into each entry since it was last free. */
  type Logs = logs: seq<seq<Packet>> | |logs| == SLOTS witness seq(SLOTS, _ => [])

  /** A packet brings a position, with this byte. */
  predicate Brings(p: Packet, at: nat, b: byte) {
    p.fragment.offset <= at < p.fragment.End() && b == p.fragment.payload[at - p.fragment.offset]
  }

  predicate BroughtBy(log: seq<Packet>, at: nat) {
    exists i :: 0 <= i < |log| && at in log[i].fragment.Span()
  }

  predicate Apart(log: seq<Packet>) {
    forall i, j :: 0 <= i < j < |log| ==> log[i].fragment.Span() !! log[j].fragment.Span()
  }

  /** An entry holds the bytes of a packet. */
  ghost predicate Keeps(e: Entry, p: Packet)
    requires |e.payload| == MAX_PAYLOAD
  {
    p.fragment.Proper() && forall at: nat | at in p.fragment.Span() :: Brings(p, at, e.payload[at])
  }

  /** An entry holds what the packets of its log brought, and no two of them brought the same position. */
  ghost predicate Logged(e: Entry, log: seq<Packet>) {
    && |e.payload| == MAX_PAYLOAD && Apart(log)
    && (forall at: nat :: at in e.have <==> BroughtBy(log, at))
    && (forall i :: 0 <= i < |log| ==> Keeps(e, log[i]))
  }

  lemma LoggedNothing(e: Entry)
    requires |e.payload| == MAX_PAYLOAD && e.have == {}
    ensures Logged(e, [])
  {}

  lemma BroughtMore(log: seq<Packet>, p: Packet, at: nat)
    ensures BroughtBy(log + [p], at) <==> BroughtBy(log, at) || at in p.fragment.Span()
  {
    hide Interval, Fragment.Span;
    var more := log + [p];
    if BroughtBy(log, at) {
      var i :| 0 <= i < |log| && at in log[i].fragment.Span();
      assert more[i] == log[i];
    }
    assert more[|log|] == p;
  }

  lemma NotBoth(e: Entry, f: Fragment, at: nat)
    requires !Conflicts(e, f) && at in e.have
    ensures at !in f.Span()
  {
    assert at in e.have * f.Span() <==> at in f.Span();
  }

  lemma ApartMore(e: Entry, log: seq<Packet>, p: Packet)
    requires Logged(e, log) && !Conflicts(e, p.fragment)
    ensures Apart(log + [p])
  {
    hide Interval, Fragment.Span, Fragment.Proper, Brings, Conflicts;
    var more := log + [p];
    forall i, j | 0 <= i < j < |more|
      ensures more[i].fragment.Span() !! more[j].fragment.Span()
    {
      if j == |log| {
        forall at: nat | at in more[i].fragment.Span()
          ensures at !in p.fragment.Span()
        {
          assert BroughtBy(log, at);
          NotBoth(e, p.fragment, at);
        }
      }
    }
  }

  lemma LoggedByte(e: Entry, log: seq<Packet>, i: nat, at: nat)
    requires Logged(e, log) && i < |log| && at in log[i].fragment.Span()
    ensures at in e.have && at < |e.payload| && Brings(log[i], at, e.payload[at])
  {
    hide Apart, Brings;
    assert BroughtBy(log, at);
    assert Keeps(e, log[i]);
  }

  lemma MergedByte(e: Entry, p: Packet, at: nat)
    requires |e.payload| == MAX_PAYLOAD && p.fragment.Proper() && at < MAX_PAYLOAD
    ensures var m := Merged(e, p.fragment, p.now);
      if at in p.fragment.Span() then Brings(p, at, m.payload[at]) else m.payload[at] == e.payload[at]
  {
    hide Overlaid;
  }

  lemma BytesMore(e: Entry, log: seq<Packet>, p: Packet, i: nat, at: nat)
    requires Logged(e, log) && p.fragment.Proper() && !Conflicts(e, p.fragment)
    requires i <= |log| && at in (log + [p])[i].fragment.Span()
    ensures at < MAX_PAYLOAD && Brings((log + [p])[i], at, Merged(e, p.fragment, p.now).payload[at])
  {
    hide Apart, Overlaid, Conflicts, BroughtBy, Brings, Interval;
    if i < |log| {
      LoggedByte(e, log, i, at);
      NotBoth(e, p.fragment, at);
    }
    MergedByte(e, p, at);
  }

  lemma KeepsMore(e: Entry, log: seq<Packet>, p: Packet, i: nat)
    requires Logged(e, log) && p.fragment.Proper() && !Conflicts(e, p.fragment) && i <= |log|
    ensures Keeps(Merged(e, p.fragment, p.now), (log + [p])[i])
  {
    hide Interval, Brings, Conflicts, Apart, Overlaid, BroughtBy, Fragment.Span;
    var q, m := (log + [p])[i], Merged(e, p.fragment, p.now);
    assert q.fragment.Proper() by {
      assert i < |log| ==> Keeps(e, log[i]);
    }
    forall at: nat | at in q.fragment.Span()
      ensures at < MAX_PAYLOAD && Brings(q, at, m.payload[at])
    {
      BytesMore(e, log, p, i, at);
    }
  }

  /** Merging a packet adds it to the log. */
  lemma LoggedMore(e: Entry, log: seq<Packet>, p: Packet)
    requires Logged(e, log) && p.fragment.Proper() && !Conflicts(e, p.fragment)
    ensures Logged(Merged(e, p.fragment, p.now), log + [p])
  {
    hide Interval, Fragment.Span, Fragment.Proper, Keeps, Conflicts, Apart, Overlaid, BroughtBy;
    var m, more := Merged(e, p.fragment, p.now), log + [p];
    ApartMore(e, log, p);
    forall at: nat
      ensures at in m.have <==> BroughtBy(more, at)
    {
      BroughtMore(log, p, at);
    }
    forall i | 0 <= i < |more|
      ensures Keeps(m, more[i])
    {
      KeepsMore(e, log, p, i);
    }
  }

  // ------------------------------------------------------------ a datagram that comes out

  /** A byte was brought by a packet of a datagram. */
  predicate FromKey(log: seq<Packet>, key: Key, at: nat, b: byte) {
    exists i :: 0 <= i < |log| && log[i].key == key && Brings(log[i], at, b)
  }

  /** Every byte of the datagram was brought by a packet of its key. */
  predicate Genuine(log: seq<Packet>, key: Key, datagram: seq<byte>) {
    forall at :: 0 <= at < |datagram| ==> FromKey(log, key, at, datagram[at])
  }

  predicate AllOf(log: seq<Packet>, key: Key) {
    forall i :: 0 <= i < |log| ==> log[i].key == key
  }

  predicate Inside(have: set<nat>, total: nat) {
    forall at :: at in have ==> at < total
  }

  /** An entry counted whole, with its log. */
  ghost predicate Ready(e: Entry, log: seq<Packet>) {
    Sound(e) && e.valid && Whole(e) && e.total <= MAX_PAYLOAD && Logged(e, log)
  }

  lemma GenuineInside(e: Entry, log: seq<Packet>, key: Key)
    requires Ready(e, log) && Genuine(log, key, e.payload[..e.total])
    ensures Inside(e.have, e.total)
  {
    hide Fragment.Proper, Apart;
    forall at: nat | at < e.total
      ensures at in e.have
    {
      var d := e.payload[..e.total];
      assert FromKey(log, key, at, d[at]);
      assert BroughtBy(log, at);
    }
    WholeIsComplete(e);
  }

  lemma OneBrings(log: seq<Packet>, i: nat, j: nat, at: nat)
    requires Apart(log) && i < |log| && j < |log| && at in log[i].fragment.Span() && at in log[j].fragment.Span()
    ensures i == j
  {
    hide Fragment.Span, Interval;
  }

  lemma BringsSpan(p: Packet, at: nat, b: byte)
    requires Brings(p, at, b)
    ensures at in p.fragment.Span()
  {}

  /** The first position that a packet of the log brought. */
  lemma FirstBrought(e: Entry, log: seq<Packet>, i: nat)
    requires Logged(e, log) && i < |log|
    ensures log[i].fragment.offset in log[i].fragment.Span() && log[i].fragment.offset in e.have
  {
    hide Apart;
    assert Keeps(e, log[i]);
    assert BroughtBy(log, log[i].fragment.offset);
  }

  lemma GenuineOwn(e: Entry, log: seq<Packet>, key: Key, i: nat)
    requires Ready(e, log) && Genuine(log, key, e.payload[..e.total]) && Inside(e.have, e.total) && i < |log|
    ensures log[i].key == key
  {
    hide Apart, Keeps, BroughtBy, Brings, Interval, Fragment.Span, Whole;
    var d, at := e.payload[..e.total], log[i].fragment.offset;
    FirstBrought(e, log, i);
    assert FromKey(log, key, at, d[at]);
    var j :| 0 <= j < |log| && log[j].key == key && Brings(log[j], at, d[at]);
    BringsSpan(log[j], at, d[at]);
    OneBrings(log, i, j, at);
  }

  lemma OwnGenuine(e: Entry, log: seq<Packet>, key: Key, at: nat)
    requires Ready(e, log) && AllOf(log, key) && Inside(e.have, e.total) && at < e.total
    ensures FromKey(log, key, at, e.payload[at])
  {
    hide Fragment.Proper, Apart;
    WholeIsComplete(e);
    assert BroughtBy(log, at);
    var i :| 0 <= i < |log| && at in log[i].fragment.Span();
    assert Brings(log[i], at, e.payload[at]);
  }

  /** A whole entry holds the datagram of a key exactly when all its packets are of that key and none of them
      brought anything beyond the datagram. */
  lemma GenuineIff(e: Entry, log: seq<Packet>, key: Key)
    requires Ready(e, log)
    ensures Genuine(log, key, e.payload[..e.total]) <==> AllOf(log, key) && Inside(e.have, e.total)
  {
    hide FromKey, Inside, Logged, Whole;
    if Genuine(log, key, e.payload[..e.total]) {
      GenuineInside(e, log, key);
      forall i | 0 <= i < |log|
        ensures log[i].key == key
      {
        GenuineOwn(e, log, key, i);
      }
    }
    if AllOf(log, key) && Inside(e.have, e.total) {
      forall at | 0 <= at < e.total
        ensures FromKey(log, key, at, e.payload[at])
      {
        OwnGenuine(e, log, key, at);
      }
    }
  }

  // ------------------------------------------------------------ the table and its logs

  function Base(e: Entry, log: seq<Packet>): (base: seq<Packet>) { if e.valid then log else [] }

  /** The entry that a packet is put into. */
  function Chosen(t: Table, p: Packet, timeout: nat): (k: nat)
    ensures k < SLOTS
  {
    Select(Expired(t, p.now, timeout), p.key)
  }

  function NextLogs(t: Table, logs: Logs, p: Packet, timeout: nat): (logs': Logs) {
    if !p.fragment.Proper() then logs
    else
      var k := Chosen(t, p, timeout);
      logs[k := Base(Expired(t, p.now, timeout)[k], logs[k]) + [p]]
  }

  /** An entry in use was taken for the first packet of its log and holds what the log brought. */
  ghost predicate LoggedEntry(e: Entry, log: seq<Packet>) {
    e.valid ==> log != [] && log[0].key == e.key && Logged(e, log)
  }

  ghost predicate LoggedTable(t: Table, logs: Logs) {
    forall i :: 0 <= i < SLOTS ==> LoggedEntry(t[i], logs[i])
  }

  lemma TakenLogged(e: Entry, log: seq<Packet>, key: Key)
    requires LoggedEntry(e, log) && Sound(e)
    ensures Logged(Taken(e, key), Base(e, log))
  {
    hide Logged;
    if !e.valid {
      LoggedNothing(Taken(e, key));
    }
  }

  /** What a packet leaves in an entry, and what it brings out. */
  lemma AddLogged(e: Entry, log: seq<Packet>, p: Packet)
    requires LoggedEntry(e, log) && Sound(e) && p.fragment.Proper()
    ensures LoggedEntry(Add(Taken(e, p.key), p.fragment, p.now, p.capacity).0, Base(e, log) + [p])
  {
    hide Logged, Conflicts, Overlaid, Whole, Interval;
    TakenLogged(e, log, p.key);
    if !Conflicts(Taken(e, p.key), p.fragment) {
      LoggedMore(Taken(e, p.key), Base(e, log), p);
    }
  }

  /** Every packet keeps the table in step with its logs. */
  lemma NextLogged(t: Table, logs: Logs, p: Packet, timeout: nat)
    requires AllSound(t) && LoggedTable(t, logs)
    ensures LoggedTable(Receive(t, p, timeout).0, NextLogs(t, logs, p, timeout))
  {
    hide Logged, Add, Interval, Select, Fragment.Proper, Sound, Base;
    if p.fragment.Proper() {
      var t1, k := Expired(t, p.now, timeout), Chosen(t, p, timeout);
      ExpiredSound(t, p.now, timeout);
      SoundAt(t1, k);
      AddLogged(t1[k], logs[k], p);
    }
  }

  // ------------------------------------------------------------ what comes out

  /** The positions that an entry held before a packet. */
  function Held(e: Entry): (have: set<nat>) { if e.valid then e.have else {} }

  /** The size of a datagram after a packet, as far as it is known. */
  function NewTotal(e: Entry, p: Packet): (n: nat) {
    if !p.fragment.more then p.fragment.End() else if e.valid then e.total else 0
  }

  lemma OutOf(e: Entry, log: seq<Packet>, p: Packet)
    requires LoggedEntry(e, log) && Sound(e) && p.fragment.Proper()
    requires Add(Taken(e, p.key), p.fragment, p.now, p.capacity).1.Some?
    ensures var d := Add(Taken(e, p.key), p.fragment, p.now, p.capacity).1.value;
      var m := Merged(Taken(e, p.key), p.fragment, p.now);
      && Ready(m, Base(e, log) + [p]) && d == m.payload[..m.total] && |d| == m.total == NewTotal(e, p)
      && (Inside(m.have, |d|) <==> Inside(Held(e), |d|))
  {
    hide Logged, Overlaid;
    TakenLogged(e, log, p.key);
    LoggedMore(Taken(e, p.key), Base(e, log), p);
    MergeSound(Taken(e, p.key), p.fragment, p.now);
  }

  /** A datagram that comes out has the size that its entry or the last fragment gives, and is made of bytes of its
      own packets exactly when no packet of another datagram was put into the entry and nothing in it lay beyond
      that size. */
  lemma OutputGenuineIff(t: Table, logs: Logs, p: Packet, timeout: nat)
    requires AllSound(t) && LoggedTable(t, logs) && Receive(t, p, timeout).1.Some?
    ensures var d := Receive(t, p, timeout).1.value;
      var k := Chosen(t, p, timeout);
      var e := Expired(t, p.now, timeout)[k];
      && |d| == NewTotal(e, p)
      && (Genuine(NextLogs(t, logs, p, timeout)[k], p.key, d)
          <==> AllOf(Base(e, logs[k]), p.key) && Inside(Held(e), NewTotal(e, p)))
  {
    hide Logged, Add, Interval, Select, Fragment.Proper, Sound, Genuine, Inside, Merged;
    var t1, k := Expired(t, p.now, timeout), Chosen(t, p, timeout);
    ExpiredSound(t, p.now, timeout);
    SoundAt(t1, k);
    OutOf(t1[k], logs[k], p);
    GenuineIff(Merged(Taken(t1[k], p.key), p.fragment, p.now), Base(t1[k], logs[k]) + [p], p.key);
    AllOfMore(Base(t1[k], logs[k]), p);
  }

  lemma AllOfMore(log: seq<Packet>, p: Packet)
    ensures AllOf(log + [p], p.key) <==> AllOf(log, p.key)
  {
    assert forall i :: 0 <= i < |log| ==> (log + [p])[i] == log[i];
  }

  /** What comes out of an entry of another datagram is never genuine. */
  lemma ForeignNeverGenuine(t: Table, logs: Logs, p: Packet, timeout: nat)
    requires AllSound(t) && LoggedTable(t, logs) && Receive(t, p, timeout).1.Some?
    requires forall i :: 0 <= i < SLOTS ==> var e := Expired(t, p.now, timeout)[i]; e.valid && e.key != p.key
    ensures !Genuine(NextLogs(t, logs, p, timeout)[Chosen(t, p, timeout)], p.key, Receive(t, p, timeout).1.value)
  {
    hide Logged, Genuine, Inside, Receive, Fragment.Proper, Select;
    OutputGenuineIff(t, logs, p, timeout);
    var k := Chosen(t, p, timeout);
    assert LoggedEntry(t[k], logs[k]);
  }

  // ------------------------------------------------------------ runs

  /** The table and the logs after a run. */
  ghost function Run(t: Table, logs: Logs, packets: seq<Packet>, timeout: nat): (r: (Table, Logs))
    requires AllSound(t)
    ensures AllSound(r.0)
    decreases |packets|
  {
    if packets == [] then (t, logs)
    else Run(Receive(t, packets[0], timeout).0, NextLogs(t, logs, packets[0], timeout), packets[1..], timeout)
  }

  lemma {:induction false} RunLogged(t: Table, logs: Logs, packets: seq<Packet>, timeout: nat)
    requires AllSound(t) && LoggedTable(t, logs)
    ensures var r := Run(t, logs, packets, timeout); LoggedTable(r.0, r.1)
    decreases |packets|
  {
    hide LoggedTable, Receive, NextLogs;
    if packets != [] {
      NextLogged(t, logs, packets[0], timeout);
      RunLogged(Receive(t, packets[0], timeout).0, NextLogs(t, logs, packets[0], timeout), packets[1..], timeout);
    }
  }

  /** All packets of an entry are of its datagram. */
  ghost predicate Pure(t: Table, logs: Logs) {
    forall i :: 0 <= i < SLOTS && t[i].valid ==> AllOf(logs[i], t[i].key)
  }

  /** A packet finds an entry of its own or a free one. */
  predicate Uncrowded(t: Table, p: Packet, timeout: nat) {
    p.fragment.Proper() ==>
      var t1 := Expired(t, p.now, timeout);
      exists i :: 0 <= i < SLOTS && (Same(t1[i], p.key) || !t1[i].valid)
  }

  lemma OwnOrFree(t: Table, p: Packet, timeout: nat)
    requires Uncrowded(t, p, timeout) && p.fragment.Proper()
    ensures var e := Expired(t, p.now, timeout)[Chosen(t, p, timeout)]; e.valid ==> e.key == p.key
  {
    hide Select;
    ForeignIffCrowded(t, p, timeout);
  }

  lemma PureKept(t: Table, logs: Logs, p: Packet, timeout: nat)
    requires AllSound(t) && Pure(t, logs) && Uncrowded(t, p, timeout)
    ensures Pure(Receive(t, p, timeout).0, NextLogs(t, logs, p, timeout))
  {
    hide Add, Interval, Select, Fragment.Proper, Sound, Uncrowded;
    if p.fragment.Proper() {
      var t1, k := Expired(t, p.now, timeout), Chosen(t, p, timeout);
      OwnOrFree(t, p, timeout);
      ExpiredSound(t, p.now, timeout);
      SoundAt(t1, k);
      AddKey(t1[k], p.key, p.fragment, p.now, p.capacity);
      AllOfMore(Base(t1[k], logs[k]), p);
    }
  }

  predicate UncrowdedRun(t: Table, packets: seq<Packet>, timeout: nat)
    requires AllSound(t)
    decreases |packets|
  {
    packets == [] || (Uncrowded(t, packets[0], timeout)
                      && UncrowdedRun(Receive(t, packets[0], timeout).0, packets[1..], timeout))
  }

  lemma {:induction false} RunPure(t: Table, logs: Logs, packets: seq<Packet>, timeout: nat)
    requires AllSound(t) && Pure(t, logs) && UncrowdedRun(t, packets, timeout)
    ensures var r := Run(t, logs, packets, timeout); Pure(r.0, r.1)
    decreases |packets|
  {
    hide Pure, Receive, NextLogs, Uncrowded;
    if packets != [] {
      PureKept(t, logs, packets[0], timeout);
      RunPure(Receive(t, packets[0], timeout).0, NextLogs(t, logs, packets[0], timeout), packets[1..], timeout);
    }
  }

  /** After any run from a table of free entries in which every packet found an entry, a datagram that comes out is
      made of bytes of its own packets exactly when nothing in its entry lay beyond it. */
  lemma UncrowdedOutputs(t: Table, logs: Logs, packets: seq<Packet>, p: Packet, timeout: nat)
    requires AllSound(t) && (forall i :: 0 <= i < SLOTS ==> !t[i].valid) && UncrowdedRun(t, packets, timeout)
    requires var r := Run(t, logs, packets, timeout); Uncrowded(r.0, p, timeout) && Receive(r.0, p, timeout).1.Some?
    ensures var r := Run(t, logs, packets, timeout);
      var d, k := Receive(r.0, p, timeout).1.value, Chosen(r.0, p, timeout);
      var e := Expired(r.0, p.now, timeout)[k];
      Genuine(NextLogs(r.0, r.1, p, timeout)[k], p.key, d) <==> Inside(Held(e), NewTotal(e, p))
  {
    hide Receive, NextLogs, Genuine, Inside, Uncrowded, UncrowdedRun, Run, Logged, Select, Fragment.Proper;
    RunLogged(t, logs, packets, timeout);
    RunPure(t, logs, packets, timeout);
    var r := Run(t, logs, packets, timeout);
    OutputProper(r.0, p, timeout);
    OwnOrFree(r.0, p, timeout);
    OutputGenuineIff(r.0, r.1, p, timeout);
  }

  lemma OutputProper(t: Table, p: Packet, timeout: nat)
    requires AllSound(t) && Receive(t, p, timeout).1.Some?
    ensures p.fragment.Proper()
  {}
}
