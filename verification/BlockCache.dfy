/** A write-through sector cache over block devices. */
module BlockCache {
  import opened Bits
  import opened Options

  const ENTRIES := 16
  const SECTOR_MAX := 512
  const MAX_DEVICES := 16
  const CLOCK_LIMIT := 0x1_0000_0000_0000_0000

  // ------------------------------------------------------------ devices

  /** A registered device: its sectors, all of one size. */
  datatype Device = Device(size: nat, sectors: seq<seq<byte>>) {
    predicate Valid() {
      size > 0 && |sectors| > 0 && forall i :: 0 <= i < |sectors| ==> |sectors[i]| == size
    }
  }

  datatype Key = Key(registry: nat, device: nat, sector: nat)

  /** The registered devices of all registries. */
  type Disks = map<(nat, nat), Device>

  predicate DisksValid(disks: Disks) {
    forall d :: d in disks ==> disks[d].Valid()
  }

  /** The device exists. */
  predicate Registered(disks: Disks, k: Key) {
    k.device < MAX_DEVICES && (k.registry, k.device) in disks
  }

  /** The device has such a sector. */
  predicate Requestable(disks: Disks, k: Key) {
    Registered(disks, k) && k.sector < |disks[(k.registry, k.device)].sectors|
  }

  function SectorSize(disks: Disks, k: Key): (n: nat)
    requires Registered(disks, k)
  {
    disks[(k.registry, k.device)].size
  }

  function Sector(disks: Disks, k: Key): (data: seq<byte>)
    requires Requestable(disks, k)
  {
    disks[(k.registry, k.device)].sectors[k.sector]
  }

  function WithSector(disks: Disks, k: Key, data: seq<byte>): (d: Disks)
    requires Requestable(disks, k)
  {
    var device := disks[(k.registry, k.device)];
    disks[(k.registry, k.device) := device.(sectors := device.sectors[k.sector := data])]
  }

  /** What reading one sector without a cache returns; `works` says whether the device does its part. */
  function DeviceRead(disks: Disks, k: Key, works: bool): (r: Option<seq<byte>>) {
    if works && Requestable(disks, k) then Some(Sector(disks, k)) else None
  }

  /** The devices after a sector is written, if that succeeds; a write that fails changes nothing. */
  function DeviceWrite(disks: Disks, k: Key, data: seq<byte>, works: bool): (r: Option<Disks>) {
    if works && Requestable(disks, k) then Some(WithSector(disks, k, data)) else None
  }

  // ------------------------------------------------------------ the cache

  datatype Entry = Entry(valid: bool, key: Key, age: nat, data: seq<byte>)

  datatype Cache = Cache(clock: nat, entries: seq<Entry>) {
    predicate Sized() { |entries| == ENTRIES }
  }

  predicate Matches(e: Entry, k: Key) {
    e.valid && e.key == k
  }

  /** The first entry of a sector from `i` on, or `ENTRIES`. */
  function Find(entries: seq<Entry>, k: Key, i: nat): (n: nat)
    requires i <= |entries| == ENTRIES
    ensures i <= n <= ENTRIES && (n < ENTRIES ==> Matches(entries[n], k))
    ensures forall j :: i <= j < n ==> !Matches(entries[j], k)
    decreases ENTRIES - i
  {
    if i == ENTRIES then ENTRIES else if Matches(entries[i], k) then i else Find(entries, k, i + 1)
  }

  /** The first free entry from `i` on, else the one with the smallest age, `chosen` if none is younger. */
  function Choose(entries: seq<Entry>, i: nat, chosen: nat): (n: nat)
    requires i <= |entries| == ENTRIES && chosen < ENTRIES
    ensures n < ENTRIES
    ensures (exists j :: i <= j < ENTRIES && !entries[j].valid) ==> !entries[n].valid
    ensures (forall j :: i <= j < ENTRIES ==> entries[j].valid) ==>
      entries[n].age <= entries[chosen].age && forall j :: i <= j < ENTRIES ==> entries[n].age <= entries[j].age
    decreases ENTRIES - i
  {
    if i == ENTRIES then chosen
    else if !entries[i].valid then i
    else Choose(entries, i + 1, if entries[i].age < entries[chosen].age then i else chosen)
  }

  function Tick(clock: nat): (c: nat) {
    if clock + 1 == CLOCK_LIMIT then 0 else clock + 1
  }

  /** The slot that a sector is or will be in. */
  function Place(entries: seq<Entry>, k: Key): (n: nat)
    requires |entries| == ENTRIES
    ensures n < ENTRIES
  {
    var n := Find(entries, k, 0);
    if n < ENTRIES then n else Choose(entries, 0, 0)
  }

  function Stored(c: Cache, k: Key, data: seq<byte>): (c': Cache)
    requires c.Sized()
  {
    Cache(Tick(c.clock), c.entries[Place(c.entries, k) := Entry(true, k, Tick(c.clock), data)])
  }

  /** Reading one sector through the cache. */
  function Read(c: Cache, disks: Disks, k: Key, size: nat, works: bool): (r: (Cache, Option<seq<byte>>))
    requires c.Sized()
  {
    if size == 0 || size > SECTOR_MAX || !Registered(disks, k) || SectorSize(disks, k) != size then (c, None)
    else
      var n := Find(c.entries, k, 0);
      if n < ENTRIES
      then (c.(clock := Tick(c.clock), entries := c.entries[n := c.entries[n].(age := Tick(c.clock))]),
            Some(c.entries[n].data))
      else match DeviceRead(disks, k, works)
        case None => (c, None)
        case Some(data) => (Stored(c, k, data), Some(data))
  }

  /** Writing one sector through the cache. */
  function Write(c: Cache, disks: Disks, k: Key, data: seq<byte>, works: bool): (r: (Cache, Disks, bool))
    requires c.Sized()
  {
    if |data| == 0 || |data| > SECTOR_MAX || !Registered(disks, k) || SectorSize(disks, k) != |data|
      then (c, disks, false)
    else match DeviceWrite(disks, k, data, works)
      case None => (c, disks, false)
      case Some(disks') => (Stored(c, k, data), disks', true)
  }

  function Invalidate(c: Cache, k: Key): (c': Cache)
    requires c.Sized()
  {
    var n := Find(c.entries, k, 0);
    if n < ENTRIES then c.(entries := c.entries[n := c.entries[n].(valid := false)]) else c
  }

  predicate OnDevice(e: Entry, registry: nat, device: nat) {
    e.valid && e.key.registry == registry && e.key.device == device
  }

  function InvalidateDevice(c: Cache, registry: nat, device: nat): (c': Cache)
    requires c.Sized()
    ensures c'.Sized()
  {
    c.(entries := seq(ENTRIES, i requires 0 <= i < ENTRIES =>
      if OnDevice(c.entries[i], registry, device) then c.entries[i].(valid := false) else c.entries[i]))
  }

  // ------------------------------------------------------------ what every operation keeps

  /** A valid entry holds what its device holds. */
  predicate Agrees(e: Entry, disks: Disks) {
    e.valid ==> Requestable(disks, e.key) && e.data == Sector(disks, e.key)
  }

  predicate Coherent(c: Cache, disks: Disks) {
    && c.Sized() && DisksValid(disks)
    && (forall i :: 0 <= i < ENTRIES ==> Agrees(c.entries[i], disks))
    && UniqueKeys(c.entries)
  }

  /** At most one entry per sector. */
  predicate UniqueKeys(entries: seq<Entry>) {
    forall i, j :: 0 <= i < j < |entries| && entries[i].valid && entries[j].valid ==> entries[i].key != entries[j].key
  }

  /** A sector is in no entry but its place. */
  lemma OnlyInPlace(entries: seq<Entry>, k: Key)
    requires |entries| == ENTRIES && UniqueKeys(entries)
    ensures forall i :: 0 <= i < ENTRIES && i != Place(entries, k) && entries[i].valid ==> entries[i].key != k
  {}

  lemma StoredUnique(c: Cache, k: Key, data: seq<byte>)
    requires c.Sized() && UniqueKeys(c.entries)
    ensures UniqueKeys(Stored(c, k, data).entries)
  {}

  /** The number of the last use of a sector, counted from 1, or 0. */
  function Last(uses: seq<Key>, k: Key): (n: nat)
    ensures n <= |uses| && k !in uses[n..] && (n > 0 ==> uses[n - 1] == k)
  {
    if uses == [] then 0
    else if uses[|uses| - 1] == k then |uses|
    else
      var n := Last(uses[..|uses| - 1], k);
      assert uses[n..] == uses[..|uses| - 1][n..] + [uses[|uses| - 1]];
      n
  }

  /** The clock has counted every use so far, and each entry's age is what it showed at the last use of its
      sector. Both are numbers below `CLOCK_LIMIT`. */
  predicate Aged(c: Cache, uses: seq<Key>) {
    && c.Sized() && c.clock == |uses| % CLOCK_LIMIT
    && forall i :: 0 <= i < ENTRIES ==> LastUsed(c.entries[i], uses)
  }

  predicate LastUsed(e: Entry, uses: seq<Key>) {
    e.valid ==> Last(uses, e.key) > 0 && e.age == Last(uses, e.key) % CLOCK_LIMIT
  }

  /** Storing keeps the cache coherent with devices that already hold the data. */
  lemma StoredCoherent(c: Cache, disks: Disks, disks': Disks, k: Key, data: seq<byte>)
    requires Coherent(c, disks) && DisksValid(disks') && Requestable(disks', k) && Sector(disks', k) == data
    requires forall j: Key ::
      Requestable(disks, j) && j != k ==> Requestable(disks', j) && Sector(disks', j) == Sector(disks, j)
    ensures Coherent(Stored(c, k, data), disks')
  {}

  /** A write changes its own sector and no other. */
  lemma WithSectorOnly(disks: Disks, k: Key, data: seq<byte>, j: Key)
    requires DisksValid(disks) && Requestable(disks, k) && |data| == SectorSize(disks, k)
    ensures DisksValid(WithSector(disks, k, data))
    ensures Requestable(WithSector(disks, k, data), j) <==> Requestable(disks, j)
    ensures Requestable(disks, j) ==> Sector(WithSector(disks, k, data), j) == if j == k then data else Sector(disks, j)
  {}

  lemma InvalidateCoherent(c: Cache, disks: Disks, disks': Disks, k: Key)
    requires Coherent(c, disks) && DisksValid(disks')
    requires forall j: Key ::
      Requestable(disks, j) && j != k ==> Requestable(disks', j) && Sector(disks', j) == Sector(disks, j)
    ensures Coherent(Invalidate(c, k), disks')
  {
    hide Sector, Find;
    OnlyInPlace(c.entries, k);
  }

  // ------------------------------------------------------------ runs

  datatype Event =
    | ReadEvent(k: Key, size: nat, works: bool)
    | WriteEvent(k: Key, data: seq<byte>, works: bool)
    | InvalidateEvent(k: Key)
    | InvalidateDeviceEvent(registry: nat, device: nat)
    | BypassEvent(k: Key, data: seq<byte>, works: bool)

  /** A cache, its devices, and every use of a sector so far. */
  datatype World = World(cache: Cache, disks: Disks, uses: seq<Key>)

  /** One operation; bypassing the cache is a device write followed by invalidating the sector. */
  function Step(w: World, e: Event): (w': World)
    requires w.cache.Sized()
  {
    match e
    case ReadEvent(k, size, works) =>
      var r := Read(w.cache, w.disks, k, size, works);
      World(r.0, w.disks, if r.1.Some? then w.uses + [k] else w.uses)
    case WriteEvent(k, data, works) =>
      var r := Write(w.cache, w.disks, k, data, works);
      World(r.0, r.1, if r.2 then w.uses + [k] else w.uses)
    case InvalidateEvent(k) => w.(cache := Invalidate(w.cache, k))
    case InvalidateDeviceEvent(registry, device) => w.(cache := InvalidateDevice(w.cache, registry, device))
    case BypassEvent(k, data, works) =>
      if !Registered(w.disks, k) || |data| != SectorSize(w.disks, k) then w
      else match DeviceWrite(w.disks, k, data, works)
        case None => w
        case Some(disks) => World(Invalidate(w.cache, k), disks, w.uses)
  }

  lemma ReadCoherent(c: Cache, disks: Disks, k: Key, size: nat, works: bool)
    requires Coherent(c, disks)
    ensures Coherent(Read(c, disks, k, size, works).0, disks)
  {
    hide Stored, Sector, Find;
    if works && Requestable(disks, k) {
      StoredCoherent(c, disks, disks, k, Sector(disks, k));
    }
  }

  lemma WriteCoherent(c: Cache, disks: Disks, k: Key, data: seq<byte>, works: bool)
    requires Coherent(c, disks)
    ensures var r := Write(c, disks, k, data, works); Coherent(r.0, r.1)
  {
    hide Stored, Coherent, WithSector, Sector;
    CoherentValid(c, disks);
    if works && Requestable(disks, k) && |data| == SectorSize(disks, k) {
      forall j: Key
        ensures Requestable(disks, j) && j != k ==>
          Requestable(WithSector(disks, k, data), j) && Sector(WithSector(disks, k, data), j) == Sector(disks, j)
      {
        WithSectorOnly(disks, k, data, j);
      }
      WithSectorOnly(disks, k, data, k);
      StoredCoherent(c, disks, WithSector(disks, k, data), k, data);
    }
  }

  lemma CoherentValid(c: Cache, disks: Disks)
    requires Coherent(c, disks)
    ensures DisksValid(disks) && c.Sized()
  {}

  lemma BypassCoherent(c: Cache, disks: Disks, k: Key, data: seq<byte>)
    requires Coherent(c, disks) && Requestable(disks, k) && |data| == SectorSize(disks, k)
    ensures Coherent(Invalidate(c, k), WithSector(disks, k, data))
  {
    hide Invalidate, Coherent, WithSector, Sector;
    CoherentValid(c, disks);
    forall j: Key
      ensures Requestable(disks, j) && j != k ==>
        Requestable(WithSector(disks, k, data), j) && Sector(WithSector(disks, k, data), j) == Sector(disks, j)
    {
      WithSectorOnly(disks, k, data, j);
    }
    WithSectorOnly(disks, k, data, k);
    InvalidateCoherent(c, disks, WithSector(disks, k, data), k);
  }

  lemma StepCoherent(w: World, e: Event)
    requires Coherent(w.cache, w.disks)
    ensures var w' := Step(w, e); Coherent(w'.cache, w'.disks)
  {
    hide Read, Write, Invalidate, WithSector, Sector;
    match e
    case ReadEvent(k, size, works) => ReadCoherent(w.cache, w.disks, k, size, works);
    case WriteEvent(k, data, works) => WriteCoherent(w.cache, w.disks, k, data, works);
    case InvalidateEvent(k) => InvalidateCoherent(w.cache, w.disks, w.disks, k);
    case InvalidateDeviceEvent(registry, device) =>
    case BypassEvent(k, data, works) =>
      if works && Requestable(w.disks, k) && |data| == SectorSize(w.disks, k) {
        BypassCoherent(w.cache, w.disks, k, data);
      }
  }

  ghost function Run(w: World, events: seq<Event>): (w': World)
    requires Coherent(w.cache, w.disks)
    ensures Coherent(w'.cache, w'.disks)
    decreases |events|
  {
    if events == [] then w else
    StepCoherent(w, events[0]);
    Run(Step(w, events[0]), events[1..])
  }

  /** After any run, a read through the cache that succeeds returns what the device holds, and it succeeds
      whenever the read without the cache would. */
  lemma ReadsAsUncached(w: World, events: seq<Event>, k: Key, size: nat, works: bool)
    requires Coherent(w.cache, w.disks)
    ensures var end := Run(w, events); var r := Read(end.cache, end.disks, k, size, works).1;
      && (r.Some? ==> Requestable(end.disks, k) && r == DeviceRead(end.disks, k, true))
      && (size <= 512 && Requestable(end.disks, k) && SectorSize(end.disks, k) == size && works ==> r.Some?)
  {}

  // ------------------------------------------------------------ replacement

  lemma TickCounts(n: nat)
    ensures Tick(n % CLOCK_LIMIT) == (n + 1) % CLOCK_LIMIT
  {}

  lemma LastMore(uses: seq<Key>, k: Key, j: Key)
    ensures Last(uses + [k], j) == if j == k then |uses| + 1 else Last(uses, j)
  {
    assert (uses + [k])[..|uses|] == uses;
  }

  /** The entry of a sector just used, whichever it is. */
  lemma UsedAged(c: Cache, uses: seq<Key>, k: Key, n: nat, e: Entry)
    requires Aged(c, uses) && n < ENTRIES && e.valid && e.key == k && e.age == Tick(c.clock)
    requires forall i :: 0 <= i < ENTRIES && i != n && c.entries[i].valid ==> c.entries[i].key != k
    ensures Aged(Cache(Tick(c.clock), c.entries[n := e]), uses + [k])
  {
    hide Last, Tick;
    TickCounts(|uses|);
    LastMore(uses, k, k);
    forall i | 0 <= i < ENTRIES && i != n
      ensures LastUsed(c.entries[i], uses + [k])
    {
      LastMore(uses, k, c.entries[i].key);
    }
  }

  lemma StoredAged(c: Cache, uses: seq<Key>, k: Key, data: seq<byte>)
    requires Aged(c, uses) && UniqueKeys(c.entries)
    ensures Aged(Stored(c, k, data), uses + [k])
  {
    hide Aged, UniqueKeys, Place, Tick;
    AgedSized(c, uses);
    OnlyInPlace(c.entries, k);
    UsedAged(c, uses, k, Place(c.entries, k), Entry(true, k, Tick(c.clock), data));
  }

  lemma AgedSized(c: Cache, uses: seq<Key>)
    requires Aged(c, uses)
    ensures c.Sized()
  {}

  lemma HitAged(c: Cache, uses: seq<Key>, k: Key, n: nat)
    requires c.Sized() && Aged(c, uses) && UniqueKeys(c.entries) && n == Find(c.entries, k, 0) < ENTRIES
    ensures Aged(c.(clock := Tick(c.clock), entries := c.entries[n := c.entries[n].(age := Tick(c.clock))]), uses + [k])
  {
    hide Aged, UniqueKeys, Tick;
    AgedSized(c, uses);
    OnlyInPlace(c.entries, k);
    UsedAged(c, uses, k, n, c.entries[n].(age := Tick(c.clock)));
  }

  lemma InvalidAged(w: World, e: Event)
    requires Coherent(w.cache, w.disks) && Aged(w.cache, w.uses) && !e.ReadEvent? && !e.WriteEvent?
    ensures Aged(Step(w, e).cache, Step(w, e).uses)
  {
    hide Last, Find, WithSector, Sector, Agrees, UniqueKeys, DisksValid;
  }

  /** Every operation keeps clock and ages, also when the clock runs over. */
  lemma StepAged(w: World, e: Event)
    requires Coherent(w.cache, w.disks) && Aged(w.cache, w.uses)
    ensures Aged(Step(w, e).cache, Step(w, e).uses)
  {
    hide Aged, Stored, Sector, WithSector, DisksValid, Agrees, UniqueKeys;
    match e
    case ReadEvent(k, size, works) =>
      var n := Find(w.cache.entries, k, 0);
      if n < ENTRIES {
        HitAged(w.cache, w.uses, k, n);
      } else if works && Requestable(w.disks, k) {
        StoredAged(w.cache, w.uses, k, Sector(w.disks, k));
      }
    case WriteEvent(k, data, works) =>
      StoredAged(w.cache, w.uses, k, data);
    case _ =>
      InvalidAged(w, e);
  }

  /** Clock and ages are right after every run, however long. */
  lemma {:induction false} RunAged(w: World, events: seq<Event>)
    requires Coherent(w.cache, w.disks) && Aged(w.cache, w.uses)
    ensures var end := Run(w, events); Aged(end.cache, end.uses)
    decreases |events|
  {
    hide Step, Coherent, Aged;
    if events != [] {
      CoherentValid(w.cache, w.disks);
      StepAged(w, events[0]);
      StepCoherent(w, events[0]);
      RunAged(Step(w, events[0]), events[1..]);
    }
  }

  /** Every sector in a full cache was last used less than `CLOCK_LIMIT` uses ago. */
  predicate Recent(c: Cache, uses: seq<Key>) {
    forall i :: 0 <= i < |c.entries| ==> c.entries[i].valid && |uses| - Last(uses, c.entries[i].key) < CLOCK_LIMIT
  }

  /** No other sector in the cache was last used before that of entry `n`. */
  predicate LeastRecent(c: Cache, uses: seq<Key>, n: nat)
    requires n < |c.entries|
  {
    forall i :: 0 <= i < |c.entries| ==> Last(uses, c.entries[n].key) <= Last(uses, c.entries[i].key)
  }

  /** No age has come before the clock ran over, or all have. */
  predicate OneSided(c: Cache) {
    (forall i :: 0 <= i < |c.entries| ==> c.entries[i].age <= c.clock)
    || (forall i :: 0 <= i < |c.entries| ==> c.entries[i].age > c.clock)
  }

  /** How long ago a sector was used, from its age and the clock. */
  lemma AgeTells(clock: nat, age: nat, now: nat, last: nat)
    requires last <= now && now - last < CLOCK_LIMIT && clock == now % CLOCK_LIMIT && age == last % CLOCK_LIMIT
    ensures now - last == if age <= clock then clock - age else clock + CLOCK_LIMIT - age
  {}

  lemma EntryAge(c: Cache, uses: seq<Key>, i: nat)
    requires Aged(c, uses) && Recent(c, uses) && i < ENTRIES
    ensures c.entries[i].age < CLOCK_LIMIT
    ensures |uses| - Last(uses, c.entries[i].key)
         == if c.entries[i].age <= c.clock then c.clock - c.entries[i].age else c.clock + CLOCK_LIMIT - c.entries[i].age
  {
    hide Last;
    assert LastUsed(c.entries[i], uses);
    AgeTells(c.clock, c.entries[i].age, |uses|, Last(uses, c.entries[i].key));
  }

  /** A full cache gives up the entry with the smallest age, and that is the least recently used one exactly when
      all ages lie on one side of the clock. */
  lemma EvictsLeastRecentIff(c: Cache, uses: seq<Key>, k: Key)
    requires Aged(c, uses) && Recent(c, uses) && Find(c.entries, k, 0) == ENTRIES
    ensures LeastRecent(c, uses, Place(c.entries, k)) <==> OneSided(c)
  {
    hide Last, Find, Choose, Aged;
    AgedSized(c, uses);
    var n := Place(c.entries, k);
    assert forall i :: 0 <= i < ENTRIES ==> c.entries[n].age <= c.entries[i].age;
    EntryAge(c, uses, n);
    forall i | 0 <= i < ENTRIES
      ensures Last(uses, c.entries[n].key) <= Last(uses, c.entries[i].key)
        <==> !(c.entries[n].age <= c.clock < c.entries[i].age)
    {
      EntryAge(c, uses, i);
    }
  }

  lemma RoundsDecide(a: nat, b: nat)
    requires a % CLOCK_LIMIT <= b % CLOCK_LIMIT
    ensures a <= b <==> a / CLOCK_LIMIT <= b / CLOCK_LIMIT
  {}

  /** Whenever the uses were: the entry given up is the least recently used one exactly when no other was last used
      in an earlier round of the clock. */
  lemma EvictsByRound(c: Cache, uses: seq<Key>, k: Key)
    requires Aged(c, uses) && (forall i :: 0 <= i < ENTRIES ==> c.entries[i].valid) && Find(c.entries, k, 0) == ENTRIES
    ensures var last := Last(uses, c.entries[Place(c.entries, k)].key);
      LeastRecent(c, uses, Place(c.entries, k))
      <==> forall i :: 0 <= i < ENTRIES ==> last / CLOCK_LIMIT <= Last(uses, c.entries[i].key) / CLOCK_LIMIT
  {
    hide Last, Find, Choose;
    var n := Place(c.entries, k);
    assert LastUsed(c.entries[n], uses);
    forall i | 0 <= i < ENTRIES
      ensures var last := Last(uses, c.entries[i].key);
        Last(uses, c.entries[n].key) <= last <==> Last(uses, c.entries[n].key) / CLOCK_LIMIT <= last / CLOCK_LIMIT
    {
      assert LastUsed(c.entries[i], uses);
      RoundsDecide(Last(uses, c.entries[n].key), Last(uses, c.entries[i].key));
    }
  }

  /** A new sector takes a free entry if there is one. */
  lemma TakesFree(c: Cache, k: Key, i: nat)
    requires c.Sized() && i < ENTRIES && !c.entries[i].valid && Find(c.entries, k, 0) == ENTRIES
    ensures !c.entries[Place(c.entries, k)].valid
  {
    hide Choose, Find;
  }

  lemma EmptyAged(w: World)
    requires w.cache.Sized() && w.cache.clock == 0 && w.uses == [] && DisksValid(w.disks)
    requires forall i :: 0 <= i < ENTRIES ==> !w.cache.entries[i].valid
    ensures Coherent(w.cache, w.disks) && Aged(w.cache, w.uses)
  {
    hide DisksValid;
  }

  /** After every run from an empty cache, a sector that is not in the full cache takes the entry of the least
      recently used one exactly when all ages lie on one side of the clock; so it does after every run of fewer
      than `CLOCK_LIMIT` uses. */
  lemma RunEvictsLeastRecent(w: World, events: seq<Event>, k: Key)
    requires w.cache.Sized() && w.cache.clock == 0 && w.uses == [] && DisksValid(w.disks)
    requires forall i :: 0 <= i < ENTRIES ==> !w.cache.entries[i].valid
    ensures Coherent(w.cache, w.disks)
    ensures var end := Run(w, events);
      Find(end.cache.entries, k, 0) == ENTRIES && Recent(end.cache, end.uses) ==>
        (LeastRecent(end.cache, end.uses, Place(end.cache.entries, k)) <==> OneSided(end.cache))
    ensures var end := Run(w, events);
      |end.uses| < CLOCK_LIMIT && (forall i :: 0 <= i < ENTRIES ==> end.cache.entries[i].valid) ==>
        Recent(end.cache, end.uses) && OneSided(end.cache)
  {
    hide Run, Find, Place, DisksValid, Last, LeastRecent;
    EmptyAged(w);
    RunAged(w, events);
    var end := Run(w, events);
    if Find(end.cache.entries, k, 0) == ENTRIES && Recent(end.cache, end.uses) {
      EvictsLeastRecentIff(end.cache, end.uses, k);
    }
    if |end.uses| < CLOCK_LIMIT {
      forall i | 0 <= i < ENTRIES && end.cache.entries[i].valid
        ensures end.cache.entries[i].age == Last(end.uses, end.cache.entries[i].key)
      {
        assert LastUsed(end.cache.entries[i], end.uses);
      }
    }
  }

  /** When the clock runs over, the next sector to come in has age 0 and is the first to go: the one used last. */
  lemma WrapEvictsNewest(c: Cache, k: Key, data: seq<byte>, next: Key)
    requires c.Sized() && c.clock + 1 == CLOCK_LIMIT && next != k
    requires forall e :: e in c.entries ==> e.valid && e.age > 0 && e.key != k && e.key != next
    ensures var c' := Stored(c, k, data); c'.entries[Place(c'.entries, next)].key == k
  {
    hide Choose;
    var c', n := Stored(c, k, data), Place(c.entries, k);
    assert forall i :: 0 <= i < ENTRIES ==> !Matches(c'.entries[i], next);
    assert c'.entries[n].age == 0;
  }
}
