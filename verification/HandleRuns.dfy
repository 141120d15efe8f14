/** What every run of handle operations keeps: counts, references, and one release per occupancy. */
module HandleRuns {
  import opened Options
  import opened Handles

  /** A reference given out, to the occupancy `tag` of a slot. */
  datatype Ref = Ref(slot: nat, tag: nat, active: bool)

  /** A table with its history: which occupancy each slot holds, which have ended, and how often each slot's
      generation moved on. */
  datatype World = World(table: Table, tags: seq<nat>, refs: seq<Ref>, ended: set<nat>, next: nat, bumps: seq<nat>)

  predicate Occupied(t: Table, s: nat)
    requires t.Sized() && s < CAPACITY
  {
    t.entries[s].resource != 0
  }

  /** The slot's occupancy ends between two tables. */
  predicate Ends(t: Table, t': Table, s: nat)
    requires t.Sized() && t'.Sized() && s < CAPACITY
  {
    Occupied(t, s) && !Occupied(t', s)
  }

  predicate Begins(t: Table, t': Table, s: nat)
    requires t.Sized() && t'.Sized() && s < CAPACITY
  {
    !Occupied(t, s) && Occupied(t', s)
  }

  function EndedTags(t: Table, t': Table, tags: seq<nat>, n: nat): (ended: set<nat>)
    requires t.Sized() && t'.Sized() && |tags| == CAPACITY && n <= CAPACITY
    ensures forall g :: g in ended <==> exists s :: 0 <= s < n && Ends(t, t', s) && tags[s] == g
  {
    if n == 0 then {}
    else EndedTags(t, t', tags, n - 1) + (if Ends(t, t', n - 1) then {tags[n - 1]} else {})
  }

  /** The history after a step from one table to the next. */
  function Tracked(w: World, t': Table, refs: seq<Ref>): (w': World)
    requires w.table.Sized() && t'.Sized() && |w.tags| == CAPACITY == |w.bumps|
  {
    World(t',
          seq(CAPACITY, s requires 0 <= s < CAPACITY => if Begins(w.table, t', s) then w.next + s else w.tags[s]),
          refs, w.ended + EndedTags(w.table, t', w.tags, CAPACITY), w.next + CAPACITY,
          seq(CAPACITY, s requires 0 <= s < CAPACITY =>
            if t'.generations[s] != w.table.generations[s] then w.bumps[s] + 1 else w.bumps[s]))
  }

  /** How many live references a slot has. */
  function Live(refs: seq<Ref>, s: nat): (n: nat) {
    if refs == [] then 0
    else Live(refs[..|refs| - 1], s) + (if refs[|refs| - 1].active && refs[|refs| - 1].slot == s then 1 else 0)
  }

  function Total(entries: seq<Entry>): (n: nat) {
    if entries == [] then 0 else Total(entries[..|entries| - 1]) + entries[|entries| - 1].retained
  }

  // ------------------------------------------------------------ the invariant

  /** Generations are where their moves have brought them. */
  predicate Counted(t: Table, bumps: seq<nat>) {
    && t.Sized() && |bumps| == CAPACITY
    && forall s :: 0 <= s < CAPACITY ==> t.generations[s] == 1 + bumps[s] % LAST_GENERATION
  }

  /** Every entry counts its live references, and the table counts all of them. */
  predicate Referenced(t: Table, refs: seq<Ref>)
    requires t.Sized()
  {
    && (forall s: nat :: s < CAPACITY ==> t.entries[s].retained == Live(refs, s))
    && (forall s :: 0 <= s < CAPACITY && t.entries[s].resource == 0 ==>
        t.entries[s].retained == 0 && t.entries[s].release == 0)
    && t.retained == Total(t.entries)
  }

  /** A live reference is to what its slot holds now. */
  predicate Current(refs: seq<Ref>, tags: seq<nat>)
    requires |tags| == CAPACITY
  {
    forall i :: 0 <= i < |refs| && refs[i].active ==> refs[i].slot < CAPACITY && refs[i].tag == tags[refs[i].slot]
  }

  /** Occupancies are told apart, and those going on have not ended. */
  predicate Distinct(t: Table, tags: seq<nat>, ended: set<nat>, next: nat)
    requires t.Sized() && |tags| == CAPACITY
  {
    && (forall s :: 0 <= s < CAPACITY && Occupied(t, s) ==> tags[s] < next && tags[s] !in ended)
    && (forall r, s :: 0 <= r < s < CAPACITY && Occupied(t, r) && Occupied(t, s) ==> tags[r] != tags[s])
    && (forall g :: g in ended ==> g < next)
  }

  predicate Inv(w: World) {
    && Counted(w.table, w.bumps) && |w.tags| == CAPACITY
    && Referenced(w.table, w.refs) && Current(w.refs, w.tags) && Distinct(w.table, w.tags, w.ended, w.next)
  }

  // ------------------------------------------------------------ references

  lemma {:induction false} LiveSome(refs: seq<Ref>, i: nat)
    requires i < |refs| && refs[i].active
    ensures Live(refs, refs[i].slot) > 0
    decreases |refs|
  {
    if i < |refs| - 1 {
      LiveSome(refs[..|refs| - 1], i);
    }
  }

  lemma {:induction false} LiveDropped(refs: seq<Ref>, i: nat, s: nat)
    requires i < |refs| && refs[i].active
    ensures Live(refs[i := refs[i].(active := false)], s) == Live(refs, s) - (if refs[i].slot == s then 1 else 0)
    decreases |refs|
  {
    var n := |refs| - 1;
    var refs' := refs[i := refs[i].(active := false)];
    if i < n {
      LiveDropped(refs[..n], i, s);
      assert refs'[..n] == refs[..n][i := refs[i].(active := false)];
    } else {
      assert refs'[..n] == refs[..n];
    }
  }

  lemma {:induction false} TotalSame(a: seq<Entry>, b: seq<Entry>)
    requires |a| == |b| && forall s :: 0 <= s < |a| ==> a[s].retained == b[s].retained
    ensures Total(a) == Total(b)
  {
    if a != [] {
      TotalSame(a[..|a| - 1], b[..|b| - 1]);
    }
  }

  lemma {:induction false} TotalUpdate(a: seq<Entry>, k: nat, e: Entry)
    requires k < |a|
    ensures Total(a[k := e]) == Total(a) - a[k].retained + e.retained
  {
    var n := |a| - 1;
    if k < n {
      TotalUpdate(a[..n], k, e);
      assert a[k := e][..n] == a[..n][k := e];
    } else {
      assert a[k := e][..n] == a[..n];
    }
  }

  // ------------------------------------------------------------ steps

  /** A step that moves no reference: entries keep their counts, an occupied slot keeps its resource or is
      freed with no reference left, and generations stay or move on. */
  predicate Quiet(t: Table, t': Table) {
    && t.Sized() && t'.Sized() && t'.retained == t.retained
    && (forall s :: 0 <= s < CAPACITY ==> t'.entries[s].retained == t.entries[s].retained)
    && (forall s :: 0 <= s < CAPACITY && t'.entries[s].resource == 0 ==>
        t'.entries[s].retained == 0 && t'.entries[s].release == 0)
    && (forall s :: 0 <= s < CAPACITY ==>
        t'.generations[s] == t.generations[s] || t'.generations[s] == NextGeneration(t.generations[s]))
  }

  lemma CountedStep(t: Table, t': Table, bumps: seq<nat>, w: World)
    requires w.table == t && w.bumps == bumps && |w.tags| == CAPACITY && Counted(t, bumps) && t'.Sized()
    requires forall s | 0 <= s < CAPACITY ::
      t'.generations[s] == t.generations[s] || t'.generations[s] == NextGeneration(t.generations[s])
    ensures Counted(t', Tracked(w, t', w.refs).bumps)
  {}

  /** Occupancies stay told apart, whatever begins and ends. */
  lemma DistinctStep(w: World, t': Table, refs: seq<Ref>)
    requires w.table.Sized() && t'.Sized() && |w.tags| == CAPACITY == |w.bumps|
    requires Distinct(w.table, w.tags, w.ended, w.next)
    ensures var w' := Tracked(w, t', refs); Distinct(t', w'.tags, w'.ended, w'.next)
  {}

  /** References stay to what their slots hold, if no referenced slot begins anew. */
  lemma CurrentStep(w: World, t': Table, refs: seq<Ref>)
    requires w.table.Sized() && t'.Sized() && |w.tags| == CAPACITY == |w.bumps| && Current(refs, w.tags)
    requires forall i :: 0 <= i < |refs| && refs[i].active && refs[i].slot < CAPACITY ==>
      Occupied(w.table, refs[i].slot)
    ensures Current(refs, Tracked(w, t', refs).tags)
  {}

  lemma RefsOccupied(t: Table, refs: seq<Ref>, tags: seq<nat>)
    requires t.Sized() && |tags| == CAPACITY && Referenced(t, refs) && Current(refs, tags)
    ensures forall i :: 0 <= i < |refs| && refs[i].active && refs[i].slot < CAPACITY ==> Occupied(t, refs[i].slot)
  {
    forall i | 0 <= i < |refs| && refs[i].active
      ensures refs[i].slot < CAPACITY && Occupied(t, refs[i].slot)
    {
      LiveSome(refs, i);
    }
  }

  lemma QuietKeeps(w: World, t': Table)
    requires Inv(w) && Quiet(w.table, t')
    ensures Inv(Tracked(w, t', w.refs))
  {
    hide Live, Total, Counted, Distinct, Current;
    CountedSized(w.table, w.bumps);
    CountedStep(w.table, t', w.bumps, w);
    DistinctStep(w, t', w.refs);
    RefsOccupied(w.table, w.refs, w.tags);
    CurrentStep(w, t', w.refs);
    TotalSame(w.table.entries, t'.entries);
  }

  lemma CountedSized(t: Table, bumps: seq<nat>)
    requires Counted(t, bumps)
    ensures t.Sized() && |bumps| == CAPACITY
  {}

  // ------------------------------------------------------------ operations

  /** A free slot has no references and no release left over. */
  predicate Unheld(t: Table) {
    t.Sized() && forall s ::
      0 <= s < CAPACITY && t.entries[s].resource == 0 ==> t.entries[s].retained == 0 && t.entries[s].release == 0
  }

  lemma OpenQuiet(t: Table, resource: nat, rights: nat, release: nat, retain: nat, kind: nat)
    requires Unheld(t)
    ensures Quiet(t, Open(t, resource, rights, release, retain, kind).0)
  {}

  lemma DuplicateQuiet(t: Table, h: nat, rights: nat)
    requires Unheld(t)
    ensures Quiet(t, Duplicate(t, h, rights).0)
  {}

  lemma DecodedInside(h: nat)
    ensures DecodeHandle(h).Some? ==> DecodeHandle(h).value.slot < CAPACITY - 1
  {}

  lemma SetInheritableQuiet(t: Table, h: nat, inheritable: bool)
    requires Unheld(t)
    ensures Quiet(t, SetInheritable(t, h, inheritable).0)
  {}

  lemma InheritQuiet(t: Table, source: Table)
    requires Unheld(t) && source.Sized()
    ensures Quiet(t, Inherit(t, source).0)
  {}

  lemma CloseQuiet(t: Table, h: nat)
    requires Unheld(t)
    ensures Quiet(t, Close(t, h).0)
  {}

  lemma CloseAllQuiet(t: Table)
    requires Unheld(t)
    ensures Quiet(t, CloseAll(t).0)
  {}

  lemma InvUnheld(w: World)
    requires Inv(w)
    ensures Unheld(w.table)
  {}

  /** Taking a reference. */
  lemma RetainKeeps(w: World, h: nat, required: nat)
    requires Inv(w) && GetRetain(w.table, h, required).1.Some?
    ensures var r := GetRetain(w.table, h, required);
      r.1.value < CAPACITY && Inv(Tracked(w, r.0, w.refs + [Ref(r.1.value, w.tags[r.1.value], true)]))
  {
    hide DecodeHandle, Allows, Counted, Distinct, Total;
    DecodedInside(h);
    CountedSized(w.table, w.bumps);
    var r := GetRetain(w.table, h, required);
    var k := r.1.value;
    var refs := w.refs + [Ref(k, w.tags[k], true)];
    CountedStep(w.table, r.0, w.bumps, w);
    DistinctStep(w, r.0, refs);
    RefsOccupied(w.table, w.refs, w.tags);
    CurrentStep(w, r.0, refs);
    TotalUpdate(w.table.entries, k, r.0.entries[k]);
    assert refs[..|refs| - 1] == w.refs;
  }

  /** Giving one up. */
  lemma ReleaseKeeps(w: World, i: nat)
    requires Inv(w) && i < |w.refs| && w.refs[i].active
    ensures w.refs[i].slot < CAPACITY
    ensures var r := ReleaseRef(w.table, w.refs[i].slot);
      Inv(Tracked(w, r.0, w.refs[i := w.refs[i].(active := false)]))
  {
    hide Counted, Distinct, Total, Live;
    CountedSized(w.table, w.bumps);
    var k := w.refs[i].slot;
    var r := ReleaseRef(w.table, k);
    var refs := w.refs[i := w.refs[i].(active := false)];
    LiveSome(w.refs, i);
    TotalSome(w.table.entries, k);
    CountedStep(w.table, r.0, w.bumps, w);
    DistinctStep(w, r.0, refs);
    RefsOccupied(w.table, w.refs, w.tags);
    CurrentStep(w, r.0, refs);
    TotalUpdate(w.table.entries, k, r.0.entries[k]);
    forall s: nat | s < CAPACITY
      ensures r.0.entries[s].retained == Live(refs, s)
    {
      LiveDropped(w.refs, i, s);
    }
  }

  lemma {:induction false} TotalSome(a: seq<Entry>, k: nat)
    requires k < |a|
    ensures Total(a) >= a[k].retained
  {
    if k < |a| - 1 {
      TotalSome(a[..|a| - 1], k);
    }
  }

  // ------------------------------------------------------------ runs

  datatype Event =
    | OpenEvent(resource: nat, rights: nat, release: nat, retain: nat, kind: nat)
    | DuplicateEvent(h: nat, rights: nat)
    | SetInheritableEvent(h: nat, inheritable: bool)
    | InheritEvent(source: Table)
    | CloseEvent(h: nat)
    | CloseAllEvent
    | RetainEvent(h: nat, required: nat)
    | ReleaseEvent(ref: nat)

  predicate Possible(e: Event) {
    e.InheritEvent? ==> e.source.Sized()
  }

  /** One operation; giving up a reference twice does nothing. */
  function Step(w: World, e: Event): (w': World)
    requires Inv(w) && Possible(e)
  {
    match e
    case OpenEvent(resource, rights, release, retain, kind) =>
      Tracked(w, Open(w.table, resource, rights, release, retain, kind).0, w.refs)
    case DuplicateEvent(h, rights) => Tracked(w, Duplicate(w.table, h, rights).0, w.refs)
    case SetInheritableEvent(h, inheritable) => Tracked(w, SetInheritable(w.table, h, inheritable).0, w.refs)
    case InheritEvent(source) => Tracked(w, Inherit(w.table, source).0, w.refs)
    case CloseEvent(h) => Tracked(w, Close(w.table, h).0, w.refs)
    case CloseAllEvent => Tracked(w, CloseAll(w.table).0, w.refs)
    case RetainEvent(h, required) =>
      var r := GetRetain(w.table, h, required);
      if r.1.None? then w else
      RetainKeeps(w, h, required);
      Tracked(w, r.0, w.refs + [Ref(r.1.value, w.tags[r.1.value], true)])
    case ReleaseEvent(i) =>
      if i >= |w.refs| || !w.refs[i].active then w
      else
        ReleaseKeeps(w, i);
        Tracked(w, ReleaseRef(w.table, w.refs[i].slot).0, w.refs[i := w.refs[i].(active := false)])
  }

  lemma StepKeeps(w: World, e: Event)
    requires Inv(w) && Possible(e)
    ensures Inv(Step(w, e))
  {
    hide Tracked, Open, Duplicate, SetInheritable, Inherit, Close, CloseAll, Quiet, Unheld;
    InvUnheld(w);
    match e
    case OpenEvent(resource, rights, release, retain, kind) =>
      OpenQuiet(w.table, resource, rights, release, retain, kind);
      QuietKeeps(w, Open(w.table, resource, rights, release, retain, kind).0);
    case DuplicateEvent(h, rights) =>
      DuplicateQuiet(w.table, h, rights);
      QuietKeeps(w, Duplicate(w.table, h, rights).0);
    case SetInheritableEvent(h, inheritable) =>
      SetInheritableQuiet(w.table, h, inheritable);
      QuietKeeps(w, SetInheritable(w.table, h, inheritable).0);
    case InheritEvent(source) =>
      InheritQuiet(w.table, source);
      QuietKeeps(w, Inherit(w.table, source).0);
    case CloseEvent(h) =>
      CloseQuiet(w.table, h);
      QuietKeeps(w, Close(w.table, h).0);
    case CloseAllEvent =>
      CloseAllQuiet(w.table);
      QuietKeeps(w, CloseAll(w.table).0);
    case RetainEvent(h, required) =>
      if GetRetain(w.table, h, required).1.Some? {
        RetainKeeps(w, h, required);
      }
    case ReleaseEvent(i) =>
      if i < |w.refs| && w.refs[i].active {
        ReleaseKeeps(w, i);
      }
  }

  /** Any number of operations. */
  ghost function Run(w: World, events: seq<Event>): (w': World)
    requires Inv(w) && forall i :: 0 <= i < |events| ==> Possible(events[i])
    ensures Inv(w')
    decreases |events|
  {
    if events == [] then w else
    StepKeeps(w, events[0]);
    assert forall i :: 0 <= i < |events[1..]| ==> events[1..][i] == events[i + 1];
    Run(Step(w, events[0]), events[1..])
  }

  const START := World(NEW_TABLE, seq(CAPACITY, s => s), [], {}, CAPACITY, seq(CAPACITY, _ => 0))

  /** A new table satisfies the invariant. */
  lemma StartInv()
    ensures Inv(START)
  {
    hide Total;
    TotalEmpty(NEW_TABLE.entries);
  }

  lemma {:induction false} TotalEmpty(a: seq<Entry>)
    requires forall s :: 0 <= s < |a| ==> a[s].retained == 0
    ensures Total(a) == 0
  {
    if a != [] {
      TotalEmpty(a[..|a| - 1]);
    }
  }

  // ------------------------------------------------------------ releases

  /** The release that the end of an occupancy calls for. */
  function DueCall(t: Table, t': Table, s: nat): (c: Option<Call>)
    requires t.Sized() && t'.Sized() && s < CAPACITY
  {
    if Ends(t, t', s) && t.entries[s].release != 0 then Some(Call(t.entries[s].release, t.entries[s].resource))
      else None
  }

  /** Calls of an operation, by slot. */
  function Only(k: nat, c: Option<Call>): (calls: seq<Option<Call>>)
    requires k < CAPACITY
    ensures |calls| == CAPACITY
  {
    seq(CAPACITY, s => if s == k then c else None)
  }

  function Calls(w: World, e: Event): (calls: seq<Option<Call>>)
    requires Inv(w) && Possible(e)
    ensures |calls| == CAPACITY
  {
    match e
    case CloseEvent(h) =>
      if Opens(w.table, h) then Only(DecodeHandle(h).value.slot, Close(w.table, h).2) else Only(0, None)
    case CloseAllEvent => CloseAll(w.table).1
    case ReleaseEvent(i) =>
      if i >= |w.refs| || !w.refs[i].active then Only(0, None)
      else Only(w.refs[i].slot, ReleaseRef(w.table, w.refs[i].slot).1)
    case _ => Only(0, None)
  }

  /** A slot that stays occupied keeps its resource, and calls are made exactly where occupancies end. */
  predicate Settled(t: Table, t': Table, calls: seq<Option<Call>>) {
    && t.Sized() && t'.Sized() && |calls| == CAPACITY
    && (forall s :: 0 <= s < CAPACITY ==> calls[s] == DueCall(t, t', s))
    && (forall s :: 0 <= s < CAPACITY && Occupied(t, s) && Occupied(t', s) ==>
      t'.entries[s].resource == t.entries[s].resource && t'.entries[s].release == t.entries[s].release)
  }

  lemma FillSettled(t: Table, t': Table)
    requires t.Sized() && t'.Sized() && forall s :: 0 <= s < CAPACITY && Occupied(t, s) ==>
      t'.entries[s].resource == t.entries[s].resource && t'.entries[s].release == t.entries[s].release
    ensures Settled(t, t', Only(0, None))
  {}

  lemma CloseSettled(t: Table, h: nat)
    requires Unheld(t) && Opens(t, h)
    ensures DecodeHandle(h).value.slot < CAPACITY
    ensures Settled(t, Close(t, h).0, Only(DecodeHandle(h).value.slot, Close(t, h).2))
  {}

  lemma CloseAllSettled(t: Table)
    requires Unheld(t)
    ensures Settled(t, CloseAll(t).0, CloseAll(t).1)
  {}

  lemma ReleaseSettled(t: Table, k: nat)
    requires t.Sized() && k < CAPACITY && Occupied(t, k)
    ensures Settled(t, ReleaseRef(t, k).0, Only(k, ReleaseRef(t, k).1))
  {}

  /** Each operation calls the releases of the occupancies it ends, with their own resources, and no slot
      that stays occupied is given to another resource. */
  lemma StepSettled(w: World, e: Event)
    requires Inv(w) && Possible(e)
    ensures Settled(w.table, Step(w, e).table, Calls(w, e))
  {
    hide Counted, Distinct, DecodeHandle, MakeHandle, Allows, EndedTags, Live, Total;
    InvUnheld(w);
    var t := w.table;
    match e
    case OpenEvent(resource, rights, release, retain, kind) =>
      FillSettled(t, Open(t, resource, rights, release, retain, kind).0);
    case DuplicateEvent(h, rights) =>
      DecodedInside(h);
      FillSettled(t, Duplicate(t, h, rights).0);
    case SetInheritableEvent(h, inheritable) =>
      DecodedInside(h);
      FillSettled(t, SetInheritable(t, h, inheritable).0);
    case InheritEvent(source) => FillSettled(t, Inherit(t, source).0);
    case CloseEvent(h) =>
      if Opens(t, h) {
        CloseSettled(t, h);
      } else {
        FillSettled(t, t);
      }
    case CloseAllEvent => CloseAllSettled(t);
    case RetainEvent(h, required) =>
      DecodedInside(h);
      FillSettled(t, GetRetain(t, h, required).0);
    case ReleaseEvent(i) =>
      if i < |w.refs| && w.refs[i].active {
        RefsOccupied(t, w.refs, w.tags);
        ReleaseSettled(t, w.refs[i].slot);
      } else {
        FillSettled(t, t);
      }
  }

  /** At every point of every run, a release is called for an occupancy that has not ended before and that no
      live reference is left to. */
  lemma ReleasedOnceUnreferenced(w: World, e: Event, s: nat)
    requires Inv(w) && Possible(e) && s < CAPACITY && Calls(w, e)[s].Some?
    ensures var w' := Step(w, e);
      && w.tags[s] !in w.ended && w.tags[s] in w'.ended
      && (forall i :: 0 <= i < |w'.refs| && w'.refs[i].active ==> w'.refs[i].tag != w.tags[s])
      && Calls(w, e)[s].value == Call(w.table.entries[s].release, w.table.entries[s].resource)
  {
    hide Counted, Calls, Referenced, Step;
    StepSettled(w, e);
    StepKeeps(w, e);
    var w' := Step(w, e);
    assert Ends(w.table, w'.table, s);
    StepEnds(w, e, s);
    RefsOccupied(w'.table, w'.refs, w'.tags);
  }

  lemma StepEnds(w: World, e: Event, s: nat)
    requires Inv(w) && Possible(e) && s < CAPACITY && Step(w, e).table.Sized() && Ends(w.table, Step(w, e).table, s)
    ensures w.tags[s] in Step(w, e).ended
  {}

  // ------------------------------------------------------------ history only grows

  lemma StepGrows(w: World, e: Event, s: nat)
    requires Inv(w) && Possible(e) && s < CAPACITY
    ensures var w' := Step(w, e);
      w.ended <= w'.ended && |w'.bumps| == CAPACITY && w.bumps[s] <= w'.bumps[s] <= w.bumps[s] + 1
  {}

  /** What has ended stays ended, and a slot's generation moves on at most once per operation. */
  lemma {:induction false} RunGrows(w: World, events: seq<Event>, s: nat)
    requires Inv(w) && (forall i :: 0 <= i < |events| ==> Possible(events[i])) && s < CAPACITY
    ensures var w' := Run(w, events);
      w.ended <= w'.ended && |w'.bumps| == CAPACITY && w.bumps[s] <= w'.bumps[s] <= w.bumps[s] + |events|
    decreases |events|
  {
    hide Step, Inv;
    if events == [] {
      InvSized(w);
    } else {
      StepGrows(w, events[0], s);
      StepKeeps(w, events[0]);
      assert forall i :: 0 <= i < |events[1..]| ==> events[1..][i] == events[i + 1];
      RunGrows(Step(w, events[0]), events[1..], s);
    }
  }

  lemma InvSized(w: World)
    requires Inv(w)
    ensures w.table.Sized() && |w.bumps| == CAPACITY == |w.tags|
  {}

  // ------------------------------------------------------------ closed handles

  /** Generations come round exactly every 65535 moves. */
  lemma Cycle(b: nat, b': nat)
    requires b <= b'
    ensures 1 + b % LAST_GENERATION == 1 + b' % LAST_GENERATION <==> (b' - b) % LAST_GENERATION == 0
  {}

  /** After a handle is closed it is refused, whatever is done, until its slot's generation has gone all the
      way round: its generation is current again exactly at multiples of 65535 moves. */
  lemma ClosedRefused(w: World, h: nat, events: seq<Event>)
    requires Inv(w) && Opens(w.table, h) && forall i :: 0 <= i < |events| ==> Possible(events[i])
    ensures DecodeHandle(h).value.slot < CAPACITY && Inv(Step(w, CloseEvent(h)))
    ensures var k := DecodeHandle(h).value.slot; var end := Run(Step(w, CloseEvent(h)), events);
      && |end.bumps| == CAPACITY == |w.bumps| && end.bumps[k] > w.bumps[k] && end.table.Sized()
      && (end.table.generations[k] == DecodeHandle(h).value.generation
          <==> (end.bumps[k] - w.bumps[k]) % LAST_GENERATION == 0)
      && (|events| < LAST_GENERATION - 1 ==> !Opens(end.table, h))
  {
    hide Step, Inv, Run, DecodeHandle;
    DecodedInside(h);
    StepKeeps(w, CloseEvent(h));
    InvSized(w);
    var w1, k := Step(w, CloseEvent(h)), DecodeHandle(h).value.slot;
    var end := Run(w1, events);
    CloseBumps(w, h);
    RunGrows(w1, events, k);
    GenerationOf(w, k);
    GenerationOf(end, k);
    Cycle(w.bumps[k], end.bumps[k]);
    InvSized(end);
  }

  lemma GenerationOf(w: World, k: nat)
    requires Inv(w) && k < CAPACITY
    ensures w.table.Sized() && |w.bumps| == CAPACITY && w.table.generations[k] == 1 + w.bumps[k] % LAST_GENERATION
  {}

  lemma CloseBumps(w: World, h: nat)
    requires Inv(w) && Opens(w.table, h)
    ensures DecodeHandle(h).value.slot < CAPACITY
    ensures var k := DecodeHandle(h).value.slot; var w' := Step(w, CloseEvent(h));
      |w'.bumps| == CAPACITY && w'.bumps[k] == w.bumps[k] + 1
  {}

  // ------------------------------------------------------------ the last slot

  predicate NoneToLast(refs: seq<Ref>) {
    forall i :: 0 <= i < |refs| ==> refs[i].slot < CAPACITY - 1
  }

  lemma NoneToLastKept(w: World, e: Event)
    requires Inv(w) && Possible(e) && NoneToLast(w.refs)
    ensures NoneToLast(Step(w, e).refs)
  {
    hide DecodeHandle, Allows, Counted, Distinct, Referenced, Current, EndedTags;
    if e.RetainEvent? {
      DecodedInside(e.h);
    }
  }

  /** What the last slot holds stays there through every operation but closing everything: no handle and no
      reference is to it. */
  lemma LastKept(w: World, e: Event)
    requires Inv(w) && Possible(e) && NoneToLast(w.refs) && !e.CloseAllEvent?
    ensures w.table.Sized() && Step(w, e).table.Sized()
    ensures Occupied(w.table, CAPACITY - 1) ==>
      Step(w, e).table.entries[CAPACITY - 1].resource == w.table.entries[CAPACITY - 1].resource
  {
    hide DecodeHandle, MakeHandle, Allows, Counted, Distinct, Referenced, Current, EndedTags;
    InvSized(w);
    if e.DuplicateEvent? || e.SetInheritableEvent? || e.CloseEvent? || e.RetainEvent? {
      DecodedInside(e.h);
    }
  }

  lemma {:induction false} RunNoneToLast(w: World, events: seq<Event>)
    requires Inv(w) && NoneToLast(w.refs) && forall i :: 0 <= i < |events| ==> Possible(events[i])
    ensures NoneToLast(Run(w, events).refs)
    decreases |events|
  {
    hide Step, Inv, NoneToLast;
    if events != [] {
      StepKeeps(w, events[0]);
      NoneToLastKept(w, events[0]);
      assert forall i :: 0 <= i < |events[1..]| ==> events[1..][i] == events[i + 1];
      RunNoneToLast(Step(w, events[0]), events[1..]);
    }
  }

  lemma {:induction false} RunLastKept(w: World, events: seq<Event>)
    requires Inv(w) && NoneToLast(w.refs) && w.table.Sized() && Occupied(w.table, CAPACITY - 1)
    requires forall i :: 0 <= i < |events| ==> Possible(events[i]) && !events[i].CloseAllEvent?
    ensures Run(w, events).table.Sized()
    ensures Run(w, events).table.entries[CAPACITY - 1].resource == w.table.entries[CAPACITY - 1].resource
    decreases |events|
  {
    hide Step, Inv, NoneToLast;
    if events != [] {
      StepKeeps(w, events[0]);
      NoneToLastKept(w, events[0]);
      LastKept(w, events[0]);
      assert forall i :: 0 <= i < |events[1..]| ==> events[1..][i] == events[i + 1];
      RunLastKept(Step(w, events[0]), events[1..]);
    }
  }

  /** After every run from a new table, what the last slot holds is held until everything is closed. */
  lemma LastHeldUntilCloseAll(before: seq<Event>, after: seq<Event>)
    requires forall i :: 0 <= i < |before| ==> Possible(before[i])
    requires forall i :: 0 <= i < |after| ==> Possible(after[i]) && !after[i].CloseAllEvent?
    ensures Inv(START)
    ensures var w := Run(START, before);
      && w.table.Sized() && Run(w, after).table.Sized()
      && (Occupied(w.table, CAPACITY - 1) ==>
        Run(w, after).table.entries[CAPACITY - 1].resource == w.table.entries[CAPACITY - 1].resource)
  {
    hide Inv, Run;
    StartInv();
    RunNoneToLast(START, before);
    var w := Run(START, before);
    InvSized(w);
    InvSized(Run(w, after));
    if Occupied(w.table, CAPACITY - 1) {
      RunLastKept(w, after);
    }
  }
}
