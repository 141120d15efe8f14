/** The ledger of a resource: what opens and retains gained, releases gave back or entries still hold. */
module HandleLedger {
  import opened Options
  import opened Handles
  import opened HandleRuns

  function Count(flags: seq<bool>): (n: nat)
    ensures n <= |flags|
  {
    if flags == [] then 0 else Count(flags[..|flags| - 1]) + (if flags[|flags| - 1] then 1 else 0)
  }

  function Unit(b: bool): (n: nat) { if b then 1 else 0 }

  /** Sides that balance at every place balance in all. */
  lemma {:induction false} CountBalance(a: seq<bool>, b: seq<bool>, c: seq<bool>, d: seq<bool>, e: seq<bool>,
                                        f: seq<bool>)
    requires |a| == |b| == |c| == |d| == |e| == |f|
    requires forall s :: 0 <= s < |a| ==> Unit(a[s]) + Unit(b[s]) + Unit(c[s]) == Unit(d[s]) + Unit(e[s]) + Unit(f[s])
    ensures Count(a) + Count(b) + Count(c) == Count(d) + Count(e) + Count(f)
  {
    var n := |a| - 1;
    if n >= 0 {
      CountBalance(a[..n], b[..n], c[..n], d[..n], e[..n], f[..n]);
      assert Unit(a[n]) + Unit(b[n]) + Unit(c[n]) == Unit(d[n]) + Unit(e[n]) + Unit(f[n]);
    }
  }

  lemma {:induction false} CountNone(flags: seq<bool>)
    requires forall s :: 0 <= s < |flags| ==> !flags[s]
    ensures Count(flags) == 0
  {
    if flags != [] {
      CountNone(flags[..|flags| - 1]);
    }
  }

  // ------------------------------------------------------------ the columns of the ledger

  function HeldFlags(t: Table, x: nat): (flags: seq<bool>)
    requires t.Sized()
    ensures |flags| == CAPACITY && forall s :: 0 <= s < CAPACITY ==> flags[s] == (t.entries[s].resource == x)
  {
    seq(CAPACITY, s requires 0 <= s < CAPACITY => t.entries[s].resource == x)
  }

  predicate IsCall(c: Option<Call>, x: nat) { c.Some? && c.value.resource == x }

  function CalledFlags(calls: seq<Option<Call>>, x: nat): (flags: seq<bool>)
    requires |calls| == CAPACITY
    ensures |flags| == CAPACITY && forall s :: 0 <= s < CAPACITY ==> flags[s] == IsCall(calls[s], x)
  {
    seq(CAPACITY, s requires 0 <= s < CAPACITY => IsCall(calls[s], x))
  }

  /** The occupancy of a resource without a release function ends, and nobody is told. */
  predicate EndsSilently(t: Table, t': Table, x: nat, s: nat)
    requires t.Sized() && t'.Sized() && s < CAPACITY
  {
    Ends(t, t', s) && t.entries[s].resource == x && t.entries[s].release == 0
  }

  function SilentFlags(t: Table, t': Table, x: nat): (flags: seq<bool>)
    requires t.Sized() && t'.Sized()
    ensures |flags| == CAPACITY && forall s :: 0 <= s < CAPACITY ==> flags[s] == EndsSilently(t, t', x, s)
  {
    seq(CAPACITY, s requires 0 <= s < CAPACITY => EndsSilently(t, t', x, s))
  }

  /** The slot that an open fills, if it fills one. */
  predicate OpensAt(t: Table, e: Event, x: nat, s: nat)
    requires t.Sized()
  {
    e.OpenEvent? && e.resource == x && Open(t, e.resource, e.rights, e.release, e.retain, e.kind).1 != 0
    && s == FirstFree(t.entries, 0)
  }

  function OpenFlags(t: Table, e: Event, x: nat): (flags: seq<bool>)
    requires t.Sized()
    ensures |flags| == CAPACITY && forall s: nat :: s < CAPACITY ==> flags[s] == OpensAt(t, e, x, s)
  {
    seq(CAPACITY, s requires 0 <= s < CAPACITY => OpensAt(t, e, x, s))
  }

  /** The retains that an operation calls, by slot. */
  function Retains(t: Table, e: Event): (calls: seq<Option<Call>>)
    requires t.Sized() && Possible(e)
    ensures |calls| == CAPACITY
  {
    var k := FirstFree(t.entries, 0);
    if e.DuplicateEvent? && k < CAPACITY then Only(k, Duplicate(t, e.h, e.rights).2)
    else if e.InheritEvent? then Inherit(t, e.source).2
    else NoCalls()
  }

  // ------------------------------------------------------------ one operation

  /** A slot begins to hold a resource exactly where an open or a retain put it. */
  ghost predicate Gained(t: Table, t': Table, e: Event, x: nat, s: nat)
    requires t.Sized() && t'.Sized() && Possible(e) && s < CAPACITY
  {
    Unit(Begins(t, t', s) && t'.entries[s].resource == x)
      == Unit(OpensAt(t, e, x, s)) + Unit(IsCall(Retains(t, e)[s], x))
  }

  lemma OpenGained(t: Table, e: Event, x: nat, s: nat)
    requires t.Sized() && x != 0 && s < CAPACITY && e.OpenEvent?
    ensures var t' := Open(t, e.resource, e.rights, e.release, e.retain, e.kind).0; t'.Sized() && Gained(t, t', e, x, s)
  {
    var k := FirstFree(t.entries, 0);
    assert k < CAPACITY && t.generations[k] > 0 ==> MakeHandle(k, t.generations[k]) != 0;
  }

  lemma DuplicateGained(t: Table, e: Event, x: nat, s: nat)
    requires t.Sized() && x != 0 && s < CAPACITY && e.DuplicateEvent?
    ensures var t' := Duplicate(t, e.h, e.rights).0; t'.Sized() && Gained(t, t', e, x, s)
  {
    hide MakeHandle, DecodeHandle, Allows;
    DecodedInside(e.h);
  }

  lemma InheritGained(t: Table, e: Event, x: nat, s: nat)
    requires t.Sized() && x != 0 && s < CAPACITY && e.InheritEvent? && Possible(e)
    ensures var t' := Inherit(t, e.source).0; t'.Sized() && Gained(t, t', e, x, s)
  {}

  /** No other operation begins an occupancy. */
  lemma OthersGain(w: World, e: Event, x: nat, s: nat)
    requires Inv(w) && Possible(e) && x != 0 && s < CAPACITY && !e.OpenEvent? && !e.DuplicateEvent? && !e.InheritEvent?
    ensures Step(w, e).table.Sized() && Gained(w.table, Step(w, e).table, e, x, s)
  {
    hide MakeHandle, DecodeHandle, Allows, Counted, Distinct, EndedTags, Live, Total, Current;
    InvUnheld(w);
    if e.SetInheritableEvent? || e.CloseEvent? || e.RetainEvent? {
      DecodedInside(e.h);
    }
    if e.ReleaseEvent? && e.ref < |w.refs| && w.refs[e.ref].active {
      ReleaseKeeps(w, e.ref);
      RefsOccupied(w.table, w.refs, w.tags);
    }
  }

  lemma StepGains(w: World, e: Event, x: nat, s: nat)
    requires Inv(w) && Possible(e) && x != 0 && s < CAPACITY
    ensures Step(w, e).table.Sized() && Gained(w.table, Step(w, e).table, e, x, s)
  {
    hide Open, Duplicate, Inherit, Gained, Counted, Distinct, Referenced, Current, EndedTags;
    InvSized(w);
    match e
    case OpenEvent(_, _, _, _, _) => OpenGained(w.table, e, x, s);
    case DuplicateEvent(_, _) => DuplicateGained(w.table, e, x, s);
    case InheritEvent(_) => InheritGained(w.table, e, x, s);
    case _ => OthersGain(w, e, x, s);
  }

  /** What one operation does to the ledger of a resource. */
  datatype Ledger = Ledger(opens: nat, retains: nat, releases: nat, silent: nat)

  function Plus(a: Ledger, b: Ledger): (c: Ledger) {
    Ledger(a.opens + b.opens, a.retains + b.retains, a.releases + b.releases, a.silent + b.silent)
  }

  function Held(t: Table, x: nat): (n: nat)
    requires t.Sized()
  {
    Count(HeldFlags(t, x))
  }

  ghost function Booked(w: World, e: Event, x: nat): (l: Ledger)
    requires Inv(w) && Possible(e)
  {
    StepKeeps(w, e);
    var t, t' := w.table, Step(w, e).table;
    Ledger(Count(OpenFlags(t, e, x)), Count(CalledFlags(Retains(t, e), x)), Count(CalledFlags(Calls(w, e), x)),
           Count(SilentFlags(t, t', x)))
  }

  lemma SlotBalances(w: World, e: Event, x: nat, s: nat)
    requires Inv(w) && Possible(e) && x != 0 && s < CAPACITY && Step(w, e).table.Sized()
    ensures var t, t' := w.table, Step(w, e).table;
      Unit(t'.entries[s].resource == x) + Unit(IsCall(Calls(w, e)[s], x)) + Unit(EndsSilently(t, t', x, s))
      == Unit(t.entries[s].resource == x) + Unit(OpensAt(t, e, x, s)) + Unit(IsCall(Retains(t, e)[s], x))
  {
    hide Step, Calls, Retains, OpensAt, Counted, Distinct, Referenced, Current;
    StepGains(w, e, x, s);
    StepSettled(w, e);
  }

  /** Entries that hold a resource are what held it before, plus opens and retains, minus releases and silent ends. */
  lemma StepBalances(w: World, e: Event, x: nat)
    requires Inv(w) && Possible(e) && x != 0
    ensures Step(w, e).table.Sized()
    ensures var l := Booked(w, e, x);
      Held(Step(w, e).table, x) + l.releases + l.silent == Held(w.table, x) + l.opens + l.retains
  {
    hide Step, Calls, Retains, OpensAt, EndsSilently, IsCall, Inv, Count, Unit;
    StepKeeps(w, e);
    InvSized(w);
    InvSized(Step(w, e));
    var t, t' := w.table, Step(w, e).table;
    var held', called, silent := HeldFlags(t', x), CalledFlags(Calls(w, e), x), SilentFlags(t, t', x);
    var held, opened', retained := HeldFlags(t, x), OpenFlags(t, e, x), CalledFlags(Retains(t, e), x);
    forall s | 0 <= s < CAPACITY
      ensures Unit(held'[s]) + Unit(called[s]) + Unit(silent[s]) == Unit(held[s]) + Unit(opened'[s]) + Unit(retained[s])
    {
      SlotBalances(w, e, x, s);
    }
    CountBalance(held', called, silent, held, opened', retained);
  }

  // ------------------------------------------------------------ runs

  predicate AllPossible(events: seq<Event>) {
    forall i :: 0 <= i < |events| ==> Possible(events[i])
  }

  ghost function RunBooked(w: World, events: seq<Event>, x: nat): (l: Ledger)
    requires Inv(w) && AllPossible(events)
    decreases |events|
  {
    if events == [] then Ledger(0, 0, 0, 0) else
    StepKeeps(w, events[0]);
    assert forall i :: 0 <= i < |events[1..]| ==> events[1..][i] == events[i + 1];
    Plus(Booked(w, events[0], x), RunBooked(Step(w, events[0]), events[1..], x))
  }

  lemma {:induction false} RunBalances(w: World, events: seq<Event>, x: nat)
    requires Inv(w) && AllPossible(events) && x != 0
    ensures w.table.Sized() && Run(w, events).table.Sized()
    ensures var l := RunBooked(w, events, x);
      Held(Run(w, events).table, x) + l.releases + l.silent == Held(w.table, x) + l.opens + l.retains
    decreases |events|
  {
    hide Step, Inv, Booked, Held;
    InvSized(w);
    InvSized(Run(w, events));
    if events != [] {
      StepKeeps(w, events[0]);
      StepBalances(w, events[0], x);
      assert forall i :: 0 <= i < |events[1..]| ==> events[1..][i] == events[i + 1];
      RunBalances(Step(w, events[0]), events[1..], x);
    }
  }

  /** Over every run from a new table: opens plus retain calls of a resource are its release calls, its entries and
      what ended without a release to call. */
  lemma LedgerBalances(events: seq<Event>, x: nat)
    requires AllPossible(events) && x != 0
    ensures Inv(START) && Run(START, events).table.Sized()
    ensures var l := RunBooked(START, events, x);
      l.opens + l.retains == l.releases + l.silent + Held(Run(START, events).table, x)
  {
    hide Inv, Run, RunBooked, Count;
    StartInv();
    RunBalances(START, events, x);
    CountNone(HeldFlags(NEW_TABLE, x));
  }

  // ------------------------------------------------------------ resources with a release

  /** No entry of the resource is without a release. */
  predicate Released(t: Table, x: nat) {
    forall s :: 0 <= s < |t.entries| && t.entries[s].resource == x ==> t.entries[s].release != 0
  }

  /** The resource does not come without a release. */
  predicate Releasing(e: Event, x: nat) {
    (e.OpenEvent? && e.resource == x ==> e.release != 0) && (e.InheritEvent? ==> Released(e.source, x))
  }

  lemma StepReleasing(w: World, e: Event, x: nat)
    requires Inv(w) && Possible(e) && x != 0 && Releasing(e, x) && Released(w.table, x)
    ensures Released(Step(w, e).table, x) && Booked(w, e, x).silent == 0
  {
    hide MakeHandle, DecodeHandle, Allows, Counted, Distinct, EndedTags, Live, Total, Current, Count;
    StepKeeps(w, e);
    InvSized(w);
    InvSized(Step(w, e));
    StepReleased(w, e, x);
    CountNone(SilentFlags(w.table, Step(w, e).table, x));
  }

  lemma StepReleased(w: World, e: Event, x: nat)
    requires Inv(w) && Possible(e) && x != 0 && Releasing(e, x) && Released(w.table, x)
    ensures Released(Step(w, e).table, x)
  {
    hide MakeHandle, DecodeHandle, Allows, Counted, Distinct, EndedTags, Live, Total, Current;
    InvUnheld(w);
    if e.DuplicateEvent? || e.SetInheritableEvent? || e.CloseEvent? || e.RetainEvent? {
      DecodedInside(e.h);
    }
    if e.ReleaseEvent? && e.ref < |w.refs| && w.refs[e.ref].active {
      ReleaseKeeps(w, e.ref);
    }
  }

  lemma {:induction false} RunReleasing(w: World, events: seq<Event>, x: nat)
    requires Inv(w) && AllPossible(events) && x != 0 && Released(w.table, x)
    requires forall i :: 0 <= i < |events| ==> Releasing(events[i], x)
    ensures RunBooked(w, events, x).silent == 0
    decreases |events|
  {
    hide Step, Inv, Booked, Releasing, Released;
    if events != [] {
      StepKeeps(w, events[0]);
      StepReleasing(w, events[0], x);
      assert forall i :: 0 <= i < |events[1..]| ==> events[1..][i] == events[i + 1];
      RunReleasing(Step(w, events[0]), events[1..], x);
    }
  }

  /** If the resource never comes without a release, its entries are its opens plus its retains minus its releases. */
  lemma EveryGainReleased(events: seq<Event>, x: nat)
    requires AllPossible(events) && x != 0 && forall i :: 0 <= i < |events| ==> Releasing(events[i], x)
    ensures Inv(START) && Run(START, events).table.Sized()
    ensures var l := RunBooked(START, events, x); Held(Run(START, events).table, x) == l.opens + l.retains - l.releases
  {
    hide Inv, Run, RunBooked, Releasing, Held;
    LedgerBalances(events, x);
    RunReleasing(START, events, x);
  }
}
