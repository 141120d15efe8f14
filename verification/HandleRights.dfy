/** Rights on handles, as sets: who may do what, over every run. */
module HandleRights {
  import opened Options
  import opened Handles
  import opened HandleRuns

  datatype Right = Read | Write | Exec

  /** The rights that a mask names: reading is bit 0, writing bit 1, executing bit 2. */
  function RightsOf(mask: nat): (rights: set<Right>) {
    (if mask % 2 == 1 then {Read} else {}) + (if mask / 2 % 2 == 1 then {Write} else {})
    + (if mask / 4 % 2 == 1 then {Exec} else {})
  }

  /** What is asked for is allowed exactly if it names no other right than the three, and only given ones. */
  lemma AllowsIsSubset(given: Rights, required: nat)
    ensures Allows(given, required) <==> required < 8 && RightsOf(required) <= RightsOf(given)
  {
    assert Read in RightsOf(required) <==> required % 2 == 1;
    assert Write in RightsOf(required) <==> required / 2 % 2 == 1;
    assert Exec in RightsOf(required) <==> required / 4 % 2 == 1;
    assert Read in RightsOf(given) <==> given % 2 == 1;
    assert Write in RightsOf(given) <==> given / 2 % 2 == 1;
    assert Exec in RightsOf(given) <==> given / 4 % 2 == 1;
  }

  /** A mask of three bits as a number. */
  lemma SmallMask(v: bv32)
    ensures v & !7 == 0 <==> v as nat < 8
    ensures v & !7 == 0 ==> v == 0 || v == 1 || v == 2 || v == 3 || v == 4 || v == 5 || v == 6 || v == 7
  {}

  lemma MaskBits(v: bv32)
    requires v & !7 == 0
    ensures (v as nat) % 2 == 1 <==> v & 1 == 1
    ensures (v as nat) / 2 % 2 == 1 <==> v & 2 == 2
    ensures (v as nat) / 4 % 2 == 1 <==> v & 4 == 4
  {
    SmallMask(v);
  }

  lemma MaskInside(given: bv32, required: bv32)
    requires given & !7 == 0 && required & !7 == 0
    ensures given & required == required
      <==> ((required & 1 == 1 ==> given & 1 == 1) && (required & 2 == 2 ==> given & 2 == 2)
            && (required & 4 == 4 ==> given & 4 == 4))
  {}

  lemma MaskOutside(given: bv32, required: bv32)
    requires given & !7 == 0
    ensures required & !given == 0 <==> required & !7 == 0 && given & required == required
  {}

  /** The same test on 32-bit masks: each required bit is set in the entry, and none above the three. */
  lemma AllowsIsWideMask(given: bv32, required: bv32)
    requires given & !7 == 0
    ensures given as nat < 8
    ensures Allows(given as nat, required as nat) <==> required & !7 == 0 && given & required == required
    ensures Allows(given as nat, required as nat) <==> required & !given == 0
  {
    MaskOutside(given, required);
    SmallMask(given);
    SmallMask(required);
    if required & !7 == 0 {
      MaskBits(given);
      MaskBits(required);
      MaskInside(given, required);
    }
  }

  // ------------------------------------------------------------ single operations

  /** A reference is handed out exactly if the handle opens an entry, no counter is full, and the entry has every
      right that is required. */
  lemma RetainedIff(t: Table, h: nat, required: nat)
    requires t.Sized()
    ensures GetRetain(t, h, required).1.Some?
      <==> (Opens(t, h) && required < 8
            && RightsOf(required) <= RightsOf(t.entries[DecodeHandle(h).value.slot].rights)
            && t.entries[DecodeHandle(h).value.slot].retained != 0xffff_ffff && t.retained != 0xffff_ffff)
  {
    hide DecodeHandle, Allows, RightsOf;
    DecodedInside(h);
    if Opens(t, h) {
      AllowsIsSubset(t.entries[DecodeHandle(h).value.slot].rights, required);
    }
  }

  /** Opening succeeds exactly for a resource, one to seven as rights, a known kind and a free slot, and the entry has
      what was asked for. */
  lemma OpenedIff(t: Table, resource: nat, rights: nat, release: nat, retain: nat, kind: nat)
    requires Numbered(t)
    ensures var r, k := Open(t, resource, rights, release, retain, kind), FirstFree(t.entries, 0);
      && (r.1 != 0 <==> resource != 0 && 1 <= rights <= 7 && kind <= 2 && k < 32)
      && (r.1 != 0 ==>
        && r.0.entries[k].resource == resource && RightsOf(r.0.entries[k].rights) == RightsOf(rights)
        && r.0.entries[k].kind == kind && r.0.entries[k].inheritable && !r.0.entries[k].closing)
  {
    hide RightsOf, MakeHandle;
    var k := FirstFree(t.entries, 0);
    if k < CAPACITY {
      MadeNotZero(k, t.generations[k]);
    }
  }

  /** Duplicating succeeds exactly if the handle opens an entry that can be shared, a slot is free, and no right is
      asked for that the entry does not have; none asked for means all it has. */
  lemma DuplicatedIff(t: Table, h: nat, rights: nat)
    requires Numbered(t)
    ensures Duplicate(t, h, rights).1 != 0
      <==> (Opens(t, h) && t.entries[DecodeHandle(h).value.slot].retain != 0 && FirstFree(t.entries, 0) < CAPACITY
            && (rights == 0
                || (rights < 8 && RightsOf(rights) <= RightsOf(t.entries[DecodeHandle(h).value.slot].rights))))
  {
    hide DecodeHandle, Allows, RightsOf, MakeHandle;
    DecodedInside(h);
    var k := FirstFree(t.entries, 0);
    if Opens(t, h) {
      AllowsIsSubset(t.entries[DecodeHandle(h).value.slot].rights, rights);
      if k < CAPACITY {
        MadeNotZero(k, t.generations[k]);
      }
    }
  }

  lemma MadeNotZero(slot: nat, generation: nat)
    requires slot < CAPACITY && generation > 0
    ensures MakeHandle(slot, generation) != 0
  {}

  /** A duplicate has the rights asked for, or all of its source's, and so never one that its source has not. */
  lemma DuplicateNeverGains(t: Table, h: nat, rights: nat)
    requires Numbered(t) && Duplicate(t, h, rights).1 != 0
    ensures DecodeHandle(h).Some? && FirstFree(t.entries, 0) < CAPACITY && DecodeHandle(h).value.slot < CAPACITY
    ensures var r := Duplicate(t, h, rights);
      var source, made := t.entries[DecodeHandle(h).value.slot], r.0.entries[FirstFree(t.entries, 0)];
      && made.resource == source.resource && made.kind == source.kind
        && r.2 == Some(Call(source.retain, source.resource))
      && RightsOf(made.rights) == (if rights == 0 then RightsOf(source.rights) else RightsOf(rights))
      && RightsOf(made.rights) <= RightsOf(source.rights)
  {
    hide DecodeHandle, Allows, RightsOf, MakeHandle;
    DecodedInside(h);
    DuplicatedIff(t, h, rights);
  }

  /** Inheriting succeeds exactly if the table is empty and every entry passed on can be shared. A slot then holds
      what the other table's slot holds, with the same rights, if that is open and may be inherited. */
  lemma InheritedIff(t: Table, source: Table, s: nat)
    requires t.Sized() && source.Sized() && s < CAPACITY
    ensures var r := Inherit(t, source);
      && (r.1 <==> forall i | 0 <= i < CAPACITY ::
          && t.entries[i].resource == 0
          && (source.entries[i].resource == 0 || source.entries[i].closing || !source.entries[i].inheritable
              || source.entries[i].retain != 0))
      && |r.2| == CAPACITY && r.0.Sized()
      && if r.1 && source.entries[s].resource != 0 && !source.entries[s].closing && source.entries[s].inheritable
         then var e := source.entries[s];
           && r.0.entries[s] == Entry(e.resource, e.rights, e.release, e.retain, 0, false, true, e.kind)
           && r.2[s] == Some(Call(e.retain, e.resource))
         else r.0.entries[s] == t.entries[s] && r.2[s] == None
  {
    if exists i :: 0 <= i < CAPACITY && Hinders(t.entries[i], source.entries[i]) {
      var i :| 0 <= i < CAPACITY && Hinders(t.entries[i], source.entries[i]);
      assert t.entries[i].resource != 0 || Passes(source.entries[i]);
    } else {
      assert forall i :: 0 <= i < CAPACITY ==> !Hinders(t.entries[i], source.entries[i]);
    }
  }

  // ------------------------------------------------------------ what an occupancy was given

  /** The rights given with an occupancy that begins in slot `s`: what the caller of an open names, what the caller
      of a duplicate names or the source was given, what the entry passed on has. */
  ghost function Gift(t: Table, e: Event, s: nat, given: seq<set<Right>>): (rights: set<Right>)
    requires t.Sized() && Possible(e) && s < CAPACITY && |given| == CAPACITY
  {
    match e
    case OpenEvent(_, rights, _, _, _) => RightsOf(rights)
    case DuplicateEvent(h, rights) =>
      if rights != 0 then RightsOf(rights)
      else if Opens(t, h) then given[DecodeHandle(h).value.slot] else {}
    case InheritEvent(source) => RightsOf(source.entries[s].rights)
    case _ => {}
  }

  /** By slot, the rights that its present occupancy was given when it began. */
  ghost function StepGiven(w: World, e: Event, given: seq<set<Right>>): (given': seq<set<Right>>)
    requires Inv(w) && Possible(e) && |given| == CAPACITY
    ensures |given'| == CAPACITY
  {
    StepKeeps(w, e);
    seq(CAPACITY, s requires 0 <= s < CAPACITY =>
      if Begins(w.table, Step(w, e).table, s) then Gift(w.table, e, s, given) else given[s])
  }

  ghost function RunGiven(w: World, events: seq<Event>, given: seq<set<Right>>): (given': seq<set<Right>>)
    requires Inv(w) && |given| == CAPACITY && forall i :: 0 <= i < |events| ==> Possible(events[i])
    ensures |given'| == CAPACITY
    decreases |events|
  {
    if events == [] then given else
    StepKeeps(w, events[0]);
    assert forall i :: 0 <= i < |events[1..]| ==> events[1..][i] == events[i + 1];
    RunGiven(Step(w, events[0]), events[1..], StepGiven(w, events[0], given))
  }

  /** An open entry has the rights it was given, and a closed one has none. */
  predicate Has(e: Entry, given: set<Right>) {
    RightsOf(e.rights) == if e.closing then {} else given
  }

  predicate Kept(t: Table, given: seq<set<Right>>) {
    t.Sized() && |given| == CAPACITY && forall s :: 0 <= s < CAPACITY && Occupied(t, s) ==> Has(t.entries[s], given[s])
  }

  lemma NoRights()
    ensures RightsOf(0) == {}
  {}

  /** Every operation keeps that entries have what they were given. */
  lemma StepHas(w: World, e: Event, given: seq<set<Right>>)
    requires Inv(w) && Possible(e) && Kept(w.table, given)
    ensures Kept(Step(w, e).table, StepGiven(w, e, given))
  {
    hide DecodeHandle, MakeHandle, Allows, Counted, Distinct, EndedTags, Live, Total, Current, RightsOf;
    InvUnheld(w);
    StepKeeps(w, e);
    NoRights();
    if e.DuplicateEvent? || e.SetInheritableEvent? || e.CloseEvent? || e.RetainEvent? {
      DecodedInside(e.h);
    }
    if e.ReleaseEvent? && e.ref < |w.refs| && w.refs[e.ref].active {
      ReleaseKeeps(w, e.ref);
      RefsOccupied(w.table, w.refs, w.tags);
    }
  }

  lemma {:induction false} RunHas(w: World, events: seq<Event>, given: seq<set<Right>>)
    requires Inv(w) && |given| == CAPACITY && Kept(w.table, given)
    requires forall i :: 0 <= i < |events| ==> Possible(events[i])
    ensures Kept(Run(w, events).table, RunGiven(w, events, given))
    decreases |events|
  {
    hide Step, Inv, Kept, StepGiven;
    if events != [] {
      StepKeeps(w, events[0]);
      StepHas(w, events[0], given);
      assert forall i :: 0 <= i < |events[1..]| ==> events[1..][i] == events[i + 1];
      RunHas(Step(w, events[0]), events[1..], StepGiven(w, events[0], given));
    }
  }

  const NONE_GIVEN: seq<set<Right>> := seq(CAPACITY, _ => {})

  /** Over every run from a new table: a handle yields a reference or a resource only if every right that is required
      was given to what its slot holds when that was opened, duplicated or inherited. */
  lemma RetainedOnlyIfGiven(events: seq<Event>, h: nat, required: nat)
    requires forall i :: 0 <= i < |events| ==> Possible(events[i])
    ensures Inv(START) && Inv(Run(START, events))
    ensures var t, given := Run(START, events).table, RunGiven(START, events, NONE_GIVEN);
      && t.Sized()
      && (GetRetain(t, h, required).1.Some? ==>
        required < 8 && Opens(t, h) && RightsOf(required) <= given[DecodeHandle(h).value.slot])
      && (Opens(t, h) && Allows(t.entries[DecodeHandle(h).value.slot].rights, required) ==>
        RightsOf(required) <= given[DecodeHandle(h).value.slot])
  {
    hide DecodeHandle, Allows, RightsOf, Run, RunGiven, Inv, GetRetain;
    StartInv();
    RunHas(START, events, NONE_GIVEN);
    DecodedInside(h);
    var t := Run(START, events).table;
    RetainedIff(t, h, required);
    if Opens(t, h) {
      AllowsIsSubset(t.entries[DecodeHandle(h).value.slot].rights, required);
    }
  }

  /** Over every run from a new table, an open handle has exactly the rights that were given with its occupancy, so
      duplicating it gives none but these. */
  lemma DuplicatedOnlyIfGiven(events: seq<Event>, h: nat, rights: nat)
    requires forall i :: 0 <= i < |events| ==> Possible(events[i])
    ensures Inv(START) && Inv(Run(START, events))
    ensures var t, given := Run(START, events).table, RunGiven(START, events, NONE_GIVEN);
      && Numbered(t)
      && (Opens(t, h) ==>
        RightsOf(t.entries[DecodeHandle(h).value.slot].rights) == given[DecodeHandle(h).value.slot])
      && (Duplicate(t, h, rights).1 != 0 ==>
        Opens(t, h) && FirstFree(t.entries, 0) < CAPACITY
        && RightsOf(Duplicate(t, h, rights).0.entries[FirstFree(t.entries, 0)].rights)
           <= given[DecodeHandle(h).value.slot])
  {
    hide DecodeHandle, Allows, RightsOf, Run, RunGiven, Duplicate, Counted;
    StartInv();
    RunHas(START, events, NONE_GIVEN);
    DecodedInside(h);
    var w := Run(START, events);
    AllNumbered(w);
    if Duplicate(w.table, h, rights).1 != 0 {
      DuplicatedIff(w.table, h, rights);
      DuplicateNeverGains(w.table, h, rights);
    }
  }

  lemma AllNumbered(w: World)
    requires Inv(w)
    ensures Numbered(w.table)
  {}
}
