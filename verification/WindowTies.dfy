/** A run of the window manager through the wrap of its height counter, to two windows of equal height. */
module WindowTies {
  import opened Scene
  import opened Surfaces
  import opened Compositors
  import opened WindowManagers

  /** The cursor on layer 0, window 1 on layer 1 at height 1, and window 0 on layer 2 at height `z`. */
  predicate Staged(windows: seq<Window>, slots: seq<Slot>, cursor: int, b: Surface, c: Surface, z: nat) {
    && |windows| == WINDOW_CAPACITY && |slots| == 3 && cursor == 0
    && windows[0].(focused := false) == Window(c, 2, 0, 0, true, false, false)
    && windows[1].(focused := false) == Window(b, 1, 0, 0, true, false, false)
    && (forall v :: 2 <= v < WINDOW_CAPACITY ==> windows[v] == NO_WINDOW)
    && slots[1] == Slot(b, 0, 0, 1, true) && slots[2] == Slot(c, 0, 0, z, true)
  }

  /** A manager that nothing has been done with. */
  ghost predicate New(m: WindowManager)
    reads m, m.compositor
  {
    && m.Valid() && m.windows == seq(WINDOW_CAPACITY, _ => NO_WINDOW) && m.nextZ == 0 && m.cursor == -1
    && m.compositor.slots == [] && m.OnlyWindows()
  }

  /** Window `v` alone, on a layer of its own. */
  predicate Only(windows: seq<Window>, v: nat, window: Window) {
    && |windows| == WINDOW_CAPACITY && v < WINDOW_CAPACITY && windows[v] == window
    && forall i :: 0 <= i < WINDOW_CAPACITY && i != v ==> windows[i] == NO_WINDOW
  }

  lemma FreeSlots(s: Slot, t: Slot)
    ensures FreeSlot([]) == 0
    ensures s.surface == null ==> FreeSlot([s, t]) == 0
    ensures s.surface != null ==> FreeSlot([s]) == 1
    ensures s.surface != null && t.surface != null ==> FreeSlot([s, t]) == 2
  {
    assert [s, t][1..] == [t];
  }

  method MakeFirst(m: WindowManager, a: Surface)
    requires New(m) && m.compositor.Usable(a)
    modifies m, m.compositor
    ensures m.Valid() && m.OnlyWindows() && m.nextZ == 1 && m.cursor == -1
    ensures Only(m.windows, 0, Window(a, 0, 0, 0, true, false, false)) && m.compositor.slots == [Slot(a, 0, 0, 0, true)]
  {
    hide WindowManager.Valid, WindowManager.OnlyWindows, WindowManager.InOrder, Changed, FirstFree, Compositor.View,
         FreeSlot;
    FreeSlots(Slot(a, 0, 0, 0, true), Slot(a, 0, 0, 0, true));
    assert !m.windows[0].Live();
    var w := m.Create(a, 0, 0, true);
  }

  method MakeSecond(m: WindowManager, a: Surface, b: Surface)
    requires m.Valid() && m.OnlyWindows() && m.nextZ == 1 && m.cursor == -1 && m.compositor.Usable(b)
    requires Only(m.windows, 0, Window(a, 0, 0, 0, true, false, false))
    requires m.compositor.slots == [Slot(a, 0, 0, 0, true)]
    modifies m, m.compositor
    ensures m.Valid() && m.OnlyWindows() && m.nextZ == 2 && m.cursor == -1
    ensures Only(m.windows, 1, Window(b, 1, 0, 0, true, false, false))
    ensures m.compositor.slots == [Slot(null, 0, 0, 0, false), Slot(b, 0, 0, 1, true)]
  {
    hide WindowManager.Valid, WindowManager.OnlyWindows, WindowManager.InOrder, Changed, FirstFree, Compositor.View,
         FreeSlot;
    FreeSlots(Slot(a, 0, 0, 0, true), Slot(a, 0, 0, 0, true));
    var w := m.Create(b, 0, 0, true);
    assert m.windows[1].layer == 1;
    var ok := m.Destroy(0);
  }

  method MakeThird(m: WindowManager, b: Surface, c: Surface, pointer: Surface)
    requires m.Valid() && m.OnlyWindows() && m.nextZ == 2 && m.cursor == -1
    requires m.compositor.Usable(c) && m.compositor.Usable(pointer)
    requires Only(m.windows, 1, Window(b, 1, 0, 0, true, false, false))
    requires m.compositor.slots == [Slot(null, 0, 0, 0, false), Slot(b, 0, 0, 1, true)]
    modifies m, m.compositor
    ensures m.Valid() && m.OnlyWindows() && m.nextZ == 3
    ensures Staged(m.windows, m.compositor.slots, m.cursor, b, c, 2)
  {
    hide WindowManager.Valid, WindowManager.OnlyWindows, WindowManager.InOrder, Changed, FirstFree, Compositor.View,
         FreeSlot;
    FreeSlots(Slot(null, 0, 0, 0, false), Slot(b, 0, 0, 1, true));
    var ok := m.SetCursor(pointer, 0, 0);
    FreeSlots(m.compositor.slots[0], m.compositor.slots[1]);
    assert m.compositor.slots == [m.compositor.slots[0], m.compositor.slots[1]];
    assert !m.windows[0].Live();
    var w := m.Create(c, 0, 0, true);
  }

  /** Two windows are made, the first is destroyed, the cursor takes its layer, and another window takes its place. */
  method Stage(m: WindowManager, a: Surface, b: Surface, c: Surface, pointer: Surface)
    requires New(m) && m.compositor.Usable(a) && m.compositor.Usable(b) && m.compositor.Usable(c)
    requires m.compositor.Usable(pointer)
    modifies m, m.compositor
    ensures m.Valid() && m.OnlyWindows() && m.nextZ == 3
    ensures Staged(m.windows, m.compositor.slots, m.cursor, b, c, 2)
  {
    hide WindowManager.Valid, WindowManager.OnlyWindows, Staged, Only;
    MakeFirst(m, a);
    MakeSecond(m, a, b);
    MakeThird(m, b, c, pointer);
  }

  /** Window 0 is focused until the counter has run over and it stands as high as window 1. */
  method Climb(m: WindowManager, b: Surface, c: Surface)
    requires m.Valid() && m.OnlyWindows() && m.nextZ == 3 && Staged(m.windows, m.compositor.slots, m.cursor, b, c, 2)
    modifies m, m.compositor
    ensures m.Valid() && m.OnlyWindows() && Staged(m.windows, m.compositor.slots, m.cursor, b, c, 1)
  {
    hide WindowManager.OnlyWindows, WindowManager.InOrder, Changed, FirstFree, Compositor.View, Compositor.Valid,
         Agree, OneFocus;
    ghost var z := 2;
    while m.nextZ != 1
      invariant m.Valid() && m.OnlyWindows()
      invariant Staged(m.windows, m.compositor.slots, m.cursor, b, c, z)
      decreases if m.nextZ <= 1 then 1 - m.nextZ else Z_LIMIT + 1 - m.nextZ
    {
      z := m.nextZ;
      var focused := m.Focus(0);
    }
    var focused := m.Focus(0);
  }

  /** The last window of those as high is hit. */
  lemma TieHit(windows: seq<Window>, slots: seq<Slot>, cursor: int, b: Surface, c: Surface, hit: int)
    requires Staged(windows, slots, cursor, b, c, 1) && b.Valid() && c.Valid()
    requires forall w :: 0 <= w < |windows| && windows[w].Live() ==> windows[w].layer < |slots|
    requires Highest(windows, slots, |windows|, 0, 0, hit)
    ensures hit == 1 && !LastLayer(windows, slots, 0, 0, 1) && windows[0].Covers(0, 0)
  {
    hide Fits;
    Corner(b);
    Corner(c);
    assert windows[0].Covers(0, 0) && windows[1].Covers(0, 0);
  }

  /** The window on the last layer of those as high is shown. */
  lemma TieShown(windows: seq<Window>, slots: seq<Slot>, layers: seq<Layer>, cursor: int, b: Surface, c: Surface)
    requires Agree(windows, slots, cursor) && Alone(windows, slots, cursor) && Shows(layers, slots)
    requires Staged(windows, slots, cursor, b, c, 1) && b.Valid() && c.Valid()
    requires Highest(windows, slots, |windows|, 0, 0, 1)
    ensures Top(Uncursored(layers, cursor), |layers|, 0, 0) == windows[0].layer != windows[1].layer
  {
    hide Agree, Alone, Shows, Topmost, Highest, Fits;
    var bare := Uncursored(layers, cursor);
    var k := Top(bare, |layers|, 0, 0);
    HitShownIff(windows, slots, layers, cursor, 0, 0, 1);
    TieHit(windows, slots, cursor, b, c, 1);
    WindowShown(windows, slots, layers, cursor, 0, 0, 0);
    TopFound(bare, 0, 0, windows[0].layer);
    var v := ShownWindow(windows, slots, layers, cursor, 0, 0, k);
  }

  lemma TopFound(layers: seq<Layer>, x: int, y: int, j: nat)
    requires j < |layers| && layers[j].Shows(x, y)
    ensures var k := Top(layers, |layers|, x, y); 0 <= k < |layers| && layers[k].Shows(x, y)
  {
    hide Layer.Shows;
    TopIsTopmost(layers, |layers|, x, y);
  }

  /** From a new manager, through 2^32 focusings, to a point where the hit is window 1 and the screen shows
      window 0. */
  method TieThroughWrap(m: WindowManager, a: Surface, b: Surface, c: Surface, pointer: Surface) returns (hit: int)
    requires New(m) && m.compositor.Usable(a) && m.compositor.Usable(b) && m.compositor.Usable(c)
    requires m.compositor.Usable(pointer)
    modifies m, m.compositor
    ensures m.Valid() && hit == 1 && |m.windows| == WINDOW_CAPACITY
    ensures Top(Uncursored(m.compositor.View().layers, m.cursor), |m.compositor.slots|, 0, 0)
         == m.windows[0].layer != m.windows[hit].layer
  {
    hide Alone, OneFocus, Snapshot, Fits, OnScreen;
    Stage(m, a, b, c, pointer);
    Climb(m, b, c);
    hit := m.HitTest(0, 0);
    TieHit(m.windows, m.compositor.slots, m.cursor, b, c, hit);
    TieShown(m.windows, m.compositor.slots, m.compositor.View().layers, m.cursor, b, c);
  }
}
