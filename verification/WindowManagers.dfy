/** The window manager: windows over compositor layers, raised by focus, found by hit test. */
module WindowManagers {
  import opened Scene
  import opened Surfaces
  import opened Compositors

  const WINDOW_CAPACITY := 16
  const Z_LIMIT := 0x1_0000_0000

  datatype Window = Window(surface: Surface?, layer: nat, x: int, y: int, visible: bool, focused: bool, owned: bool) {
    predicate Live() { surface != null }
    /** The point is on the window. */
    predicate Covers(px: int, py: int) {
      Live() && visible && Rect(x, y, surface.width, surface.height).Has(px, py)
    }
  }

  const NO_WINDOW := Window(null, 0, 0, 0, false, false, false)

  /** A window and its layer say the same. */
  predicate Matches(w: Window, slot: Slot) {
    slot.surface == w.surface && slot.x == w.x && slot.y == w.y && slot.visible == w.visible
  }

  predicate AllLive(windows: seq<Window>) {
    forall v :: 0 <= v < |windows| ==> windows[v].Live()
  }

  /** The first place without a window. */
  predicate FirstPlace(windows: seq<Window>, w: nat) {
    w < |windows| && !windows[w].Live() && AllLive(windows[..w])
  }

  /** Every window has a layer of its own, apart from the cursor's, and agrees with it. */
  predicate Agree(windows: seq<Window>, slots: seq<Slot>, cursor: int) {
    && |windows| == WINDOW_CAPACITY
    && (forall w :: 0 <= w < |windows| && windows[w].Live() ==>
      windows[w].layer < |slots| && windows[w].layer != cursor && Matches(windows[w], slots[windows[w].layer]))
    && (forall v, w :: 0 <= v < w < |windows| && windows[v].Live() && windows[w].Live() ==>
        windows[v].layer != windows[w].layer)
    && -1 <= cursor && (cursor >= 0 ==> cursor < |slots| && slots[cursor].surface != null)
  }

  predicate Owned(windows: seq<Window>, k: nat) {
    exists w :: 0 <= w < |windows| && windows[w].Live() && windows[w].layer == k
  }

  /** Nothing is on the screen but the windows and the cursor. */
  predicate Alone(windows: seq<Window>, slots: seq<Slot>, cursor: int) {
    forall k: nat :: k < |slots| && slots[k].surface != null && k != cursor ==> Owned(windows, k)
  }

  /** Windows have different heights, all given out before `nextZ`. */
  predicate Ordered(windows: seq<Window>, slots: seq<Slot>, nextZ: nat) {
    && (forall w :: 0 <= w < |windows| && windows[w].Live() ==>
      windows[w].layer < |slots| && slots[windows[w].layer].z < nextZ)
    && (forall v, w :: 0 <= v < w < |windows| && windows[v].Live() && windows[w].Live() ==>
      slots[windows[v].layer].z != slots[windows[w].layer].z)
  }

  /** At most one window has the focus, and it is visible. */
  predicate OneFocus(windows: seq<Window>) {
    && (forall w :: 0 <= w < |windows| && windows[w].focused ==> windows[w].Live() && windows[w].visible)
    && (forall v, w :: 0 <= v < w < |windows| ==> !(windows[v].focused && windows[w].focused))
  }

  // ------------------------------------------------------------ what operations keep

  lemma Backed(windows: seq<Window>, slots: seq<Slot>, cursor: int, w: nat)
    requires Agree(windows, slots, cursor)
    ensures |windows| == WINDOW_CAPACITY
    ensures w < |windows| && windows[w].Live() ==>
      windows[w].layer < |slots| && windows[w].layer != cursor && Matches(windows[w], slots[windows[w].layer])
  {}

  lemma CursorLive(windows: seq<Window>, slots: seq<Slot>, cursor: int)
    requires Agree(windows, slots, cursor)
    ensures cursor >= -1
    ensures cursor >= 0 ==> cursor < |slots| && slots[cursor].surface != null
  {}

  /** Changing a window and its layer together. */
  lemma UpdateKeeps(windows: seq<Window>, slots: seq<Slot>, cursor: int, w: nat, window: Window, slot: Slot)
    requires Agree(windows, slots, cursor) && w < |windows| && windows[w].Live()
    requires window.Live() && window.layer == windows[w].layer && Matches(window, slot)
    ensures Agree(windows[w := window], slots[window.layer := slot], cursor)
    ensures Alone(windows, slots, cursor) ==> Alone(windows[w := window], slots[window.layer := slot], cursor)
  {
    var slots' := slots[window.layer := slot];
    if Alone(windows, slots, cursor) {
      forall k: nat | k < |slots| && slots'[k].surface != null && k != cursor
        ensures Owned(windows[w := window], k)
      {
        assert Owned(windows, k);
        var v :| 0 <= v < |windows| && windows[v].Live() && windows[v].layer == k;
        assert windows[w := window][v].layer == k;
      }
    }
  }

  /** Raising a window above all others, or leaving its height alone. */
  lemma UpdateOrdered(windows: seq<Window>, slots: seq<Slot>, cursor: int, w: nat, window: Window, slot: Slot,
                      nextZ: nat, nextZ': nat)
    requires Agree(windows, slots, cursor) && w < |windows| && windows[w].Live() && Ordered(windows, slots, nextZ)
    requires window.Live() && window.layer == windows[w].layer
    requires (slot.z == slots[window.layer].z && nextZ' == nextZ) || (slot.z == nextZ && nextZ' == nextZ + 1)
    ensures Ordered(windows[w := window], slots[window.layer := slot], nextZ')
  {}

  /** A new window over a layer that was free. */
  lemma CreateKeeps(windows: seq<Window>, slots: seq<Slot>, slots': seq<Slot>, cursor: int, w: nat, window: Window)
    requires Agree(windows, slots, cursor) && w < |windows| && !windows[w].Live() && window.Live()
    requires window.layer < |slots'| && |slots| <= |slots'| <= |slots| + 1 && Matches(window, slots'[window.layer])
    requires forall k :: 0 <= k < |slots| && k != window.layer ==> slots'[k] == slots[k]
    requires if window.layer < |slots| then |slots'| == |slots| && slots[window.layer].surface == null
      else window.layer == |slots|
    ensures Agree(windows[w := window], slots', cursor)
    ensures Alone(windows, slots, cursor) ==> Alone(windows[w := window], slots', cursor)
  {
    var windows' := windows[w := window];
    if Alone(windows, slots, cursor) {
      forall k: nat | k < |slots'| && slots'[k].surface != null && k != cursor
        ensures Owned(windows', k)
      {
        if k == window.layer {
          assert windows'[w].layer == k;
        } else {
          assert Owned(windows, k);
          var v :| 0 <= v < |windows| && windows[v].Live() && windows[v].layer == k;
          assert windows'[v].layer == k;
        }
      }
    }
  }

  lemma CreateOrdered(windows: seq<Window>, slots: seq<Slot>, slots': seq<Slot>, cursor: int, w: nat, window: Window,
                      nextZ: nat)
    requires Agree(windows, slots, cursor) && w < |windows| && !windows[w].Live() && window.Live()
    requires Ordered(windows, slots, nextZ)
    requires window.layer < |slots'| && |slots| <= |slots'| && slots'[window.layer].z == nextZ
    requires forall k :: 0 <= k < |slots| && k != window.layer ==> slots'[k] == slots[k]
    requires window.layer < |slots| ==> slots[window.layer].surface == null
    ensures Ordered(windows[w := window], slots', nextZ + 1)
  {}

  /** A layer that nobody owned changes and stays empty. */
  lemma SpareKeeps(windows: seq<Window>, slots: seq<Slot>, slots': seq<Slot>, cursor: int, layer: nat, nextZ: nat,
                   nextZ': nat)
    requires Agree(windows, slots, cursor) && layer < |slots'| && |slots| <= |slots'| <= |slots| + 1
    requires forall k :: 0 <= k < |slots| && k != layer ==> slots'[k] == slots[k]
    requires if layer < |slots| then |slots'| == |slots| && slots[layer].surface == null else layer == |slots|
    requires slots'[layer].surface == null && nextZ <= nextZ'
    ensures Agree(windows, slots', cursor)
    ensures Alone(windows, slots, cursor) ==> Alone(windows, slots', cursor)
    ensures Ordered(windows, slots, nextZ) ==> Ordered(windows, slots', nextZ')
  {}

  lemma LaterZ(windows: seq<Window>, slots: seq<Slot>, nextZ: nat, nextZ': nat)
    requires Ordered(windows, slots, nextZ) && nextZ <= nextZ'
    ensures Ordered(windows, slots, nextZ')
  {}

  /** The cursor's layer goes, or comes to a free slot. */
  lemma CursorKeeps(windows: seq<Window>, slots: seq<Slot>, slots': seq<Slot>, cursor: int, cursor': int, layer: nat,
                    nextZ: nat)
    requires Agree(windows, slots, cursor) && layer < |slots'| && |slots| <= |slots'| <= |slots| + 1
    requires forall k :: 0 <= k < |slots| && k != layer ==> slots'[k] == slots[k]
    requires
      || (cursor == layer && cursor' == -1 && |slots'| == |slots| && slots'[layer].surface == null)
      || (cursor == layer && cursor' == cursor && |slots'| == |slots| && slots'[layer].surface != null)
      || (cursor < 0 && cursor' == layer && slots'[layer].surface != null
          && if layer < |slots| then |slots'| == |slots| && slots[layer].surface == null else layer == |slots|)
    ensures Agree(windows, slots', cursor')
    ensures Alone(windows, slots, cursor) ==> Alone(windows, slots', cursor')
    ensures Ordered(windows, slots, nextZ) ==> Ordered(windows, slots', nextZ)
  {}

  /** A window and its layer go together. */
  lemma DestroyKeeps(windows: seq<Window>, slots: seq<Slot>, cursor: int, w: nat, slot: Slot)
    requires Agree(windows, slots, cursor) && w < |windows| && windows[w].Live() && slot.surface == null
    ensures Agree(windows[w := NO_WINDOW], slots[windows[w].layer := slot], cursor)
    ensures Alone(windows, slots, cursor) ==> Alone(windows[w := NO_WINDOW], slots[windows[w].layer := slot], cursor)
  {
    var slots' := slots[windows[w].layer := slot];
    if Alone(windows, slots, cursor) {
      forall k: nat | k < |slots| && slots'[k].surface != null && k != cursor
        ensures Owned(windows[w := NO_WINDOW], k)
      {
        assert Owned(windows, k);
        var v :| 0 <= v < |windows| && windows[v].Live() && windows[v].layer == k;
        assert windows[w := NO_WINDOW][v].layer == k;
      }
    }
  }

  lemma DestroyOrdered(windows: seq<Window>, slots: seq<Slot>, cursor: int, w: nat, slot: Slot, nextZ: nat)
    requires Agree(windows, slots, cursor) && w < |windows| && windows[w].Live() && Ordered(windows, slots, nextZ)
    ensures Ordered(windows[w := NO_WINDOW], slots[windows[w].layer := slot], nextZ)
  {}

  // ------------------------------------------------------------ hit testing

  /** The layers without the cursor. */
  function Uncursored(layers: seq<Layer>, cursor: int): (l: seq<Layer>)
    ensures |l| == |layers|
  {
    if 0 <= cursor < |layers| then layers[cursor := Empty] else layers
  }

  /** `hit` is the highest window at a point; of equal heights, the last. */
  predicate Highest(windows: seq<Window>, slots: seq<Slot>, n: nat, x: int, y: int, hit: int)
    requires n <= |windows| && forall w :: 0 <= w < |windows| && windows[w].Live() ==> windows[w].layer < |slots|
  {
    if hit < 0 then forall w :: 0 <= w < n ==> !windows[w].Covers(x, y)
    else
      && hit < n && windows[hit].Covers(x, y)
      && forall w :: 0 <= w < n && windows[w].Covers(x, y) ==>
        (var a, b := slots[windows[w].layer].z, slots[windows[hit].layer].z; a < b || (a == b && w <= hit))
  }

  /** Layers that show what the slots hold. */
  predicate Shows(layers: seq<Layer>, slots: seq<Slot>) {
    && |layers| == |slots|
    && forall k :: 0 <= k < |slots| ==>
      if slots[k].surface == null then layers[k].Empty?
      else
        && layers[k].Layer? && layers[k].x == slots[k].x && layers[k].y == slots[k].y
        && layers[k].z == slots[k].z && layers[k].visible == slots[k].visible
        && layers[k].image.width == slots[k].surface.width && layers[k].image.height == slots[k].surface.height
  }

  /** Among the windows at a point that are as high as `hit`, `hit` has the last layer. */
  predicate LastLayer(windows: seq<Window>, slots: seq<Slot>, x: int, y: int, hit: nat)
    requires hit < |windows| && windows[hit].layer < |slots|
  {
    forall w | 0 <= w < |windows| && windows[w].Covers(x, y) && windows[w].layer < |slots| ::
      slots[windows[w].layer].z == slots[windows[hit].layer].z ==> windows[w].layer <= windows[hit].layer
  }

  /** A hit is the window on top of the screen, cursor aside, exactly when it has the last layer among its
      equals: hits break ties by window, the compositor by layer. */
  lemma HitShownIff(windows: seq<Window>, slots: seq<Slot>, layers: seq<Layer>, cursor: int, x: int, y: int, hit: int)
    requires Agree(windows, slots, cursor) && Alone(windows, slots, cursor) && Shows(layers, slots)
    requires Highest(windows, slots, |windows|, x, y, hit)
    ensures hit < 0 ==> Top(Uncursored(layers, cursor), |layers|, x, y) == -1
    ensures hit >= 0 ==> (Top(Uncursored(layers, cursor), |layers|, x, y) == windows[hit].layer
                          <==> LastLayer(windows, slots, x, y, hit))
  {
    hide Agree, Alone, LastLayer, Topmost, Layer.Shows, Window.Covers;
    var bare := Uncursored(layers, cursor);
    TopIsTopmost(bare, |layers|, x, y);
    var k := Top(bare, |layers|, x, y);
    if k >= 0 {
      var v := ShownWindow(windows, slots, layers, cursor, x, y, k);
    }
    if hit >= 0 {
      WindowShown(windows, slots, layers, cursor, x, y, hit);
      HitTopmostIff(windows, slots, layers, cursor, x, y, hit);
      if Topmost(bare, |layers|, x, y, windows[hit].layer) {
        TopShown(bare, x, y, windows[hit].layer);
      }
    }
  }

  /** Two windows of equal height, the first on the higher layer. */
  function TwoWindows(a: Surface, b: Surface): (ws: seq<Window>) {
    [Window(a, 1, 0, 0, true, false, false), Window(b, 0, 0, 0, true, false, false)]
      + seq(WINDOW_CAPACITY - 2, _ => NO_WINDOW)
  }

  function TwoSlots(a: Surface, b: Surface, z: nat): (slots: seq<Slot>) {
    [Slot(b, 0, 0, z, true), Slot(a, 0, 0, z, true)]
  }

  lemma TwoAgree(a: Surface, b: Surface, z: nat)
    requires a.Valid() && b.Valid()
    ensures Agree(TwoWindows(a, b), TwoSlots(a, b, z), -1) && Alone(TwoWindows(a, b), TwoSlots(a, b, z), -1)
    ensures Highest(TwoWindows(a, b), TwoSlots(a, b, z), WINDOW_CAPACITY, 0, 0, 1)
  {
    hide Fits;
    var windows := TwoWindows(a, b);
    assert windows[0].layer == 1 && windows[1].layer == 0;
    assert Owned(windows, 0) && Owned(windows, 1);
    assert windows[1].Covers(0, 0) by { Corner(b); }
  }

  lemma Corner(s: Surface)
    requires s.Valid()
    ensures s.width > 0 && s.height > 0
  {}

  /** The corner of two windows of equal height: the hit is the second window, and the screen shows the first. */
  lemma HitBehindShown(a: Surface, b: Surface, z: nat, layers: seq<Layer>)
    requires a.Valid() && b.Valid() && Shows(layers, TwoSlots(a, b, z))
    ensures var windows, slots := TwoWindows(a, b), TwoSlots(a, b, z);
      Agree(windows, slots, -1) && Highest(windows, slots, |windows|, 0, 0, 1)
    ensures Top(layers, |layers|, 0, 0) == TwoWindows(a, b)[0].layer != TwoWindows(a, b)[1].layer
  {
    hide Agree, Alone, Highest, Fits;
    var windows, slots := TwoWindows(a, b), TwoSlots(a, b, z);
    TwoAgree(a, b, z);
    HitShownIff(windows, slots, layers, -1, 0, 0, 1);
    assert Uncursored(layers, -1) == layers;
    assert windows[0].Covers(0, 0) by { Corner(a); }
    assert !LastLayer(windows, slots, 0, 0, 1);
    TopIsTopmost(layers, |layers|, 0, 0);
    Corner(b);
    assert layers[0].Shows(0, 0);
  }

  lemma TopShown(layers: seq<Layer>, x: int, y: int, k: nat)
    requires Topmost(layers, |layers|, x, y, k)
    ensures Top(layers, |layers|, x, y) == k
  {
    TopIsTopmost(layers, |layers|, x, y);
    TopmostUnique(layers, x, y, Top(layers, |layers|, x, y), k);
  }

  lemma HitTopmostIff(windows: seq<Window>, slots: seq<Slot>, layers: seq<Layer>, cursor: int, x: int, y: int, hit: nat)
    requires Agree(windows, slots, cursor) && Alone(windows, slots, cursor) && Shows(layers, slots)
    requires Highest(windows, slots, |windows|, x, y, hit)
    ensures Topmost(Uncursored(layers, cursor), |layers|, x, y, windows[hit].layer)
      <==> LastLayer(windows, slots, x, y, hit)
  {
    hide Alone, Rect.Has, Window.Covers;
    var bare := Uncursored(layers, cursor);
    WindowShown(windows, slots, layers, cursor, x, y, hit);
    if LastLayer(windows, slots, x, y, hit) {
      forall j | 0 <= j < |layers| && bare[j].Shows(x, y)
        ensures bare[j].z < bare[windows[hit].layer].z
          || (bare[j].z == bare[windows[hit].layer].z && j <= windows[hit].layer)
      {
        var v := ShownWindow(windows, slots, layers, cursor, x, y, j);
      }
    }
    if Topmost(bare, |layers|, x, y, windows[hit].layer) {
      forall w | 0 <= w < |windows| && windows[w].Covers(x, y) && windows[w].layer < |slots|
                 && slots[windows[w].layer].z == slots[windows[hit].layer].z
        ensures windows[w].layer <= windows[hit].layer
      {
        WindowShown(windows, slots, layers, cursor, x, y, w);
      }
    }
  }

  /** While heights differ, a hit finds the window that the screen shows at the point, cursor aside. */
  lemma HitIsShown(windows: seq<Window>, slots: seq<Slot>, layers: seq<Layer>, cursor: int, nextZ: nat, x: int, y: int,
                   hit: int)
    requires Agree(windows, slots, cursor) && Alone(windows, slots, cursor) && Ordered(windows, slots, nextZ)
    requires Shows(layers, slots)
    requires Highest(windows, slots, |windows|, x, y, hit)
    ensures Top(Uncursored(layers, cursor), |layers|, x, y) == if hit < 0 then -1 else windows[hit].layer
  {
    hide Agree, Alone, Shows, Layer.Shows;
    HitShownIff(windows, slots, layers, cursor, x, y, hit);
    if hit >= 0 {
      OrderedLast(windows, slots, nextZ, x, y, hit);
    }
  }

  lemma OrderedLast(windows: seq<Window>, slots: seq<Slot>, nextZ: nat, x: int, y: int, hit: nat)
    requires Ordered(windows, slots, nextZ) && hit < |windows| && windows[hit].Live()
    ensures LastLayer(windows, slots, x, y, hit)
  {}

  lemma ShownWindow(windows: seq<Window>, slots: seq<Slot>, layers: seq<Layer>, cursor: int, x: int, y: int, k: nat)
    returns (v: nat)
    requires Agree(windows, slots, cursor) && Alone(windows, slots, cursor) && Shows(layers, slots)
    requires k < |layers| && Uncursored(layers, cursor)[k].Shows(x, y)
    ensures v < |windows| && windows[v].Covers(x, y) && windows[v].layer == k
  {
    assert Owned(windows, k);
    v :| 0 <= v < |windows| && windows[v].Live() && windows[v].layer == k;
  }

  lemma WindowShown(windows: seq<Window>, slots: seq<Slot>, layers: seq<Layer>, cursor: int, x: int, y: int, w: nat)
    requires Agree(windows, slots, cursor) && Shows(layers, slots) && w < |windows| && windows[w].Covers(x, y)
    ensures windows[w].layer < |layers| && Uncursored(layers, cursor)[windows[w].layer].Shows(x, y)
    ensures Uncursored(layers, cursor)[windows[w].layer] == layers[windows[w].layer]
  {}

  // ------------------------------------------------------------ focus

  function Unfocused(windows: seq<Window>): (ws: seq<Window>)
    ensures |ws| == |windows| && forall i :: 0 <= i < |ws| ==> ws[i] == windows[i].(focused := false)
  {
    seq(|windows|, i requires 0 <= i < |windows| => windows[i].(focused := false))
  }

  lemma UnfocusedKeeps(windows: seq<Window>, slots: seq<Slot>, cursor: int, nextZ: nat)
    requires Agree(windows, slots, cursor)
    ensures Agree(Unfocused(windows), slots, cursor)
    ensures Alone(windows, slots, cursor) ==> Alone(Unfocused(windows), slots, cursor)
    ensures Ordered(windows, slots, nextZ) ==> Ordered(Unfocused(windows), slots, nextZ)
  {}

  lemma UpdateFocus(windows: seq<Window>, w: nat, window: Window)
    requires OneFocus(windows) && w < |windows|
    requires window.focused ==> windows[w].focused && window.Live() && (windows[w].visible ==> window.visible)
    ensures OneFocus(windows[w := window])
  {}

  lemma FocusOnly(windows: seq<Window>, w: nat, window: Window)
    requires w < |windows| && window.Live() && window.visible
    ensures OneFocus(Unfocused(windows)[w := window])
  {}

  // ------------------------------------------------------------ surfaces that the manager makes

  const SIZE_LIMIT := 4096

  predicate Bufferable(width: nat, height: nat) {
    0 < width <= SIZE_LIMIT && 0 < height <= SIZE_LIMIT
  }

  /** A surface of a given size in a buffer of its own. */
  ghost predicate BlankSurface(s: Surface, width: nat, height: nat) {
    s.Valid() && s.width == width && s.height == height && s.pitch == width && s.pixels.Length == width * height
  }

  lemma BufferSize(width: nat, height: nat)
    requires Bufferable(width, height)
    ensures (height - 1) * width + width == width * height <= SIZE_LIMIT * SIZE_LIMIT
  {
    assert width * height <= SIZE_LIMIT * height;
  }

  method NewSurface(width: nat, height: nat) returns (s: Surface)
    requires Bufferable(width, height)
    ensures fresh(s) && fresh(s.pixels) && BlankSurface(s, width, height)
  {
    BufferSize(width, height);
    var pixels := new Color[width * height];
    s := InitializeSurface(pixels, width, height, width);
  }

  // ------------------------------------------------------------ the manager

  class WindowManager {
    const compositor: Compositor
    var windows: seq<Window>
    var nextZ: nat
    var cursor: int

    ghost predicate Valid()
      reads this, compositor
    {
      compositor.Valid() && Agree(windows, compositor.slots, cursor) && OneFocus(windows) && nextZ < Z_LIMIT
    }

    ghost predicate OnlyWindows()
      reads this, compositor
    {
      Alone(windows, compositor.slots, cursor)
    }

    ghost predicate InOrder()
      reads this, compositor
    {
      Ordered(windows, compositor.slots, nextZ)
    }

    constructor (compositor: Compositor)
      requires compositor.Valid()
      ensures Valid() && this.compositor == compositor && InOrder()
      ensures windows == seq(WINDOW_CAPACITY, _ => NO_WINDOW) && nextZ == 0 && cursor == -1
      ensures compositor.slots == [] ==> OnlyWindows()
    {
      this.compositor, windows, nextZ, cursor := compositor, seq(WINDOW_CAPACITY, _ => NO_WINDOW), 0, -1;
    }

    /** The manager's own fields change and the compositor does not. */
    method Record(windows: seq<Window>, nextZ: nat, cursor: int)
      requires compositor.Valid()
      modifies this
      ensures this.windows == windows && this.nextZ == nextZ && this.cursor == cursor
      ensures compositor.Valid() && compositor.View() == old(compositor.View())
    {
      assert forall b :: b in Buffers(compositor.slots) ==> b as object != this as object;
      this.windows, this.nextZ, this.cursor := windows, nextZ, cursor;
    }

    /** The height after this one, as a 32-bit counter counts. */
    function AfterZ(): (z: nat)
      reads this
    {
      if nextZ + 1 == Z_LIMIT then 0 else nextZ + 1
    }

    /** A window and its layer move together. */
    method Move(w: nat, x: int, y: int) returns (ok: bool)
      requires Valid()
      modifies this, compositor
      ensures Valid()
      ensures old(OnlyWindows()) ==> OnlyWindows()
      ensures old(InOrder()) ==> InOrder()
      ensures nextZ == old(nextZ) && cursor == old(cursor)
      ensures ok <==> w < WINDOW_CAPACITY && old(windows[w]).Live()
      ensures windows == if ok then old(windows)[w := old(windows[w]).(x := x, y := y)] else old(windows)
      ensures compositor.View() ==
        if ok then Changed(old(compositor.View()), Change.Move(old(windows[w]).layer, x, y)) else old(compositor.View())
    {
      hide Agree, Alone, Ordered, OneFocus, Changed, Compositor.Valid, Compositor.View, FirstFree;
      Backed(windows, compositor.slots, cursor, w);
      ok := w < WINDOW_CAPACITY && windows[w].Live();
      if ok {
        var entry := windows[w].(x := x, y := y);
        ghost var slot := compositor.slots[entry.layer].(x := x, y := y);
        UpdateKeeps(windows, compositor.slots, cursor, w, entry, slot);
        if InOrder() {
          UpdateOrdered(windows, compositor.slots, cursor, w, entry, slot, nextZ, nextZ);
        }
        UpdateFocus(windows, w, entry);
        ok := compositor.SetPosition(windows[w].layer, x, y);
        Record(windows[w := entry], nextZ, cursor);
      }
    }

    /** A window and its layer are shown or hidden together; a hidden window loses the focus. */
    method SetVisible(w: nat, visible: bool) returns (ok: bool)
      requires Valid()
      modifies this, compositor
      ensures Valid()
      ensures old(OnlyWindows()) ==> OnlyWindows()
      ensures old(InOrder()) ==> InOrder()
      ensures nextZ == old(nextZ) && cursor == old(cursor)
      ensures ok <==> w < WINDOW_CAPACITY && old(windows[w]).Live()
      ensures windows ==
        if ok then
          old(windows)[w := old(windows[w]).(visible := visible, focused := visible && old(windows[w]).focused)]
        else old(windows)
      ensures compositor.View() ==
        if ok then Changed(old(compositor.View()), Change.Show(old(windows[w]).layer, visible))
          else old(compositor.View())
    {
      hide Agree, Alone, Ordered, OneFocus, Changed, Compositor.Valid, Compositor.View, FirstFree;
      Backed(windows, compositor.slots, cursor, w);
      ok := w < WINDOW_CAPACITY && windows[w].Live();
      if ok {
        var entry := windows[w].(visible := visible, focused := visible && windows[w].focused);
        ghost var slot := compositor.slots[entry.layer].(visible := visible);
        UpdateKeeps(windows, compositor.slots, cursor, w, entry, slot);
        if InOrder() {
          UpdateOrdered(windows, compositor.slots, cursor, w, entry, slot, nextZ, nextZ);
        }
        UpdateFocus(windows, w, entry);
        ok := compositor.SetVisible(windows[w].layer, visible);
        Record(windows[w := entry], nextZ, cursor);
      }
    }

    /** A window and its layer get another surface. */
    method Resurface(w: nat, surface: Surface)
      requires Valid() && compositor.Usable(surface) && w < WINDOW_CAPACITY && windows[w].Live()
      modifies this, compositor
      ensures Valid()
      ensures old(OnlyWindows()) ==> OnlyWindows()
      ensures old(InOrder()) ==> InOrder()
      ensures nextZ == old(nextZ) && cursor == old(cursor)
      ensures windows == old(windows)[w := old(windows[w]).(surface := surface)]
      ensures compositor.View()
        == Changed(old(compositor.View()), Change.Resurface(old(windows[w]).layer, surface.View()))
    {
      hide Agree, Alone, Ordered, OneFocus, Changed, Compositor.Valid, Compositor.View, FirstFree;
      Backed(windows, compositor.slots, cursor, w);
      var entry := windows[w].(surface := surface);
      ghost var slot := compositor.slots[entry.layer].(surface := surface);
      UpdateKeeps(windows, compositor.slots, cursor, w, entry, slot);
      if InOrder() {
        UpdateOrdered(windows, compositor.slots, cursor, w, entry, slot, nextZ, nextZ);
      }
      UpdateFocus(windows, w, entry);
      var changed := compositor.SetSurface(windows[w].layer, surface);
      Record(windows[w := entry], nextZ, cursor);
    }

    /** A new surface leaves the screen alone. */
    method MakeSurface(width: nat, height: nat) returns (surface: Surface)
      requires compositor.Valid() && Bufferable(width, height)
      ensures fresh(surface) && fresh(surface.pixels) && BlankSurface(surface, width, height)
      ensures compositor.Valid() && compositor.View() == old(compositor.View()) && compositor.Usable(surface)
    {
      hide Fits, Snapshot, OnScreen;
      surface := NewSurface(width, height);
      assert forall b :: b in Buffers(compositor.slots) ==> !fresh(b);
    }

    /** A window that owns its surface gets a new one of another size; `memory` says whether there was room for it. */
    method Resize(w: nat, width: nat, height: nat, memory: bool) returns (ok: bool)
      requires Valid()
      modifies this, compositor
      ensures Valid()
      ensures old(OnlyWindows()) ==> OnlyWindows()
      ensures old(InOrder()) ==> InOrder()
      ensures nextZ == old(nextZ) && cursor == old(cursor)
      ensures ok <==>
        w < WINDOW_CAPACITY && old(windows[w]).Live() && old(windows[w]).owned && Bufferable(width, height) && memory
      ensures !ok ==> windows == old(windows) && compositor.View() == old(compositor.View())
      ensures ok ==>
        |windows| == WINDOW_CAPACITY && windows[w].surface != null && BlankSurface(windows[w].surface, width, height)
      ensures ok ==>
        fresh(windows[w].surface) && windows == old(windows)[w := old(windows[w]).(surface := windows[w].surface)]
      ensures ok ==>
        compositor.View() == Changed(old(compositor.View()),
                                     Change.Resurface(old(windows[w]).layer, windows[w].surface.View()))
    {
      hide Agree, Alone, Ordered, OneFocus, Changed, Compositor.Valid, Compositor.View, FirstFree, Fits;
      Backed(windows, compositor.slots, cursor, w);
      if w >= WINDOW_CAPACITY || !windows[w].Live() || !windows[w].owned || !Bufferable(width, height) || !memory {
        return false;
      }
      var surface := MakeSurface(width, height);
      Resurface(w, surface);
      return true;
    }

    /** A window and its layer go. */
    method Destroy(w: nat) returns (ok: bool)
      requires Valid()
      modifies this, compositor
      ensures Valid()
      ensures old(OnlyWindows()) ==> OnlyWindows()
      ensures old(InOrder()) ==> InOrder()
      ensures nextZ == old(nextZ) && cursor == old(cursor)
      ensures ok <==> w < WINDOW_CAPACITY && old(windows[w]).Live()
      ensures windows == if ok then old(windows)[w := NO_WINDOW] else old(windows)
      ensures compositor.View() ==
        if ok then Changed(old(compositor.View()), Change.Remove(old(windows[w]).layer)) else old(compositor.View())
      ensures ok ==> var layer := old(windows[w]).layer;
        && layer < |old(compositor.slots)|
        && compositor.slots ==
           old(compositor.slots)[layer := old(compositor.slots)[layer].(surface := null, visible := false)]
    {
      hide Agree, Alone, Ordered, OneFocus, Changed, Compositor.Valid, Compositor.View, FirstFree;
      Backed(windows, compositor.slots, cursor, w);
      ok := w < WINDOW_CAPACITY && windows[w].Live();
      if ok {
        ghost var slot := compositor.slots[windows[w].layer].(surface := null, visible := false);
        DestroyKeeps(windows, compositor.slots, cursor, w, slot);
        if InOrder() {
          DestroyOrdered(windows, compositor.slots, cursor, w, slot, nextZ);
        }
        UpdateFocus(windows, w, NO_WINDOW);
        ok := compositor.RemoveLayer(windows[w].layer);
        Record(windows[w := NO_WINDOW], nextZ, cursor);
      }
    }

    /** The first free place, or the number of places. */
    method FindFreeWindow() returns (w: nat)
      requires compositor.Valid()
      ensures w <= |windows| && (w < |windows| ==> !windows[w].Live())
      ensures forall v :: 0 <= v < w ==> windows[v].Live()
      ensures compositor.View() == old(compositor.View())
    {
      w := 0;
      while w < |windows| && windows[w].Live()
        invariant w <= |windows|
        invariant forall v :: 0 <= v < w ==> windows[v].Live()
      {
        w := w + 1;
      }
    }

    /** A new window takes the first free place and a new layer on top; `memory` says whether room
        for its input queue was there. */
    method Create(surface: Surface, x: int, y: int, memory: bool) returns (w: int)
      requires Valid() && compositor.Usable(surface)
      modifies this, compositor
      ensures Valid()
      ensures old(OnlyWindows()) ==> OnlyWindows()
      ensures old(InOrder()) && nextZ >= old(nextZ) ==> InOrder()
      ensures cursor == old(cursor)
      ensures nextZ == if AllLive(old(windows)) then old(nextZ) else old(AfterZ())
      ensures w < 0 ==> windows == old(windows)
      ensures w >= 0 ==> w < WINDOW_CAPACITY && FirstPlace(old(windows), w)
      ensures w >= 0 ==>
        compositor.View() == Changed(old(compositor.View()), Change.Add(surface.View(), x, y, old(nextZ)))
      ensures w >= 0 ==>
        windows ==
        old(windows)[w := Window(surface, FirstFree(old(compositor.View()).layers), x, y, true, false, false)]
      ensures w >= 0 ==> windows[w].layer == FreeSlot(old(compositor.slots))
      ensures w >= 0 ==> compositor.slots == WithSlot(old(compositor.slots), Slot(surface, x, y, old(nextZ), true))
      ensures w < 0 <==> AllLive(old(windows)) || FreeSlot(old(compositor.slots)) >= LAYER_CAPACITY || !memory
      ensures w < 0 <==> AllLive(old(windows)) || FirstFree(old(compositor.View()).layers) >= LAYER_CAPACITY || !memory
    {
      hide Agree, Alone, Ordered, OneFocus, Changed, Compositor.Valid, Compositor.View, FirstFree;
      Backed(windows, compositor.slots, cursor, 0);
      var index := FindFreeWindow();
      if index == |windows| {
        return -1;
      }
      var z := nextZ;
      ghost var slots := compositor.slots;
      var layer := compositor.AddLayer(surface, x, y, z);
      if layer < 0 {
        if old(InOrder()) && z < AfterZ() {
          LaterZ(windows, slots, z, AfterZ());
        }
        Record(windows, AfterZ(), cursor);
        return -1;
      }
      if !memory {
        var removed := compositor.RemoveLayer(layer);
        SpareKeeps(windows, slots, compositor.slots, cursor, layer, z, z + 1);
        Record(windows, AfterZ(), cursor);
        return -1;
      }
      var entry := Window(surface, layer, x, y, true, false, false);
      CreateKeeps(windows, slots, compositor.slots, cursor, index, entry);
      if old(InOrder()) {
        CreateOrdered(windows, slots, compositor.slots, cursor, index, entry, z);
      }
      UpdateFocus(windows, index, entry);
      Record(windows[index := entry], AfterZ(), cursor);
      return index;
    }

    /** A new window with a surface of its own; `memory` says whether there was room for it, `queue` for its input
        queue. */
    method CreateBuffered(width: nat, height: nat, x: int, y: int, memory: bool, queue: bool) returns (w: int)
      requires Valid()
      modifies this, compositor
      ensures Valid()
      ensures old(OnlyWindows()) ==> OnlyWindows()
      ensures old(InOrder()) && nextZ >= old(nextZ) ==> InOrder()
      ensures cursor == old(cursor)
      ensures nextZ ==
        if Bufferable(width, height) && memory && !AllLive(old(windows)) then old(AfterZ()) else old(nextZ)
      ensures w < 0 ==> windows == old(windows)
      ensures w >= 0 ==> w < WINDOW_CAPACITY && |windows| == WINDOW_CAPACITY
      ensures w >= 0 ==> !old(windows)[w].Live() && forall v :: 0 <= v < w ==> old(windows)[v].Live()
      ensures w >= 0 ==>
        windows[w].surface != null && BlankSurface(windows[w].surface, width, height) && fresh(windows[w].surface)
      ensures w >= 0 ==> windows == old(windows)[w :=
        Window(windows[w].surface, FirstFree(old(compositor.View()).layers), x, y, true, false, true)]
      ensures w >= 0 ==>
        compositor.View() == Changed(old(compositor.View()), Change.Add(windows[w].surface.View(), x, y, old(nextZ)))
      ensures w < 0 <==> !Bufferable(width, height) || !memory || !queue
                         || AllLive(old(windows)) || FirstFree(old(compositor.View()).layers) >= LAYER_CAPACITY
    {
      hide Agree, Alone, Ordered, OneFocus, Changed, Compositor.Valid, Compositor.View, FirstFree, Fits;
      Backed(windows, compositor.slots, cursor, 0);
      if !Bufferable(width, height) || !memory {
        return -1;
      }
      var surface := MakeSurface(width, height);
      w := Create(surface, x, y, queue);
      if w >= 0 {
        Own(w);
      }
    }

    /** The window owns its surface from now on. */
    method Own(w: nat)
      requires Valid() && w < WINDOW_CAPACITY && windows[w].Live()
      modifies this
      ensures Valid() && windows == old(windows)[w := old(windows[w]).(owned := true)]
      ensures nextZ == old(nextZ) && cursor == old(cursor) && compositor.View() == old(compositor.View())
      ensures old(OnlyWindows()) ==> OnlyWindows()
      ensures old(InOrder()) ==> InOrder()
    {
      hide Agree, Alone, Ordered, OneFocus, Compositor.Valid, Compositor.View;
      Backed(windows, compositor.slots, cursor, w);
      var entry := windows[w].(owned := true);
      ghost var slots := compositor.slots;
      assert slots[entry.layer := slots[entry.layer]] == slots;
      UpdateKeeps(windows, slots, cursor, w, entry, slots[entry.layer]);
      if InOrder() {
        UpdateOrdered(windows, slots, cursor, w, entry, slots[entry.layer], nextZ, nextZ);
      }
      UpdateFocus(windows, w, entry);
      Record(windows[w := entry], nextZ, cursor);
    }

    /** The cursor gets its own layer above everything. */
    method SetCursor(surface: Surface, x: int, y: int) returns (ok: bool)
      requires Valid() && compositor.Usable(surface)
      modifies this, compositor
      ensures Valid()
      ensures old(OnlyWindows()) ==> OnlyWindows()
      ensures old(InOrder()) ==> InOrder()
      ensures windows == old(windows) && nextZ == old(nextZ) && (ok <==> cursor >= 0)
      ensures ok ==> compositor.slots[cursor] == Slot(surface, x, y, Z_LIMIT - 1, true)
      ensures old(cursor) < 0 ==> (ok <==> FreeSlot(old(compositor.slots)) < LAYER_CAPACITY)
      ensures ok && old(cursor) < 0 ==>
        && cursor == FreeSlot(old(compositor.slots))
        && compositor.slots == WithSlot(old(compositor.slots), Slot(surface, x, y, Z_LIMIT - 1, true))
    {
      hide Agree, Alone, Ordered, OneFocus, Changed, Compositor.Valid, Compositor.View, FirstFree;
      CursorLive(windows, compositor.slots, cursor);
      if cursor >= 0 {
        ghost var slots := compositor.slots;
        var removed := compositor.RemoveLayer(cursor);
        CursorKeeps(windows, slots, compositor.slots, cursor, -1, cursor, nextZ);
      }
      ghost var slots := compositor.slots;
      var layer := compositor.AddLayer(surface, x, y, Z_LIMIT - 1);
      if layer >= 0 {
        CursorKeeps(windows, slots, compositor.slots, -1, layer, layer, nextZ);
      }
      Record(windows, nextZ, layer);
      return layer >= 0;
    }

    /** The cursor follows the pointer. */
    method MoveCursor(x: int, y: int) returns (ok: bool)
      requires Valid()
      modifies this, compositor
      ensures Valid()
      ensures old(OnlyWindows()) ==> OnlyWindows()
      ensures old(InOrder()) ==> InOrder()
      ensures windows == old(windows) && nextZ == old(nextZ) && cursor == old(cursor) && (ok <==> cursor >= 0)
      ensures ok ==> compositor.slots == old(compositor.slots)[cursor := old(compositor.slots[cursor]).(x := x, y := y)]
    {
      hide Agree, Alone, Ordered, OneFocus, Changed, Compositor.Valid, Compositor.View, FirstFree;
      ok := cursor >= 0;
      if ok {
        ghost var slots := compositor.slots;
        CursorLive(windows, slots, cursor);
        ok := compositor.SetPosition(cursor, x, y);
        CursorKeeps(windows, slots, compositor.slots, cursor, cursor, cursor, nextZ);
      }
    }

    /** A visible window takes the focus and rises above every other. */
    method Focus(w: nat) returns (ok: bool)
      requires Valid()
      modifies this, compositor
      ensures Valid()
      ensures old(OnlyWindows()) ==> OnlyWindows()
      ensures old(InOrder()) && (ok ==> nextZ != 0) ==> InOrder()
      ensures cursor == old(cursor) && nextZ == if ok then old(AfterZ()) else old(nextZ)
      ensures ok <==> w < WINDOW_CAPACITY && old(windows[w]).Live() && old(windows[w]).visible
      ensures windows == if ok then Unfocused(old(windows))[w := old(windows[w]).(focused := true)] else old(windows)
      ensures compositor.View() ==
        if ok then Changed(old(compositor.View()), Change.Restack(old(windows[w]).layer, old(nextZ)))
          else old(compositor.View())
      ensures ok ==> var layer := old(windows[w]).layer;
        && layer < |old(compositor.slots)|
        && compositor.slots == old(compositor.slots)[layer := old(compositor.slots)[layer].(z := old(nextZ))]
    {
      hide Agree, Alone, Ordered, OneFocus, Changed, Compositor.Valid, Compositor.View, FirstFree;
      Backed(windows, compositor.slots, cursor, w);
      ok := w < WINDOW_CAPACITY && windows[w].Live() && windows[w].visible;
      if ok {
        var entry := windows[w].(focused := true);
        ghost var slot := compositor.slots[entry.layer].(z := nextZ);
        UnfocusedKeeps(windows, compositor.slots, cursor, nextZ);
        ghost var bare := Unfocused(windows);
        UpdateKeeps(bare, compositor.slots, cursor, w, entry, slot);
        if InOrder() && AfterZ() != 0 {
          UpdateOrdered(bare, compositor.slots, cursor, w, entry, slot, nextZ, nextZ + 1);
        }
        FocusOnly(windows, w, entry);
        var cleared := ClearFocus();
        ok := compositor.SetZ(windows[w].layer, nextZ);
        Record(cleared[w := entry], AfterZ(), cursor);
      }
    }

    method ClearFocus() returns (ws: seq<Window>)
      requires OneFocus(windows) && compositor.Valid()
      ensures ws == Unfocused(windows) && compositor.View() == old(compositor.View())
    {
      ws := windows;
      var i := 0;
      while i < |windows|
        invariant i <= |windows| == |ws|
        invariant forall j :: 0 <= j < i ==> ws[j] == windows[j].(focused := false)
        invariant forall j :: i <= j < |ws| ==> ws[j] == windows[j]
      {
        if windows[i].Live() {
          ws := ws[i := ws[i].(focused := false)];
        }
        i := i + 1;
      }
    }

    /** The window at a point is the one the screen shows there, cursor aside, as long as heights have not
        run out. */
    method HitTest(x: int, y: int) returns (hit: int)
      requires Valid()
      ensures -1 <= hit < WINDOW_CAPACITY && Backing() && Highest(windows, compositor.slots, |windows|, x, y, hit)
      ensures OnlyWindows() && InOrder() ==>
        Top(Uncursored(compositor.View().layers, cursor), |compositor.slots|, x, y) == if hit < 0 then -1
          else windows[hit].layer
    {
      hide Alone, Ordered, OneFocus, Snapshot, Fits, OnScreen;
      hit := FindHighest(x, y);
      if OnlyWindows() && InOrder() {
        HitIsShown(windows, compositor.slots, compositor.View().layers, cursor, nextZ, x, y, hit);
      }
    }

    ghost predicate Backing()
      reads this, compositor
    {
      forall w :: 0 <= w < |windows| && windows[w].Live() ==> windows[w].layer < |compositor.slots|
    }

    method FindHighest(x: int, y: int) returns (hit: int)
      requires Valid()
      ensures -1 <= hit < WINDOW_CAPACITY && Backing() && Highest(windows, compositor.slots, |windows|, x, y, hit)
    {
      hide Alone, Ordered, OneFocus, Compositor.Valid, Compositor.View, Matches;
      assert Backing();
      hit := -1;
      var highestZ, w := 0, 0;
      while w < WINDOW_CAPACITY
        invariant 0 <= w <= WINDOW_CAPACITY && -1 <= hit < w
        invariant Highest(windows, compositor.slots, w, x, y, hit)
        invariant hit >= 0 ==> highestZ == compositor.slots[windows[hit].layer].z
      {
        var entry := windows[w];
        if entry.surface != null && entry.visible {
          if !(x < entry.x || y < entry.y || x >= entry.x + entry.surface.width
               || y >= entry.y + entry.surface.height) {
            var z := compositor.slots[entry.layer].z;
            if hit < 0 || z >= highestZ {
              hit, highestZ := w, z;
            }
          }
        }
        w := w + 1;
      }
    }
  }
}
