/**
 * The window-manager hook: the state transitions behind focusApp, closeApp,
 * toggleMinimizeApp, toggleMaximizeApp and the three update operations, the
 * invariant they keep, and the `Manager` class whose three fields are the
 * hook's state cells.
 */
module WindowManager {
  import opened Wrappers
  import opened Types
  import opened WindowList

  /** `useState<number>(10)` */
  const INITIAL_Z_INDEX: int := 10

  function Init(): State {
    State([], None, INITIAL_Z_INDEX)
  }

  /** A window whose stacking is behind the counter and that can be restored from a saved geometry. */
  predicate WellStacked(w: Window, counter: int) {
    w.zIndex <= counter &&
    (w.isMaximized ==> w.previousPosition.Some? && w.previousSize.Some?)
  }

  /**
   * What every operation keeps: the counter has not gone below its start,
   * no window is stacked above it, instance ids are unique, and a maximized
   * window remembers where it came from.
   */
  ghost predicate Invariant(s: State) {
    s.nextZIndex >= INITIAL_Z_INDEX &&
    (forall i :: 0 <= i < |s.openApps| ==> WellStacked(s.openApps[i], s.nextZIndex)) &&
    UniqueInstanceIds(s.openApps)
  }

  lemma InitInvariant()
    ensures Invariant(Init())
  {
  }

  /** Bump the counter, give the windows with that instance id the new zIndex un-minimized, and make it active. */
  function BringToFront(s: State, id: string): State {
    var z := s.nextZIndex + 1;
    State(MapMatching(s.openApps, id, Raise(z)), Some(id), z)
  }

  /** focusApp: nothing happens when the instance is already active. */
  function Focus(s: State, id: string): State {
    if s.activeAppInstanceId == Some(id) then s else BringToFront(s, id)
  }

  /**
   * closeApp: drop the windows with that instance id; if it was active, the
   * last remaining window (or none) becomes active.
   */
  function Close(s: State, id: string): State {
    var remaining := RemoveMatching(s.openApps, id);
    var active :=
      if s.activeAppInstanceId == Some(id) then
        if |remaining| > 0 then Some(remaining[|remaining| - 1].instanceId) else None
      else s.activeAppInstanceId;
    State(remaining, active, s.nextZIndex)
  }

  /**
   * toggleMinimizeApp: flip the flag; un-minimizing focuses the window,
   * minimizing the active window clears the active id.
   */
  function ToggleMinimize(s: State, id: string): State {
    match FindIndex(s.openApps, Instance(id))
    case None => s
    case Some(k) =>
      var flipped := s.(openApps := MapMatching(s.openApps, id, FlipMinimized));
      if s.openApps[k].isMinimized then Focus(flipped, id)
      else if s.activeAppInstanceId == Some(id) then flipped.(activeAppInstanceId := None)
      else flipped
  }

  /** Some window with that instance id is about to be maximized. */
  predicate MaximizesAny(ws: seq<Window>, id: string) {
    exists k :: 0 <= k < |ws| && ws[k].instanceId == id && !ws[k].isMaximized
  }

  predicate MaximizeDefined(s: State, id: string, desktop: Size) {
    Editable(s.openApps, id, ToggleMaximized(s.nextZIndex + 1, desktop, CountVisible(s.openApps)))
  }

  /**
   * toggleMaximizeApp: each window with that instance id is maximized or
   * restored; a maximization also bumps the counter and sets the active id.
   */
  function ToggleMaximize(s: State, id: string, desktop: Size): State
    requires MaximizeDefined(s, id, desktop)
  {
    var z := s.nextZIndex + 1;
    var ws := MapMatching(s.openApps, id, ToggleMaximized(z, desktop, CountVisible(s.openApps)));
    if MaximizesAny(s.openApps, id) then State(ws, Some(id), z) else s.(openApps := ws)
  }

  function UpdatePosition(s: State, id: string, p: Point): State {
    s.(openApps := MapMatching(s.openApps, id, MoveTo(p)))
  }

  function UpdateSize(s: State, id: string, size: Size): State {
    s.(openApps := MapMatching(s.openApps, id, ResizeTo(size)))
  }

  function UpdateTitle(s: State, id: string, title: string): State {
    s.(openApps := MapMatching(s.openApps, id, Retitle(title)))
  }

  // ---------------------------------------------------------------- focus

  /** Focusing the active instance changes nothing, so focusing twice is focusing once. */
  lemma FocusIdempotent(s: State, id: string)
    ensures s.activeAppInstanceId == Some(id) ==> Focus(s, id) == s
    ensures Focus(Focus(s, id), id) == Focus(s, id)
  {
  }

  /**
   * Focusing another instance bumps the counter by one, raises and
   * un-minimizes exactly the windows with that id, and keeps the list's
   * length and order.
   */
  lemma FocusRaises(s: State, id: string)
    requires s.activeAppInstanceId != Some(id)
    ensures var r := Focus(s, id);
      r.nextZIndex == s.nextZIndex + 1 &&
      r.activeAppInstanceId == Some(id) &&
      |r.openApps| == |s.openApps| &&
      (forall i :: 0 <= i < |s.openApps| && s.openApps[i].instanceId == id ==>
        r.openApps[i] == s.openApps[i].(zIndex := r.nextZIndex, isMinimized := false)) &&
      (forall i :: 0 <= i < |s.openApps| && s.openApps[i].instanceId != id ==>
        r.openApps[i] == s.openApps[i])
  {
  }

  lemma BringToFrontKeepsInvariant(s: State, id: string)
    requires Invariant(s)
    ensures Invariant(BringToFront(s, id))
  {
    MapMatchingKeepsIds(s.openApps, id, Raise(s.nextZIndex + 1));
  }

  lemma FocusKeepsInvariant(s: State, id: string)
    requires Invariant(s)
    ensures Invariant(Focus(s, id))
    ensures Focus(s, id).nextZIndex in {s.nextZIndex, s.nextZIndex + 1}
  {
    BringToFrontKeepsInvariant(s, id);
  }

  // ---------------------------------------------------------------- close

  /**
   * Closing keeps exactly the windows with another instance id, never
   * touches the counter, and moves the active id to the last remaining
   * window only when the closed one was active.
   */
  lemma CloseSpec(s: State, id: string)
    ensures var r := Close(s, id);
      (forall w :: w in r.openApps <==> w in s.openApps && w.instanceId != id) &&
      r.nextZIndex == s.nextZIndex &&
      (s.activeAppInstanceId != Some(id) ==> r.activeAppInstanceId == s.activeAppInstanceId) &&
      (s.activeAppInstanceId == Some(id) && r.openApps == [] ==> r.activeAppInstanceId == None) &&
      (s.activeAppInstanceId == Some(id) && r.openApps != [] ==>
        r.activeAppInstanceId == Some(r.openApps[|r.openApps| - 1].instanceId))
  {
  }

  /** With unique ids, closing an open instance removes one window and leaves no window with that id. */
  lemma CloseRemovesOne(s: State, id: string)
    requires UniqueInstanceIds(s.openApps)
    requires !Absent(s.openApps, id)
    ensures |Close(s, id).openApps| == |s.openApps| - 1
    ensures Absent(Close(s, id).openApps, id)
  {
    RemoveMatchingOne(s.openApps, id);
    var r := Close(s, id).openApps;
    forall i | 0 <= i < |r| ensures r[i].instanceId != id {
      assert r[i] in r;
    }
  }

  /** Closing an instance that is not open changes nothing. */
  lemma CloseAbsent(s: State, id: string)
    requires Absent(s.openApps, id)
    requires s.activeAppInstanceId != Some(id)
    ensures Close(s, id) == s
  {
    RemoveMatchingAbsent(s.openApps, id);
  }

  lemma CloseKeepsInvariant(s: State, id: string)
    requires Invariant(s)
    ensures Invariant(Close(s, id))
  {
    var r := Close(s, id).openApps;
    RemoveMatchingUnique(s.openApps, id);
    forall i | 0 <= i < |r| ensures WellStacked(r[i], s.nextZIndex) {
      assert r[i] in r;
      var j :| 0 <= j < |s.openApps| && s.openApps[j] == r[i];
    }
  }

  // ---------------------------------------------------------------- minimize

  lemma ToggleMinimizeUnknown(s: State, id: string)
    requires Absent(s.openApps, id)
    ensures ToggleMinimize(s, id) == s
  {
  }

  /**
   * Toggling a visible window minimizes exactly that window; it stops being
   * the active one if it was, and the counter stays.
   */
  lemma ToggleMinimizeHides(s: State, id: string, k: nat)
    requires UniqueInstanceIds(s.openApps)
    requires k < |s.openApps| && s.openApps[k].instanceId == id
    requires !s.openApps[k].isMinimized
    ensures s.activeAppInstanceId == Some(id) ==>
      ToggleMinimize(s, id) == State(s.openApps[k := s.openApps[k].(isMinimized := true)], None, s.nextZIndex)
    ensures s.activeAppInstanceId != Some(id) ==>
      ToggleMinimize(s, id) == s.(openApps := s.openApps[k := s.openApps[k].(isMinimized := true)])
  {
    var f := FindIndex(s.openApps, Instance(id));
    assert f == Some(k);
    MapMatchingOne(s.openApps, id, FlipMinimized, k);
  }

  /**
   * Toggling a minimized window shows it again and focuses it: unless it was
   * already the active one it is also raised on top with a fresh counter value.
   */
  lemma ToggleMinimizeRestores(s: State, id: string, k: nat)
    requires UniqueInstanceIds(s.openApps)
    requires k < |s.openApps| && s.openApps[k].instanceId == id
    requires s.openApps[k].isMinimized
    ensures s.activeAppInstanceId == Some(id) ==>
      ToggleMinimize(s, id) == s.(openApps := s.openApps[k := s.openApps[k].(isMinimized := false)])
    ensures s.activeAppInstanceId != Some(id) ==>
      ToggleMinimize(s, id) ==
        State(s.openApps[k := s.openApps[k].(isMinimized := false, zIndex := s.nextZIndex + 1)],
              Some(id), s.nextZIndex + 1)
  {
    var ws := s.openApps;
    var flipped := ws[k := ws[k].(isMinimized := false)];
    ToggleMinimizeFlips(s, id, k);
    if s.activeAppInstanceId != Some(id) {
      RaiseRestored(s, id, k);
    }
  }

  /** Restoring a minimized window first flips it, then focuses the result. */
  lemma ToggleMinimizeFlips(s: State, id: string, k: nat)
    requires UniqueInstanceIds(s.openApps)
    requires k < |s.openApps| && s.openApps[k].instanceId == id
    requires s.openApps[k].isMinimized
    ensures ToggleMinimize(s, id) == Focus(s.(openApps := s.openApps[k := s.openApps[k].(isMinimized := false)]), id)
  {
    var f := FindIndex(s.openApps, Instance(id));
    assert f == Some(k);
    MapMatchingOne(s.openApps, id, FlipMinimized, k);
  }

  lemma RaiseRestored(s: State, id: string, k: nat)
    requires UniqueInstanceIds(s.openApps)
    requires k < |s.openApps| && s.openApps[k].instanceId == id
    ensures var ws := s.openApps; var z := s.nextZIndex + 1;
      BringToFront(s.(openApps := ws[k := ws[k].(isMinimized := false)]), id) ==
        State(ws[k := ws[k].(isMinimized := false, zIndex := z)], Some(id), z)
  {
    var ws := s.openApps;
    var z := s.nextZIndex + 1;
    var flipped := ws[k := ws[k].(isMinimized := false)];
    assert UniqueInstanceIds(flipped) by {
      assert forall i :: 0 <= i < |ws| ==> flipped[i].instanceId == ws[i].instanceId;
    }
    MapMatchingOne(flipped, id, Raise(z), k);
    assert flipped[k := Apply(Raise(z), flipped[k])] == ws[k := ws[k].(isMinimized := false, zIndex := z)];
  }

  /** Minimizing the active window and restoring it gives it back, raised on top with the next counter value. */
  lemma ToggleMinimizeTwice(s: State, id: string, k: nat)
    requires UniqueInstanceIds(s.openApps)
    requires k < |s.openApps| && s.openApps[k].instanceId == id
    requires !s.openApps[k].isMinimized
    requires s.activeAppInstanceId == Some(id)
    ensures ToggleMinimize(ToggleMinimize(s, id), id) ==
      State(s.openApps[k := s.openApps[k].(zIndex := s.nextZIndex + 1)], Some(id), s.nextZIndex + 1)
  {
    ToggleMinimizeHides(s, id, k);
    RestoreHidden(s.openApps, id, k, s.nextZIndex);
  }

  lemma RestoreHidden(ws: seq<Window>, id: string, k: nat, counter: int)
    requires UniqueInstanceIds(ws)
    requires k < |ws| && ws[k].instanceId == id
    requires !ws[k].isMinimized
    ensures ToggleMinimize(State(ws[k := ws[k].(isMinimized := true)], None, counter), id) ==
      State(ws[k := ws[k].(zIndex := counter + 1)], Some(id), counter + 1)
  {
    var hidden := ws[k := ws[k].(isMinimized := true)];
    assert UniqueInstanceIds(hidden) by {
      assert forall i :: 0 <= i < |ws| ==> hidden[i].instanceId == ws[i].instanceId;
    }
    ToggleMinimizeRestores(State(hidden, None, counter), id, k);
    assert hidden[k].(isMinimized := false, zIndex := counter + 1) == ws[k].(zIndex := counter + 1);
    assert hidden[k := hidden[k].(isMinimized := false, zIndex := counter + 1)] == ws[k := ws[k].(zIndex := counter + 1)];
  }

  lemma ToggleMinimizeKeepsInvariant(s: State, id: string)
    requires Invariant(s)
    ensures Invariant(ToggleMinimize(s, id))
    ensures ToggleMinimize(s, id).nextZIndex in {s.nextZIndex, s.nextZIndex + 1}
  {
    if FindIndex(s.openApps, Instance(id)).Some? {
      MapMatchingKeepsIds(s.openApps, id, FlipMinimized);
      var flipped := s.(openApps := MapMatching(s.openApps, id, FlipMinimized));
      assert Invariant(flipped);
      FocusKeepsInvariant(flipped, id);
    }
  }

  // ---------------------------------------------------------------- maximize

  /** Under the invariant every maximized window has a saved position, so the placement fallback is never needed. */
  lemma InvariantEnablesMaximize(s: State, id: string, desktop: Size)
    requires Invariant(s)
    ensures MaximizeDefined(s, id, desktop)
  {
    forall i | 0 <= i < |s.openApps| && s.openApps[i].instanceId == id
      ensures EditDefined(ToggleMaximized(s.nextZIndex + 1, desktop, CountVisible(s.openApps)), s.openApps[i])
    {
      assert WellStacked(s.openApps[i], s.nextZIndex);
    }
  }

  /**
   * Maximizing window k saves its geometry, covers the desktop from the
   * origin, stacks it on a counter bumped by one and makes it active.
   */
  lemma MaximizeSpec(s: State, id: string, desktop: Size, k: nat)
    requires UniqueInstanceIds(s.openApps)
    requires k < |s.openApps| && s.openApps[k].instanceId == id && !s.openApps[k].isMaximized
    ensures MaximizeDefined(s, id, desktop)
    ensures var r := ToggleMaximize(s, id, desktop); var w := s.openApps[k];
      |r.openApps| == |s.openApps| &&
      r.openApps[k] == w.(isMaximized := true, previousPosition := Some(w.position),
                           previousSize := Some(w.size), position := Point(0, 0),
                           size := desktop, zIndex := s.nextZIndex + 1) &&
      r.nextZIndex == s.nextZIndex + 1 &&
      r.activeAppInstanceId == Some(id) &&
      (forall i :: 0 <= i < |s.openApps| && i != k ==> r.openApps[i] == s.openApps[i])
  {
    assert MaximizesAny(s.openApps, id);
  }

  /**
   * Toggling maximize twice gives window k back its exact position and size,
   * un-maximized; the second toggle touches neither its zIndex, the counter
   * nor the active id.
   */
  lemma MaximizeRestoreRoundTrip(s: State, id: string, desktop: Size, k: nat)
    requires UniqueInstanceIds(s.openApps)
    requires k < |s.openApps| && s.openApps[k].instanceId == id && !s.openApps[k].isMaximized
    ensures MaximizeDefined(s, id, desktop)
    ensures var m := ToggleMaximize(s, id, desktop);
      MaximizeDefined(m, id, desktop) &&
      var r := ToggleMaximize(m, id, desktop);
      r.openApps[k].position == s.openApps[k].position &&
      r.openApps[k].size == s.openApps[k].size &&
      !r.openApps[k].isMaximized &&
      r.openApps[k].zIndex == m.openApps[k].zIndex &&
      r.nextZIndex == m.nextZIndex &&
      r.activeAppInstanceId == m.activeAppInstanceId &&
      (forall i :: 0 <= i < |s.openApps| && i != k ==> r.openApps[i] == s.openApps[i])
  {
    MaximizeSpec(s, id, desktop, k);
    var m := ToggleMaximize(s, id, desktop);
    assert !MaximizesAny(m.openApps, id) by {
      forall j | 0 <= j < |m.openApps| && m.openApps[j].instanceId == id
        ensures m.openApps[j].isMaximized
      {
        assert j == k;
      }
    }
  }

  lemma ToggleMaximizeKeepsInvariant(s: State, id: string, desktop: Size)
    requires Invariant(s)
    ensures MaximizeDefined(s, id, desktop)
    ensures Invariant(ToggleMaximize(s, id, desktop))
    ensures ToggleMaximize(s, id, desktop).nextZIndex in {s.nextZIndex, s.nextZIndex + 1}
  {
    InvariantEnablesMaximize(s, id, desktop);
    var e := ToggleMaximized(s.nextZIndex + 1, desktop, CountVisible(s.openApps));
    MapMatchingKeepsIds(s.openApps, id, e);
    var r := ToggleMaximize(s, id, desktop);
    forall i | 0 <= i < |r.openApps| ensures WellStacked(r.openApps[i], r.nextZIndex) {
      assert WellStacked(s.openApps[i], s.nextZIndex);
      if s.openApps[i].instanceId == id && !s.openApps[i].isMaximized {
        assert MaximizesAny(s.openApps, id);
      }
    }
  }

  // ---------------------------------------------------------------- updates

  /** updateAppPosition replaces the position of the matching windows and nothing else. */
  lemma UpdatePositionSpec(s: State, id: string, p: Point)
    ensures var r := UpdatePosition(s, id, p);
      r.activeAppInstanceId == s.activeAppInstanceId && r.nextZIndex == s.nextZIndex &&
      |r.openApps| == |s.openApps| &&
      (forall i :: 0 <= i < |s.openApps| ==>
        r.openApps[i] == if s.openApps[i].instanceId == id then s.openApps[i].(position := p) else s.openApps[i])
    ensures Absent(s.openApps, id) ==> UpdatePosition(s, id, p) == s
  {
    if Absent(s.openApps, id) {
      MapMatchingAbsent(s.openApps, id, MoveTo(p));
    }
  }

  /** updateAppSize replaces the size of the matching windows and nothing else. */
  lemma UpdateSizeSpec(s: State, id: string, size: Size)
    ensures var r := UpdateSize(s, id, size);
      r.activeAppInstanceId == s.activeAppInstanceId && r.nextZIndex == s.nextZIndex &&
      |r.openApps| == |s.openApps| &&
      (forall i :: 0 <= i < |s.openApps| ==>
        r.openApps[i] == if s.openApps[i].instanceId == id then s.openApps[i].(size := size) else s.openApps[i])
    ensures Absent(s.openApps, id) ==> UpdateSize(s, id, size) == s
  {
    if Absent(s.openApps, id) {
      MapMatchingAbsent(s.openApps, id, ResizeTo(size));
    }
  }

  /** updateAppTitle replaces the title of the matching windows and nothing else. */
  lemma UpdateTitleSpec(s: State, id: string, title: string)
    ensures var r := UpdateTitle(s, id, title);
      r.activeAppInstanceId == s.activeAppInstanceId && r.nextZIndex == s.nextZIndex &&
      |r.openApps| == |s.openApps| &&
      (forall i :: 0 <= i < |s.openApps| ==>
        r.openApps[i] == if s.openApps[i].instanceId == id then s.openApps[i].(title := title) else s.openApps[i])
    ensures Absent(s.openApps, id) ==> UpdateTitle(s, id, title) == s
  {
    if Absent(s.openApps, id) {
      MapMatchingAbsent(s.openApps, id, Retitle(title));
    }
  }

  lemma UpdatePositionKeepsInvariant(s: State, id: string, p: Point)
    requires Invariant(s)
    ensures Invariant(UpdatePosition(s, id, p))
  {
    MapMatchingKeepsIds(s.openApps, id, MoveTo(p));
  }

  lemma UpdateSizeKeepsInvariant(s: State, id: string, size: Size)
    requires Invariant(s)
    ensures Invariant(UpdateSize(s, id, size))
  {
    MapMatchingKeepsIds(s.openApps, id, ResizeTo(size));
  }

  lemma UpdateTitleKeepsInvariant(s: State, id: string, title: string)
    requires Invariant(s)
    ensures Invariant(UpdateTitle(s, id, title))
  {
    MapMatchingKeepsIds(s.openApps, id, Retitle(title));
  }

  lemma MaximizesAnyStep(ws: seq<Window>, id: string, i: nat)
    requires i < |ws|
    ensures MaximizesAny(ws[..i + 1], id) <==>
      MaximizesAny(ws[..i], id) || (ws[i].instanceId == id && !ws[i].isMaximized)
  {
    assert ws[..i + 1][i] == ws[i];
    if MaximizesAny(ws[..i + 1], id) {
      var k :| 0 <= k < i + 1 && ws[..i + 1][k].instanceId == id && !ws[..i + 1][k].isMaximized;
      if k < i {
        assert ws[..i][k] == ws[k];
      }
    }
    if MaximizesAny(ws[..i], id) {
      var k :| 0 <= k < i && ws[..i][k].instanceId == id && !ws[..i][k].isMaximized;
      assert ws[..i + 1][k] == ws[k];
    }
  }

  lemma MapMatchingStep(ws: seq<Window>, id: string, e: Edit, i: nat)
    requires i < |ws|
    requires Editable(ws, id, e)
    ensures Editable(ws[..i], id, e) && Editable(ws[..i + 1], id, e)
    ensures MapMatching(ws[..i + 1], id, e) ==
      MapMatching(ws[..i], id, e) + [if ws[i].instanceId == id then Apply(e, ws[i]) else ws[i]]
  {
    assert ws[..i + 1] == ws[..i] + [ws[i]];
    assert Editable(ws[..i], id, e) by {
      forall j | 0 <= j < i && ws[..i][j].instanceId == id ensures EditDefined(e, ws[..i][j]) {
        assert ws[..i][j] == ws[j];
      }
    }
    MapMatchingSnoc(ws[..i], ws[i], id, e);
  }

  /**
   * The updater toggleMaximizeApp hands to `setOpenApps`: it maps over the
   * windows and, for each one it maximizes, calls the counter and active-id
   * setters. Returns the new list and the last values passed to the setters.
   */
  method ToggleMaximizeUpdater(prev: seq<Window>, instanceId: string, desktop: Size, nextZIndex: int, activeId: Option<string>)
    returns (next: seq<Window>, z: int, active: Option<string>)
    requires MaximizeDefined(State(prev, activeId, nextZIndex), instanceId, desktop)
    ensures State(next, active, z) == ToggleMaximize(State(prev, activeId, nextZIndex), instanceId, desktop)
  {
    var newZ := nextZIndex + 1;
    var edit := ToggleMaximized(newZ, desktop, CountVisible(prev));
    z, active := nextZIndex, activeId;
    next := [];
    var i := 0;
    while i < |prev|
      invariant 0 <= i <= |prev|
      invariant Editable(prev[..i], instanceId, edit)
      invariant next == MapMatching(prev[..i], instanceId, edit)
      invariant z == (if MaximizesAny(prev[..i], instanceId) then newZ else nextZIndex)
      invariant active == (if MaximizesAny(prev[..i], instanceId) then Some(instanceId) else activeId)
    {
      var app := prev[i];
      MaximizesAnyStep(prev, instanceId, i);
      MapMatchingStep(prev, instanceId, edit, i);
      if app.instanceId == instanceId {
        if !app.isMaximized {
          z := newZ;
          active := Some(instanceId);
        }
        app := Apply(edit, app);
      }
      next := next + [app];
      i := i + 1;
    }
    assert prev[..i] == prev;
  }

  // ---------------------------------------------------------------- the hook's state

  /** The hook's three state cells; each operation is one sequential transition of them. */
  class Manager {
    var openApps: seq<Window>
    var activeAppInstanceId: Option<string>
    var nextZIndex: int

    function Model(): State
      reads this
    {
      State(openApps, activeAppInstanceId, nextZIndex)
    }

    constructor ()
      ensures Model() == Init() && Invariant(Model())
    {
      openApps := [];
      activeAppInstanceId := None;
      nextZIndex := INITIAL_Z_INDEX;
    }

    method FocusApp(instanceId: string)
      modifies this
      ensures Model() == Focus(old(Model()), instanceId)
      ensures old(Invariant(Model())) ==> Invariant(Model())
    {
      if activeAppInstanceId == Some(instanceId) {
        return;
      }
      BringAppToFront(instanceId);
    }

    /**
     * The three setter calls shared by focusApp and the launchers' reuse
     * paths: bump the counter, raise and un-minimize the instance, activate it.
     */
    method BringAppToFront(instanceId: string)
      modifies this
      ensures Model() == BringToFront(old(Model()), instanceId)
      ensures old(Invariant(Model())) ==> Invariant(Model())
    {
      ghost var s := Model();
      var newZIndex := nextZIndex + 1;
      nextZIndex := newZIndex;
      openApps := MapMatching(openApps, instanceId, Raise(newZIndex));
      activeAppInstanceId := Some(instanceId);
      if Invariant(s) {
        BringToFrontKeepsInvariant(s, instanceId);
      }
    }

    method CloseApp(instanceId: string)
      modifies this
      ensures Model() == Close(old(Model()), instanceId)
      ensures old(Invariant(Model())) ==> Invariant(Model())
    {
      ghost var s := Model();
      var remainingApps := RemoveMatching(openApps, instanceId);
      openApps := remainingApps;
      if activeAppInstanceId == Some(instanceId) {
        activeAppInstanceId :=
          if |remainingApps| > 0 then Some(remainingApps[|remainingApps| - 1].instanceId) else None;
      }
      if Invariant(s) {
        CloseKeepsInvariant(s, instanceId);
      }
    }

    method ToggleMinimizeApp(instanceId: string)
      modifies this
      ensures Model() == ToggleMinimize(old(Model()), instanceId)
      ensures old(Invariant(Model())) ==> Invariant(Model())
    {
      ghost var s := Model();
      var found := FindIndex(openApps, Instance(instanceId));
      if found.None? {
        return;
      }
      var app := openApps[found.value];
      openApps := MapMatching(openApps, instanceId, FlipMinimized);
      if app.isMinimized {
        FocusApp(instanceId);
      } else if activeAppInstanceId == Some(instanceId) {
        activeAppInstanceId := None;
      }
      if Invariant(s) {
        ToggleMinimizeKeepsInvariant(s, instanceId);
      }
    }

    method ToggleMaximizeApp(instanceId: string, desktop: Size)
      requires MaximizeDefined(Model(), instanceId, desktop)
      modifies this
      ensures Model() == ToggleMaximize(old(Model()), instanceId, desktop)
      ensures old(Invariant(Model())) ==> Invariant(Model())
    {
      ghost var s := Model();
      openApps, nextZIndex, activeAppInstanceId :=
        ToggleMaximizeUpdater(openApps, instanceId, desktop, nextZIndex, activeAppInstanceId);
      if Invariant(s) {
        ToggleMaximizeKeepsInvariant(s, instanceId, desktop);
      }
    }

    method UpdateAppPosition(instanceId: string, position: Point)
      modifies this
      ensures Model() == UpdatePosition(old(Model()), instanceId, position)
      ensures old(Invariant(Model())) ==> Invariant(Model())
    {
      ghost var s := Model();
      openApps := MapMatching(openApps, instanceId, MoveTo(position));
      if Invariant(s) {
        UpdatePositionKeepsInvariant(s, instanceId, position);
      }
    }

    method UpdateAppSize(instanceId: string, size: Size)
      modifies this
      ensures Model() == UpdateSize(old(Model()), instanceId, size)
      ensures old(Invariant(Model())) ==> Invariant(Model())
    {
      ghost var s := Model();
      openApps := MapMatching(openApps, instanceId, ResizeTo(size));
      if Invariant(s) {
        UpdateSizeKeepsInvariant(s, instanceId, size);
      }
    }

    method UpdateAppTitle(instanceId: string, title: string)
      modifies this
      ensures Model() == UpdateTitle(old(Model()), instanceId, title)
      ensures old(Invariant(Model())) ==> Invariant(Model())
    {
      ghost var s := Model();
      openApps := MapMatching(openApps, instanceId, Retitle(title));
      if Invariant(s) {
        UpdateTitleKeepsInvariant(s, instanceId, title);
      }
    }
  }
}
