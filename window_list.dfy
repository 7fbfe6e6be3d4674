/**
 * The list expressions the window manager and the launchers are built from:
 * `find` over the open windows, the `map` that rewrites the windows with one
 * instance id, the `filter` that drops them, and the count of windows that
 * are not minimized.
 */
module WindowList {
  import opened Wrappers
  import opened Types
  import opened Placement

  /** The three predicates the source passes to `find`. */
  datatype Query =
    | Instance(instanceId: string)
    | VisibleOf(appId: string)
    | MinimizedOf(appId: string)

  predicate Matches(q: Query, w: Window) {
    match q
    case Instance(id) => w.instanceId == id
    case VisibleOf(appId) => w.definition.id == appId && !w.isMinimized
    case MinimizedOf(appId) => w.definition.id == appId && w.isMinimized
  }

  /** `Array.prototype.find`, as the index of the first window that matches. */
  function FindIndex(ws: seq<Window>, q: Query): (r: Option<nat>)
    ensures r.Some? ==> r.value < |ws| && Matches(q, ws[r.value])
    ensures r.Some? ==> forall j :: 0 <= j < r.value ==> !Matches(q, ws[j])
    ensures r.None? <==> forall j :: 0 <= j < |ws| ==> !Matches(q, ws[j])
  {
    if ws == [] then None
    else if Matches(q, ws[0]) then Some(0)
    else match FindIndex(ws[1..], q)
      case None => None
      case Some(k) => Some(k + 1)
  }

  /** No open window carries instance id `id`. */
  predicate Absent(ws: seq<Window>, id: string) {
    forall i :: 0 <= i < |ws| ==> ws[i].instanceId != id
  }

  ghost predicate UniqueInstanceIds(ws: seq<Window>) {
    forall i, j :: 0 <= i < j < |ws| ==> ws[i].instanceId != ws[j].instanceId
  }

  /** The per-window rewrites the source spreads over a matching window. */
  datatype Edit =
    | Raise(z: int)                                       // {...app, zIndex: z, isMinimized: false}
    | FlipMinimized                                       // {...a, isMinimized: !a.isMinimized}
    | ToggleMaximized(z: int, desktop: Size, visible: nat) // toggleMaximizeApp's callback
    | MoveTo(position: Point)
    | ResizeTo(size: Size)
    | Retitle(title: string)

  /** `app.previousSize?.width || app.size.width` */
  function RestoreWidth(w: Window): int {
    if w.previousSize.Some? && w.previousSize.value.width != 0 then w.previousSize.value.width
    else w.size.width
  }

  /** `app.previousSize?.height || app.size.height` */
  function RestoreHeight(w: Window): int {
    if w.previousSize.Some? && w.previousSize.value.height != 0 then w.previousSize.value.height
    else w.size.height
  }

  /** Restoring a maximized window falls back to the placement only when no position was saved. */
  predicate EditDefined(e: Edit, w: Window) {
    e.ToggleMaximized? && w.isMaximized && w.previousPosition.None? ==>
      PlacementDefined(e.desktop, RestoreWidth(w), RestoreHeight(w))
  }

  function Apply(e: Edit, w: Window): (r: Window)
    requires EditDefined(e, w)
    ensures r.instanceId == w.instanceId && r.definition == w.definition
  {
    match e
    case Raise(z) => w.(zIndex := z, isMinimized := false)
    case FlipMinimized => w.(isMinimized := !w.isMinimized)
    case ToggleMaximized(z, desktop, visible) =>
      if w.isMaximized then
        w.(isMaximized := false,
           position :=
             if w.previousPosition.Some? then w.previousPosition.value
             else NextPosition(desktop, visible, RestoreWidth(w), RestoreHeight(w)),
           size := w.previousSize.GetOr(w.size))
      else
        w.(isMaximized := true,
           previousPosition := Some(w.position),
           previousSize := Some(w.size),
           position := Point(0, 0),
           size := desktop,
           zIndex := z)
    case MoveTo(p) => w.(position := p)
    case ResizeTo(s) => w.(size := s)
    case Retitle(t) => w.(title := t)
  }

  /** Every window with instance id `id` can take the edit. */
  predicate Editable(ws: seq<Window>, id: string, e: Edit) {
    forall i :: 0 <= i < |ws| && ws[i].instanceId == id ==> EditDefined(e, ws[i])
  }

  /** Only restoring a maximized window can need the placement. */
  lemma EditableUnlessToggleMaximized(ws: seq<Window>, id: string, e: Edit)
    requires !e.ToggleMaximized?
    ensures Editable(ws, id, e)
  {
  }

  /**
   * `ws.map(app => app.instanceId === id ? edit(app) : app)`: same length,
   * each window with that instance id edited, every other window as it was.
   */
  function MapMatching(ws: seq<Window>, id: string, e: Edit): (r: seq<Window>)
    requires Editable(ws, id, e)
    ensures |r| == |ws|
    ensures forall i :: 0 <= i < |ws| && ws[i].instanceId == id ==> r[i] == Apply(e, ws[i])
    ensures forall i :: 0 <= i < |ws| && ws[i].instanceId != id ==> r[i] == ws[i]
  {
    if ws == [] then []
    else [if ws[0].instanceId == id then Apply(e, ws[0]) else ws[0]] + MapMatching(ws[1..], id, e)
  }

  /**
   * The map works window by window: mapping a list with one more window
   * maps the list and then that window.
   */
  lemma MapMatchingSnoc(ws: seq<Window>, w: Window, id: string, e: Edit)
    requires Editable(ws, id, e)
    requires w.instanceId == id ==> EditDefined(e, w)
    ensures Editable(ws + [w], id, e)
    ensures MapMatching(ws + [w], id, e) ==
      MapMatching(ws, id, e) + [if w.instanceId == id then Apply(e, w) else w]
  {
    var whole := ws + [w];
    assert Editable(whole, id, e) by {
      forall i | 0 <= i < |whole| && whole[i].instanceId == id ensures EditDefined(e, whole[i]) {
        if i < |ws| { assert whole[i] == ws[i]; }
      }
    }
    var mapped := MapMatching(whole, id, e);
    var prefix := MapMatching(ws, id, e);
    forall i | 0 <= i < |ws| ensures mapped[i] == prefix[i] {
      assert whole[i] == ws[i];
    }
    assert whole[|ws|] == w;
  }

  /** With no window of that instance id the map is the identity. */
  lemma MapMatchingAbsent(ws: seq<Window>, id: string, e: Edit)
    requires Absent(ws, id)
    ensures MapMatching(ws, id, e) == ws
  {
  }

  /** With unique instance ids the map edits exactly the one window that has the id. */
  lemma MapMatchingOne(ws: seq<Window>, id: string, e: Edit, k: nat)
    requires UniqueInstanceIds(ws)
    requires k < |ws| && ws[k].instanceId == id
    requires Editable(ws, id, e)
    ensures MapMatching(ws, id, e) == ws[k := Apply(e, ws[k])]
  {
    var r := MapMatching(ws, id, e);
    forall i | 0 <= i < |ws| && i != k ensures r[i] == ws[i] {
      assert ws[i].instanceId != id;
    }
  }

  /** The map never changes instance ids, so it keeps them unique. */
  lemma MapMatchingKeepsIds(ws: seq<Window>, id: string, e: Edit)
    requires Editable(ws, id, e)
    ensures forall i :: 0 <= i < |ws| ==> MapMatching(ws, id, e)[i].instanceId == ws[i].instanceId
    ensures forall x :: Absent(ws, x) ==> Absent(MapMatching(ws, id, e), x)
    ensures UniqueInstanceIds(ws) ==> UniqueInstanceIds(MapMatching(ws, id, e))
  {
  }

  /**
   * `ws.filter(app => app.instanceId !== id)`: exactly the windows with
   * another instance id survive.
   */
  function RemoveMatching(ws: seq<Window>, id: string): (r: seq<Window>)
    ensures |r| <= |ws|
    ensures forall w :: w in r <==> w in ws && w.instanceId != id
  {
    if ws == [] then []
    else (if ws[0].instanceId == id then [] else [ws[0]]) + RemoveMatching(ws[1..], id)
  }

  /** The filter works window by window, so the survivors keep their order. */
  lemma {:induction false} RemoveMatchingAppend(a: seq<Window>, b: seq<Window>, id: string)
    ensures RemoveMatching(a + b, id) == RemoveMatching(a, id) + RemoveMatching(b, id)
  {
    if a == [] {
      assert a + b == b;
    } else {
      assert (a + b)[0] == a[0];
      assert (a + b)[1..] == a[1..] + b;
      RemoveMatchingAppend(a[1..], b, id);
    }
  }

  /** Removing an instance id that no window has changes nothing. */
  lemma {:induction false} RemoveMatchingAbsent(ws: seq<Window>, id: string)
    requires Absent(ws, id)
    ensures RemoveMatching(ws, id) == ws
  {
    if ws != [] {
      RemoveMatchingAbsent(ws[1..], id);
      assert [ws[0]] + ws[1..] == ws;
    }
  }

  /** The survivors of the filter still have unique instance ids. */
  lemma {:induction false} RemoveMatchingUnique(ws: seq<Window>, id: string)
    requires UniqueInstanceIds(ws)
    ensures UniqueInstanceIds(RemoveMatching(ws, id))
  {
    if ws != [] {
      var rest := RemoveMatching(ws[1..], id);
      RemoveMatchingUnique(ws[1..], id);
      if ws[0].instanceId != id {
        forall j | 0 <= j < |rest|
          ensures rest[j].instanceId != ws[0].instanceId
        {
          assert rest[j] in rest;
          var k :| 0 <= k < |ws[1..]| && ws[1..][k] == rest[j];
          assert ws[k + 1] == rest[j];
        }
        assert RemoveMatching(ws, id) == [ws[0]] + rest;
      }
    }
  }

  /** With unique instance ids, closing a window that exists removes exactly one window. */
  lemma {:induction false} RemoveMatchingOne(ws: seq<Window>, id: string)
    requires UniqueInstanceIds(ws)
    requires !Absent(ws, id)
    ensures |RemoveMatching(ws, id)| == |ws| - 1
  {
    if ws[0].instanceId == id {
      assert Absent(ws[1..], id) by {
        forall i | 0 <= i < |ws[1..]| ensures ws[1..][i].instanceId != id {
          assert ws[1..][i] == ws[i + 1];
        }
      }
      RemoveMatchingAbsent(ws[1..], id);
    } else {
      var i :| 0 <= i < |ws| && ws[i].instanceId == id;
      assert ws[1..][i - 1].instanceId == id;
      RemoveMatchingOne(ws[1..], id);
    }
  }

  /** `openApps.filter(app => !app.isMinimized).length` */
  function CountVisible(ws: seq<Window>): (n: nat)
    ensures n <= |ws|
    ensures n == 0 <==> forall i :: 0 <= i < |ws| ==> ws[i].isMinimized
    ensures n == |ws| <==> forall i :: 0 <= i < |ws| ==> !ws[i].isMinimized
  {
    if ws == [] then 0
    else
      var rest := CountVisible(ws[1..]);
      assert (forall i :: 0 <= i < |ws| ==> ws[i].isMinimized) <==>
        ws[0].isMinimized && forall j :: 0 <= j < |ws| - 1 ==> ws[1..][j].isMinimized by {
        assert forall j :: 0 <= j < |ws| - 1 ==> ws[1..][j] == ws[j + 1];
      }
      assert (forall i :: 0 <= i < |ws| ==> !ws[i].isMinimized) <==>
        !ws[0].isMinimized && forall j :: 0 <= j < |ws| - 1 ==> !ws[1..][j].isMinimized by {
        assert forall j :: 0 <= j < |ws| - 1 ==> ws[1..][j] == ws[j + 1];
      }
      (if ws[0].isMinimized then 0 else 1) + rest
  }

  /** The count is additive: the windows of two lists are counted separately. */
  lemma {:induction false} CountVisibleAppend(a: seq<Window>, b: seq<Window>)
    ensures CountVisible(a + b) == CountVisible(a) + CountVisible(b)
  {
    if a != [] {
      assert (a + b)[0] == a[0];
      assert (a + b)[1..] == a[1..] + b;
      CountVisibleAppend(a[1..], b);
    } else {
      assert a + b == b;
    }
  }

  /** How many open windows were launched from application `appId`. */
  function CountApp(ws: seq<Window>, appId: string): (n: nat)
    ensures n <= |ws|
    ensures n == 0 ==> forall i :: 0 <= i < |ws| ==> ws[i].definition.id != appId
  {
    if ws == [] then 0
    else (if ws[0].definition.id == appId then 1 else 0) + CountApp(ws[1..], appId)
  }

  lemma {:induction false} CountAppAppend(a: seq<Window>, b: seq<Window>, appId: string)
    ensures CountApp(a + b, appId) == CountApp(a, appId) + CountApp(b, appId)
  {
    if a == [] {
      assert a + b == b;
    } else {
      assert (a + b)[0] == a[0];
      assert (a + b)[1..] == a[1..] + b;
      CountAppAppend(a[1..], b, appId);
    }
  }

  /** The map never changes which application a window belongs to. */
  lemma {:induction false} CountAppMapMatching(ws: seq<Window>, id: string, e: Edit, appId: string)
    requires Editable(ws, id, e)
    ensures CountApp(MapMatching(ws, id, e), appId) == CountApp(ws, appId)
  {
    if ws != [] {
      var r := MapMatching(ws, id, e);
      assert r[1..] == MapMatching(ws[1..], id, e);
      CountAppMapMatching(ws[1..], id, e, appId);
    }
  }
}
