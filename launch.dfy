/**
 * The launch logic shared, word for word, by the internal and the system
 * launcher: reuse a visible instance of the application, else a minimized
 * one, else append a new window.
 */
module AppLaunch {
  import opened Wrappers
  import opened Types
  import opened Placement
  import opened WindowList
  import opened WindowManager

  /** `appDef.defaultSize?.width || DEFAULT_WINDOW_WIDTH`, and likewise for the height. */
  function NewWindowSize(def: AppDefinition, env: Env): (sz: Size)
    ensures def.defaultSize.Some? && def.defaultSize.value.width != 0 ==> sz.width == def.defaultSize.value.width
    ensures def.defaultSize.None? || def.defaultSize.value.width == 0 ==> sz.width == env.defaultWindowSize.width
    ensures def.defaultSize.Some? && def.defaultSize.value.height != 0 ==> sz.height == def.defaultSize.value.height
    ensures def.defaultSize.None? || def.defaultSize.value.height == 0 ==> sz.height == env.defaultWindowSize.height
  {
    var width :=
      if def.defaultSize.Some? && def.defaultSize.value.width != 0 then def.defaultSize.value.width
      else env.defaultWindowSize.width;
    var height :=
      if def.defaultSize.Some? && def.defaultSize.value.height != 0 then def.defaultSize.value.height
      else env.defaultWindowSize.height;
    Size(width, height)
  }

  /**
   * The window a launch without truthy data brings back: the first visible
   * window of the application, else its first minimized one.
   */
  function ReuseTarget(s: State, def: AppDefinition, data: InitialData): (t: Option<nat>)
    ensures t.Some? ==> t.value < |s.openApps| && s.openApps[t.value].definition.id == def.id
  {
    if data.IsTruthy() then None
    else match FindIndex(s.openApps, VisibleOf(def.id))
      case Some(k) => Some(k)
      case None => FindIndex(s.openApps, MinimizedOf(def.id))
  }

  /** The launch ends by appending a new window. */
  predicate CreatesWindow(s: State, def: AppDefinition, data: InitialData) {
    def.id != "" && ReuseTarget(s, def, data).None?
  }

  /** The placement of a new window is a number (see `PlacementDefined`). */
  predicate LaunchDefined(s: State, def: AppDefinition, data: InitialData, env: Env) {
    CreatesWindow(s, def, data) ==>
      PlacementDefined(env.desktop, NewWindowSize(def, env).width, NewWindowSize(def, env).height)
  }

  /** The window a launch appends, stacked at `zIndex`. */
  function NewWindow(s: State, def: AppDefinition, data: InitialData, instanceId: string, zIndex: int, env: Env): Window
    requires PlacementDefined(env.desktop, NewWindowSize(def, env).width, NewWindowSize(def, env).height)
  {
    var size := NewWindowSize(def, env);
    Window(
      definition := def,
      instanceId := instanceId,
      position := NextPosition(env.desktop, CountVisible(s.openApps), size.width, size.height),
      size := size,
      zIndex := zIndex,
      isMinimized := false,
      isMaximized := false,
      previousPosition := None,
      previousSize := None,
      title := def.name,
      initialData := data)
  }

  /**
   * The state after launching `def` with `data`; `instanceId` stands for the
   * `${id}-${Date.now()}` id a new window would get.
   */
  function Launch(s: State, def: AppDefinition, data: InitialData, instanceId: string, env: Env): State
    requires LaunchDefined(s, def, data, env)
  {
    if def.id == "" then s
    else match ReuseTarget(s, def, data)
      case Some(k) => BringToFront(s, s.openApps[k].instanceId)
      case None =>
        var z := s.nextZIndex + 1;
        State(s.openApps + [NewWindow(s, def, data, instanceId, z, env)], Some(instanceId), z)
  }

  // ---------------------------------------------------------------- properties

  /** A definition without an id changes nothing. */
  lemma LaunchWithoutIdIsNoop(s: State, def: AppDefinition, data: InitialData, instanceId: string, env: Env)
    requires def.id == ""
    ensures LaunchDefined(s, def, data, env)
    ensures Launch(s, def, data, instanceId, env) == s
  {
  }

  /** Every launch of a definition with an id bumps the counter exactly once and activates a window. */
  lemma LaunchBumpsOnce(s: State, def: AppDefinition, data: InitialData, instanceId: string, env: Env)
    requires def.id != ""
    requires LaunchDefined(s, def, data, env)
    ensures var r := Launch(s, def, data, instanceId, env);
      r.nextZIndex == s.nextZIndex + 1 &&
      r.activeAppInstanceId.Some? &&
      exists i :: 0 <= i < |r.openApps| && r.openApps[i].instanceId == r.activeAppInstanceId.value &&
        r.openApps[i].zIndex == r.nextZIndex && !r.openApps[i].isMinimized
  {
    var r := Launch(s, def, data, instanceId, env);
    match ReuseTarget(s, def, data)
    case Some(k) =>
      assert r.openApps[k].instanceId == r.activeAppInstanceId.value;
    case None =>
      assert r.openApps[|s.openApps|].instanceId == r.activeAppInstanceId.value;
  }

  /**
   * Without truthy data, the first visible window k of the application is
   * raised and activated; the count of windows stays, and with unique ids no
   * other window changes.
   */
  lemma LaunchReusesVisible(s: State, def: AppDefinition, data: InitialData, instanceId: string, env: Env, k: nat)
    requires def.id != "" && !data.IsTruthy()
    requires FindIndex(s.openApps, VisibleOf(def.id)) == Some(k)
    requires UniqueInstanceIds(s.openApps)
    ensures LaunchDefined(s, def, data, env)
    ensures var r := Launch(s, def, data, instanceId, env);
      |r.openApps| == |s.openApps| &&
      r.nextZIndex == s.nextZIndex + 1 &&
      r.activeAppInstanceId == Some(s.openApps[k].instanceId) &&
      r.openApps[k] == s.openApps[k].(zIndex := s.nextZIndex + 1) &&
      (forall i :: 0 <= i < |s.openApps| && i != k ==> r.openApps[i] == s.openApps[i])
  {
  }

  /**
   * Without truthy data and with no visible window of the application, the
   * first minimized one, k, is un-minimized, raised and activated.
   */
  lemma LaunchRestoresMinimized(s: State, def: AppDefinition, data: InitialData, instanceId: string, env: Env, k: nat)
    requires def.id != "" && !data.IsTruthy()
    requires FindIndex(s.openApps, VisibleOf(def.id)).None?
    requires FindIndex(s.openApps, MinimizedOf(def.id)) == Some(k)
    requires UniqueInstanceIds(s.openApps)
    ensures LaunchDefined(s, def, data, env)
    ensures var r := Launch(s, def, data, instanceId, env);
      |r.openApps| == |s.openApps| &&
      r.nextZIndex == s.nextZIndex + 1 &&
      r.activeAppInstanceId == Some(s.openApps[k].instanceId) &&
      r.openApps[k] == s.openApps[k].(zIndex := s.nextZIndex + 1, isMinimized := false) &&
      (forall i :: 0 <= i < |s.openApps| && i != k ==> r.openApps[i] == s.openApps[i])
  {
  }

  /**
   * Otherwise (and always with truthy data) one window is appended behind
   * the unchanged existing ones: on top, visible, not maximized, titled with
   * the application's name, carrying the data, placed by the cascade over
   * the visible windows (so inside the desktop when it fits), and active.
   */
  lemma LaunchAppends(s: State, def: AppDefinition, data: InitialData, instanceId: string, env: Env)
    requires CreatesWindow(s, def, data)
    requires LaunchDefined(s, def, data, env)
    ensures var r := Launch(s, def, data, instanceId, env);
      |r.openApps| == |s.openApps| + 1 &&
      r.openApps[..|s.openApps|] == s.openApps &&
      r.nextZIndex == s.nextZIndex + 1 &&
      r.activeAppInstanceId == Some(instanceId) &&
      var w := r.openApps[|s.openApps|];
      w.instanceId == instanceId && w.definition == def &&
      w.zIndex == s.nextZIndex + 1 &&
      !w.isMinimized && !w.isMaximized &&
      w.title == def.name && w.initialData == data &&
      w.size == NewWindowSize(def, env) &&
      w.position == NextPosition(env.desktop, CountVisible(s.openApps), w.size.width, w.size.height) &&
      (env.desktop.width >= w.size.width ==> 0 <= w.position.x <= env.desktop.width - w.size.width) &&
      (env.desktop.height >= w.size.height ==> 0 <= w.position.y <= env.desktop.height - w.size.height)
  {
    var r := Launch(s, def, data, instanceId, env);
    assert r.openApps[..|s.openApps|] == s.openApps;
  }

  /** With truthy data a new window is appended even when the application is already open. */
  lemma LaunchWithDataAlwaysCreates(s: State, def: AppDefinition, data: InitialData, instanceId: string, env: Env)
    requires def.id != "" && data.IsTruthy()
    requires LaunchDefined(s, def, data, env)
    ensures |Launch(s, def, data, instanceId, env).openApps| == |s.openApps| + 1
    ensures CountApp(Launch(s, def, data, instanceId, env).openApps, def.id) == CountApp(s.openApps, def.id) + 1
  {
    var w := NewWindow(s, def, data, instanceId, s.nextZIndex + 1, env);
    CountAppAppend(s.openApps, [w], def.id);
  }

  lemma BringToFrontCount(s: State, id: string, appId: string)
    ensures CountApp(BringToFront(s, id).openApps, appId) == CountApp(s.openApps, appId)
  {
    var e := Raise(s.nextZIndex + 1);
    EditableUnlessToggleMaximized(s.openApps, id, e);
    CountAppMapMatching(s.openApps, id, e, appId);
  }

  /** A launch keeps the invariant when a new window's instance id is not taken. */
  lemma LaunchKeepsInvariant(s: State, def: AppDefinition, data: InitialData, instanceId: string, env: Env)
    requires Invariant(s)
    requires LaunchDefined(s, def, data, env)
    requires Absent(s.openApps, instanceId)
    ensures Invariant(Launch(s, def, data, instanceId, env))
    ensures Launch(s, def, data, instanceId, env).nextZIndex in {s.nextZIndex, s.nextZIndex + 1}
  {
    if def.id != "" {
      match ReuseTarget(s, def, data)
      case Some(k) => BringToFrontKeepsInvariant(s, s.openApps[k].instanceId);
      case None =>
    }
  }

  /** The first launch of an application with no window appends one, which the next launch reuses. */
  lemma FirstLaunchAppends(s: State, def: AppDefinition, data: InitialData, first: string, env: Env)
    requires def.id != "" && !data.IsTruthy()
    requires CountApp(s.openApps, def.id) == 0
    requires LaunchDefined(s, def, data, env)
    ensures var s1 := Launch(s, def, data, first, env);
      s1 == State(s.openApps + [NewWindow(s, def, data, first, s.nextZIndex + 1, env)], Some(first), s.nextZIndex + 1) &&
      ReuseTarget(s1, def, data) == Some(|s.openApps|) &&
      CountApp(s1.openApps, def.id) == 1
  {
    var n := |s.openApps|;
    assert FindIndex(s.openApps, VisibleOf(def.id)).None?;
    assert FindIndex(s.openApps, MinimizedOf(def.id)).None?;
    var w := NewWindow(s, def, data, first, s.nextZIndex + 1, env);
    var ws := s.openApps + [w];
    CountAppAppend(s.openApps, [w], def.id);
    assert FindIndex(ws, VisibleOf(def.id)) == Some(n) by {
      assert ws[n] == w;
      forall j | 0 <= j < n ensures !Matches(VisibleOf(def.id), ws[j]) {
        assert ws[j] == s.openApps[j];
      }
    }
  }

  /**
   * Launching an application that has no window twice without data gives
   * exactly one window of it: the first launch's, raised again, active.
   */
  lemma LaunchTwiceSingleInstance(s: State, def: AppDefinition, data: InitialData, first: string, second: string, env: Env)
    requires def.id != "" && !data.IsTruthy()
    requires CountApp(s.openApps, def.id) == 0
    requires LaunchDefined(s, def, data, env)
    ensures var s1 := Launch(s, def, data, first, env);
      LaunchDefined(s1, def, data, env) &&
      var s2 := Launch(s1, def, data, second, env);
      CountApp(s2.openApps, def.id) == 1 &&
      |s2.openApps| == |s.openApps| + 1 &&
      s2.activeAppInstanceId == Some(first) &&
      s2.openApps[|s.openApps|].instanceId == first &&
      s2.openApps[|s.openApps|].zIndex == s.nextZIndex + 2 &&
      s2.nextZIndex == s.nextZIndex + 2
  {
    FirstLaunchAppends(s, def, data, first, env);
    var s1 := Launch(s, def, data, first, env);
    assert s1.openApps[|s.openApps|].instanceId == first;
    BringToFrontCount(s1, first, def.id);
  }
}
