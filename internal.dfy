/** The launcher for internal applications (React components shown inside a window). */
module InternalLauncher {
  import opened Wrappers
  import opened Types
  import opened WindowList
  import opened WindowManager
  import opened AppLaunch

  /**
   * launchInternalApp: the setter calls on the hook's state, in the source's
   * order, with its guarded early returns; the result is the shared launch.
   */
  method LaunchInternalApp(def: AppDefinition, deps: Manager, data: InitialData, instanceId: string, env: Env)
    requires LaunchDefined(deps.Model(), def, data, env)
    modifies deps
    ensures deps.Model() == Launch(old(deps.Model()), def, data, instanceId, env)
  {
    ghost var s := deps.Model();
    var openApps, nextZIndex := deps.openApps, deps.nextZIndex;
    if def.id == "" {
      return;  // an error is logged; nothing changes
    }
    if !data.IsTruthy() {
      var existing := FindIndex(openApps, VisibleOf(def.id));
      if existing.Some? {
        assert ReuseTarget(s, def, data) == existing;
        deps.BringAppToFront(openApps[existing.value].instanceId);
        return;
      }
      var minimized := FindIndex(openApps, MinimizedOf(def.id));
      if minimized.Some? {
        assert ReuseTarget(s, def, data) == minimized;
        deps.BringAppToFront(openApps[minimized.value].instanceId);
        return;
      }
    }
    var newZIndex := nextZIndex + 1;
    var newApp := NewWindow(deps.Model(), def, data, instanceId, newZIndex, env);
    deps.nextZIndex := newZIndex;
    deps.openApps := openApps + [newApp];
    deps.activeAppInstanceId := Some(instanceId);
    assert CreatesWindow(s, def, data);
  }
}
