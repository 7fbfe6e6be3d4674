# Window manager of a browser desktop, in Dafny

This project models the window manager of a browser "desktop" and the
launch logic that feeds it. The state has three parts:

- `openApps`: the ordered list of open windows;
- `activeAppInstanceId`: the instance id of the active window, if any;
- `nextZIndex`: the stacking counter, which starts at 10 and never goes down.

The model covers these operations:

- the hook's window operations: focus, close, toggle minimize, toggle
  maximize, and the position, size and title updates;
- the cascading placement of a new window;
- the internal and the system launchers;
- the `openApp` dispatcher, which routes a definition to the external,
  system or internal launcher.

Each operation is a function on a `State` value (`WindowManager`,
`AppLaunch`, `Dispatcher`). The hook's state cells are a class,
`WindowManager.Manager`, with the three fields. Its methods, the two
launcher methods and the dispatcher method update the fields step by step,
in the source's order. Each of them is proved to produce exactly the state
the matching function gives.

The properties proved are:

- the frame of every operation: which windows change, and how;
- the invariant the operations keep:
  - every window's stacking value is at most the counter;
  - a maximized window has its previous geometry saved;
  - instance ids are unique;
- the counter rises by 0 or 1 per operation;
- minimize and maximize round trips;
- the reuse order of the launchers: the first visible window, then the first minimized one;
- single-instance reuse;
- the placement bounds;
- the dispatcher's routing precedence.

Files, in dependency order:

- `wrappers.dfy`: `Option`;
- `types.dfy`: points, sizes, definitions, windows, the state and the
  environment of the desktop;
- `placement.dfy`: `getNextPosition`;
- `window_list.dfy`: the per-window `map`/`filter`/`find` bodies;
- `window_manager.dfy`: the hook's operations, their lemmas and `Manager`;
- `launch.dfy`: the launch logic the two launchers share;
- `internal.dfy`, `system.dfy`: `launchInternalApp` and `launchSystemApp`;
- `dispatcher.dfy`: `openApp`;
- `session.dfy`: sequences of operations from the initial state.

## Model

| member | source | states |
|---|---|---|
| Placement.Axis | window/hooks/useWindowManager.ts:33-43 | one axis of the placement lies in `[0, room]` when the window fits (`room >= 0`) and is 0 otherwise |
| Placement.NextPosition | window/hooks/useWindowManager.ts:28-45 | `0 <= x <= W - w` when `W >= w`, else `x == 0`; the same for `y` with `H - h` |
| Placement.AxisCascades | window/hooks/useWindowManager.ts:33-42 | while `n * 20` is below the modulus, the offset is exactly `n * 20 + 20`, so windows cascade by 20 |
| WindowList.FindIndex | window/hooks/useWindowManager.ts:110 | `find` returns the first index whose window matches, and nothing exactly when no window matches |
| WindowList.Matches | window/hooks/useWindowManager.ts:110 | no ensures of its own: the three `find` predicates (by instance id here, and `app.id === appDef.id` with `!app.isMinimized` or `app.isMinimized` at window/app/internal.ts:55 and :74); used through FindIndex |
| WindowList.RestoreWidth | window/hooks/useWindowManager.ts:149 | no ensures of its own: the saved width unless it is missing or 0, else the current width; used by Apply and specified through MaximizeRestoreRoundTrip and InvariantEnablesMaximize |
| WindowList.RestoreHeight | window/hooks/useWindowManager.ts:150 | no ensures of its own: the same fallback for the height |
| WindowList.Apply | window/hooks/useWindowManager.ts:142-166 | each per-window rewrite keeps the window's instance id and definition |
| WindowList.MapMatching | window/hooks/useWindowManager.ts:79-85 | the `map` keeps the length, rewrites every window with the instance id and leaves every other window as it was |
| WindowList.MapMatchingSnoc | window/hooks/useWindowManager.ts:79-85 | mapping a list with one more window is mapping the list, then that window on its own |
| WindowList.MapMatchingAbsent | window/hooks/useWindowManager.ts:79-85 | with no window of that instance id, the map is the identity |
| WindowList.MapMatchingOne | window/hooks/useWindowManager.ts:79-85 | with unique ids, the map is the update of the single window at index `k` |
| WindowList.MapMatchingKeepsIds | window/hooks/useWindowManager.ts:79-85 | the map keeps every instance id, so it keeps ids unique and absent ids absent |
| WindowList.RemoveMatching | window/hooks/useWindowManager.ts:93 | the `filter` keeps exactly the windows with another instance id |
| WindowList.RemoveMatchingAppend | window/hooks/useWindowManager.ts:93 | filtering a concatenation is the concatenation of the filtered parts |
| WindowList.RemoveMatchingAbsent | window/hooks/useWindowManager.ts:93 | filtering out an id no window has changes nothing |
| WindowList.RemoveMatchingUnique | window/hooks/useWindowManager.ts:93 | filtering keeps instance ids unique |
| WindowList.RemoveMatchingOne | window/hooks/useWindowManager.ts:93 | with unique ids, filtering out an open id removes exactly one window |
| WindowList.CountVisible | window/hooks/useWindowManager.ts:34 | the count is at most the number of windows; it is 0 exactly when every window is minimized, and the full length exactly when none is |
| WindowList.CountVisibleAppend | window/hooks/useWindowManager.ts:34 | the count of a concatenation is the sum of the counts |
| WindowList.CountAppMapMatching | window/app/internal.ts:61-67 | raising a window never changes how many windows an application has |
| WindowManager.Init | window/hooks/useWindowManager.ts:10-14 | no ensures of its own: no windows, no active id, counter 10; specified by InitInvariant and FromInit |
| WindowManager.BringToFront | window/hooks/useWindowManager.ts:77-86 | no ensures of its own: specified by FocusRaises and BringToFrontKeepsInvariant |
| WindowManager.Focus | window/hooks/useWindowManager.ts:73-89 | no ensures of its own: specified by FocusIdempotent, FocusRaises and FocusKeepsInvariant |
| WindowManager.Close | window/hooks/useWindowManager.ts:91-106 | no ensures of its own: specified by CloseSpec, CloseRemovesOne, CloseAbsent and CloseKeepsInvariant |
| WindowManager.ToggleMinimize | window/hooks/useWindowManager.ts:108-129 | no ensures of its own: specified by ToggleMinimizeUnknown, ToggleMinimizeHides, ToggleMinimizeRestores, ToggleMinimizeTwice and ToggleMinimizeKeepsInvariant |
| WindowManager.ToggleMaximize | window/hooks/useWindowManager.ts:131-174 | no ensures of its own: specified by MaximizeSpec, MaximizeRestoreRoundTrip and ToggleMaximizeKeepsInvariant |
| WindowManager.UpdatePosition | window/hooks/useWindowManager.ts:176-186 | no ensures of its own: specified by UpdatePositionSpec and UpdatePositionKeepsInvariant |
| WindowManager.UpdateSize | window/hooks/useWindowManager.ts:187-195 | no ensures of its own: specified by UpdateSizeSpec and UpdateSizeKeepsInvariant |
| WindowManager.UpdateTitle | window/hooks/useWindowManager.ts:196-200 | no ensures of its own: specified by UpdateTitleSpec and UpdateTitleKeepsInvariant |
| WindowManager.InitInvariant | window/hooks/useWindowManager.ts:10-14 | the initial state (no windows, no active id, counter 10) satisfies the invariant |
| WindowManager.FocusIdempotent | window/hooks/useWindowManager.ts:75 | focusing the active instance changes nothing, so focusing twice is focusing once |
| WindowManager.FocusRaises | window/hooks/useWindowManager.ts:77-86 | focusing another instance raises the counter by one, gives its windows the new counter and un-minimizes them, makes it active, and leaves the other windows, the order and the length unchanged |
| WindowManager.FocusKeepsInvariant | window/hooks/useWindowManager.ts:73-89 | focus keeps the invariant and moves the counter by 0 or 1 |
| WindowManager.CloseSpec | window/hooks/useWindowManager.ts:91-106 | close keeps exactly the other windows and never moves the counter; if the closed instance was active, the last remaining window (or none) becomes active; otherwise the active id stays |
| WindowManager.CloseRemovesOne | window/hooks/useWindowManager.ts:93 | with unique ids, closing an open instance removes one window and leaves none with that id |
| WindowManager.CloseAbsent | window/hooks/useWindowManager.ts:91-106 | closing an instance that is neither open nor active changes nothing |
| WindowManager.CloseKeepsInvariant | window/hooks/useWindowManager.ts:91-106 | close keeps the invariant |
| WindowManager.ToggleMinimizeUnknown | window/hooks/useWindowManager.ts:110-111 | an id with no open window is a no-op |
| WindowManager.ToggleMinimizeHides | window/hooks/useWindowManager.ts:113-126 | a visible window becomes minimized and nothing else changes, except that the active id is cleared when it was this window |
| WindowManager.ToggleMinimizeRestores | window/hooks/useWindowManager.ts:113-123 | a minimized window is shown again; if it was not active it is also raised with a fresh counter value and becomes active |
| WindowManager.ToggleMinimizeTwice | window/hooks/useWindowManager.ts:108-129 | minimizing the active window and restoring it gives the same list, with that window raised to counter + 1 and active again |
| WindowManager.ToggleMinimizeKeepsInvariant | window/hooks/useWindowManager.ts:108-129 | toggle minimize keeps the invariant and moves the counter by 0 or 1 |
| WindowManager.InvariantEnablesMaximize | window/hooks/useWindowManager.ts:142-152 | under the invariant, restoring never reaches the placement fallback |
| WindowManager.MaximizeSpec | window/hooks/useWindowManager.ts:154-166 | maximizing saves position and size, moves the window to the origin at desktop size, stacks it at counter + 1, raises the counter and makes the window active; no other window changes |
| WindowManager.MaximizeRestoreRoundTrip | window/hooks/useWindowManager.ts:142-166 | toggling twice gives back the exact position and size, not maximized; the second toggle moves neither the stacking value, the counter nor the active id |
| WindowManager.ToggleMaximizeKeepsInvariant | window/hooks/useWindowManager.ts:131-174 | toggle maximize keeps the invariant and moves the counter by 0 or 1 |
| WindowManager.ToggleMaximizeUpdater | window/hooks/useWindowManager.ts:133-171 | the updater's loop returns the mapped list, plus the counter and active id the setters leave behind (the old values when no window is maximized); together they are the toggle-maximize state |
| WindowManager.UpdatePositionSpec | window/hooks/useWindowManager.ts:176-185 | only the position of matching windows changes; an unknown id is a no-op |
| WindowManager.UpdateSizeSpec | window/hooks/useWindowManager.ts:187-194 | only the size of matching windows changes; an unknown id is a no-op |
| WindowManager.UpdateTitleSpec | window/hooks/useWindowManager.ts:196-200 | only the title of matching windows changes; an unknown id is a no-op |
| WindowManager.UpdatePositionKeepsInvariant | window/hooks/useWindowManager.ts:176-185 | updating a position keeps the invariant |
| WindowManager.UpdateSizeKeepsInvariant | window/hooks/useWindowManager.ts:187-194 | updating a size keeps the invariant |
| WindowManager.UpdateTitleKeepsInvariant | window/hooks/useWindowManager.ts:196-200 | updating a title keeps the invariant |
| WindowManager.Manager.constructor | window/hooks/useWindowManager.ts:10-14 | the cells start empty, with no active id and counter 10, and satisfy the invariant |
| WindowManager.Manager.FocusApp | window/hooks/useWindowManager.ts:73-89 | the new fields are the focus of the old ones, and the invariant is kept |
| WindowManager.Manager.BringAppToFront | window/hooks/useWindowManager.ts:77-86 | bumps the counter, raises the matching windows and activates them, and the invariant is kept |
| WindowManager.Manager.CloseApp | window/hooks/useWindowManager.ts:91-106 | the new fields are the close of the old ones, and the invariant is kept |
| WindowManager.Manager.ToggleMinimizeApp | window/hooks/useWindowManager.ts:108-129 | the new fields are the toggle-minimize of the old ones, and the invariant is kept |
| WindowManager.Manager.ToggleMaximizeApp | window/hooks/useWindowManager.ts:131-174 | the new fields are the toggle-maximize of the old ones, and the invariant is kept |
| WindowManager.Manager.UpdateAppPosition | window/hooks/useWindowManager.ts:176-185 | the new fields are the position update of the old ones, and the invariant is kept |
| WindowManager.Manager.UpdateAppSize | window/hooks/useWindowManager.ts:187-194 | the new fields are the size update of the old ones, and the invariant is kept |
| WindowManager.Manager.UpdateAppTitle | window/hooks/useWindowManager.ts:196-200 | the new fields are the title update of the old ones, and the invariant is kept |
| AppLaunch.Launch | window/app/internal.ts:34-116 | no ensures of its own: the one launch both launchers are proved equal to; specified by LaunchWithoutIdIsNoop, LaunchReusesVisible, LaunchRestoresMinimized, LaunchAppends, LaunchBumpsOnce, LaunchWithDataAlwaysCreates and LaunchKeepsInvariant |
| AppLaunch.NewWindow | window/app/internal.ts:101-112 | no ensures of its own: the `newApp` literal; specified by LaunchAppends |
| AppLaunch.NewWindowSize | window/app/internal.ts:98-99 | each dimension is the definition's default size when it is present and non-zero, else the global default |
| AppLaunch.ReuseTarget | window/app/internal.ts:53-90 | a reused window is an open window of the same application |
| AppLaunch.LaunchWithoutIdIsNoop | window/app/internal.ts:47-50 | a definition with an empty id leaves the state unchanged |
| AppLaunch.LaunchBumpsOnce | window/app/internal.ts:53-116 | every launch with an id raises the counter exactly once and leaves an active, visible window stacked at the new counter |
| AppLaunch.LaunchReusesVisible | window/app/internal.ts:53-70 | without data, the first visible window of the application is stacked at counter + 1 and becomes active; the count is unchanged and no other window changes |
| AppLaunch.LaunchRestoresMinimized | window/app/internal.ts:72-90 | without data and with no visible window, the first minimized one is un-minimized, stacked at counter + 1 and made active; no other window changes |
| AppLaunch.LaunchAppends | window/app/internal.ts:93-116 | otherwise exactly one window is appended after the unchanged existing ones. It is visible, not maximized, named after the application, carries the data, is stacked at counter + 1, is placed by the cascade over the number of visible windows (so inside the desktop when it fits), and becomes active |
| AppLaunch.LaunchWithDataAlwaysCreates | window/app/internal.ts:53 | with truthy data a new window of the application is appended even when one is open |
| AppLaunch.LaunchKeepsInvariant | window/app/internal.ts:34-116 | a launch with a fresh instance id keeps the invariant and moves the counter by 0 or 1 |
| AppLaunch.FirstLaunchAppends | window/app/system.ts:97-118 | the first launch of an application without windows appends one, which is the window the next launch reuses |
| AppLaunch.LaunchTwiceSingleInstance | window/app/system.ts:56-73 | launching an application twice without data leaves exactly one window of it: the first one, raised again and active |
| InternalLauncher.LaunchInternalApp | window/app/internal.ts:34-116 | the setter sequence produces exactly the shared launch state |
| SystemLauncher.LaunchSystemApp | window/app/system.ts:37-119 | the setter sequence produces exactly the shared launch state, so it agrees with the internal launcher on every input |
| Dispatcher.FindDefinition | window/app/index.ts:39 | the result is the definition at the first index with that id, and nothing exactly when no definition has it |
| Dispatcher.FindDefinitionFirst | window/app/index.ts:39 | the lookup returns the definition at the first index that has the id |
| Dispatcher.Normalize | window/app/index.ts:43-45 | an external path already set is kept; an empty one takes the path; nothing else changes |
| Dispatcher.NormalizeIdempotent | window/app/index.ts:43-45 | normalizing twice is normalizing once |
| Dispatcher.Resolve | window/app/index.ts:38-47 | an id resolves to nothing exactly when no registry entry has that id, and otherwise to the first entry that has it; a definition always resolves, to itself with `externalPath` falling back to `path` when it is empty |
| Dispatcher.RouteOf | window/app/index.ts:58-64 | external exactly when `isExternal`; system exactly when not external and the id is a system id; internal otherwise |
| Dispatcher.ExternalRequest | window/app/external.ts:15-18 | an external launch is requested exactly when the definition is external and has an external path, and it uses that path |
| Dispatcher.Open | window/app/index.ts:30-65 | no ensures of its own: specified by OpenUnknownNoop, OpenByIdUsesFirst, OpenExternalKeepsState, OpenPartialExternal, ExternalWinsOverSystem, OpenIgnoresSystemMembership and OpenKeepsInvariant |
| Dispatcher.OpenApp | window/app/index.ts:30-65 | the new fields and the requested external launch are exactly those of the dispatch function |
| Dispatcher.OpenUnknownNoop | window/app/index.ts:49-56 | an id no definition has changes nothing and requests nothing |
| Dispatcher.OpenByIdUsesFirst | window/app/index.ts:38-39 | a known id launches the first definition in list order with that id |
| Dispatcher.OpenExternalKeepsState | window/app/index.ts:58-59 | an external definition never changes the windows, the active id or the counter |
| Dispatcher.OpenPartialExternal | window/app/index.ts:43-45 | a partial external definition is launched with its external path if set, else with its path |
| Dispatcher.ExternalWinsOverSystem | window/app/index.ts:58-60 | an external definition with a system id still goes to the external launcher |
| Dispatcher.OpenIgnoresSystemMembership | window/app/index.ts:60-63 | for a non-external definition, the resulting state is the shared launch whether or not the id is a system id |
| Dispatcher.OpenKeepsInvariant | window/app/index.ts:30-65 | opening with a fresh instance id keeps the invariant and moves the counter by 0 or 1 |
| Session.StepKeepsInvariant | window/hooks/useWindowManager.ts:203-217 | every operation the hook returns keeps the invariant and moves the counter by 0 or 1 |
| Session.InvariantEnablesToggleMaximize | window/hooks/useWindowManager.ts:142-152 | under the invariant a toggle maximize is always defined |
| Session.RunKeepsInvariant | window/hooks/useWindowManager.ts:203-217 | a run of operations keeps the invariant; the counter ends between its start and its start plus the number of operations |
| Session.FromInit | window/hooks/useWindowManager.ts:14 | from the initial state, every window's stacking value stays at most the counter, and the counter stays between 10 and 10 plus the number of operations |

## Left out

- React plumbing is not modelled: `useState`, `useCallback`, `useEffect`, dependency
  arrays, and the asynchronous loading of the definitions with its
  `appsLoading` flag. The three state cells are the fields of `Manager`.
- React batching and stale closures are not modelled; every operation is one atomic
  transition. Two examples:
  - the setters that toggleMaximizeApp calls inside its map updater;
  - closeApp choosing the next active window from the `openApps` snapshot
    while it filters `prev`.
- DOM reads of the container size (`clientWidth || innerWidth` and the same for
  height) are not modelled: `Env.desktop` is a parameter. Its height already has
  `TASKBAR_HEIGHT` taken off.
- `DEFAULT_WINDOW_WIDTH`/`HEIGHT` are parameters in `Env.defaultWindowSize`,
  because window/constants is not part of this model.
- Placement.NextPosition: JavaScript gives NaN when the modulus
  `W - w - 40` is zero. A precondition excludes this case (`PlacementDefined`,
  and through it `LaunchDefined` and `MaximizeDefined`). Fractional DOM sizes are
  not modelled; sizes are integers.
- The `${id}-${Date.now()}` instance id is a parameter. The source does not
  guarantee it is fresh. Only the invariant lemmas require it to be absent.
- Most of window/app/external.ts is not modelled: Electron IPC, `fetch` and
  `alert`. Only its guard is kept, as the `externalLaunch` result of
  `Dispatcher.OpenApp`.
- `console.error` logging is not modelled; the state is left unchanged on those paths.
- The `icon` and other display-only fields of a definition are left out.
- Types.AppDefinition: `id` is a string, so a definition with no `id` at all
  is read as id "". `openApp("")` would then find an id-less registry entry,
  where the source's `===` comparison finds none.
- Untyped `initialData` is reduced to a value with a truthiness flag.
- Dispatcher.Normalize returns a new definition. It does not model the
  in-place write to the caller's object, and so it does not model any aliasing
  of that object.
- The hook's `openApp` wrapper (window/hooks/useWindowManager.ts:47-71) only
  builds the dependency record and is not modelled. `Dispatcher.OpenApp` takes
  the `Manager` directly.
- The `getNextPosition` wrapper in window/app/internal.ts and
  window/app/system.ts only forwards to the hook's function, so it is not
  modelled separately.
