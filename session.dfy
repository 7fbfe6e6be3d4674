/**
 * The operations the hook hands out, applied one after another: from the
 * initial state the invariant holds throughout and the stacking counter
 * moves up by at most one per operation.
 */
module Session {
  import opened Wrappers
  import opened Types
  import opened WindowList
  import opened WindowManager
  import opened Dispatcher

  /** One call of the hook's API. */
  datatype Op =
    | OpenOp(ident: AppIdentifier, defs: seq<AppDefinition>, data: InitialData, instanceId: string, env: Env)
    | FocusOp(id: string)
    | CloseOp(id: string)
    | ToggleMinimizeOp(id: string)
    | ToggleMaximizeOp(id: string, desktop: Size)
    | MoveOp(id: string, position: Point)
    | ResizeOp(id: string, size: Size)
    | RetitleOp(id: string, title: string)

  /**
   * The operation computes a state: placements are numbers and a new
   * window's instance id is not already taken.
   */
  predicate Enabled(s: State, op: Op) {
    match op
    case OpenOp(ident, defs, data, instanceId, env) =>
      OpenDefined(s, ident, defs, data, env) && Absent(s.openApps, instanceId)
    case ToggleMaximizeOp(id, desktop) => MaximizeDefined(s, id, desktop)
    case _ => true
  }

  function Step(s: State, op: Op): State
    requires Enabled(s, op)
  {
    match op
    case OpenOp(ident, defs, data, instanceId, env) => Open(s, ident, defs, data, instanceId, env).state
    case FocusOp(id) => Focus(s, id)
    case CloseOp(id) => Close(s, id)
    case ToggleMinimizeOp(id) => ToggleMinimize(s, id)
    case ToggleMaximizeOp(id, desktop) => ToggleMaximize(s, id, desktop)
    case MoveOp(id, position) => UpdatePosition(s, id, position)
    case ResizeOp(id, size) => UpdateSize(s, id, size)
    case RetitleOp(id, title) => UpdateTitle(s, id, title)
  }

  /** The state after the operations, or None when one of them is not enabled where it runs. */
  function Run(s: State, ops: seq<Op>): Option<State>
    decreases |ops|
  {
    if ops == [] then Some(s)
    else if !Enabled(s, ops[0]) then None
    else Run(Step(s, ops[0]), ops[1..])
  }

  /** Every operation keeps the invariant and raises the counter by zero or one. */
  lemma StepKeepsInvariant(s: State, op: Op)
    requires Invariant(s)
    requires Enabled(s, op)
    ensures Invariant(Step(s, op))
    ensures Step(s, op).nextZIndex in {s.nextZIndex, s.nextZIndex + 1}
  {
    match op
    case OpenOp(ident, defs, data, instanceId, env) => OpenKeepsInvariant(s, ident, defs, data, instanceId, env);
    case FocusOp(id) => FocusKeepsInvariant(s, id);
    case CloseOp(id) => CloseKeepsInvariant(s, id);
    case ToggleMinimizeOp(id) => ToggleMinimizeKeepsInvariant(s, id);
    case ToggleMaximizeOp(id, desktop) => ToggleMaximizeKeepsInvariant(s, id, desktop);
    case MoveOp(id, position) => UpdatePositionKeepsInvariant(s, id, position);
    case ResizeOp(id, size) => UpdateSizeKeepsInvariant(s, id, size);
    case RetitleOp(id, title) => UpdateTitleKeepsInvariant(s, id, title);
  }

  /** Under the invariant a toggle-maximize is always enabled: the placement fallback is never reached. */
  lemma InvariantEnablesToggleMaximize(s: State, id: string, desktop: Size)
    requires Invariant(s)
    ensures Enabled(s, ToggleMaximizeOp(id, desktop))
  {
    InvariantEnablesMaximize(s, id, desktop);
  }

  /** A run keeps the invariant, and the counter ends between its start and its start plus the number of operations. */
  lemma {:induction false} RunKeepsInvariant(s: State, ops: seq<Op>)
    requires Invariant(s)
    requires Run(s, ops).Some?
    ensures Invariant(Run(s, ops).value)
    ensures s.nextZIndex <= Run(s, ops).value.nextZIndex <= s.nextZIndex + |ops|
    decreases |ops|
  {
    if ops != [] {
      StepKeepsInvariant(s, ops[0]);
      RunKeepsInvariant(Step(s, ops[0]), ops[1..]);
    }
  }

  /**
   * From the hook's initial state, after any run every window's stacking
   * value is at most the counter, and the counter is between 10 and 10 plus
   * the number of operations.
   */
  lemma FromInit(ops: seq<Op>)
    requires Run(Init(), ops).Some?
    ensures var r := Run(Init(), ops).value;
      (forall i :: 0 <= i < |r.openApps| ==> r.openApps[i].zIndex <= r.nextZIndex) &&
      INITIAL_Z_INDEX <= r.nextZIndex <= INITIAL_Z_INDEX + |ops|
  {
    InitInvariant();
    RunKeepsInvariant(Init(), ops);
    var r := Run(Init(), ops).value;
    forall i | 0 <= i < |r.openApps| ensures r.openApps[i].zIndex <= r.nextZIndex {
      assert WellStacked(r.openApps[i], r.nextZIndex);
    }
  }
}
