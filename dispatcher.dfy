/**
 * openApp: resolve an identifier to a definition, then route it to the
 * external, the system or the internal launcher.
 */
module Dispatcher {
  import opened Wrappers
  import opened Types
  import opened WindowList
  import opened WindowManager
  import opened AppLaunch
  import opened InternalLauncher
  import opened SystemLauncher

  /** The ids handed to the system launcher. */
  const SYSTEM_APP_IDS: seq<string> := ["fileExplorer", "settings", "appStore"]

  /** What a caller passes to openApp: an application id, or a (possibly partial) definition. */
  datatype AppIdentifier = ById(id: string) | ByDefinition(definition: AppDefinition)

  /** `appDefinitions.find(app => app.id === id)`: the first definition in list order with that id. */
  function FindDefinition(defs: seq<AppDefinition>, id: string): (r: Option<AppDefinition>)
    ensures r.None? <==> forall i :: 0 <= i < |defs| ==> defs[i].id != id
    ensures r.Some? ==>
      exists k :: 0 <= k < |defs| && defs[k] == r.value && defs[k].id == id &&
        forall j :: 0 <= j < k ==> defs[j].id != id
  {
    if defs == [] then None
    else if defs[0].id == id then Some(defs[0])
    else
      var rest := FindDefinition(defs[1..], id);
      assert forall i :: 1 <= i < |defs| ==> defs[i] == defs[1..][i - 1];
      rest
  }

  /**
   * A partial definition with a path but no external path gets the path as
   * its external path; an external path already set is never replaced, and
   * nothing else changes.
   */
  function Normalize(d: AppDefinition): (r: AppDefinition)
    ensures d.externalPath != "" ==> r == d
    ensures d.externalPath == "" ==> r == d.(externalPath := d.path)
  {
    if d.path != "" && d.externalPath == "" then d.(externalPath := d.path) else d
  }

  /** The definition openApp goes on with, or None for an unknown id. */
  function Resolve(ident: AppIdentifier, defs: seq<AppDefinition>): (r: Option<AppDefinition>)
    ensures ident.ById? ==> (r.None? <==> forall i :: 0 <= i < |defs| ==> defs[i].id != ident.id)
    ensures ident.ById? && r.Some? ==>
      r.value.id == ident.id &&
      exists k :: 0 <= k < |defs| && defs[k] == r.value && forall j :: 0 <= j < k ==> defs[j].id != ident.id
    ensures ident.ByDefinition? ==>
      var d := ident.definition;
      r.Some? &&
      r.value.id == d.id && r.value.name == d.name && r.value.isExternal == d.isExternal &&
      r.value.defaultSize == d.defaultSize && r.value.path == d.path &&
      r.value.externalPath == (if d.externalPath != "" then d.externalPath else d.path)
  {
    match ident
    case ById(id) => FindDefinition(defs, id)
    case ByDefinition(d) => Some(Normalize(d))
  }

  datatype Route = External | System | Internal

  /** External first, then the fixed system ids, else internal. */
  function RouteOf(d: AppDefinition): (r: Route)
    ensures r == External <==> d.isExternal
    ensures r == System <==> !d.isExternal && d.id in SYSTEM_APP_IDS
    ensures r == Internal <==> !d.isExternal && d.id !in SYSTEM_APP_IDS
  {
    if d.isExternal then External
    else if d.id in SYSTEM_APP_IDS then System
    else Internal
  }

  /**
   * launchExternalApp's guard: the path an external launch is requested
   * with, or None when the definition is not external or has no external path.
   */
  function ExternalRequest(d: AppDefinition): (r: Option<string>)
    ensures r.Some? <==> d.isExternal && d.externalPath != ""
    ensures r.Some? ==> r.value == d.externalPath
  {
    if !d.isExternal || d.externalPath == "" then None else Some(d.externalPath)
  }

  /** The window state after openApp, and the external launch it requested if any. */
  datatype Outcome = Outcome(state: State, externalLaunch: Option<string>)

  /** A launcher that would append a window has a defined placement for it. */
  predicate OpenDefined(s: State, ident: AppIdentifier, defs: seq<AppDefinition>, data: InitialData, env: Env) {
    match Resolve(ident, defs)
    case None => true
    case Some(d) => !d.isExternal ==> LaunchDefined(s, d, data, env)
  }

  function Open(s: State, ident: AppIdentifier, defs: seq<AppDefinition>, data: InitialData, instanceId: string, env: Env): Outcome
    requires OpenDefined(s, ident, defs, data, env)
  {
    match Resolve(ident, defs)
    case None => Outcome(s, None)
    case Some(d) =>
      match RouteOf(d)
      case External => Outcome(s, ExternalRequest(d))
      case System => Outcome(Launch(s, d, data, instanceId, env), None)
      case Internal => Outcome(Launch(s, d, data, instanceId, env), None)
  }

  /**
   * openApp on the hook's state: resolve, log and stop on an unknown id, else
   * delegate. Returns the external launch it requested, if any.
   */
  method OpenApp(ident: AppIdentifier, deps: Manager, defs: seq<AppDefinition>, data: InitialData, instanceId: string, env: Env)
    returns (externalLaunch: Option<string>)
    requires OpenDefined(deps.Model(), ident, defs, data, env)
    modifies deps
    ensures Outcome(deps.Model(), externalLaunch) == Open(old(deps.Model()), ident, defs, data, instanceId, env)
  {
    var appDef: Option<AppDefinition>;
    match ident {
      case ById(id) =>
        appDef := FindDefinition(defs, id);
      case ByDefinition(d) =>
        appDef := Some(Normalize(d));
    }
    if appDef.None? {
      return None;  // an error is logged; nothing changes
    }
    var d := appDef.value;
    if d.isExternal {
      externalLaunch := ExternalRequest(d);
    } else if d.id in SYSTEM_APP_IDS {
      LaunchSystemApp(d, deps, data, instanceId, env);
      externalLaunch := None;
    } else {
      LaunchInternalApp(d, deps, data, instanceId, env);
      externalLaunch := None;
    }
  }

  // ---------------------------------------------------------------- properties

  /** An id no definition has changes nothing and requests nothing. */
  lemma OpenUnknownNoop(s: State, id: string, defs: seq<AppDefinition>, data: InitialData, instanceId: string, env: Env)
    requires forall i :: 0 <= i < |defs| ==> defs[i].id != id
    ensures OpenDefined(s, ById(id), defs, data, env)
    ensures Open(s, ById(id), defs, data, instanceId, env) == Outcome(s, None)
  {
  }

  /** A known id opens the first definition in list order that has it. */
  lemma OpenByIdUsesFirst(s: State, id: string, defs: seq<AppDefinition>, data: InitialData, instanceId: string, env: Env, k: nat)
    requires k < |defs| && defs[k].id == id && !defs[k].isExternal
    requires forall j :: 0 <= j < k ==> defs[j].id != id
    requires LaunchDefined(s, defs[k], data, env)
    ensures OpenDefined(s, ById(id), defs, data, env)
    ensures Open(s, ById(id), defs, data, instanceId, env) == Outcome(Launch(s, defs[k], data, instanceId, env), None)
  {
    FindDefinitionFirst(defs, id, k);
  }

  /** The lookup returns exactly the definition at the first index with that id. */
  lemma {:induction false} FindDefinitionFirst(defs: seq<AppDefinition>, id: string, k: nat)
    requires k < |defs| && defs[k].id == id
    requires forall j :: 0 <= j < k ==> defs[j].id != id
    ensures FindDefinition(defs, id) == Some(defs[k])
  {
    if k > 0 {
      assert defs[0].id != id;
      assert defs[1..][k - 1] == defs[k];
      assert forall j :: 0 <= j < k - 1 ==> defs[1..][j].id != id by {
        forall j | 0 <= j < k - 1 ensures defs[1..][j].id != id {
          assert defs[1..][j] == defs[j + 1];
        }
      }
      FindDefinitionFirst(defs[1..], id, k - 1);
    }
  }

  /** An external definition leaves the window state alone; its launch is requested with its external path, if it has one. */
  lemma OpenExternalKeepsState(s: State, ident: AppIdentifier, defs: seq<AppDefinition>, data: InitialData, instanceId: string, env: Env)
    requires Resolve(ident, defs).Some? && Resolve(ident, defs).value.isExternal
    ensures OpenDefined(s, ident, defs, data, env)
    ensures var d := Resolve(ident, defs).value;
      Open(s, ident, defs, data, instanceId, env) ==
        Outcome(s, if d.externalPath != "" then Some(d.externalPath) else None)
  {
  }

  /** A partial external definition with only a path is launched with that path; an external path it has wins. */
  lemma OpenPartialExternal(s: State, d: AppDefinition, defs: seq<AppDefinition>, data: InitialData, instanceId: string, env: Env)
    requires d.isExternal
    ensures OpenDefined(s, ByDefinition(d), defs, data, env)
    ensures d.externalPath != "" ==>
      Open(s, ByDefinition(d), defs, data, instanceId, env).externalLaunch == Some(d.externalPath)
    ensures d.externalPath == "" && d.path != "" ==>
      Open(s, ByDefinition(d), defs, data, instanceId, env).externalLaunch == Some(d.path)
    ensures d.externalPath == "" && d.path == "" ==>
      Open(s, ByDefinition(d), defs, data, instanceId, env).externalLaunch == None
  {
  }

  /** An external definition whose id is a system id still goes to the external launcher. */
  lemma ExternalWinsOverSystem(d: AppDefinition)
    requires d.isExternal && d.id in SYSTEM_APP_IDS
    ensures RouteOf(d) == External
  {
  }

  /**
   * For a definition that is not external the resulting state is the shared
   * launch, whether or not its id is a system id.
   */
  lemma OpenIgnoresSystemMembership(s: State, ident: AppIdentifier, defs: seq<AppDefinition>, data: InitialData, instanceId: string, env: Env)
    requires Resolve(ident, defs).Some? && !Resolve(ident, defs).value.isExternal
    requires LaunchDefined(s, Resolve(ident, defs).value, data, env)
    ensures OpenDefined(s, ident, defs, data, env)
    ensures Open(s, ident, defs, data, instanceId, env) ==
      Outcome(Launch(s, Resolve(ident, defs).value, data, instanceId, env), None)
  {
  }

  /** Normalizing twice is normalizing once. */
  lemma NormalizeIdempotent(d: AppDefinition)
    ensures Normalize(Normalize(d)) == Normalize(d)
  {
  }

  /** openApp keeps the window-manager invariant when a new window's id is not taken. */
  lemma OpenKeepsInvariant(s: State, ident: AppIdentifier, defs: seq<AppDefinition>, data: InitialData, instanceId: string, env: Env)
    requires Invariant(s)
    requires OpenDefined(s, ident, defs, data, env)
    requires Absent(s.openApps, instanceId)
    ensures Invariant(Open(s, ident, defs, data, instanceId, env).state)
    ensures Open(s, ident, defs, data, instanceId, env).state.nextZIndex in {s.nextZIndex, s.nextZIndex + 1}
  {
    match Resolve(ident, defs)
    case None =>
    case Some(d) =>
      if !d.isExternal {
        LaunchKeepsInvariant(s, d, data, instanceId, env);
      }
  }
}
