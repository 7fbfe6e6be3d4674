/**
 * The records the window manager works on: application definitions from the
 * registry, open window instances, and the three state cells of the hook
 * (`openApps`, `activeAppInstanceId`, `nextZIndex`).
 */
module Types {
  import opened Wrappers

  datatype Point = Point(x: int, y: int)

  datatype Size = Size(width: int, height: int)

  /**
   * The untyped `initialData` argument: absent (`undefined`) or some payload
   * together with how JavaScript coerces it to a boolean.
   */
  datatype InitialData = Undefined | Data(payload: string, truthy: bool) {
    predicate IsTruthy() {
      Data? && truthy
    }
  }

  /**
   * A catalog entry. The empty string stands for a missing or empty
   * `externalPath` and `path` alike, since the source only tests them for
   * truthiness. `id` is a string: the launchers only test it for
   * truthiness, but the lookup and the system-id test compare it, so a
   * definition without any `id` is not represented (it reads as id "").
   * `path` is the generic field a partial definition may carry.
   */
  datatype AppDefinition = AppDefinition(
    id: string,
    name: string,
    defaultSize: Option<Size>,
    isExternal: bool,
    externalPath: string,
    path: string)

  /** One open window: the definition it was launched from plus its window fields. */
  datatype Window = Window(
    definition: AppDefinition,
    instanceId: string,
    position: Point,
    size: Size,
    zIndex: int,
    isMinimized: bool,
    isMaximized: bool,
    previousPosition: Option<Point>,
    previousSize: Option<Size>,
    title: string,
    initialData: InitialData)

  /** The hook's three state cells, as one value. */
  datatype State = State(
    openApps: seq<Window>,
    activeAppInstanceId: Option<string>,
    nextZIndex: int)

  /**
   * What the source reads from outside at call time: `desktop` is the usable
   * area (container width, container height minus the taskbar height) and
   * `defaultWindowSize` the default window width and height.
   */
  datatype Env = Env(desktop: Size, defaultWindowSize: Size)
}
