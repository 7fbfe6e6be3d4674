/** The cascading placement of new windows (`getNextPosition`). */
module Placement {
  import opened Types

  const BASE_OFFSET: int := 20

  function Min(a: int, b: int): int { if a <= b then a else b }

  function Max(a: int, b: int): int { if a >= b then a else b }

  /**
   * The placement is a number only when neither modulus is zero; for a zero
   * modulus JavaScript computes NaN.
   */
  predicate PlacementDefined(desktop: Size, width: int, height: int) {
    desktop.width - width - BASE_OFFSET * 2 != 0 &&
    desktop.height - height - BASE_OFFSET * 2 != 0
  }

  /**
   * One axis of the placement: `room` is the desktop extent minus the window
   * extent. The dividend `visible * 20` is never negative, so JavaScript's
   * truncating `%` and Dafny's Euclidean `%` agree for either sign of the
   * divisor.
   */
  function Axis(visible: nat, room: int): (r: int)
    requires room - BASE_OFFSET * 2 != 0
    ensures room >= 0 ==> 0 <= r <= room
    ensures room < 0 ==> r == 0
  {
    var offset := (visible * BASE_OFFSET) % (room - BASE_OFFSET * 2);
    Max(0, Min(offset + BASE_OFFSET, room))
  }

  /**
   * The position for a new `width` x `height` window when `visible` windows
   * are not minimized: inside the desktop whenever the window fits, at the
   * edge (0) along an axis where it does not.
   */
  function NextPosition(desktop: Size, visible: nat, width: int, height: int): (p: Point)
    requires PlacementDefined(desktop, width, height)
    ensures desktop.width >= width ==> 0 <= p.x <= desktop.width - width
    ensures desktop.width < width ==> p.x == 0
    ensures desktop.height >= height ==> 0 <= p.y <= desktop.height - height
    ensures desktop.height < height ==> p.y == 0
  {
    Point(Axis(visible, desktop.width - width), Axis(visible, desktop.height - height))
  }

  /**
   * Before the offset wraps, the windows cascade: the k-th visible window
   * goes 20 units further along each axis than the one before it.
   */
  lemma AxisCascades(visible: nat, room: int)
    requires visible * BASE_OFFSET < room - BASE_OFFSET * 2
    ensures Axis(visible, room) == visible * BASE_OFFSET + BASE_OFFSET
  {
    var m := room - BASE_OFFSET * 2;
    var a := visible * BASE_OFFSET;
    assert 0 <= a < m;
    assert a % m == a;
  }
}
