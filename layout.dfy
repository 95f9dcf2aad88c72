/** `MoviePlayer.calculate_centered_position`: where to blit a frame of a given
    size so that it sits in the middle of the window. */
module Layout {

  datatype Size = Size(w: int, h: int)
  datatype Position = Position(x: int, y: int)

  /** Python's `//` on an `int` by a positive divisor rounds toward minus
      infinity, which is what Dafny's Euclidean `/` does for a positive divisor. */
  function HalfFloor(n: int): (q: int)
    ensures n == 2 * q || n == 2 * q + 1
  {
    n / 2
  }

  /** The left (or top) margin is the floor half of the free space; the right
      (or bottom) margin is what is left over. */
  function CenteredPosition(video: Size, window: Size): (p: Position)
    ensures var right := window.w - video.w - p.x; right == p.x || right == p.x + 1
    ensures var bottom := window.h - video.h - p.y; bottom == p.y || bottom == p.y + 1
  {
    Position(HalfFloor(window.w - video.w), HalfFloor(window.h - video.h))
  }

  /** The margins determine the position: any offset whose two margins differ
      by zero or one (the far one being the larger) is the one computed. */
  lemma CenteredPositionUnique(video: Size, window: Size, x: int, y: int)
    requires var right := window.w - video.w - x; right == x || right == x + 1
    requires var bottom := window.h - video.h - y; bottom == y || bottom == y + 1
    ensures CenteredPosition(video, window) == Position(x, y)
  {
  }

  /** When the frame fits in the window, it is drawn entirely inside it. */
  lemma CenteredInsideWindow(video: Size, window: Size)
    requires 0 <= video.w <= window.w && 0 <= video.h <= window.h
    ensures var p := CenteredPosition(video, window);
            0 <= p.x && p.x + video.w <= window.w && 0 <= p.y && p.y + video.h <= window.h
  {
  }

  /** When the frame is wider than the window, it overhangs the near edge, and
      the far edge by the same amount or one pixel less (flush for a one-pixel excess). */
  lemma CenteredOverhang(video: Size, window: Size)
    requires window.w < video.w
    ensures var p := CenteredPosition(video, window);
            p.x < 0 && window.w <= p.x + video.w <= window.w - p.x
  {
  }
}
