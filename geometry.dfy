/**
 * Overlay geometry of the annotation viewer: mapping the mouse to image
 * pixels, the rubber-band box of a drag, and the corner-handle resize table.
 */
module Geometry {

  datatype Point = Point(x: int, y: int)

  /** An axis-aligned box; (x, y) is its top-left corner while width and height are not negative. */
  datatype Box = Box(x: int, y: int, width: int, height: int)

  /** The top-left corner of the overlay's bounding client rectangle (CSS pixels may be fractional). */
  datatype Origin = Origin(left: real, top: real)

  /** The four corner handles drawn on the selected label. */
  datatype Handle = TopLeft | TopRight | BottomLeft | BottomRight

  /** `Math.round`: the nearest integer, halves rounded up. */
  function Round(v: real): (n: int)
    ensures v - 0.5 < n as real <= v + 0.5
  {
    (v + 0.5).Floor
  }

  /** The cursor position relative to the overlay's top-left corner, rounded to a pixel. */
  function MapPoint(clientX: int, clientY: int, o: Origin): (p: Point)
    ensures clientX as real - o.left - 0.5 < p.x as real <= clientX as real - o.left + 0.5
    ensures clientY as real - o.top - 0.5 < p.y as real <= clientY as real - o.top + 0.5
  {
    Point(Round(clientX as real - o.left), Round(clientY as real - o.top))
  }

  /** With the overlay on whole pixels the mapping is an exact translation. */
  lemma MapPointWholePixels(clientX: int, clientY: int, left: int, top: int)
    ensures MapPoint(clientX, clientY, Origin(left as real, top as real)) == Point(clientX - left, clientY - top)
  {
    var p := MapPoint(clientX, clientY, Origin(left as real, top as real));
    assert clientX as real - left as real == (clientX - left) as real;
    assert clientY as real - top as real == (clientY - top) as real;
  }

  function Abs(n: int): int { if n < 0 then -n else n }
  function Min(a: int, b: int): int { if a <= b then a else b }

  /**
   * The working box of a drag from `start` to `cur`: normalised so that it
   * grows from its top-left corner whatever the drag direction.
   */
  function DragBox(start: Point, cur: Point): (b: Box)
    ensures b.width >= 0 && b.height >= 0
    ensures b.x == Min(start.x, cur.x) && b.y == Min(start.y, cur.y)
    ensures b.width == Abs(cur.x - start.x) && b.height == Abs(cur.y - start.y)
  {
    var dx := cur.x - start.x;
    var dy := cur.y - start.y;
    Box(if dx < 0 then cur.x else start.x, if dy < 0 then cur.y else start.y, Abs(dx), Abs(dy))
  }

  /** On each axis the box's two edges are exactly the start point and the cursor. */
  lemma DragBoxSpans(start: Point, cur: Point)
    ensures var b := DragBox(start, cur);
            {b.x, b.x + b.width} == {start.x, cur.x} && {b.y, b.y + b.height} == {start.y, cur.y}
  {
  }

  /** A drag box depends on its two end points only, not on which one the drag began at. */
  lemma DragBoxSymmetric(p: Point, q: Point)
    ensures DragBox(p, q) == DragBox(q, p)
  {
  }

  /** The corner of `b` that handle `h` sits on. */
  function Corner(b: Box, h: Handle): Point
  {
    match h
    case TopLeft => Point(b.x, b.y)
    case TopRight => Point(b.x + b.width, b.y)
    case BottomLeft => Point(b.x, b.y + b.height)
    case BottomRight => Point(b.x + b.width, b.y + b.height)
  }

  /** The handle on the diagonally opposite corner. */
  function Opposite(h: Handle): Handle
  {
    match h
    case TopLeft => BottomRight
    case TopRight => BottomLeft
    case BottomLeft => TopRight
    case BottomRight => TopLeft
  }

  /**
   * One resize step by the cursor delta (dX, dY) on handle `h`. The grabbed
   * corner moves by exactly the delta and the opposite corner stays put; width
   * and height may become negative, nothing clamps them.
   */
  function ResizeBox(b: Box, h: Handle, dX: int, dY: int): (r: Box)
    ensures Corner(r, h) == Point(Corner(b, h).x + dX, Corner(b, h).y + dY)
    ensures Corner(r, Opposite(h)) == Corner(b, Opposite(h))
  {
    match h
    case BottomRight => b.(width := b.width + dX, height := b.height + dY)
    case BottomLeft => b.(x := b.x + dX, width := b.width - dX, height := b.height + dY)
    case TopRight => b.(y := b.y + dY, width := b.width + dX, height := b.height - dY)
    case TopLeft => b.(x := b.x + dX, y := b.y + dY, width := b.width - dX, height := b.height - dY)
  }

  /** Two successive steps on one handle are one step by the summed delta. */
  lemma ResizeCompose(b: Box, h: Handle, dX1: int, dY1: int, dX2: int, dY2: int)
    ensures ResizeBox(ResizeBox(b, h, dX1, dY1), h, dX2, dY2) == ResizeBox(b, h, dX1 + dX2, dY1 + dY2)
  {
  }

  /**
   * A resize gesture replayed over the cursor positions of successive
   * mouse-moves: each step applies the delta since the previous position.
   */
  function Replay(b: Box, h: Handle, last: Point, moves: seq<Point>): Box
    decreases |moves|
  {
    if moves == [] then b
    else Replay(ResizeBox(b, h, moves[0].x - last.x, moves[0].y - last.y), h, moves[0], moves[1..])
  }

  /** Incremental deltas telescope: a whole gesture is one step from the first to the final cursor position. */
  lemma {:induction false} ReplayTelescopes(b: Box, h: Handle, last: Point, moves: seq<Point>)
    requires moves != []
    ensures var final := moves[|moves| - 1];
            Replay(b, h, last, moves) == ResizeBox(b, h, final.x - last.x, final.y - last.y)
    decreases |moves|
  {
    var b1 := ResizeBox(b, h, moves[0].x - last.x, moves[0].y - last.y);
    if |moves| > 1 {
      ReplayTelescopes(b1, h, moves[0], moves[1..]);
      ResizeCompose(b, h, moves[0].x - last.x, moves[0].y - last.y,
                    moves[|moves| - 1].x - moves[0].x, moves[|moves| - 1].y - moves[0].y);
    }
  }
}
