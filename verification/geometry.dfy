/**
 * Screen constants of the game and the integer rectangles that stand in for
 * pygame's `Rect`.
 */
module Geometry {

  const SCREEN_WIDTH: int := 800
  /** `int(SCREEN_WIDTH * 0.8)` */
  const SCREEN_HEIGHT: int := 640
  const ROWS: int := 16
  const COLS: int := 150
  /** `SCREEN_HEIGHT // ROWS` */
  const TILE_SIZE: int := 40
  const TILE_TYPES: int := 21
  const SCROLL_THRESH: int := 200
  const GRAVITY: real := 0.75
  const MAX_LEVELS: int := 3

  /**
   * How a fractional pixel coordinate becomes an integer one when it is
   * stored into a rectangle. The library does this conversion; the model
   * takes it as a parameter and never assumes anything about it.
   */
  type Rounding = real -> int

  /** An axis-aligned rectangle with integer corner and size. */
  datatype Rect = Rect(x: int, y: int, w: nat, h: nat) {
    function Left(): int { x }
    function Right(): int { x + w }
    function Top(): int { y }
    function Bottom(): int { y + h }
    function CenterX(): int { x + w / 2 }
    function CenterY(): int { y + h / 2 }

    /** The same rectangle moved by (dx, dy). */
    function Shift(dx: int, dy: int): (r: Rect)
      ensures r.w == w && r.h == h
      ensures r.Left() - Left() == dx && r.Top() - Top() == dy
    {
      Rect(x + dx, y + dy, w, h)
    }

    /** Assigning `rect.center`: the size is kept, the centre becomes (cx, cy). */
    function CenteredAt(cx: int, cy: int): (r: Rect)
      ensures r.w == w && r.h == h
      ensures r.CenterX() == cx && r.CenterY() == cy
    {
      Rect(cx - w / 2, cy - h / 2, w, h)
    }
  }

  /** `colliderect`: the interiors of the two rectangles intersect. */
  predicate Overlaps(a: Rect, b: Rect) {
    a.x < b.x + b.w && b.x < a.x + a.w && a.y < b.y + b.h && b.y < a.y + a.h
  }

  /** Some rectangle of `rs` overlaps `r`. */
  predicate AnyOverlap(r: Rect, rs: seq<Rect>) {
    exists i :: 0 <= i < |rs| && Overlaps(rs[i], r)
  }

  /** The square occupied by grid cell (col, row). */
  function TileRect(col: int, row: int): (r: Rect)
    ensures r.w == TILE_SIZE && r.h == TILE_SIZE
    ensures r.Left() == col * TILE_SIZE && r.Top() == row * TILE_SIZE
  {
    Rect(col * TILE_SIZE, row * TILE_SIZE, TILE_SIZE, TILE_SIZE)
  }
}
