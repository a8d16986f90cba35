/**
 * The integer geometry every sprite works with: pygame's Rect, a tile cell of the
 * tmx trigger layer, strict rectangle overlap, and the truncation pygame applies
 * when a fractional value is stored in an integer Rect field.
 */
module Geometry {

  /** A pygame Rect: integer top-left corner and a non-negative size. */
  datatype Rect = Rect(x: int, y: int, w: nat, h: nat) {
    function Right(): int { x + w }
    function Bottom(): int { y + h }

    /** `rect.right = v`: moves the rect horizontally, size unchanged. */
    function WithRight(v: int): (r: Rect)
      ensures r.Right() == v && r.y == y && r.w == w && r.h == h
    { this.(x := v - w) }

    /** `rect.bottom = v`: moves the rect vertically, size unchanged. */
    function WithBottom(v: int): (r: Rect)
      ensures r.Bottom() == v && r.x == x && r.w == w && r.h == h
    { this.(y := v - h) }

    /** `rect.center`, computed with pygame's integer halving. */
    function Center(): (int, int) { (x + w / 2, y + h / 2) }
  }

  /** `a.colliderect(b)`: the two rectangles share interior points. */
  predicate Overlaps(a: Rect, b: Rect) {
    a.x < b.x + b.w && b.x < a.x + a.w && a.y < b.y + b.h && b.y < a.y + a.h
  }

  /**
   * A tile cell of the trigger layer: its pixel edges and the edges it blocks
   * ('l', 'r', 't', 'b'), taken from its `blockers` property.
   */
  datatype Cell = Cell(left: int, top: int, right: int, bottom: int, blockers: set<char>)

  /** A cell whose edges are in pixel order (the tmx loader builds no other). */
  predicate WellFormed(c: Cell) { c.left <= c.right && c.top <= c.bottom }

  /**
   * The kinematic state a move step acts on: rectangle, vertical velocity,
   * whether the sprite stands on a surface, and whether the double jump is used.
   */
  datatype Body = Body(rect: Rect, dy: real, resting: bool, doubleJumped: bool)

  /**
   * Python's `int(r)`, which is also what storing a float in a Rect field does:
   * truncation toward zero.
   */
  function Trunc(r: real): int {
    if r >= 0.0 then r.Floor else -((-r).Floor)
  }

  /** Truncation drops the fraction toward zero: it never grows the magnitude. */
  lemma TruncBounds(r: real)
    ensures r >= 0.0 ==> 0 <= Trunc(r) && Trunc(r) as real <= r < Trunc(r) as real + 1.0
    ensures r < 0.0 ==> Trunc(r) <= 0 && Trunc(r) as real - 1.0 < r <= Trunc(r) as real
  {
  }

  function MaxReal(a: real, b: real): real { if a >= b then a else b }
  function MinReal(a: real, b: real): real { if a <= b then a else b }
}
