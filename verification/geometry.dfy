/** Integer axis-aligned rectangles, in the convention of the game's sprite
    library: (x, y) is the top-left corner, y grows downwards, and the derived
    edges and centres use integer division on the (non-negative) size.
 */
module Geometry {

  datatype Rect = Rect(x: int, y: int, w: nat, h: nat) {

    function Right(): int { x + w }

    function Bottom(): int { y + h }

    function CenterX(): int { x + w / 2 }

    function CenterY(): int { y + h / 2 }

    /** The pixel (px, py) lies inside the rectangle (right and bottom edges excluded). */
    predicate Contains(px: int, py: int) {
      x <= px < x + w && y <= py < y + h
    }
  }

  /** The rectangle of size w x h whose centre is (cx, cy). */
  function WithCenter(cx: int, cy: int, w: nat, h: nat): (r: Rect)
    ensures r.w == w && r.h == h
    ensures r.CenterX() == cx && r.CenterY() == cy
  {
    Rect(cx - w / 2, cy - h / 2, w, h)
  }

  /** The same rectangle moved vertically so that its bottom edge is `bottom`. */
  function WithBottom(r: Rect, bottom: int): (r': Rect)
    ensures r'.x == r.x && r'.w == r.w && r'.h == r.h
    ensures r'.Bottom() == bottom
  {
    r.(y := bottom - r.h)
  }

  /** Strict overlap of two rectangles: touching edges do not collide, and a
      rectangle of zero width or height collides with nothing. */
  predicate Overlap(a: Rect, b: Rect) {
    0 < a.w && 0 < a.h && 0 < b.w && 0 < b.h &&
    a.x < b.Right() && b.x < a.Right() && a.y < b.Bottom() && b.y < a.Bottom()
  }

  /** Overlap is exactly "some pixel lies in both rectangles". */
  lemma OverlapIffSharedPixel(a: Rect, b: Rect)
    ensures Overlap(a, b) <==> exists px, py :: a.Contains(px, py) && b.Contains(px, py)
  {
    if Overlap(a, b) {
      var px := if a.x < b.x then b.x else a.x;
      var py := if a.y < b.y then b.y else a.y;
      assert a.Contains(px, py) && b.Contains(px, py);
    }
  }
}
