/** The player's bird: its rectangle and its vertical velocity.

    The velocity is a fixed-point number in tenths of a pixel per frame
    (see Config). The source keeps it as a float that gains 0.4 per frame;
    moving the bird uses the float truncated toward zero, which TruncTenths
    reproduces exactly on the tenths encoding.
 */
module Avatar {
  import opened Config
  import opened Geometry

  datatype Bird = Bird(rect: Rect, vel: int)

  /** A fresh bird: 45 x 35, centred on (150, 300), at rest. */
  function InitialBird(): (b: Bird)
    ensures b.rect.CenterX() == BirdStartX && b.rect.CenterY() == BirdStartY
    ensures b.rect.w == BirdWidth && b.rect.h == BirdHeight
    ensures b.vel == 0
  {
    Bird(WithCenter(BirdStartX, BirdStartY, BirdWidth, BirdHeight), 0)
  }

  /** Whole pixels in a velocity of `v` tenths, truncated toward zero (not floored). */
  function TruncTenths(v: int): (r: int)
    ensures 0 <= v ==> 0 <= r && VelocityScale * r <= v < VelocityScale * r + VelocityScale
    ensures v < 0 ==> r <= 0 && VelocityScale * r - VelocityScale < v <= VelocityScale * r
  {
    if 0 <= v then v / VelocityScale else -((-v) / VelocityScale)
  }

  /** The top-of-screen clamp fires on this frame: gravity then the move would lift the top above 0. */
  predicate Clamped(b: Bird) {
    b.rect.y + TruncTenths(b.vel + Gravity) < 0
  }

  /** One frame of bird physics: gravity, a move by the truncated velocity, and the clamp. */
  function Update(b: Bird): (r: Bird)
    ensures r.rect.x == b.rect.x && r.rect.w == b.rect.w && r.rect.h == b.rect.h
    ensures 0 <= r.rect.y
    ensures Clamped(b) ==> r.rect.y == 0 && r.vel == 0
    ensures !Clamped(b) ==> r.vel == b.vel + Gravity && r.rect.y - b.rect.y == TruncTenths(r.vel)
    ensures 0 <= b.rect.y && 0 <= b.vel + Gravity ==> b.rect.y <= r.rect.y
  {
    var v := b.vel + Gravity;
    var moved := b.rect.(y := b.rect.y + TruncTenths(v));
    if moved.y < 0 then Bird(moved.(y := 0), 0) else Bird(moved, v)
  }

  /** The jump impulse replaces the velocity whatever it was, and nothing else. */
  function Jump(b: Bird): (r: Bird)
    ensures r.vel == JumpVelocity
    ensures r.rect == b.rect
  {
    b.(vel := JumpVelocity)
  }

  /** `n` frames of bird physics with no jump in between. */
  function Frames(b: Bird, n: nat): Bird
    decreases n
  {
    if n == 0 then b else Frames(Update(b), n - 1)
  }

  /** A bird that is not moving upwards never hits the clamp: every frame adds
      exactly the gravity to its velocity and it never rises. */
  lemma {:induction false} FallingBirdAccelerates(b: Bird, n: nat)
    requires 0 <= b.rect.y && 0 <= b.vel + Gravity
    ensures Frames(b, n).vel == b.vel + n * Gravity
    ensures b.rect.y <= Frames(b, n).rect.y
    ensures Frames(b, n).rect.x == b.rect.x
    decreases n
  {
    if n > 0 {
      var b' := Update(b);
      assert !Clamped(b);
      FallingBirdAccelerates(b', n - 1);
      assert Frames(b, n) == Frames(b', n - 1);
    }
  }

  /** The top edge stays on screen for any number of frames. */
  lemma {:induction false} FramesStayOnScreen(b: Bird, n: nat)
    requires 0 < n
    ensures 0 <= Frames(b, n).rect.y
    decreases n
  {
    if n > 1 {
      FramesStayOnScreen(Update(b), n - 1);
    }
  }

  /** A fresh bird after one frame: velocity 0.4 px/frame, still centred at y = 300. */
  lemma FirstFrameOfFreshBird()
    ensures Update(InitialBird()).vel == 4
    ensures Update(InitialBird()).rect.CenterY() == BirdStartY
  {
  }

  /** A jump followed by one frame moves the bird up by 8 px (-8.6 truncated
      toward zero), from anywhere at least 8 px below the top. */
  lemma JumpThenFrame(b: Bird)
    requires 8 <= b.rect.y
    ensures Update(Jump(b)).vel == JumpVelocity + Gravity
    ensures Update(Jump(b)).rect.y == b.rect.y - 8
  {
  }
}
