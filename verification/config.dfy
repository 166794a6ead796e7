/** Fixed configuration of the game: screen size, physics constants and the
    fixed-point scales used to keep every quantity an integer.

    - Bird velocity is kept in TENTHS of a pixel per frame, so the gravity of
      0.4 px/frame^2 is 4 and the jump impulse of -9 px/frame is -90.
    - Parallax offsets are kept in HALF pixels, so the layer speeds
      0.5, 1 and 2 px/frame are 1, 2 and 4.
 */
module Config {

  const ScreenWidth: int := 800
  const ScreenHeight: int := 600

  /** The ground band is the bottom 100 px of the screen. */
  const GroundLine: int := ScreenHeight - 100

  /** Velocity scale: one pixel is ten velocity units. */
  const VelocityScale: int := 10
  const Gravity: int := 4
  const JumpVelocity: int := -90

  const PipeSpeed: int := -4
  const PipeGapSize: int := 180
  const HalfGap: int := PipeGapSize / 2
  const PipeWidth: nat := 80

  /** New pipes enter 50 px beyond the right edge. */
  const PipeSpawnX: int := ScreenWidth + 50

  /** Range of the random gap centre drawn for each pipe pair. */
  const MinGapY: int := 200
  const MaxGapY: int := ScreenHeight - 200

  /** Frames of screen shake after a crash. */
  const ShakeFrames: int := 20

  /** The bird's sprite size and the centre it starts at. */
  const BirdWidth: nat := 45
  const BirdHeight: nat := 35
  const BirdStartX: int := 150
  const BirdStartY: int := ScreenHeight / 2

  /** Parallax offsets are in half pixels; a layer wraps after one screen width. */
  const ParallaxWrap: int := 2 * ScreenWidth
}
