/** The scrolling background: each layer's horizontal offset moves left by
    its own speed every frame and jumps back to 0 once it has travelled one
    full screen width. Offsets and speeds are in half pixels (see Config).
 */
module Parallax {
  import opened Config

  datatype Layer = Layer(speed: int, x: int)

  /** Distant clouds (0.5 px/frame), the city (1 px/frame) and the hills (2 px/frame), all at offset 0. */
  function InitialLayers(): (ls: seq<Layer>)
    ensures |ls| == 3
    ensures ls[0].speed == 1 && ls[1].speed == 2 && ls[2].speed == 4
    ensures forall l :: l in ls ==> Valid(l) && EvenSpeed(l) && l.x == 0
  {
    [Layer(1, 0), Layer(2, 0), Layer(4, 0)]
  }

  /** A layer that moves left at a sane speed and whose offset lies in (-800 px, 0]. */
  predicate Valid(l: Layer) {
    0 < l.speed <= ParallaxWrap && -ParallaxWrap < l.x <= 0
  }

  /** One frame of scrolling for one layer. */
  function Step(l: Layer): (r: Layer)
    ensures r.speed == l.speed
    ensures Valid(l) ==> Valid(r)
  {
    var x := l.x - l.speed;
    if x <= -ParallaxWrap then l.(x := 0) else l.(x := x)
  }

  /** One frame of scrolling for every layer. */
  function UpdateBackground(ls: seq<Layer>): (r: seq<Layer>)
    ensures |r| == |ls|
    ensures forall k :: 0 <= k < |ls| ==> r[k] == Step(ls[k])
    ensures (forall l :: l in ls ==> Valid(l)) ==> forall l :: l in r ==> Valid(l)
  {
    seq(|ls|, k requires 0 <= k < |ls| => Step(ls[k]))
  }

  /** `n` frames of scrolling for one layer. */
  function Advance(l: Layer, n: nat): Layer
    decreases n
  {
    if n == 0 then l else Advance(Step(l), n - 1)
  }

  /** Number of frames a layer needs to travel one screen width. */
  function Period(l: Layer): nat
    requires 0 < l.speed
  {
    ParallaxWrap / l.speed
  }

  /** A layer whose speed divides the screen width: the speeds of all three layers do. */
  predicate EvenSpeed(l: Layer) {
    0 < l.speed && ParallaxWrap % l.speed == 0
  }

  lemma {:induction false} AdvanceAdds(l: Layer, a: nat, b: nat)
    ensures Advance(l, a + b) == Advance(Advance(l, a), b)
    decreases a
  {
    if a > 0 {
      assert Advance(l, a + b) == Advance(Step(l), (a - 1) + b);
      AdvanceAdds(Step(l), a - 1, b);
      assert Advance(l, a) == Advance(Step(l), a - 1);
    }
  }

  lemma SpeedTimesPeriod(l: Layer, n: nat)
    requires EvenSpeed(l) && 0 < n < Period(l)
    ensures (n - 1) * l.speed + l.speed == n * l.speed
    ensures n * l.speed < ParallaxWrap
  {
    assert Period(l) * l.speed == ParallaxWrap;
    assert n * l.speed < Period(l) * l.speed;
  }

  /** Within one period a layer started at 0 has moved exactly n * speed. */
  lemma {:induction false} LinearWithinPeriod(l: Layer, n: nat)
    requires EvenSpeed(l) && l.x == 0
    requires n < Period(l)
    ensures Advance(l, n).speed == l.speed
    ensures Advance(l, n).x == -(n * l.speed)
    decreases n
  {
    if n > 0 {
      var prev := Advance(l, n - 1);
      LinearWithinPeriod(l, n - 1);
      AdvanceAdds(l, n - 1, 1);
      assert Advance(l, n) == Step(prev) by {
        assert Advance(prev, 1) == Advance(Step(prev), 0);
      }
      SpeedTimesPeriod(l, n);
    }
  }

  /** After one full period a layer started at 0 is back at 0. */
  lemma ReturnsAfterPeriod(l: Layer)
    requires EvenSpeed(l) && l.x == 0
    ensures Advance(l, Period(l)) == l
  {
    var p := Period(l);
    assert p * l.speed == ParallaxWrap;
    assert 0 < p;
    LinearWithinPeriod(l, p - 1);
    AdvanceAdds(l, p - 1, 1);
    assert (p - 1) * l.speed + l.speed == ParallaxWrap;
  }

  /** From offset 0 the scroll repeats with its period: after n + Period(l)
      frames the layer is where it was after n frames. */
  lemma IsPeriodic(l: Layer, n: nat)
    requires EvenSpeed(l) && l.x == 0
    ensures Advance(l, n + Period(l)) == Advance(l, n)
  {
    ReturnsAfterPeriod(l);
    AdvanceAdds(l, Period(l), n);
  }

  /** A valid layer stays valid, its offset in (-800 px, 0], for any number of frames. */
  lemma {:induction false} AdvanceStaysValid(l: Layer, n: nat)
    requires Valid(l)
    ensures Valid(Advance(l, n))
    decreases n
  {
    if n > 0 {
      AdvanceStaysValid(Step(l), n - 1);
    }
  }
}
