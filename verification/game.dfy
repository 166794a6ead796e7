/** The game state machine: one record for the whole session, one function
    per input event and one per frame.

    A frame first applies the frame's input events in order, then scrolls the
    background, then advances the play (pipes, bird, collisions, scoring) if
    the game is active, and finally counts the screen shake down. While the
    game is over nothing moves except the background and the shake counter.

    Frames and runs take the scoring rule as a parameter: `BottomHalfOnly` is
    the program as written, under which no point is ever scored, and
    `FirstHalfVisited` is the corrected program (see Scoring).
 */
module GameLoop {
  import opened Config
  import opened Geometry
  import opened Avatar
  import opened Pipes
  import opened Parallax
  import opened Scoring

  /** Input of one frame: the space key, any other event, or the pipe timer
      firing (carrying the random gap centre its pair will use). */
  datatype Event = Space | OtherEvent | PipeTimer(gapY: GapY)

  datatype Game = Game(
    background: seq<Layer>,
    bird: Bird,
    pipes: seq<Pipe>,
    score: int,
    active: bool,
    shake: int)

  /** What holds of every reachable state. */
  predicate Inv(g: Game) {
    && g.bird.rect.w == BirdWidth && g.bird.rect.h == BirdHeight
    && g.bird.rect.CenterX() == BirdStartX
    && 0 <= g.bird.rect.y && g.bird.rect.Bottom() <= GroundLine
    && 0 <= g.shake <= ShakeFrames
    && 0 <= g.score
    && WellFormed(g.pipes)
    && forall l :: l in g.background ==> Valid(l)
  }

  /** A new session: the background, bird and pipes are rebuilt, the score is 0
      and the game is active. The shake counter is left as it was. */
  function Reset(g: Game): (r: Game)
    ensures r.active && r.score == 0 && r.pipes == []
    ensures r.bird == InitialBird() && r.background == InitialLayers()
    ensures r.shake == g.shake
    ensures 0 <= g.shake <= ShakeFrames ==> Inv(r)
  {
    Game(InitialLayers(), InitialBird(), [], 0, true, g.shake)
  }

  /** The state at start-up: a reset of an inactive, scoreless, shake-free game. */
  function Initial(): (g: Game)
    ensures Inv(g) && g.active && g.shake == 0 && g.score == 0
  {
    Reset(Game(InitialLayers(), InitialBird(), [], 0, false, 0))
  }

  /** Spawns a pair at the right edge, top half first. */
  function AddPipePair(g: Game, gapY: GapY): (r: Game)
    ensures |r.pipes| == |g.pipes| + 2 && r.pipes[..|g.pipes|] == g.pipes
    ensures r.pipes[|g.pipes|..] == PipePair(gapY)
    ensures r.(pipes := g.pipes) == g
    ensures WellFormed(g.pipes) ==> WellFormed(r.pipes)
  {
    assert WellFormed(g.pipes) ==> WellFormed(g.pipes + PipePair(gapY)) by {
      if WellFormed(g.pipes) {
        AppendPairWellFormed(g.pipes, gapY);
      }
    }
    g.(pipes := g.pipes + PipePair(gapY))
  }

  /** One input event. SPACE jumps while playing and restarts when the game is
      over; the pipe timer spawns a pair only while playing; anything else is
      ignored. */
  function ApplyEvent(g: Game, e: Event): (r: Game)
    ensures e.Space? && g.active ==> r.bird.vel == JumpVelocity && r.bird.rect == g.bird.rect
    ensures e.Space? && g.active ==> r.(bird := g.bird) == g
    ensures e.Space? && !g.active ==> r == Reset(g)
    ensures e.PipeTimer? && g.active ==> r == g.(pipes := g.pipes + PipePair(e.gapY))
    ensures !e.Space? && !g.active ==> r == g
    ensures e.OtherEvent? ==> r == g
    ensures r.active == (g.active || e.Space?)
    ensures r.shake == g.shake
    ensures Inv(g) ==> Inv(r)
  {
    match e
    case Space => if g.active then g.(bird := Jump(g.bird)) else Reset(g)
    case OtherEvent => g
    case PipeTimer(gapY) => if g.active then AddPipePair(g, gapY) else g
  }

  /** The events of one frame, in the order they were received. */
  function ApplyEvents(g: Game, es: seq<Event>): (r: Game)
    ensures r.shake == g.shake
    ensures r.active == (g.active || Space in es)
    ensures g.active ==> r.score == g.score
    ensures !g.active && Space in es ==> r.score == 0
    ensures !g.active && Space !in es ==> r == g
    ensures Inv(g) ==> Inv(r)
    decreases |es|
  {
    if |es| == 0 then g else ApplyEvents(ApplyEvent(g, es[0]), es[1..])
  }

  /** The bird's rectangle overlaps some pipe half. */
  predicate HitsPipe(bird: Rect, ps: seq<Pipe>) {
    exists k :: 0 <= k < |ps| && Overlap(bird, ps[k].rect)
  }

  /** The bird touches a pipe or has reached the ground line. */
  predicate Collided(g: Game) {
    HitsPipe(g.bird.rect, g.pipes) || GroundLine <= g.bird.rect.Bottom()
  }

  /** The crash: the game is over and the screen shakes for 20 frames. */
  function EndGame(g: Game): (r: Game)
    ensures !r.active && r.shake == ShakeFrames
    ensures r.(active := g.active, shake := g.shake) == g
  {
    g.(active := false, shake := ShakeFrames)
  }

  /** Pipe overlap and ground contact, each ending the game; ground contact
      also sets the bird down exactly on the ground line. */
  function CheckCollisions(g: Game): (r: Game)
    ensures r.active <==> g.active && !Collided(g)
    ensures Collided(g) ==> r.shake == ShakeFrames
    ensures !Collided(g) ==> r == g
    ensures GroundLine <= g.bird.rect.Bottom() ==> r.bird.rect.Bottom() == GroundLine
    ensures g.bird.rect.Bottom() < GroundLine ==> r.bird == g.bird
    ensures r.bird.rect.x == g.bird.rect.x && r.bird.rect.w == g.bird.rect.w && r.bird.rect.h == g.bird.rect.h
    ensures r.bird.vel == g.bird.vel
    ensures r.pipes == g.pipes && r.score == g.score && r.background == g.background
  {
    var afterPipes := if HitsPipe(g.bird.rect, g.pipes) then EndGame(g) else g;
    if GroundLine <= afterPipes.bird.rect.Bottom() then
      var landed := afterPipes.bird.(rect := WithBottom(afterPipes.bird.rect, GroundLine));
      EndGame(afterPipes.(bird := landed))
    else
      afterPipes
  }

  /** The movement part of an active frame: every pipe scrolls, then the bird
      moves. The stream stays in whole pairs with distinct centres, and the
      bird stays in its column and below the top of the screen. */
  function Advance(g: Game): (r: Game)
    ensures r.pipes == ScrollAll(g.pipes) && r.bird == Update(g.bird)
    ensures r.(pipes := g.pipes, bird := g.bird) == g
    ensures WellFormed(g.pipes) ==> WellFormed(r.pipes)
    ensures DistinctPairs(g.pipes) ==> DistinctPairs(r.pipes)
    ensures r.bird.rect.x == g.bird.rect.x && r.bird.rect.w == g.bird.rect.w && r.bird.rect.h == g.bird.rect.h
    ensures 0 <= r.bird.rect.y
  {
    assert WellFormed(g.pipes) ==> WellFormed(ScrollAll(g.pipes)) by {
      if WellFormed(g.pipes) {
        ScrollAllWellFormed(g.pipes);
      }
    }
    assert DistinctPairs(g.pipes) ==> DistinctPairs(ScrollAll(g.pipes)) by {
      if DistinctPairs(g.pipes) {
        ScrollAllDistinct(g.pipes);
      }
    }
    g.(pipes := ScrollAll(g.pipes), bird := Update(g.bird))
  }

  /** Scrolling moves every centre by the same amount, so distinct pairs stay distinct. */
  lemma ScrollAllDistinct(ps: seq<Pipe>)
    requires DistinctPairs(ps)
    ensures DistinctPairs(ScrollAll(ps))
  {
    var r := ScrollAll(ps);
    forall j | 0 <= j < |r| / 2
      ensures PairCenter(r, j) == PairCenter(ps, j) + PipeSpeed
    {
    }
  }

  /** An active frame: move, check collisions, then score and retire pipes. The
      scoring step runs even when the collision check has just ended the game.
      As written the score never changes; with the corrected rule it rises by
      the number of pairs the bird has just crossed. */
  function UpdateGameActive(g: Game, rule: Rule): (r: Game)
    requires Inv(g)
    ensures r.active <==> g.active && !Collided(Advance(g))
    ensures r.shake == if Collided(Advance(g)) then ShakeFrames else g.shake
    ensures g.score <= r.score
    ensures forall p :: p in r.pipes ==> 0 <= p.rect.Right()
    ensures rule == BottomHalfOnly ==> r.score == g.score
    ensures rule == FirstHalfVisited && DistinctPairs(g.pipes) ==>
      r.score == g.score + CrossedPairs(ScrollAll(g.pipes), BirdStartX, 0)
    ensures r.background == g.background
    ensures Inv(r)
  {
    var moved := Advance(g);
    var checked := CheckCollisions(moved);
    assert checked.bird.rect.CenterX() == BirdStartX;
    assert 0 <= checked.bird.rect.y && checked.bird.rect.Bottom() <= GroundLine;
    var t := if rule == FirstHalfVisited
      then UpdateScore(checked.pipes, checked.bird.rect.CenterX(), checked.score)
      else UpdateScoreAsWritten(checked.pipes, checked.bird.rect.CenterX(), checked.score);
    checked.(pipes := t.pipes, score := t.score)
  }

  /** Counts the screen shake down by one frame, never below 0. */
  function CountDownShake(g: Game): (r: Game)
    ensures 0 <= g.shake ==> 0 <= r.shake
    ensures 0 < g.shake ==> r.shake == g.shake - 1
    ensures g.shake <= 0 ==> r.shake == g.shake
    ensures r.(shake := g.shake) == g
  {
    if g.shake > 0 then g.(shake := g.shake - 1) else g
  }

  /** One frame of the main loop, given the events received since the last one. */
  function Frame(g: Game, es: seq<Event>, rule: Rule): (r: Game)
    requires Inv(g)
    ensures Inv(r)
    ensures g.active ==> g.score <= r.score
    ensures rule == BottomHalfOnly ==>
      r.score == if !g.active && Space in es then 0 else g.score
    ensures !g.active && Space !in es ==>
      !r.active && r.bird == g.bird && r.pipes == g.pipes && r.score == g.score
    ensures var g1 := ApplyEvents(g, es);
      g1.active && Collided(Advance(g1)) ==> !r.active && r.shake == ShakeFrames - 1
    ensures var g1 := ApplyEvents(g, es);
      !(g1.active && Collided(Advance(g1))) ==>
        r.active == g1.active && r.shake == (if 0 < g.shake then g.shake - 1 else g.shake)
  {
    var g1 := ApplyEvents(g, es);
    var g2 := g1.(background := UpdateBackground(g1.background));
    assert Collided(Advance(g2)) == Collided(Advance(g1));
    var g3 := if g2.active then UpdateGameActive(g2, rule) else g2;
    CountDownShake(g3)
  }

  /** A sequence of frames, each with its own events. */
  function Run(g: Game, frames: seq<seq<Event>>, rule: Rule): Game
    requires Inv(g)
    decreases |frames|
  {
    if |frames| == 0 then g else Run(Frame(g, frames[0], rule), frames[1..], rule)
  }

  /** Every state reached from a valid one is valid: the bird stays between the
      top of the screen and the ground, the shake counter within [0, 20], the
      pipes in whole pairs and the background offsets in range. */
  lemma {:induction false} RunKeepsInvariant(g: Game, frames: seq<seq<Event>>, rule: Rule)
    requires Inv(g)
    ensures Inv(Run(g, frames, rule))
    decreases |frames|
  {
    if |frames| > 0 {
      RunKeepsInvariant(Frame(g, frames[0], rule), frames[1..], rule);
    }
  }

  /** Without SPACE nobody can restart, so the score never goes down, through
      play and game over alike. */
  lemma {:induction false} ScoreNeverDropsWithoutRestart(g: Game, frames: seq<seq<Event>>, rule: Rule)
    requires Inv(g)
    requires forall f :: 0 <= f < |frames| ==> Space !in frames[f]
    ensures g.score <= Run(g, frames, rule).score
    decreases |frames|
  {
    if |frames| > 0 {
      var next := Frame(g, frames[0], rule);
      assert g.score <= next.score;
      ScoreNeverDropsWithoutRestart(next, frames[1..], rule);
    }
  }

  /** Once over, a game stays over and frozen until SPACE. */
  lemma {:induction false} GameOverIsFrozen(g: Game, frames: seq<seq<Event>>, rule: Rule)
    requires Inv(g) && !g.active
    requires forall f :: 0 <= f < |frames| ==> Space !in frames[f]
    ensures !Run(g, frames, rule).active
    ensures Run(g, frames, rule).bird == g.bird && Run(g, frames, rule).pipes == g.pipes
    ensures Run(g, frames, rule).score == g.score
    decreases |frames|
  {
    if |frames| > 0 {
      GameOverIsFrozen(Frame(g, frames[0], rule), frames[1..], rule);
    }
  }

  /** As written the program never scores: from a state with score 0, every
      run of frames, restarts included, ends with score 0. */
  lemma {:induction false} AsWrittenScoreStaysZero(g: Game, frames: seq<seq<Event>>)
    requires Inv(g) && g.score == 0
    ensures Run(g, frames, BottomHalfOnly).score == 0
    decreases |frames|
  {
    if |frames| > 0 {
      AsWrittenScoreStaysZero(Frame(g, frames[0], BottomHalfOnly), frames[1..]);
    }
  }
}
