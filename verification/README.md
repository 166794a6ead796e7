# Flappy-Bird simulation core in Dafny

This project models the rules of a single-screen Flappy-Bird game (`test.py`) with every drawing and platform call removed. The bird falls under gravity, jumps on SPACE and is clamped at the top of the screen. Pipe pairs enter from the right on a timer and scroll left 4 px per frame. A crash into a pipe or the ground ends the game and starts a 20-frame screen shake. Each crossed pair should score a point, and pipes that have left the screen are retired. SPACE on the game-over screen starts a new session. A three-layer parallax background scrolls in both states.

Everything is an integer:

- The bird's velocity is kept in tenths of a pixel per frame. Gravity 0.4 becomes 4 and the jump impulse −9 becomes −90.
- The pixel move uses Python's `int()` on the velocity, which truncates toward zero. `Avatar.TruncTenths` models it; it does not floor.
- Parallax offsets are kept in half pixels. The layer speeds 0.5, 1 and 2 px become 1, 2 and 4, and the wrap point −800 px becomes −1600.

Randomness enters as data. The gap centre of each pipe pair is carried by the pipe-timer event (`GapY`, from 200 to 400). The game is one immutable record (`GameLoop.Game`). One function applies one event, and one function runs one frame of the main loop.

Modules, leaves first:

- `Config`: the constants.
- `Geometry`: rectangles and the overlap test.
- `Avatar`: the bird.
- `Pipes`: pipe halves, pairs and the well-formed stream of whole pairs.
- `Parallax`: the background layers.
- `Scoring`: the scoring walk and retirement, under the source's rule and under the corrected rule.
- `GameLoop`: events, collisions, frames, runs and the state invariant.

## Notes on the code

The model follows these details of `test.py`:

- `reset_game` does not clear the screen-shake counter, so `GameLoop.Reset` leaves it.
- One key, SPACE, both jumps while playing and restarts after a crash.
- Pipes spawn on timer events rather than on an elapsed-time accumulator.
- Scoring and retirement still run in the frame in which the collision check has just ended the game.
- Scoring as written never awards a point (see Findings). The game loop therefore takes the scoring rule as a parameter: `BottomHalfOnly` is the program as written and `FirstHalfVisited` is the corrected one. Invariant, score and frozen-game properties are proved for both.

## Model

| member | source | states |
|---|---|---|
| Geometry.OverlapIffSharedPixel | test.py:305 | The pipe-collision test (strict overlap, where zero-size rectangles collide with nothing) holds exactly when some pixel lies inside both rectangles. |
| Geometry.WithCenter | test.py:39 | A rectangle placed by its centre has that centre and the requested size. |
| Avatar.InitialBird | test.py:39-40 | A fresh bird is 45 x 35, centred on (150, 300), with velocity 0. |
| Avatar.TruncTenths | test.py:62 | The pixel move is the velocity truncated toward zero: within one pixel below the velocity when falling, and within one pixel above it when rising. |
| Avatar.Update | test.py:58-67 | After a frame the bird's top is never above the screen, and its x and size are unchanged. If the clamp fires, y and velocity are both 0. Otherwise velocity grows by exactly 0.4 and y moves by its truncation. A bird that is not moving up never rises. |
| Avatar.Jump | test.py:73-75 | A jump sets the velocity to exactly −9, whatever it was before, and leaves the rectangle alone. |
| Avatar.FallingBirdAccelerates | test.py:58-67 | Over any number of frames without a jump, a bird that is not moving up gains exactly 0.4 px/frame per frame and never rises. |
| Avatar.FramesStayOnScreen | test.py:64-67 | After any positive number of frames the bird's top edge is on screen. |
| Avatar.FirstFrameOfFreshBird | test.py:58-62 | A fresh bird after one frame has velocity 0.4 and is still centred at y = 300. |
| Avatar.JumpThenFrame | test.py:58-75 | A jump followed by one frame leaves velocity −8.6 and lifts the bird by 8 px, not 9. |
| Pipes.MakePipe | test.py:108-120 | The top half spans y from 0 to gap−90. The bottom half spans y from gap+90 to 600. Both are 80 wide at the given x and start unpassed. |
| Pipes.PipePair | test.py:295-299 | A spawned pair is a top half, then a bottom half, both at x = 850 and both unpassed. |
| Pipes.PairGeometry | test.py:113-120 | A pair's halves tile the column around a gap of exactly 180 px centred on the drawn gap centre. Both halves are at least 110 px tall and share a centre x. |
| Pipes.Scroll | test.py:147-149 | Scrolling moves a half exactly 4 px left and changes nothing else. |
| Pipes.ScrollAll | test.py:277 | Every live half scrolls once per frame, in place. |
| Pipes.PairSharesCenter | test.py:298-299 | Both halves of a pair in a well-formed stream share their centre x and their right edge. |
| Pipes.AppendPairWellFormed | test.py:295-300 | Adding a spawned pair keeps the stream made of whole pairs, top half first. |
| Pipes.ScrollAllWellFormed | test.py:277 | Scrolling keeps the stream made of whole pairs. |
| Parallax.InitialLayers | test.py:170-185 | The three layers start at offset 0 with speeds 0.5, 1 and 2 px, all in range. Each speed divides the 800 px wrap, so the periodicity lemmas apply to the real layers. |
| Parallax.Step | test.py:189-192 | A layer keeps its speed, and a layer with offset in (−800, 0] stays in that range. |
| Parallax.UpdateBackground | test.py:187-192 | Every layer steps once, and all offsets stay in (−800, 0]. |
| Parallax.LinearWithinPeriod | test.py:189-192 | Starting from 0, a layer is at exactly −n·speed after n frames, for n below its period. |
| Parallax.ReturnsAfterPeriod | test.py:189-192 | Starting from 0, a layer is back at 0 after one period (800 px / speed). |
| Parallax.IsPeriodic | test.py:189-192 | Starting from 0, the offset after n + period frames equals the offset after n frames. |
| Parallax.AdvanceStaysValid | test.py:189-192 | A layer in range stays in range for any number of frames. |
| Scoring.MarkPassed | test.py:327-330 | Marking by centre raises exactly the flags of the halves with that centre. It never lowers a flag and never moves a half. |
| Scoring.Sweep | test.py:319-330 | The scoring walk keeps every half in place, never lowers a flag and never lowers the score. |
| Scoring.SweepMarksExactlyCrossed | test.py:324-330 | After the walk, every half whose centre is left of the bird's is passed, and no other half has gained the flag. |
| Scoring.Retire | test.py:333-336 | No retired stream holds a half whose right edge is left of the screen. |
| Scoring.RetireKeepsExactlyTheLive | test.py:333-336 | Retirement keeps every half whose right edge is at or right of x = 0, as often as it occurs, and nothing else. |
| Scoring.RetireFlagsGrow | test.py:333-336 | Retirement depends on geometry alone, so it keeps the same positions of two streams that differ only in raised flags. |
| Scoring.RetireWellFormed | test.py:333-336 | A pair is retired as a whole, so the stream stays made of whole pairs. |
| Scoring.SweepWellFormed | test.py:324-330 | Marking by centre raises both flags of a pair or neither, so the walk keeps the stream made of whole pairs. |
| Scoring.SweepGainBounded | test.py:324-330 | A walk earns no more points than the number of eligible halves whose flag it raises. Since flags only rise, each eligible half earns at most once in its lifetime, and a half already passed earns nothing. |
| Scoring.AsWrittenSweepFrom | test.py:324-330 | Under the source's rule, walking a stream of whole pairs never scores. |
| Scoring.CorrectedSweepFrom | test.py:324-330 | Under the corrected rule, walking a stream of whole pairs with distinct centres scores once per crossed, unpassed pair. |
| Scoring.UpdateScoreAsWritten | test.py:317-336 | The scoring step as written: the score never drops and no off-screen half remains. The surviving halves are the input's live halves, in order, with flags only raised. A stream of whole pairs stays one, and its score never changes. |
| Scoring.UpdateScore | test.py:317-336 | The corrected scoring step: the same monotonicity, retirement and order guarantees, and the stream stays made of whole pairs. With distinct centres the score rises by exactly the number of crossed, unpassed pairs. |
| Scoring.AsWrittenNeverScores | test.py:324-330 | With the source's rule, a stream of whole pairs never earns a point. |
| Scoring.CorrectedScoresEachCrossedPair | test.py:324-330 | With the corrected rule, each crossed, unpassed pair earns exactly one point. |
| Scoring.CrossedPairExample | test.py:300 | For one pair whose centre (x = 100) is left of the bird's (x = 150), the source's rule scores 0 and the corrected rule scores 1. |
| GameLoop.Reset | test.py:218-229 | A restart gives score 0, no pipes, a fresh bird and background, and an active game. The shake counter is unchanged. |
| GameLoop.Initial | test.py:206-216 | Start-up yields an active game with score 0 and no shake that satisfies the state invariant. |
| GameLoop.AddPipePair | test.py:295-301 | A spawn appends exactly the built pair after the existing halves, changes nothing else, and keeps the stream in whole pairs. |
| GameLoop.ApplyEvent | test.py:238-244 | SPACE while playing only sets the velocity to −9. SPACE after a crash is exactly a restart. The pipe timer spawns a pair only while playing. Any other event, and anything but SPACE after a crash, changes nothing. The shake counter is never touched, and the invariant is kept. |
| GameLoop.ApplyEvents | test.py:234-244 | Events of a frame are applied in order. The game is active afterwards exactly when it was active before or a SPACE arrived. While playing, events never change the score. After a crash without SPACE they change nothing. |
| GameLoop.EndGame | test.py:311-314 | A crash makes the game inactive and sets the shake counter to 20, changing nothing else. |
| GameLoop.CheckCollisions | test.py:303-309 | The game stays active exactly when it was active and the bird neither overlaps a pipe nor reaches y = 500. On ground contact the bird's bottom is set to exactly 500. A crash sets the shake to 20, and without one nothing changes. |
| GameLoop.Advance | test.py:277-278 | The moving part of a frame keeps the pipes in whole pairs with distinct centres. The bird keeps its column and size and stays at or below the top of the screen. Nothing but pipes and bird changes. |
| GameLoop.ScrollAllDistinct | test.py:277 | Scrolling keeps distinct pair centres distinct. |
| GameLoop.UpdateGameActive | test.py:274-286 | An active frame ends the game exactly when the moved bird collides, and then sets the shake to 20. The score never drops, no off-screen pipe remains, and the invariant is kept. Under the rule as written the score never changes. Under the corrected rule, with distinct centres, it rises by exactly the number of crossed, unpassed pairs. |
| GameLoop.CountDownShake | test.py:261-263 | The shake counter drops by one while positive and stays put at 0, so it never goes negative. |
| GameLoop.Frame | test.py:233-272 | Under either scoring rule, a frame keeps the state invariant. A frame that starts active never lowers the score. After a crash, without SPACE, bird, pipes and score are frozen. A frame ends the game exactly when its moved state collides, leaving shake 19; otherwise the shake counts down. Under the rule as written, the score changes only when SPACE restarts a finished game, and then becomes 0. |
| GameLoop.RunKeepsInvariant | test.py:233-272 | Under either scoring rule, every state reached by any sequence of frames keeps the invariant. The bird stays between the top of the screen and the ground, the shake within [0, 20], the pipes in whole pairs and the layer offsets in (−800, 0]. |
| GameLoop.ScoreNeverDropsWithoutRestart | test.py:233-272 | Under either scoring rule, the score never drops over a run of frames without SPACE. |
| GameLoop.GameOverIsFrozen | test.py:288-293 | Under either scoring rule, a run after a crash without SPACE leaves the game inactive with bird, pipes and score unchanged. |
| GameLoop.AsWrittenScoreStaysZero | test.py:317-330 | As written, a game that starts with score 0 shows score 0 after any run of frames, restarts included. |

## Left out

- Trail particles (`add_particles`, `update_particles`) and death particles (`create_death_particles`, `update_death_particles`) are left out. They are decorative floating-point effects with random jitter and no influence on play. Because of this, calling `end_game` twice in one frame has no visible difference in the model.
- All drawing is left out: `draw_bird`, `create_pipe_surface`, the layer surfaces of `create_layers`, every `draw*` method, fonts, and the blit that shakes the screen. The random shake offset is therefore not modelled, only its counter.
- The QUIT event (`pygame.quit`, `sys.exit`) ends the process and is not an event of the model.
- `set_timer` and `Clock.tick` are not modelled. Timer firings arrive as `PipeTimer` events in the input, so spawn cadence is not modelled.
- Random gap centres are left out as computation. Each `PipeTimer` event carries its gap centre in [200, 400].
- Avatar.Update: works on exact tenths, but the source adds the float 0.4 repeatedly, and the sum lands just short of whole numbers. After a jump the source's velocity on the 5th frame is −6.999999999999998, which `int()` turns into −6 where the model moves −7. The same one-pixel shortfall recurs on the 10th, 15th and 20th frames after every jump. When falling from rest, the 10th frame gives 3.9999999999999996 and a 3-pixel move where the model moves 4. Only exact decimal arithmetic is modelled.
- Geometry.OverlapIffSharedPixel: the overlap test is written as a plain rectangle predicate, not as the sprite library's own collision code.
- Scoring.UpdateScore: the exact one-point-per-pair count needs distinct pair centres. Two timer events delivered in the same frame would spawn two pairs in the same column, and the model does not exclude that.
- GameLoop.UpdateGameActive: the exact per-pair score under the corrected rule needs distinct pair centres, as for Scoring.UpdateScore.

## Findings

| source | as written | input that shows it | evidently intended | confidence | as-written member | corrected member |
|---|---|---|---|---|---|---|
| test.py:324-330 | A point is added only when an unpassed bottom half is visited. But the group iterates in insertion order and `add_pipe_pair` inserts the top half first (test.py:300). The top half is visited first, earns nothing, and marks both halves passed, so the bottom half is then skipped. The score never rises. | One pair with gap centre 300 and left edge x = 60 (centre 100 < bird centre 150), both halves unpassed: the score stays 0. | Each pair the bird has crossed adds exactly one point, once. | not executed; high (follows from the iteration order alone) | Scoring.UpdateScoreAsWritten (with Scoring.CrossedPairExample and GameLoop.AsWrittenScoreStaysZero) | Scoring.UpdateScore (with GameLoop.UpdateGameActive under FirstHalfVisited) |

The corrected rule awards the point to whichever half of a pair is visited first while it is unpassed. Marking by centre still stops the twin from scoring again.
