# Triangle Dash: a verified model of the game core

Triangle Dash is a one-button arcade game. A triangle ship moves
diagonally across a portrait world 720 by 1280 units in size. SPACE flips
its direction, and it bounces off the side edges. Five brick walls scroll
down towards the ship. Each wall has a gap 235 units wide. A wall that
falls out of the world is recycled above the highest wall, with a new
random gap. The ship scores a point for each wall whose top falls below
it. Overlapping a wall's solid part ends the run, records the high score and
shows the game-over screen. Its "New Game" button starts a new run.

The project models that core in four Dafny modules:

- `Walls` (`wall.dfy`) models `Wall.java`.
  - `WallState` holds a wall's field values.
  - `Step` is the pure effect of `Wall.update`.
  - The class `Wall` has the fields `update` changes in place.
- `Rules` (`rules.dfy`) holds the pure parts of `TriangleDashGame.java`:
  - the constants;
  - the scalar per-tick steps: background scroll, music fade-in, player movement and high score;
  - the hit-box of `getPlayerBounds` and the wall geometry of `checkCollision`;
  - the three passes over the walls (highest wall, advance, scoring), written on field values.
- `Play` (`play.dfy`) states one frame on values.
  - A `Snapshot` holds every field `render()` and `update()` change.
  - The steps are `Initial`, `MoveScene`, `AdvanceAndScore`, `EndRun`, `Tick`, `Restart`, `Touch` and `Frame`.
  - The lemmas prove the facts those steps keep: the game invariant, the
    game-over rule, the high-score bookkeeping and the restart.
- `TriangleDash` (`game.dfy`) holds the class `Game`.
  - It has the game's fields and a `seq<Wall>` of wall objects.
  - Each method updates those fields in place, with the loops of the source.
  - `View()` returns the fields as a `Play.Snapshot`. The top-level methods and `MovePlayerAndScene`, `TickWalls` and `EndRunOnCollision` are proved to perform their `Play` step on it.
  - The loops `HighestWallY`, `AdvanceWalls`, `ScoreWalls`, `CheckWalls` and `ResetWalls` are proved against the `Rules` functions on the walls' field values.
  - `StopMotion`, `SaveHighScore`, `ResetPlayer`, `ResetMovement` and `RestartMusic` state their field updates outright.
  - The top-level methods (the constructor, `Render`, `HandleTouch`, `Update` and `RestartGame`) keep `Valid()`: five distinct walls, each with the world's width, plus `Play.Invariant`. The helper methods they call state only their step and their frame.

Apart from `Play.Touch`, the functions of `Play` have no contracts of their own. The lemmas about them state what they mean.

Inputs the game reads from its host are parameters:

- the frame's delta time,
- a touch already converted to world units,
- whether SPACE was just pressed,
- the random draws, each in [0, 1).

A tick takes one draw per wall, used only if that wall is recycled. A restart takes five draws, one per new wall.

On these points the model follows the code:

- A recycled wall's new gap is `nextFloat() * (720 - 235)`. `nextFloat()` never yields 1, so the gap lies in [0, 485), not [0, 485].
  - `Walls.RandomGap` and `Rules.GapsInRange` use that half-open range.
  - The walls create() and restartGame() build (lines 101, 292) take `(float) Math.random()`. That cast can round a value just below 1 up to 1.0f, which gives a gap of exactly 485. The model gives these walls the same half-open range, which depends on leaving float rounding out (see "## Left out").
- A recycled wall goes `WALL_SPACING` above the highest wall as measured before any wall moved this tick.
  - That wall has itself moved down since, so the spacing after recycling is not exactly 600.
  - The model proves only what the code guarantees: the recycled wall lands at least 600 above every wall's height at the start of the tick (`Rules.RecycledLandsAboveAll`).
- All four bounds of the New Game button are inclusive.
- A touch on the menu's button also runs `update()` in the same frame.
- `Wall.java` does not declare the `passed` flag that `update()` reads and writes.
  - The model adds it.
  - Nothing in the source clears it: `Wall.update` does not, and only `restartGame()` builds new walls.
  - So each of the five walls scores at most once per run, and a run's score never exceeds 5 (`Play.ScoreAtMostWallCount`).

## Model

| member | source | states |
|---|---|---|
| Walls.RandomGap | core/src/main/java/com/mygdx/triangledash/Wall.java:32 | a draw in [0, 1) scaled by the free width puts the whole gap inside the world |
| Walls.Step | core/src/main/java/com/mygdx/triangledash/Wall.java:26-34 | a wall that stays in the world moves down by speed*delta with its gap kept; one that falls below -WALL_HEIGHT lands at highestWallY + spacing with an in-range gap; `passed` is never changed; a stopped wall does not move |
| Walls.StepKeepsGapInRange | core/src/main/java/com/mygdx/triangledash/Wall.java:26-34 | a wall whose gap is in range keeps it in range, whether moved or recycled |
| Walls.Wall.constructor | core/src/main/java/com/mygdx/triangledash/Wall.java:16-23 | a new wall stores both positions unchanged and the world width, and is not yet passed |
| Walls.Wall.Update | core/src/main/java/com/mygdx/triangledash/Wall.java:26-34 | the wall's new fields are `Step` of its old fields; only the gap and the height change |
| Rules.ScrollBackground | core/src/main/java/com/mygdx/triangledash/TriangleDashGame.java:187-191 | the background moves down by scrollSpeed*delta and returns to 0 once it reaches -1920, so it always stays above -1920 |
| Rules.FadeStep | core/src/main/java/com/mygdx/triangledash/TriangleDashGame.java:193-201 | with no fade active nothing changes; during a fade the volume ramps by delta*0.2 and is capped at 0.5; the fade ends exactly when the ramp reaches 0.5 |
| Rules.RestartAsWrittenSkipsFadeIn | core/src/main/java/com/mygdx/triangledash/TriangleDashGame.java:300-303 | after a completed fade, the restart as written returns to full volume on the first tick, so no fade-in happens |
| Rules.RestartFadeRampsFromSilence | core/src/main/java/com/mygdx/triangledash/TriangleDashGame.java:300-303 | the corrected restart starts every new run's fade-in from silence, whatever the fade state before |
| Rules.MovePlayer | core/src/main/java/com/mygdx/triangledash/TriangleDashGame.java:203-222 | the ship moves by playerSpeed*delta in its direction; at or past either side edge it is clamped to the edge with its direction pointing back in; SPACE then flips the direction; the ship always ends inside the world |
| Rules.RecordHighScore | core/src/main/java/com/mygdx/triangledash/TriangleDashGame.java:258-264 | the new high score is the larger of the old one and the score, and it changes exactly when the score beats it |
| Rules.PlayerBounds | core/src/main/java/com/mygdx/triangledash/TriangleDashGame.java:310-320 | the hit-box has the sprite's centre, is 80% of its width and 70% of its height, and lies strictly inside the sprite |
| Rules.HitsWall | core/src/main/java/com/mygdx/triangledash/TriangleDashGame.java:323-333 | a hit-box that collides is within the wall's band and sticks out of the gap on at least one side |
| Rules.InGapNeverCollides | core/src/main/java/com/mygdx/triangledash/TriangleDashGame.java:326-333 | a hit-box horizontally inside the gap never collides |
| Rules.EmptyLeftSegmentNeverCollides | core/src/main/java/com/mygdx/triangledash/TriangleDashGame.java:327 | a wall whose gap starts at 0 has a zero-width left segment, which no hit-box inside the world overlaps |
| Rules.CollidesIffOutsideGap | core/src/main/java/com/mygdx/triangledash/TriangleDashGame.java:326-333 | for a hit-box inside the world and within the wall's band, colliding holds exactly when the box sticks out of the gap |
| Rules.PlayerBoundsInWorld | core/src/main/java/com/mygdx/triangledash/TriangleDashGame.java:310-320 | a ship inside the world has a non-empty hit-box inside the world |
| Rules.InButton | core/src/main/java/com/mygdx/triangledash/TriangleDashGame.java:146-147 | the button test: a touch hits the button when it is within all four bounds, inclusive (the same test on the game-over screen, lines 165-166); used by `Play.Touch` and `Play.FrameIdle` |
| Rules.RestartFadeAsWritten | core/src/main/java/com/mygdx/triangledash/TriangleDashGame.java:300-303 | the fade state restartGame() as written leaves: fade-in on, the volume field kept; see Rules.RestartAsWrittenSkipsFadeIn |
| Rules.RestartFade | core/src/main/java/com/mygdx/triangledash/TriangleDashGame.java:300-303 | the corrected fade state of a restart: fade-in on from volume 0; see Rules.RestartFadeRampsFromSilence |
| Rules.Overlaps | core/src/main/java/com/mygdx/triangledash/TriangleDashGame.java:333 | the rectangle overlap test of libGDX, with strict comparisons so that touching edges do not overlap; see Rules.InGapNeverCollides and Rules.CollidesIffOutsideGap |
| Rules.LeftSegment | core/src/main/java/com/mygdx/triangledash/TriangleDashGame.java:327 | the solid part of a wall left of its gap; see Rules.EmptyLeftSegmentNeverCollides |
| Rules.RightSegment | core/src/main/java/com/mygdx/triangledash/TriangleDashGame.java:330 | the solid part of a wall right of its gap, up to the world's edge; see Rules.CollidesIffOutsideGap |
| Rules.Collides | core/src/main/java/com/mygdx/triangledash/TriangleDashGame.java:323-333 | checkCollision(wall) without its audio: the player's hit-box overlaps a segment; see Rules.HitsWall and Rules.CollidesIffOutsideGap |
| Rules.Highest | core/src/main/java/com/mygdx/triangledash/TriangleDashGame.java:224-230 | the highestWallY search result, never below 0; see Rules.HighestIsMaximum |
| Rules.InitialWalls | core/src/main/java/com/mygdx/triangledash/TriangleDashGame.java:99-104 | five unpassed walls, with their gaps in range, at heights 1280 + i*600 |
| Rules.HighestIsMaximum | core/src/main/java/com/mygdx/triangledash/TriangleDashGame.java:224-230 | the search's result is at least every wall's height, and is either 0 or some wall's height |
| Rules.AdvanceAll | core/src/main/java/com/mygdx/triangledash/TriangleDashGame.java:232-235 | every wall is stepped with the same highestWallY, each with its own draw |
| Rules.RecycledLandsAboveAll | core/src/main/java/com/mygdx/triangledash/TriangleDashGame.java:224-235 | a wall recycled this tick lands at least 600 above the height every wall had before the tick |
| Rules.AdvanceKeepsGapsInRange | core/src/main/java/com/mygdx/triangledash/TriangleDashGame.java:232-235 | advancing the walls keeps every gap in range |
| Rules.AdvanceKeepsCountPassed | core/src/main/java/com/mygdx/triangledash/TriangleDashGame.java:232-235 | advancing the walls neither marks nor unmarks any wall as passed |
| Rules.Scored | core/src/main/java/com/mygdx/triangledash/TriangleDashGame.java:239-241 | the scoring pass leaves a wall's position alone and marks it passed once its top is below the ship |
| Rules.ScorePass | core/src/main/java/com/mygdx/triangledash/TriangleDashGame.java:237-248 | the scoring pass treats each wall independently and keeps their order |
| Rules.ScorePassCount | core/src/main/java/com/mygdx/triangledash/TriangleDashGame.java:237-248 | the number of walls marked passed grows by exactly the number of points scored |
| Rules.ScorePassOnce | core/src/main/java/com/mygdx/triangledash/TriangleDashGame.java:239-241 | a second scoring pass over the same walls scores nothing and changes nothing, so a wall is scored once |
| Rules.CountNewlyPassedZero | core/src/main/java/com/mygdx/triangledash/TriangleDashGame.java:239 | walls that are already passed, or whose top is not below the ship, score nothing |
| Rules.CountPassedAtMostLength | core/src/main/java/com/mygdx/triangledash/TriangleDashGame.java:238-241 | no more walls are passed than there are walls |
| Rules.WallPass | core/src/main/java/com/mygdx/triangledash/TriangleDashGame.java:224-248 | after a tick, each wall is the scored version of its step, with highestWallY taken before any wall moved |
| Rules.WallPassKeeps | core/src/main/java/com/mygdx/triangledash/TriangleDashGame.java:224-248 | the walls' part of a tick keeps every gap in range and adds to the passed count exactly the points the tick scores |
| Play.Initial | core/src/main/java/com/mygdx/triangledash/TriangleDashGame.java:95-112 | the state create() leaves, on values; see Play.InitialInvariant |
| Play.MoveScene | core/src/main/java/com/mygdx/triangledash/TriangleDashGame.java:187-222 | the background, fade and player part of update() on values; see Play.TickMovesPlayer |
| Play.AdvanceAndScore | core/src/main/java/com/mygdx/triangledash/TriangleDashGame.java:224-248 | the wall part of update() on values; see Rules.WallPassKeeps and Play.TickOutcome |
| Play.EndRun | core/src/main/java/com/mygdx/triangledash/TriangleDashGame.java:250-270 | the collision loop with checkCollision's fadingIn := false (line 339) on values; see Play.TickOutcome |
| Play.Tick | core/src/main/java/com/mygdx/triangledash/TriangleDashGame.java:184-272 | update() on values; see Play.TickKeepsInvariant, Play.TickOutcome and Play.TickMovesPlayer |
| Play.Restart | core/src/main/java/com/mygdx/triangledash/TriangleDashGame.java:275-307 | restartGame() on values, with the corrected fade-in; see Play.RestartInvariant and Play.RestartForgetsRun |
| Play.Frame | core/src/main/java/com/mygdx/triangledash/TriangleDashGame.java:140-177 | one frame of render() without drawing, on values; see Play.FrameKeepsInvariant, Play.FrameBookkeeping and Play.FrameIdle |
| Play.InitialInvariant | core/src/main/java/com/mygdx/triangledash/TriangleDashGame.java:95-112 | the state create() leaves satisfies the game invariant |
| Play.TickKeepsInvariant | core/src/main/java/com/mygdx/triangledash/TriangleDashGame.java:184-272 | a tick of a running game keeps the invariant: five walls, gaps in range, score equal to the number of passed walls, speeds either the starting ones or all 0 after a crash, ship inside the world, volume at most 0.5 |
| Play.TickOutcome | core/src/main/java/com/mygdx/triangledash/TriangleDashGame.java:237-270 | in one tick the score grows by the walls newly passed; the run ends exactly when the ship then hits some wall; on a crash everything stops and the high score is recorded; storage is written exactly when the new score beats the old high score |
| Play.TickMovesPlayer | core/src/main/java/com/mygdx/triangledash/TriangleDashGame.java:187-222 | a tick moves the ship by the clamped step at its fixed height and scrolls the background |
| Play.RestartInvariant | core/src/main/java/com/mygdx/triangledash/TriangleDashGame.java:275-307 | whatever the state before, a restart establishes the invariant |
| Play.RestartForgetsRun | core/src/main/java/com/mygdx/triangledash/TriangleDashGame.java:275-307 | for the restart with the corrected fade-in, the state after it depends only on the draws, the scroll position and the high score; restarting twice gives the same state as restarting once |
| Play.Touch | core/src/main/java/com/mygdx/triangledash/TriangleDashGame.java:144-173 | a touch on the button (all bounds inclusive) on the menu starts a run with score 0 and the fade-in on, and changes nothing else; on the game-over screen it restarts; any other touch, or any touch while playing, changes nothing |
| Play.TouchKeepsInvariant | core/src/main/java/com/mygdx/triangledash/TriangleDashGame.java:144-173 | the button handling keeps the invariant |
| Play.FrameKeepsInvariant | core/src/main/java/com/mygdx/triangledash/TriangleDashGame.java:140-177 | every frame keeps the invariant |
| Play.FrameBookkeeping | core/src/main/java/com/mygdx/triangledash/TriangleDashGame.java:140-177 | in one frame the high score never drops and storage is written at most once, only when the high score rises; once the menu is left it never returns |
| Play.FrameIdle | core/src/main/java/com/mygdx/triangledash/TriangleDashGame.java:144-177 | on the menu or game-over screen, a frame with no touch on the button changes nothing |
| Play.ScoreAtMostWallCount | core/src/main/java/com/mygdx/triangledash/TriangleDashGame.java:237-248 | in any reachable state the score lies between 0 and 5 |
| TriangleDash.Game.constructor | core/src/main/java/com/mygdx/triangledash/TriangleDashGame.java:95-112 | create(): the fields are those of `Play.Initial`, the five walls are fresh objects, and the invariant holds |
| TriangleDash.Game.Render | core/src/main/java/com/mygdx/triangledash/TriangleDashGame.java:140-177 | one frame without drawing performs `Play.Frame` on the fields and keeps the invariant |
| TriangleDash.Game.HandleTouch | core/src/main/java/com/mygdx/triangledash/TriangleDashGame.java:144-173 | performs `Play.Touch` and keeps the invariant; the wall objects are either kept or all new |
| TriangleDash.Game.Update | core/src/main/java/com/mygdx/triangledash/TriangleDashGame.java:184-272 | performs `Play.Tick` on the fields, keeps the invariant, and keeps the same wall objects |
| TriangleDash.Game.MovePlayerAndScene | core/src/main/java/com/mygdx/triangledash/TriangleDashGame.java:187-222 | performs `Play.MoveScene`; only the background, fade and ship fields change |
| TriangleDash.Game.TickWalls | core/src/main/java/com/mygdx/triangledash/TriangleDashGame.java:224-248 | performs `Play.AdvanceAndScore`; only the walls and the score change |
| TriangleDash.Game.HighestWallY | core/src/main/java/com/mygdx/triangledash/TriangleDashGame.java:224-230 | the loop returns `Rules.Highest` of the walls' heights |
| TriangleDash.Game.AdvanceWalls | core/src/main/java/com/mygdx/triangledash/TriangleDashGame.java:232-235 | after the loop the walls' fields are `Rules.AdvanceAll` of their old fields |
| TriangleDash.Game.ScoreWalls | core/src/main/java/com/mygdx/triangledash/TriangleDashGame.java:237-248 | after the loop the walls' fields are `Rules.ScorePass` of their old fields, and the score has grown by the number of walls marked |
| TriangleDash.Game.EndRunOnCollision | core/src/main/java/com/mygdx/triangledash/TriangleDashGame.java:250-270 | performs `Play.EndRun` and keeps the wall objects |
| TriangleDash.Game.CheckWalls | core/src/main/java/com/mygdx/triangledash/TriangleDashGame.java:251-252 | returns true exactly when checkCollision reports some wall |
| TriangleDash.Game.StopMotion | core/src/main/java/com/mygdx/triangledash/TriangleDashGame.java:253-256 | sets the three speeds to 0 and changes nothing else |
| TriangleDash.Game.SaveHighScore | core/src/main/java/com/mygdx/triangledash/TriangleDashGame.java:258-264 | the high score becomes `Rules.RecordHighScore` of the old one and the score; one write is counted exactly when it was beaten |
| TriangleDash.Game.RestartGame | core/src/main/java/com/mygdx/triangledash/TriangleDashGame.java:275-307 | performs `Play.Restart` (with the corrected fade-in), establishes the invariant, and leaves five new wall objects |
| TriangleDash.Game.ResetPlayer | core/src/main/java/com/mygdx/triangledash/TriangleDashGame.java:276-278 | puts the ship back at its start and changes nothing else |
| TriangleDash.Game.ResetMovement | core/src/main/java/com/mygdx/triangledash/TriangleDashGame.java:280-284 | sets the direction to right and the three speeds to their starting values, and changes nothing else |
| TriangleDash.Game.RestartMusic | core/src/main/java/com/mygdx/triangledash/TriangleDashGame.java:300-303 | turns the fade-in back on and, as corrected under Findings, also sets the volume field it ramps from to 0; changes nothing else |
| TriangleDash.Game.ResetWalls | core/src/main/java/com/mygdx/triangledash/TriangleDashGame.java:289-295 | replaces the walls with five new, distinct objects whose fields are `Rules.InitialWalls` of the draws |

## Left out

- Drawing, textures, fonts, the camera and the viewport are left out. The world is fixed at 720 by 1280 units.
- Reading the pointer and screen size to convert a touch into world units (lines 141-142) is left out. Touches arrive in world units.
- Sound effects and music playback are left out. The only part of the audio kept is the `gameMusicVolume` and `fadingIn` fields, which the tick reads.
- The preferences store is left out.
  - Loading the high score is the constructor's `storedHighScore` parameter.
  - Each write is counted by the ghost field `saves`.
- The debug messages are left out.
- `float` arithmetic is modelled on exact reals. Rounding is not modelled.
- `Math.random()` and `random.nextFloat()` become draws in [0, 1) passed in as parameters.
- `Wall.screenWidth` and `Wall.screenHeight` are statics that every constructor sets from the same viewport in the Java code. They are modelled as a per-wall constant screen width, which `Valid()` requires to be the world's width. The height is never read.
- TriangleDash.Game.Update: requires a running game. Its only caller, `render()`, calls it only in that case, and the model does not cover an `update()` on the menu or game-over screen.
- TriangleDash.Game.CheckWalls: the collision loop's early `return` (line 268) is modelled as a search that stops at the first hit, followed by one game-over block. The block's effects do not depend on which wall was hit.
- TriangleDash.Game.RestartGame: rebuilds the walls after the other field resets, not between them as at lines 290-295. No other reset reads or writes the walls, so the end state is the same.
- TriangleDash.Game.RestartGame: uses the corrected fade-in described under Findings, not the code as written. The as-written behaviour is stated by `Rules.RestartFadeAsWritten`.
- TriangleDash.Game.RestartMusic: sets `gameMusicVolume` to 0, which lines 300-303 as written do not; the code as written keeps that field's old value.
- Play.Restart: performs the corrected restart; the code as written carries `gameMusicVolume` over from the run before.
- Play.RestartForgetsRun: holds for the corrected restart. For the code as written, a restart also depends on the old `gameMusicVolume`, so its first ensures would need the two states to agree on that field too.

## Findings

| source | as written | input that shows it | evidently intended | confidence | as-written member | corrected member |
|---|---|---|---|---|---|---|
| core/src/main/java/com/mygdx/triangledash/TriangleDashGame.java:300-303 | `restartGame()` sets the music device's volume to 0 and turns the fade-in on. It leaves `gameMusicVolume`, the value the ramp starts from, unchanged. | After a run whose fade-in completed (`gameMusicVolume` = 0.5, not fading), press New Game. The next tick with delta >= 0 sets the volume straight back to 0.5 and ends the fade. | Each new run's music fades in from silence, as it does on the first run: the restart also resets `gameMusicVolume` to 0. | not executed | Rules.RestartAsWrittenSkipsFadeIn | Rules.RestartFadeRampsFromSilence |
