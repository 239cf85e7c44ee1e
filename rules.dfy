/**
 * The pure part of TriangleDashGame.java: its constants, the per-tick
 * arithmetic on scalars (background scroll, music fade-in, player movement,
 * high score), the hit-box and wall geometry, and the passes over the wall
 * field stated on the walls' field values.
 */
module Rules {
  import opened Walls

  // World size of the FitViewport created in create() (lines 89-92).
  const WORLD_WIDTH: real := 720.0
  const WORLD_HEIGHT: real := 1280.0
  /** Height of the background image; the scroll wraps after one image. */
  const BACKGROUND_HEIGHT: real := 1920.0

  const PLAYER_SIZE: real := 75.0
  /** Initial and restart position of the player: centred, a fifth up. */
  const START_X: real := WORLD_WIDTH / 2.0 - PLAYER_SIZE / 2.0
  const PLAYER_Y: real := WORLD_HEIGHT / 5.0

  // Motion speeds a run starts with, in world units per second.
  const SCROLL_SPEED: real := 100.0
  const WALL_SPEED: real := 500.0
  const PLAYER_SPEED: real := 400.0

  const WALL_COUNT: nat := 5
  const WALL_SPACING: real := 600.0

  // The "New Game" button; the same one on the menu and the game-over screen.
  const BUTTON_WIDTH: real := 300.0
  const BUTTON_HEIGHT: real := 100.0
  const BUTTON_X: real := (WORLD_WIDTH - BUTTON_WIDTH) / 2.0
  const BUTTON_Y: real := WORLD_HEIGHT / 2.0 - 260.0

  // Game music fade-in: volume per second and the volume it stops at.
  const FADE_RATE: real := 0.2
  const TARGET_VOLUME: real := 0.5

  datatype GameState = Menu | Playing | GameOver

  /** Whether a touch falls on the button; all four bounds are inclusive. */
  predicate InButton(x: real, y: real) {
    BUTTON_X <= x <= BUTTON_X + BUTTON_WIDTH && BUTTON_Y <= y <= BUTTON_Y + BUTTON_HEIGHT
  }

  // ---------------------------------------------------------------- scalars

  /** Background scroll: move down, and start over once one image height has gone by. */
  function ScrollBackground(backgroundY: real, scrollSpeed: real, delta: real): (y: real)
    ensures y > -BACKGROUND_HEIGHT
    ensures backgroundY - scrollSpeed * delta > -BACKGROUND_HEIGHT ==> y == backgroundY - scrollSpeed * delta
    ensures backgroundY - scrollSpeed * delta <= -BACKGROUND_HEIGHT ==> y == 0.0
  {
    var moved := backgroundY - scrollSpeed * delta;
    if moved <= -BACKGROUND_HEIGHT then 0.0 else moved
  }

  /** The game music's volume and whether it is still being ramped up. */
  datatype Fade = Fade(volume: real, fadingIn: bool)

  /** One tick of the fade-in: ramp linearly, stop at the target volume. */
  function FadeStep(f: Fade, delta: real): (f': Fade)
    ensures !f.fadingIn ==> f' == f
    ensures f.fadingIn ==> f'.volume <= TARGET_VOLUME
    ensures f.fadingIn ==> (f'.fadingIn <==> f.volume + delta * FADE_RATE < TARGET_VOLUME)
    ensures f.fadingIn && f'.fadingIn ==> f'.volume == f.volume + delta * FADE_RATE
    ensures f.fadingIn && !f'.fadingIn ==> f'.volume == TARGET_VOLUME
  {
    if !f.fadingIn then f
    else
      var v := f.volume + delta * FADE_RATE;
      if v >= TARGET_VOLUME then Fade(TARGET_VOLUME, false) else Fade(v, true)
  }

  /**
   * The fade state restartGame leaves behind, as written (lines 302-303): the
   * device volume is set to 0 but the field the ramp starts from is kept.
   */
  function RestartFadeAsWritten(f: Fade): Fade {
    Fade(f.volume, true)
  }

  /** After a completed fade, the restart as written jumps back to full volume at once. */
  lemma RestartAsWrittenSkipsFadeIn(delta: real)
    requires delta >= 0.0
    ensures FadeStep(RestartFadeAsWritten(Fade(TARGET_VOLUME, false)), delta) == Fade(TARGET_VOLUME, false)
  {
  }

  /** The fade state restartGame evidently intends: silent, then ramped up. */
  function RestartFade(f: Fade): Fade {
    Fade(0.0, true)
  }

  /**
   * Whatever the fade state before, the corrected restart ramps up from
   * silence: the first tick gives delta*FADE_RATE, capped at the target.
   */
  lemma RestartFadeRampsFromSilence(f: Fade, delta: real)
    requires delta >= 0.0
    ensures var g := FadeStep(RestartFade(f), delta);
      g.volume == (if delta * FADE_RATE < TARGET_VOLUME then delta * FADE_RATE else TARGET_VOLUME)
    ensures delta * FADE_RATE < TARGET_VOLUME ==> FadeStep(RestartFade(f), delta).fadingIn
  {
  }

  /** The player's horizontal position and direction. */
  datatype Motion = Motion(x: real, movingRight: bool)

  /** Where the player would be after moving at `speed` in its direction, before clamping. */
  function Unclamped(m: Motion, speed: real, delta: real): real {
    if m.movingRight then m.x + speed * delta else m.x - speed * delta
  }

  /**
   * Player movement (lines 204-222): move, clamp to the world with the
   * direction pointing back inside, then the SPACE key inverts the direction.
   */
  function MovePlayer(m: Motion, speed: real, delta: real, toggle: bool): (m': Motion)
    ensures 0.0 <= m'.x <= WORLD_WIDTH - PLAYER_SIZE
    ensures var x := Unclamped(m, speed, delta);
      && (x <= 0.0 ==> m'.x == 0.0 && m'.movingRight == !toggle)
      && (0.0 < x && x + PLAYER_SIZE >= WORLD_WIDTH ==> m'.x == WORLD_WIDTH - PLAYER_SIZE && m'.movingRight == toggle)
      && (0.0 < x && x + PLAYER_SIZE < WORLD_WIDTH ==> m'.x == x && m'.movingRight == (m.movingRight != toggle))
  {
    var x := Unclamped(m, speed, delta);
    var clamped :=
      if x <= 0.0 then Motion(0.0, true)
      else if x + PLAYER_SIZE >= WORLD_WIDTH then Motion(WORLD_WIDTH - PLAYER_SIZE, false)
      else Motion(x, m.movingRight);
    if toggle then clamped.(movingRight := !clamped.movingRight) else clamped
  }

  /** The high score after a run that ended with `score`. */
  function RecordHighScore(highScore: int, score: int): (h: int)
    ensures h >= highScore && h >= score
    ensures h == highScore || h == score
    ensures h != highScore <==> score > highScore
  {
    if score > highScore then score else highScore
  }

  // --------------------------------------------------------------- geometry

  /** An axis-aligned rectangle with its lower-left corner at (x, y). */
  datatype Rect = Rect(x: real, y: real, width: real, height: real)

  /** Rectangle overlap with strict comparisons: touching edges do not overlap. */
  predicate Overlaps(a: Rect, b: Rect) {
    a.x < b.x + b.width && a.x + a.width > b.x && a.y < b.y + b.height && a.y + a.height > b.y
  }

  /**
   * getPlayerBounds: the nominal square shrunk by 20% of its size across and
   * 30% up, half of each inset taken off each side.
   */
  function PlayerBounds(playerX: real, playerY: real): (b: Rect)
    ensures playerX < b.x && b.x + b.width < playerX + PLAYER_SIZE
    ensures playerY < b.y && b.y + b.height < playerY + PLAYER_SIZE
    ensures b.x + b.width / 2.0 == playerX + PLAYER_SIZE / 2.0
    ensures b.y + b.height / 2.0 == playerY + PLAYER_SIZE / 2.0
    ensures b.width == 0.8 * PLAYER_SIZE && b.height == 0.7 * PLAYER_SIZE
  {
    var paddingX := PLAYER_SIZE * 0.2;
    var paddingY := PLAYER_SIZE * 0.3;
    Rect(playerX + paddingX / 2.0, playerY + paddingY / 2.0, PLAYER_SIZE - paddingX, PLAYER_SIZE - paddingY)
  }

  /** The solid part of a wall left of its gap. */
  function LeftSegment(w: WallState): Rect {
    Rect(0.0, w.wallY, w.gapX, WALL_HEIGHT)
  }

  /** The solid part of a wall right of its gap, up to the edge of the world. */
  function RightSegment(w: WallState): Rect {
    Rect(w.gapX + GAP_SIZE, w.wallY, WORLD_WIDTH - (w.gapX + GAP_SIZE), WALL_HEIGHT)
  }

  /**
   * The geometric test of checkCollision: the hit-box overlaps one of the two
   * solid segments. A colliding hit-box is in the wall's band and sticks out
   * of its gap.
   */
  predicate HitsWall(b: Rect, w: WallState)
    ensures HitsWall(b, w) ==> b.y < w.wallY + WALL_HEIGHT && b.y + b.height > w.wallY
    ensures HitsWall(b, w) ==> b.x < w.gapX || b.x + b.width > w.gapX + GAP_SIZE
  {
    Overlaps(b, LeftSegment(w)) || Overlaps(b, RightSegment(w))
  }

  /** checkCollision(wall) for a player at (playerX, playerY), without its audio calls. */
  predicate Collides(playerX: real, playerY: real, w: WallState) {
    HitsWall(PlayerBounds(playerX, playerY), w)
  }

  /** A hit-box that lies horizontally inside the gap never collides. */
  lemma InGapNeverCollides(b: Rect, w: WallState)
    requires w.gapX <= b.x && b.x + b.width <= w.gapX + GAP_SIZE
    ensures !HitsWall(b, w)
  {
  }

  /** A left segment of width 0 never collides with a hit-box inside the world. */
  lemma EmptyLeftSegmentNeverCollides(b: Rect, w: WallState)
    requires w.gapX == 0.0 && b.x >= 0.0
    ensures !Overlaps(b, LeftSegment(w))
  {
  }

  /**
   * For a hit-box of positive size inside the world and within the wall's
   * band, colliding is exactly sticking out of the gap.
   */
  lemma CollidesIffOutsideGap(b: Rect, w: WallState)
    requires b.width > 0.0 && b.height > 0.0
    requires 0.0 <= b.x && b.x + b.width <= WORLD_WIDTH
    requires b.y < w.wallY + WALL_HEIGHT && b.y + b.height > w.wallY
    ensures HitsWall(b, w) <==> (b.x < w.gapX || b.x + b.width > w.gapX + GAP_SIZE)
  {
  }

  /** The hit-box of a player inside the world lies inside the world. */
  lemma PlayerBoundsInWorld(playerX: real, playerY: real)
    requires 0.0 <= playerX <= WORLD_WIDTH - PLAYER_SIZE
    ensures var b := PlayerBounds(playerX, playerY);
      b.width > 0.0 && b.height > 0.0 && 0.0 <= b.x && b.x + b.width <= WORLD_WIDTH
  {
  }

  // ------------------------------------------------------------- wall field

  /** The five walls create() and restartGame() build: one draw each. */
  function InitialWalls(draws: seq<real>): (s: seq<WallState>)
    requires ValidDraws(draws, WALL_COUNT)
    ensures |s| == WALL_COUNT
    ensures forall i :: 0 <= i < |s| ==> !s[i].passed && GapInRange(s[i].gapX, WORLD_WIDTH)
    ensures forall i :: 0 <= i < |s| ==> s[i].wallY == WORLD_HEIGHT + (i as real) * WALL_SPACING
  {
    seq(WALL_COUNT, i requires 0 <= i < WALL_COUNT =>
      WallState(RandomGap(draws[i], WORLD_WIDTH), WORLD_HEIGHT + (i as real) * WALL_SPACING, false))
  }

  /** Every wall's gap lies inside the world. */
  predicate GapsInRange(s: seq<WallState>) {
    forall i :: 0 <= i < |s| ==> GapInRange(s[i].gapX, WORLD_WIDTH)
  }

  /**
   * The value of highestWallY after the search of lines 225-230: the largest
   * height, or 0 when every wall is lower (or there are none).
   */
  function Highest(s: seq<WallState>): (h: real)
    ensures h >= 0.0
    decreases |s|
  {
    if s == [] then 0.0
    else
      var h := Highest(s[..|s| - 1]);
      if s[|s| - 1].wallY > h then s[|s| - 1].wallY else h
  }

  /** highestWallY is the maximum of the heights and 0: no wall is higher, and it is 0 or some wall's height. */
  lemma {:induction false} HighestIsMaximum(s: seq<WallState>)
    ensures forall i :: 0 <= i < |s| ==> s[i].wallY <= Highest(s)
    ensures Highest(s) == 0.0 || exists i :: 0 <= i < |s| && s[i].wallY == Highest(s)
    decreases |s|
  {
    if s != [] {
      var n := |s| - 1;
      HighestIsMaximum(s[..n]);
      assert forall i :: 0 <= i < n ==> s[..n][i] == s[i];
    }
  }

  /**
   * The advance of lines 233-235: every wall steps with the same
   * highestWallY, each recycled wall with its own draw.
   */
  function AdvanceAll(s: seq<WallState>, delta: real, speed: real, highestWallY: real, draws: seq<real>): (t: seq<WallState>)
    requires ValidDraws(draws, |s|)
    ensures |t| == |s|
    ensures forall i :: 0 <= i < |s| ==> t[i] == Step(s[i], delta, speed, WALL_SPACING, highestWallY, draws[i], WORLD_WIDTH)
  {
    seq(|s|, i requires 0 <= i < |s| => Step(s[i], delta, speed, WALL_SPACING, highestWallY, draws[i], WORLD_WIDTH))
  }

  /**
   * A wall recycled by the advance lands WALL_SPACING above the height every
   * wall had before the tick, so it never overlaps a wall still in play.
   */
  lemma RecycledLandsAboveAll(s: seq<WallState>, delta: real, speed: real, draws: seq<real>, i: int, j: int)
    requires ValidDraws(draws, |s|) && 0 <= i < |s| && 0 <= j < |s|
    requires Recycles(s[i].wallY, delta, speed)
    ensures AdvanceAll(s, delta, speed, Highest(s), draws)[i].wallY >= s[j].wallY + WALL_SPACING
  {
    HighestIsMaximum(s);
  }

  /** Advancing the field keeps every gap inside the world. */
  lemma AdvanceKeepsGapsInRange(s: seq<WallState>, delta: real, speed: real, highestWallY: real, draws: seq<real>)
    requires ValidDraws(draws, |s|) && GapsInRange(s)
    ensures GapsInRange(AdvanceAll(s, delta, speed, highestWallY, draws))
  {
    var t := AdvanceAll(s, delta, speed, highestWallY, draws);
    forall i | 0 <= i < |s| ensures GapInRange(t[i].gapX, WORLD_WIDTH) {
      StepKeepsGapInRange(s[i], delta, speed, WALL_SPACING, highestWallY, draws[i], WORLD_WIDTH);
    }
  }

  /** Whether the scoring pass scores this wall: its top is below the player and it was not yet passed. */
  predicate NewlyPassed(w: WallState, playerY: real) {
    w.wallY + WALL_HEIGHT < playerY && !w.passed
  }

  /** A wall after the scoring pass. */
  function Scored(w: WallState, playerY: real): (w': WallState)
    ensures w'.gapX == w.gapX && w'.wallY == w.wallY
    ensures w'.passed <==> w.passed || w.wallY + WALL_HEIGHT < playerY
  {
    if NewlyPassed(w, playerY) then w.(passed := true) else w
  }

  /** The walls after the scoring pass of lines 238-248. */
  function ScorePass(s: seq<WallState>, playerY: real): (t: seq<WallState>)
    ensures |t| == |s|
    ensures forall i :: 0 <= i < |s| ==> t[i] == Scored(s[i], playerY)
  {
    seq(|s|, i requires 0 <= i < |s| => Scored(s[i], playerY))
  }

  /** The scoring pass moves no gap. */
  lemma ScorePassKeepsGaps(s: seq<WallState>, playerY: real)
    requires GapsInRange(s)
    ensures GapsInRange(ScorePass(s, playerY))
  {
  }

  /** How many walls the scoring pass scores. */
  function CountNewlyPassed(s: seq<WallState>, playerY: real): (n: nat)
    decreases |s|
  {
    if s == [] then 0
    else CountNewlyPassed(s[..|s| - 1], playerY) + (if NewlyPassed(s[|s| - 1], playerY) then 1 else 0)
  }

  /** How many walls are marked passed. */
  function CountPassed(s: seq<WallState>): (n: nat)
    decreases |s|
  {
    if s == [] then 0
    else CountPassed(s[..|s| - 1]) + (if s[|s| - 1].passed then 1 else 0)
  }

  /** No more walls are passed than there are walls. */
  lemma {:induction false} CountPassedAtMostLength(s: seq<WallState>)
    ensures CountPassed(s) <= |s|
    decreases |s|
  {
    if s != [] {
      CountPassedAtMostLength(s[..|s| - 1]);
    }
  }

  /** Fresh walls are all unpassed, so none is counted. */
  lemma {:induction false} CountPassedUnpassed(s: seq<WallState>)
    requires forall i :: 0 <= i < |s| ==> !s[i].passed
    ensures CountPassed(s) == 0
    decreases |s|
  {
    if s != [] {
      CountPassedUnpassed(s[..|s| - 1]);
    }
  }

  /** Counting depends only on the flags. */
  lemma {:induction false} CountPassedSameFlags(s: seq<WallState>, t: seq<WallState>)
    requires |s| == |t| && forall i :: 0 <= i < |s| ==> s[i].passed == t[i].passed
    ensures CountPassed(s) == CountPassed(t)
    decreases |s|
  {
    if s != [] {
      CountPassedSameFlags(s[..|s| - 1], t[..|t| - 1]);
    }
  }

  /** Advancing the field neither marks nor unmarks any wall. */
  lemma AdvanceKeepsCountPassed(s: seq<WallState>, delta: real, speed: real, highestWallY: real, draws: seq<real>)
    requires ValidDraws(draws, |s|)
    ensures CountPassed(AdvanceAll(s, delta, speed, highestWallY, draws)) == CountPassed(s)
  {
    CountPassedSameFlags(AdvanceAll(s, delta, speed, highestWallY, draws), s);
  }

  /**
   * The scoring pass marks exactly the walls it scores: the passed count
   * grows by the number of walls scored.
   */
  lemma {:induction false} ScorePassCount(s: seq<WallState>, playerY: real)
    ensures CountPassed(ScorePass(s, playerY)) == CountPassed(s) + CountNewlyPassed(s, playerY)
    decreases |s|
  {
    if s != [] {
      var n := |s| - 1;
      assert ScorePass(s, playerY)[..n] == ScorePass(s[..n], playerY);
      ScorePassCount(s[..n], playerY);
    }
  }

  /** Walls already passed add nothing: a second pass over the same walls scores none. */
  lemma {:induction false} ScorePassOnce(s: seq<WallState>, playerY: real)
    ensures CountNewlyPassed(ScorePass(s, playerY), playerY) == 0
    ensures ScorePass(ScorePass(s, playerY), playerY) == ScorePass(s, playerY)
    decreases |s|
  {
    if s != [] {
      var n := |s| - 1;
      assert ScorePass(s, playerY)[..n] == ScorePass(s[..n], playerY);
      ScorePassOnce(s[..n], playerY);
    }
  }

  /** Only walls below the player and not yet passed are scored. */
  lemma {:induction false} CountNewlyPassedZero(s: seq<WallState>, playerY: real)
    requires forall i :: 0 <= i < |s| ==> s[i].passed || s[i].wallY + WALL_HEIGHT >= playerY
    ensures CountNewlyPassed(s, playerY) == 0
    decreases |s|
  {
    if s != [] {
      CountNewlyPassedZero(s[..|s| - 1], playerY);
    }
  }

  /**
   * The wall part of one tick (lines 225-248): every wall advances with the
   * highestWallY found before any of them moved, then the scoring pass runs.
   */
  function WallPass(s: seq<WallState>, delta: real, speed: real, draws: seq<real>, playerY: real): (t: seq<WallState>)
    requires ValidDraws(draws, |s|)
    ensures |t| == |s|
    ensures forall i :: 0 <= i < |s| ==>
      t[i] == Scored(Step(s[i], delta, speed, WALL_SPACING, Highest(s), draws[i], WORLD_WIDTH), playerY)
  {
    ScorePass(AdvanceAll(s, delta, speed, Highest(s), draws), playerY)
  }

  /** The points a tick scores: the walls its scoring pass marks. */
  function TickPoints(s: seq<WallState>, delta: real, speed: real, draws: seq<real>, playerY: real): nat
    requires ValidDraws(draws, |s|)
  {
    CountNewlyPassed(AdvanceAll(s, delta, speed, Highest(s), draws), playerY)
  }

  /**
   * A tick keeps every gap in range and adds to the passed count exactly
   * the points it scores.
   */
  lemma WallPassKeeps(s: seq<WallState>, delta: real, speed: real, draws: seq<real>, playerY: real)
    requires ValidDraws(draws, |s|) && GapsInRange(s)
    ensures GapsInRange(WallPass(s, delta, speed, draws, playerY))
    ensures CountPassed(WallPass(s, delta, speed, draws, playerY)) == CountPassed(s) + TickPoints(s, delta, speed, draws, playerY)
  {
    var a := AdvanceAll(s, delta, speed, Highest(s), draws);
    AdvanceKeepsGapsInRange(s, delta, speed, Highest(s), draws);
    AdvanceKeepsCountPassed(s, delta, speed, Highest(s), draws);
    ScorePassKeepsGaps(a, playerY);
    ScorePassCount(a, playerY);
  }

  /** Whether the player collides with any wall. */
  predicate AnyCollision(s: seq<WallState>, playerX: real, playerY: real) {
    exists i :: 0 <= i < |s| && Collides(playerX, playerY, s[i])
  }
}
