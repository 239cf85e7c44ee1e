/**
 * One frame of TriangleDashGame.java on values: a snapshot of the game's
 * fields, the step each part of render() and update() takes on it, and the
 * facts those steps keep: the game's invariant, the game-over rule, the
 * high-score bookkeeping and the restart.
 */
module Play {
  import opened Walls
  import opened Rules

  /**
   * The fields of TriangleDashGame that render() and update() change, with
   * the walls as their field values; `saves` counts the high-score writes
   * to the preferences store.
   */
  datatype Snapshot = Snapshot(
    backgroundY: real, scrollSpeed: real,
    playerX: real, playerY: real, playerSpeed: real, movingRight: bool,
    walls: seq<WallState>, wallSpeed: real,
    gameState: GameState, score: int, highScore: int,
    gameMusicVolume: real, fadingIn: bool,
    saves: nat)

  /**
   * What the host supplies for one frame: a touch (already in world units),
   * whether SPACE was just pressed, the frame's delta time, and the random
   * draws a restart (one per new wall) and a tick (one per wall) may consume.
   */
  datatype Input = Input(touched: bool, touchX: real, touchY: real, spacePressed: bool,
                         delta: real, restartDraws: seq<real>, recycleDraws: seq<real>)

  /**
   * The game's invariant: five walls with their gaps in range; the score
   * counts the walls marked passed; the speeds are the starting ones except
   * after a crash, when all are 0; the player is inside the world at its
   * fixed height; the music never goes over the target volume; and the menu
   * is shown only before the first run, silent and with no score.
   */
  predicate Invariant(g: Snapshot) {
    && |g.walls| == WALL_COUNT
    && GapsInRange(g.walls)
    && g.score == CountPassed(g.walls)
    && (g.gameState == GameOver ==> g.scrollSpeed == 0.0 && g.wallSpeed == 0.0 && g.playerSpeed == 0.0)
    && (g.gameState != GameOver ==>
          g.scrollSpeed == SCROLL_SPEED && g.wallSpeed == WALL_SPEED && g.playerSpeed == PLAYER_SPEED)
    && 0.0 <= g.playerX <= WORLD_WIDTH - PLAYER_SIZE
    && g.playerY == PLAYER_Y
    && g.gameMusicVolume <= TARGET_VOLUME
    && (g.gameState == Menu ==> g.score == 0 && g.gameMusicVolume == 0.0 && !g.fadingIn)
  }

  /** The state create() leaves: player centred, five fresh walls, the stored high score, the menu. */
  function Initial(draws: seq<real>, storedHighScore: int): Snapshot
    requires ValidDraws(draws, WALL_COUNT)
  {
    Snapshot(0.0, SCROLL_SPEED, START_X, PLAYER_Y, PLAYER_SPEED, true, InitialWalls(draws), WALL_SPEED,
             Menu, 0, storedHighScore, 0.0, false, 0)
  }

  /** create() establishes the invariant. */
  lemma InitialInvariant(draws: seq<real>, storedHighScore: int)
    requires ValidDraws(draws, WALL_COUNT)
    ensures Invariant(Initial(draws, storedHighScore))
  {
    CountPassedUnpassed(InitialWalls(draws));
  }

  // ------------------------------------------------------------------ update

  /** The first part of update (lines 187-222): background, music fade-in, player. */
  function MoveScene(g: Snapshot, delta: real, toggle: bool): Snapshot {
    var f := FadeStep(Fade(g.gameMusicVolume, g.fadingIn), delta);
    var m := MovePlayer(Motion(g.playerX, g.movingRight), g.playerSpeed, delta, toggle);
    g.(backgroundY := ScrollBackground(g.backgroundY, g.scrollSpeed, delta),
       gameMusicVolume := f.volume, fadingIn := f.fadingIn,
       playerX := m.x, movingRight := m.movingRight)
  }

  /** The wall part of update (lines 225-248): advance every wall, then score. */
  function AdvanceAndScore(g: Snapshot, delta: real, draws: seq<real>): Snapshot
    requires ValidDraws(draws, |g.walls|)
  {
    g.(walls := WallPass(g.walls, delta, g.wallSpeed, draws, g.playerY),
       score := g.score + TickPoints(g.walls, delta, g.wallSpeed, draws, g.playerY))
  }

  /**
   * The collision loop of lines 251-270 with checkCollision: if the player
   * hits any wall, stop all motion and the fade-in, record the high score
   * (writing it to storage when beaten) and end the run.
   */
  function EndRun(g: Snapshot): Snapshot {
    if AnyCollision(g.walls, g.playerX, g.playerY) then
      g.(fadingIn := false, scrollSpeed := 0.0, wallSpeed := 0.0, playerSpeed := 0.0,
         highScore := RecordHighScore(g.highScore, g.score),
         saves := g.saves + (if g.score > g.highScore then 1 else 0),
         gameState := GameOver)
    else g
  }

  /** update(): one tick of play. */
  function Tick(g: Snapshot, delta: real, toggle: bool, draws: seq<real>): Snapshot
    requires ValidDraws(draws, |g.walls|)
  {
    EndRun(AdvanceAndScore(MoveScene(g, delta, toggle), delta, draws))
  }

  /** A tick of a valid running game keeps the invariant. */
  lemma TickKeepsInvariant(g: Snapshot, delta: real, toggle: bool, draws: seq<real>)
    requires Invariant(g) && g.gameState == Playing && ValidDraws(draws, WALL_COUNT)
    ensures Invariant(Tick(g, delta, toggle, draws))
  {
    WallPassKeeps(g.walls, delta, g.wallSpeed, draws, g.playerY);
  }

  /**
   * What one tick of a running game does to the run: the walls advance and
   * are scored, the score grows by the walls newly passed, and the run ends
   * exactly when the player then hits a wall. Ending records the high score,
   * and it is written to storage exactly when this run beat it.
   */
  lemma TickOutcome(g: Snapshot, delta: real, toggle: bool, draws: seq<real>)
    requires g.gameState == Playing && ValidDraws(draws, |g.walls|)
    ensures var t := Tick(g, delta, toggle, draws);
      && t.walls == WallPass(g.walls, delta, g.wallSpeed, draws, g.playerY)
      && t.score == g.score + TickPoints(g.walls, delta, g.wallSpeed, draws, g.playerY)
      && (t.gameState == GameOver <==> AnyCollision(t.walls, t.playerX, t.playerY))
      && (t.gameState == Playing || t.gameState == GameOver)
      && t.highScore == (if t.gameState == GameOver then RecordHighScore(g.highScore, t.score) else g.highScore)
      && (t.saves == g.saves + 1 <==> t.gameState == GameOver && t.score > g.highScore)
      && (t.saves == g.saves || t.saves == g.saves + 1)
      && (t.gameState == GameOver ==> t.scrollSpeed == 0.0 && t.wallSpeed == 0.0 && t.playerSpeed == 0.0 && !t.fadingIn)
  {
  }

  /**
   * A running tick moves the player by the clamped step and scrolls the
   * background; the player stays inside the world.
   */
  lemma TickMovesPlayer(g: Snapshot, delta: real, toggle: bool, draws: seq<real>)
    requires ValidDraws(draws, |g.walls|)
    ensures var t := Tick(g, delta, toggle, draws);
      && Motion(t.playerX, t.movingRight) == MovePlayer(Motion(g.playerX, g.movingRight), g.playerSpeed, delta, toggle)
      && t.backgroundY == ScrollBackground(g.backgroundY, g.scrollSpeed, delta)
      && t.playerY == g.playerY
      && 0.0 <= t.playerX <= WORLD_WIDTH - PLAYER_SIZE
  {
  }

  // ---------------------------------------------------------------- restart

  /**
   * restartGame() with the fade-in corrected (see RestartFade): a new run on
   * five fresh walls; the scroll position and the high score are kept.
   */
  function Restart(g: Snapshot, draws: seq<real>): Snapshot
    requires ValidDraws(draws, WALL_COUNT)
  {
    var f := RestartFade(Fade(g.gameMusicVolume, g.fadingIn));
    g.(playerX := START_X, playerY := PLAYER_Y, movingRight := true,
       scrollSpeed := SCROLL_SPEED, wallSpeed := WALL_SPEED, playerSpeed := PLAYER_SPEED,
       score := 0, walls := InitialWalls(draws),
       gameMusicVolume := f.volume, fadingIn := f.fadingIn,
       gameState := Playing)
  }

  /** Whatever state it starts from, a restart establishes the invariant. */
  lemma RestartInvariant(g: Snapshot, draws: seq<real>)
    requires ValidDraws(draws, WALL_COUNT)
    ensures Invariant(Restart(g, draws))
  {
    CountPassedUnpassed(InitialWalls(draws));
  }

  /**
   * A restart forgets the run: the state after it depends only on the draws
   * and on the fields it keeps (scroll position, high score, saves), so a
   * second restart undoes the first.
   */
  lemma RestartForgetsRun(g: Snapshot, h: Snapshot, draws: seq<real>, first: seq<real>)
    requires ValidDraws(draws, WALL_COUNT) && ValidDraws(first, WALL_COUNT)
    requires g.backgroundY == h.backgroundY && g.highScore == h.highScore && g.saves == h.saves
    ensures Restart(g, draws) == Restart(h, draws)
    ensures Restart(Restart(g, first), draws) == Restart(g, draws)
  {
  }

  // ----------------------------------------------------------------- render

  /** The New Game button handling at the top of render (lines 144-173). */
  function Touch(g: Snapshot, touched: bool, touchX: real, touchY: real, draws: seq<real>): (g': Snapshot)
    requires ValidDraws(draws, WALL_COUNT)
    ensures var start := touched && InButton(touchX, touchY);
      g'.gameState == (if start && g.gameState != Playing then Playing else g.gameState)
    ensures touched && InButton(touchX, touchY) && g.gameState == Menu ==>
      g' == g.(gameState := Playing, score := 0, fadingIn := true)
    ensures touched && InButton(touchX, touchY) && g.gameState == GameOver ==> g' == Restart(g, draws)
    ensures !(touched && InButton(touchX, touchY)) || g.gameState == Playing ==> g' == g
  {
    var start := touched && InButton(touchX, touchY);
    if g.gameState == Menu && start then g.(gameState := Playing, score := 0, fadingIn := true)
    else if g.gameState == GameOver && start then Restart(g, draws)
    else g
  }

  /** One frame of render without drawing: the button handling, then update while playing. */
  function Frame(g: Snapshot, input: Input): Snapshot
    requires |g.walls| == WALL_COUNT
    requires ValidDraws(input.restartDraws, WALL_COUNT) && ValidDraws(input.recycleDraws, WALL_COUNT)
  {
    var u := Touch(g, input.touched, input.touchX, input.touchY, input.restartDraws);
    if u.gameState == Playing then Tick(u, input.delta, input.spacePressed, input.recycleDraws) else u
  }

  /** The button handling keeps the invariant. */
  lemma TouchKeepsInvariant(g: Snapshot, touched: bool, touchX: real, touchY: real, draws: seq<real>)
    requires Invariant(g) && ValidDraws(draws, WALL_COUNT)
    ensures Invariant(Touch(g, touched, touchX, touchY, draws))
  {
    if g.gameState == GameOver && touched && InButton(touchX, touchY) {
      RestartInvariant(g, draws);
    }
  }

  /** Every frame keeps the invariant. */
  lemma FrameKeepsInvariant(g: Snapshot, input: Input)
    requires Invariant(g)
    requires ValidDraws(input.restartDraws, WALL_COUNT) && ValidDraws(input.recycleDraws, WALL_COUNT)
    ensures Invariant(Frame(g, input))
  {
    var u := Touch(g, input.touched, input.touchX, input.touchY, input.restartDraws);
    TouchKeepsInvariant(g, input.touched, input.touchX, input.touchY, input.restartDraws);
    if u.gameState == Playing {
      TickKeepsInvariant(u, input.delta, input.spacePressed, input.recycleDraws);
    }
  }

  /**
   * Across a frame the high score never drops, storage is written at most
   * once, and the menu, once left, never comes back.
   */
  lemma FrameBookkeeping(g: Snapshot, input: Input)
    requires |g.walls| == WALL_COUNT
    requires ValidDraws(input.restartDraws, WALL_COUNT) && ValidDraws(input.recycleDraws, WALL_COUNT)
    ensures var t := Frame(g, input);
      && t.highScore >= g.highScore
      && (t.saves == g.saves || t.saves == g.saves + 1)
      && (t.saves == g.saves + 1 ==> t.highScore > g.highScore)
      && (t.gameState == Menu ==> g.gameState == Menu)
  {
    var u := Touch(g, input.touched, input.touchX, input.touchY, input.restartDraws);
    if u.gameState == Playing {
      TickOutcome(u, input.delta, input.spacePressed, input.recycleDraws);
    }
  }

  /** Off the playing screen, a frame without a touch on the button changes nothing. */
  lemma FrameIdle(g: Snapshot, input: Input)
    requires |g.walls| == WALL_COUNT
    requires ValidDraws(input.restartDraws, WALL_COUNT) && ValidDraws(input.recycleDraws, WALL_COUNT)
    requires g.gameState != Playing && !(input.touched && InButton(input.touchX, input.touchY))
    ensures Frame(g, input) == g
  {
  }

  /** A run never scores more than there are walls: each wall is scored at most once. */
  lemma ScoreAtMostWallCount(g: Snapshot)
    requires Invariant(g)
    ensures 0 <= g.score <= WALL_COUNT
  {
    CountPassedAtMostLength(g.walls);
  }
}
