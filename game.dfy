/**
 * Model of the run controller of TriangleDashGame.java: the fields the game
 * updates in place, create() as the constructor, the state transitions at
 * the top of render(), the per-tick update() and restartGame(). Every method
 * is specified by the step of module Play it performs on the game's fields.
 */
module TriangleDash {
  import opened Walls
  import opened Rules
  import opened Play

  class Game {
    var backgroundY: real
    var scrollSpeed: real
    var playerX: real
    var playerY: real
    var playerSpeed: real
    var movingRight: bool
    var walls: seq<Wall>
    var wallSpeed: real
    var gameState: GameState
    var score: int
    var highScore: int
    var gameMusicVolume: real
    var fadingIn: bool
    /** How many times the high score was written to storage. */
    ghost var saves: nat

    /** The field values of the walls, in order. */
    ghost function States(): seq<WallState>
      reads this`walls, walls
    {
      StatesOf(walls)
    }

    /** The game's fields as a value. */
    ghost function View(): Snapshot
      reads this, walls
    {
      Snapshot(backgroundY, scrollSpeed, playerX, playerY, playerSpeed, movingRight, States(), wallSpeed,
               gameState, score, highScore, gameMusicVolume, fadingIn, saves)
    }

    /** Five distinct wall objects of the world's width, and the game's invariant on the fields. */
    ghost predicate Valid()
      reads this, walls
    {
      && |walls| == WALL_COUNT
      && Distinct(walls)
      && (forall i :: 0 <= i < |walls| ==> walls[i].screenWidth == WORLD_WIDTH)
      && Invariant(View())
    }

    /** create(): the player centred, five fresh walls, the stored high score loaded; the menu shows. */
    constructor (draws: seq<real>, storedHighScore: int)
      requires ValidDraws(draws, WALL_COUNT)
      ensures Valid() && View() == Initial(draws, storedHighScore)
      ensures forall i :: 0 <= i < |walls| ==> fresh(walls[i])
    {
      backgroundY := 0.0;
      scrollSpeed := SCROLL_SPEED;
      playerX := START_X;
      playerY := PLAYER_Y;
      playerSpeed := PLAYER_SPEED;
      movingRight := true;
      walls := [];
      wallSpeed := WALL_SPEED;
      gameState := Menu;
      score := 0;
      highScore := storedHighScore;
      gameMusicVolume := 0.0;
      fadingIn := false;
      saves := 0;
      new;
      ResetWalls(draws);
      InitialInvariant(draws, storedHighScore);
    }

    /** One frame of render without drawing: the button handling, then update while playing. */
    method Render(input: Input)
      requires Valid()
      requires ValidDraws(input.restartDraws, WALL_COUNT) && ValidDraws(input.recycleDraws, WALL_COUNT)
      modifies this, walls
      ensures Valid() && View() == Frame(old(View()), input)
    {
      HandleTouch(input.touched, input.touchX, input.touchY, input.restartDraws);
      if gameState == Playing {
        Update(input.delta, input.spacePressed, input.recycleDraws);
      }
    }

    /** The New Game button handling at the top of render (lines 144-173). */
    method HandleTouch(touched: bool, touchX: real, touchY: real, draws: seq<real>)
      requires Valid() && ValidDraws(draws, WALL_COUNT)
      modifies this
      ensures Valid() && View() == Touch(old(View()), touched, touchX, touchY, draws)
      ensures walls == old(walls) || forall i :: 0 <= i < |walls| ==> fresh(walls[i])
    {
      ghost var g := View();
      TouchKeepsInvariant(g, touched, touchX, touchY, draws);
      var start := touched && InButton(touchX, touchY);
      if gameState == Menu && start {
        gameState := Playing;
        score := 0;
        fadingIn := true;
        assert States() == g.walls;
      } else if gameState == GameOver && start {
        RestartGame(draws);
      }
    }

    /** update(): one tick of play. */
    method Update(delta: real, toggle: bool, draws: seq<real>)
      requires Valid() && gameState == Playing && ValidDraws(draws, WALL_COUNT)
      modifies this, walls
      ensures Valid() && View() == Tick(old(View()), delta, toggle, draws)
      ensures walls == old(walls)
    {
      ghost var g := View();
      TickKeepsInvariant(g, delta, toggle, draws);
      MovePlayerAndScene(delta, toggle);
      TickWalls(delta, draws);
      EndRunOnCollision();
    }

    /** The first part of update (lines 187-222): background, music fade-in, player. */
    method MovePlayerAndScene(delta: real, toggle: bool)
      modifies this`backgroundY, this`gameMusicVolume, this`fadingIn, this`playerX, this`movingRight
      ensures View() == MoveScene(old(View()), delta, toggle)
    {
      ghost var s := States();
      backgroundY := ScrollBackground(backgroundY, scrollSpeed, delta);
      var f := FadeStep(Fade(gameMusicVolume, fadingIn), delta);
      gameMusicVolume, fadingIn := f.volume, f.fadingIn;
      var m := MovePlayer(Motion(playerX, movingRight), playerSpeed, delta, toggle);
      playerX, movingRight := m.x, m.movingRight;
      assert States() == s;
    }

    /** The wall part of update (lines 225-248): find the highest wall, advance every wall, score. */
    method TickWalls(delta: real, draws: seq<real>)
      requires Distinct(walls) && ValidDraws(draws, |walls|)
      requires forall i :: 0 <= i < |walls| ==> walls[i].screenWidth == WORLD_WIDTH
      modifies this`score, walls
      ensures View() == AdvanceAndScore(old(View()), delta, draws)
    {
      ghost var s := States();
      var highestWallY := HighestWallY(s);
      AdvanceWalls(delta, wallSpeed, highestWallY, draws, s);
      ScoreWalls(AdvanceAll(s, delta, wallSpeed, highestWallY, draws));
    }

    /** The search of lines 225-230 over walls whose field values are `s`. */
    method HighestWallY(ghost s: seq<WallState>) returns (h: real)
      requires s == States()
      ensures h == Highest(s)
    {
      h := 0.0;
      var i := 0;
      while i < |walls|
        invariant 0 <= i <= |walls|
        invariant h == Highest(s[..i])
      {
        assert s[..i + 1][..i] == s[..i];
        if walls[i].wallY > h {
          h := walls[i].wallY;
        }
        i := i + 1;
      }
      assert s[..i] == s;
    }

    /** The loop of lines 233-235: every wall updated with the same highestWallY. */
    method AdvanceWalls(delta: real, speed: real, highestWallY: real, draws: seq<real>, ghost s: seq<WallState>)
      requires s == States() && Distinct(walls) && ValidDraws(draws, |walls|)
      requires forall i :: 0 <= i < |walls| ==> walls[i].screenWidth == WORLD_WIDTH
      modifies walls
      ensures States() == AdvanceAll(s, delta, speed, highestWallY, draws)
    {
      var i := 0;
      while i < |walls|
        invariant 0 <= i <= |walls|
        invariant forall j :: 0 <= j < i ==>
          walls[j].State() == Step(s[j], delta, speed, WALL_SPACING, highestWallY, draws[j], WORLD_WIDTH)
        invariant forall j :: i <= j < |walls| ==> walls[j].State() == s[j]
      {
        walls[i].Update(delta, speed, WALL_SPACING, highestWallY, draws[i]);
        i := i + 1;
      }
    }

    /** The scoring pass of lines 238-248 over walls whose field values are `s`. */
    method ScoreWalls(ghost s: seq<WallState>)
      requires s == States() && Distinct(walls)
      modifies this`score, walls
      ensures States() == ScorePass(s, playerY)
      ensures score == old(score) + CountNewlyPassed(s, playerY)
    {
      var i := 0;
      while i < |walls|
        invariant 0 <= i <= |walls|
        invariant forall j :: 0 <= j < i ==> walls[j].State() == Scored(s[j], playerY)
        invariant forall j :: i <= j < |walls| ==> walls[j].State() == s[j]
        invariant score == old(score) + CountNewlyPassed(s[..i], playerY)
      {
        assert s[..i + 1][..i] == s[..i];
        if walls[i].wallY + WALL_HEIGHT < playerY && !walls[i].passed {
          walls[i].passed := true;
          score := score + 1;
        }
        i := i + 1;
      }
      assert s[..i] == s;
    }

    /**
     * The collision loop of lines 251-270: once a wall is reported by
     * checkCollision, stop all motion and the fade-in, record the high score
     * (saving it when beaten) and end the run.
     */
    method EndRunOnCollision()
      modifies this
      ensures View() == EndRun(old(View())) && walls == old(walls)
    {
      ghost var s := States();
      var hit := CheckWalls(s);
      if hit {
        fadingIn := false;
        StopMotion();
        SaveHighScore();
        gameState := GameOver;
      }
      assert States() == s;
    }

    /** The game-over block of lines 253-255: stop the background, the walls and the player. */
    method StopMotion()
      modifies this`scrollSpeed, this`wallSpeed, this`playerSpeed
      ensures View() == old(View()).(scrollSpeed := 0.0, wallSpeed := 0.0, playerSpeed := 0.0)
    {
      scrollSpeed, wallSpeed, playerSpeed := 0.0, 0.0, 0.0;
    }

    /** Lines 258-263: a beaten high score is recorded and written to storage. */
    method SaveHighScore()
      modifies this`highScore, this`saves
      ensures View() == old(View()).(highScore := RecordHighScore(old(highScore), score),
                                     saves := old(saves) + (if score > old(highScore) then 1 else 0))
    {
      if score > highScore {
        highScore := score;
        saves := saves + 1;
      }
    }

    /**
     * The search of the collision loop of lines 251-270 over walls whose
     * field values are `s`: whether checkCollision reports any wall. The
     * loop stops at the first one, so the game-over block runs at most once.
     */
    method CheckWalls(ghost s: seq<WallState>) returns (hit: bool)
      requires s == States()
      ensures hit == AnyCollision(s, playerX, playerY)
    {
      var i := 0;
      while i < |walls|
        invariant 0 <= i <= |walls|
        invariant forall j :: 0 <= j < i ==> !Collides(playerX, playerY, s[j])
      {
        if Collides(playerX, playerY, walls[i].State()) {
          return true;
        }
        i := i + 1;
      }
      return false;
    }

    /**
     * restartGame(), with the fade-in reset corrected (see RestartFade). The
     * walls are rebuilt last; no other reset reads them, so the order of
     * lines 290-295 among the field writes makes no difference.
     */
    method RestartGame(draws: seq<real>)
      requires ValidDraws(draws, WALL_COUNT)
      modifies this
      ensures Valid() && View() == Restart(old(View()), draws)
      ensures forall i :: 0 <= i < |walls| ==> fresh(walls[i])
    {
      ghost var g := View();
      RestartInvariant(g, draws);
      ResetPlayer();
      ResetMovement();
      score := 0;
      RestartMusic();
      gameState := Playing;
      ResetWalls(draws);
    }

    /** Lines 277-278: the player back at its start. */
    method ResetPlayer()
      modifies this`playerX, this`playerY
      ensures View() == old(View()).(playerX := START_X, playerY := PLAYER_Y)
    {
      playerX := START_X;
      playerY := PLAYER_Y;
    }

    /** Lines 281-284: moving right again at the starting speeds. */
    method ResetMovement()
      modifies this`movingRight, this`scrollSpeed, this`wallSpeed, this`playerSpeed
      ensures View() == old(View()).(movingRight := true, scrollSpeed := SCROLL_SPEED,
                                     wallSpeed := WALL_SPEED, playerSpeed := PLAYER_SPEED)
    {
      movingRight := true;
      scrollSpeed, wallSpeed, playerSpeed := SCROLL_SPEED, WALL_SPEED, PLAYER_SPEED;
    }

    /** Lines 300-303 with the fade-in corrected: the ramp restarts from silence. */
    method RestartMusic()
      modifies this`gameMusicVolume, this`fadingIn
      ensures var f := RestartFade(old(Fade(gameMusicVolume, fadingIn)));
        View() == old(View()).(gameMusicVolume := f.volume, fadingIn := f.fadingIn)
    {
      var f := RestartFade(Fade(gameMusicVolume, fadingIn));
      gameMusicVolume, fadingIn := f.volume, f.fadingIn;
    }

    /**
     * The wall loop of create() and restartGame() (lines 100-104, 290-295):
     * clear the walls, then add five fresh ones, one draw each.
     */
    method ResetWalls(draws: seq<real>)
      requires ValidDraws(draws, WALL_COUNT)
      modifies this`walls
      ensures |walls| == WALL_COUNT && Distinct(walls) && States() == InitialWalls(draws)
      ensures forall i :: 0 <= i < |walls| ==> fresh(walls[i]) && walls[i].screenWidth == WORLD_WIDTH
    {
      ghost var init := InitialWalls(draws);
      walls := [];
      var i := 0;
      while i < WALL_COUNT
        invariant 0 <= i <= WALL_COUNT && |walls| == i
        invariant Distinct(walls)
        invariant forall j :: 0 <= j < i ==> fresh(walls[j]) && walls[j].screenWidth == WORLD_WIDTH
        invariant forall j :: 0 <= j < i ==> walls[j].State() == init[j]
      {
        var w := new Wall(RandomGap(draws[i], WORLD_WIDTH), WORLD_HEIGHT + (i as real) * WALL_SPACING, WORLD_WIDTH);
        walls := walls + [w];
        i := i + 1;
      }
    }
  }
}
