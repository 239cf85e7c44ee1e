/**
 * Model of Wall.java: one gapped barrier. A wall scrolls down by speed*delta
 * every tick and, once it has fallen below the bottom of the world, is
 * recycled in place: moved above the highest wall with a fresh random gap.
 */
module Walls {

  /** Width of the opening in every wall (Wall.GAP_SIZE). */
  const GAP_SIZE: real := 235.0
  /** Thickness of every wall (Wall.WALL_HEIGHT). */
  const WALL_HEIGHT: real := 75.0

  /**
   * The value of a wall's fields: the left edge of its gap, its height and
   * the flag the game keeps to score each wall once.
   */
  datatype WallState = WallState(gapX: real, wallY: real, passed: bool)

  /** A draw of the random source, which yields values in [0, 1). */
  predicate IsDraw(r: real) {
    0.0 <= r < 1.0
  }

  /** A sequence of `n` random draws. */
  predicate ValidDraws(rs: seq<real>, n: nat) {
    |rs| == n && forall i :: 0 <= i < |rs| ==> IsDraw(rs[i])
  }

  /** A gap offset that leaves the whole gap inside a world `screenWidth` wide. */
  predicate GapInRange(gapX: real, screenWidth: real) {
    0.0 <= gapX < screenWidth - GAP_SIZE
  }

  /** A draw in [0, 1) scaled by a positive width lands in [0, width). */
  lemma DrawScalesInto(r: real, width: real)
    requires IsDraw(r)
    ensures width > 0.0 ==> 0.0 <= r * width < width
  {
    if width > 0.0 {
      assert r * width < 1.0 * width;
    }
  }

  /** The gap a draw `r` selects: uniform over [0, screenWidth - GAP_SIZE). */
  function RandomGap(r: real, screenWidth: real): (g: real)
    requires IsDraw(r)
    ensures screenWidth > GAP_SIZE ==> GapInRange(g, screenWidth)
  {
    var width := screenWidth - GAP_SIZE;
    DrawScalesInto(r, width);
    assert width > 0.0 ==> r * width < width;
    r * width
  }

  /** Whether a wall at `wallY` drops below the bottom of the world this tick. */
  predicate Recycles(wallY: real, delta: real, speed: real) {
    wallY - speed * delta < -WALL_HEIGHT
  }

  /**
   * The effect of Wall.update on a wall's fields: move down by speed*delta,
   * then, if the wall is entirely below the world, put it `wallSpacing`
   * above `highestWallY` with the gap the draw `r` selects. `passed` is
   * never touched, not even on recycling.
   */
  function Step(w: WallState, delta: real, speed: real, wallSpacing: real, highestWallY: real,
                r: real, screenWidth: real): (w': WallState)
    requires IsDraw(r)
    ensures w'.passed == w.passed
    ensures !Recycles(w.wallY, delta, speed) ==> w'.wallY == w.wallY - speed * delta && w'.gapX == w.gapX
    ensures Recycles(w.wallY, delta, speed) ==> w'.wallY == highestWallY + wallSpacing
    ensures Recycles(w.wallY, delta, speed) && screenWidth > GAP_SIZE ==> GapInRange(w'.gapX, screenWidth)
    ensures highestWallY + wallSpacing >= -WALL_HEIGHT ==> w'.wallY >= -WALL_HEIGHT
    ensures speed == 0.0 && w.wallY >= -WALL_HEIGHT ==> w' == w
  {
    var y := w.wallY - speed * delta;
    if y < -WALL_HEIGHT then
      w.(wallY := highestWallY + wallSpacing, gapX := RandomGap(r, screenWidth))
    else
      w.(wallY := y)
  }

  /** A wall whose gap is in range keeps it in range, moved or recycled. */
  lemma StepKeepsGapInRange(w: WallState, delta: real, speed: real, wallSpacing: real,
                            highestWallY: real, r: real, screenWidth: real)
    requires IsDraw(r) && GapInRange(w.gapX, screenWidth)
    ensures GapInRange(Step(w, delta, speed, wallSpacing, highestWallY, r, screenWidth).gapX, screenWidth)
  {
  }

  /** A wall object: Wall.java with the `passed` flag the game reads and writes. */
  class Wall {
    var gapX: real
    var wallY: real
    var passed: bool
    /** Wall.screenWidth, a static every constructor sets from the game's viewport. */
    const screenWidth: real

    function State(): WallState
      reads this
    {
      WallState(gapX, wallY, passed)
    }

    /** Wall(gapX, wallY, viewport): stores both positions unchanged; not yet passed. */
    constructor (gapX: real, wallY: real, screenWidth: real)
      ensures State() == WallState(gapX, wallY, false)
      ensures this.screenWidth == screenWidth
    {
      this.gapX := gapX;
      this.wallY := wallY;
      this.passed := false;
      this.screenWidth := screenWidth;
    }

    /** Wall.update; `r` stands for random.nextFloat(). */
    method Update(delta: real, speed: real, wallSpacing: real, highestWallY: real, r: real)
      requires IsDraw(r)
      modifies this`gapX, this`wallY
      ensures State() == Step(old(State()), delta, speed, wallSpacing, highestWallY, r, screenWidth)
    {
      wallY := wallY - speed * delta;
      if wallY < -WALL_HEIGHT {
        wallY := highestWallY + wallSpacing;
        gapX := RandomGap(r, screenWidth);
      }
    }
  }

  /** The field values of a sequence of wall objects, in order. */
  ghost function StatesOf(ws: seq<Wall>): (s: seq<WallState>)
    reads ws
    ensures |s| == |ws|
    ensures forall i :: 0 <= i < |ws| ==> s[i] == ws[i].State()
  {
    seq(|ws|, i reads ws requires 0 <= i < |ws| => ws[i].State())
  }

  /** No wall object occurs twice. */
  ghost predicate Distinct(ws: seq<Wall>) {
    forall i, j :: 0 <= i < j < |ws| ==> ws[i] != ws[j]
  }
}
