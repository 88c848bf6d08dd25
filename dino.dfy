/**
 * The stand-alone obstacle runner (games/dino/dino.js): a square box that
 * falls under gravity, may jump only from the ground, and must avoid
 * obstacles that scroll in from the right at a speed that grows with the
 * score. The module-level variables of the script are the fields of `Runner`;
 * one call of `Update` is one animation frame.
 */
module Dino {
  import opened Arcade

  const CanvasWidth: real := 450.0
  const GroundY: real := 300.0
  const Gravity: real := 0.3
  const JumpPower: real := -9.0
  const DinoX: real := 80.0
  const DinoW: real := 30.0
  const DinoH: real := 30.0

  /** The top edge of the runner when it stands on the ground. */
  const Rest: real := GroundY - DinoH

  /** Scroll speed in pixels per frame: uncapped, starts at 5 and never
      decreases as the score grows. */
  function GameSpeed(score: int): (s: real)
    ensures score >= 0 ==> s >= 5.0
  {
    5.0 + score as real * 0.05
  }

  /** The speed grows by 0.05 for every point, with no cap. */
  lemma GameSpeedGrows(a: int, b: int)
    ensures GameSpeed(b) - GameSpeed(a) == (b - a) as real * 0.05
  {
  }

  lemma GameSpeedMonotone(a: int, b: int)
    requires a <= b
    ensures GameSpeed(a) <= GameSpeed(b)
  {
  }

  /** Frames between spawns: `floor(100 - 1.5 * speed)`, never below 40. */
  function SpawnRate(speed: real): (n: int)
    ensures n >= 40
    ensures n == 40 || n as real <= 100.0 - speed * 1.5 < n as real + 1.0
    ensures 100.0 - speed * 1.5 < n as real + 1.0
  {
    var n := (100.0 - speed * 1.5).Floor;
    if n < 40 then 40 else n
  }

  /** A faster game never spawns less often. */
  lemma SpawnRateAntitone(s: real, t: real)
    requires s <= t
    ensures SpawnRate(t) <= SpawnRate(s)
  {
    FloorMonotone(100.0 - t * 1.5, 100.0 - s * 1.5);
  }

  /** A fresh obstacle for the draw `r` of Math.random(): at the right edge,
      20 wide, 20 to 50 high, standing on the ground line. */
  function Spawn(r: real): (o: Obstacle)
    requires 0.0 <= r < 1.0
    ensures o.x == CanvasWidth && o.w == 20.0 && !o.passed
    ensures 20.0 <= o.h < 50.0 && o.y + o.h == GroundY
  {
    var h := r * (50.0 - 20.0) + 20.0;
    Obstacle(CanvasWidth, GroundY - h, 20.0, h, false)
  }

  /** The obstacle list after the spawn check of frame number `frame`: an
      obstacle is appended every `SpawnRate(speed)` frames. */
  function WithSpawn(obstacles: seq<Obstacle>, frame: int, speed: real, r: real): (s: seq<Obstacle>)
    requires 0.0 <= r < 1.0
    ensures |s| == |obstacles| + (if frame % SpawnRate(speed) == 0 then 1 else 0)
    ensures s[..|obstacles|] == obstacles
    ensures |s| > |obstacles| ==> s[|obstacles|] == Spawn(r)
  {
    if frame % SpawnRate(speed) == 0 then obstacles + [Spawn(r)] else obstacles
  }

  /** The shape every obstacle keeps: only its x coordinate ever changes. */
  predicate WellFormed(o: Obstacle)
  {
    o.w == 20.0 && 20.0 <= o.h < 50.0 && o.y + o.h == GroundY && !o.passed
  }

  /** The sweep keeps every obstacle well formed. */
  lemma SweepKeepsShape(p: Rect, s: seq<Obstacle>, speed: real, score0: int, high0: int)
    requires forall o :: o in s ==> WellFormed(o)
    ensures forall o :: o in Swept(p, s, |s|, speed, score0, high0).kept ==> WellFormed(o)
  {
    SweptExact(p, s, |s|, speed, score0, high0);
    forall o | o in Swept(p, s, |s|, speed, score0, high0).kept ensures WellFormed(o) {
      var j :| 0 <= j < |s| && o == Moved(s[j], speed);
      assert WellFormed(s[j]);
    }
  }

  class Runner {
    var running: bool
    var score: int
    var highScore: int
    var frame: int
    var gameSpeed: real
    /** dino.y, dino.dy and dino.grounded; x, width and height are constants. */
    var y: real
    var dy: real
    var grounded: bool
    var obstacles: seq<Obstacle>

    ghost predicate Valid()
      reads this
    {
      && score >= 0 && frame >= 0 && gameSpeed >= 5.0
      && y + DinoH <= GroundY
      && (grounded ==> dy == 0.0 && y + DinoH == GroundY)
      && forall o :: o in obstacles ==> WellFormed(o)
    }

    /** The state when the script loads; `savedHigh` is the stored high score. */
    constructor (savedHigh: int)
      ensures Valid() && !running && score == 0 && highScore == savedHigh
      ensures frame == 0 && gameSpeed == 5.0 && obstacles == []
      ensures y == GroundY - DinoH && dy == 0.0 && !grounded
    {
      running := false;
      score := 0;
      highScore := savedHigh;
      frame := 0;
      gameSpeed := 5.0;
      y := GroundY - DinoH;
      dy := 0.0;
      grounded := false;
      obstacles := [];
    }

    /** One animation frame. `r` is the Math.random() draw used if an
        obstacle spawns this frame. */
    method Update(r: real)
      requires Valid() && 0.0 <= r < 1.0
      modifies this
      ensures Valid()
      ensures !old(running) ==> unchanged(this)
      ensures old(running) ==>
        && frame == old(frame) + 1
        && gameSpeed == GameSpeed(old(score))
        && Motion(y, dy, grounded) == Fall(old(y), old(dy), Gravity, Rest)
        && var pending := WithSpawn(old(obstacles), frame, gameSpeed, r);
           Sweep(obstacles, score, running, highScore)
           == Swept(Rect(DinoX, y, DinoW, DinoH), pending, |pending|, gameSpeed, old(score), old(highScore))
    {
      if !running {
        return;
      }
      var nextFrame := frame + 1;
      var speed := GameSpeed(score);
      var m := Fall(y, dy, Gravity, Rest);
      var pending := obstacles;
      if nextFrame % SpawnRate(speed) == 0 {
        pending := pending + [Spawn(r)];
      }
      assert pending == WithSpawn(obstacles, nextFrame, speed, r);
      var player := Rect(DinoX, m.y, DinoW, DinoH);
      var kept, newScore, stillRunning, newHigh := SweepObstacles(pending, speed, player, score, highScore);
      SweepKeepsShape(player, pending, speed, score, highScore);
      SweptCount(player, pending, |pending|, speed, score, highScore);
      frame, gameSpeed, y, dy, grounded := nextFrame, speed, m.y, m.dy, m.grounded;
      obstacles, score, running, highScore := kept, newScore, stillRunning, newHigh;
    }

    /** Jumping is possible only from the ground. */
    method Jump()
      requires Valid()
      modifies this`dy, this`grounded
      ensures Valid()
      ensures old(grounded) ==> dy == JumpPower && !grounded
      ensures !old(grounded) ==> dy == old(dy) && grounded == old(grounded)
    {
      if grounded {
        dy := JumpPower;
        grounded := false;
      }
    }

    /** Starting is ignored while running; otherwise the session is reset and
        the first frame runs at once. `grounded` is not reset, but the first
        frame lands the runner on the ground. */
    method StartGame(r: real)
      requires Valid() && 0.0 <= r < 1.0
      modifies this
      ensures Valid()
      ensures old(running) ==> unchanged(this)
      ensures !old(running) ==>
        && running && score == 0 && obstacles == [] && frame == 1 && gameSpeed == 5.0
        && y + DinoH == GroundY && dy == 0.0 && grounded
        && highScore == old(highScore)
    {
      if running {
        return;
      }
      running := true;
      score := 0;
      obstacles := [];
      y := GroundY - DinoH;
      dy := 0.0;
      frame := 0;
      gameSpeed := 5.0;
      assert SpawnRate(GameSpeed(0)) == 92;
      Update(r);
    }

    /** The Space key and a touch on the canvas: start a session when none is
        running, jump otherwise. */
    method Press(r: real)
      requires Valid() && 0.0 <= r < 1.0
      modifies this
      ensures Valid()
      ensures !old(running) ==>
        && running && score == 0 && obstacles == [] && frame == 1 && gameSpeed == 5.0
        && y + DinoH == GroundY && dy == 0.0 && grounded
        && highScore == old(highScore)
      ensures old(running) ==>
        && running && score == old(score) && obstacles == old(obstacles) && highScore == old(highScore)
        && y == old(y) && frame == old(frame) && gameSpeed == old(gameSpeed)
        && (old(grounded) ==> dy == JumpPower && !grounded)
        && (!old(grounded) ==> dy == old(dy) && grounded == old(grounded))
    {
      if !running {
        StartGame(r);
      } else {
        Jump();
      }
    }

    /** The session ends; the high score is replaced only by a larger score.
        Inside a frame the obstacle loop applies the same rule (`Visit`). */
    method GameOver()
      modifies this`running, this`highScore
      ensures !running && highScore == Best(score, old(highScore))
    {
      running := false;
      if score > highScore {
        highScore := score;
      }
    }
  }

  /** A jump always leaves the ground on the next frame. */
  lemma JumpLiftsOff(y: real)
    requires y + DinoH <= GroundY
    ensures !Fall(y, JumpPower, Gravity, Rest).grounded && Fall(y, JumpPower, Gravity, Rest).y < y
  {
  }

  /** A runner standing on the ground stays there until it jumps. */
  lemma StandingStays()
    ensures Fall(Rest, 0.0, Gravity, Rest) == Motion(Rest, 0.0, true)
  {
  }
}
