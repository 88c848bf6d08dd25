/**
 * The runner embedded in the portfolio page (initDinoGame in script.js): the
 * same square-box runner as the stand-alone game, on a 550-pixel canvas with
 * the ground at 350, a scroll speed capped at 10, obstacles 25 to 50 pixels
 * high and no high score. Crashing only stops the session. Restarting puts
 * the runner back on the ground line but keeps its vertical speed.
 */
module PageRunner {
  import opened Arcade

  const CanvasWidth: real := 550.0
  const GroundY: real := 350.0
  const Gravity: real := 0.3
  const JumpPower: real := -9.0
  const DinoX: real := 60.0
  const DinoW: real := 30.0
  const DinoH: real := 30.0
  const BaseSpeed: real := 5.0
  const MaxSpeed: real := 10.0

  /** The top edge of the runner when it stands on the ground. */
  const Rest: real := GroundY - DinoH

  /** Scroll speed in pixels per frame: `Math.min(10, 5 + score * 0.01)`. */
  function GameSpeed(score: int): (s: real)
    ensures s <= MaxSpeed
    ensures score >= 0 ==> BaseSpeed <= s
  {
    var s := BaseSpeed + score as real * 0.01;
    if s < MaxSpeed then s else MaxSpeed
  }

  /** The speed grows by 0.01 per point until it reaches the cap at 500
      points, and stays at the cap from then on. */
  lemma GameSpeedCap(score: int)
    ensures score >= 500 ==> GameSpeed(score) == MaxSpeed
    ensures score < 500 ==> GameSpeed(score) == BaseSpeed + score as real * 0.01 < MaxSpeed
  {
  }

  lemma GameSpeedMonotone(a: int, b: int)
    requires a <= b
    ensures GameSpeed(a) <= GameSpeed(b)
  {
  }

  /** Frames between spawns: `Math.floor(100 - speed * 2)`. Between the
      base speed and the cap it lies between 80 and 90, so the modulus of
      the spawn test is never zero. */
  function SpawnRate(speed: real): (n: int)
    ensures BaseSpeed <= speed <= MaxSpeed ==> 80 <= n <= 90
    ensures n as real <= 100.0 - speed * 2.0 < n as real + 1.0
  {
    (100.0 - speed * 2.0).Floor
  }

  /** A faster game never spawns less often. */
  lemma SpawnRateAntitone(s: real, t: real)
    requires s <= t
    ensures SpawnRate(t) <= SpawnRate(s)
  {
    FloorMonotone(100.0 - t * 2.0, 100.0 - s * 2.0);
  }

  /** A fresh obstacle for the draw `r` of Math.random(): at the right edge,
      20 wide, 25 to 50 high, standing on the ground line. */
  function Spawn(r: real): (o: Obstacle)
    requires 0.0 <= r < 1.0
    ensures o.x == CanvasWidth && o.w == 20.0 && !o.passed
    ensures 25.0 <= o.h < 50.0 && o.y + o.h == GroundY
  {
    var h := r * (50.0 - 25.0) + 25.0;
    Obstacle(CanvasWidth, GroundY - h, 20.0, h, false)
  }

  /** The obstacle list after the spawn test of frame number `frame`. */
  function WithSpawn(obstacles: seq<Obstacle>, frame: int, speed: real, r: real): (s: seq<Obstacle>)
    requires 0.0 <= r < 1.0 && BaseSpeed <= speed <= MaxSpeed
    ensures |s| == |obstacles| + (if frame % SpawnRate(speed) == 0 then 1 else 0)
    ensures s[..|obstacles|] == obstacles
    ensures |s| > |obstacles| ==> s[|obstacles|] == Spawn(r)
  {
    if frame % SpawnRate(speed) == 0 then obstacles + [Spawn(r)] else obstacles
  }

  /** The shape every obstacle keeps: only its x coordinate ever changes. */
  predicate WellFormed(o: Obstacle)
  {
    o.w == 20.0 && 25.0 <= o.h < 50.0 && o.y + o.h == GroundY && !o.passed
  }

  /** The sweep keeps every obstacle well formed. */
  lemma SweepKeepsShape(p: Rect, s: seq<Obstacle>, speed: real, score0: int)
    requires forall o :: o in s ==> WellFormed(o)
    ensures forall o :: o in Swept(p, s, |s|, speed, score0, 0).kept ==> WellFormed(o)
  {
    SweptExact(p, s, |s|, speed, score0, 0);
    forall o | o in Swept(p, s, |s|, speed, score0, 0).kept ensures WellFormed(o) {
      var j :| 0 <= j < |s| && o == Moved(s[j], speed);
      assert WellFormed(s[j]);
    }
  }

  /** The closure state of initDinoGame. The page keeps no high score, so
      the sweep's high score is started at 0 and dropped. */
  class Runner {
    var running: bool
    var score: int
    var frame: int
    var gameSpeed: real
    /** dino.y, dino.dy and dino.grounded; x, width and height are constants. */
    var y: real
    var dy: real
    var grounded: bool
    var obstacles: seq<Obstacle>

    ghost predicate Valid()
      reads this
    {
      && score >= 0 && frame >= 0 && BaseSpeed <= gameSpeed <= MaxSpeed
      && y <= Rest
      && (grounded ==> dy == 0.0 && y == Rest)
      && forall o :: o in obstacles ==> WellFormed(o)
    }

    /** The state when the page has set the game up. */
    constructor ()
      ensures Valid() && !running && score == 0 && frame == 0 && gameSpeed == BaseSpeed
      ensures obstacles == [] && y == Rest && dy == 0.0 && !grounded
    {
      running := false;
      score := 0;
      frame := 0;
      gameSpeed := BaseSpeed;
      y := Rest;
      dy := 0.0;
      grounded := false;
      obstacles := [];
    }

    /** One animation frame. `r` is the Math.random() draw used if an
        obstacle spawns this frame. */
    method Update(r: real)
      requires Valid() && 0.0 <= r < 1.0
      modifies this
      ensures Valid()
      ensures !old(running) ==> unchanged(this)
      ensures old(running) ==>
        && frame == old(frame) + 1
        && gameSpeed == GameSpeed(old(score))
        && Motion(y, dy, grounded) == Fall(old(y), old(dy), Gravity, Rest)
        && var pending := WithSpawn(old(obstacles), frame, gameSpeed, r);
           var w := Swept(Rect(DinoX, y, DinoW, DinoH), pending, |pending|, gameSpeed, old(score), 0);
           obstacles == w.kept && score == w.score && running == w.running
    {
      if !running {
        return;
      }
      var nextFrame := frame + 1;
      var speed := GameSpeed(score);
      var m := Fall(y, dy, Gravity, Rest);
      var pending := obstacles;
      if nextFrame % SpawnRate(speed) == 0 {
        pending := pending + [Spawn(r)];
      }
      assert pending == WithSpawn(obstacles, nextFrame, speed, r);
      var player := Rect(DinoX, m.y, DinoW, DinoH);
      var kept, newScore, stillRunning, _ := SweepObstacles(pending, speed, player, score, 0);
      SweepKeepsShape(player, pending, speed, score);
      SweptCount(player, pending, |pending|, speed, score, 0);
      frame, gameSpeed, y, dy, grounded := nextFrame, speed, m.y, m.dy, m.grounded;
      obstacles, score, running := kept, newScore, stillRunning;
    }

    /** Jumping is possible only from the ground. */
    method Jump()
      requires Valid()
      modifies this`dy, this`grounded
      ensures Valid()
      ensures old(grounded) ==> dy == JumpPower && !grounded
      ensures !old(grounded) ==> dy == old(dy) && grounded == old(grounded)
    {
      if grounded {
        dy := JumpPower;
        grounded := false;
      }
    }

    /** Starting is ignored while running; otherwise the session is reset
        and the first frame runs at once. The runner is put back on the
        ground line but keeps the vertical speed it had when it crashed. */
    method StartGame(r: real)
      requires Valid() && 0.0 <= r < 1.0
      modifies this
      ensures Valid()
      ensures old(running) ==> unchanged(this)
      ensures !old(running) ==>
        && running && score == 0 && obstacles == [] && frame == 1 && gameSpeed == BaseSpeed
        && Motion(y, dy, grounded) == Fall(Rest, old(dy), Gravity, Rest)
    {
      if running {
        return;
      }
      running := true;
      score := 0;
      gameSpeed := BaseSpeed;
      obstacles := [];
      y := Rest;
      frame := 0;
      assert SpawnRate(GameSpeed(0)) == 90;
      Update(r);
    }

    /** The Space key and a touch on the canvas: start a session when none
        is running, jump otherwise. */
    method Press(r: real)
      requires Valid() && 0.0 <= r < 1.0
      modifies this
      ensures Valid()
      ensures !old(running) ==>
        && running && score == 0 && obstacles == [] && frame == 1 && gameSpeed == BaseSpeed
        && Motion(y, dy, grounded) == Fall(Rest, old(dy), Gravity, Rest)
      ensures old(running) ==>
        && running && score == old(score) && obstacles == old(obstacles)
        && y == old(y) && frame == old(frame) && gameSpeed == old(gameSpeed)
        && (old(grounded) ==> dy == JumpPower && !grounded)
        && (!old(grounded) ==> dy == old(dy) && grounded == old(grounded))
    {
      if !running {
        StartGame(r);
      } else {
        Jump();
      }
    }

    /** The keydown listener reacts to the Space key only. */
    method KeyDown(k: Key, r: real)
      requires Valid() && 0.0 <= r < 1.0
      modifies this
      ensures Valid()
      ensures k != Space ==> unchanged(this)
      ensures k == Space && !old(running) ==>
        && running && score == 0 && obstacles == [] && frame == 1 && gameSpeed == BaseSpeed
        && Motion(y, dy, grounded) == Fall(Rest, old(dy), Gravity, Rest)
      ensures k == Space && old(running) ==>
        && running && score == old(score) && obstacles == old(obstacles)
        && y == old(y) && frame == old(frame) && gameSpeed == old(gameSpeed)
        && (old(grounded) ==> dy == JumpPower && !grounded)
        && (!old(grounded) ==> dy == old(dy) && grounded == old(grounded))
    {
      if k == Space {
        Press(r);
      }
    }

    /** gameOver(): the session stops; nothing else changes. Inside a frame
        the obstacle loop applies the same rule (`Arcade.Visit`). */
    method GameOver()
      modifies this`running
      ensures !running
    {
      running := false;
    }
  }

  /** A restart lands the runner on the ground in its first frame exactly
      when the vertical speed it kept is not an upward speed of more than
      one frame of gravity; after a crash while rising it starts in the air. */
  lemma RestartLanding(dy: real)
    ensures Fall(Rest, dy, Gravity, Rest).grounded <==> dy > -Gravity
    ensures dy == JumpPower ==> !Fall(Rest, dy, Gravity, Rest).grounded
  {
  }

  /** A jump always leaves the ground on the next frame. */
  lemma JumpLiftsOff(y: real)
    requires y <= Rest
    ensures !Fall(y, JumpPower, Gravity, Rest).grounded && Fall(y, JumpPower, Gravity, Rest).y < y
  {
  }
}
