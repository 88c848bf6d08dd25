/**
 * The grid snake (games/snake/snake.js): a body of cells on a 20 x 20 grid,
 * head first, that moves one cell per tick, dies on the walls or on itself,
 * grows when it eats the food and speeds up every five points. The
 * module-level variables of the script are the fields of `SnakeGame`; a
 * `Math.random()` draw is a parameter, and `placeFood` receives the whole
 * list of draws it may consume.
 */
module Snake {
  import opened Arcade

  /** canvas width 500 / grid size 25 */
  const TileCount: int := 20

  /** A grid cell, or a velocity when used as a direction. */
  datatype Cell = Cell(x: int, y: int)

  predicate InGrid(c: Cell)
  {
    0 <= c.x < TileCount && 0 <= c.y < TileCount
  }

  /** No segment of the body occurs twice. */
  predicate Distinct(s: seq<Cell>)
  {
    forall i, j :: 0 <= i < j < |s| ==> s[i] != s[j]
  }

  /** One of the four unit directions. */
  predicate IsDir(v: Cell)
  {
    (v.x == 0 && (v.y == 1 || v.y == -1)) || (v.y == 0 && (v.x == 1 || v.x == -1))
  }

  function Reverse(v: Cell): Cell
  {
    Cell(-v.x, -v.y)
  }

  /** The body set up by resetGame: vertical, head at (10, 10). */
  const StartBody: seq<Cell> := [Cell(10, 10), Cell(10, 11), Cell(10, 12)]
  const Up: Cell := Cell(0, -1)

  /** A pair of Math.random() draws, one per axis. */
  predicate IsDraw(d: (real, real))
  {
    0.0 <= d.0 < 1.0 && 0.0 <= d.1 < 1.0
  }

  predicate AllDraws(draws: seq<(real, real)>)
  {
    forall i :: 0 <= i < |draws| ==> IsDraw(draws[i])
  }

  /** The cell `{x: floor(rx * TILE_COUNT), y: floor(ry * TILE_COUNT)}`. */
  function DrawCell(d: (real, real)): (c: Cell)
    requires IsDraw(d)
    ensures InGrid(c)
  {
    Cell((d.0 * TileCount as real).Floor, (d.1 * TileCount as real).Floor)
  }

  /** Some draw lands off `cells`, so rejection sampling over `draws` ends. */
  predicate HasFreeDraw(draws: seq<(real, real)>, cells: seq<Cell>)
  {
    AllDraws(draws) && exists n :: 0 <= n < |draws| && DrawCell(draws[n]) !in cells
  }

  /** The index of the first draw that lands off `cells`: the one the
      rejection loop of placeFood stops at. */
  function FirstFree(draws: seq<(real, real)>, cells: seq<Cell>, from: nat): (n: nat)
    requires AllDraws(draws) && from <= |draws|
    requires exists m :: from <= m < |draws| && DrawCell(draws[m]) !in cells
    ensures from <= n < |draws| && DrawCell(draws[n]) !in cells
    ensures forall j :: from <= j < n ==> DrawCell(draws[j]) in cells
    decreases |draws| - from
  {
    if DrawCell(draws[from]) !in cells then from else FirstFree(draws, cells, from + 1)
  }

  /** The direction guard of the keydown handler: an arrow key turns the
      snake only onto the other axis; any other key leaves it alone. */
  function Steer(v: Cell, k: Key): Cell
  {
    match k
    case ArrowUp => if v.y == 0 then Cell(0, -1) else v
    case ArrowDown => if v.y == 0 then Cell(0, 1) else v
    case ArrowLeft => if v.x == 0 then Cell(-1, 0) else v
    case ArrowRight => if v.x == 0 then Cell(1, 0) else v
    case _ => v
  }

  /** A key press never reverses a moving snake: the velocity either stays or
      turns onto the perpendicular axis, and it stays a unit direction. */
  lemma SteerNeverReverses(v: Cell, k: Key)
    requires IsDir(v)
    ensures IsDir(Steer(v, k))
    ensures Steer(v, k) != Reverse(v)
    ensures Steer(v, k) == v || (Steer(v, k).x == 0 <==> v.x != 0)
  {
    if v == Cell(0, 1) || v == Cell(0, -1) {
      SteerVertical(v, k);
    } else {
      SteerHorizontal(v, k);
    }
  }

  lemma SteerVertical(v: Cell, k: Key)
    requires v == Cell(0, 1) || v == Cell(0, -1)
    ensures Steer(v, k) == v || Steer(v, k) == Cell(-1, 0) || Steer(v, k) == Cell(1, 0)
  {
  }

  lemma SteerHorizontal(v: Cell, k: Key)
    requires v == Cell(1, 0) || v == Cell(-1, 0)
    ensures Steer(v, k) == v || Steer(v, k) == Cell(0, -1) || Steer(v, k) == Cell(0, 1)
  {
  }

  /** The guard reads the live velocity, so two presses between two moves
      can turn the snake around: Left then Down while moving up. */
  lemma TwoKeysReverse()
    ensures Steer(Steer(Up, ArrowLeft), ArrowDown) == Reverse(Up)
  {
  }

  /** The throttle of update: a tick runs only once 1/snakeSpeed seconds
      have passed since the last one. */
  predicate Due(currentTime: real, lastRenderTime: real, speed: int)
    requires speed > 0
  {
    (currentTime - lastRenderTime) / 1000.0 >= 1.0 / speed as real
  }

  /** The throttle in milliseconds: a tick is due once 1000/speed ms have passed. */
  lemma DueInMillis(currentTime: real, lastRenderTime: real, speed: int)
    requires speed > 0
    ensures Due(currentTime, lastRenderTime, speed) <==> currentTime - lastRenderTime >= 1000.0 / speed as real
  {
  }

  /** The move kills the snake: the new head is off the grid or on the body
      as it was before the move (the tail cell included). */
  predicate Fatal(body: seq<Cell>, head: Cell)
  {
    !InGrid(head) || head in body
  }

  /** Moving onto the tail cell is fatal, although the shift of this very
      tick would have freed that cell: the test reads the body before the
      move. */
  lemma ChasingTailIsFatal(body: seq<Cell>, head: Cell)
    requires |body| >= 2 && Distinct(body) && head == body[|body| - 1]
    ensures Fatal(body, head)
    ensures head !in body[..|body| - 1]
  {
  }

  /** Prepending a head that is off the body keeps the body duplicate-free and
      inside the grid, whether or not the tail is then dropped. */
  lemma {:induction false} PrependKeepsShape(body: seq<Cell>, head: Cell, drop: bool)
    requires |body| > 0 && Distinct(body) && (forall c :: c in body ==> InGrid(c))
    requires InGrid(head) && head !in body
    ensures var nb := if drop then [head] + body[..|body| - 1] else [head] + body;
      Distinct(nb) && (forall c :: c in nb ==> InGrid(c))
  {
    var nb := if drop then [head] + body[..|body| - 1] else [head] + body;
    forall i, j | 0 <= i < j < |nb| ensures nb[i] != nb[j] {
      assert nb[j] == body[j - 1];
      if i == 0 {
        assert body[j - 1] in body;
      } else {
        assert nb[i] == body[i - 1];
      }
    }
    forall c | c in nb ensures InGrid(c) {
      if c != head {
        var j :| 0 <= j < |nb| && nb[j] == c;
        assert nb[j] == body[j - 1];
      }
    }
  }

  /** After a shift the food, which the head did not reach, is still off the body. */
  lemma ShiftKeepsFoodOff(body: seq<Cell>, head: Cell, food: Cell)
    requires |body| > 0 && food !in body && head != food
    ensures food !in [head] + body[..|body| - 1]
  {
    var nb := [head] + body[..|body| - 1];
    forall j | 0 <= j < |nb| ensures nb[j] != food {
      if j > 0 {
        assert nb[j] == body[j - 1];
      }
    }
  }

  /** The outcome of one move from `body` towards `head` with the food at
      `food`, relating the old values to the new ones. */
  ghost predicate TickOutcome(body: seq<Cell>, head: Cell, food: Cell, score: int, speed: int, highScore: int,
                        draws: seq<(real, real)>,
                        body': seq<Cell>, food': Cell, score': int, speed': int, running': bool, highScore': int)
    requires |body| > 0
  {
    if Fatal(body, head) then
      && !running' && highScore' == Best(score, highScore)
      && body' == body && score' == score && food' == food && speed' == speed
    else if head == food then
      && running' && highScore' == highScore
      && body' == [head] + body && score' == score + 1
      && speed' == speed + (if score' % 5 == 0 then 1 else 0)
      && HasFreeDraw(draws, body') && food' == DrawCell(draws[FirstFree(draws, body', 0)])
    else
      && running' && highScore' == highScore
      && body' == [head] + body[..|body| - 1]
      && score' == score && food' == food && speed' == speed
  }

  class SnakeGame {
    var running: bool
    var score: int
    var highScore: int
    var lastRenderTime: real
    var speed: int
    var body: seq<Cell>
    var velocity: Cell
    var food: Cell

    ghost predicate Valid()
      reads this
    {
      && score >= 0
      && |body| == score + 3
      && speed == 10 + score / 5
      && Distinct(body)
      && (forall c :: c in body ==> InGrid(c))
      && InGrid(food) && food !in body
      && IsDir(velocity)
    }

    /** The cell the head moves to on the next tick. */
    function NextHead(): Cell
      reads this
      requires |body| > 0
    {
      Cell(body[0].x + velocity.x, body[0].y + velocity.y)
    }

    /** The script's load: the variables get their initial values and
        resetGame runs once. `draws` feeds the food placement. */
    constructor (savedHigh: int, draws: seq<(real, real)>)
      requires HasFreeDraw(draws, StartBody)
      ensures Valid() && !running && highScore == savedHigh && lastRenderTime == 0.0
      ensures body == StartBody && velocity == Up && score == 0 && speed == 10
    {
      running := false;
      score := 0;
      highScore := savedHigh;
      lastRenderTime := 0.0;
      speed := 10;
      body := [];
      velocity := Cell(0, 0);
      food := Cell(5, 5);
      new;
      ResetGame(draws);
    }

    /** A fresh snake in the middle of the grid heading up, score 0, speed 10
        and food placed off the body. */
    method ResetGame(draws: seq<(real, real)>)
      requires HasFreeDraw(draws, StartBody)
      modifies this`body, this`velocity, this`score, this`speed, this`food
      ensures Valid()
      ensures body == StartBody && velocity == Up && score == 0 && speed == 10
      ensures food == DrawCell(draws[FirstFree(draws, StartBody, 0)])
    {
      body := StartBody;
      velocity := Up;
      score := 0;
      speed := 10;
      PlaceFood(draws);
    }

    /** Rejection sampling: draw a cell until it lies off the body. The scan
        of the body stops at the first segment on the drawn cell. */
    method PlaceFood(draws: seq<(real, real)>)
      requires HasFreeDraw(draws, body)
      modifies this`food
      ensures InGrid(food) && food !in body
      ensures food == DrawCell(draws[FirstFree(draws, body, 0)])
    {
      var n := 0;
      var validPosition := false;
      while !validPosition
        invariant 0 <= n <= FirstFree(draws, body, 0) + (if validPosition then 1 else 0)
        invariant forall j :: 0 <= j < n - (if validPosition then 1 else 0) ==> DrawCell(draws[j]) in body
        invariant validPosition ==> n > 0 && food == DrawCell(draws[n - 1]) && food !in body
        decreases |draws| - n, !validPosition
      {
        food := DrawCell(draws[n]);
        n := n + 1;
        var collisionFound := false;
        var i := 0;
        while i < |body|
          invariant 0 <= i <= |body|
          invariant !collisionFound && food !in body[..i]
        {
          if body[i] == food {
            collisionFound := true;
            break;
          }
          assert body[..i + 1] == body[..i] + [body[i]];
          i := i + 1;
        }
        assert collisionFound <==> food in body by {
          if !collisionFound {
            assert body[..i] == body;
          }
        }
        if !collisionFound {
          validPosition := true;
        }
      }
    }

    /** Whether `head` lands on a segment of the current body. */
    method CheckSelfCollision(head: Cell) returns (hit: bool)
      ensures hit <==> head in body
    {
      for i := 0 to |body|
        invariant head !in body[..i]
      {
        if head == body[i] {
          return true;
        }
        assert body[..i + 1] == body[..i] + [body[i]];
      }
      assert body[..|body|] == body;
      return false;
    }

    /** One animation frame at time `currentTime` (milliseconds): nothing
        happens unless the session runs and a tick is due; a due tick records
        the time and moves the snake. */
    method Update(currentTime: real, draws: seq<(real, real)>)
      requires Valid()
      requires NextHead() == food ==> HasFreeDraw(draws, [food] + body)
      modifies this
      ensures Valid()
      ensures !old(running) || !Due(currentTime, old(lastRenderTime), old(speed)) ==> unchanged(this)
      ensures old(running) && Due(currentTime, old(lastRenderTime), old(speed)) ==>
        && lastRenderTime == currentTime && velocity == old(velocity)
        && TickOutcome(old(body), old(NextHead()), old(food), old(score), old(speed), old(highScore), draws,
                 body, food, score, speed, running, highScore)
    {
      if !running {
        return;
      }
      var secondsSinceLastRender := (currentTime - lastRenderTime) / 1000.0;
      if secondsSinceLastRender < 1.0 / speed as real {
        return;
      }
      lastRenderTime := currentTime;
      Tick(draws);
    }

    /** The move of a due tick: a fatal move ends the session and changes
        nothing else; eating grows the body, scores, speeds up every five
        points and re-places the food; otherwise the body shifts. */
    method Tick(draws: seq<(real, real)>)
      requires Valid() && running
      requires NextHead() == food ==> HasFreeDraw(draws, [food] + body)
      modifies this`body, this`score, this`speed, this`food, this`running, this`highScore
      ensures Valid()
      ensures TickOutcome(old(body), old(NextHead()), old(food), old(score), old(speed), old(highScore), draws,
                    body, food, score, speed, running, highScore)
    {
      var head := Cell(body[0].x + velocity.x, body[0].y + velocity.y);
      var dead := head.x < 0 || head.x >= TileCount || head.y < 0 || head.y >= TileCount;
      if !dead {
        dead := CheckSelfCollision(head);
      }
      if dead {
        GameOver();
        return;
      }

      ghost var before := body;
      PrependKeepsShape(before, head, head != food);
      body := [head] + body;
      if head == food {
        score := score + 1;
        if score % 5 == 0 {
          speed := speed + 1;
        }
        PlaceFood(draws);
      } else {
        ShiftKeepsFoodOff(before, head, food);
        body := body[..|body| - 1];
        assert body == [head] + before[..|before| - 1];
      }
    }

    /** The session ends; the high score is replaced only by a larger score. */
    method GameOver()
      modifies this`running, this`highScore
      ensures !running && highScore == Best(score, old(highScore))
    {
      running := false;
      if score > highScore {
        highScore := score;
      }
    }

    /** Starting is ignored while running; otherwise the snake is reset. The
        first tick is left to the next animation frame. */
    method StartGame(draws: seq<(real, real)>)
      requires Valid() && HasFreeDraw(draws, StartBody)
      modifies this
      ensures Valid()
      ensures old(running) ==> unchanged(this)
      ensures !old(running) ==>
        && running && body == StartBody && velocity == Up && score == 0 && speed == 10
        && food == DrawCell(draws[FirstFree(draws, StartBody, 0)])
        && highScore == old(highScore) && lastRenderTime == old(lastRenderTime)
    {
      if running {
        return;
      }
      ResetGame(draws);
      running := true;
    }

    /** The keydown handler: an arrow key starts a stopped game, then every
        arrow key is passed through the direction guard, which reads the
        velocity as it is at that moment; Space only starts the game. */
    method KeyDown(k: Key, draws: seq<(real, real)>)
      requires Valid() && HasFreeDraw(draws, StartBody)
      modifies this
      ensures Valid()
      ensures !old(running) && (IsArrow(k) || k == Space) ==>
        && running && body == StartBody && score == 0 && speed == 10 && velocity == Steer(Up, k)
        && food == DrawCell(draws[FirstFree(draws, StartBody, 0)])
        && highScore == old(highScore) && lastRenderTime == old(lastRenderTime)
      ensures old(running) || !(IsArrow(k) || k == Space) ==>
        && velocity == Steer(old(velocity), k) && running == old(running)
        && body == old(body) && score == old(score) && food == old(food) && speed == old(speed)
        && highScore == old(highScore) && lastRenderTime == old(lastRenderTime)
    {
      if !running && IsArrow(k) {
        StartGame(draws);
      }
      match k {
        case ArrowUp =>
          if velocity.y == 0 { velocity := Cell(0, -1); }
        case ArrowDown =>
          if velocity.y == 0 { velocity := Cell(0, 1); }
        case ArrowLeft =>
          if velocity.x == 0 { velocity := Cell(-1, 0); }
        case ArrowRight =>
          if velocity.x == 0 { velocity := Cell(1, 0); }
        case Space =>
          if !running { StartGame(draws); }
        case Other =>
      }
    }
  }
}
