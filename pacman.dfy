/**
 * The maze chase (games/pacman/pacman.js): a 19 x 19 grid of tiles (0
 * empty, 1 wall, 2 dot), Pac-Man steered by buffered arrow keys, and three
 * ghosts that pick a direction at every tile centre. Entities sit at
 * fractional tile coordinates; JavaScript numbers are modelled as exact
 * `real`s and `Math.round` as `floor(x + 0.5)`.
 */
module Pacman {
  import Arcade

  const EmptyTile: int := 0
  const WallTile: int := 1
  const DotTile: int := 2

  /** Tiles per frame. */
  const PacmanSpeed: real := 0.09
  const GhostSpeed: real := 0.05

  /** mapLayout, row by row. */
  const Layout: seq<seq<int>> := [
    [1,1,1,1,1,1,1,1,1,1,1,1,1,1,1,1,1,1,1],
    [1,2,2,2,2,2,2,2,2,1,2,2,2,2,2,2,2,2,1],
    [1,2,1,1,2,1,1,1,2,1,2,1,1,1,2,1,1,2,1],
    [1,2,2,2,2,2,2,2,2,2,2,2,2,2,2,2,2,2,1],
    [1,2,1,1,2,1,2,1,1,1,1,1,2,1,2,1,1,2,1],
    [1,2,2,2,2,1,2,2,2,1,2,2,2,1,2,2,2,2,1],
    [1,1,1,1,2,1,1,1,0,1,0,1,1,1,2,1,1,1,1],
    [0,0,0,1,2,1,0,0,0,0,0,0,0,1,2,1,0,0,0],
    [1,1,1,1,2,1,0,1,1,0,1,1,0,1,2,1,1,1,1],
    [0,2,2,2,2,0,0,1,0,0,0,1,0,0,2,2,2,2,0],
    [1,1,1,1,2,1,0,1,1,1,1,1,0,1,2,1,1,1,1],
    [0,0,0,1,2,1,0,0,0,0,0,0,0,1,2,1,0,0,0],
    [1,1,1,1,2,1,0,1,1,1,1,1,0,1,2,1,1,1,1],
    [1,2,2,2,2,2,2,2,2,1,2,2,2,2,2,2,2,2,1],
    [1,2,1,1,2,1,1,1,2,1,2,1,1,1,2,1,1,2,1],
    [1,2,2,1,2,2,2,2,2,0,2,2,2,2,2,1,2,2,1],
    [1,1,2,1,2,1,2,1,1,1,1,1,2,1,2,1,2,1,1],
    [1,2,2,2,2,1,2,2,2,1,2,2,2,1,2,2,2,2,1],
    [1,1,1,1,1,1,1,1,1,1,1,1,1,1,1,1,1,1,1]
  ]

  /** A direction `{x, y}`; `Stop` is the empty direction `{x: 0, y: 0}`. */
  datatype Vec = Vec(x: int, y: int)

  const Stop: Vec := Vec(0, 0)

  /** The ghosts' candidate directions, in the order they are tried: up, down, left, right. */
  const Dirs: seq<Vec> := [Vec(0, -1), Vec(0, 1), Vec(-1, 0), Vec(1, 0)]

  function Reverse(d: Vec): Vec
  {
    Vec(-d.x, -d.y)
  }

  /** One of the four axis directions. */
  predicate IsUnit(d: Vec)
  {
    (d.x == 0 && (d.y == -1 || d.y == 1)) || (d.y == 0 && (d.x == -1 || d.x == 1))
  }

  /** The candidate list holds each axis direction exactly once. */
  lemma DirsAreUnits()
    ensures forall d :: d in Dirs <==> IsUnit(d)
    ensures forall i, j :: 0 <= i < j < |Dirs| ==> Dirs[i] != Dirs[j]
  {
  }

  function Abs(r: real): real
  {
    if r < 0.0 then -r else r
  }

  /** Math.round: the nearest integer, halves rounded up. */
  function Round(r: real): (n: int)
    ensures n as real - 0.5 <= r < n as real + 0.5
  {
    (r + 0.5).Floor
  }

  /** isCentered: both coordinates strictly within 0.05 of their rounded values. */
  predicate IsCentered(x: real, y: real)
  {
    Abs(x - Round(x) as real) < 0.05 && Abs(y - Round(y) as real) < 0.05
  }

  /** An entity within 0.05 of the tile (col, row) on both axes is centered
      and stands on that tile; in particular one exactly on a tile is. */
  lemma CenteredNearTile(x: real, y: real, col: int, row: int)
    requires Abs(x - col as real) < 0.05 && Abs(y - row as real) < 0.05
    ensures IsCentered(x, y) && Round(x) == col && Round(y) == row
  {
    RoundNear(x, col);
    RoundNear(y, row);
  }

  /** A real within half a unit below or less than half above `n` rounds to `n`. */
  lemma RoundNear(r: real, n: int)
    requires n as real - 0.5 <= r < n as real + 0.5
    ensures Round(r) == n
  {
  }

  /** canMove: the tile reached by rounding the position plus `d` is inside
      the grid, as bounded by the row count and the width of the first
      row, and does not hold a wall. A row shorter than the first yields
      `undefined`, which is not a wall. */
  function CanMove(tiles: seq<seq<int>>, x: real, y: real, d: Vec): (ok: bool)
    requires |tiles| > 0
    ensures ok ==> 0 <= Round(y + d.y as real) < |tiles| && 0 <= Round(x + d.x as real) < |tiles[0]|
    ensures ok && Round(x + d.x as real) < |tiles[Round(y + d.y as real)]| ==>
              tiles[Round(y + d.y as real)][Round(x + d.x as real)] != WallTile
    ensures (&& 0 <= Round(y + d.y as real) < |tiles| && 0 <= Round(x + d.x as real) < |tiles[0]|
             && (|| Round(x + d.x as real) >= |tiles[Round(y + d.y as real)]|
                 || tiles[Round(y + d.y as real)][Round(x + d.x as real)] != WallTile)) ==> ok
  {
    var tx := Round(x + d.x as real);
    var ty := Round(y + d.y as real);
    if ty < 0 || ty >= |tiles| || tx < 0 || tx >= |tiles[0]| then false
    else tx >= |tiles[ty]| || tiles[ty][tx] != WallTile
  }

  /** Tiles with the same shape and the same walls allow the same moves. */
  predicate SameWalls(a: seq<seq<int>>, b: seq<seq<int>>)
  {
    && |a| == |b|
    && (forall r :: 0 <= r < |a| ==> |a[r]| == |b[r]|)
    && (forall r, c :: 0 <= r < |a| && 0 <= c < |a[r]| ==> (a[r][c] == WallTile <==> b[r][c] == WallTile))
  }

  lemma SameWallsSameMoves(a: seq<seq<int>>, b: seq<seq<int>>, x: real, y: real, d: Vec)
    requires |a| > 0 && SameWalls(a, b)
    ensures CanMove(a, x, y, d) == CanMove(b, x, y, d)
  {
    assert |a[0]| == |b[0]|;
  }

  lemma SameWallsTrans(a: seq<seq<int>>, b: seq<seq<int>>, c: seq<seq<int>>)
    requires SameWalls(a, b) && SameWalls(b, c)
    ensures SameWalls(a, c)
  {
  }

  /** The tunnel rule: leaving on the left re-enters at column `width - 1`,
      leaving on the right re-enters at column 0. */
  function Wrap(x: real, width: int): (r: real)
    requires width >= 1
    ensures 0.0 <= r < width as real
    ensures 0.0 <= x < width as real ==> r == x
    ensures x < 0.0 ==> r == width as real - 1.0
    ensures x >= width as real ==> r == 0.0
  {
    var x := if x < 0.0 then width as real - 1.0 else x;
    if x >= width as real then 0.0 else x
  }

  /** One coordinate after a frame's advance of `d * speed`. */
  function Advance(v: real, d: int, speed: real): real
  {
    v + d as real * speed
  }

  /** The mutable part of an entity. */
  datatype Pose = Pose(x: real, y: real, dir: Vec, nextDir: Vec)

  /** GameEntity.move on a pose: wrap through the tunnel first; at a tile
      centre take the buffered direction if it is legal, and stand still
      if the direction then held is blocked; otherwise advance by
      `dir * speed`. */
  function MoveStep(tiles: seq<seq<int>>, p: Pose, speed: real): (q: Pose)
    requires |tiles| > 0 && |tiles[0]| >= 1
    ensures var x := Wrap(p.x, |tiles[0]|);
      && (IsCentered(x, p.y) && p.nextDir != Stop && CanMove(tiles, x, p.y, p.nextDir) ==>
            q.dir == p.nextDir && q.nextDir == Stop)
      && (!(IsCentered(x, p.y) && p.nextDir != Stop && CanMove(tiles, x, p.y, p.nextDir)) ==>
            q.dir == p.dir && q.nextDir == p.nextDir)
      && (IsCentered(x, p.y) && !CanMove(tiles, x, p.y, q.dir) ==> q.x == x && q.y == p.y)
      && (!IsCentered(x, p.y) || CanMove(tiles, x, p.y, q.dir) ==>
            q.x == Advance(x, q.dir.x, speed) && q.y == Advance(p.y, q.dir.y, speed))
  {
    var x := Wrap(p.x, |tiles[0]|);
    var turn := IsCentered(x, p.y) && p.nextDir != Stop && CanMove(tiles, x, p.y, p.nextDir);
    var dir := if turn then p.nextDir else p.dir;
    var next := if turn then Stop else p.nextDir;
    if IsCentered(x, p.y) && !CanMove(tiles, x, p.y, dir) then Pose(x, p.y, dir, next)
    else Pose(Advance(x, dir.x, speed), Advance(p.y, dir.y, speed), dir, next)
  }

  /** A centered entity only ever advances onto a tile it can move to. */
  lemma MoveRespectsWalls(tiles: seq<seq<int>>, p: Pose, speed: real)
    requires |tiles| > 0 && |tiles[0]| >= 1
    requires IsCentered(Wrap(p.x, |tiles[0]|), p.y)
    ensures var q := MoveStep(tiles, p, speed);
      (q.x, q.y) != (Wrap(p.x, |tiles[0]|), p.y) ==> CanMove(tiles, Wrap(p.x, |tiles[0]|), p.y, q.dir)
  {
  }

  /** The directions of `Dirs[..n]` a ghost at (x, y) heading `dir` may take:
      not the exact reverse of `dir`, and allowed by canMove. */
  function OptionsUpTo(tiles: seq<seq<int>>, x: real, y: real, dir: Vec, n: nat): seq<Vec>
    requires |tiles| > 0 && n <= |Dirs|
  {
    if n == 0 then []
    else
      var d := Dirs[n - 1];
      OptionsUpTo(tiles, x, y, dir, n - 1)
        + (if d != Reverse(dir) && CanMove(tiles, x, y, d) then [d] else [])
  }

  function Options(tiles: seq<seq<int>>, x: real, y: real, dir: Vec): seq<Vec>
    requires |tiles| > 0
  {
    OptionsUpTo(tiles, x, y, dir, |Dirs|)
  }

  /** The options are exactly the unit directions, other than the reverse of
      `dir`, that canMove allows. */
  lemma {:induction false} OptionsUpToExact(tiles: seq<seq<int>>, x: real, y: real, dir: Vec, n: nat)
    requires |tiles| > 0 && n <= |Dirs|
    ensures forall d :: d in OptionsUpTo(tiles, x, y, dir, n) <==>
              d in Dirs[..n] && d != Reverse(dir) && CanMove(tiles, x, y, d)
  {
    if n > 0 {
      OptionsUpToExact(tiles, x, y, dir, n - 1);
      assert Dirs[..n] == Dirs[..n - 1] + [Dirs[n - 1]];
    }
  }

  lemma OptionsExact(tiles: seq<seq<int>>, x: real, y: real, dir: Vec)
    requires |tiles| > 0
    ensures forall d :: d in Options(tiles, x, y, dir) <==>
              IsUnit(d) && d != Reverse(dir) && CanMove(tiles, x, y, d)
  {
    OptionsUpToExact(tiles, x, y, dir, |Dirs|);
    assert Dirs[..|Dirs|] == Dirs;
    DirsAreUnits();
  }

  /** Ghost.aiMove as a relation between the pose before and after: at a
      tile centre the new direction is one of the options, or the reverse
      of the old one when there is none; the ghost then advances by
      `dir * speed` and wraps through the tunnel. The buffered direction
      is not used. */
  ghost predicate GhostStep(tiles: seq<seq<int>>, p: Pose, q: Pose, speed: real)
    requires |tiles| > 0 && |tiles[0]| >= 1
  {
    && (IsCentered(p.x, p.y) && Options(tiles, p.x, p.y, p.dir) == [] ==> q.dir == Reverse(p.dir))
    && (IsCentered(p.x, p.y) && Options(tiles, p.x, p.y, p.dir) != [] ==> q.dir in Options(tiles, p.x, p.y, p.dir))
    && (!IsCentered(p.x, p.y) ==> q.dir == p.dir)
    && q.x == Wrap(Advance(p.x, q.dir.x, speed), |tiles[0]|)
    && q.y == Advance(p.y, q.dir.y, speed)
    && q.nextDir == p.nextDir
  }

  /** A ghost heading in a unit direction keeps heading in one, and turns
      back only at a dead end. */
  lemma GhostStepKeepsUnit(tiles: seq<seq<int>>, p: Pose, q: Pose, speed: real)
    requires |tiles| > 0 && |tiles[0]| >= 1
    requires IsUnit(p.dir) && GhostStep(tiles, p, q, speed)
    ensures IsUnit(q.dir)
    ensures q.dir == Reverse(p.dir) ==> IsCentered(p.x, p.y) && Options(tiles, p.x, p.y, p.dir) == []
  {
    var opts := Options(tiles, p.x, p.y, p.dir);
    if IsCentered(p.x, p.y) && opts != [] {
      OptionsExact(tiles, p.x, p.y, p.dir);
      assert q.dir in opts;
    }
  }

  /** GameEntity, with the two kinds of entity as named constructors. The
      radius, the mouth angle and the ghost colour only serve drawing. */
  class Entity {
    var x: real
    var y: real
    const speed: real
    var dir: Vec
    var nextDir: Vec

    /** new Pacman(x, y) */
    constructor Pacman(x0: int, y0: int)
      ensures State() == Pose(x0 as real, y0 as real, Stop, Stop) && speed == PacmanSpeed
    {
      x, y := x0 as real, y0 as real;
      speed := PacmanSpeed;
      dir, nextDir := Stop, Stop;
    }

    /** new Ghost(x, y, color): it starts heading right. */
    constructor Ghost(x0: int, y0: int)
      ensures State() == Pose(x0 as real, y0 as real, Vec(1, 0), Stop) && speed == GhostSpeed
    {
      x, y := x0 as real, y0 as real;
      speed := GhostSpeed;
      dir, nextDir := Vec(1, 0), Stop;
    }

    function State(): Pose
      reads this
    {
      Pose(x, y, dir, nextDir)
    }

    /** move(), which Pac-Man runs once per frame. */
    method Move(tiles: seq<seq<int>>)
      requires |tiles| > 0 && |tiles[0]| >= 1
      modifies this
      ensures State() == MoveStep(tiles, old(State()), speed)
    {
      var width := |tiles[0]| as real;
      if x < 0.0 {
        x := width - 1.0;
      }
      if x >= width {
        x := 0.0;
      }
      if IsCentered(x, y) {
        if nextDir.x != 0 || nextDir.y != 0 {
          if CanMove(tiles, x, y, nextDir) {
            dir := nextDir;
            nextDir := Stop;
          }
        }
        if !CanMove(tiles, x, y, dir) {
          return;
        }
      }
      x := Advance(x, dir.x, speed);
      y := Advance(y, dir.y, speed);
    }

    /** aiMove(target): the direction is chosen among the options at a tile
        centre. Which option the perturbed distance sort puts first is not
        modelled, so neither is the target. */
    method AiMove(tiles: seq<seq<int>>)
      requires |tiles| > 0 && |tiles[0]| >= 1
      modifies this
      ensures GhostStep(tiles, old(State()), State(), speed)
    {
      if IsCentered(x, y) {
        var opts: seq<Vec> := [];
        for i := 0 to |Dirs|
          invariant opts == OptionsUpTo(tiles, x, y, dir, i)
        {
          var d := Dirs[i];
          if d.x == -dir.x && d.y == -dir.y {
            continue;
          }
          if CanMove(tiles, x, y, d) {
            opts := opts + [d];
          }
        }
        if |opts| == 0 {
          dir := Vec(-dir.x, -dir.y);
        } else {
          assert opts[0] in opts;
          var choice :| choice in opts;
          dir := choice;
        }
      }
      x := Advance(x, dir.x, speed);
      y := Advance(y, dir.y, speed);
      var width := |tiles[0]| as real;
      if x < 0.0 {
        x := width - 1.0;
      }
      if x >= width {
        x := 0.0;
      }
    }
  }

  /** The positions (row, column) of the dots left on the board. */
  function Dots(tiles: seq<seq<int>>): set<(int, int)>
  {
    set r, c | 0 <= r < |tiles| && 0 <= c < |tiles[r]| && tiles[r][c] == DotTile :: (r, c)
  }

  /** `tiles.flat().includes(2)` */
  predicate HasDot(tiles: seq<seq<int>>)
  {
    exists r, c :: 0 <= r < |tiles| && 0 <= c < |tiles[r]| && tiles[r][c] == DotTile
  }

  /** Some dot remains exactly when the set of dots is not empty. */
  lemma HasDotIffDots(tiles: seq<seq<int>>)
    ensures HasDot(tiles) <==> |Dots(tiles)| > 0
  {
    if HasDot(tiles) {
      var r, c :| 0 <= r < |tiles| && 0 <= c < |tiles[r]| && tiles[r][c] == DotTile;
      assert (r, c) in Dots(tiles);
    }
    if |Dots(tiles)| > 0 {
      var p :| p in Dots(tiles);
      assert tiles[p.0][p.1] == DotTile;
    }
  }

  /** The tile at column `col` of row `row` holds a dot. */
  predicate HasDotAt(tiles: seq<seq<int>>, col: int, row: int)
  {
    0 <= row < |tiles| && 0 <= col < |tiles[row]| && tiles[row][col] == DotTile
  }

  /** `tiles[row][col] = 0` */
  function Eat(tiles: seq<seq<int>>, col: int, row: int): seq<seq<int>>
    requires HasDotAt(tiles, col, row)
  {
    tiles[row := tiles[row][col := EmptyTile]]
  }

  /** Eating keeps every wall and every other tile, and removes exactly the
      dot at (row, col) from the set of dots. */
  lemma EatRules(tiles: seq<seq<int>>, col: int, row: int)
    requires HasDotAt(tiles, col, row)
    ensures var t := Eat(tiles, col, row);
      && SameWalls(t, tiles)
      && t[row][col] == EmptyTile
      && (forall r, c :: 0 <= r < |tiles| && 0 <= c < |tiles[r]| && (r, c) != (row, col) ==> t[r][c] == tiles[r][c])
      && Dots(t) == Dots(tiles) - {(row, col)} && |Dots(t)| == |Dots(tiles)| - 1
  {
    var t := Eat(tiles, col, row);
    assert Dots(t) == Dots(tiles) - {(row, col)} by {
      forall p | p in Dots(tiles) - {(row, col)} ensures p in Dots(t) {
        assert t[p.0][p.1] == tiles[p.0][p.1];
      }
    }
    assert (row, col) in Dots(tiles);
  }

  /** The state checkCollisions writes. */
  datatype Outcome = Outcome(tiles: seq<seq<int>>, score: int, highScore: int, over: bool, won: bool)

  /** checkCollisions in a running game, with Pac-Man on the tile (col, row)
      and `caught` telling whether some ghost is within 0.8 tiles: a dot
      under Pac-Man is eaten for 10 points and the last dot wins; a ghost
      ends the game as a loss, after the dot check, so it overrides a win
      in the same frame. Every game over applies the high-score rule. */
  function Collisions(tiles: seq<seq<int>>, score: int, highScore: int, won: bool, col: int, row: int, caught: bool): Outcome
  {
    var ate := HasDotAt(tiles, col, row);
    var t := if ate then Eat(tiles, col, row) else tiles;
    var s := if ate then score + 10 else score;
    var win := ate && Dots(t) == {};
    Outcome(t, s,
            if win || caught then Arcade.Best(s, highScore) else highScore,
            win || caught,
            if caught then false else if win then true else won)
  }

  /** What checkCollisions guarantees: walls stay, only the tile under
      Pac-Man can change, and only from a dot to empty for 10 points, so
      score plus ten per remaining dot is conserved; the game ends exactly
      on a ghost touch or on eating the last dot, it is a win exactly when
      the last dot went and no ghost touched, and the high score follows
      the game-over rule. */
  lemma CollisionRules(tiles: seq<seq<int>>, score: int, highScore: int, won: bool, col: int, row: int, caught: bool)
    ensures var o := Collisions(tiles, score, highScore, won, col, row, caught);
      && SameWalls(o.tiles, tiles)
      && o.score + 10 * |Dots(o.tiles)| == score + 10 * |Dots(tiles)|
      && (HasDotAt(tiles, col, row) ==> o.score == score + 10 && o.tiles[row][col] == EmptyTile)
      && (!HasDotAt(tiles, col, row) ==> o.score == score && o.tiles == tiles)
      && (forall r, c :: 0 <= r < |tiles| && 0 <= c < |tiles[r]| && (r, c) != (row, col) ==> o.tiles[r][c] == tiles[r][c])
      && (o.over <==> caught || (HasDotAt(tiles, col, row) && !HasDot(o.tiles)))
      && (o.over && o.won <==> !caught && HasDotAt(tiles, col, row) && !HasDot(o.tiles))
      && (!o.over ==> o.won == won && o.highScore == highScore)
      && (o.over ==> o.highScore == Arcade.Best(o.score, highScore))
  {
    var o := Collisions(tiles, score, highScore, won, col, row, caught);
    HasDotIffDots(o.tiles);
    if HasDotAt(tiles, col, row) {
      EatRules(tiles, col, row);
    }
  }

  /** The board half of the game invariant: walls as on the starting board,
      every point from an eaten dot, dots left while the game runs and none
      left after a win. */
  ghost predicate BoardInvariant(tiles: seq<seq<int>>, start: seq<seq<int>>, startDots: int,
                                 score: int, over: bool, won: bool)
  {
    && SameWalls(tiles, start)
    && score >= 0
    && score + 10 * |Dots(tiles)| == 10 * startDots
    && (!over ==> HasDot(tiles))
    && (over && won ==> !HasDot(tiles))
  }

  /** A frame's collision check keeps the board invariant. */
  lemma CollisionsKeepBoard(tiles: seq<seq<int>>, start: seq<seq<int>>, startDots: int,
                            score: int, highScore: int, won: bool, col: int, row: int, caught: bool)
    requires BoardInvariant(tiles, start, startDots, score, false, won)
    ensures var o := Collisions(tiles, score, highScore, won, col, row, caught);
      BoardInvariant(o.tiles, start, startDots, o.score, o.over, o.won)
  {
    var o := Collisions(tiles, score, highScore, won, col, row, caught);
    CollisionRules(tiles, score, highScore, won, col, row, caught);
    SameWallsTrans(o.tiles, tiles, start);
  }

  /** The buffered direction after a key press: each arrow key requests its
      own direction, any other key leaves the request as it was. */
  function Requested(k: Arcade.Key, nextDir: Vec): (d: Vec)
    ensures Arcade.IsArrow(k) ==> IsUnit(d)
    ensures !Arcade.IsArrow(k) ==> d == nextDir
  {
    match k
    case ArrowUp => Vec(0, -1)
    case ArrowDown => Vec(0, 1)
    case ArrowLeft => Vec(-1, 0)
    case ArrowRight => Vec(1, 0)
    case _ => nextDir
  }

  /** Where Pac-Man and the three ghosts stand, and where they head, when a
      session starts. */
  const PacmanStart: Pose := Pose(9.0, 15.0, Stop, Stop)
  const GhostStarts: seq<Pose> :=
    [Pose(9.0, 8.0, Vec(1, 0), Stop), Pose(8.0, 9.0, Vec(1, 0), Stop), Pose(10.0, 9.0, Vec(1, 0), Stop)]

  /** The poses of a list of entities, in order. */
  ghost function Poses(gs: seq<Entity>): (ps: seq<Pose>)
    reads gs
    ensures |ps| == |gs|
    ensures forall i :: 0 <= i < |gs| ==> ps[i] == gs[i].State()
  {
    if gs == [] then [] else [gs[0].State()] + Poses(gs[1..])
  }

  /** The ghosts of a new session: three distinct new entities at their
      starting poses, moving at ghost speed. */
  method NewGhosts() returns (gs: seq<Entity>)
    ensures |gs| == 3 && fresh(gs[0]) && fresh(gs[1]) && fresh(gs[2])
    ensures forall i :: 0 <= i < |gs| ==> gs[i].speed == GhostSpeed
    ensures forall i, j :: 0 <= i < j < |gs| ==> gs[i] != gs[j]
    ensures Poses(gs) == GhostStarts
  {
    var blinky := new Entity.Ghost(9, 8);
    var pinky := new Entity.Ghost(8, 9);
    var inky := new Entity.Ghost(10, 9);
    gs := [blinky, pinky, inky];
  }

  /** Math.hypot(px - gx, py - gy) < 0.8, compared squared. */
  predicate Touches(px: real, py: real, gx: real, gy: real)
  {
    (px - gx) * (px - gx) + (py - gy) * (py - gy) < 0.64
  }

  /** The module-level state of the script: the tiles, the score, the high
      score, whether the game is over, the verdict the overlay shows after
      the last game over, and the entities. `pacman` is unset until the
      first initGame. */
  class Game {
    /** mapLayout: the board every session starts from. */
    const level: seq<seq<int>>
    var tiles: seq<seq<int>>
    var score: int
    var highScore: int
    var isGameOver: bool
    var won: bool
    var pacman: Entity?
    var ghosts: seq<Entity>

    /** The level is a non-empty board with at least one dot. */
    ghost predicate LevelOk()
    {
      |level| > 0 && |level[0]| >= 1 && HasDot(level)
    }

    /** The level is usable and the entities exist and are distinct. */
    ghost predicate Shape()
      reads this`pacman, this`ghosts
    {
      && LevelOk()
      && pacman != null && |ghosts| == 3 && pacman !in ghosts
      && (forall i, j :: 0 <= i < j < |ghosts| ==> ghosts[i] != ghosts[j])
    }

    /** Pac-Man moves 0.09 and every ghost 0.05 tiles per frame. */
    ghost predicate Speeds()
      reads this`pacman, this`ghosts
    {
      pacman != null && pacman.speed == PacmanSpeed
      && forall i :: 0 <= i < |ghosts| ==> ghosts[i].speed == GhostSpeed
    }

    /** The entities move at their own speeds, walls never change, every
        point comes from a dot, a running game has dots left and a won game
        has none. */
    ghost predicate Valid()
      reads this
    {
      Shape() && Speeds() && BoardInvariant(tiles, level, |Dots(level)|, score, isGameOver, won)
    }

    /** Some ghost touches Pac-Man. */
    predicate Caught()
      reads this`pacman, this`ghosts, pacman, ghosts
      requires pacman != null
    {
      exists i :: 0 <= i < |ghosts| && Touches(pacman.x, pacman.y, ghosts[i].x, ghosts[i].y)
    }

    /** The script's load: initGame runs once and the game waits for a key. */
    constructor (savedHigh: int)
      ensures Valid() && isGameOver && !won && highScore == savedHigh
      ensures level == Layout && tiles == level && score == 0
    {
      level := Layout;
      tiles := [];
      score := 0;
      highScore := savedHigh;
      isGameOver := true;
      won := false;
      pacman := null;
      ghosts := [];
      new;
      LayoutShape();
      InitGame();
    }

    /** A fresh copy of the layout, score 0, Pac-Man at (9, 15) and the
        three ghosts at (9, 8), (8, 9) and (10, 9). */
    method InitGame()
      requires LevelOk()
      modifies this`tiles, this`score, this`pacman, this`ghosts
      ensures tiles == level && score == 0
      ensures BoardInvariant(tiles, level, |Dots(level)|, score, false, won)
      ensures pacman != null && fresh(pacman) && pacman.State() == PacmanStart
      ensures |ghosts| == 3 && fresh(ghosts[0]) && fresh(ghosts[1]) && fresh(ghosts[2])
      ensures Poses(ghosts) == GhostStarts
      ensures Shape() && Speeds()
    {
      tiles := level;
      score := 0;
      pacman := new Entity.Pacman(9, 15);
      ghosts := NewGhosts();
    }

    /** gameOver(win) */
    method GameOver(win: bool)
      modifies this`isGameOver, this`highScore, this`won
      ensures isGameOver && won == win && highScore == Arcade.Best(score, old(highScore))
    {
      isGameOver := true;
      if score > highScore {
        highScore := score;
      }
      won := win;
    }

    /** The effect of one frame on a running game, from the board, score,
        high score, verdict and poses it started from: Pac-Man made his
        move, every ghost made its move, and the collisions were then
        resolved at Pac-Man's new tile. */
    ghost predicate Stepped(t0: seq<seq<int>>, score0: int, high0: int, won0: bool, p0: Pose, g0: seq<Pose>)
      reads this, pacman, ghosts
    {
      && pacman != null && |t0| > 0 && |t0[0]| >= 1 && |g0| == |ghosts|
      && pacman.State() == MoveStep(t0, p0, pacman.speed)
      && (forall i :: 0 <= i < |ghosts| ==> GhostStep(t0, g0[i], ghosts[i].State(), ghosts[i].speed))
      && Outcome(tiles, score, highScore, isGameOver, won)
         == Collisions(t0, score0, high0, won0, Round(pacman.x), Round(pacman.y), Caught())
    }

    /** update(): nothing once the game is over; otherwise Pac-Man moves,
        then each ghost in turn, then collisions are checked on the new
        positions. */
    method Update()
      requires Valid()
      modifies this, pacman, ghosts
      ensures Valid()
      ensures pacman == old(pacman) && ghosts == old(ghosts)
      ensures old(isGameOver) ==> unchanged(this) && unchanged(pacman) && unchanged(ghosts)
      ensures !old(isGameOver) ==>
        Stepped(old(tiles), old(score), old(highScore), old(won), old(pacman.State()), old(Poses(ghosts)))
    {
      if isGameOver {
        return;
      }
      pacman.Move(tiles);
      MoveGhosts();
      CheckCollisions();
    }

    /** The ghosts move one after the other on the current board. */
    method MoveGhosts()
      requires Shape() && |tiles| > 0 && |tiles[0]| >= 1
      modifies ghosts
      ensures forall i :: 0 <= i < |ghosts| ==>
                GhostStep(tiles, old(ghosts[i].State()), ghosts[i].State(), ghosts[i].speed)
    {
      for i := 0 to |ghosts|
        invariant forall j :: 0 <= j < i ==>
                    GhostStep(tiles, old(ghosts[j].State()), ghosts[j].State(), ghosts[j].speed)
        invariant forall j :: i <= j < |ghosts| ==> ghosts[j].State() == old(ghosts[j].State())
      {
        ghosts[i].AiMove(tiles);
      }
    }

    /** startGame(): initGame, mark the game running, and run the first
        frame from the layout and the starting poses. */
    method StartGame()
      requires Valid()
      modifies this, pacman, ghosts
      ensures Valid() && fresh(pacman)
      ensures Stepped(level, 0, old(highScore), old(won), PacmanStart, GhostStarts)
    {
      InitGame();
      isGameOver := false;
      assert Poses(ghosts) == GhostStarts;
      Update();
    }

    /** The keydown handler: any key starts a game that is over; while the
        game runs an arrow key sets Pac-Man's buffered direction. */
    method KeyDown(k: Arcade.Key)
      requires Valid()
      modifies this, pacman, ghosts
      ensures Valid()
      ensures old(isGameOver) ==> fresh(pacman) && Stepped(level, 0, old(highScore), old(won), PacmanStart, GhostStarts)
      ensures !old(isGameOver) ==>
        && unchanged(this) && unchanged(ghosts)
        && pacman.x == old(pacman.x) && pacman.y == old(pacman.y)
        && pacman.dir == old(pacman.dir) && pacman.nextDir == Requested(k, old(pacman.nextDir))
    {
      if isGameOver {
        StartGame();
        return;
      }
      match k {
        case ArrowUp => pacman.nextDir := Vec(0, -1);
        case ArrowDown => pacman.nextDir := Vec(0, 1);
        case ArrowLeft => pacman.nextDir := Vec(-1, 0);
        case ArrowRight => pacman.nextDir := Vec(1, 0);
        case _ =>
      }
    }

    /** A click on the overlay starts a game that is over. */
    method ClickOverlay()
      requires Valid()
      modifies this, pacman, ghosts
      ensures Valid()
      ensures old(isGameOver) ==> fresh(pacman) && Stepped(level, 0, old(highScore), old(won), PacmanStart, GhostStarts)
      ensures !old(isGameOver) ==> unchanged(this) && unchanged(pacman) && unchanged(ghosts)
    {
      if isGameOver {
        StartGame();
      }
    }

    /** checkCollisions(): the dot under Pac-Man, then every ghost in turn. */
    method CheckCollisions()
      requires pacman != null && !isGameOver
      requires BoardInvariant(tiles, level, |Dots(level)|, score, isGameOver, won)
      modifies this`tiles, this`score, this`isGameOver, this`won, this`highScore
      ensures BoardInvariant(tiles, level, |Dots(level)|, score, isGameOver, won)
      ensures Outcome(tiles, score, highScore, isGameOver, won)
              == Collisions(old(tiles), old(score), old(highScore), old(won),
                            Round(pacman.x), Round(pacman.y), Caught())
    {
      EatDot();
      GhostTouch();
      CaughtOverrides(old(tiles), old(score), old(highScore), old(won), Round(pacman.x), Round(pacman.y));
      CollisionsKeepBoard(old(tiles), level, |Dots(level)|, old(score), old(highScore), old(won),
                          Round(pacman.x), Round(pacman.y), Caught());
    }

    /** The first step of checkCollisions: a dot on the tile under Pac-Man
        is eaten for 10 points, and eating the last one wins. A row index
        outside the board reads no dot. */
    method EatDot()
      requires pacman != null && !isGameOver
      modifies this`tiles, this`score, this`isGameOver, this`won, this`highScore
      ensures Outcome(tiles, score, highScore, isGameOver, won)
              == Collisions(old(tiles), old(score), old(highScore), old(won), Round(pacman.x), Round(pacman.y), false)
    {
      var col := Round(pacman.x);
      var row := Round(pacman.y);
      if 0 <= row < |tiles| && 0 <= col < |tiles[row]| && tiles[row][col] == DotTile {
        tiles := tiles[row := tiles[row][col := EmptyTile]];
        score := score + 10;
        HasDotIffDots(tiles);
        if !HasDot(tiles) {
          GameOver(true);
        }
      }
    }

    /** The second step of checkCollisions: every ghost within 0.8 tiles of
        Pac-Man ends the game as a loss. */
    method GhostTouch()
      requires pacman != null
      modifies this`isGameOver, this`won, this`highScore
      ensures Caught() ==> isGameOver && !won && highScore == Arcade.Best(score, old(highScore))
      ensures !Caught() ==> isGameOver == old(isGameOver) && won == old(won) && highScore == old(highScore)
    {
      ghost var hit := false;
      for i := 0 to |ghosts|
        invariant hit <==> exists j :: 0 <= j < i && Touches(pacman.x, pacman.y, ghosts[j].x, ghosts[j].y)
        invariant hit ==> isGameOver && !won && highScore == Arcade.Best(score, old(highScore))
        invariant !hit ==> isGameOver == old(isGameOver) && won == old(won) && highScore == old(highScore)
      {
        var g := ghosts[i];
        if Touches(pacman.x, pacman.y, g.x, g.y) {
          GameOver(false);
          hit := true;
          assert Touches(pacman.x, pacman.y, ghosts[i].x, ghosts[i].y);
        } else {
          assert !Touches(pacman.x, pacman.y, ghosts[i].x, ghosts[i].y);
        }
      }
      assert hit == Caught();
    }
  }

  /** A ghost touch after the dot check ends the game as a loss whatever the
      dot check did, and the high-score rule applied twice is applied once. */
  lemma CaughtOverrides(tiles: seq<seq<int>>, score: int, highScore: int, won: bool, col: int, row: int)
    ensures var o := Collisions(tiles, score, highScore, won, col, row, false);
      Collisions(tiles, score, highScore, won, col, row, true)
      == o.(over := true, won := false, highScore := Arcade.Best(o.score, o.highScore))
  {
  }

  /** The layout is 19 rows of 19 tiles, so the width canMove reads from
      the first row is every row's width, and it holds dots. */
  lemma LayoutShape()
    ensures |Layout| == 19 && forall i :: 0 <= i < |Layout| ==> |Layout[i]| == 19
    ensures HasDot(Layout)
  {
    assert Layout[1][1] == DotTile;
  }
}
