/**
 * Rules shared by the arcade mini-games: the high-score update applied at
 * game over, and the obstacle sweep that both runner games perform once per
 * frame (advance every obstacle, test it against the player, drop and score
 * the ones that left the canvas).
 *
 * JavaScript numbers are modelled as exact `real`s; the runner constants are
 * all decimal literals, so no rounding is involved in the model.
 */
module Arcade {

  /** The high score after a session that ends with `score`: it is replaced
      only by a strictly larger score. */
  function Best(score: int, highScore: int): int
  {
    if score > highScore then score else highScore
  }

  /** The high score never decreases, is at least the final score, and
      changes exactly when the score beats it. */
  lemma BestIsMax(score: int, highScore: int)
    ensures Best(score, highScore) >= highScore && Best(score, highScore) >= score
    ensures Best(score, highScore) == highScore || Best(score, highScore) == score
    ensures Best(score, highScore) != highScore <==> score > highScore
  {
  }

  /** The keys the games react to; every other key is `Other`. */
  datatype Key = ArrowUp | ArrowDown | ArrowLeft | ArrowRight | Space | Other

  predicate IsArrow(k: Key)
  {
    k.ArrowUp? || k.ArrowDown? || k.ArrowLeft? || k.ArrowRight?
  }

  /** Rounding down never reverses the order of two reals. */
  lemma FloorMonotone(a: real, b: real)
    requires a <= b
    ensures a.Floor <= b.Floor
  {
  }

  /** Vertical state of a runner after one frame's integration. */
  datatype Motion = Motion(y: real, dy: real, grounded: bool)

  /** One frame of gravity with the ground clamp, for a runner whose top
      edge is at `rest` when it stands on the ground: it never ends below
      the ground, and it is grounded exactly when the clamp fired. */
  function Fall(y: real, dy: real, gravity: real, rest: real): (m: Motion)
    ensures m.y <= rest
    ensures m.grounded <==> y + (dy + gravity) > rest
    ensures m.grounded ==> m.dy == 0.0 && m.y == rest
    ensures !m.grounded ==> m.dy == dy + gravity && m.y == y + m.dy
  {
    var dy' := dy + gravity;
    var y' := y + dy';
    if y' > rest then Motion(rest, 0.0, true) else Motion(y', dy', false)
  }

  /** An axis-aligned rectangle in canvas pixels (y grows downwards). */
  datatype Rect = Rect(x: real, y: real, w: real, h: real)

  /** A runner obstacle. `passed` is false at spawn and never read or written again. */
  datatype Obstacle = Obstacle(x: real, y: real, w: real, h: real, passed: bool)

  /** The overlap test of the runner games, player first. */
  predicate Overlaps(p: Rect, o: Obstacle)
  {
    p.x < o.x + o.w && p.x + p.w > o.x && p.y < o.y + o.h && p.y + p.h > o.y
  }

  /** The obstacle after one frame at `speed` pixels per frame. */
  function Moved(o: Obstacle, speed: real): Obstacle
  {
    o.(x := o.x - speed)
  }

  /** An obstacle whose right edge has crossed the left border of the canvas. */
  predicate Gone(o: Obstacle)
  {
    o.x + o.w < 0.0
  }

  /** The state the obstacle loop of a runner frame works on: the obstacle
      list as spliced so far, the score, whether the session is still
      running, and the high score. */
  datatype Sweep = Sweep(kept: seq<Obstacle>, score: int, running: bool, highScore: int)

  /** One iteration of the obstacle loop on the obstacle `o`, already moved:
      a collision with the player ends the session (gameOver: not running,
      high score raised to the score reached so far); an obstacle that left
      the canvas is dropped and scores one point, any other one is kept. */
  function Visit(w: Sweep, o: Obstacle, p: Rect): Sweep
  {
    var hit := Overlaps(p, o);
    Sweep(if Gone(o) then w.kept else w.kept + [o],
          if Gone(o) then w.score + 1 else w.score,
          w.running && !hit,
          if hit then Best(w.score, w.highScore) else w.highScore)
  }

  /** The state after the loop has visited the first `n` obstacles of `s`,
      each moved left by `speed`, starting from a running session with
      `score0` and `high0` and an empty list of kept obstacles. */
  function Swept(p: Rect, s: seq<Obstacle>, n: nat, speed: real, score0: int, high0: int): Sweep
    requires n <= |s|
  {
    if n == 0 then Sweep([], score0, true, high0)
    else Visit(Swept(p, s, n - 1, speed, score0, high0), Moved(s[n - 1], speed), p)
  }

  /** The obstacle loop of a runner frame, on the values it reads and writes.
      Every obstacle moves left by `speed`; a collision with the player ends
      the session and the loop goes on; an obstacle that left the canvas is
      spliced out of the list and scores one point, and the index steps back
      so that the next obstacle is not skipped. */
  method SweepObstacles(pending: seq<Obstacle>, speed: real, player: Rect, score0: int, high0: int)
    returns (list: seq<Obstacle>, score: int, running: bool, highScore: int)
    ensures Sweep(list, score, running, highScore) == Swept(player, pending, |pending|, speed, score0, high0)
  {
    list := pending;
    score, running, highScore := score0, true, high0;
    ghost var k := 0;
    var i := 0;
    while i < |list|
      invariant 0 <= i <= |list| && 0 <= k <= |pending|
      invariant |list| - i == |pending| - k
      invariant Sweep(list[..i], score, running, highScore) == Swept(player, pending, k, speed, score0, high0)
      invariant list[i..] == pending[k..]
      decreases |pending| - k
    {
      ghost var before := Sweep(list[..i], score, running, highScore);
      ghost var prev := list;
      assert prev[i + 1..] == pending[k + 1..] by {
        assert prev[i + 1..] == prev[i..][1..];
        assert pending[k + 1..] == pending[k..][1..];
      }
      var obs := list[i];
      assert obs == pending[k] by { assert list[i..][0] == pending[k..][0]; }
      obs := obs.(x := obs.x - speed);
      list := list[i := obs];
      if Overlaps(player, obs) {
        running := false;
        highScore := Best(score, highScore);
      }
      if Gone(obs) {
        list := list[..i] + list[i + 1..];
        score := score + 1;
        assert list[..i] == prev[..i];
        assert list[i..] == prev[i + 1..];
      } else {
        assert list[..i + 1] == prev[..i] + [obs];
        assert list[i + 1..] == prev[i + 1..];
        i := i + 1;
      }
      assert Sweep(list[..i], score, running, highScore) == Visit(before, obs, player);
      k := k + 1;
    }
    assert list[..i] == list;
  }

  /** Every obstacle the loop visits is either kept or scored. */
  lemma {:induction false} SweptCount(p: Rect, s: seq<Obstacle>, n: nat, speed: real, score0: int, high0: int)
    requires n <= |s|
    ensures var w := Swept(p, s, n, speed, score0, high0);
      w.score >= score0 && |w.kept| + (w.score - score0) == n
  {
    if n > 0 {
      SweptCount(p, s, n - 1, speed, score0, high0);
    }
  }

  /** Exactly the obstacles still on the canvas after moving are kept: every
      kept obstacle is some moved obstacle that has not left the canvas, and
      every such moved obstacle is kept. */
  lemma {:induction false} SweptExact(p: Rect, s: seq<Obstacle>, n: nat, speed: real, score0: int, high0: int)
    requires n <= |s|
    ensures forall o :: o in Swept(p, s, n, speed, score0, high0).kept ==>
              !Gone(o) && exists j :: 0 <= j < n && o == Moved(s[j], speed)
    ensures forall j :: 0 <= j < n && !Gone(Moved(s[j], speed)) ==>
              Moved(s[j], speed) in Swept(p, s, n, speed, score0, high0).kept
  {
    if n > 0 {
      SweptExact(p, s, n - 1, speed, score0, high0);
    }
  }

  /** The session survives the loop exactly when no moved obstacle overlaps the player. */
  lemma {:induction false} SweptHit(p: Rect, s: seq<Obstacle>, n: nat, speed: real, score0: int, high0: int)
    requires n <= |s|
    ensures !Swept(p, s, n, speed, score0, high0).running <==>
            exists j :: 0 <= j < n && Overlaps(p, Moved(s[j], speed))
  {
    if n > 0 {
      SweptHit(p, s, n - 1, speed, score0, high0);
    }
  }

  /** The loop never lowers the high score, leaves it alone when nothing is
      hit, and never raises it above the best of the old high score and the
      score at the end of the loop. */
  lemma {:induction false} SweptHigh(p: Rect, s: seq<Obstacle>, n: nat, speed: real, score0: int, high0: int)
    requires n <= |s|
    ensures var w := Swept(p, s, n, speed, score0, high0);
      && w.highScore >= high0
      && (w.running ==> w.highScore == high0)
      && w.highScore <= Best(w.score, high0)
  {
    if n > 0 {
      SweptHigh(p, s, n - 1, speed, score0, high0);
    }
  }

  /** The score never falls as the loop goes on. */
  lemma {:induction false} SweptScoreGrows(p: Rect, s: seq<Obstacle>, j: nat, n: nat, speed: real, score0: int, high0: int)
    requires j <= n <= |s|
    ensures Swept(p, s, j, speed, score0, high0).score <= Swept(p, s, n, speed, score0, high0).score
  {
    if j < n {
      SweptScoreGrows(p, s, j, n - 1, speed, score0, high0);
    }
  }

  /** A session the loop ended has its high score set from the score reached
      just before the last obstacle that hit the player: gameOver runs at
      every hit, with the score of that moment, and no later obstacle hit. */
  lemma {:induction false} SweptHitHigh(p: Rect, s: seq<Obstacle>, n: nat, speed: real, score0: int, high0: int)
    requires n <= |s|
    ensures var w := Swept(p, s, n, speed, score0, high0);
      !w.running ==>
        exists j :: 0 <= j < n && Overlaps(p, Moved(s[j], speed))
          && (forall k :: j < k < n ==> !Overlaps(p, Moved(s[k], speed)))
          && w.highScore == Best(Swept(p, s, j, speed, score0, high0).score, high0)
  {
    if n > 0 {
      if Overlaps(p, Moved(s[n - 1], speed)) {
        SweptHigh(p, s, n - 1, speed, score0, high0);
      } else {
        SweptHitHigh(p, s, n - 1, speed, score0, high0);
      }
    }
  }

  /** The obstacles of `s`, in order, moved left by `speed`, without those
      that have left the canvas: an independent, front-to-back description
      of the list the loop keeps. */
  function Survivors(s: seq<Obstacle>, speed: real): (r: seq<Obstacle>)
    ensures |r| <= |s|
    ensures forall o :: o in r ==> !Gone(o)
  {
    if s == [] then []
    else (if Gone(Moved(s[0], speed)) then [] else [Moved(s[0], speed)]) + Survivors(s[1..], speed)
  }

  lemma {:induction false} SurvivorsAppend(a: seq<Obstacle>, o: Obstacle, speed: real)
    ensures Survivors(a + [o], speed)
            == Survivors(a, speed) + (if Gone(Moved(o, speed)) then [] else [Moved(o, speed)])
  {
    if a != [] {
      assert (a + [o])[1..] == a[1..] + [o];
      SurvivorsAppend(a[1..], o, speed);
    }
  }

  /** The loop keeps exactly the surviving obstacles in their original
      order, whatever the player, the score and the high score. */
  lemma {:induction false} SweptKeepsOrder(p: Rect, s: seq<Obstacle>, n: nat, speed: real, score0: int, high0: int)
    requires n <= |s|
    ensures Swept(p, s, n, speed, score0, high0).kept == Survivors(s[..n], speed)
  {
    if n > 0 {
      SweptKeepsOrder(p, s, n - 1, speed, score0, high0);
      assert s[..n] == s[..n - 1] + [s[n - 1]];
      SurvivorsAppend(s[..n - 1], s[n - 1], speed);
    }
  }
}
