# Arcade portfolio: the game rules in Dafny

A personal portfolio site ships three canvas mini-games and a page script.
This project models their simulation rules and proves properties about them:

- **Snake** (`games/snake/snake.js`). A snake on a 20 x 20 grid moves one cell per due tick. It dies on a wall or on its own body. It grows by one when it eats the food and speeds up every five points. Food is re-placed by rejection sampling.
- **Maze chase** (`games/pacman/pacman.js`). Pac-Man and three ghosts move at fractional tile coordinates on a board of walls, dots and empty tiles. Pac-Man follows buffered arrow keys, and the ghosts choose a direction at every tile centre. Eating the last dot wins and a ghost touch loses.
- **Runner** (`games/dino/dino.js`). A box falls under gravity and may jump only from the ground. It must avoid obstacles that scroll in from the right. The scroll speed grows with the score, and every obstacle that leaves the canvas scores a point.
- **Page runner** (`initDinoGame` in `script.js`). A second runner with its own constants: a 550-pixel canvas, the ground at 350, a speed capped at 10, and no high score.
- **Page state rules** (`script.js`). The certificate carousel's cyclic slide index, and the light/dark theme toggle.

Each game's module-level variables become the fields of a Dafny class. One animation frame or one input event becomes one method call. The per-frame step methods are proved against specification functions or predicates: `Arcade.Swept` for the runners' obstacle loop, `Arcade.Fall` for their gravity, `Pacman.MoveStep`, `Pacman.GhostStep` and `Pacman.Collisions` for the maze chase, `Snake.TickOutcome` for the snake, and `Page.Next` for the carousel. Input handlers, resets and game-over methods state their new state in terms of the start constants and the rule functions `Arcade.Best`, `Snake.Steer`, `Pacman.Requested`, `Page.NextTheme` and `Page.IconFor`. The lemmas beside those functions state what the games promise. JavaScript numbers are exact `real`s, and `Math.round(x)` is `floor(x + 0.5)`. `Math.hypot(...) < 0.8` is compared as a squared distance below 0.64. Every `Math.random()` draw is a parameter of the method that consumes it.

Files:

- `arcade.dfy`: the high-score rule, the keys, gravity with a ground clamp, and the obstacle loop shared by both runners.
- `snake.dfy`, `pacman.dfy`, `dino.dfy`: the three games.
- `page_runner.dfy`: the page runner.
- `page.dfy`: the carousel and the theme toggle.

## Model

| member | source | states |
|---|---|---|
| Arcade.Best | games/snake/snake.js:155-159 | The game-over high-score rule: the final score when it is strictly larger than the high score, the high score otherwise. Its properties are stated by `BestIsMax`. |
| Arcade.BestIsMax | games/snake/snake.js:155-159 | At game over the high score never decreases and is at least the final score. It changes exactly when the score beats it. |
| Arcade.Fall | games/dino/dino.js:89-99 | After a frame of gravity the runner's top edge is never below its resting height. It is grounded exactly when the clamp fired, and then its speed is 0. Otherwise its speed grew by gravity and its position moved by that speed. |
| Arcade.FloorMonotone | script.js:180 | Rounding down keeps the order of two reals, which both spawn-interval formulas rely on. |
| Arcade.SweepObstacles | games/dino/dino.js:109-128 | The in-place obstacle loop (advance, overlap test, splice with `i--`) yields exactly the spec `Swept`: the kept list, the score, the running flag and the high score. |
| Arcade.Visit | games/dino/dino.js:110-127 | One pass of the loop body on an obstacle that has already moved. An overlap with the player ends the session, raising the high score to the score at that moment. An obstacle past the left edge is dropped for one point; any other obstacle is kept. |
| Arcade.Swept | games/dino/dino.js:109-128 | The whole loop, front to back: `Visit` applied to each moved obstacle in turn, from a running session with an empty kept list. The partner lemmas below state what it keeps, scores and ends. |
| Arcade.SweptCount | games/dino/dino.js:122-127 | Every visited obstacle is either kept or adds exactly one point. |
| Arcade.SweptExact | games/dino/dino.js:109-128 | Every kept obstacle is a moved obstacle still on the canvas. Every moved obstacle still on the canvas is kept. |
| Arcade.SweptHit | games/dino/dino.js:113-120 | The session survives the loop exactly when no moved obstacle overlaps the player. |
| Arcade.SweptHigh | games/dino/dino.js:119 | The high score never decreases during the loop and stays put when nothing is hit. It never exceeds the best of the old high score and the final score. |
| Arcade.SweptScoreGrows | games/dino/dino.js:122-127 | The score never falls as the loop visits more obstacles. |
| Arcade.SweptHitHigh | games/dino/dino.js:113-120 | When the loop ends the session, some obstacle hit the player and no later one did, and the high score is the best of the old high score and the score reached just before that last hit, because gameOver runs at every hit with the score of that moment. |
| Arcade.Survivors | games/dino/dino.js:122-127 | The front-to-back list of moved obstacles that have not left the canvas is no longer than the input and holds no gone obstacle. |
| Arcade.SweptKeepsOrder | games/dino/dino.js:109-128 | The loop keeps exactly `Survivors` of the list, in the original order. |
| Snake.DrawCell | games/snake/snake.js:50-53 | A pair of draws in [0, 1) always names a cell inside the grid. |
| Snake.FirstFree | games/snake/snake.js:45-69 | The draw the rejection loop stops at is the first one off the body. |
| Snake.Steer | games/snake/snake.js:178-190 | The direction guard: an arrow key sets its direction only when the current velocity is zero on that key's axis. Any other key leaves the velocity as it is. |
| Snake.SteerNeverReverses | games/snake/snake.js:178-190 | A key never turns a moving snake straight back. The velocity stays or turns onto the other axis, and it stays a unit direction. |
| Snake.TwoKeysReverse | games/snake/snake.js:178-190 | Because the guard reads the live velocity, Left then Down between two moves reverses a snake heading up. |
| Snake.Due | games/snake/snake.js:77-78 | The throttle test: the seconds since the last tick are at least 1/snakeSpeed. |
| Snake.DueInMillis | games/snake/snake.js:76-78 | A tick is due exactly when 1000/snakeSpeed milliseconds have passed since the last one. |
| Snake.Fatal | games/snake/snake.js:86-90 | A move is fatal when the new head is off the 20 x 20 grid or on a segment of the body before the move. |
| Snake.ChasingTailIsFatal | games/snake/snake.js:86-93 | For every duplicate-free body of two or more cells, moving onto the tail cell is fatal, although that cell is not in the body the shift would leave. The collision test reads the body before the move. |
| Snake.PrependKeepsShape | games/snake/snake.js:95-108 | Prepending a free in-grid head keeps the body duplicate-free and inside the grid, whether the tail is popped or not. |
| Snake.ShiftKeepsFoodOff | games/snake/snake.js:106-108 | After a shift that did not reach the food, the food is still off the body. |
| Snake.TickOutcome | games/snake/snake.js:83-108 | The relation between the state before and after a due tick. A fatal move stops the session with the high-score rule and keeps body, score, food and speed. Eating prepends the head, scores one, adds one to the speed exactly when the new score is a multiple of 5, and places the food at the first free draw. Otherwise the head is prepended and the tail dropped. |
| Snake.SnakeGame.constructor | games/snake/snake.js:16-43 | At load the game is stopped with the saved high score. The start body is [(10,10),(10,11),(10,12)], heading up, with score 0, speed 10 and food off the body. |
| Snake.SnakeGame.ResetGame | games/snake/snake.js:32-43 | Sets exactly that start body, velocity (0,-1), score 0 and speed 10. Food is the first draw off the body. |
| Snake.SnakeGame.PlaceFood | games/snake/snake.js:45-69 | The food is in the grid and off the body. It is the first draw that lands off the body. |
| Snake.SnakeGame.CheckSelfCollision | games/snake/snake.js:113-120 | True exactly when the head is on some segment. |
| Snake.SnakeGame.Update | games/snake/snake.js:71-80 | Nothing changes unless the game runs and a tick is due. A due tick records the time and makes the move of `Tick`. The invariant (in-grid distinct body of length score + 3, speed 10 + score/5, food off the body) is kept. |
| Snake.SnakeGame.Tick | games/snake/snake.js:82-108 | A move is fatal exactly when the head is off the grid or on the old body; then it ends the session with the high-score rule and changes nothing else. Eating prepends the head, scores 1, speeds up exactly when the score is a multiple of 5, and re-places the food. Otherwise it shifts: head prepended, tail dropped. |
| Snake.SnakeGame.GameOver | games/snake/snake.js:151-159 | Stops the session. The high score becomes the better of the two. |
| Snake.SnakeGame.StartGame | games/snake/snake.js:142-149 | Ignored while running. Otherwise it resets the snake, places the food at the first free draw and runs. The high score and the last render time are kept. |
| Snake.SnakeGame.KeyDown | games/snake/snake.js:167-195 | An arrow or Space starts a stopped game: the start body, score 0, speed 10, food at the first free draw, high score and render time kept, and the arrow steered from the start velocity. Otherwise only the velocity changes, by the direction guard. Body, score, food, speed, high score, render time and the running flag stay. |
| Dino.GameSpeed | games/dino/dino.js:87 | The uncapped speed is at least 5 for any score reached. |
| Dino.GameSpeedGrows | games/dino/dino.js:87 | The speed has no cap: between any two scores it differs by exactly 0.05 per point. |
| Dino.GameSpeedMonotone | games/dino/dino.js:87 | The speed never decreases as the score grows. |
| Dino.SpawnRate | games/dino/dino.js:102-103 | The spawn interval is max(40, floor(100 - 1.5 x speed)): 40 when that floor is below 40, and exactly that floor otherwise. |
| Dino.SpawnRateAntitone | games/dino/dino.js:102-103 | A faster game never spawns less often. |
| Dino.Spawn | games/dino/dino.js:42-51 | A spawned obstacle is at x = 450, 20 wide, 20 to 50 high and standing on the ground. |
| Dino.WithSpawn | games/dino/dino.js:105-107 | One obstacle is appended exactly when the frame is a multiple of the spawn interval. The old list is untouched. |
| Dino.SweepKeepsShape | games/dino/dino.js:109-128 | The obstacle loop only moves obstacles: each keeps its width, height and ground contact. |
| Dino.Runner.constructor | games/dino/dino.js:12-40 | At load the game is stopped, with score 0, speed 5, no obstacles, the runner on the ground line and the saved high score. |
| Dino.Runner.Update | games/dino/dino.js:81-131 | A stopped game is unchanged. A frame counts up, sets the speed from the score, integrates the runner with `Fall`, spawns with `WithSpawn`, and runs the obstacle loop exactly as `Swept` against the runner's new box. The invariant is kept: runner at or above the ground, well-formed obstacles. |
| Dino.Runner.Jump | games/dino/dino.js:133-138 | From the ground it sets dy to -9 and leaves the ground. In the air it changes nothing. |
| Dino.Runner.StartGame | games/dino/dino.js:140-154 | Ignored while running. Otherwise it resets the session and runs the first frame: frame 1, speed 5, runner standing on the ground, high score kept. |
| Dino.Runner.Press | games/dino/dino.js:171-183 | Space or a touch on a stopped game has the full effect of `StartGame`. On a running game it is `Jump`: from the ground dy becomes -9; in the air dy and grounded stay. Either way y, frame, speed, score, obstacles and high score stay. |
| Dino.Runner.GameOver | games/dino/dino.js:156-164 | Stops the session. The high score becomes the better of the two. |
| Dino.JumpLiftsOff | games/dino/dino.js:89-99 | A jump always lifts the runner off the ground on the next frame. |
| Dino.StandingStays | games/dino/dino.js:89-99 | A runner standing on the ground stays there until it jumps. |
| Pacman.DirsAreUnits | games/pacman/pacman.js:176 | The ghosts' candidate list holds each axis direction exactly once. |
| Pacman.Round | games/pacman/pacman.js:60-65 | The tile coordinate is the nearest integer, halves rounded up. |
| Pacman.IsCentered | games/pacman/pacman.js:68-71 | Both coordinates lie strictly within 0.05 of their rounded values. |
| Pacman.CenteredNearTile | games/pacman/pacman.js:68-71 | An entity within 0.05 of some tile on both axes is centered, and it rounds to that tile. Conversely a centered entity is within 0.05 of its rounded tile, by definition. |
| Pacman.CanMove | games/pacman/pacman.js:73-79 | A move is allowed exactly when the tile reached lies inside the rows and the first row's width and is not a wall (a short row's missing tile counts as open). |
| Pacman.SameWallsSameMoves | games/pacman/pacman.js:73-79 | Boards with the same walls allow the same moves, so eating dots never changes where an entity can go. |
| Pacman.Wrap | games/pacman/pacman.js:83-84 | The tunnel rule brings x into [0, width): left of the board it re-enters at column width - 1, at or right of the width it re-enters at 0, and an on-board x is left alone. |
| Pacman.MoveStep | games/pacman/pacman.js:81-103 | At a centre, a legal non-empty buffered turn is taken and the buffer cleared; an illegal one stays buffered. A centered entity facing a wall stands still. Otherwise it advances by exactly dir x speed. |
| Pacman.MoveRespectsWalls | games/pacman/pacman.js:95-102 | A centered entity only moves in a direction canMove allows. |
| Pacman.OptionsUpTo | games/pacman/pacman.js:176-185 | The options gathered after trying the first n of up, down, left, right, in that order. A direction is skipped when it is the exact reverse of the heading or canMove refuses it. |
| Pacman.Options | games/pacman/pacman.js:173-185 | The full option list, after all four candidate directions. |
| Pacman.OptionsExact | games/pacman/pacman.js:173-185 | The ghost's options are exactly the unit directions, other than the reverse of its heading, that canMove allows. |
| Pacman.GhostStep | games/pacman/pacman.js:170-209 | aiMove as a relation between poses. At a centre the new heading is one of the options, or the reverse when there is none. Off centre the heading stays. The ghost advances by heading x speed, then wraps through the tunnel, and its buffered direction stays. |
| Pacman.GhostStepKeepsUnit | games/pacman/pacman.js:172-200 | A ghost keeps heading in a unit direction. It turns straight back only when centered at a dead end. |
| Pacman.Entity.Pacman | games/pacman/pacman.js:106-110 | Pac-Man starts on its tile, with no direction, at 0.09 tiles per frame. |
| Pacman.Entity.Ghost | games/pacman/pacman.js:139-141 | A ghost starts on its tile at 0.05 tiles per frame, heading right. |
| Pacman.Entity.Move | games/pacman/pacman.js:81-103 | The in-place `move` yields exactly `MoveStep` of the old pose. |
| Pacman.Entity.AiMove | games/pacman/pacman.js:170-209 | The option-building loop and the choice satisfy `GhostStep`: at a centre the new heading is one of the options, or the reverse when there is none. The ghost then advances and wraps. |
| Pacman.HasDotIffDots | games/pacman/pacman.js:268 | `tiles.flat().includes(2)` holds exactly when the set of dot positions is non-empty. |
| Pacman.Eat | games/pacman/pacman.js:263 | The board with the dot under Pac-Man set to empty. |
| Pacman.EatRules | games/pacman/pacman.js:262-264 | Eating empties only the tile under Pac-Man and keeps every wall. It removes exactly that dot from the set of dots. |
| Pacman.Collisions | games/pacman/pacman.js:257-281 | checkCollisions on values. A dot under Pac-Man is eaten for 10 points, and eating the last one wins. A touching ghost then ends the game as a loss. Each game over applies the high-score rule. |
| Pacman.CollisionRules | games/pacman/pacman.js:257-281 | Walls stay, and only the tile under Pac-Man changes, from a dot to empty for 10 points. So the score plus ten per remaining dot is conserved. The game ends exactly on a ghost touch or on eating the last dot. It is a win exactly when the last dot went and no ghost touched. Every game over applies the high-score rule. |
| Pacman.CollisionsKeepBoard | games/pacman/pacman.js:257-281 | A frame's collision check keeps the board invariant: same walls, every point from a dot, dots left while running, none after a win. |
| Pacman.CaughtOverrides | games/pacman/pacman.js:274-280 | The ghost check runs after the dot check, so a touch turns a simultaneous win into a loss. The high-score rule applied twice equals applying it once. |
| Pacman.Requested | games/pacman/pacman.js:338-343 | An arrow key buffers its unit direction. Any other key leaves the buffer as it was. |
| Pacman.NewGhosts | games/pacman/pacman.js:225-229 | Three distinct new ghosts at (9,8), (8,9) and (10,9), all at ghost speed. |
| Pacman.LayoutShape | games/pacman/pacman.js:15-35 | The layout is 19 rows, every one 19 tiles wide, so canMove's first-row width bounds every row. It holds dots. |
| Pacman.Game.constructor | games/pacman/pacman.js:37-46 | At load the game is over and waits for a key. The board is a fresh copy of the layout, the score is 0 and the saved high score is kept. |
| Pacman.Game.InitGame | games/pacman/pacman.js:217-230 | The board is the layout, the score 0, Pac-Man new at (9,15), and three new ghosts at their starts. |
| Pacman.Touches | games/pacman/pacman.js:276-277 | A ghost touches Pac-Man when their distance is below 0.8 tiles, compared as squared distance below 0.64. |
| Pacman.Game.GameOver | games/pacman/pacman.js:303-311 | The game is over with the given verdict. The high score becomes the better of the two. |
| Pacman.Game.Update | games/pacman/pacman.js:283-301 | Nothing happens once the game is over. Otherwise Pac-Man makes `MoveStep` (at 0.09 tiles per frame, which the invariant fixes, as it fixes 0.05 for the ghosts), every ghost makes `GhostStep` on the same board, and the outcome is `Collisions` at Pac-Man's new tile. The board invariant is kept. |
| Pacman.Game.MoveGhosts | games/pacman/pacman.js:293-296 | Every ghost, one after the other, makes its `GhostStep`. |
| Pacman.Game.StartGame | games/pacman/pacman.js:318-323 | A new session from the layout and the starting poses runs its first frame. |
| Pacman.Game.KeyDown | games/pacman/pacman.js:327-344 | Any key starts a game that is over. While running, only Pac-Man's buffered direction changes, to `Requested`. The game state, Pac-Man's position and heading, and every ghost stay. |
| Pacman.Game.ClickOverlay | games/pacman/pacman.js:346-348 | A click starts a game that is over. Otherwise the game, Pac-Man and every ghost stay unchanged. |
| Pacman.Game.CheckCollisions | games/pacman/pacman.js:257-281 | The dot step then the ghost loop yield exactly `Collisions`, and keep the board invariant. |
| Pacman.Game.EatDot | games/pacman/pacman.js:258-272 | The dot step alone is `Collisions` with no ghost touching. |
| Pacman.Game.GhostTouch | games/pacman/pacman.js:274-280 | If some ghost is within 0.8 tiles, the game is lost with the high-score rule. Otherwise nothing changes. |
| PageRunner.GameSpeed | script.js:163 | The speed never exceeds 10 and is at least 5 for any score reached. |
| PageRunner.GameSpeedCap | script.js:163 | The speed grows by 0.01 per point below 500 points and is exactly 10 from 500 on. |
| PageRunner.GameSpeedMonotone | script.js:163 | The speed never decreases as the score grows. |
| PageRunner.SpawnRate | script.js:180 | Between speeds 5 and 10 the interval is 80 to 90 frames, so the modulus is never zero. |
| PageRunner.SpawnRateAntitone | script.js:180 | A faster game never spawns less often. |
| PageRunner.Spawn | script.js:116-125 | A spawned obstacle is at x = 550, 20 wide, 25 to 50 high and standing on the ground at 350. |
| PageRunner.WithSpawn | script.js:180-183 | One obstacle is appended exactly when the frame is a multiple of the spawn interval. The old list is untouched. |
| PageRunner.SweepKeepsShape | script.js:186-207 | The obstacle loop only moves obstacles: each keeps its width, height and ground contact. |
| PageRunner.Runner.constructor | script.js:83-104 | Set-up state: stopped, score 0, speed 5, frame 0, no obstacles, the runner on the ground line. |
| PageRunner.Runner.Update | script.js:154-209 | A stopped game is unchanged. A frame counts up, sets the capped speed, integrates with `Fall`, spawns with `WithSpawn`, and runs the obstacle loop exactly as `Swept`. The invariant is kept. |
| PageRunner.Runner.Jump | script.js:211-216 | From the ground it sets dy to -9 and leaves the ground. In the air it changes nothing. |
| PageRunner.Runner.StartGame | script.js:218-229 | Ignored while running. Otherwise it resets score, speed, obstacles, y and frame, but not dy or grounded, and runs the first frame from the kept dy. |
| PageRunner.Runner.Press | script.js:257-261 | A touch on a stopped game has the full effect of `StartGame`. On a running game it is `Jump`: from the ground dy becomes -9; in the air dy and grounded stay. Either way y, frame, speed, score and obstacles stay. |
| PageRunner.Runner.KeyDown | script.js:245-255 | Any key but Space changes nothing. Space has the effect of `Press`: the full `StartGame` on a stopped game, `Jump` with y, frame, speed, score and obstacles kept on a running one. |
| PageRunner.Runner.GameOver | script.js:231-234 | Stops the session. |
| PageRunner.RestartLanding | script.js:218-229 | The first frame after a restart lands the runner exactly when the kept dy is above minus one frame of gravity. After a crash in mid-jump it starts in the air. |
| PageRunner.JumpLiftsOff | script.js:166-176 | A jump always lifts the runner off the ground on the next frame. |
| Page.Next | script.js:426 | The next index is below the slide count. It is i + 1 before the last slide and 0 after it. |
| Page.Advanced | script.js:424-429 | The slide shown after k ticks of the auto-slide interval from slide i: `Next` applied k times. |
| Page.AdvancedIsShift | script.js:424-429 | k auto-advances move the carousel from slide i to (i + k) mod n. |
| Page.FullCycle | script.js:424-429 | The auto-slide returns to its slide after exactly n advances and not earlier, so it visits every slide. |
| Page.Carousel.constructor | script.js:409-432 | The carousel starts on slide 0 with its dot active. |
| Page.Carousel.UpdateSlide | script.js:413-421 | updateSlide(i) makes i current, shifts the track by -100 x i percent, and leaves only dot i active (none if i has no dot). |
| Page.Carousel.Advance | script.js:425-428 | One interval tick moves to `Next` of the current slide and keeps the state consistent. |
| Page.Carousel.ClickDot | script.js:436-442 | A click on dot i shows slide i. |
| Page.InitCarousel | script.js:402-410 | Nothing is set up without a track or without slides. Otherwise the carousel shows slide 0. |
| Page.IconFor | script.js:544-552 | The icon is a sun exactly in the dark theme. |
| Page.NextTheme | script.js:532-534 | The next theme is always light or dark. |
| Page.NextThemeRules | script.js:532-537 | The next theme is light exactly when the current one is dark. Toggling twice from dark or from light returns to it, and any other value becomes dark. |
| Page.ThemeState.constructor | script.js:525-530 | A non-empty saved theme is applied with its icon. An absent or empty one leaves the page as it was. |
| Page.ThemeState.Toggle | script.js:532-538 | The next theme is applied, stored and shown with the matching icon. |

## Left out

- Drawing is not modelled: the canvas, `drawMap`, the mouth animation, colours, overlay text and `innerText`/`innerHTML` updates.
- Scheduling is not modelled: `requestAnimationFrame` and the carousel's `setInterval`. One frame or one interval tick is one method call. The carousel's restart of its timer after a dot click is not modelled.
- `localStorage` is a plain field: the saved high score is a constructor parameter, and the string-versus-number coercion of the stored value is ignored.
- The DOM wiring is not modelled. Listeners are methods, and the duplicate `preventDefault` calls have no state effect.
- Other page code is not modelled: the mobile menu, the section templates, the terminal and `data.js`.
- `Math.random()` draws are parameters in [0, 1). `placeFood` receives its whole sequence of draws and requires that one of them lands off the body. The JavaScript loop would otherwise run until a lucky draw, and it never ends on a full grid.
- Pacman.Entity.AiMove: the ghost's sort by perturbed distance to Pac-Man is not a consistent ordering. The model only states that the chosen heading is one of the options, not which one, so the target Pac-Man plays no part.
- Pacman.Game.EatDot: a rounded row index outside the board makes the JavaScript throw. The model reads it as "no dot".
- Pacman.Game.CheckCollisions: the JavaScript checks the distance with `Math.hypot(...) < 0.8`. The model compares the squared distance with 0.64, which is the same test on exact reals.
- IEEE-754 rounding of the fractional positions, speeds and heights is not modelled. All arithmetic is on exact reals, so `x += dir * speed` never drifts.
- Page.Carousel.ClickDot requires the index to be a slide. Each dot's index comes from markup numbering the dots 0 to n - 1, one dot per slide, so a non-numeric `parseInt` result does not arise. A dot count different from the slide count is modelled only by `UpdateSlide`'s "no dot to activate" case.
- The page runner is modelled only once `initDinoGame` has found its canvas. Without the canvas the function returns and nothing is set up.
