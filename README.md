# Projectile-dodging game: a verified model of its simulation

The game in `script.js` is a single animation loop over a handful of global
variables. A player sprite walks left and right and jumps under gravity. Two
background layers scroll in parallax. A periodic spawner launches projectiles
("poops") from above or below the canvas, aimed at the player. Each frame moves
the projectiles, drops those that have left the viewport padded by 50 px, and
ends the run when a projectile's 32×32 box overlaps the player's 64×128 box. A
start or restart click resets the run. A game-over flag stops the frame updates,
and the final frame shows the score, which is the elapsed time of the run.

This project models that simulation in Dafny:

- `rules.dfy` (module `Rules`): the constants, one frame of a background layer
  (`ScrollStep`) and one frame of player movement (`StepPlayer`, the arrow-key part
  `Walk` followed by the jump part `Fall`). Each is a pure function, and its
  contract states the properties of the rule.
- `motion.dfy` (module `Motion`): properties of several frames in a row. A
  standing jump, in exact arithmetic, is airborne for 38 frames at a closed-form
  height and lands on its 39th frame. Holding the right arrow walks 5 px per frame.
- `projectiles.dfy` (module `Projectiles`): the projectile record, the
  out-of-bounds and collision predicates, the spawned projectile (`NewPoop`), and
  one frame of `updatePoops`. That frame is written as `Survivors` and `Hits`,
  which follow the `forEach` loop that calls `splice` as it goes. It is also
  described independently by `Fates`: for each projectile, whether it was moved,
  removed, or skipped because it slid into a slot the iteration had passed.
- `lifecycle.dfy` (module `Lifecycle`): the class `Game`. Its fields are the
  script's globals: canvas size, player state, scroll offsets, the projectile
  list, start time, game-over flag and score. Its methods follow the source's
  functions statement by statement. Each method's postcondition ties the new
  state to the pure functions above. The class invariant `Valid` holds across
  every method: the player is never below the ground, rests on it whenever not
  jumping, and sits at x = 100 + 5k for a whole k with x ≥ 0. Both offsets are ≤ 0, and at most 10
  projectiles are live.

Four facts about the code shape the model:

- Each edge check runs before its 5 px step. The player starts at x = 100 and
  moves in whole steps of 5, so the left check `x > 0` stops it at x = 0 exactly
  (`LeftEdgeKept`). The right check `x + 64 < W` lets the last step overshoot
  the right edge by up to 5 px. `StepPlayer` keeps the band x + 64 < W + 5.
- With exact arithmetic a standing jump is airborne for 38 frames and lands on
  frame 39 (`StandingJumpLands`).
- `updatePoops` calls `splice` inside `forEach`. The projectile that slides into
  the slot of a removed one is therefore not visited in that frame. When nothing is
  removed, every projectile moves by its velocity and none is dropped
  (`NoRemovalMovesAll`).
- The run state is the single boolean `isGameOver`, and the model keeps only
  that flag.

## Model

| member | source | states |
|---|---|---|
| `Rules.ScrollStep` | script.js:100-106 | A layer's offset moves left by its speed. It wraps to 0 exactly when the decrement reaches −W or beyond. From an offset ≤ 0 it stays in (−W, 0] when W > 0. |
| `Rules.StepPlayer` | script.js:109-131 | x changes by −5, 0 or +5. +5 happens exactly when the right arrow is held, x + 64 < W and the left step (which then tests x + 5 > 0) does not fire; it faces the player right. −5 happens exactly when the left arrow is held, x > 0 and the right step does not fire; it faces the player left. When both steps fire, x is net unchanged and the player faces left. When no arrow passes its edge check (none held, the left arrow at x ≤ 0, or the right arrow at x + 64 ≥ W), x and facing are unchanged. The band −5 < x, x + 64 < W + 5 is kept. A frame with no jump in progress or started leaves y and vy alone. A jump starts only on the space key and moves the player in the same frame. A jump in progress stays airborne exactly when y + vy < groundLevel, and an airborne frame is one Euler step. Landing snaps to the ground at rest. y ≤ groundLevel and the grounded invariant are kept. |
| `Rules.GridStepLeft` | script.js:114-117 | On the grid 100 + 5k, a position right of 0 is at least 5: the left step never takes the player below 0. |
| `Rules.LeftEdgeKept` | script.js:110-117 | From a position 100 + 5k with x ≥ 0, a frame ends at 100 + 5(k − 1), 100 + 5k or 100 + 5(k + 1), and still at x ≥ 0: the left check stops the player at 0 exactly. |
| `Motion.StandingJumpAirborne` | script.js:118-130 | After a standing jump with no further keys, for frames 1 to 38 the player is airborne at y = ground + 0.4k² − 15.4k with vy = 0.8k − 15. x and facing do not change. |
| `Motion.StandingJumpLands` | script.js:118-130 | The same jump lands on frame 39, back at ground level with vy = 0 and not jumping. |
| `Motion.WalkRight` | script.js:110-113 | Holding the right arrow for n frames with room for each step moves x by exactly 5n and leaves the player facing right. |
| `Motion.BothArrowsStayPut` | script.js:110-117 | Holding both arrows away from the edges never moves the player, who ends up facing left. |
| `Projectiles.Collides` | script.js:155-158 | A collision always has a point strictly inside both boxes: the centre of their intersection. |
| `Projectiles.CollidesIffOverlap` | script.js:154-159 | The collision test holds exactly when the open 32×32 projectile box and the open 64×128 player box share a point. Boxes that only touch along an edge do not collide. |
| `Projectiles.NewPoop` | script.js:136-140 | A spawned projectile starts at y = −50 or y = H + 50 (−50 when the coin draw is below 0.5). It starts at y = H + 50 when the coin draw is 0.5 or more. It starts at 0 ≤ x < W when W > 0. For a unit aiming direction its speed² is in [4, 16). |
| `Projectiles.Hits` | script.js:144-162 | An empty list never ends the game. The first projectile is always visited, so its overlap after the move always ends it. `HitsAreVisitedCollisions` gives the full characterisation. |
| `Projectiles.Survivors` | script.js:144-153 | One frame never leaves more projectiles than it started with. |
| `Projectiles.VisitStep` | script.js:145-153 | One loop step at index i (move, write back, splice when out of bounds) leaves unchanged what the frame keeps and whether it hits. This is the step lemma of the loop. |
| `Projectiles.Fates` | script.js:145-153 | There is exactly one fate (moved, removed or skipped) per projectile at the start of the frame. |
| `Projectiles.FateRule` | script.js:145-153 | The projectile right after a removed one is skipped. Every other projectile is removed exactly when its updated position is beyond the viewport padded by 50 on some side, and is moved otherwise. |
| `Projectiles.SurvivorsFollowFates` | script.js:145-153 | The frame keeps moved projectiles at their new position and skipped ones unchanged, in order, and drops removed ones. |
| `Projectiles.HitsAreVisitedCollisions` | script.js:145-162 | The frame ends the game exactly when some projectile that was not skipped overlaps the player after its move. This includes a projectile removed in the same step. |
| `Projectiles.SurvivorCount` | script.js:145-153 | The count never grows, and it stays the same exactly when no projectile is removed. |
| `Projectiles.NoRemovalMovesAll` | script.js:145-153 | When no projectile leaves the padded viewport, each one moves by its velocity and none is dropped. |
| `Lifecycle.Game.constructor` | script.js:36-60 | The load state: player at (100, groundLevel) at rest facing right, groundLevel = H − 350, offsets 0, no projectiles, flag off, score 0. |
| `Lifecycle.Game.Resize` | script.js:9-20 | A resize changes only the canvas size. groundLevel keeps its load-time value. |
| `Lifecycle.Game.Init` | script.js:67-73 | init clears the game-over flag, the projectiles and the score. |
| `Lifecycle.Game.ResetRun` | script.js:89-94 | The resets of startGame: player at (100, groundLevel), start time recorded, flag off, no projectiles, score 0. By its frame, the jump state, facing and offsets are untouched. |
| `Lifecycle.Game.StartGame` | script.js:88-97 | startGame resets the run and then runs the first frame. It always ends with no projectiles and the flag off. The player state is one step from (100, groundLevel) with the jump state and facing carried over from before the call. |
| `Lifecycle.Game.UpdateBackground` | script.js:100-106 | Each offset becomes `ScrollStep` of its old value at its layer's speed (0.5 mid, 1 far). |
| `Lifecycle.Game.UpdatePlayer` | script.js:109-131 | The player fields become `StepPlayer` of their old values for this frame's keys, so every property of `StepPlayer` holds of the frame. Nothing else changes. |
| `Lifecycle.Game.WalkPlayer` | script.js:110-117 | The arrow-key half of updatePlayer leaves the player at `Walk` of its old state: the right step, then the left step, each behind its edge check. Only x, facing and the step count change. |
| `Lifecycle.Game.JumpPlayer` | script.js:118-130 | The jump half of updatePlayer leaves the player at `Fall` of its old state: a jump starts on the space key, then a jump in progress takes one step under gravity and lands on the ground. Only y, vy and the jump flag change. |
| `Lifecycle.Game.SpawnPoop` | script.js:134-141 | With 10 or more live projectiles nothing changes. Otherwise exactly one `NewPoop` is appended. The cap of 10 is kept. |
| `Lifecycle.Game.UpdatePoops` | script.js:144-163 | The index loop over the shrinking list leaves exactly `Survivors` of the old list. The flag becomes its old value or'ed with `Hits` against the current player position. |
| `Lifecycle.Game.EndGame` | script.js:201-203 | Sets the game-over flag and changes nothing else, so a second call is a no-op. |
| `Lifecycle.Game.GameLoop` | script.js:215-226 | Once the flag is set, a frame changes no field at all and only shows the final score. Otherwise it scrolls, moves the player, updates the projectiles against the moved player, and records the score (now − start) / 1000. The invariant is kept. |

## Left out

- Rendering (`draw`, the timer text, `showFinalScore`, sprite mirroring): these are draw calls with no state. The one state write of drawing, `finalScore` in `drawTimer`, is kept as an exact number of seconds. Its `toFixed(3)` string formatting is left out.
- `resizeCanvas`'s 16:9 fitting rule: this is DOM sizing. `Resize` takes the resulting width and height as parameters.
- Image loading, button show/hide and the `keydown`/`keyup` listeners: this is DOM glue. The three key states are boolean parameters of each frame.
- `setInterval` and `requestAnimationFrame`: this is host scheduling. One frame is one `GameLoop` call and one spawner tick is one `SpawnPoop` call, in whatever order the host interleaves them. The spawner interval that is never cancelled across restarts is therefore not represented, beyond the fact that `SpawnPoop` runs in every state, including after game over, as the interval does.
- `Math.random`, `Math.atan2`, `Math.cos` and `Math.sin` in `spawnPoop`: these are foreign and transcendental calls. The three random draws are parameters in [0, 1). The cosine and sine of the aiming angle are parameters too.
- NewPoop: does not state that the velocity points at the player, because the aiming angle is computed by `atan2`, which is not modelled.
- `performance.now()`: wall-clock time becomes the `now` parameters. `startTime` is 0 before the first start, where the script leaves it undefined.
- IEEE-754 rounding: the model uses exact real arithmetic, so landing frame counts and positions are exact, not floating point.
- The DOM's integer canvas dimensions: width and height are reals.
