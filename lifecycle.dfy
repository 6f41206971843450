/** The game's global state and the operations that change it: the page-load
    state, init, startGame, the frame callback gameLoop with its three updates,
    the spawner and endGame (script.js:36-60, 67-163, 201-226). */
module Lifecycle {
  import opened Rules
  import opened Projectiles

  /** One instance holds every global `let` of the script; canvas width and
      height are fields, groundLevel is fixed when the page loads. */
  class Game {
    var width: real
    var height: real
    const groundLevel: real

    var playerX: real
    var playerY: real
    var isJumping: bool
    var jumpVelocity: real
    var facingRight: bool

    var midX: real
    var farX: real

    var poops: seq<Poop>
    var startTime: real
    var isGameOver: bool
    /** Elapsed seconds of the run, as last drawn. */
    var finalScore: real
    /** Net number of PlayerSpeed steps the player has taken since the run started. */
    ghost var steps: int

    /** What every operation keeps: the player sits on the grid of whole steps
        from StartX and never left of 0, is never below the ground, stands at rest on the ground when not jumping, both
        background offsets are at or left of 0, and at most MaxPoops projectiles live. */
    ghost predicate Valid()
      reads this
    {
      playerX == StartX + PlayerSpeed * (steps as real) && 0.0 <= playerX &&
      Grounded(PlayerState(), groundLevel) &&
      midX <= 0.0 && farX <= 0.0 &&
      |poops| <= MaxPoops
    }

    function PlayerState(): Player
      reads this
    {
      Player(playerX, playerY, jumpVelocity, isJumping, facingRight)
    }

    /** The state right after the script's top-level declarations, for a canvas of w by h. */
    constructor (w: real, h: real)
      ensures Valid()
      ensures width == w && height == h && groundLevel == h - GroundOffset
      ensures PlayerState() == Player(StartX, groundLevel, 0.0, false, true)
      ensures midX == 0.0 && farX == 0.0
      ensures poops == [] && startTime == 0.0 && !isGameOver && finalScore == 0.0
    {
      width, height := w, h;
      groundLevel := h - GroundOffset;
      playerX, playerY := StartX, h - GroundOffset;
      isJumping, jumpVelocity, facingRight := false, 0.0, true;
      midX, farX := 0.0, 0.0;
      poops := [];
      startTime := 0.0;
      isGameOver := false;
      finalScore := 0.0;
      steps := 0;
    }

    /** The canvas was resized to w by h; groundLevel keeps its load-time value. */
    method Resize(w: real, h: real)
      requires Valid()
      modifies this`width, this`height
      ensures Valid()
      ensures width == w && height == h
    {
      width, height := w, h;
    }

    /** init: clears the flag, the projectiles and the score. */
    method Init()
      requires Valid()
      modifies this`isGameOver, this`poops, this`finalScore
      ensures Valid()
      ensures !isGameOver && poops == [] && finalScore == 0.0
    {
      isGameOver := false;
      poops := [];
      finalScore := 0.0;
    }

    /** The resets startGame makes before its first frame. The jump state, the
        facing and the background offsets are left as they were. */
    method ResetRun(now: real)
      requires Valid()
      modifies this`playerX, this`playerY, this`startTime, this`isGameOver, this`poops, this`finalScore, this`steps
      ensures Valid()
      ensures playerX == StartX && playerY == groundLevel
      ensures startTime == now && !isGameOver && poops == [] && finalScore == 0.0
    {
      playerX := StartX;
      playerY := groundLevel;
      startTime := now;
      isGameOver := false;
      poops := [];
      finalScore := 0.0;
      steps := 0;
    }

    /** startGame: the resets above, then the first call of the frame callback,
        drawn at time `frameNow`. The run starts clean, except that a jump that was
        in progress when the last run ended carries on from the ground. */
    method StartGame(now: real, right: bool, left: bool, jump: bool, frameNow: real)
      requires Valid()
      modifies this
      ensures Valid()
      ensures width == old(width) && height == old(height)
      ensures startTime == now && finalScore == (frameNow - now) / 1000.0
      ensures poops == [] && !isGameOver
      ensures PlayerState() == StepPlayer(Player(StartX, groundLevel, old(jumpVelocity), old(isJumping), old(facingRight)),
                                          right, left, jump, width, groundLevel)
      ensures midX == ScrollStep(old(midX), MidSpeed, width) && farX == ScrollStep(old(farX), FarSpeed, width)
    {
      ResetRun(now);
      var shown := GameLoop(right, left, jump, frameNow);
    }

    /** updateBackground: both layers scroll left, each at its own speed. */
    method UpdateBackground()
      requires Valid()
      modifies this`midX, this`farX
      ensures Valid()
      ensures midX == ScrollStep(old(midX), MidSpeed, width)
      ensures farX == ScrollStep(old(farX), FarSpeed, width)
    {
      midX := midX - MidSpeed;
      farX := farX - FarSpeed;
      if midX <= -width { midX := 0.0; }
      if farX <= -width { farX := 0.0; }
    }

    /** updatePlayer for the key states of this frame: the arrow keys, then the jump. */
    method UpdatePlayer(right: bool, left: bool, jump: bool)
      requires Valid()
      modifies this`playerX, this`playerY, this`isJumping, this`jumpVelocity, this`facingRight, this`steps
      ensures Valid()
      ensures PlayerState() == StepPlayer(old(PlayerState()), right, left, jump, width, groundLevel)
    {
      WalkPlayer(right, left);
      JumpPlayer(jump);
    }

    /** The arrow-key half of updatePlayer: a step right, then a step left, each
        behind its edge check. */
    method WalkPlayer(right: bool, left: bool)
      requires Valid()
      modifies this`playerX, this`facingRight, this`steps
      ensures Valid()
      ensures PlayerState() == Walk(old(PlayerState()), right, left, width)
    {
      if right && playerX + PlayerWidth < width {
        playerX := playerX + PlayerSpeed;
        facingRight := true;
        steps := steps + 1;
      }
      if left && playerX > 0.0 {
        GridStepLeft(steps);
        playerX := playerX - PlayerSpeed;
        facingRight := false;
        steps := steps - 1;
      }
    }

    /** The jump half of updatePlayer: the jump key starts a jump, and a jump in
        progress takes one step under gravity and lands on the ground. */
    method JumpPlayer(jump: bool)
      requires Valid()
      modifies this`playerY, this`isJumping, this`jumpVelocity
      ensures Valid()
      ensures PlayerState() == Fall(old(PlayerState()), jump, groundLevel)
    {
      if jump && !isJumping {
        isJumping := true;
        jumpVelocity := -JumpStrength;
      }
      if isJumping {
        playerY := playerY + jumpVelocity;
        jumpVelocity := jumpVelocity + Gravity;
        if playerY >= groundLevel {
          playerY := groundLevel;
          isJumping := false;
          jumpVelocity := 0.0;
        }
      }
    }

    /** spawnPoop: nothing once MaxPoops projectiles live; otherwise one new
        projectile is appended. The random draws and the aiming direction are parameters. */
    method SpawnPoop(u: real, coin: real, spread: real, dirX: real, dirY: real)
      requires Valid()
      requires 0.0 <= u < 1.0 && 0.0 <= coin < 1.0 && 0.0 <= spread < 1.0
      modifies this`poops
      ensures Valid()
      ensures |old(poops)| >= MaxPoops ==> poops == old(poops)
      ensures |old(poops)| < MaxPoops ==> poops == old(poops) + [NewPoop(u, coin, spread, dirX, dirY, width, height)]
    {
      if |poops| >= MaxPoops {
        return;
      }
      var x := u * width;
      var y := if coin < 0.5 then -Margin else height + Margin;
      var speed := PoopBaseSpeed + spread * PoopSpeedVariation;
      assert Poop(x, y, dirX * speed, dirY * speed) == NewPoop(u, coin, spread, dirX, dirY, width, height);
      poops := poops + [Poop(x, y, dirX * speed, dirY * speed)];
    }

    /** updatePoops: every visited projectile moves; one that leaves the padded
        viewport is spliced out, which makes the iteration skip its successor; a
        visited projectile overlapping the player ends the game. */
    method UpdatePoops()
      requires Valid()
      modifies this`poops, this`isGameOver
      ensures Valid()
      ensures poops == Survivors(old(poops), width, height)
      ensures isGameOver == (old(isGameOver) || Hits(old(poops), width, height, playerX, playerY))
    {
      ghost var o := poops;
      ghost var hit := isGameOver || Hits(o, width, height, playerX, playerY);
      var w, h, px, py := width, height, playerX, playerY;
      // nothing else reads the list during the frame, so the loop works on a copy that is stored back once
      var list := poops;
      var i := 0;
      while i < |list|
        invariant i <= |list| + 1
        invariant Pending(list, i, w, h) == Survivors(o, w, h)
        invariant hit == (isGameOver || HitAhead(list, i, w, h, px, py))
        decreases |list| + 1 - i
      {
        VisitStep(list, i, w, h, px, py);
        ghost var next := Visit(list, i, w, h);
        var poop := Move(list[i]);
        list := list[i := poop];
        if OutOfBounds(poop, w, h) {
          list := list[..i] + list[i + 1..];
        }
        assert list == next;
        if Collides(poop, px, py) {
          EndGame();
        }
        i := i + 1;
      }
      assert i == |list| ==> list[i..] == [];
      poops := list;
      SurvivorCount(o, w, h);
    }

    /** endGame: raises the flag and nothing else; calling it again changes nothing. */
    method EndGame()
      modifies this`isGameOver
      ensures isGameOver
    {
      isGameOver := true;
    }

    /** gameLoop: once the game is over a frame only shows the final score (the
        returned flag) and changes nothing; otherwise it scrolls the background,
        moves the player, updates the projectiles against the moved player, and the
        drawing records the elapsed time since the run started. */
    method GameLoop(right: bool, left: bool, jump: bool, now: real) returns (showsFinalScore: bool)
      requires Valid()
      modifies this
      ensures Valid()
      ensures showsFinalScore == old(isGameOver)
      ensures old(isGameOver) ==> unchanged(this)
      ensures width == old(width) && height == old(height) && startTime == old(startTime)
      ensures !old(isGameOver) ==>
                && midX == ScrollStep(old(midX), MidSpeed, width)
                && farX == ScrollStep(old(farX), FarSpeed, width)
                && PlayerState() == StepPlayer(old(PlayerState()), right, left, jump, width, groundLevel)
                && poops == Survivors(old(poops), width, height)
                && isGameOver == Hits(old(poops), width, height, playerX, playerY)
                && finalScore == (now - startTime) / 1000.0
    {
      if isGameOver {
        return true;
      }
      ghost var p, o := PlayerState(), poops;
      UpdateBackground();
      assert PlayerState() == p && poops == o;
      UpdatePlayer(right, left, jump);
      UpdatePoops();
      finalScore := (now - startTime) / 1000.0;
      return false;
    }
  }
}
