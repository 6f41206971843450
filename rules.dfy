/** Tuning constants of the game and the per-frame rules for the two scrolling
    background layers and for the player (script.js:36-57, 100-131).
    Positions and speeds are exact reals: the browser's double rounding is not modelled. */
module Rules {

  const PlayerWidth: real := 64.0
  const PlayerHeight: real := 128.0
  const PlayerSpeed: real := 5.0
  const Gravity: real := 0.8
  const JumpStrength: real := 15.0
  /** groundLevel is the canvas height at load time minus this offset. */
  const GroundOffset: real := 350.0
  /** Horizontal position the player starts each run at. */
  const StartX: real := 100.0
  const MidSpeed: real := 0.5
  const FarSpeed: real := 1.0

  /** One frame of a background layer: move left by `speed`, and jump back to 0
      once the offset reaches one canvas width to the left. */
  function ScrollStep(offset: real, speed: real, width: real): (r: real)
    // the only departure from a plain decrement is the wrap, and it happens exactly at -width or beyond
    ensures r == offset - speed || (r == 0.0 && offset - speed <= -width)
    ensures -width < offset - speed ==> r == offset - speed
    ensures offset - speed <= -width ==> r == 0.0
    // an offset that starts at or left of 0 stays in (-width, 0]
    ensures 0.0 < width ==> -width < r
    ensures offset <= 0.0 && 0.0 <= speed ==> r <= 0.0
  {
    var moved := offset - speed;
    if moved <= -width then 0.0 else moved
  }

  /** The sign rule the nonlinear steps of the proofs need. */
  lemma NegativeProduct(a: real, b: real)
    requires 0.0 < a && b < 0.0
    ensures a * b < 0.0
  {
  }

  /** The player-related globals: playerX, playerY, jumpVelocity, isJumping, facingRight. */
  datatype Player = Player(x: real, y: real, vy: real, jumping: bool, facingRight: bool)

  /** The vertical invariant of the game: never below the ground, and standing
      exactly on it, at rest, whenever no jump is in progress. */
  predicate Grounded(p: Player, ground: real)
  {
    p.y <= ground && (!p.jumping ==> p.y == ground && p.vy == 0.0)
  }

  /** One frame of player movement for the given key states (right arrow,
      left arrow, space) on a canvas of the given width. */
  function StepPlayer(p: Player, right: bool, left: bool, jump: bool, width: real, ground: real): (r: Player)
    // horizontally: at most one step of PlayerSpeed, each guarded by its edge check
    ensures r.x == p.x || r.x == p.x + PlayerSpeed || r.x == p.x - PlayerSpeed
    ensures r.x == p.x + PlayerSpeed ==> right && p.x + PlayerWidth < width && r.facingRight
    ensures r.x == p.x - PlayerSpeed ==> left && 0.0 < p.x && !r.facingRight
    // both steps fire: the right check runs first, so the player ends where it began, facing left
    ensures right && p.x + PlayerWidth < width && left && 0.0 < p.x + PlayerSpeed ==> r.x == p.x && !r.facingRight
    ensures !right && !left ==> r.x == p.x && r.facingRight == p.facingRight
    // an arrow whose edge check blocks it changes neither position nor facing
    ensures !(right && p.x + PlayerWidth < width) && !(left && 0.0 < p.x) ==> r.x == p.x && r.facingRight == p.facingRight
    // and each guard, when it is the only one to fire, makes its step happen
    ensures right && p.x + PlayerWidth < width && !(left && 0.0 < p.x + PlayerSpeed) ==> r.x == p.x + PlayerSpeed && r.facingRight
    ensures left && 0.0 < p.x && !(right && p.x + PlayerWidth < width) ==> r.x == p.x - PlayerSpeed && !r.facingRight
    // the band (-PlayerSpeed, width - PlayerWidth + PlayerSpeed) is never left
    ensures -PlayerSpeed < p.x ==> -PlayerSpeed < r.x
    ensures p.x + PlayerWidth < width + PlayerSpeed ==> r.x + PlayerWidth < width + PlayerSpeed
    // vertically: a frame with no jump in progress and none started changes nothing
    ensures !p.jumping && !jump ==> r.y == p.y && r.vy == p.vy && !r.jumping
    // a jump starts only on the jump key and is applied in the frame that starts it
    ensures r.jumping && !p.jumping ==> jump
    ensures !p.jumping && jump && p.y - JumpStrength < ground ==>
              r.jumping && r.y == p.y - JumpStrength && r.vy == Gravity - JumpStrength
    // an airborne frame is one explicit Euler step, and ends strictly above the ground
    ensures p.jumping && r.jumping ==> r.y == p.y + p.vy && r.vy == p.vy + Gravity
    ensures r.jumping ==> r.y < ground
    // a jump in progress stays in the air exactly while its next position is above the ground
    ensures p.jumping ==> (r.jumping <==> p.y + p.vy < ground)
    ensures !p.jumping && jump ==> (r.jumping <==> p.y - JumpStrength < ground)
    // landing snaps to the ground at rest
    ensures (p.jumping || jump) && !r.jumping ==> r.y == ground && r.vy == 0.0
    // the vertical invariant is kept
    ensures p.y <= ground ==> r.y <= ground
    ensures Grounded(p, ground) ==> Grounded(r, ground)
  {
    Fall(Walk(p, right, left, width), jump, ground)
  }

  /** The arrow-key part of a frame: the right step, then the left step, each
      behind its edge check. */
  function Walk(p: Player, right: bool, left: bool, width: real): Player
  {
    var q := if right && p.x + PlayerWidth < width then p.(x := p.x + PlayerSpeed, facingRight := true) else p;
    if left && 0.0 < q.x then q.(x := q.x - PlayerSpeed, facingRight := false) else q
  }

  /** The vertical part of a frame: a jump starts on the jump key, then a jump in
      progress takes one Euler step and lands once it reaches the ground. */
  function Fall(p: Player, jump: bool, ground: real): Player
  {
    var q := if jump && !p.jumping then p.(jumping := true, vy := -JumpStrength) else p;
    if !q.jumping then q
    else if ground <= q.y + q.vy then q.(y := ground, vy := 0.0, jumping := false)
    else q.(y := q.y + q.vy, vy := q.vy + Gravity)
  }

  /** From the start position the player only ever moves in whole steps, so x is
      always StartX plus a whole number of steps; on that grid the left-edge guard
      `x > 0` keeps x at or right of 0. */
  lemma LeftEdgeKept(p: Player, k: int, right: bool, left: bool, jump: bool, width: real, ground: real)
    requires p.x == StartX + PlayerSpeed * (k as real) && 0.0 <= p.x
    ensures var r := StepPlayer(p, right, left, jump, width, ground);
            && 0.0 <= r.x
            && (r.x == StartX + PlayerSpeed * ((k - 1) as real) ||
                r.x == StartX + PlayerSpeed * (k as real) ||
                r.x == StartX + PlayerSpeed * ((k + 1) as real))
  {
    var r := StepPlayer(p, right, left, jump, width, ground);
    if r.x == p.x - PlayerSpeed {
      GridStepLeft(k);
    }
  }

  /** On the grid StartX + PlayerSpeed * k, a position right of 0 is at least one
      step right of 0: StartX is a whole number of steps. */
  lemma GridStepLeft(k: int)
    requires 0.0 < StartX + PlayerSpeed * (k as real)
    ensures 0.0 <= StartX + PlayerSpeed * ((k - 1) as real)
  {
    assert -20 < k;
  }

  /** `n` consecutive frames with the same keys held throughout. */
  function Repeat(p: Player, n: nat, right: bool, left: bool, jump: bool, width: real, ground: real): Player
  {
    if n == 0 then p else StepPlayer(Repeat(p, n - 1, right, left, jump, width, ground), right, left, jump, width, ground)
  }
}
