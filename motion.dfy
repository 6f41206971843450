/** Properties of several consecutive frames of player movement
    (script.js:109-131 run once per frame by the game loop). */
module Motion {
  import opened Rules

  /** Height gained (negative: upwards) after `k` airborne frames of a standing
      jump: the sum of the velocities -15, -14.2, ..., -15 + 0.8 * (k - 1). */
  function JumpRise(k: nat): real
  {
    0.4 * (k as real) * (k as real) - 15.4 * (k as real)
  }

  /** During the first 38 frames of a jump the player is strictly above the ground. */
  lemma RiseIsAboveGround(k: nat)
    requires 1 <= k <= 38
    ensures JumpRise(k) < 0.0
  {
    var r := k as real;
    var s := r - 38.5;
    assert 0.0 < r && s < 0.0;
    NegativeProduct(r, s);
    assert JumpRise(k) == 0.4 * (r * s);
  }

  /** A standing jump with no key held afterwards: in the frame the jump key
      starts it and in each following frame up to the 38th, the player is airborne
      at the closed-form height, with velocity -15 + 0.8 k. */
  lemma {:induction false} StandingJumpAirborne(p: Player, k: nat, width: real, ground: real)
    requires !p.jumping && Grounded(p, ground)
    requires 1 <= k <= 38
    ensures Repeat(StepPlayer(p, false, false, true, width, ground), k - 1, false, false, false, width, ground)
         == Player(p.x, ground + JumpRise(k), Gravity * (k as real) - JumpStrength, true, p.facingRight)
  {
    RiseIsAboveGround(k);
    if k == 1 {
      JumpStart(p, width, ground);
    } else {
      StandingJumpAirborne(p, k - 1, width, ground);
      var r := (k - 1) as real;
      assert JumpRise(k - 1) + (Gravity * r - JumpStrength) == JumpRise(k);
      assert Gravity * r - JumpStrength + Gravity == Gravity * (k as real) - JumpStrength;
      AirborneFrame(Player(p.x, ground + JumpRise(k - 1), Gravity * r - JumpStrength, true, p.facingRight), width, ground);
    }
  }

  /** The frame that starts a standing jump. */
  lemma JumpStart(p: Player, width: real, ground: real)
    requires !p.jumping && Grounded(p, ground)
    ensures StepPlayer(p, false, false, true, width, ground)
         == Player(p.x, ground - JumpStrength, Gravity - JumpStrength, true, p.facingRight)
  {
  }

  /** A frame with no key held, in the air. */
  lemma AirborneFrame(p: Player, width: real, ground: real)
    requires p.jumping
    ensures p.y + p.vy < ground ==>
              StepPlayer(p, false, false, false, width, ground) == Player(p.x, p.y + p.vy, p.vy + Gravity, true, p.facingRight)
    ensures ground <= p.y + p.vy ==>
              StepPlayer(p, false, false, false, width, ground) == Player(p.x, ground, 0.0, false, p.facingRight)
  {
  }

  /** The same jump lands on its 39th frame: back on the ground, at rest, where it started. */
  lemma StandingJumpLands(p: Player, width: real, ground: real)
    requires !p.jumping && Grounded(p, ground)
    ensures Repeat(StepPlayer(p, false, false, true, width, ground), 38, false, false, false, width, ground)
         == Player(p.x, ground, 0.0, false, p.facingRight)
  {
    StandingJumpAirborne(p, 38, width, ground);
    assert JumpRise(38) + (Gravity * 38.0 - JumpStrength) == 7.8;
    AirborneFrame(Player(p.x, ground + JumpRise(38), Gravity * 38.0 - JumpStrength, true, p.facingRight), width, ground);
  }

  /** Holding the right arrow for `n` frames, with room for every step, moves the
      player exactly `n` steps right; e.g. 10 frames from x = 100 end at x = 150. */
  lemma {:induction false} WalkRight(p: Player, n: nat, width: real, ground: real)
    requires n == 0 || p.x + PlayerWidth + PlayerSpeed * ((n - 1) as real) < width
    ensures Repeat(p, n, true, false, false, width, ground).x == p.x + PlayerSpeed * (n as real)
    ensures n > 0 ==> Repeat(p, n, true, false, false, width, ground).facingRight
  {
    if n > 0 {
      WalkRight(p, n - 1, width, ground);
    }
  }

  /** Holding both arrows never moves a player who is away from both edges. */
  lemma {:induction false} BothArrowsStayPut(p: Player, n: nat, jump: bool, width: real, ground: real)
    requires 0.0 < p.x + PlayerSpeed && p.x + PlayerWidth < width
    ensures Repeat(p, n, true, true, jump, width, ground).x == p.x
    ensures n > 0 ==> !Repeat(p, n, true, true, jump, width, ground).facingRight
  {
    if n > 0 {
      BothArrowsStayPut(p, n - 1, jump, width, ground);
    }
  }
}
