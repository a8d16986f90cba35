/**
 * Per-frame rules that the monolithic GAME.py and the refactored lib/sprites
 * package state in identical code: facing and moving constants, the animation
 * table, the reverse-trigger step of patrolling enemies, jump and shoot
 * gating, the gun cooldown, and the lifebar colour.
 */
module Rules {
  import opened Wrappers
  import opened Geometry

  const RIGHT: int := 1
  const LEFT: int := -1
  const STILL: int := 0
  const WALKING: int := 1

  /** Jumping speed in pixels per second (negative is up). */
  const JUMP_SPEED: real := -700.0
  /** A double jump is allowed only while dy is above this. */
  const DOUBLE_JUMP_MIN_DY: real := 60.0
  /** Seconds between two shots. */
  const COOLDOWN_TIME: real := 0.5
  const LIFEBAR_LENGTH: int := 250

  predicate ValidDirection(d: int) { d == LEFT || d == RIGHT }
  predicate ValidMoving(m: int) { m == STILL || m == WALKING }

  // ---------------------------------------------------------------- animation

  /** The four clips of a player: facing still or walking, left or right. */
  datatype Animation = FaceLeft | WalkLeft | FaceRight | WalkRight

  /** `animations[direction][moving]`; any other key is a KeyError. */
  function AnimationFor(direction: int, moving: int): Animation
    requires ValidDirection(direction) && ValidMoving(moving)
  {
    if direction == LEFT then (if moving == STILL then FaceLeft else WalkLeft)
    else (if moving == STILL then FaceRight else WalkRight)
  }

  /** The table gives a different clip to each (direction, moving) pair. */
  lemma AnimationTableInjective(d1: int, m1: int, d2: int, m2: int)
    requires ValidDirection(d1) && ValidMoving(m1) && ValidDirection(d2) && ValidMoving(m2)
    ensures AnimationFor(d1, m1) == AnimationFor(d2, m2) <==> d1 == d2 && m1 == m2
  {}

  // ----------------------------------------------------------------- patrol

  /**
   * The trigger step: the first reverse cell (in query order) turns the sprite
   * round and puts its leading edge against the cell's far edge; with no cell
   * nothing changes.
   */
  function Reversed(moved: Rect, direction: int, reverse: seq<Cell>): (r: (Rect, int))
    ensures |reverse| == 0 ==> r == (moved, direction)
    ensures |reverse| > 0 ==>
      && r.1 == -direction
      && r.0.y == moved.y && r.0.w == moved.w && r.0.h == moved.h
      && (direction > 0 ==> r.0.Right() == reverse[0].left)
      && (direction <= 0 ==> r.0.x == reverse[0].right)
  {
    if |reverse| == 0 then (moved, direction)
    else if direction > 0 then (moved.WithRight(reverse[0].left), -direction)
    else (moved.(x := reverse[0].right), -direction)
  }

  /** Only the first reverse cell matters: the loop breaks after it. */
  lemma FirstCellDecides(moved: Rect, direction: int, c: Cell, rest: seq<Cell>)
    ensures Reversed(moved, direction, [c] + rest) == Reversed(moved, direction, [c])
  {
  }

  /** A reversal from RIGHT or LEFT always ends facing the other way. */
  lemma ReversalFlipsDirection(moved: Rect, direction: int, reverse: seq<Cell>)
    requires ValidDirection(direction) && |reverse| > 0
    ensures ValidDirection(Reversed(moved, direction, reverse).1)
    ensures Reversed(moved, direction, reverse).1 != direction
  {
  }

  // --------------------------------------------------------------------- jump

  /** What `try_to_jump` reads and writes. */
  datatype JumpState = JumpState(jump: bool, resting: bool, dy: real, doubleJumped: bool)

  /**
   * When `try_to_jump` jumps: a jump was requested and the sprite rests, or it
   * is airborne with dy above 60 and has not used its double jump.
   */
  predicate JumpAllowed(s: JumpState) {
    s.jump && (s.resting || (s.dy > DOUBLE_JUMP_MIN_DY && !s.doubleJumped))
  }

  /**
   * `try_to_jump`: the new state and whether a jump happened (the jump sound is
   * played exactly then).
   */
  function TryToJump(s: JumpState): (JumpState, bool) {
    if !s.jump then (s, false)
    else if s.resting then (s.(jump := false, dy := JUMP_SPEED, doubleJumped := false), true)
    else if s.dy > DOUBLE_JUMP_MIN_DY && !s.doubleJumped then
      (s.(jump := false, dy := JUMP_SPEED, doubleJumped := true), true)
    else (s.(jump := false), false)
  }

  /**
   * The gating: a jump happens iff one was requested and the sprite rests, or is
   * airborne with dy above 60 and has not used its double jump. The request is
   * always consumed; a jump sets dy to JUMP_SPEED and marks the double jump used
   * exactly when it was airborne; nothing else changes.
   */
  lemma JumpGating(s: JumpState)
    ensures var (r, jumped) := TryToJump(s);
      && !r.jump
      && r.resting == s.resting
      && (jumped <==> JumpAllowed(s))
      && (jumped ==> r.dy == JUMP_SPEED && r.doubleJumped == !s.resting)
      && (!jumped ==> r.dy == s.dy && r.doubleJumped == s.doubleJumped)
  {}

  /**
   * A jump from rest, a double jump once airborne with dy above 60, and then no
   * third jump before landing, whatever dy has become.
   */
  lemma DoubleJumpScenario(dy0: real, dy1: real, dy2: real, dj: bool)
    requires dy1 > DOUBLE_JUMP_MIN_DY
    ensures var (a, j1) := TryToJump(JumpState(true, true, dy0, dj));
      j1 && a.dy == JUMP_SPEED && !a.doubleJumped &&
      var (b, j2) := TryToJump(a.(jump := true, resting := false, dy := dy1));
      j2 && b.dy == JUMP_SPEED && b.doubleJumped &&
      var (c, j3) := TryToJump(b.(jump := true, dy := dy2));
      !j3 && c.dy == dy2 && c.doubleJumped
  {}

  // -------------------------------------------------------------------- shoot

  /** A bullet to spawn: the shooter's centre and facing. */
  datatype Shot = Shot(location: (int, int), direction: int)

  /** What `try_to_shoot` reads and writes. */
  datatype ShootState = ShootState(shoot: bool, gunCooldown: real)

  /**
   * `try_to_shoot`: a shot is fired iff requested and the cooldown is exactly zero
   * (`not self.gun_cooldown`); firing restarts the cooldown.
   */
  function TryToShoot(s: ShootState, center: (int, int), direction: int): (ShootState, Option<Shot>) {
    if !s.shoot then (s, None)
    else if s.gunCooldown == 0.0 then (ShootState(false, COOLDOWN_TIME), Some(Shot(center, direction)))
    else (s.(shoot := false), None)
  }

  lemma ShootGating(s: ShootState, center: (int, int), direction: int)
    ensures var (r, shot) := TryToShoot(s, center, direction);
      && !r.shoot
      && (shot.Some? <==> s.shoot && s.gunCooldown == 0.0)
      && (shot.Some? ==> shot.value == Shot(center, direction) && r.gunCooldown == COOLDOWN_TIME)
      && (shot.None? ==> r.gunCooldown == s.gunCooldown)
  {}

  /** `max(0, gun_cooldown - dt)`: the per-frame cooldown decay. */
  function CoolDown(c: real, dt: real): (r: real)
    ensures r >= 0.0
    ensures r == 0.0 || r == c - dt
    ensures r >= c - dt
  {
    if c - dt > 0.0 then c - dt else 0.0
  }

  /** The cooldown after one frame per entry of `dts`. */
  function CoolDownFrames(c: real, dts: seq<real>): real
    decreases |dts|
  {
    if dts == [] then c else CoolDownFrames(CoolDown(c, dts[0]), dts[1..])
  }

  function Sum(dts: seq<real>): real
    decreases |dts|
  {
    if dts == [] then 0.0 else dts[0] + Sum(dts[1..])
  }

  /**
   * Over any run of frames with non-negative dt, a non-negative cooldown ends at
   * max(0, c - total time): it never goes negative and reaches 0 once the frames
   * add up to the cooldown, after which a shot can be fired again.
   */
  lemma {:induction false} CoolDownOverFrames(c: real, dts: seq<real>)
    requires c >= 0.0
    requires forall i :: 0 <= i < |dts| ==> dts[i] >= 0.0
    ensures CoolDownFrames(c, dts) == MaxZero(c - Sum(dts))
    decreases |dts|
  {
    if dts != [] {
      var c' := CoolDown(c, dts[0]);
      CoolDownOverFrames(c', dts[1..]);
      assert Sum(dts) == dts[0] + Sum(dts[1..]);
      SumNonNegative(dts[1..]);
    }
  }

  function MaxZero(r: real): real { if r > 0.0 then r else 0.0 }

  lemma {:induction false} SumNonNegative(dts: seq<real>)
    requires forall i :: 0 <= i < |dts| ==> dts[i] >= 0.0
    ensures Sum(dts) >= 0.0
    decreases |dts|
  {
    if dts != [] {
      SumNonNegative(dts[1..]);
    }
  }

  // ------------------------------------------------------------------ lifebar

  datatype Colour = Red | Yellow | Green

  /** `draw_lifebar`'s colour: red below 15 % health, yellow below 70 %, else green. */
  function LifebarColour(health: real, maxHealth: real): (c: Colour)
    requires maxHealth != 0.0
    ensures c == Red <==> health / maxHealth < 0.15
    ensures c == Yellow <==> 0.15 <= health / maxHealth < 0.7
    ensures c == Green <==> 0.7 <= health / maxHealth
  {
    var ratio := health / maxHealth;
    if ratio < 0.15 then Red else if ratio < 0.7 then Yellow else Green
  }

  function ColourRank(c: Colour): nat {
    match c
    case Red => 0
    case Yellow => 1
    case Green => 2
  }

  /** More health never gives a worse colour. */
  lemma LifebarColourMonotone(h1: real, h2: real, maxHealth: real)
    requires maxHealth > 0.0 && h1 <= h2
    ensures ColourRank(LifebarColour(h1, maxHealth)) <= ColourRank(LifebarColour(h2, maxHealth))
  {
    assert h1 / maxHealth <= h2 / maxHealth by {
      assert h2 / maxHealth - h1 / maxHealth == (h2 - h1) / maxHealth;
    }
  }

  /**
   * The filled length `(LIFEBAR_LENGTH - 3) * health / max_health`: the full
   * inner length at full health, nothing at zero, and within the bar in between.
   */
  function LifebarFill(health: real, maxHealth: real): (r: real)
    requires maxHealth > 0.0
    ensures health == maxHealth ==> r == (LIFEBAR_LENGTH - 3) as real
    ensures health == 0.0 ==> r == 0.0
    ensures 0.0 <= health <= maxHealth ==> 0.0 <= r <= (LIFEBAR_LENGTH - 3) as real
  {
    var r := (LIFEBAR_LENGTH - 3) as real * health / maxHealth;
    if 0.0 <= health <= maxHealth then
      RatioAtMostOne(health, maxHealth);
      assert r == (LIFEBAR_LENGTH - 3) as real * (health / maxHealth);
      r
    else r
  }

  lemma RatioAtMostOne(part: real, whole: real)
    requires 0.0 <= part <= whole && whole > 0.0
    ensures 0.0 <= part / whole <= 1.0
  {
    assert part / whole * whole == part;
  }
}
