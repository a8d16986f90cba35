/**
 * GAME.py: the monolithic first version of the game. Its Player is the only
 * one whose movement step is shown in full: gravity capped at MAX_FALL_SPEED,
 * then a pass over the blocker cells the moved rectangle touches, each cell
 * pushing the rectangle back out through the edges it blocks. Its Sentry
 * enemy drains health continuously while touching the player, and its Bullet
 * kills every enemy it overlaps.
 */
module Monolith {
  import opened Wrappers
  import opened Geometry
  import opened Input
  import Rules

  // World constants of class Game.
  const GRAVITY: real := 2400.0
  const MAX_FALL_SPEED: real := 700.0
  const FPS: nat := 60
  const LIFEBAR_WIDTH: nat := 10

  /** Player's left and right speed in pixels per second. */
  const PLAYER_SPEED: real := 200.0
  /** The monolithic player's maximum health (seconds of contact). */
  const MAX_HEALTH: real := 2.0
  const BULLET_SPEED: real := 400.0
  const BULLET_LIFESPAN: real := 1.0
  const SENTRY_SPEED: real := 100.0

  // ------------------------------------------------------------ blocker pass

  /** 'l' blocks a rectangle that crossed the cell's left edge moving right. */
  predicate LFires(last: Rect, r: Rect, c: Cell) {
    'l' in c.blockers && last.Right() <= c.left && r.Right() > c.left
  }

  /** 'r' blocks a rectangle that crossed the cell's right edge moving left. */
  predicate RFires(last: Rect, r: Rect, c: Cell) {
    'r' in c.blockers && last.x >= c.right && r.x < c.right
  }

  /** 't' blocks a rectangle that crossed the cell's top moving down: a landing. */
  predicate TFires(last: Rect, r: Rect, c: Cell) {
    't' in c.blockers && last.Bottom() <= c.top && r.Bottom() > c.top
  }

  /** 'b' blocks a rectangle that crossed the cell's bottom moving up. */
  predicate BFires(last: Rect, r: Rect, c: Cell) {
    'b' in c.blockers && last.y >= c.bottom && r.y < c.bottom
  }

  function StepL(last: Rect, b: Body, c: Cell): Body {
    if LFires(last, b.rect, c) then b.(rect := b.rect.WithRight(c.left)) else b
  }

  function StepR(last: Rect, b: Body, c: Cell): Body {
    if RFires(last, b.rect, c) then b.(rect := b.rect.(x := c.right)) else b
  }

  /** A landing: resting, double jump restored, feet on the cell, dy = GRAVITY * dt. */
  function StepT(last: Rect, b: Body, c: Cell, g: real): Body {
    if TFires(last, b.rect, c) then Body(b.rect.WithBottom(c.top), g, true, false) else b
  }

  /** A head bump: the top on the cell's bottom and the vertical speed gone. */
  function StepB(last: Rect, b: Body, c: Cell): Body {
    if BFires(last, b.rect, c) then b.(rect := b.rect.(y := c.bottom), dy := 0.0) else b
  }

  /**
   * One iteration of the blocker loop: the four edge tests in the order l, r,
   * t, b, each against the pre-move rectangle `last`. `g` is GRAVITY * dt.
   */
  function CellStep(last: Rect, b: Body, c: Cell, g: real): Body {
    StepB(last, StepT(last, StepR(last, StepL(last, b, c), c), c, g), c)
  }

  /** Whether the landing test fires in this cell's iteration. */
  predicate TFiresAt(last: Rect, b: Body, c: Cell) {
    TFires(last, StepR(last, StepL(last, b, c), c).rect, c)
  }

  /** The blocker loop over `cells`, in query order. */
  function Resolve(last: Rect, s: Body, cells: seq<Cell>, g: real): Body
    decreases |cells|
  {
    if |cells| == 0 then s
    else CellStep(last, Resolve(last, s, cells[..|cells| - 1], g), cells[|cells| - 1], g)
  }

  predicate Between(a: int, b: int, v: int) {
    (a <= v <= b) || (b <= v <= a)
  }

  /**
   * Corrections only pull the rectangle back along the way it moved: each
   * coordinate ends between the pre-move value and the moved value, and the
   * size never changes.
   */
  lemma {:induction false} ResolveStaysOnPath(last: Rect, s: Body, cells: seq<Cell>, g: real)
    requires s.rect.w == last.w && s.rect.h == last.h
    ensures var r := Resolve(last, s, cells, g).rect;
      && Between(last.x, s.rect.x, r.x)
      && Between(last.y, s.rect.y, r.y)
      && r.w == s.rect.w && r.h == s.rect.h
    decreases |cells|
  {
    if |cells| > 0 {
      var b := Resolve(last, s, cells[..|cells| - 1], g);
      ResolveStaysOnPath(last, s, cells[..|cells| - 1], g);
      CellStepOnPath(last, b, cells[|cells| - 1], g);
    }
  }

  /** One cell's corrections keep each coordinate between `last` and where it was. */
  lemma CellStepOnPath(last: Rect, b: Body, c: Cell, g: real)
    requires b.rect.w == last.w && b.rect.h == last.h
    ensures var r := CellStep(last, b, c, g).rect;
      && Between(last.x, b.rect.x, r.x)
      && Between(last.y, b.rect.y, r.y)
      && r.w == b.rect.w && r.h == b.rect.h
  {
    var l := StepL(last, b, c);
    var rr := StepR(last, l, c);
    var t := StepT(last, rr, c, g);
    assert Between(last.x, b.rect.x, l.rect.x);
    assert Between(last.x, l.rect.x, rr.rect.x);
    assert Between(last.y, rr.rect.y, t.rect.y);
  }

  /**
   * Starting airborne with GRAVITY * dt non-negative, a player that ends the
   * pass resting has a restored double jump and is not moving up.
   */
  lemma {:induction false} RestingAfterLanding(last: Rect, s: Body, cells: seq<Cell>, g: real)
    requires !s.resting && g >= 0.0
    ensures var r := Resolve(last, s, cells, g);
      r.resting ==> r.dy >= 0.0 && !r.doubleJumped
    decreases |cells|
  {
    if |cells| > 0 {
      RestingAfterLanding(last, s, cells[..|cells| - 1], g);
    }
  }

  /** The pass ends resting iff it started so or the landing test fired in some cell. */
  lemma {:induction false} RestingIffLanded(last: Rect, s: Body, cells: seq<Cell>, g: real)
    ensures Resolve(last, s, cells, g).resting <==> s.resting || Landed(last, s, cells, g)
    decreases |cells|
  {
    if |cells| > 0 {
      var n := |cells| - 1;
      var front := cells[..n];
      var b := Resolve(last, s, front, g);
      RestingIffLanded(last, s, front, g);
      assert CellStep(last, b, cells[n], g).resting == (b.resting || TFiresAt(last, b, cells[n]));
      LandedSplit(last, s, cells, g);
    }
  }

  /** The landing test fired in the iteration for `cells[i]`. */
  ghost predicate FiredAt(last: Rect, s: Body, cells: seq<Cell>, g: real, i: nat)
    requires i < |cells|
  {
    TFiresAt(last, Resolve(last, s, cells[..i], g), cells[i])
  }

  /** Some cell's iteration fired the landing test. */
  ghost predicate Landed(last: Rect, s: Body, cells: seq<Cell>, g: real) {
    exists i: nat :: i < |cells| && FiredAt(last, s, cells, g, i)
  }

  lemma LandedSplit(last: Rect, s: Body, cells: seq<Cell>, g: real)
    requires |cells| > 0
    ensures var n := |cells| - 1;
      Landed(last, s, cells, g) <==>
        Landed(last, s, cells[..n], g) || TFiresAt(last, Resolve(last, s, cells[..n], g), cells[n])
  {
    var n := |cells| - 1;
    var front := cells[..n];
    forall i: nat | i < n
      ensures FiredAt(last, s, front, g, i) == FiredAt(last, s, cells, g, i)
    {
      assert front[..i] == cells[..i];
    }
    assert FiredAt(last, s, cells, g, n) == TFiresAt(last, Resolve(last, s, front, g), cells[n]);
  }

  /**
   * A landing in a well-formed cell, for a rectangle of positive height, puts
   * the feet exactly on the cell top with dy = GRAVITY * dt; the head-bump test
   * cannot also fire in that cell.
   */
  lemma Landing(last: Rect, b: Body, c: Cell, g: real)
    requires WellFormed(c) && last.h > 0
    requires TFiresAt(last, b, c)
    ensures var r := CellStep(last, b, c, g);
      r.resting && !r.doubleJumped && r.rect.Bottom() == c.top && r.dy == g
  {
  }

  /**
   * An 'l' correction leaves the right edge on the cell's left edge, which is
   * not left of the pre-move right edge, and afterwards no cell with the same
   * left edge can fire an 'l' correction.
   */
  lemma LeftCorrection(last: Rect, b: Body, c: Cell, c2: Cell)
    requires LFires(last, b.rect, c) && c2.left == c.left
    ensures var r := StepL(last, b, c).rect;
      && r.Right() == c.left && r.Right() >= last.Right()
      && !LFires(last, r, c2)
  {
  }

  /** The mirror image for 'r'. */
  lemma RightCorrection(last: Rect, b: Body, c: Cell, c2: Cell)
    requires RFires(last, b.rect, c) && c2.right == c.right
    ensures var r := StepR(last, b, c).rect;
      && r.x == c.right && r.x <= last.x
      && !RFires(last, r, c2)
  {
  }

  /** A 'b' correction puts the top on the cell's bottom and stops vertical motion. */
  lemma HeadBump(last: Rect, b: Body, c: Cell)
    requires BFires(last, b.rect, c)
    ensures var r := StepB(last, b, c);
      r.rect.y == c.bottom && r.dy == 0.0 && r.resting == b.resting
  {
  }

  /** The gravity step: `min(MAX_FALL_SPEED, dy + GRAVITY * dt)`. */
  function Fall(dy: real, dt: real): (r: real)
    ensures r <= MAX_FALL_SPEED
    ensures r == MAX_FALL_SPEED || r == dy + GRAVITY * dt
    ensures r <= dy + GRAVITY * dt
  {
    MinReal(MAX_FALL_SPEED, dy + GRAVITY * dt)
  }

  /** The walking distance of one frame, `direction * SPEED * moving * dt`. */
  function WalkStep(direction: int, moving: int, dt: real): real {
    (direction as real) * PLAYER_SPEED * (moving as real) * dt
  }

  /** `rect.y += dy * dt`: the new top, the sum truncated when stored. */
  function FallTo(y: int, dy: real, dt: real): int {
    Trunc(y as real + dy * dt)
  }

  /**
   * The moved rectangle before corrections: x shifted by the truncated walking
   * distance, y by the fall distance with the sum truncated.
   */
  function Moved(last: Rect, direction: int, moving: int, dy: real, dt: real): (r: Rect)
    ensures r.w == last.w && r.h == last.h
  {
    last.(x := last.x + Trunc(WalkStep(direction, moving, dt)), y := FallTo(last.y, dy, dt))
  }

  /**
   * Standing still the player keeps its x; walking it moves the way it faces,
   * by at most the untruncated distance.
   */
  lemma WalkDirection(last: Rect, direction: int, moving: int, dy: real, dt: real)
    requires Rules.ValidDirection(direction) && Rules.ValidMoving(moving) && dt >= 0.0
    ensures var r := Moved(last, direction, moving, dy, dt);
      && (moving == Rules.STILL ==> r.x == last.x)
      && (moving == Rules.WALKING && direction == Rules.RIGHT ==>
            last.x <= r.x && (r.x - last.x) as real <= PLAYER_SPEED * dt)
      && (moving == Rules.WALKING && direction == Rules.LEFT ==>
            r.x <= last.x && (last.x - r.x) as real <= PLAYER_SPEED * dt)
  {
    var step := WalkStep(direction, moving, dt);
    TruncBounds(step);
    if moving == Rules.STILL {
      assert step == 0.0;
    } else if direction == Rules.RIGHT {
      assert step == PLAYER_SPEED * dt;
    } else {
      assert step == -(PLAYER_SPEED * dt);
    }
  }

  // ------------------------------------------------------------------ player

  class Player {
    var resting: bool
    var isDead: bool
    var gunCooldown: real
    var doubleJumped: bool
    var health: real
    var direction: int
    var moving: int
    var current: Rules.Animation
    var rect: Rect
    var jump: bool
    var shoot: bool
    var dy: real

    function JumpView(): Rules.JumpState
      reads this
    {
      Rules.JumpState(jump, resting, dy, doubleJumped)
    }

    function ShootView(): Rules.ShootState
      reads this
    {
      Rules.ShootState(shoot, gunCooldown)
    }

    ghost predicate Valid()
      reads this
    {
      Rules.ValidDirection(direction) && Rules.ValidMoving(moving) && gunCooldown >= 0.0
    }

    /** `Player(location)`; `size` is the size of the first frame. */
    constructor (location: (int, int), size: (nat, nat))
      ensures Valid()
      ensures !resting && !isDead && gunCooldown == 0.0 && !doubleJumped && health == MAX_HEALTH
      ensures direction == Rules.RIGHT && moving == Rules.STILL && current == Rules.FaceRight
      ensures rect == Rect(location.0, location.1, size.0, size.1)
      ensures !jump && !shoot && dy == 0.0
    {
      resting := false;
      isDead := false;
      gunCooldown := 0.0;
      doubleJumped := false;
      health := MAX_HEALTH;
      direction := Rules.RIGHT;
      moving := Rules.STILL;
      current := Rules.FaceRight;
      rect := Rect(location.0, location.1, size.0, size.1);
      jump := false;
      shoot := false;
      dy := 0.0;
    }

    /** `animate`: the current clip becomes the table's entry. */
    method Animate()
      requires Valid()
      modifies this`current
      ensures current == Rules.AnimationFor(direction, moving)
    {
      var next := Rules.AnimationFor(direction, moving);
      if next != current {
        current := next;
      }
    }

    /** `try_to_jump`, with the same gating as Rules.JumpGating. */
    method TryToJump() returns (jumped: bool)
      modifies this`jump, this`dy, this`doubleJumped
      ensures (JumpView(), jumped) == Rules.TryToJump(old(JumpView()))
      ensures jumped == Rules.JumpAllowed(old(JumpView()))
      ensures !jump
      ensures dy == if jumped then Rules.JUMP_SPEED else old(dy)
      ensures doubleJumped == if jumped then !resting else old(doubleJumped)
    {
      jumped := false;
      if jump {
        if resting {
          dy := Rules.JUMP_SPEED;
          jumped := true;
          doubleJumped := false;
        } else if dy > Rules.DOUBLE_JUMP_MIN_DY && !doubleJumped {
          dy := Rules.JUMP_SPEED;
          doubleJumped := true;
          jumped := true;
        }
        jump := false;
      }
    }

    /** `try_to_shoot`: `shot` is the Bullet spawned at the player's centre. */
    method TryToShoot() returns (shot: Option<Rules.Shot>)
      modifies this`shoot, this`gunCooldown
      ensures (ShootView(), shot) == Rules.TryToShoot(old(ShootView()), rect.Center(), direction)
      ensures shot == (if old(shoot) && old(gunCooldown) == 0.0 then Some(Rules.Shot(rect.Center(), direction)) else None)
      ensures !shoot
      ensures gunCooldown == if shot.Some? then Rules.COOLDOWN_TIME else old(gunCooldown)
    {
      shot := None;
      if shoot {
        if gunCooldown == 0.0 {
          shot := Some(Rules.Shot(rect.Center(), direction));
          gunCooldown := Rules.COOLDOWN_TIME;
        }
        shoot := false;
      }
    }

    /** `do_actions`: try to jump, then try to shoot. */
    method DoActions() returns (shot: Option<Rules.Shot>)
      modifies this`jump, this`dy, this`doubleJumped, this`shoot, this`gunCooldown
      ensures !jump && !shoot
      ensures dy == if Rules.JumpAllowed(old(JumpView())) then Rules.JUMP_SPEED else old(dy)
      ensures doubleJumped == if Rules.JumpAllowed(old(JumpView())) then !resting else old(doubleJumped)
      ensures shot == (if old(shoot) && old(gunCooldown) == 0.0 then Some(Rules.Shot(rect.Center(), direction)) else None)
      ensures gunCooldown == if shot.Some? then Rules.COOLDOWN_TIME else old(gunCooldown)
    {
      var _ := TryToJump();
      shot := TryToShoot();
    }

    /**
     * The blocker loop of `update`: each cell pushes the rectangle back
     * against the pre-move rectangle `last`; `g` is GRAVITY * dt.
     */
    method Block(last: Rect, cells: seq<Cell>, g: real)
      modifies this`rect, this`dy, this`resting, this`doubleJumped
      ensures Body(rect, dy, resting, doubleJumped) == Resolve(last, old(Body(rect, dy, resting, doubleJumped)), cells, g)
    {
      ghost var start := Body(rect, dy, resting, doubleJumped);
      for i := 0 to |cells|
        invariant Body(rect, dy, resting, doubleJumped) == Resolve(last, start, cells[..i], g)
      {
        var cell := cells[i];
        BlockLeft(last, cell);
        BlockRight(last, cell);
        BlockTop(last, cell, g);
        BlockBottom(last, cell);
        assert cells[..i + 1][..i] == cells[..i];
      }
      assert cells[..|cells|] == cells;
    }

    /** The 'l' test of one blocker iteration. */
    method BlockLeft(last: Rect, cell: Cell)
      modifies this`rect
      ensures Body(rect, dy, resting, doubleJumped) == StepL(last, old(Body(rect, dy, resting, doubleJumped)), cell)
    {
      if 'l' in cell.blockers && last.Right() <= cell.left && rect.Right() > cell.left {
        rect := rect.WithRight(cell.left);
      }
    }

    /** The 'r' test of one blocker iteration. */
    method BlockRight(last: Rect, cell: Cell)
      modifies this`rect
      ensures Body(rect, dy, resting, doubleJumped) == StepR(last, old(Body(rect, dy, resting, doubleJumped)), cell)
    {
      if 'r' in cell.blockers && last.x >= cell.right && rect.x < cell.right {
        rect := rect.(x := cell.right);
      }
    }

    /** The 't' test of one blocker iteration: a landing. */
    method BlockTop(last: Rect, cell: Cell, g: real)
      modifies this`rect, this`dy, this`resting, this`doubleJumped
      ensures Body(rect, dy, resting, doubleJumped) == StepT(last, old(Body(rect, dy, resting, doubleJumped)), cell, g)
    {
      if 't' in cell.blockers && last.Bottom() <= cell.top && rect.Bottom() > cell.top {
        resting := true;
        doubleJumped := false;
        rect := rect.WithBottom(cell.top);
        dy := g;
      }
    }

    /** The 'b' test of one blocker iteration: a head bump. */
    method BlockBottom(last: Rect, cell: Cell)
      modifies this`rect, this`dy
      ensures Body(rect, dy, resting, doubleJumped) == StepB(last, old(Body(rect, dy, resting, doubleJumped)), cell)
    {
      if 'b' in cell.blockers && last.y >= cell.bottom && rect.y < cell.bottom {
        rect := rect.(y := cell.bottom);
        dy := 0.0;
      }
    }

    /**
     * The movement half of `update`: walk, cool the gun down, fall, then the
     * blocker pass over `cells` (what the trigger layer's collide returns for
     * the moved rectangle and the 'blockers' property, in its order), then the
     * death check against the level's pixel height.
     */
    method Move(dt: real, cells: seq<Cell>, pxHeight: int)
      requires Valid()
      modifies this`rect, this`gunCooldown, this`dy, this`resting, this`doubleJumped, this`isDead
      ensures Valid()
      ensures gunCooldown == Rules.CoolDown(old(gunCooldown), dt)
      ensures var dy1 := Fall(old(dy), dt);
        Body(rect, dy, resting, doubleJumped) ==
          Resolve(old(rect), Body(Moved(old(rect), direction, moving, dy1, dt), dy1, false, old(doubleJumped)),
                  cells, GRAVITY * dt)
      ensures isDead == (old(isDead) || rect.x < -10 || rect.y > pxHeight)
    {
      var last := rect;
      rect := rect.(x := rect.x + Trunc(WalkStep(direction, moving, dt)));
      gunCooldown := if 0.0 >= gunCooldown - dt then 0.0 else gunCooldown - dt;
      dy := MinReal(MAX_FALL_SPEED, dy + GRAVITY * dt);
      rect := rect.(y := FallTo(rect.y, dy, dt));
      resting := false;
      assert rect == Moved(last, direction, moving, dy, dt);
      Block(last, cells, GRAVITY * dt);
      if rect.x < -10 || rect.y > pxHeight {
        isDead := true;
      }
    }

    /**
     * `update`: animation, jump and shoot, then the movement step. A shot
     * fired in this frame leaves the cooldown at max(0, COOLDOWN_TIME - dt).
     */
    method Update(dt: real, cells: seq<Cell>, pxHeight: int) returns (shot: Option<Rules.Shot>)
      requires Valid()
      modifies this`current, this`jump, this`shoot, this`rect, this`gunCooldown, this`dy,
        this`resting, this`doubleJumped, this`isDead
      ensures Valid()
      ensures current == Rules.AnimationFor(direction, moving)
      ensures !jump && !shoot
      ensures shot == (if old(shoot) && old(gunCooldown) == 0.0 then Some(Rules.Shot(old(rect).Center(), direction)) else None)
      ensures gunCooldown == Rules.CoolDown(if shot.Some? then Rules.COOLDOWN_TIME else old(gunCooldown), dt)
      ensures var jumped := Rules.JumpAllowed(old(JumpView()));
        var dy1 := Fall(if jumped then Rules.JUMP_SPEED else old(dy), dt);
        Body(rect, dy, resting, doubleJumped) ==
          Resolve(old(rect),
                  Body(Moved(old(rect), direction, moving, dy1, dt), dy1, false,
                       if jumped then !old(resting) else old(doubleJumped)),
                  cells, GRAVITY * dt)
      ensures isDead == (old(isDead) || rect.x < -10 || rect.y > pxHeight)
    {
      Animate();
      shot := DoActions();
      Move(dt, cells, pxHeight);
    }
  }

  // ------------------------------------------------------------------ sentry

  /** GAME.py's `Enemy`, the Sentry. */
  class Sentry {
    var rect: Rect
    var direction: int

    /** `Enemy(location)`; `size` is the size of its image. */
    constructor (location: (int, int), size: (nat, nat))
      ensures rect == Rect(location.0, location.1, size.0, size.1) && direction == 1
    {
      rect := Rect(location.0, location.1, size.0, size.1);
      direction := 1;
    }

    /**
     * `update`: walk by the truncated distance, turn round at the first
     * reverse cell (`reverse` is the trigger layer's collide result for the
     * moved rectangle and tag 'reverse'), then drain the player's health by
     * `dt` while touching it.
     */
    method Update(dt: real, reverse: seq<Cell>, player: Player)
      modifies this`rect, this`direction, player`health, player`isDead
      ensures var moved := rect.(x := old(rect).x + Trunc((old(direction) as real) * SENTRY_SPEED * dt));
        (rect, direction) == Rules.Reversed(moved, old(direction), reverse)
      ensures (player.health, player.isDead) ==
        (if Overlaps(rect, player.rect) then Drain(old(player.health), old(player.isDead), dt)
         else (old(player.health), old(player.isDead)))
    {
      rect := rect.(x := rect.x + Trunc((direction as real) * SENTRY_SPEED * dt));
      for i := 0 to |reverse|
        invariant i == 0
        invariant rect == old(rect).(x := old(rect).x + Trunc((old(direction) as real) * SENTRY_SPEED * dt))
        invariant direction == old(direction)
      {
        var cell := reverse[i];
        if direction > 0 {
          rect := rect.WithRight(cell.left);
        } else {
          rect := rect.(x := cell.right);
        }
        direction := -direction;
        break;
      }
      if Overlaps(rect, player.rect) {
        player.health := player.health - dt;
        if player.health < 0.0 {
          player.isDead := true;
        }
      }
    }
  }

  /** One frame of contact: health drops by `dt`, and death once it is below 0. */
  function Drain(health: real, isDead: bool, dt: real): (r: (real, bool))
    ensures r.0 == health - dt
    ensures r.1 <==> isDead || health - dt < 0.0
  {
    var h := health - dt;
    (h, isDead || h < 0.0)
  }

  /** Contact over several frames. */
  function DrainFrames(health: real, isDead: bool, dts: seq<real>): (real, bool)
    decreases |dts|
  {
    if dts == [] then (health, isDead)
    else
      var (h, d) := Drain(health, isDead, dts[0]);
      DrainFrames(h, d, dts[1..])
  }

  /**
   * Over frames of contact with non-negative dt, health falls by exactly the
   * total contact time, and the player is dead iff it was already or the
   * health ended below 0: death is never undone.
   */
  lemma {:induction false} DrainOverFrames(health: real, isDead: bool, dts: seq<real>)
    requires forall i :: 0 <= i < |dts| ==> dts[i] >= 0.0
    ensures var (h, d) := DrainFrames(health, isDead, dts);
      && h == health - Rules.Sum(dts)
      && (d <==> isDead || (|dts| > 0 && h < 0.0))
    decreases |dts|
  {
    if dts != [] {
      var (h1, d1) := Drain(health, isDead, dts[0]);
      DrainOverFrames(h1, d1, dts[1..]);
      Rules.SumNonNegative(dts[1..]);
    }
  }

  /**
   * With MAX_HEALTH 2, a player touching a Sentry survives two seconds of
   * contact and dies as soon as more than two seconds have accumulated.
   */
  lemma TwoSecondsOfContact(dts: seq<real>)
    requires forall i :: 0 <= i < |dts| ==> dts[i] >= 0.0
    ensures DrainFrames(MAX_HEALTH, false, dts).1 <==> Rules.Sum(dts) > 2.0
  {
    DrainOverFrames(MAX_HEALTH, false, dts);
    if dts != [] {
      Rules.SumNonNegative(dts);
    }
  }

  // ------------------------------------------------------------------ bullet

  /** The enemies a bullet at `r` leaves alive: every overlapping one is removed. */
  function Survivors(r: Rect, enemies: seq<Rect>): (s: seq<Rect>)
    ensures forall e <- s :: e in enemies && !Overlaps(r, e)
    ensures forall e <- enemies :: !Overlaps(r, e) ==> e in s
    ensures |s| <= |enemies|
    ensures |s| == |enemies| <==> forall e <- enemies :: !Overlaps(r, e)
    decreases |enemies|
  {
    if |enemies| == 0 then []
    else
      var rest := Survivors(r, enemies[1..]);
      assert enemies == [enemies[0]] + enemies[1..];
      if Overlaps(r, enemies[0]) then rest else [enemies[0]] + rest
  }

  /**
   * The kill keeps the layer's order: the survivors of a concatenation are the
   * survivors of each part in turn. With `SurvivorsOfOne` this makes
   * `Survivors` the order-preserving filter.
   */
  lemma {:induction false} SurvivorsConcat(r: Rect, a: seq<Rect>, b: seq<Rect>)
    ensures Survivors(r, a + b) == Survivors(r, a) + Survivors(r, b)
    decreases |a|
  {
    if |a| == 0 {
      assert a + b == b;
    } else {
      assert (a + b)[1..] == a[1..] + b;
      SurvivorsConcat(r, a[1..], b);
    }
  }

  /**
   * Each enemy that does not overlap survives as often as it was in the layer,
   * and no overlapping one survives: GAME.py's kill loses no bystander.
   */
  lemma {:induction false} SurvivorsCount(r: Rect, enemies: seq<Rect>)
    ensures forall e :: multiset(Survivors(r, enemies))[e] == if Overlaps(r, e) then 0 else multiset(enemies)[e]
    decreases |enemies|
  {
    if |enemies| > 0 {
      SurvivorsCount(r, enemies[1..]);
      assert enemies == [enemies[0]] + enemies[1..];
      assert multiset(enemies) == multiset{enemies[0]} + multiset(enemies[1..]);
    }
  }

  /** A single enemy survives iff it does not overlap. */
  lemma SurvivorsOfOne(r: Rect, e: Rect)
    ensures Survivors(r, [e]) == if Overlaps(r, e) then [] else [e]
  {
    assert [e][1..] == [];
  }

  class Bullet {
    var rect: Rect
    var direction: int
    var lifespan: real
    /** Whether the sprite still belongs to its groups (`kill` clears it). */
    var alive: bool

    /**
     * `Bullet(location, direction)`; `size` is the size of its image. Flying
     * right (direction > 0) its top-left is at `location`, otherwise its
     * right edge is at location's x.
     */
    constructor (location: (int, int), direction: int, size: (nat, nat))
      ensures direction > 0 ==> rect == Rect(location.0, location.1, size.0, size.1)
      ensures direction <= 0 ==>
        rect.Right() == location.0 && rect.y == location.1 && rect.w == size.0 && rect.h == size.1
      ensures this.direction == direction && lifespan == BULLET_LIFESPAN && alive
    {
      if direction > 0 {
        rect := Rect(location.0, location.1, size.0, size.1);
      } else {
        rect := Rect(location.0 - size.0, location.1, size.0, size.1);
      }
      this.direction := direction;
      lifespan := BULLET_LIFESPAN;
      alive := true;
    }

    /**
     * `update`: the lifespan drops by `dt`; past it the bullet is killed with
     * no move and no collision test. Otherwise it flies (stored truncated) and
     * `spritecollide(..., True)` kills every enemy it overlaps; the bullet is
     * killed iff there was at least one. `survivors` is the enemy group after.
     */
    method Update(dt: real, enemies: seq<Rect>) returns (survivors: seq<Rect>)
      modifies this`lifespan, this`alive, this`rect
      ensures lifespan == old(lifespan) - dt
      ensures lifespan < 0.0 ==> !alive && rect == old(rect) && survivors == enemies
      ensures lifespan >= 0.0 ==>
        && rect == old(rect).(x := Trunc(old(rect).x as real + (direction as real) * BULLET_SPEED * dt))
        && survivors == Survivors(rect, enemies)
        && (alive <==> old(alive) && forall e <- enemies :: !Overlaps(rect, e))
    {
      lifespan := lifespan - dt;
      if lifespan < 0.0 {
        alive := false;
        survivors := enemies;
        return;
      }
      rect := rect.(x := Trunc(rect.x as real + (direction as real) * BULLET_SPEED * dt));
      survivors := Survivors(rect, enemies);
      if |survivors| < |enemies| {
        alive := false;
      }
    }
  }

  // -------------------------------------------------------------- key events

  /** The player fields the event loop of `Game.main` writes. */
  datatype Controls = Controls(moving: int, direction: int, jump: bool, shoot: bool)

  /**
   * One event of `Game.main`'s loop; `None` means the game returns (window
   * closed or Escape). `held` is the keyboard snapshot taken before the events.
   */
  function ApplyEvent(c: Controls, held: set<Key>, ev: Event): Option<Controls> {
    match ev
    case Quit => None
    case KeyDown(k) =>
      if k == KEscape then None
      else if k == KLeft then Some(c.(moving := Rules.WALKING, direction := Rules.LEFT))
      else if k == KRight then Some(c.(moving := Rules.WALKING, direction := Rules.RIGHT))
      else if k == KSpace then Some(c.(jump := true))
      else if k == KLShift then Some(c.(shoot := true))
      else Some(c)
    case KeyUp(k) =>
      if k == KLeft then
        Some(if KRight in held then c.(moving := Rules.WALKING, direction := Rules.RIGHT) else c.(moving := Rules.STILL))
      else if k == KRight then
        Some(if KLeft in held then c.(moving := Rules.WALKING, direction := Rules.LEFT) else c.(moving := Rules.STILL))
      else Some(c)
    case OtherEvent => Some(c)
  }

  /** A frame's events in order, stopping at the first that makes the game return. */
  function ApplyEvents(c: Controls, held: set<Key>, evs: seq<Event>): Option<Controls>
    decreases |evs|
  {
    if evs == [] then Some(c)
    else match ApplyEvent(c, held, evs[0])
      case None => None
      case Some(c') => ApplyEvents(c', held, evs[1..])
  }

  /**
   * The event rules: Quit and Escape end the game; pressing an arrow walks
   * that way; releasing one keeps walking the other way if that arrow is held
   * and otherwise stops without turning; Space requests a jump and left Shift
   * a shot; nothing else changes anything.
   */
  lemma EventRules(c: Controls, held: set<Key>, k: Key)
    ensures ApplyEvent(c, held, Quit).None? && ApplyEvent(c, held, KeyDown(KEscape)).None?
    ensures ApplyEvent(c, held, KeyDown(KLeft)) == Some(c.(moving := Rules.WALKING, direction := Rules.LEFT))
    ensures ApplyEvent(c, held, KeyDown(KRight)) == Some(c.(moving := Rules.WALKING, direction := Rules.RIGHT))
    ensures KRight !in held ==> ApplyEvent(c, held, KeyUp(KLeft)) == Some(c.(moving := Rules.STILL))
    ensures KRight in held ==> ApplyEvent(c, held, KeyUp(KLeft)) == Some(c.(moving := Rules.WALKING, direction := Rules.RIGHT))
    ensures KLeft !in held ==> ApplyEvent(c, held, KeyUp(KRight)) == Some(c.(moving := Rules.STILL))
    ensures KLeft in held ==> ApplyEvent(c, held, KeyUp(KRight)) == Some(c.(moving := Rules.WALKING, direction := Rules.LEFT))
    ensures ApplyEvent(c, held, KeyDown(KSpace)) == Some(c.(jump := true))
    ensures ApplyEvent(c, held, KeyDown(KLShift)) == Some(c.(shoot := true))
    ensures k !in {KEscape, KLeft, KRight, KSpace, KLShift} ==> ApplyEvent(c, held, KeyDown(k)) == Some(c)
    ensures k !in {KLeft, KRight} ==> ApplyEvent(c, held, KeyUp(k)) == Some(c)
  {
  }

  /** Events after a Quit are never looked at. */
  lemma QuitStopsTheFrame(c: Controls, held: set<Key>, before: seq<Event>, after: seq<Event>)
    requires ApplyEvents(c, held, before).Some?
    ensures ApplyEvents(c, held, before + [Quit] + after).None?
    decreases |before|
  {
    if before != [] {
      assert (before + [Quit] + after)[1..] == before[1..] + [Quit] + after;
      QuitStopsTheFrame(ApplyEvent(c, held, before[0]).value, held, before[1..], after);
    } else {
      assert (before + [Quit] + after)[0] == Quit;
    }
  }

  /**
   * The event loop of `Game.main` for one frame: applies the events to the
   * player in order and reports whether the game returns.
   */
  method HandleEvents(player: Player, held: set<Key>, events: seq<Event>) returns (quit: bool)
    modifies player`moving, player`direction, player`jump, player`shoot
    ensures var r := ApplyEvents(old(Controls(player.moving, player.direction, player.jump, player.shoot)), held, events);
      && quit == r.None?
      && (r.Some? ==> Controls(player.moving, player.direction, player.jump, player.shoot) == r.value)
  {
    quit := false;
    var i := 0;
    while i < |events|
      invariant 0 <= i <= |events|
      invariant ApplyEvents(old(Controls(player.moving, player.direction, player.jump, player.shoot)), held, events)
             == ApplyEvents(Controls(player.moving, player.direction, player.jump, player.shoot), held, events[i..])
    {
      var ev := events[i];
      assert events[i..] == [ev] + events[i + 1..];
      match ev {
        case Quit =>
          quit := true;
          return;
        case KeyDown(k) =>
          if k == KEscape {
            quit := true;
            return;
          } else if k == KLeft {
            player.moving := Rules.WALKING;
            player.direction := Rules.LEFT;
          } else if k == KRight {
            player.moving := Rules.WALKING;
            player.direction := Rules.RIGHT;
          } else if k == KSpace {
            player.jump := true;
          } else if k == KLShift {
            player.shoot := true;
          }
        case KeyUp(k) =>
          if k == KLeft {
            if KRight in held {
              player.moving := Rules.WALKING;
              player.direction := Rules.RIGHT;
            } else {
              player.moving := Rules.STILL;
            }
          } else if k == KRight {
            if KLeft in held {
              player.moving := Rules.WALKING;
              player.direction := Rules.LEFT;
            } else {
              player.moving := Rules.STILL;
            }
          }
        case OtherEvent =>
      }
      i := i + 1;
    }
  }

  // ------------------------------------------------------------------- menus

  /**
   * `level_menu`'s reaction to a key once the menu (levels plus a final
   * 'Back') shows `position`: Return picks the level there, or the default on
   * 'Back'; Escape picks the default; any other key picks nothing yet.
   */
  function LevelMenuChoice(levels: seq<string>, position: nat, k: Key, default: string): (r: Option<string>)
    requires position <= |levels|
    ensures k == KEscape ==> r == Some(default)
    ensures k == KReturn && position == |levels| ==> r == Some(default)
    ensures k == KReturn && position < |levels| ==> r == Some(levels[position])
    ensures k != KReturn && k != KEscape ==> r.None?
  {
    if k == KReturn then
      if position == |levels| then Some(default) else Some(levels[position])
    else if k == KEscape then Some(default)
    else None
  }
}
