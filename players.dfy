/**
 * lib/sprites/players.py: the refactored player. Its movement step `move` is
 * inherited from a class that is not part of this model, so `Update` receives
 * it as a function of the body and `dt`.
 */
module Players {
  import opened Wrappers
  import opened Geometry
  import opened Input
  import Rules
  import SpriteBase

  const MAX_HEALTH: real := 5.0
  /** Player's left and right speed in pixels per second (used by `move`). */
  const SPEED: real := 200.0

  class Player {
    // key bindings, from `init_keys`
    var kLeft: Key
    var kRight: Key
    var kJump: Key
    var kShoot: Key
    var kInvincible: Key

    // state, from `init_state` and the constructors
    var resting: bool
    var gunCooldown: real
    var doubleJumped: bool
    var health: real
    var direction: int
    var moving: int
    var running: real
    var jump: bool
    var shoot: bool
    var invincible: bool
    /** Set only by the game's key handling; absent until the first shoot key. */
    var xMultiplier: Option<real>
    var dy: real
    var defense: real
    var current: Rules.Animation
    var rect: Rect
    var isDead: bool
    var beenHit: real

    function Keys(): KeyMap
      reads this
    {
      KeyMap(kLeft, kRight, kJump, kShoot, kInvincible)
    }

    function Vitals(): SpriteBase.Vitals
      reads this
    {
      SpriteBase.Vitals(health, defense, beenHit, isDead)
    }

    function JumpView(): Rules.JumpState
      reads this
    {
      Rules.JumpState(jump, resting, dy, doubleJumped)
    }

    function ShootView(): Rules.ShootState
      reads this
    {
      Rules.ShootState(shoot, gunCooldown)
    }

    /**
     * What every player keeps: a facing and a moving value the animation table
     * has, a non-negative cooldown, a hit timer that is never negative, a
     * positive defense, and no health at or below 0 on a living player.
     */
    ghost predicate Valid()
      reads this
    {
      && Rules.ValidDirection(direction)
      && Rules.ValidMoving(moving)
      && gunCooldown >= 0.0
      && beenHit >= 0.0
      && defense > 0.0
      && (health <= 0.0 ==> isDead)
    }

    /** `Player(location, keymap, character)`; `size` is the first frame's size. */
    constructor (location: (int, int), keymap: KeyMap, size: (nat, nat))
      ensures Valid()
      ensures Keys() == keymap
      ensures !resting && !doubleJumped && !jump && !shoot && !invincible
      ensures gunCooldown == 0.0 && health == MAX_HEALTH
      ensures direction == Rules.RIGHT && moving == Rules.STILL && running == SpriteBase.NOT_RUNNING
      ensures xMultiplier.None?
      ensures dy == 0.0 && defense == 1.0 && beenHit == 0.0 && !isDead
      ensures current == Rules.FaceRight
      ensures rect == Rect(location.0, location.1, size.0, size.1)
    {
      // BaseSprite.__init__
      moving := Rules.WALKING;
      direction := Rules.RIGHT;
      isDead := false;
      beenHit := 0.0;
      xMultiplier := None;
      new;
      InitKeys(keymap);
      InitState();
      dy := 0.0;
      defense := 1.0;
      current := Rules.FaceRight;
      rect := Rect(location.0, location.1, size.0, size.1);
    }

    /** `init_keys`: copies the five bindings. */
    method InitKeys(keymap: KeyMap)
      modifies this`kLeft, this`kRight, this`kJump, this`kShoot, this`kInvincible
      ensures Keys() == keymap
    {
      kLeft := keymap.left;
      kRight := keymap.right;
      kJump := keymap.jump;
      kShoot := keymap.shoot;
      kInvincible := keymap.invincible;
    }

    /** `init_state`: a player standing still, facing right, at full health. */
    method InitState()
      modifies this`resting, this`gunCooldown, this`doubleJumped, this`health, this`direction,
        this`moving, this`running, this`jump, this`shoot, this`invincible
      ensures !resting && !doubleJumped && !jump && !shoot && !invincible
      ensures gunCooldown == 0.0 && health == MAX_HEALTH
      ensures direction == Rules.RIGHT && moving == Rules.STILL && running == SpriteBase.NOT_RUNNING
    {
      resting := false;
      gunCooldown := 0.0;
      doubleJumped := false;
      health := MAX_HEALTH;
      direction := Rules.RIGHT;
      moving := Rules.STILL;
      running := SpriteBase.NOT_RUNNING;
      jump := false;
      shoot := false;
      invincible := false;
    }

    /** base.py `animate`: the current clip becomes the table's entry. */
    method Animate()
      requires Valid()
      modifies this`current
      ensures current == Rules.AnimationFor(direction, moving)
    {
      var next := Rules.AnimationFor(direction, moving);
      if next != current {
        current := next;
      }
    }

    /** base.py `update_hit_timer`. */
    method UpdateHitTimer(dt: real)
      modifies this`beenHit
      ensures beenHit == SpriteBase.UpdateHitTimer(old(beenHit), dt)
    {
      beenHit := if beenHit - dt > 0.0 then beenHit - dt else 0.0;
    }

    /**
     * `try_to_jump` (see Rules.JumpGating for the same rule as a function);
     * `jumped` is when the jump sound plays.
     */
    method TryToJump() returns (jumped: bool)
      modifies this`jump, this`dy, this`doubleJumped
      ensures (JumpView(), jumped) == Rules.TryToJump(old(JumpView()))
      ensures jumped == Rules.JumpAllowed(old(JumpView()))
      ensures !jump
      ensures dy == if jumped then Rules.JUMP_SPEED else old(dy)
      ensures doubleJumped == if jumped then !resting else old(doubleJumped)
    {
      jumped := false;
      if jump {
        if resting {
          dy := Rules.JUMP_SPEED;
          jumped := true;
          doubleJumped := false;
        } else if dy > Rules.DOUBLE_JUMP_MIN_DY && !doubleJumped {
          dy := Rules.JUMP_SPEED;
          doubleJumped := true;
          jumped := true;
        }
        jump := false;
      }
    }

    /**
     * `try_to_shoot` (see Rules.ShootGating); `shot` is the bullet it spawns at
     * the player's centre, facing the player's way.
     */
    method TryToShoot() returns (shot: Option<Rules.Shot>)
      modifies this`shoot, this`gunCooldown
      ensures (ShootView(), shot) == Rules.TryToShoot(old(ShootView()), rect.Center(), direction)
      ensures shot == (if old(shoot) && old(gunCooldown) == 0.0 then Some(Rules.Shot(rect.Center(), direction)) else None)
      ensures !shoot
      ensures gunCooldown == if shot.Some? then Rules.COOLDOWN_TIME else old(gunCooldown)
    {
      shot := None;
      if shoot {
        if gunCooldown == 0.0 {
          shot := Some(Rules.Shot(rect.Center(), direction));
          gunCooldown := Rules.COOLDOWN_TIME;
        }
        shoot := false;
      }
    }

    /** `do_actions`: try to jump, then try to shoot. */
    method DoActions() returns (shot: Option<Rules.Shot>)
      modifies this`jump, this`dy, this`doubleJumped, this`shoot, this`gunCooldown
      ensures !jump && !shoot
      ensures dy == if Rules.JumpAllowed(old(JumpView())) then Rules.JUMP_SPEED else old(dy)
      ensures doubleJumped == if Rules.JumpAllowed(old(JumpView())) then !resting else old(doubleJumped)
      ensures shot == (if old(shoot) && old(gunCooldown) == 0.0 then Some(Rules.Shot(rect.Center(), direction)) else None)
      ensures gunCooldown == if shot.Some? then Rules.COOLDOWN_TIME else old(gunCooldown)
    {
      var _ := TryToJump();
      shot := TryToShoot();
    }

    /**
     * The first half of `update`, before the move: animation, hit timer, jump
     * and shoot, then the cooldown decays by `dt` (never below 0).
     */
    method Prepare(dt: real) returns (shot: Option<Rules.Shot>)
      requires Valid()
      modifies this`current, this`beenHit, this`jump, this`dy, this`doubleJumped, this`shoot,
        this`gunCooldown
      ensures Valid()
      ensures current == Rules.AnimationFor(old(direction), old(moving))
      ensures beenHit == SpriteBase.UpdateHitTimer(old(beenHit), dt)
      ensures !jump && !shoot
      ensures shot == (if old(shoot) && old(gunCooldown) == 0.0 then Some(Rules.Shot(old(rect).Center(), old(direction))) else None)
      ensures gunCooldown == Rules.CoolDown(if shot.Some? then Rules.COOLDOWN_TIME else old(gunCooldown), dt)
      ensures dy == if Rules.JumpAllowed(old(JumpView())) then Rules.JUMP_SPEED else old(dy)
      ensures doubleJumped == if Rules.JumpAllowed(old(JumpView())) then !resting else old(doubleJumped)
    {
      Animate();
      UpdateHitTimer(dt);
      shot := DoActions();
      gunCooldown := if 0.0 >= gunCooldown - dt then 0.0 else gunCooldown - dt;
    }

    /**
     * `update`: animation, hit timer, jump and shoot, cooldown decay, the move
     * step, and the death check on the moved rectangle (`pxHeight` is the
     * level's pixel height). A shot fired in this frame leaves the cooldown at
     * max(0, COOLDOWN_TIME - dt). Health, defense, invincibility, facing,
     * running, the key bindings and the shot multiplier are outside its frame.
     */
    method Update(dt: real, pxHeight: int, move: (Body, real) -> Body) returns (shot: Option<Rules.Shot>)
      requires Valid()
      modifies this`current, this`beenHit, this`jump, this`dy, this`doubleJumped, this`shoot,
        this`gunCooldown, this`rect, this`resting, this`isDead
      ensures Valid()
      ensures current == Rules.AnimationFor(old(direction), old(moving))
      ensures beenHit == SpriteBase.UpdateHitTimer(old(beenHit), dt)
      ensures !jump && !shoot
      ensures shot == (if old(shoot) && old(gunCooldown) == 0.0 then Some(Rules.Shot(old(rect).Center(), old(direction))) else None)
      ensures gunCooldown == Rules.CoolDown(if shot.Some? then Rules.COOLDOWN_TIME else old(gunCooldown), dt)
      ensures var jumped := Rules.JumpAllowed(old(JumpView()));
        Body(rect, dy, resting, doubleJumped) ==
          move(Body(old(rect), if jumped then Rules.JUMP_SPEED else old(dy), old(resting),
                    if jumped then !old(resting) else old(doubleJumped)), dt)
      ensures isDead == (old(isDead) || rect.x < -10 || rect.y > pxHeight)
    {
      shot := Prepare(dt);
      var moved := move(Body(rect, dy, resting, doubleJumped), dt);
      rect, dy, resting, doubleJumped := moved.rect, moved.dy, moved.resting, moved.doubleJumped;
      if rect.x < -10 || rect.y > pxHeight {
        isDead := true;
      }
    }
  }
}
