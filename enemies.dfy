/**
 * lib/sprites/enemies.py: the Knight. It moves by its inherited `move` step
 * (not part of this model, so `Update` receives it as a function), turns round
 * at the first `reverse` trigger cell it touches, and hits every vulnerable
 * player it overlaps with base.py's discrete `hit`.
 */
module Enemies {
  import opened Geometry
  import Rules
  import SpriteBase
  import Players

  const SPEED: real := 100.0
  /** The Knight's class attribute `attack`. */
  const ATTACK: real := 1.0
  const REVERSED_BY_BLOCKERS: bool := true

  /**
   * What one Knight update does to a player's vitals: a vulnerable player the
   * Knight's rectangle overlaps takes one hit, any other is untouched.
   */
  function Contact(knight: Rect, invincible: bool, player: Rect, v: SpriteBase.Vitals): (r: SpriteBase.Vitals)
    requires v.defense != 0.0
    ensures invincible || !Overlaps(knight, player) ==> r == v
    ensures !invincible && Overlaps(knight, player) ==> r == SpriteBase.Hit(ATTACK, v)
  {
    if !invincible && Overlaps(knight, player) then SpriteBase.Hit(ATTACK, v) else v
  }

  /**
   * A player listed twice is hit at most once in a Knight update: the first hit
   * starts its invincibility timer.
   */
  lemma ContactTwiceCountsOnce(knight: Rect, invincible: bool, player: Rect, v: SpriteBase.Vitals)
    requires v.defense != 0.0
    ensures Contact(knight, invincible, player, Contact(knight, invincible, player, v))
         == Contact(knight, invincible, player, v)
  {
    if !invincible && Overlaps(knight, player) {
      SpriteBase.HitTwiceCountsOnce(ATTACK, ATTACK, v);
    }
  }

  /**
   * A fresh refactored player (health MAX_HEALTH, defense 1) under Knight hits
   * that each land after the timer ran out stays alive for four of them and
   * dies with health exactly 0 on the fifth.
   */
  lemma FifthHitKills(k: nat)
    requires k <= 5
    ensures var v := SpriteBase.Barrage(ATTACK, SpriteBase.Vitals(Players.MAX_HEALTH, 1.0, 0.0, false), k);
      && (k < 5 ==> !v.isDead && v.health > 0.0)
      && (k == 5 ==> v.isDead && v.health == 0.0)
  {
    SpriteBase.BarrageEffect(ATTACK, SpriteBase.Vitals(Players.MAX_HEALTH, 1.0, 0.0, false), k);
  }

  class Knight {
    var rect: Rect
    var direction: int
    var moving: int
    var xMultiplier: real
    var isDead: bool
    var beenHit: real

    /** `Knight(location)`; `size` is the size of its image. */
    constructor (location: (int, int), size: (nat, nat))
      ensures direction == Rules.RIGHT && moving == Rules.WALKING && xMultiplier == 1.0
      ensures !isDead && beenHit == 0.0
      ensures rect == Rect(location.0, location.1, size.0, size.1)
    {
      // BaseSprite.__init__
      moving := Rules.WALKING;
      direction := Rules.RIGHT;
      isDead := false;
      beenHit := 0.0;
      // Knight.__init__
      xMultiplier := 1.0;
      direction := Rules.RIGHT;
      rect := Rect(location.0, location.1, size.0, size.1);
    }

    /** base.py `hit`, with this Knight as the attacker. */
    method Hit(other: Players.Player)
      requires other.defense != 0.0
      modifies other`health, other`beenHit, other`isDead
      ensures other.Vitals() == SpriteBase.Hit(ATTACK, old(other.Vitals()))
    {
      if other.beenHit <= 0.0 {
        other.health := other.health - ATTACK / other.defense;
        other.beenHit := SpriteBase.BEEN_HIT_TIME;
        if other.health <= 0.0 {
          other.isDead := true;
        }
      }
    }

    /**
     * `update`: move, then the first reverse cell turns the Knight round, then
     * every player that is not invincible and overlaps the Knight's new
     * rectangle is hit. `reverse` is what the trigger layer's collide returns
     * for the moved rectangle and tag 'reverse', in its order.
     */
    method Update(dt: real, move: (Rect, real) -> Rect, reverse: seq<Cell>, players: seq<Players.Player>)
      requires forall p <- players :: p.defense != 0.0
      modifies this`rect, this`direction
      modifies set p <- players :: p`health, set p <- players :: p`beenHit, set p <- players :: p`isDead
      ensures (rect, direction) == Rules.Reversed(move(old(rect), dt), old(direction), reverse)
      ensures forall p <- players ::
        p.Vitals() == Contact(rect, p.invincible, p.rect, old(p.Vitals()))
    {
      rect := move(rect, dt);
      for i := 0 to |reverse|
        invariant i == 0
        invariant rect == move(old(rect), dt) && direction == old(direction)
      {
        var cell := reverse[i];
        if direction > 0 {
          rect := rect.WithRight(cell.left);
        } else {
          rect := rect.(x := cell.right);
        }
        direction := -direction;
        break;
      }
      var j := 0;
      while j < |players|
        invariant 0 <= j <= |players|
        invariant (rect, direction) == Rules.Reversed(move(old(rect), dt), old(direction), reverse)
        invariant forall p <- players[..j] :: p.Vitals() == Contact(rect, p.invincible, p.rect, old(p.Vitals()))
        invariant forall p <- players :: p !in players[..j] ==> p.Vitals() == old(p.Vitals())
      {
        var player := players[j];
        ghost var before := player.Vitals();
        if !player.invincible && Overlaps(rect, player.rect) {
          Hit(player);
        }
        ContactTwiceCountsOnce(rect, player.invincible, player.rect, old(player.Vitals()));
        assert player.Vitals() == Contact(rect, player.invincible, player.rect, before);
        assert players[..j + 1] == players[..j] + [player];
        j := j + 1;
      }
    }
  }
}
