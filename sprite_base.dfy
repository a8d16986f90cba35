/**
 * lib/sprites/base.py: the discrete damage model shared by every sprite.
 * `hit` is applied by an attacker to a victim and gated by the victim's
 * invincibility timer `been_hit`; `update_hit_timer` counts that timer down.
 */
module SpriteBase {

  /** `x_multiplier` values. */
  const RUNNING: real := 1.5
  const NOT_RUNNING: real := 1.0
  /** Seconds of invincibility after being hit. */
  const BEEN_HIT_TIME: real := 1.0

  /**
   * The victim's side of a hit. `been_hit` starts as Python's False, which
   * compares and subtracts as 0, so it is modelled as the real 0.
   */
  datatype Vitals = Vitals(health: real, defense: real, beenHit: real, isDead: bool)

  /** `attacker.hit(other)`: the victim's vitals afterwards. */
  function Hit(attack: real, other: Vitals): Vitals
    requires other.defense != 0.0
  {
    if other.beenHit <= 0.0 then
      var health := other.health - attack / other.defense;
      Vitals(health, other.defense, BEEN_HIT_TIME, other.isDead || health <= 0.0)
    else other
  }

  /**
   * A hit is ignored while the timer runs; otherwise it lowers health by exactly
   * attack / defense, restarts the timer, kills the victim when health reaches 0,
   * and never revives one.
   */
  lemma HitEffect(attack: real, other: Vitals)
    requires other.defense != 0.0
    ensures var r := Hit(attack, other);
      && (other.beenHit > 0.0 ==> r == other)
      && (other.beenHit <= 0.0 ==>
            && r.health == other.health - attack / other.defense
            && r.beenHit == BEEN_HIT_TIME
            && r.defense == other.defense
            && (r.health <= 0.0 ==> r.isDead)
            && (r.isDead <==> other.isDead || r.health <= 0.0))
      && (other.isDead ==> r.isDead)
  {}

  /** Two hits with no timer update between them count once. */
  lemma HitTwiceCountsOnce(attack1: real, attack2: real, other: Vitals)
    requires other.defense != 0.0
    ensures Hit(attack2, Hit(attack1, other)) == Hit(attack1, other)
  {}

  /** `update_hit_timer`: `max(been_hit - dt, 0)`. */
  function UpdateHitTimer(beenHit: real, dt: real): (r: real)
    ensures r >= 0.0
    ensures r == 0.0 || r == beenHit - dt
    ensures r >= beenHit - dt
    ensures dt >= 0.0 ==> r <= beenHit || r == 0.0
    ensures beenHit <= 0.0 && dt >= 0.0 ==> r == 0.0
  {
    if beenHit - dt > 0.0 then beenHit - dt else 0.0
  }

  /**
   * `k` hits each followed by a timer update of BEEN_HIT_TIME seconds, so that
   * every one of them is applied.
   */
  function Barrage(attack: real, v: Vitals, k: nat): Vitals
    requires v.defense != 0.0
    decreases k
  {
    if k == 0 then v
    else
      var h := Hit(attack, v);
      Barrage(attack, h.(beenHit := UpdateHitTimer(h.beenHit, BEEN_HIT_TIME)), k - 1)
  }

  /**
   * With the timer expired before each hit, `k` hits lower health by exactly
   * k * attack / defense; the victim is dead iff it was, or some hit left its
   * health at or below 0.
   */
  lemma {:induction false} BarrageEffect(attack: real, v: Vitals, k: nat)
    requires v.defense > 0.0 && v.beenHit <= 0.0 && attack >= 0.0
    ensures var r := Barrage(attack, v, k);
      && r.health == v.health - (k as real) * (attack / v.defense)
      && r.defense == v.defense
      && (k > 0 ==> r.beenHit == 0.0)
      && (r.isDead <==> v.isDead || (k > 0 && r.health <= 0.0))
    decreases k
  {
    if k > 0 {
      var q := attack / v.defense;
      var h := Hit(attack, v);
      var v' := h.(beenHit := UpdateHitTimer(h.beenHit, BEEN_HIT_TIME));
      assert v'.health == v.health - q && v'.beenHit == 0.0;
      BarrageEffect(attack, v', k - 1);
      var r := Barrage(attack, v', k - 1);
      assert q >= 0.0;
      BarrageHealthFalls(v, v', k, q, r.health);
      assert r.health <= v'.health by {
        assert ((k - 1) as real) * q >= 0.0;
      }
    }
  }

  lemma BarrageHealthFalls(v: Vitals, v': Vitals, k: nat, q: real, last: real)
    requires k > 0
    requires v'.health == v.health - q
    requires last == v'.health - ((k - 1) as real) * q
    ensures last == v.health - (k as real) * q
  {}
}
