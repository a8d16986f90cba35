/**
 * game.py: the refactored game. `change_state` turns one key event into
 * intents on every player through that player's own key bindings; the main
 * loop creates one or two players and, at the end of every tick, ends the game
 * on a dead player before it looks at the level exit.
 */
module Platformer {
  import opened Wrappers
  import opened Geometry
  import opened Input
  import Rules
  import SpriteBase
  import Players

  const GRAVITY: real := 2000.0
  const FPS: nat := 60
  const LIFEBAR_LENGTH: nat := 250
  const LIFEBAR_WIDTH: nat := 10

  /** The player fields `change_state` writes. */
  datatype Controls = Controls(
    moving: int, direction: int, jump: bool, shoot: bool,
    xMultiplier: Option<real>, invincible: bool)

  function ControlsOf(p: Players.Player): Controls
    reads p
  {
    Controls(p.moving, p.direction, p.jump, p.shoot, p.xMultiplier, p.invincible)
  }

  /**
   * What `change_state` does to one player with bindings `km`; `held` is the
   * keyboard snapshot. The bindings are tested in the order left, right, jump,
   * shoot, invincible, and the first that matches decides.
   */
  function ApplyKey(km: KeyMap, c: Controls, held: set<Key>, ev: Event): Controls {
    match ev
    case KeyDown(k) =>
      if k == km.left then c.(moving := Rules.WALKING, direction := Rules.LEFT)
      else if k == km.right then c.(moving := Rules.WALKING, direction := Rules.RIGHT)
      else if k == km.jump then c.(jump := true)
      else if k == km.shoot then c.(xMultiplier := Some(SpriteBase.RUNNING), shoot := true)
      else if k == km.invincible then c.(invincible := !c.invincible)
      else c
    case KeyUp(k) =>
      if k == km.left then
        (if km.right in held then c.(moving := Rules.WALKING, direction := Rules.RIGHT) else c.(moving := Rules.STILL))
      else if k == km.right then
        (if km.left in held then c.(moving := Rules.WALKING, direction := Rules.LEFT) else c.(moving := Rules.STILL))
      else if k == km.shoot then c.(xMultiplier := Some(SpriteBase.NOT_RUNNING))
      else c
    case _ => c
  }

  /** The five bindings of a key map are five different keys. */
  predicate Distinct(km: KeyMap) {
    && km.left != km.right && km.left != km.jump && km.left != km.shoot && km.left != km.invincible
    && km.right != km.jump && km.right != km.shoot && km.right != km.invincible
    && km.jump != km.shoot && km.jump != km.invincible
    && km.shoot != km.invincible
  }

  /**
   * The direction keys: pressing one walks that way; releasing one walks the
   * other way if that key is held, and otherwise stops without turning.
   */
  lemma DirectionKeys(km: KeyMap, c: Controls, held: set<Key>)
    requires Distinct(km)
    ensures ApplyKey(km, c, held, KeyDown(km.left)) == c.(moving := Rules.WALKING, direction := Rules.LEFT)
    ensures ApplyKey(km, c, held, KeyDown(km.right)) == c.(moving := Rules.WALKING, direction := Rules.RIGHT)
    ensures ApplyKey(km, c, held, KeyUp(km.left)) ==
      if km.right in held then c.(moving := Rules.WALKING, direction := Rules.RIGHT) else c.(moving := Rules.STILL)
    ensures ApplyKey(km, c, held, KeyUp(km.right)) ==
      if km.left in held then c.(moving := Rules.WALKING, direction := Rules.LEFT) else c.(moving := Rules.STILL)
  {
  }

  /**
   * The action keys: jump requests a jump; shoot requests a shot and runs,
   * and releasing it stops running; invincibility toggles, so pressing it
   * twice restores the original value.
   */
  lemma ActionKeys(km: KeyMap, c: Controls, held: set<Key>)
    requires Distinct(km)
    ensures ApplyKey(km, c, held, KeyDown(km.jump)) == c.(jump := true)
    ensures ApplyKey(km, c, held, KeyDown(km.shoot)) == c.(xMultiplier := Some(SpriteBase.RUNNING), shoot := true)
    ensures ApplyKey(km, c, held, KeyUp(km.shoot)) == c.(xMultiplier := Some(SpriteBase.NOT_RUNNING))
    ensures ApplyKey(km, c, held, KeyDown(km.invincible)).invincible == !c.invincible
    ensures ApplyKey(km, ApplyKey(km, c, held, KeyDown(km.invincible)), held, KeyDown(km.invincible)) == c
  {
  }

  /** A player reacts only through its own bindings: any other key changes nothing. */
  lemma OtherKeysIgnored(km: KeyMap, c: Controls, held: set<Key>, ev: Event)
    requires !(ev.KeyDown? || ev.KeyUp?) || ev.key !in {km.left, km.right, km.jump, km.shoot, km.invincible}
    ensures ApplyKey(km, c, held, ev) == c
  {
  }

  /**
   * The stock bindings are well formed, and the invincibility key they share
   * toggles both players with one press while each player's own keys leave the
   * other player alone.
   */
  lemma SharedInvincibleKey(c1: Controls, c2: Controls, held: set<Key>, k: Key)
    ensures Distinct(KM1) && Distinct(KM2)
    ensures ApplyKey(KM1, c1, held, KeyDown(KI)).invincible == !c1.invincible
    ensures ApplyKey(KM2, c2, held, KeyDown(KI)).invincible == !c2.invincible
    ensures k in {KM1.left, KM1.right, KM1.jump, KM1.shoot} ==> ApplyKey(KM2, c2, held, KeyDown(k)) == c2
    ensures k in {KM2.left, KM2.right, KM2.jump, KM2.shoot} ==> ApplyKey(KM1, c1, held, KeyDown(k)) == c1
  {
  }

  /** Key handling only ever faces a player left or right and sets it still or walking. */
  lemma ApplyKeyKeepsValid(km: KeyMap, c: Controls, held: set<Key>, ev: Event)
    requires Rules.ValidDirection(c.direction) && Rules.ValidMoving(c.moving)
    ensures Rules.ValidDirection(ApplyKey(km, c, held, ev).direction)
    ensures Rules.ValidMoving(ApplyKey(km, c, held, ev).moving)
  {
  }

  /** The events the main loop handles itself: both end the game. */
  predicate Quits(ev: Event) {
    ev.Quit? || ev == KeyDown(KEscape)
  }

  /**
   * One frame's events as `main` dispatches them to one player: every event
   * before the first Quit or Escape goes to `change_state`; the second
   * component says whether the frame ended the game.
   */
  function Dispatch(km: KeyMap, c: Controls, held: set<Key>, events: seq<Event>): (r: (Controls, bool))
    decreases |events|
  {
    if |events| == 0 then (c, false)
    else if Quits(events[0]) then (c, true)
    else Dispatch(km, ApplyKey(km, c, held, events[0]), held, events[1..])
  }

  /** A frame ends the game exactly when one of its events is Quit or Escape. */
  lemma {:induction false} DispatchQuits(km: KeyMap, c: Controls, held: set<Key>, events: seq<Event>)
    ensures Dispatch(km, c, held, events).1 <==> exists ev <- events :: Quits(ev)
    decreases |events|
  {
    if |events| > 0 {
      assert events[0] in events;
      if !Quits(events[0]) {
        DispatchQuits(km, ApplyKey(km, c, held, events[0]), held, events[1..]);
        assert events == [events[0]] + events[1..];
      }
    }
  }

  /** Nothing after the first quitting event reaches the players. */
  lemma {:induction false} DispatchStopsAtQuit(km: KeyMap, c: Controls, held: set<Key>,
                                               before: seq<Event>, q: Event, after: seq<Event>)
    requires Quits(q)
    ensures Dispatch(km, c, held, before + [q] + after) == Dispatch(km, c, held, before + [q])
    decreases |before|
  {
    if |before| > 0 {
      assert (before + [q] + after)[1..] == before[1..] + [q] + after;
      assert (before + [q])[1..] == before[1..] + [q];
      DispatchStopsAtQuit(km, ApplyKey(km, c, held, before[0]), held, before[1..], q, after);
    } else {
      assert (before + [q] + after)[0] == q && (before + [q])[0] == q;
    }
  }

  /** The body of `change_state`'s loop: one player's reaction to one event. */
  method React(p: Players.Player, held: set<Key>, ev: Event)
    requires p.Valid()
    modifies p`moving, p`direction, p`jump, p`shoot, p`xMultiplier, p`invincible
    ensures p.Valid()
    ensures ControlsOf(p) == ApplyKey(p.Keys(), old(ControlsOf(p)), held, ev)
  {
    match ev {
      case KeyDown(k) =>
        if k == p.kLeft {
          p.moving := Rules.WALKING;
          p.direction := Rules.LEFT;
        } else if k == p.kRight {
          p.moving := Rules.WALKING;
          p.direction := Rules.RIGHT;
        } else if k == p.kJump {
          p.jump := true;
        } else if k == p.kShoot {
          p.xMultiplier := Some(SpriteBase.RUNNING);
          p.shoot := true;
        } else if k == p.kInvincible {
          p.invincible := !p.invincible;
        }
      case KeyUp(k) =>
        if k == p.kLeft {
          if p.kRight in held {
            p.moving := Rules.WALKING;
            p.direction := Rules.RIGHT;
          } else {
            p.moving := Rules.STILL;
          }
        } else if k == p.kRight {
          if p.kLeft in held {
            p.moving := Rules.WALKING;
            p.direction := Rules.LEFT;
          } else {
            p.moving := Rules.STILL;
          }
        } else if k == p.kShoot {
          p.xMultiplier := Some(SpriteBase.NOT_RUNNING);
        }
      case _ =>
    }
  }

  /** How a tick ends. */
  datatype Outcome = Died | Beaten | Continue

  class Game {
    var players: seq<Players.Player>
    var levelBeaten: bool

    /** The players are different objects, each in a valid state. */
    ghost predicate Valid()
      reads this, players
    {
      && (forall i, j :: 0 <= i < j < |players| ==> players[i] != players[j])
      && (forall p <- players :: p.Valid())
    }

    /**
     * The player set-up of `main`: one player on the first key map at the
     * start cell, and a second on the other key map only when `count` is 2.
     * `size` is the size of the character's first frame.
     */
    constructor (count: int, start: (int, int), size: (nat, nat))
      ensures Valid() && !levelBeaten
      ensures |players| == if count == 2 then 2 else 1
      ensures players[0].Keys() == KM1
      ensures count == 2 ==> players[1].Keys() == KM2
      ensures forall p <- players :: fresh(p) && p.health == Players.MAX_HEALTH && !p.isDead
      ensures forall p <- players :: p.rect == Rect(start.0, start.1, size.0, size.1)
    {
      levelBeaten := false;
      var p1 := new Players.Player(start, KM1, size);
      var ps := [p1];
      if count == 2 {
        var p2 := new Players.Player(start, KM2, size);
        ps := ps + [p2];
      }
      players := ps;
    }

    /** `change_state`: one event, applied to every player in turn. */
    method ChangeState(held: set<Key>, ev: Event)
      requires Valid()
      modifies players`moving, players`direction, players`jump, players`shoot
      modifies players`xMultiplier, players`invincible
      ensures Valid()
      ensures forall p <- players :: ControlsOf(p) == ApplyKey(p.Keys(), old(ControlsOf(p)), held, ev)
    {
      for i := 0 to |players|
        invariant Valid()
        invariant forall p <- players[..i] :: ControlsOf(p) == ApplyKey(p.Keys(), old(ControlsOf(p)), held, ev)
        invariant forall p <- players[i..] :: ControlsOf(p) == old(ControlsOf(p))
      {
        var player := players[i];
        assert player !in players[..i] && player !in players[i + 1..];
        React(player, held, ev);
        assert players[..i + 1] == players[..i] + [player];
        assert players[i..] == [player] + players[i + 1..];
      }
    }

    /**
     * The event loop of one tick in `main`: a Quit or Escape event ends the game
     * at once (`quit`); every other event goes to `change_state` in order.
     */
    method HandleEvents(held: set<Key>, events: seq<Event>) returns (quit: bool)
      requires Valid()
      modifies players`moving, players`direction, players`jump, players`shoot
      modifies players`xMultiplier, players`invincible
      ensures Valid()
      ensures quit == exists ev <- events :: Quits(ev)
      ensures forall p <- players :: ControlsOf(p) == Dispatch(p.Keys(), old(ControlsOf(p)), held, events).0
    {
      for i := 0 to |events|
        invariant Valid()
        invariant forall ev <- events[..i] :: !Quits(ev)
        invariant forall p <- players ::
          Dispatch(p.Keys(), old(ControlsOf(p)), held, events) == Dispatch(p.Keys(), ControlsOf(p), held, events[i..])
      {
        assert events[i..] == [events[i]] + events[i + 1..];
        if Quits(events[i]) {
          assert events[i] in events;
          return true;
        }
        ChangeState(held, events[i]);
        assert events[..i + 1] == events[..i] + [events[i]];
      }
      assert events[..|events|] == events;
      return false;
    }

    /**
     * The end of a tick in `main`: the game ends as soon as a player is dead,
     * before any exit check. Otherwise, only on a level whose 'type' property
     * is 'exit', a player touching an exit cell beats the level (`exits[i]` is
     * what the trigger layer's collide returns for player i and tag 'exit').
     */
    method EndOfTick(properties: map<string, string>, exits: seq<seq<Cell>>) returns (outcome: Outcome)
      requires |exits| == |players|
      modifies this`levelBeaten
      ensures outcome == Died <==> exists p <- players :: p.isDead
      ensures outcome == Died ==> levelBeaten == old(levelBeaten)
      ensures outcome != Died ==>
        levelBeaten == (old(levelBeaten) ||
          ("type" in properties && properties["type"] == "exit" && exists e <- exits :: |e| > 0))
      ensures outcome == Beaten <==> outcome != Died && levelBeaten
    {
      for i := 0 to |players|
        invariant forall p <- players[..i] :: !p.isDead
      {
        if players[i].isDead {
          return Died;
        }
        assert players[..i + 1] == players[..i] + [players[i]];
      }
      assert players[..|players|] == players;
      if "type" in properties && properties["type"] == "exit" {
        for i := 0 to |players|
          invariant levelBeaten == (old(levelBeaten) || exists e <- exits[..i] :: |e| > 0)
        {
          if |exits[i]| > 0 {
            levelBeaten := true;
          }
          assert exits[..i + 1] == exits[..i] + [exits[i]];
        }
        assert exits[..|exits|] == exits;
      }
      if levelBeaten {
        return Beaten;
      }
      return Continue;
    }
  }
}
