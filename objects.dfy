/**
 * lib/sprites/objects.py: the refactored Bullet. It lives LIFESPAN seconds,
 * moves by its inherited `move` step (not part of this model, so `Update`
 * receives it as a function), and on contact kills only the nearest enemy it
 * touches: the one with least x when flying right, greatest x when flying
 * left, chosen through a stable sort on x.
 */
module Objects {
  import opened Geometry
  import Rules

  const SPEED: real := 500.0
  /** Seconds a bullet lives. */
  const LIFESPAN: real := 1.0
  const AFFECTED_BY_BLOCKERS: bool := false
  const AFFECTED_BY_GRAVITY: bool := false

  /**
   * One sprite returned by `spritecollide`: its position in the enemy group
   * and the x of its rectangle (the sort key).
   */
  datatype Target = Target(pos: nat, x: int)

  /** Positions strictly increase: the group's own order, as spritecollide keeps it. */
  ghost predicate Increasing(s: seq<Target>) {
    forall i, j :: 0 <= i < j < |s| ==> s[i].pos < s[j].pos
  }

  /** Ordered by x, and by position among equal x. */
  predicate LexLe(a: Target, b: Target) {
    a.x < b.x || (a.x == b.x && a.pos <= b.pos)
  }

  ghost predicate LexSorted(s: seq<Target>) {
    forall i, j :: 0 <= i < j < |s| ==> LexLe(s[i], s[j])
  }

  ghost predicate SortedByX(s: seq<Target>) {
    forall i, j :: 0 <= i < j < |s| ==> s[i].x <= s[j].x
  }

  /**
   * `spritecollide(bullet, enemies, False)`: the enemies whose rectangles
   * overlap `r`, in group order.
   */
  function Collided(r: Rect, enemies: seq<Rect>): (c: seq<Target>)
    ensures forall t <- c :: t.pos < |enemies| && t.x == enemies[t.pos].x && Overlaps(r, enemies[t.pos])
    ensures forall i :: 0 <= i < |enemies| && Overlaps(r, enemies[i]) ==> Target(i, enemies[i].x) in c
    ensures Increasing(c)
  {
    if |enemies| == 0 then []
    else
      var last := |enemies| - 1;
      var front := Collided(r, enemies[..last]);
      assert forall i :: 0 <= i < last ==> enemies[..last][i] == enemies[i];
      front + (if Overlaps(r, enemies[last]) then [Target(last, enemies[last].x)] else [])
  }

  /** Insert `h` in front of the first element whose x is at least h's. */
  function Insert(h: Target, s: seq<Target>): (r: seq<Target>)
    ensures multiset(r) == multiset(s) + multiset{h}
    ensures |r| == |s| + 1
  {
    if |s| == 0 then [h]
    else if s[0].x >= h.x then [h] + s
    else
      assert s == [s[0]] + s[1..];
      [s[0]] + Insert(h, s[1..])
  }

  /** Python's `sorted(sprites, key=lambda s: s.rect.x)`: a stable sort on x. */
  function Sort(s: seq<Target>): (r: seq<Target>)
    ensures multiset(r) == multiset(s)
    ensures |r| == |s|
  {
    if |s| == 0 then []
    else
      assert s == [s[0]] + s[1..];
      Insert(s[0], Sort(s[1..]))
  }

  lemma {:induction false} InsertSorted(h: Target, s: seq<Target>)
    requires LexSorted(s)
    requires forall t <- s :: h.pos < t.pos
    ensures LexSorted(Insert(h, s))
    decreases |s|
  {
    if |s| > 0 && s[0].x < h.x {
      assert s == [s[0]] + s[1..];
      InsertSorted(h, s[1..]);
      var tail := Insert(h, s[1..]);
      forall t | t in tail
        ensures LexLe(s[0], t)
      {
        assert t in multiset(tail);
        assert t in multiset(s[1..]) + multiset{h};
        if t != h {
          assert t in s[1..];
        }
      }
    }
  }

  /**
   * The sort's result, for a collision list in group order, is ordered by x
   * and, among equal x, by group order: the sort is stable.
   */
  lemma {:induction false} SortStable(s: seq<Target>)
    requires Increasing(s)
    ensures LexSorted(Sort(s))
    ensures SortedByX(Sort(s))
    decreases |s|
  {
    if |s| > 0 {
      assert s == [s[0]] + s[1..];
      SortStable(s[1..]);
      var rest := Sort(s[1..]);
      forall t | t in rest
        ensures s[0].pos < t.pos
      {
        assert t in multiset(rest);
        assert t in s[1..];
      }
      InsertSorted(s[0], rest);
    }
  }

  /**
   * The enemy `kill_nearest` picks: the first of the sorted list when flying
   * right, the last otherwise.
   */
  function Nearest(direction: int, collided: seq<Target>): (t: Target)
    requires |collided| > 0
    ensures t in collided
  {
    var sorted := Sort(collided);
    assert sorted[0] in multiset(collided) && sorted[|sorted| - 1] in multiset(collided);
    if direction == Rules.RIGHT then sorted[0] else sorted[|sorted| - 1]
  }

  /**
   * Flying right, the victim has the least x of all collided enemies and is the
   * earliest in group order among those with that x.
   */
  lemma NearestRight(collided: seq<Target>)
    requires |collided| > 0 && Increasing(collided)
    ensures var t := Nearest(Rules.RIGHT, collided);
      && t in collided
      && (forall u <- collided :: t.x <= u.x)
      && (forall u <- collided :: u.x == t.x ==> t.pos <= u.pos)
  {
    var sorted := Sort(collided);
    SortStable(collided);
    forall u | u in collided
      ensures LexLe(sorted[0], u)
    {
      assert u in multiset(sorted);
      var j :| 0 <= j < |sorted| && sorted[j] == u;
      if j > 0 {
        assert LexLe(sorted[0], sorted[j]);
      }
    }
  }

  /**
   * Flying left, the victim has the greatest x of all collided enemies and is
   * the latest in group order among those with that x.
   */
  lemma NearestLeft(direction: int, collided: seq<Target>)
    requires direction != Rules.RIGHT
    requires |collided| > 0 && Increasing(collided)
    ensures var t := Nearest(direction, collided);
      && t in collided
      && (forall u <- collided :: u.x <= t.x)
      && (forall u <- collided :: u.x == t.x ==> u.pos <= t.pos)
  {
    var sorted := Sort(collided);
    var n := |sorted| - 1;
    assert Nearest(direction, collided) == sorted[n];
    SortStable(collided);
    forall u | u in collided
      ensures LexLe(u, sorted[n])
    {
      assert u in multiset(sorted);
      var j :| 0 <= j < |sorted| && sorted[j] == u;
      if j < n {
        assert LexLe(sorted[j], sorted[n]);
      }
    }
  }

  /** The enemy group with the sprite at position `k` killed. */
  function RemoveAt(group: seq<Rect>, k: nat): (r: seq<Rect>)
    requires k < |group|
    ensures |r| == |group| - 1
    ensures forall i :: 0 <= i < k ==> r[i] == group[i]
    ensures forall i :: k <= i < |r| ==> r[i] == group[i + 1]
  {
    group[..k] + group[k + 1..]
  }

  class Bullet {
    var rect: Rect
    var direction: int
    var lifespan: real
    /** Whether the sprite still belongs to its groups (`kill` clears it). */
    var alive: bool
    var moving: int
    var isDead: bool
    var beenHit: real

    /**
     * `Bullet(location, direction, image_path)`; `size` is the size of the
     * bullet's image. Flying right, its top-left corner is at `location`;
     * otherwise its right edge is at location's x, at the same top.
     */
    constructor (location: (int, int), direction: int, size: (nat, nat))
      ensures direction == Rules.RIGHT ==> rect == Rect(location.0, location.1, size.0, size.1)
      ensures direction != Rules.RIGHT ==>
        rect.Right() == location.0 && rect.y == location.1 && rect.w == size.0 && rect.h == size.1
      ensures this.direction == direction && lifespan == LIFESPAN && alive
      ensures moving == Rules.WALKING && !isDead && beenHit == 0.0
    {
      // BaseSprite.__init__
      moving := Rules.WALKING;
      this.direction := Rules.RIGHT;
      isDead := false;
      beenHit := 0.0;
      alive := true;
      if direction == Rules.RIGHT {
        rect := Rect(location.0, location.1, size.0, size.1);
      } else {
        rect := Rect(location.0 - size.0, location.1, size.0, size.1);
      }
      this.direction := direction;
      lifespan := LIFESPAN;
    }

    /**
     * `kill_nearest`: sorts the collided sprites by x and kills the first when
     * flying right, the last otherwise; `group` is the enemy group and the
     * result what is left of it.
     */
    method KillNearest(sprites: seq<Target>, group: seq<Rect>) returns (survivors: seq<Rect>)
      requires |sprites| > 0
      requires forall t <- sprites :: t.pos < |group|
      ensures survivors == RemoveAt(group, Nearest(direction, sprites).pos)
    {
      var sorted := Sort(sprites);
      var victim: Target;
      if direction == Rules.RIGHT {
        victim := sorted[0];
      } else {
        victim := sorted[|sorted| - 1];
      }
      assert victim in multiset(sprites);
      survivors := group[..victim.pos] + group[victim.pos + 1..];
    }

    /**
     * `update`: the lifespan drops by `dt`; a bullet past its lifespan is killed
     * without moving or testing enemies. Otherwise it moves, and if it overlaps
     * any enemy, the nearest one and the bullet are killed. `enemies` is the
     * enemy group and `survivors` what is left of it.
     */
    method Update(dt: real, move: (Rect, real) -> Rect, enemies: seq<Rect>) returns (survivors: seq<Rect>)
      modifies this`lifespan, this`alive, this`rect
      ensures lifespan == old(lifespan) - dt
      ensures lifespan < 0.0 ==> !alive && rect == old(rect) && survivors == enemies
      ensures lifespan >= 0.0 ==> rect == move(old(rect), dt)
      ensures lifespan >= 0.0 && |Collided(rect, enemies)| == 0 ==> alive == old(alive) && survivors == enemies
      ensures lifespan >= 0.0 && |Collided(rect, enemies)| > 0 ==>
        !alive && survivors == RemoveAt(enemies, Nearest(direction, Collided(rect, enemies)).pos)
    {
      lifespan := lifespan - dt;
      if lifespan < 0.0 {
        alive := false;
        survivors := enemies;
        return;
      }
      rect := move(rect, dt);
      var collided := Collided(rect, enemies);
      survivors := enemies;
      if |collided| > 0 {
        survivors := KillNearest(collided, enemies);
        alive := false;
      }
    }
  }

  /** Killing one sprite removes exactly that one from the group. */
  lemma RemoveAtRemovesOne(group: seq<Rect>, k: nat)
    requires k < |group|
    ensures multiset(RemoveAt(group, k)) + multiset{group[k]} == multiset(group)
  {
    assert group == group[..k] + [group[k]] + group[k + 1..];
  }

  /**
   * A bullet update that hits kills exactly one enemy, one of those it
   * touches, and leaves the others in their order.
   */
  lemma HitKillsExactlyOne(r: Rect, direction: int, enemies: seq<Rect>)
    requires |Collided(r, enemies)| > 0
    ensures var k := Nearest(direction, Collided(r, enemies)).pos;
      && k < |enemies| && Overlaps(r, enemies[k])
      && |RemoveAt(enemies, k)| == |enemies| - 1
      && multiset(RemoveAt(enemies, k)) + multiset{enemies[k]} == multiset(enemies)
  {
    var t := Nearest(direction, Collided(r, enemies));
    RemoveAtRemovesOne(enemies, t.pos);
  }

  /** A bullet kills nothing exactly when it overlaps no enemy. */
  lemma MissKillsNone(r: Rect, enemies: seq<Rect>)
    ensures |Collided(r, enemies)| == 0 <==> forall e <- enemies :: !Overlaps(r, e)
  {
    var c := Collided(r, enemies);
    if |c| > 0 {
      var t := c[0];
      assert t in c;
      assert enemies[t.pos] in enemies;
    } else {
      forall e | e in enemies
        ensures !Overlaps(r, e)
      {
        var i :| 0 <= i < |enemies| && enemies[i] == e;
        assert Target(i, e.x) !in c;
      }
    }
  }
}
