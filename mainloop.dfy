/**
 * structured_mainloop.py: the small structured demo. A frog moves with the
 * arrow keys held in the keyboard snapshot and is put back where it was when
 * the move lands it on a wall; the walls are the border cells of a 640 by 480
 * screen cut into 32-pixel tiles.
 */
module Mainloop {
  import opened Geometry
  import opened Input

  /** `Player.SPEED`, in pixels per second. */
  const SPEED: real := 200.0
  const SCREEN_WIDTH: int := 640
  const SCREEN_HEIGHT: int := 480
  /** The step of the wall grid's `range`s. */
  const TILE: int := 32
  /** Grid columns and rows: `range(0, 640, 32)` and `range(0, 480, 32)`. */
  const COLUMNS: nat := 20
  const ROWS: nat := 15

  // ---------------------------------------------------------------- movement

  /** How far a held key moves the frog in `dt` seconds, before truncation. */
  function Distance(dt: real): real {
    SPEED * dt
  }

  /** `coordinate += delta` on a Rect: the sum is truncated back to an integer. */
  function Shift(v: int, delta: real): int {
    Trunc(v as real + delta)
  }

  /** The rectangle after the four key tests of `update`, left, right, up, down in turn. */
  function Moved(r: Rect, held: set<Key>, dt: real): (m: Rect)
    ensures m.w == r.w && m.h == r.h
  {
    var x1 := if KLeft in held then Shift(r.x, -Distance(dt)) else r.x;
    var x2 := if KRight in held then Shift(x1, Distance(dt)) else x1;
    var y1 := if KUp in held then Shift(r.y, -Distance(dt)) else r.y;
    var y2 := if KDown in held then Shift(y1, Distance(dt)) else y1;
    r.(x := x2, y := y2)
  }

  /**
   * Each axis on its own: with neither of its keys held it stays; with one of
   * them it moves SPEED * dt that way, up to the truncation to whole pixels.
   */
  lemma AxisMoves(r: Rect, held: set<Key>, dt: real)
    ensures var m := Moved(r, held, dt);
      && (KLeft !in held && KRight !in held ==> m.x == r.x)
      && (KLeft in held && KRight !in held ==>
            (r.x as real) - Distance(dt) - 1.0 < m.x as real < (r.x as real) - Distance(dt) + 1.0)
      && (KLeft !in held && KRight in held ==>
            (r.x as real) + Distance(dt) - 1.0 < m.x as real < (r.x as real) + Distance(dt) + 1.0)
    ensures var m := Moved(r, held, dt);
      && (KUp !in held && KDown !in held ==> m.y == r.y)
      && (KUp in held && KDown !in held ==>
            (r.y as real) - Distance(dt) - 1.0 < m.y as real < (r.y as real) - Distance(dt) + 1.0)
      && (KUp !in held && KDown in held ==>
            (r.y as real) + Distance(dt) - 1.0 < m.y as real < (r.y as real) + Distance(dt) + 1.0)
  {
    TruncBounds(r.x as real + -Distance(dt));
    TruncBounds(r.x as real + Distance(dt));
    TruncBounds(r.y as real + -Distance(dt));
    TruncBounds(r.y as real + Distance(dt));
  }

  /**
   * Holding left and right together does not cancel exactly: each key's move is
   * truncated on its own, so the frog can creep a pixel per frame.
   */
  lemma OppositeKeysCreep()
    ensures Moved(Rect(5, 0, 1, 1), {KLeft, KRight}, 1.0 / 400.0).x == 4
  {
    assert Distance(1.0 / 400.0) == 0.5;
    assert Shift(5, -0.5) == 4;
    assert Shift(4, 0.5) == 4;
  }

  /** `spritecollide(self, game.walls, False)`: the walls overlapping `r`, in group order. */
  function Touching(r: Rect, walls: seq<Rect>): (t: seq<Rect>)
    ensures forall w <- t :: w in walls && Overlaps(r, w)
    ensures forall w <- walls :: Overlaps(r, w) ==> w in t
    ensures |t| == 0 <==> forall w <- walls :: !Overlaps(r, w)
  {
    if |walls| == 0 then []
    else
      var last := walls[|walls| - 1];
      var front := Touching(r, walls[..|walls| - 1]);
      assert walls == walls[..|walls| - 1] + [last];
      front + (if Overlaps(r, last) then [last] else [])
  }

  /** One frame of the frog: the move is kept unless it overlaps a wall, and then undone. */
  function Step(r: Rect, held: set<Key>, dt: real, walls: seq<Rect>): Rect {
    var m := Moved(r, held, dt);
    if exists w <- walls :: Overlaps(m, w) then r else m
  }

  /** A frog that starts clear of the walls is never moved onto one. */
  lemma StepAvoidsWalls(r: Rect, held: set<Key>, dt: real, walls: seq<Rect>)
    requires forall w <- walls :: !Overlaps(r, w)
    ensures forall w <- walls :: !Overlaps(Step(r, held, dt, walls), w)
  {
  }

  /** The frog only ever stays or takes the full move: the wall test is all or nothing. */
  lemma StepStaysOrMoves(r: Rect, held: set<Key>, dt: real, walls: seq<Rect>)
    ensures Step(r, held, dt, walls) == r || Step(r, held, dt, walls) == Moved(r, held, dt)
    ensures Step(r, held, dt, walls) == Moved(r, held, dt) <==>
      Moved(r, held, dt) == r || forall w <- walls :: !Overlaps(Moved(r, held, dt), w)
  {
  }

  class Player {
    var rect: Rect

    /** `Player()`: the frog's image of size `size` at (320, 240). */
    constructor (size: (nat, nat))
      ensures rect == Rect(320, 240, size.0, size.1)
    {
      rect := Rect(320, 240, size.0, size.1);
    }

    /**
     * `update(dt, game)`: remember the rectangle, shift it for each held arrow
     * key, then for every wall it now overlaps put the remembered one back.
     * `held` is the keyboard snapshot and `walls` the wall group.
     */
    method Update(dt: real, held: set<Key>, walls: seq<Rect>)
      modifies this`rect
      ensures rect == Step(old(rect), held, dt, walls)
    {
      var last := rect;
      if KLeft in held {
        rect := rect.(x := Shift(rect.x, -Distance(dt)));
      }
      if KRight in held {
        rect := rect.(x := Shift(rect.x, Distance(dt)));
      }
      if KUp in held {
        rect := rect.(y := Shift(rect.y, -Distance(dt)));
      }
      if KDown in held {
        rect := rect.(y := Shift(rect.y, Distance(dt)));
      }
      ghost var moved := rect;
      assert moved == Moved(last, held, dt);
      var hits := Touching(rect, walls);
      for i := 0 to |hits|
        invariant rect == if i == 0 then moved else last
      {
        rect := last;
      }
    }
  }

  // ---------------------------------------------------------------- walls

  /** The grid points that get a wall: the first or last column, or the first or last row. */
  predicate OnBorder(x: int, y: int) {
    x == 0 || x == SCREEN_WIDTH - TILE || y == 0 || y == SCREEN_HEIGHT - TILE
  }

  /** A grid point of the 32-pixel grid on the screen. */
  predicate GridPoint(x: int, y: int) {
    0 <= x < SCREEN_WIDTH && x % TILE == 0 && 0 <= y < SCREEN_HEIGHT && y % TILE == 0
  }

  /** The walls of column `x` from its first `n` rows, top to bottom. */
  function Column(x: int, n: nat, size: (nat, nat)): seq<Rect> {
    if n == 0 then []
    else
      var y := TILE * (n - 1);
      Column(x, n - 1, size) + (if OnBorder(x, y) then [Rect(x, y, size.0, size.1)] else [])
  }

  /** The walls of the first `m` columns, left to right: the order of the nested loops. */
  function Grid(m: nat, size: (nat, nat)): seq<Rect> {
    if m == 0 then []
    else Grid(m - 1, size) + Column(TILE * (m - 1), ROWS, size)
  }

  /** Walls are ordered by column, then by row. */
  predicate Before(a: Rect, b: Rect) {
    a.x < b.x || (a.x == b.x && a.y < b.y)
  }

  /** Building walls one per tile; `size` is the size of the chest image. */
  method BuildWalls(size: (nat, nat)) returns (walls: seq<Rect>)
    ensures walls == Grid(COLUMNS, size)
  {
    walls := [];
    var x := 0;
    while x < SCREEN_WIDTH
      invariant 0 <= x <= SCREEN_WIDTH && x % TILE == 0
      invariant walls == Grid(x / TILE, size)
    {
      ghost var before := walls;
      var y := 0;
      while y < SCREEN_HEIGHT
        invariant 0 <= y <= SCREEN_HEIGHT && y % TILE == 0
        invariant walls == before + Column(x, y / TILE, size)
      {
        if x == 0 || x == SCREEN_WIDTH - TILE || y == 0 || y == SCREEN_HEIGHT - TILE {
          walls := walls + [Rect(x, y, size.0, size.1)];
        }
        assert (y + TILE) / TILE == y / TILE + 1;
        y := y + TILE;
      }
      assert (x + TILE) / TILE == x / TILE + 1;
      x := x + TILE;
    }
  }

  /**
   * Column `x` of the first `n` rows: its walls have the image's size, lie on
   * the column, on border grid points above row n, top to bottom; every border
   * point of those rows has one; and there are n of them on the first and last
   * column, and otherwise one for the first row and one for the last.
   */
  lemma {:induction false} ColumnFacts(x: int, n: nat, size: (nat, nat))
    requires n <= ROWS
    ensures forall w <- Column(x, n, size) ::
      w.x == x && w.w == size.0 && w.h == size.1 && 0 <= w.y < TILE * n && w.y % TILE == 0 && OnBorder(x, w.y)
    ensures forall k :: 0 <= k < n && OnBorder(x, TILE * k) ==> Rect(x, TILE * k, size.0, size.1) in Column(x, n, size)
    ensures forall i, j :: 0 <= i < j < |Column(x, n, size)| ==> Column(x, n, size)[i].y < Column(x, n, size)[j].y
    ensures |Column(x, n, size)| ==
      if x == 0 || x == SCREEN_WIDTH - TILE then n
      else (if n >= 1 then 1 else 0) + (if n == ROWS then 1 else 0)
  {
    if n > 0 {
      ColumnFacts(x, n - 1, size);
      var y := TILE * (n - 1);
      assert y % TILE == 0;
    }
  }

  /**
   * The first `m` columns: every wall is on a border grid point of those
   * columns and has the image's size, and their number is two per column
   * plus thirteen for each of the first and last column.
   */
  lemma {:induction false} GridShape(m: nat, size: (nat, nat))
    requires m <= COLUMNS
    ensures forall w <- Grid(m, size) ::
      w.w == size.0 && w.h == size.1 && 0 <= w.x < TILE * m && GridPoint(w.x, w.y) && OnBorder(w.x, w.y)
    ensures |Grid(m, size)| == 2 * m + 13 * ((if m >= 1 then 1 else 0) + (if m == COLUMNS then 1 else 0))
  {
    if m > 0 {
      var x := TILE * (m - 1);
      GridShape(m - 1, size);
      ColumnFacts(x, ROWS, size);
      assert x % TILE == 0;
    }
  }

  /** Every border point of the first `m` columns has a wall. */
  lemma {:induction false} GridComplete(m: nat, size: (nat, nat))
    requires m <= COLUMNS
    ensures forall c, k :: 0 <= c < m && 0 <= k < ROWS && OnBorder(TILE * c, TILE * k) ==>
      Rect(TILE * c, TILE * k, size.0, size.1) in Grid(m, size)
  {
    if m > 0 {
      GridComplete(m - 1, size);
      ColumnFacts(TILE * (m - 1), ROWS, size);
    }
  }

  /** The walls of the first `m` columns lie left of column m. */
  lemma {:induction false} GridLeftOf(m: nat, size: (nat, nat))
    ensures forall w <- Grid(m, size) :: w.x < TILE * m
  {
    if m > 0 {
      GridLeftOf(m - 1, size);
      ColumnOnItsColumn(TILE * (m - 1), ROWS, size);
    }
  }

  /** Column `x` has its walls on column x, top to bottom. */
  lemma {:induction false} ColumnOnItsColumn(x: int, n: nat, size: (nat, nat))
    ensures forall w <- Column(x, n, size) :: w.x == x && w.y < TILE * n
    ensures forall i, j :: 0 <= i < j < |Column(x, n, size)| ==> Column(x, n, size)[i].y < Column(x, n, size)[j].y
  {
    if n > 0 {
      ColumnOnItsColumn(x, n - 1, size);
    }
  }

  /** The walls of the first `m` columns are ordered by column, then by row. */
  lemma {:induction false} GridOrdered(m: nat, size: (nat, nat))
    ensures forall i, j :: 0 <= i < j < |Grid(m, size)| ==> Before(Grid(m, size)[i], Grid(m, size)[j])
  {
    if m > 0 {
      var x := TILE * (m - 1);
      var front := Grid(m - 1, size);
      var col := Column(x, ROWS, size);
      GridOrdered(m - 1, size);
      GridLeftOf(m - 1, size);
      ColumnOnItsColumn(x, ROWS, size);
      forall i, j | 0 <= i < j < |front + col|
        ensures Before((front + col)[i], (front + col)[j])
      {
        if j < |front| {
          assert (front + col)[i] == front[i] && (front + col)[j] == front[j];
        } else if i >= |front| {
          assert (front + col)[i] == col[i - |front|] && (front + col)[j] == col[j - |front|];
        } else {
          assert front[i] in front && col[j - |front|] in col;
          assert (front + col)[i] == front[i] && (front + col)[j] == col[j - |front|];
        }
      }
    }
  }

  /**
   * The wall group holds 66 walls, exactly one per border point of the grid:
   * a rectangle of the image's size is a wall just when its corner is such a
   * point, and no two walls share a corner.
   */
  lemma BorderWalls(size: (nat, nat))
    ensures |Grid(COLUMNS, size)| == 66
    ensures forall x, y :: Rect(x, y, size.0, size.1) in Grid(COLUMNS, size) <==> GridPoint(x, y) && OnBorder(x, y)
    ensures forall i, j :: 0 <= i < j < |Grid(COLUMNS, size)| ==>
      (Grid(COLUMNS, size)[i].x, Grid(COLUMNS, size)[i].y) != (Grid(COLUMNS, size)[j].x, Grid(COLUMNS, size)[j].y)
  {
    GridShape(COLUMNS, size);
    GridComplete(COLUMNS, size);
    GridOrdered(COLUMNS, size);
    forall x, y | GridPoint(x, y) && OnBorder(x, y)
      ensures Rect(x, y, size.0, size.1) in Grid(COLUMNS, size)
    {
      assert x == TILE * (x / TILE) && y == TILE * (y / TILE);
    }
  }
}
