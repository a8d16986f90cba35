/**
 * lib/menu.py: a vertical text menu. `draw` moves the selection with
 * wrap-around; `init` lays the fields out one below the other, each with a
 * highlight rectangle `p` pixels larger on every side, where `p` is a fifth of
 * the font size. The sizes of the rendered texts are inputs here.
 */
module Menus {
  import opened Geometry
  import opened Input

  /** The class attribute `rozmiar_fontu`. */
  const DEFAULT_FONTSIZE: int := 32

  /** A highlight: the tuple (left, top, width, height) `stworz_strukture` stores. */
  datatype Box = Box(left: int, top: int, width: int, height: int)

  /** One `Pole`: its text, the rectangle of its rendered text, and its highlight. */
  datatype Field = Field(text: string, rect: Rect, highlight: Box)

  // ---------------------------------------------------------------- selection

  /**
   * `draw(shift)` with a non-zero shift on a menu of `n` fields: add the
   * shift, send -1 to the last field, then reduce modulo `n` (Python's `%`,
   * which for a positive divisor agrees with Dafny's).
   */
  function Wrap(selection: int, shift: int, n: int): (r: int)
    requires n > 0
    ensures 0 <= r < n
  {
    var moved := selection + shift;
    (if moved == -1 then n - 1 else moved) % n
  }

  /** One step down from the last field is the first; one step up from the first is the last. */
  lemma WrapEnds(n: int)
    requires n > 0
    ensures Wrap(n - 1, 1, n) == 0
    ensures Wrap(0, -1, n) == n - 1
  {
  }

  /** Inside the menu, a step down or up moves one field, except at the ends. */
  lemma WrapSteps(selection: int, n: int)
    requires 0 <= selection < n
    ensures selection < n - 1 ==> Wrap(selection, 1, n) == selection + 1
    ensures selection > 0 ==> Wrap(selection, -1, n) == selection - 1
  {
  }

  /** A step down undoes a step up and the other way round. */
  lemma WrapInverse(selection: int, n: int)
    requires 0 <= selection < n
    ensures Wrap(Wrap(selection, 1, n), -1, n) == selection
    ensures Wrap(Wrap(selection, -1, n), 1, n) == selection
  {
    WrapEnds(n);
    WrapSteps(selection, n);
    if selection < n - 1 {
      WrapSteps(selection + 1, n);
    }
    if selection > 0 {
      WrapSteps(selection - 1, n);
    }
  }

  // ---------------------------------------------------------------- layout

  /** `przesuniecie = int(rozmiar_fontu * 0.2)`. */
  function Padding(fontsize: int): int {
    Trunc(fontsize as real * 0.2)
  }

  /**
   * Field `i` of text `text`, whose rendered size is `size`: its rectangle at
   * left `p` and top `p + (2p + h) * i`, its highlight that rectangle grown by
   * `p` on every side.
   */
  function FieldAt(text: string, size: (nat, nat), p: int, i: int): (f: Field)
    ensures f.text == text && f.rect.w == size.0 && f.rect.h == size.1
    ensures f.rect.x == p && f.rect.y == p + (2 * p + size.1) * i
    ensures f.highlight == Box(f.rect.x - p, f.rect.y - p, f.rect.w + 2 * p, f.rect.h + 2 * p)
  {
    var rect := Rect(p, p + (p * 2 + size.1) * i, size.0, size.1);
    Field(text, rect, Box(rect.x - p, rect.y - p, rect.w + p * 2, rect.h + p * 2))
  }

  /** The sum of the highlight heights of fields of rendered sizes `sizes`. */
  function HeightSum(sizes: seq<(nat, nat)>, p: int): int {
    if |sizes| == 0 then 0
    else HeightSum(sizes[..|sizes| - 1], p) + sizes[|sizes| - 1].1 + 2 * p
  }

  /** `menu_width` after the layout of fields of rendered sizes `sizes`, from `w0`. */
  function MaxWidth(w0: int, sizes: seq<(nat, nat)>, p: int): int {
    if |sizes| == 0 then w0
    else
      var m := MaxWidth(w0, sizes[..|sizes| - 1], p);
      var w := sizes[|sizes| - 1].0 + 2 * p;
      if w > m then w else m
  }

  /** menu_width ends as the larger of its prior value and every highlight width. */
  lemma {:induction false} MaxWidthIsMax(w0: int, sizes: seq<(nat, nat)>, p: int)
    ensures MaxWidth(w0, sizes, p) >= w0
    ensures forall s <- sizes :: MaxWidth(w0, sizes, p) >= s.0 + 2 * p
    ensures MaxWidth(w0, sizes, p) == w0 || exists s <- sizes :: MaxWidth(w0, sizes, p) == s.0 + 2 * p
    decreases |sizes|
  {
    if |sizes| > 0 {
      var front := sizes[..|sizes| - 1];
      var last := sizes[|sizes| - 1];
      MaxWidthIsMax(w0, front, p);
      assert sizes == front + [last];
    }
  }

  /** The fields `stworz_strukture` appends, in order. */
  function Layout(items: seq<string>, sizes: seq<(nat, nat)>, p: int): seq<Field>
    requires |items| == |sizes|
  {
    if |items| == 0 then []
    else
      var n := |items| - 1;
      Layout(items[..n], sizes[..n], p) + [FieldAt(items[n], sizes[n], p, n)]
  }

  /** The layout has one field per item, field i being FieldAt of item i. */
  lemma {:induction false} LayoutFields(items: seq<string>, sizes: seq<(nat, nat)>, p: int)
    requires |items| == |sizes|
    ensures |Layout(items, sizes, p)| == |items|
    ensures forall i :: 0 <= i < |items| ==> Layout(items, sizes, p)[i] == FieldAt(items[i], sizes[i], p, i)
    decreases |items|
  {
    if |items| > 0 {
      var n := |items| - 1;
      LayoutFields(items[..n], sizes[..n], p);
    }
  }

  /** Extending the layout by field `i` adds its highlight height and may widen the menu. */
  lemma PrefixStep(w0: int, items: seq<string>, sizes: seq<(nat, nat)>, p: int, i: nat)
    requires |items| == |sizes| && i < |sizes|
    ensures Layout(items[..i + 1], sizes[..i + 1], p) == Layout(items[..i], sizes[..i], p) + [FieldAt(items[i], sizes[i], p, i)]
    ensures HeightSum(sizes[..i + 1], p) == HeightSum(sizes[..i], p) + sizes[i].1 + 2 * p
    ensures MaxWidth(w0, sizes[..i + 1], p) ==
      var m := MaxWidth(w0, sizes[..i], p);
      if sizes[i].0 + 2 * p > m then sizes[i].0 + 2 * p else m
  {
    assert sizes[..i + 1][..i] == sizes[..i];
    assert items[..i + 1][..i] == items[..i];
  }

  /** With one text height `h` for all fields, the highlights add up to n * (h + 2p). */
  lemma {:induction false} UniformHeightSum(sizes: seq<(nat, nat)>, p: int, h: nat)
    requires forall s <- sizes :: s.1 == h
    ensures HeightSum(sizes, p) == |sizes| * (h + 2 * p)
    decreases |sizes|
  {
    if |sizes| > 0 {
      var front := sizes[..|sizes| - 1];
      assert forall s <- front :: s in sizes;
      assert sizes[|sizes| - 1] in sizes;
      UniformHeightSum(front, p, h);
    }
  }

  /**
   * With one text height (the usual case: one font) and `p >= 0`, the
   * highlights of the laid-out fields tile the menu: highlight i spans rows
   * (2p + h) * i to (2p + h) * (i + 1), each starts where the one above it
   * ends, and all lie inside the menu_width by menu_height surface.
   */
  lemma HighlightsTile(texts: seq<string>, sizes: seq<(nat, nat)>, p: int, h: nat, w0: int)
    requires |texts| == |sizes| && p >= 0
    requires forall s <- sizes :: s.1 == h
    ensures |Layout(texts, sizes, p)| == |sizes|
    ensures forall i :: 0 <= i < |sizes| ==>
      var b := Layout(texts, sizes, p)[i].highlight;
      && b.top == (2 * p + h) * i && b.height == 2 * p + h
      && b.left == 0 && b.width <= MaxWidth(w0, sizes, p)
      && 0 <= b.top && b.top + b.height <= HeightSum(sizes, p)
    ensures forall i :: 0 < i < |sizes| ==>
      Layout(texts, sizes, p)[i].highlight.top ==
        Layout(texts, sizes, p)[i - 1].highlight.top + Layout(texts, sizes, p)[i - 1].highlight.height
  {
    UniformHeightSum(sizes, p, h);
    MaxWidthIsMax(w0, sizes, p);
    LayoutFields(texts, sizes, p);
    forall i | 0 <= i < |sizes|
      ensures var b := FieldAt(texts[i], sizes[i], p, i).highlight;
        && b.top == (2 * p + h) * i && b.height == 2 * p + h
        && b.left == 0 && b.width <= MaxWidth(w0, sizes, p)
        && 0 <= b.top && b.top + b.height <= HeightSum(sizes, p)
    {
      assert sizes[i] in sizes;
      HighlightRows(texts[i], sizes[i], p, h, i, |sizes|);
    }
    forall i | 0 < i < |sizes|
      ensures FieldAt(texts[i], sizes[i], p, i).highlight.top ==
        FieldAt(texts[i - 1], sizes[i - 1], p, i - 1).highlight.top + FieldAt(texts[i - 1], sizes[i - 1], p, i - 1).highlight.height
    {
      assert sizes[i] in sizes && sizes[i - 1] in sizes;
      HighlightsAbut(texts[i - 1], sizes[i - 1], texts[i], sizes[i], p, i);
    }
  }

  /** In a uniform layout each highlight starts on the row where the one above it ends. */
  lemma HighlightsAbut(above: string, aboveSize: (nat, nat), below: string, belowSize: (nat, nat), p: int, i: nat)
    requires i > 0 && aboveSize.1 == belowSize.1
    ensures FieldAt(below, belowSize, p, i).highlight.top ==
      FieldAt(above, aboveSize, p, i - 1).highlight.top + FieldAt(above, aboveSize, p, i - 1).highlight.height
  {
    var k := 2 * p + belowSize.1;
    assert k * i == k * (i - 1) + k;
  }

  /** One field's highlight in a uniform layout of `n` fields: its rows, and that it ends by row n * (h + 2p). */
  lemma HighlightRows(text: string, size: (nat, nat), p: int, h: nat, i: nat, n: nat)
    requires size.1 == h && p >= 0 && i < n
    ensures var b := FieldAt(text, size, p, i).highlight;
      && b.top == (2 * p + h) * i && b.height == 2 * p + h
      && 0 <= b.top && b.top + b.height <= n * (h + 2 * p)
  {
    var k := 2 * p + h;
    var b := FieldAt(text, size, p, i).highlight;
    assert b.top == k * i;
    assert b.top + b.height == k * (i + 1);
    MulMonotone(i + 1, n, k);
    MulMonotone(0, i, k);
  }

  lemma MulMonotone(a: int, b: int, k: int)
    requires a <= b && k >= 0
    ensures a * k <= b * k
  {
  }

  // ---------------------------------------------------------------- the menu

  class Menu {
    var fontsize: int
    var texts: seq<string>
    var fields: seq<Field>
    /** `ilosc_pol`, the number of fields. */
    var count: int
    /** `pozycja_zaznaczenia`. */
    var selection: int
    var menuWidth: int
    var menuHeight: int

    /** `Menu()`: the class attributes' defaults and no fields yet. */
    constructor ()
      ensures fontsize == DEFAULT_FONTSIZE && texts == [] && fields == [] && count == 0
      ensures selection == 0 && menuWidth == 0 && menuHeight == 0
    {
      fontsize := DEFAULT_FONTSIZE;
      texts := [];
      fields := [];
      count := 0;
      selection := 0;
      menuWidth := 0;
      menuHeight := 0;
    }

    /** `get_position`. */
    function Position(): int
      reads this
    {
      selection
    }

    /** `set_fontsize`; it takes effect at the next `init`. */
    method SetFontsize(size: int)
      modifies this`fontsize
      ensures fontsize == size
    {
      fontsize := size;
    }

    /**
     * `draw(shift)`: a non-zero shift moves the selection with wrap-around, and
     * the selection is returned. Drawing indexes the field list at the
     * selection, so the menu must have fields, and with a zero shift the
     * selection must already be one of them.
     */
    method Draw(shift: int) returns (position: int)
      requires count > 0 && |fields| == count
      requires shift == 0 ==> 0 <= selection < count
      modifies this`selection
      ensures shift == 0 ==> selection == old(selection)
      ensures shift != 0 ==> selection == Wrap(old(selection), shift, count)
      ensures 0 <= selection < count && position == selection
    {
      if shift != 0 {
        selection := selection + shift;
        if selection == -1 {
          selection := count - 1;
        }
        selection := selection % count;
      }
      var highlighted := fields[selection].highlight;
      position := selection;
    }

    /**
     * `init(lista, dest_surface)` with `stworz_strukture`: an empty field list
     * is filled in order, menu_height restarts from 0 and menu_width only
     * grows. `sizes[i]` is the size of `texts[i]` as the font renders it. The
     * selection is left as it was.
     */
    method Init(items: seq<string>, sizes: seq<(nat, nat)>)
      requires |sizes| == |items|
      modifies this`texts, this`fields, this`count, this`menuWidth, this`menuHeight
      ensures texts == items && count == |items|
      ensures fields == Layout(items, sizes, Padding(fontsize))
      ensures menuHeight == HeightSum(sizes, Padding(fontsize))
      ensures menuWidth == MaxWidth(old(menuWidth), sizes, Padding(fontsize))
    {
      texts := items;
      fields := [];
      var n := |items|;
      count := n;
      menuHeight := 0;
      var p := Padding(fontsize);
      for i := 0 to n
        invariant texts == items && count == n
        invariant fields == Layout(items[..i], sizes[..i], p)
        invariant menuHeight == HeightSum(sizes[..i], p)
        invariant menuWidth == MaxWidth(old(menuWidth), sizes[..i], p)
      {
        var rect := Rect(0, 0, sizes[i].0, sizes[i].1);
        var height := rect.h;
        rect := rect.(x := p);
        rect := rect.(y := p + (p * 2 + height) * i);
        var width := rect.w + p * 2;
        height := rect.h + p * 2;
        var left := rect.x - p;
        var top := rect.y - p;
        var field := Field(items[i], rect, Box(left, top, width, height));
        assert field == FieldAt(items[i], sizes[i], p, i);
        fields := fields + [field];
        if width > menuWidth {
          menuWidth := width;
        }
        menuHeight := menuHeight + height;
        PrefixStep(old(menuWidth), items, sizes, p, i);
      }
      assert sizes[..n] == sizes && items[..n] == items;
    }
  }

  // ---------------------------------------------------------------- menus

  /** What one key press does in a menu loop: stay with a selection, or return a value. */
  datatype Step<T> = Stay(selection: int) | Return(value: T)

  /**
   * One key press in `level_menu`, whose fields are the level names and then
   * 'Back' (so `selection` is at most `|levels|`): up and down move the
   * selection, space or return picks a level or, on 'Back', the default, and
   * escape returns the default.
   */
  function LevelMenuKey(levels: seq<string>, default: string, selection: int, k: Key): (r: Step<string>)
    requires 0 <= selection <= |levels|
    ensures r.Stay? ==> 0 <= r.selection <= |levels|
    ensures r.Return? ==> r.value == default || r.value in levels
    ensures k == KEscape ==> r == Return(default)
    ensures (k == KSpace || k == KReturn) && selection == |levels| ==> r == Return(default)
    ensures (k == KSpace || k == KReturn) && selection < |levels| ==> r == Return(levels[selection])
    ensures k !in {KUp, KDown, KSpace, KReturn, KEscape} ==> r == Stay(selection)
  {
    if k == KUp then Stay(Wrap(selection, -1, |levels| + 1))
    else if k == KDown then Stay(Wrap(selection, 1, |levels| + 1))
    else if k == KSpace || k == KReturn then
      (if selection == |levels| then Return(default) else Return(levels[selection]))
    else if k == KEscape then Return(default)
    else Stay(selection)
  }

  /** `player_menu`'s results: the text '1' or '2', or the number of players it was given. */
  datatype PlayerChoice = Label(text: string) | Unchanged

  /**
   * One key press in `player_menu`, whose fields are '1', '2' and 'Back':
   * space or return on the first two returns their label, on 'Back' the
   * players it was given, as does escape.
   */
  function PlayerMenuKey(selection: int, k: Key): (r: Step<PlayerChoice>)
    requires 0 <= selection < 3
    ensures r.Stay? ==> 0 <= r.selection < 3
    ensures k == KEscape ==> r == Return(Unchanged)
    ensures (k == KSpace || k == KReturn) ==>
      r == Return(if selection == 0 then Label("1") else if selection == 1 then Label("2") else Unchanged)
    ensures k !in {KUp, KDown, KSpace, KReturn, KEscape} ==> r == Stay(selection)
  {
    if k == KUp then Stay(Wrap(selection, -1, 3))
    else if k == KDown then Stay(Wrap(selection, 1, 3))
    else if k == KSpace || k == KReturn then
      (if selection == 0 then Return(Label("1"))
       else if selection == 1 then Return(Label("2"))
       else Return(Unchanged))
    else if k == KEscape then Return(Unchanged)
    else Stay(selection)
  }

  /**
   * From the first field, `level_menu` reaches every level: `i` presses of the
   * down key select level i, and enter then returns it.
   */
  lemma {:induction false} EveryLevelReachable(levels: seq<string>, default: string, i: nat)
    requires i < |levels|
    ensures Presses(levels, default, i) == i
    ensures LevelMenuKey(levels, default, Presses(levels, default, i), KReturn) == Return(levels[i])
  {
    if i > 0 {
      EveryLevelReachable(levels, default, i - 1);
      WrapSteps(i - 1, |levels| + 1);
    }
  }

  /** The selection after `i` presses of the down key in `level_menu`, from the first field. */
  function Presses(levels: seq<string>, default: string, i: nat): (s: int)
    ensures 0 <= s <= |levels|
  {
    if i == 0 then 0
    else
      var step := LevelMenuKey(levels, default, Presses(levels, default, i - 1), KDown);
      if step.Stay? then step.selection else 0
  }
}
