/**
 * The letter-glitch background engine: a row-major array of letters, the
 * per-tick mutation of randomly drawn letters, the smooth colour
 * transitions advanced every frame, the frame gating and the
 * Running/Paused machine driven by page visibility.
 *
 * A letter's `colorProgress` is kept as a whole number of steps `k` out
 * of `Steps`, standing for `k / 20`: the source only ever adds `smoothStep`
 * (0.05) and clamps at 1.
 */
module Glitch {
  import opened Wrappers
  import opened Draws
  import opened Color
  import opened Grid

  /** `options.characters`. */
  const Characters: string := "ABCDEFGHIJKLMNOPQRSTUVWXYZ!@#$&*()-_+=/[]{};:<>.,0123456789"

  /** Steps from 0 to 1 in increments of `smoothStep`. */
  const Steps: nat := 20

  /** The configuration object of the component. */
  datatype Options = Options(glitchColors: seq<string>, glitchSpeed: int, smooth: bool)

  /** A handle returned by `requestAnimationFrame`: always a positive integer. */
  type FrameId = n: nat | n > 0 witness 1

  /** `getRandomChar`. */
  function RandomChar(u: Fraction): (c: char)
    ensures c in Characters
  {
    Characters[Pick(|Characters|, u)]
  }

  /**
   * One cell: its glyph, the colour it is painted with, and its transition.
   * The source keeps the painted colour as its `rgb(...)` text; every value
   * it ever stores there is `rgbToString` of a colour, so the model keeps
   * that colour and spells it with `RgbToString` where the text is read
   * (`fillStyle` and `parseColorToRgb`).
   */
  datatype Letter = Letter(ch: char, color: Rgb, startColor: Rgb, targetColor: Rgb, progress: nat)

  /** The colour a letter should show at its progress. */
  function Shown(l: Letter): Rgb {
    InterpolateColor(l.startColor, l.targetColor, l.progress, Steps)
  }

  /**
   * What the engine keeps true of every letter: progress in 0..Steps,
   * byte colours, and the painted colour is the interpolation between
   * start and target at the current progress.
   */
  predicate Coherent(l: Letter) {
    l.progress <= Steps && ValidRgb(l.startColor) && ValidRgb(l.targetColor)
    && l.color == Shown(l)
  }

  predicate AllCoherent(cells: seq<Letter>) {
    forall i {:trigger Coherent(cells[i])} :: 0 <= i < |cells| ==> Coherent(cells[i])
  }

  /** A letter whose transition is complete (`colorProgress == 1`) is painted in its target colour. */
  lemma SettledShowsTarget(l: Letter)
    requires Coherent(l) && l.progress == Steps
    ensures l.color == l.targetColor
  {
  }

  // ---------------------------------------------------------------------
  // initializeLetters

  /** The two random draws for one new cell, in the order the source makes them. */
  datatype CellDraw = CellDraw(color: Fraction, ch: Fraction)

  /**
   * One cell as `initializeLetters` creates it: a configured glyph, settled
   * at progress 1 on one colour, which is a palette entry (white for an
   * empty palette) and is what the cell is painted with.
   */
  function NewLetter(palette: seq<Rgb>, d: CellDraw): (l: Letter)
    ensures l.ch in Characters
    ensures l.progress == Steps && l.color == l.startColor == l.targetColor
    ensures palette == [] ==> l.color == White
    ensures palette != [] ==> l.color in palette
    ensures ValidPalette(palette) ==> Coherent(l)
  {
    var base := PickColor(palette, d.color);
    Letter(RandomChar(d.ch), base, base, base, Steps)
  }

  /** The cells of `initializeLetters`, one per draw, in row-major order. */
  function InitialLetters(palette: seq<Rgb>, draws: seq<CellDraw>): (cells: seq<Letter>)
    ensures |cells| == |draws|
    ensures !InFlight(cells)
    ensures ValidPalette(palette) ==> AllCoherent(cells)
  {
    seq(|draws|, i requires 0 <= i < |draws| => NewLetter(palette, draws[i]))
  }

  // ---------------------------------------------------------------------
  // updateLetters

  /** `Math.max(1, Math.floor(total * 0.05))`. */
  function UpdateCount(total: nat): (n: nat)
    ensures n >= 1
    ensures total < 40 ==> n == 1
    ensures total >= 20 ==> 20 * n <= total < 20 * n + 20
  {
    if total / 20 > 1 then total / 20 else 1
  }

  /** The three random draws of one loop iteration, in the order the source makes them. */
  datatype GlitchDraw = GlitchDraw(index: Fraction, ch: Fraction, color: Fraction)

  /**
   * The loop body's effect on the drawn letter: a new glyph and a new
   * target. In smooth mode a transition restarts from the colour the
   * letter is painted with, which it keeps showing for now; otherwise the
   * letter is settled on the target at once. A coherent letter stays
   * coherent.
   */
  function Mutate(l: Letter, ch: char, target: Rgb, smooth: bool): (m: Letter)
    ensures m.ch == ch && m.targetColor == target
    ensures smooth ==> m.progress == 0 && m.color == l.color
    ensures smooth && NonNegative(l.color) ==> m.startColor == l.color
    ensures !smooth ==> m.progress == Steps && m.color == target && m.startColor == target
    ensures Coherent(l) && ValidRgb(target) ==> Coherent(m)
  {
    if smooth then
      var parsed := ParseColorToRgb(RgbToString(l.color));
      assert NonNegative(l.color) ==> parsed == Some(l.color) by {
        if NonNegative(l.color) {
          ParseColorToRgbOfRgbToString(l.color);
        }
      }
      l.(ch := ch, startColor := parsed.GetOr(target), targetColor := target, progress := 0)
    else
      l.(ch := ch, color := target, startColor := target,
         targetColor := target, progress := Steps)
  }

  /** The index a draw selects in a non-empty array. */
  function DrawnIndex(total: nat, d: GlitchDraw): (i: nat)
    requires total > 0
    ensures i < total
  {
    Pick(total, d.index)
  }

  /** One iteration of the loop of `updateLetters`. */
  function GlitchStep(cells: seq<Letter>, d: GlitchDraw, palette: seq<Rgb>, smooth: bool): (r: seq<Letter>)
    requires |cells| > 0
    ensures |r| == |cells|
    ensures forall j :: 0 <= j < |cells| && j != DrawnIndex(|cells|, d) ==> r[j] == cells[j]
  {
    var i := DrawnIndex(|cells|, d);
    cells[i := Mutate(cells[i], RandomChar(d.ch), PickColor(palette, d.color), smooth)]
  }

  /** The iterations of `updateLetters`, in order. */
  function ApplyGlitches(cells: seq<Letter>, draws: seq<GlitchDraw>, palette: seq<Rgb>, smooth: bool)
    : (r: seq<Letter>)
    requires |cells| > 0
    ensures |r| == |cells|
  {
    if draws == [] then cells
    else
      GlitchStep(ApplyGlitches(cells, draws[..|draws| - 1], palette, smooth), draws[|draws| - 1], palette, smooth)
  }

  /** One iteration keeps every letter coherent. */
  lemma GlitchStepCoherent(cells: seq<Letter>, d: GlitchDraw, palette: seq<Rgb>, smooth: bool)
    requires |cells| > 0 && AllCoherent(cells) && ValidPalette(palette)
    ensures AllCoherent(GlitchStep(cells, d, palette, smooth))
  {
    var i := DrawnIndex(|cells|, d);
    var m := Mutate(cells[i], RandomChar(d.ch), PickColor(palette, d.color), smooth);
    var r := cells[i := m];
    assert GlitchStep(cells, d, palette, smooth) == r;
    forall k | 0 <= k < |r| ensures Coherent(r[k]) {
      if k != i {
        assert r[k] == cells[k];
      }
    }
  }

  /** `updateLetters` keeps every letter coherent. */
  lemma {:induction false} ApplyGlitchesCoherent(cells: seq<Letter>, draws: seq<GlitchDraw>, palette: seq<Rgb>, smooth: bool)
    requires |cells| > 0 && AllCoherent(cells) && ValidPalette(palette)
    ensures AllCoherent(ApplyGlitches(cells, draws, palette, smooth))
  {
    if draws != [] {
      var prev := ApplyGlitches(cells, draws[..|draws| - 1], palette, smooth);
      ApplyGlitchesCoherent(cells, draws[..|draws| - 1], palette, smooth);
      GlitchStepCoherent(prev, draws[|draws| - 1], palette, smooth);
    }
  }

  /** Letters that no draw selects are left exactly as they were. */
  lemma {:induction false} ApplyGlitchesFrame(cells: seq<Letter>, draws: seq<GlitchDraw>, palette: seq<Rgb>, smooth: bool, j: nat)
    requires |cells| > 0 && j < |cells|
    requires forall k :: 0 <= k < |draws| ==> DrawnIndex(|cells|, draws[k]) != j
    ensures ApplyGlitches(cells, draws, palette, smooth)[j] == cells[j]
  {
    if draws != [] {
      ApplyGlitchesFrame(cells, draws[..|draws| - 1], palette, smooth, j);
    }
  }

  /** Running the draws in two halves is running them all. */
  lemma {:induction false} ApplyGlitchesAppend(cells: seq<Letter>, a: seq<GlitchDraw>, b: seq<GlitchDraw>, palette: seq<Rgb>, smooth: bool)
    requires |cells| > 0
    ensures ApplyGlitches(cells, a + b, palette, smooth)
         == ApplyGlitches(ApplyGlitches(cells, a, palette, smooth), b, palette, smooth)
  {
    if b == [] {
      assert a + b == a;
    } else {
      assert (a + b)[..|a + b| - 1] == a + b[..|b| - 1];
      assert (a + b)[|a + b| - 1] == b[|b| - 1];
      ApplyGlitchesAppend(cells, a, b[..|b| - 1], palette, smooth);
    }
  }

  /** In smooth mode one iteration never changes what a letter is painted with. */
  lemma SmoothGlitchStepKeepsDisplay(cells: seq<Letter>, d: GlitchDraw, palette: seq<Rgb>, j: nat)
    requires |cells| > 0 && j < |cells| && AllCoherent(cells) && ValidPalette(palette)
    ensures var r := GlitchStep(cells, d, palette, true);
      r[j].color == cells[j].color && Shown(r[j]) == Shown(cells[j])
  {
    var i := DrawnIndex(|cells|, d);
    if i == j {
      assert ValidRgb(PickColor(palette, d.color));
    }
  }

  /** In smooth mode the mutation never changes what a letter is painted with. */
  lemma {:induction false} SmoothGlitchesKeepDisplay(cells: seq<Letter>, draws: seq<GlitchDraw>, palette: seq<Rgb>, j: nat)
    requires |cells| > 0 && j < |cells| && AllCoherent(cells) && ValidPalette(palette)
    ensures var r := ApplyGlitches(cells, draws, palette, true);
      r[j].color == cells[j].color && Shown(r[j]) == Shown(cells[j])
  {
    if draws != [] {
      var prev := ApplyGlitches(cells, draws[..|draws| - 1], palette, true);
      SmoothGlitchesKeepDisplay(cells, draws[..|draws| - 1], palette, j);
      ApplyGlitchesCoherent(cells, draws[..|draws| - 1], palette, true);
      SmoothGlitchStepKeepsDisplay(prev, draws[|draws| - 1], palette, j);
    }
  }

  /**
   * A letter that is drawn takes its glyph and target from the last draw
   * that selects it. In smooth mode it starts a transition from the
   * colour it was showing before the tick; otherwise it is painted in the
   * new colour at once.
   */
  lemma ApplyGlitchesLastDraw(cells: seq<Letter>, draws: seq<GlitchDraw>, palette: seq<Rgb>, smooth: bool, j: nat, k: nat)
    requires |cells| > 0 && AllCoherent(cells) && ValidPalette(palette)
    requires k < |draws| && DrawnIndex(|cells|, draws[k]) == j
    requires forall m :: k < m < |draws| ==> DrawnIndex(|cells|, draws[m]) != j
    ensures var r := ApplyGlitches(cells, draws, palette, smooth);
      var ch := RandomChar(draws[k].ch);
      var t := PickColor(palette, draws[k].color);
      (smooth ==> r[j] == Letter(ch, cells[j].color, Shown(cells[j]), t, 0))
      && (!smooth ==> r[j] == Letter(ch, t, t, t, Steps))
  {
    var mid := ApplyGlitches(cells, draws[..k], palette, smooth);
    assert draws[..k + 1][..k] == draws[..k];
    ApplyGlitchesAfterLast(cells, draws, palette, smooth, j, k);
    ApplyGlitchesCoherent(cells, draws[..k], palette, smooth);
    assert Coherent(mid[j]);
    if smooth {
      SmoothGlitchesKeepDisplay(cells, draws[..k], palette, j);
    }
  }

  /** The draws after the last one that selects a letter leave it as that draw made it. */
  lemma ApplyGlitchesAfterLast(cells: seq<Letter>, draws: seq<GlitchDraw>, palette: seq<Rgb>, smooth: bool, j: nat, k: nat)
    requires |cells| > 0 && j < |cells| && k < |draws|
    requires forall m :: k < m < |draws| ==> DrawnIndex(|cells|, draws[m]) != j
    ensures ApplyGlitches(cells, draws, palette, smooth)[j] == ApplyGlitches(cells, draws[..k + 1], palette, smooth)[j]
  {
    var step := ApplyGlitches(cells, draws[..k + 1], palette, smooth);
    var rest := draws[k + 1..];
    assert draws == draws[..k + 1] + rest;
    ApplyGlitchesAppend(cells, draws[..k + 1], rest, palette, smooth);
    forall m | 0 <= m < |rest| ensures DrawnIndex(|step|, rest[m]) != j {
      assert rest[m] == draws[k + 1 + m];
    }
    ApplyGlitchesFrame(step, rest, palette, smooth, j);
  }

  // ---------------------------------------------------------------------
  // handleSmoothTransitions

  function Min(a: int, b: int): int { if a <= b then a else b }

  /** One frame of a letter's transition: one step more, clamped, and repainted. */
  function Advance(l: Letter): (a: Letter)
    ensures a.ch == l.ch && a.startColor == l.startColor && a.targetColor == l.targetColor
    ensures l.progress < Steps ==> a.progress == l.progress + 1
    ensures l.progress >= Steps ==> a == l
    ensures Coherent(l) ==> Coherent(a)
  {
    if l.progress < Steps then
      var p := Min(Steps, l.progress + 1);
      l.(progress := p, color := InterpolateColor(l.startColor, l.targetColor, p, Steps))
    else l
  }

  /** One frame of every letter; an array with nothing in flight is left as it is. */
  function AdvanceAll(cells: seq<Letter>): (r: seq<Letter>)
    ensures |r| == |cells|
    ensures !InFlight(cells) ==> r == cells
  {
    seq(|cells|, i requires 0 <= i < |cells| => Advance(cells[i]))
  }

  /** Some letter is still in transition. */
  predicate InFlight(cells: seq<Letter>) {
    exists i :: 0 <= i < |cells| && cells[i].progress < Steps
  }

  lemma AdvanceAllCoherent(cells: seq<Letter>)
    requires AllCoherent(cells)
    ensures AllCoherent(AdvanceAll(cells))
  {
    forall i | 0 <= i < |cells| ensures Coherent(AdvanceAll(cells)[i]) {
    }
  }

  /** `n` consecutive frames of one letter. */
  function AdvanceTimes(l: Letter, n: nat): Letter {
    if n == 0 then l else Advance(AdvanceTimes(l, n - 1))
  }

  lemma {:induction false} AdvanceTimesProgress(l: Letter, n: nat)
    requires Coherent(l)
    ensures var a := AdvanceTimes(l, n);
      Coherent(a) && a.progress == Min(Steps, l.progress + n)
      && a.ch == l.ch && a.startColor == l.startColor && a.targetColor == l.targetColor
  {
    if n > 0 {
      AdvanceTimesProgress(l, n - 1);
    }
  }

  /** Twenty frames settle any letter on its target colour. */
  lemma TransitionSettles(l: Letter)
    requires Coherent(l)
    ensures var a := AdvanceTimes(l, Steps);
      a.progress == Steps && a.color == l.targetColor
  {
    AdvanceTimesProgress(l, Steps);
    SettledShowsTarget(AdvanceTimes(l, Steps));
  }

  /** `n` consecutive calls of `handleSmoothTransitions` in smooth mode. */
  function AdvanceAllTimes(cells: seq<Letter>, n: nat): (r: seq<Letter>)
    ensures |r| == |cells|
  {
    if n == 0 then cells else AdvanceAll(AdvanceAllTimes(cells, n - 1))
  }

  lemma {:induction false} AdvanceAllTimesAt(cells: seq<Letter>, n: nat, i: nat)
    requires i < |cells|
    ensures AdvanceAllTimes(cells, n)[i] == AdvanceTimes(cells[i], n)
  {
    if n > 0 {
      AdvanceAllTimesAt(cells, n - 1, i);
    }
  }

  /** Twenty calls settle every letter in flight: nothing is left to animate. */
  lemma TransitionsSettle(cells: seq<Letter>)
    requires AllCoherent(cells)
    ensures var r := AdvanceAllTimes(cells, Steps);
      !InFlight(r) && AllCoherent(r)
      && forall i :: 0 <= i < |r| ==> r[i].color == cells[i].targetColor
  {
    var r := AdvanceAllTimes(cells, Steps);
    forall i | 0 <= i < |r|
      ensures r[i].progress == Steps && Coherent(r[i]) && r[i].color == cells[i].targetColor
    {
      AdvanceAllTimesAt(cells, Steps, i);
      AdvanceTimesProgress(cells[i], Steps);
      TransitionSettles(cells[i]);
    }
  }

  // ---------------------------------------------------------------------
  // drawLetters

  /** One `fillText` call: where, which glyph, in which colour. */
  datatype Glyph = Glyph(at: Point, ch: char, color: string)

  /** The glyphs `drawLetters` paints, in order; nothing when there are no letters. */
  function Paint(cells: seq<Letter>, columns: nat): (p: seq<Glyph>)
    requires cells == [] || columns > 0
    ensures |p| == |cells|
    ensures forall i, j :: 0 <= i < j < |p| ==> p[i].at != p[j].at
  {
    if cells == [] then []
    else
      var p := seq(|cells|, i requires 0 <= i < |cells| => Glyph(CellPosition(i, columns), cells[i].ch, RgbToString(cells[i].color)));
      assert forall i, j :: 0 <= i < j < |p| ==> p[i].at != p[j].at by {
        forall i, j | 0 <= i < j < |p| ensures p[i].at != p[j].at {
          CellPositionInjective(i, j, columns);
        }
      }
      p
  }

  /** Each letter is painted once, in its own colour, at its own cell of the grid. */
  lemma PaintLayout(cells: seq<Letter>, g: Dims)
    requires |cells| == Total(g) && |cells| > 0
    ensures g.columns > 0
    ensures var p := Paint(cells, g.columns);
      |p| == |cells|
      && (forall i :: 0 <= i < |p| ==>
            p[i].ch == cells[i].ch && p[i].color == RgbToString(cells[i].color)
            && 0 <= p[i].at.x < g.columns * CharWidth && 0 <= p[i].at.y < g.rows * CharHeight)
  {
    var p := Paint(cells, g.columns);
    forall i | 0 <= i < |p|
      ensures 0 <= p[i].at.x < g.columns * CharWidth && 0 <= p[i].at.y < g.rows * CharHeight
    {
      CellPositionInGrid(i, g);
    }
  }

  // ---------------------------------------------------------------------
  // The component's state

  /** `rect.width || window.innerWidth`: the container's size, or the window's while it has none. */
  function ViewportSize(rect: nat, window: nat): nat {
    if rect == 0 then window else rect
  }

  /** The grid `resizeCanvas` computes from the container's and the window's sizes. */
  function ViewportGrid(rectWidth: nat, rectHeight: nat, innerWidth: nat, innerHeight: nat): Dims {
    CalculateGrid(ViewportSize(rectWidth, innerWidth), ViewportSize(rectHeight, innerHeight))
  }

  class Animator {
    const palette: seq<Rgb>
    const smooth: bool
    const glitchSpeed: int

    var letters: array<Letter>
    var grid: Dims
    var width: nat
    var height: nat
    var lastGlitchTime: int
    var frame: Option<FrameId>

    /** The array always matches the grid, and every letter is coherent. */
    ghost predicate Valid()
      reads this, letters
    {
      ValidPalette(palette)
      && letters.Length == Total(grid)
      && AllCoherent(letters[..])
    }

    /** The animation loop is scheduled. */
    predicate Running()
      reads this
    {
      frame.Some?
    }

    /** The state before the first resize: no letters, no grid, no frame requested. */
    constructor (options: Options, now: int)
      ensures Valid() && !Running()
      ensures palette == Palette(options.glitchColors)
      ensures smooth == options.smooth && glitchSpeed == options.glitchSpeed
      ensures grid == Dims(0, 0) && letters.Length == 0 && width == 0 && height == 0
      ensures lastGlitchTime == now
    {
      palette := Palette(options.glitchColors);
      smooth := options.smooth;
      glitchSpeed := options.glitchSpeed;
      letters := new Letter[0];
      grid := Dims(0, 0);
      width, height := 0, 0;
      lastGlitchTime := now;
      frame := None;
    }

    /** `initializeLetters`: a fresh array of settled letters for a new grid. */
    method InitializeLetters(columns: nat, rows: nat, draws: seq<CellDraw>)
      requires ValidPalette(palette)
      requires |draws| == columns * rows
      modifies this
      ensures Valid()
      ensures grid == Dims(columns, rows) && fresh(letters)
      ensures letters[..] == InitialLetters(palette, draws)
      ensures width == old(width) && height == old(height)
      ensures lastGlitchTime == old(lastGlitchTime) && frame == old(frame)
    {
      grid := Dims(columns, rows);
      var total := columns * rows;
      letters := new Letter[total](i requires 0 <= i < total => NewLetter(palette, draws[i]));
      assert letters[..] == InitialLetters(palette, draws);
    }

    /** `resizeCanvas` (the debounced resize callback): new size, new grid, all letters replaced. */
    method ResizeCanvas(rectWidth: nat, rectHeight: nat, innerWidth: nat, innerHeight: nat, draws: seq<CellDraw>)
      requires ValidPalette(palette)
      requires |draws| == Total(ViewportGrid(rectWidth, rectHeight, innerWidth, innerHeight))
      modifies this
      ensures Valid()
      ensures width == ViewportSize(rectWidth, innerWidth) && height == ViewportSize(rectHeight, innerHeight)
      ensures grid == CalculateGrid(width, height) && fresh(letters)
      ensures letters[..] == InitialLetters(palette, draws)
      ensures lastGlitchTime == old(lastGlitchTime) && frame == old(frame)
    {
      width := ViewportSize(rectWidth, innerWidth);
      height := ViewportSize(rectHeight, innerHeight);
      var g := CalculateGrid(width, height);
      InitializeLetters(g.columns, g.rows, draws);
    }

    /** The body of the `updateLetters` loop: the drawn letter takes a new glyph and a new target colour. */
    method MutateDrawn(d: GlitchDraw)
      requires letters.Length > 0
      modifies letters
      ensures letters[..] == GlitchStep(old(letters[..]), d, palette, smooth)
    {
      var index := DrawnIndex(letters.Length, d);
      var letter := letters[index];
      var ch := RandomChar(d.ch);
      var target := PickColor(palette, d.color);
      if smooth {
        letters[index] := letter.(ch := ch, startColor := ParseColorToRgb(RgbToString(letter.color)).GetOr(target),
                                  targetColor := target, progress := 0);
      } else {
        letters[index] := letter.(ch := ch, color := target, startColor := target,
                                  targetColor := target, progress := Steps);
      }
    }

    /** `updateLetters`: one glitch tick. */
    method UpdateLetters(draws: seq<GlitchDraw>) returns (updated: bool)
      requires Valid()
      requires letters.Length > 0 ==> |draws| == UpdateCount(letters.Length)
      modifies letters
      ensures Valid()
      ensures updated <==> letters.Length > 0
      ensures letters[..] == if updated then ApplyGlitches(old(letters[..]), draws, palette, smooth)
                             else old(letters[..])
    {
      if letters.Length == 0 {
        return false;
      }
      ghost var before := letters[..];
      var total := letters.Length;
      var updates := UpdateCount(total);
      updated := false;
      for i := 0 to updates
        invariant letters[..] == ApplyGlitches(before, draws[..i], palette, smooth)
        invariant updated <==> i > 0
      {
        ghost var prev := letters[..];
        MutateDrawn(draws[i]);
        updated := true;
        assert draws[..i + 1][..i] == draws[..i];
        assert ApplyGlitches(before, draws[..i + 1], palette, smooth) == GlitchStep(prev, draws[i], palette, smooth);
      }
      assert draws[..updates] == draws;
      ApplyGlitchesCoherent(before, draws, palette, smooth);
    }

    /** The body of the `handleSmoothTransitions` loop: one step of the transition of cell `i`. */
    method AdvanceLetter(i: nat) returns (moved: bool)
      requires i < letters.Length
      modifies letters
      ensures letters[..] == old(letters[..])[i := Advance(old(letters[i]))]
      ensures moved <==> old(letters[i]).progress < Steps
    {
      var letter := letters[i];
      moved := letter.progress < Steps;
      if moved {
        var p := Min(Steps, letter.progress + 1);
        var interpolated := InterpolateColor(letter.startColor, letter.targetColor, p, Steps);
        letters[i] := letter.(progress := p, color := interpolated);
      }
    }

    /** `handleSmoothTransitions`: one frame of every transition in flight. */
    method HandleSmoothTransitions() returns (needsRedraw: bool)
      requires Valid()
      modifies letters
      ensures Valid()
      ensures needsRedraw <==> smooth && InFlight(old(letters[..]))
      ensures letters[..] == if smooth then AdvanceAll(old(letters[..])) else old(letters[..])
    {
      if !smooth {
        return false;
      }
      ghost var before := letters[..];
      needsRedraw := false;
      for i := 0 to letters.Length
        invariant forall j :: 0 <= j < i ==> letters[j] == Advance(before[j])
        invariant forall j :: i <= j < letters.Length ==> letters[j] == before[j]
        invariant needsRedraw <==> exists j :: 0 <= j < i && before[j].progress < Steps
      {
        var moved := AdvanceLetter(i);
        needsRedraw := needsRedraw || moved;
      }
      assert letters[..] == AdvanceAll(before);
      AdvanceAllCoherent(before);
    }

    /** The mutation step is due at `timestamp`. */
    predicate Due(timestamp: int)
      reads this
    {
      timestamp - lastGlitchTime >= glitchSpeed
    }

    /** `animate`: one frame of the loop, and the request for the next one. */
    method Animate(timestamp: int, draws: seq<GlitchDraw>, next: FrameId) returns (redraw: bool)
      requires Valid() && Running()
      requires letters.Length > 0 ==> |draws| == UpdateCount(letters.Length)
      modifies this, letters
      ensures Valid() && Running() && frame == Some(next)
      ensures letters == old(letters) && grid == old(grid)
      ensures width == old(width) && height == old(height)
      ensures lastGlitchTime == if old(Due(timestamp)) then timestamp else old(lastGlitchTime)
      ensures var glitched := if old(Due(timestamp)) && letters.Length > 0
                              then ApplyGlitches(old(letters[..]), draws, palette, smooth)
                              else old(letters[..]);
        letters[..] == (if smooth then AdvanceAll(glitched) else glitched)
        && (redraw <==> (old(Due(timestamp)) && letters.Length > 0) || (smooth && InFlight(glitched)))
    {
      redraw := false;
      if Due(timestamp) {
        var updated := UpdateLetters(draws);
        if updated {
          redraw := true;
        }
        lastGlitchTime := timestamp;
      }
      var advanced := HandleSmoothTransitions();
      if advanced {
        redraw := true;
      }
      frame := Some(next);
    }

    /** The `visibilitychange` handler: pause when hidden, resume when shown again. */
    method OnVisibilityChange(hidden: bool, now: int, next: FrameId)
      requires Valid()
      modifies this
      ensures Valid()
      ensures letters == old(letters) && grid == old(grid)
      ensures width == old(width) && height == old(height)
      ensures hidden && old(Running()) ==> !Running() && lastGlitchTime == old(lastGlitchTime)
      ensures !hidden && !old(Running()) ==> frame == Some(next) && lastGlitchTime == now
      ensures hidden == !old(Running()) ==> frame == old(frame) && lastGlitchTime == old(lastGlitchTime)
    {
      if hidden && frame.Some? {
        frame := None;
      } else if !hidden && frame.None? {
        lastGlitchTime := now;
        frame := Some(next);
      }
    }
  }

  /**
   * `initLetterGlitchBackground`: nothing happens without the container
   * or without a 2D context; otherwise the state is built, sized, filled
   * and the loop is started.
   */
  method InitLetterGlitchBackground(hasContainer: bool, hasContext: bool, options: Options, now: int,
                                    rectWidth: nat, rectHeight: nat, innerWidth: nat, innerHeight: nat,
                                    draws: seq<CellDraw>, first: FrameId)
    returns (a: Animator?)
    requires |draws| == Total(ViewportGrid(rectWidth, rectHeight, innerWidth, innerHeight))
    ensures a == null <==> !(hasContainer && hasContext)
    ensures a != null ==>
      fresh(a) && a.Valid() && a.Running() && a.frame == Some(first) && a.lastGlitchTime == now
      && a.palette == Palette(options.glitchColors)
      && a.smooth == options.smooth && a.glitchSpeed == options.glitchSpeed
      && a.width == ViewportSize(rectWidth, innerWidth) && a.height == ViewportSize(rectHeight, innerHeight)
      && a.grid == ViewportGrid(rectWidth, rectHeight, innerWidth, innerHeight)
      && a.letters[..] == InitialLetters(a.palette, draws)
  {
    if !hasContainer {
      return null;
    }
    var state := new Animator(options, now);
    if !hasContext {
      return null;
    }
    state.ResizeCanvas(rectWidth, rectHeight, innerWidth, innerHeight, draws);
    state.frame := Some(first);
    a := state;
  }
}
