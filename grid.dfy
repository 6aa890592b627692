/**
 * The character grid of the glitch background: how many 10x20 px cells
 * cover the canvas, and where `drawLetters` paints the cell at a given
 * index of the row-major cell array.
 */
module Grid {
  import opened Arith

  const CharWidth: nat := 10
  const CharHeight: nat := 20

  datatype Dims = Dims(columns: nat, rows: nat)

  /** Number of cells of a grid, the length of the cell array. */
  function Total(g: Dims): nat { g.columns * g.rows }

  /** `Math.ceil(x / d)` for a whole number of pixels. */
  function CeilDiv(x: nat, d: nat): (q: nat)
    requires d > 0
    ensures q * d - d < x <= q * d
  {
    var q := (x + d - 1) / d;
    assert d * q <= x + d - 1 < d * q + d;
    q
  }

  /** `calculateGrid`: the fewest whole cells that cover the canvas. */
  function CalculateGrid(width: nat, height: nat): (g: Dims)
    ensures (g.columns - 1) * CharWidth < width <= g.columns * CharWidth
    ensures (g.rows - 1) * CharHeight < height <= g.rows * CharHeight
  {
    Dims(CeilDiv(width, CharWidth), CeilDiv(height, CharHeight))
  }

  lemma CeilDivMonotone(x: nat, y: nat, d: nat)
    requires d > 0 && x <= y
    ensures CeilDiv(x, d) <= CeilDiv(y, d)
  {
    var p, q := CeilDiv(x, d), CeilDiv(y, d);
    if p > q {
      MulMono(d, q, p - 1);
    }
  }

  /** A container that shrinks never gets more columns, rows or cells. */
  lemma CalculateGridMonotone(w1: nat, h1: nat, w2: nat, h2: nat)
    requires w1 <= w2 && h1 <= h2
    ensures CalculateGrid(w1, h1).columns <= CalculateGrid(w2, h2).columns
    ensures CalculateGrid(w1, h1).rows <= CalculateGrid(w2, h2).rows
    ensures Total(CalculateGrid(w1, h1)) <= Total(CalculateGrid(w2, h2))
  {
    var g1, g2 := CalculateGrid(w1, h1), CalculateGrid(w2, h2);
    CeilDivMonotone(w1, w2, CharWidth);
    CeilDivMonotone(h1, h2, CharHeight);
    MulMono(g1.rows, g1.columns, g2.columns);
    MulMono(g2.columns, g1.rows, g2.rows);
  }

  lemma CalculateGridExample()
    ensures CalculateGrid(300, 200) == Dims(30, 10) && Total(Dims(30, 10)) == 300
    ensures CalculateGrid(301, 201) == Dims(31, 11)
    ensures CalculateGrid(0, 0) == Dims(0, 0)
  {
  }

  datatype Point = Point(x: int, y: int)

  /** The pixel position `drawLetters` gives the cell at `index`. */
  function CellPosition(index: nat, columns: nat): Point
    requires columns > 0
  {
    Point((index % columns) * CharWidth, (index / columns) * CharHeight)
  }

  /** Every cell of the array is painted on a cell boundary inside the grid. */
  lemma CellPositionInGrid(index: nat, g: Dims)
    requires g.columns > 0 && index < Total(g)
    ensures var p := CellPosition(index, g.columns);
      0 <= p.x < g.columns * CharWidth && 0 <= p.y < g.rows * CharHeight
      && p.x % CharWidth == 0 && p.y % CharHeight == 0
  {
    var c := g.columns;
    var row := index / c;
    assert c * row <= index;
    MulCancelLt(c, row, g.rows);
  }

  /** The index is recovered from the position: the mapping is row-major. */
  lemma CellIndexOfPosition(index: nat, columns: nat)
    requires columns > 0
    ensures var p := CellPosition(index, columns);
      (p.y / CharHeight) * columns + p.x / CharWidth == index
  {
  }

  /** Distinct cells are painted at distinct positions. */
  lemma CellPositionInjective(i: nat, j: nat, columns: nat)
    requires columns > 0 && i != j
    ensures CellPosition(i, columns) != CellPosition(j, columns)
  {
    CellIndexOfPosition(i, columns);
    CellIndexOfPosition(j, columns);
  }
}
