/**
 * The bounded heatmap grid of coverage/grid.ts, over exact reals. The square root
 * is an argument: any non-negative value may come back from it.
 */
module Grid {

  const MAX_HEATMAP_CELLS := 250000

  datatype GridDims = GridDims(cols: int, rows: int, cellSizeM: real)

  function RealMax(a: real, b: real): real { if a >= b then a else b }

  function Ceil(x: real): int { -((-x).Floor) }

  /** Cells of side `cell` needed along a side of `length` metres, at least one. */
  function CellsAlong(length: real, cell: real): (n: int)
    requires cell > 0.0
    ensures n >= 1
  {
    var n := Ceil(length / cell);
    if n >= 1 then n else 1
  }

  lemma CeilBounds(x: real)
    ensures (Ceil(x) - 1) as real < x <= Ceil(x) as real
  {
    assert (Ceil(x) - 1) as real == Ceil(x) as real - 1.0;
  }

  /** They cover the side, and no smaller number of at least one cell does. */
  lemma CellsCoverTightly(length: real, cell: real)
    requires cell > 0.0
    ensures var n := CellsAlong(length, cell);
            && n as real * cell >= length
            && (n == 1 || (n - 1) as real * cell < length)
  {
    var q := length / cell;
    CeilBounds(q);
    ScaledBounds(length, cell, q, CellsAlong(length, cell), Ceil(q));
  }

  lemma ScaledBounds(length: real, cell: real, q: real, n: int, c: int)
    requires cell > 0.0 && q * cell == length
    requires (c - 1) as real < q <= c as real
    requires n == if c >= 1 then c else 1
    ensures n as real * cell >= length
    ensures n == 1 || (n - 1) as real * cell < length
  {
    assert n as real >= q;
    Scale(n as real, q, cell, length);
    if n == c { ScaleStrictly((n - 1) as real, q, cell, length); }
  }

  lemma Scale(a: real, b: real, f: real, bf: real)
    requires a >= b && f >= 0.0 && b * f == bf
    ensures a * f >= bf
  {
    assert (a - b) * f >= 0.0;
    assert (a - b) * f == a * f - bf;
  }

  lemma ScaleStrictly(a: real, b: real, f: real, bf: real)
    requires a < b && f > 0.0 && b * f == bf
    ensures a * f < bf
  {
    assert (b - a) * f > 0.0;
    assert (b - a) * f == bf - a * f;
  }

  /** A cell as long as the side needs one cell only. */
  lemma OneCellSuffices(length: real, cell: real)
    requires cell > 0.0 && length <= cell
    ensures CellsAlong(length, cell) == 1
  {
    CellsCoverTightly(length, cell);
    var n := CellsAlong(length, cell);
  }

  predicate TooMany(cols: int, rows: int) { cols * rows > MAX_HEATMAP_CELLS }

  predicate Overflows(w: real, h: real, cell: real)
    requires cell > 0.0
  {
    TooMany(CellsAlong(w, cell), CellsAlong(h, cell))
  }

  lemma OverflowMeansSmallCell(w: real, h: real, cell: real)
    requires cell > 0.0 && Overflows(w, h, cell)
    ensures cell < RealMax(w, h)
  {
    if cell >= w && cell >= h {
      OneCellSuffices(w, cell);
      OneCellSuffices(h, cell);
    }
  }

  /** Enlargements by 5% needed before one cell covers the plan: the loop cannot take more. */
  function StepsLeft(w: real, h: real, cell: real): (n: nat)
    requires cell > 0.0
  {
    var q := RealMax(w, h) / cell;
    if q <= 1.0 then 0 else Ceil((q - 1.0) * 21.0)
  }

  lemma StepsDecrease(w: real, h: real, cell: real)
    requires cell > 0.0 && cell < RealMax(w, h)
    ensures StepsLeft(w, h, cell * 1.05) < StepsLeft(w, h, cell)
  {
    var top := RealMax(w, h);
    var q, q' := top / cell, top / (cell * 1.05);
    assert q > 1.0 by { ScaleQuotient(top, cell, 1.0); }
    assert q' == q / 1.05 by {
      assert q * cell == top && q' * (cell * 1.05) == top;
      assert (q' * 1.05 - q) * cell == 0.0;
    }
    assert (q - 1.0) * 21.0 - (q' - 1.0) * 21.0 == q;
  }

  lemma ScaleQuotient(top: real, cell: real, bound: real)
    requires cell > 0.0 && top > bound * cell
    ensures top / cell > bound
  {
    var q := top / cell;
    assert q * cell == top;
  }

  /** The cell size at which the enlarging loop stops. */
  function Enlarged(w: real, h: real, cell: real): (r: real)
    requires cell > 0.0
    ensures r >= cell && !Overflows(w, h, r)
    ensures Overflows(w, h, cell) ==> r > cell
    decreases StepsLeft(w, h, cell)
  {
    if Overflows(w, h, cell) then
      OverflowMeansSmallCell(w, h, cell);
      StepsDecrease(w, h, cell);
      Enlarged(w, h, cell * 1.05)
    else cell
  }

  /** The cell side that would give exactly the capped number of cells, by the given square root. */
  function CappedSide(w: real, h: real, sqrt: real -> real): real {
    sqrt(w * h / MAX_HEATMAP_CELLS as real)
  }

  function Requested(cellSizeM: real): (cell: real)
    ensures cell > 0.0
  {
    if cellSizeM > 0.0 then cellSizeM else 0.5
  }

  /** The resolved cell size as a function of the inputs and of the square root. */
  function CellFor(widthM: real, heightM: real, cellSizeM: real, sqrt: real -> real): (cell: real)
    ensures cell > 0.0
  {
    var w, h := RealMax(0.0, widthM), RealMax(0.0, heightM);
    var cell := Requested(cellSizeM);
    if Overflows(w, h, cell)
    then Enlarged(w, h, RealMax(cell, CappedSide(w, h, sqrt)))
    else cell
  }

  /** g is laid over a widthM x heightM plan with cells of its own side. */
  predicate LaidOver(g: GridDims, widthM: real, heightM: real) {
    && g.cellSizeM > 0.0
    && g.cols == CellsAlong(RealMax(0.0, widthM), g.cellSizeM)
    && g.rows == CellsAlong(RealMax(0.0, heightM), g.cellSizeM)
  }

  /** The grid of a plan: the resolved cell size, and the cells it takes along each side. */
  function GridFor(widthM: real, heightM: real, cellSizeM: real, sqrt: real -> real): (g: GridDims)
    ensures LaidOver(g, widthM, heightM)
  {
    var cell := CellFor(widthM, heightM, cellSizeM, sqrt);
    GridDims(CellsAlong(RealMax(0.0, widthM), cell), CellsAlong(RealMax(0.0, heightM), cell), cell)
  }

  // ----- How long a cell may get

  lemma CellsShrink(length: real, small: real, large: real)
    requires length >= 0.0 && 0.0 < small <= large
    ensures CellsAlong(length, large) <= CellsAlong(length, small)
  {
    CellsCoverTightly(length, large);
    CellsCoverTightly(length, small);
    var n, k := CellsAlong(length, large), CellsAlong(length, small);
    if n > k {
      assert (n - 1) as real >= k as real;
      Scale((n - 1) as real, k as real, large, k as real * large);
      Scale(large, small, k as real, small * k as real);
    }
  }

  lemma OverflowShrinks(w: real, h: real, small: real, large: real)
    requires w >= 0.0 && h >= 0.0 && 0.0 < small <= large && Overflows(w, h, large)
    ensures Overflows(w, h, small)
  {
    CellsShrink(w, small, large);
    CellsShrink(h, small, large);
    var a, b, c, d := CellsAlong(w, large), CellsAlong(h, large), CellsAlong(w, small), CellsAlong(h, small);
    assert a * b <= c * b && c * b <= c * d by {
      ProductGrows(a, c, b);
      ProductGrows(b, d, c);
    }
  }

  lemma ProductGrows(a: int, b: int, f: int)
    requires a <= b && f >= 0
    ensures a * f <= b * f && f * a <= f * b
  {
  }

  lemma {:induction false} EnlargedIsTight(w: real, h: real, cell: real, fits: real)
    requires w >= 0.0 && h >= 0.0 && 0.0 < cell <= fits && !Overflows(w, h, fits)
    ensures Enlarged(w, h, cell) <= 1.05 * fits
    decreases StepsLeft(w, h, cell)
  {
    if Overflows(w, h, cell) {
      OverflowMeansSmallCell(w, h, cell);
      StepsDecrease(w, h, cell);
      if cell * 1.05 <= fits {
        EnlargedIsTight(w, h, cell * 1.05, fits);
      } else if Overflows(w, h, cell * 1.05) {
        OverflowShrinks(w, h, fits, cell * 1.05);
      }
    }
  }

  /** A cell that fits is at least as long as the side that divides the area into the capped number of cells. */
  lemma FitsMeansCapped(w: real, h: real, fits: real, side: real)
    requires w >= 0.0 && h >= 0.0 && fits > 0.0 && !Overflows(w, h, fits)
    requires side >= 0.0 && side * side == w * h / MAX_HEATMAP_CELLS as real
    ensures side <= fits
  {
    var c, r := CellsAlong(w, fits), CellsAlong(h, fits);
    CellsCoverTightly(w, fits);
    CellsCoverTightly(h, fits);
    assert c * r <= MAX_HEATMAP_CELLS;
    CappedFits(w, h, c, r, fits, side);
  }

  lemma CappedFits(w: real, h: real, c: int, r: int, fits: real, side: real)
    requires 0.0 <= w <= c as real * fits && 0.0 <= h <= r as real * fits && fits > 0.0 && c * r <= MAX_HEATMAP_CELLS
    requires side >= 0.0 && side * side == w * h / MAX_HEATMAP_CELLS as real
    ensures side <= fits
  {
    var cells, square, area := (c * r) as real, fits * fits, w * h;
    AreaWithin(w, h, c as real, r as real, fits);
    assert c as real * r as real == cells && square >= 0.0;
    Scale(250000.0, cells, square, cells * square);
    assert area <= 250000.0 * square;
    assert side * side == area / 250000.0;
    ShorterSide(side, fits);
  }

  lemma AreaWithin(w: real, h: real, c: real, r: real, fits: real)
    requires 0.0 <= w <= c * fits && 0.0 <= h <= r * fits
    ensures w * h <= c * r * (fits * fits)
  {
    Scale(c * fits, w, h, w * h);
    Scale(r * fits, h, c * fits, h * (c * fits));
    assert (r * fits) * (c * fits) == c * r * (fits * fits);
  }

  lemma ShorterSide(side: real, fits: real)
    requires side >= 0.0 && fits > 0.0 && side * side <= fits * fits
    ensures side <= fits
  {
    if side > fits {
      ScaleStrictly(fits, side, side, side * side);
      Scale(side, fits, fits, fits * fits);
      assert false;
    }
  }

  /**
   * With an exact square root, the cell is at most 5% longer than any that is not shorter than requested and keeps the
   * grid under the cap.
   */
  lemma CellGrowsAsNeeded(widthM: real, heightM: real, cellSizeM: real, sqrt: real -> real, fits: real)
    requires forall x :: x >= 0.0 ==> sqrt(x) >= 0.0 && sqrt(x) * sqrt(x) == x
    requires fits >= Requested(cellSizeM) && !Overflows(RealMax(0.0, widthM), RealMax(0.0, heightM), fits)
    ensures Requested(cellSizeM) <= CellFor(widthM, heightM, cellSizeM, sqrt) <= 1.05 * fits
  {
    var w, h, cell := RealMax(0.0, widthM), RealMax(0.0, heightM), Requested(cellSizeM);
    if Overflows(w, h, cell) {
      var x := w * h / MAX_HEATMAP_CELLS as real;
      assert x >= 0.0;
      FitsMeansCapped(w, h, fits, CappedSide(w, h, sqrt));
      EnlargedIsTight(w, h, RealMax(cell, CappedSide(w, h, sqrt)), fits);
    }
  }

  /** Whatever the inputs and the square root, the grid has a cell and stays under the cap. */
  lemma GridUnderCap(widthM: real, heightM: real, cellSizeM: real, sqrt: real -> real)
    ensures var g := GridFor(widthM, heightM, cellSizeM, sqrt);
            && g.cols >= 1 && g.rows >= 1 && g.cellSizeM > 0.0
            && g.cols * g.rows <= 250000
  {
    var g := GridFor(widthM, heightM, cellSizeM, sqrt);
    assert !TooMany(g.cols, g.rows);
  }

  /** Every grid that GridFor lays over a plan reaches the far edges of the plan. */
  lemma GridCoversPlan(g: GridDims, widthM: real, heightM: real)
    requires LaidOver(g, widthM, heightM)
    ensures g.cols as real * g.cellSizeM >= widthM
    ensures g.rows as real * g.cellSizeM >= heightM
  {
  }

  method ResolveGrid(widthM: real, heightM: real, cellSizeM: real, sqrt: real -> real) returns (g: GridDims)
    ensures g == GridFor(widthM, heightM, cellSizeM, sqrt)
    ensures g.cols >= 1 && g.rows >= 1 && g.cellSizeM > 0.0
  {
    var w, h := RealMax(0.0, widthM), RealMax(0.0, heightM);
    var cell := Requested(cellSizeM);
    var cols, rows := CellsAlong(w, cell), CellsAlong(h, cell);
    if TooMany(cols, rows) {
      cell := RealMax(cell, CappedSide(w, h, sqrt));
      cols, rows := CellsAlong(w, cell), CellsAlong(h, cell);
      ghost var start := cell;
      while TooMany(cols, rows)
        invariant cell > 0.0
        invariant cols == CellsAlong(w, cell) && rows == CellsAlong(h, cell)
        invariant Enlarged(w, h, cell) == Enlarged(w, h, start)
        decreases StepsLeft(w, h, cell)
      {
        OverflowMeansSmallCell(w, h, cell);
        StepsDecrease(w, h, cell);
        cell := cell * 1.05;
        cols, rows := CellsAlong(w, cell), CellsAlong(h, cell);
      }
    }
    g := GridDims(cols, rows, cell);
  }

  /** A positive requested side is never shrunk, and is kept exactly when it fits under the cap. */
  lemma RequestKeptIffItFits(widthM: real, heightM: real, cellSizeM: real, sqrt: real -> real)
    requires cellSizeM > 0.0
    ensures var w, h := RealMax(0.0, widthM), RealMax(0.0, heightM);
            var cell := CellFor(widthM, heightM, cellSizeM, sqrt);
            && cell >= cellSizeM
            && (cell == cellSizeM <==> !Overflows(w, h, cellSizeM))
  {
  }
}
