/**
 * What the two heatmaps share: floating-point library calls as arguments and the
 * row-major raster.
 */
module Coverage {
  import opened Segments
  import opened Grid
  import opened Options

  /** The library calls of the coverage code. Only signs are ever assumed of them. */
  datatype MathFns = MathFns(hypot: (real, real) -> real, log10: real -> real, sqrt: real -> real,
                             pow: (real, real) -> real)

  /** hypot is never negative, and powers of positive numbers are positive. */
  ghost predicate Sane(m: MathFns) {
    && (forall x, y :: m.hypot(x, y) >= 0.0)
    && (forall x, y :: x > 0.0 ==> m.pow(x, y) > 0.0)
  }

  datatype Source = Predicted | Measured

  datatype CoverageHeatmap = CoverageHeatmap(band: Band, source: Source, widthM: real, heightM: real,
                                             cols: nat, rows: nat, cellSizeM: real,
                                             values: seq<Option<real>>, minDbm: real, maxDbm: real)

  const DEFAULT_CELL_SIZE_M := 0.5
  const ROWS_PER_YIELD := 32

  function Center(row: nat, col: nat, cellSizeM: real): Point {
    Point((col as real + 0.5) * cellSizeM, (row as real + 0.5) * cellSizeM)
  }

  /** The point of a cell lies halfway between its edges, in both directions. */
  lemma CenterIsMiddle(row: nat, col: nat, cellSizeM: real)
    ensures var c := Center(row, col, cellSizeM);
            && c.x - col as real * cellSizeM == (col + 1) as real * cellSizeM - c.x == cellSizeM / 2.0
            && c.y - row as real * cellSizeM == (row + 1) as real * cellSizeM - c.y == cellSizeM / 2.0
  {
    Halfway(col, cellSizeM);
    Halfway(row, cellSizeM);
  }

  lemma Halfway(n: nat, cell: real)
    ensures var at := (n as real + 0.5) * cell;
            at - n as real * cell == (n + 1) as real * cell - at == cell / 2.0
  {
    assert (n as real + 0.5) * cell == n as real * cell + 0.5 * cell;
    assert (n + 1) as real * cell == n as real * cell + cell;
  }

  /** row * cols, by repeated addition: where a row starts in the row-major buffer. */
  ghost function RowStart(row: nat, cols: nat): nat {
    if row == 0 then 0 else RowStart(row - 1, cols) + cols
  }

  lemma {:induction false} RowStartIsProduct(row: nat, cols: nat)
    ensures RowStart(row, cols) == row * cols
  {
    if row > 0 {
      RowStartIsProduct(row - 1, cols);
      assert (row - 1) * cols + cols == row * cols;
    }
  }

  ghost function Index(row: nat, col: nat, cols: nat): nat { RowStart(row, cols) + col }

  lemma {:induction false} RowStartMonotone(row: nat, later: nat, cols: nat)
    requires row <= later
    ensures RowStart(row, cols) <= RowStart(later, cols)
    decreases later
  {
    if row < later { RowStartMonotone(row, later - 1, cols); }
  }

  /** The cells of a row lie in the buffer before any later row. */
  lemma IndexBefore(row: nat, col: nat, cols: nat, later: nat)
    requires row < later && col < cols
    ensures Index(row, col, cols) < RowStart(later, cols)
  {
    RowStartMonotone(row + 1, later, cols);
  }

  /** Row-major order visits every cell: each index below rows * cols is that of a (row, col). */
  lemma {:induction false} CellOf(i: nat, cols: nat, rows: nat) returns (row: nat, col: nat)
    requires i < RowStart(rows, cols)
    ensures row < rows && col < cols && Index(row, col, cols) == i
  {
    if i >= RowStart(rows - 1, cols) {
      row, col := rows - 1, i - RowStart(rows - 1, cols);
    } else {
      row, col := CellOf(i, cols, rows - 1);
    }
  }

  /** What a map promises of the value in the cell at (row, col). */
  type CellPromise = (Option<real>, nat, nat) -> bool

  /** Every cell before (row, col) in row-major order holds what is promised of it. */
  ghost predicate FilledUpTo(values: seq<Option<real>>, row: nat, col: nat, cols: nat, promise: CellPromise) {
    && Index(row, col, cols) <= |values|
    && forall r: nat, c: nat :: c < cols && (r < row || (r == row && c < col)) ==>
         Index(r, c, cols) < |values| && promise(values[Index(r, c, cols)], r, c)
  }

  /** Writing the next cell extends the filled part and touches nothing before it. */
  lemma FillNext(was: seq<Option<real>>, now: seq<Option<real>>, row: nat, col: nat, cols: nat, promise: CellPromise)
    requires col < cols && FilledUpTo(was, row, col, cols, promise)
    requires Index(row, col, cols) < |was| == |now|
    requires now == was[Index(row, col, cols) := now[Index(row, col, cols)]]
    requires promise(now[Index(row, col, cols)], row, col)
    ensures FilledUpTo(now, row, col + 1, cols, promise)
  {
    forall r: nat, c: nat | c < cols && (r < row || (r == row && c < col))
      ensures Index(r, c, cols) < |now| && now[Index(r, c, cols)] == was[Index(r, c, cols)]
    {
      if r < row { IndexBefore(r, c, cols, row); }
    }
  }

  // ----- Extremes of the non-null cells

  ghost predicate IsMinOf(m: Option<real>, vs: seq<Option<real>>) {
    match m
    case None => forall i :: 0 <= i < |vs| ==> vs[i].None?
    case Some(x) => m in vs && forall i :: 0 <= i < |vs| && vs[i].Some? ==> x <= vs[i].value
  }

  ghost predicate IsMaxOf(m: Option<real>, vs: seq<Option<real>>) {
    match m
    case None => forall i :: 0 <= i < |vs| ==> vs[i].None?
    case Some(x) => m in vs && forall i :: 0 <= i < |vs| && vs[i].Some? ==> vs[i].value <= x
  }
}
