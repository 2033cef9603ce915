/** The predicted heatmap of coverage/propagation.ts. */
module Propagation {
  import opened Segments
  import opened Grid
  import opened Coverage
  import opened Options

  datatype ApPlacement = ApPlacement(pos: Point, txPowerDbm: real, bands: seq<Band>, enabled: bool)

  datatype PropagationOptions = PropagationOptions(band: Band, cellSizeM: Option<real>,
                                                   pathLossExponent: Option<real>, floorDbm: Option<real>,
                                                   minDistanceM: Option<real>)

  const DEFAULT_PATH_LOSS_EXPONENT := 3.0
  const DEFAULT_FLOOR_DBM := -95.0
  const DEFAULT_MIN_DISTANCE_M := 1.0

  function BandFreqMhz(band: Band): real {
    match band
    case Band24 => 2450.0
    case Band5 => 5500.0
    case Band6 => 6000.0
  }

  function FsplAt1m(band: Band, m: MathFns): real {
    20.0 * m.log10(BandFreqMhz(band)) - 27.55
  }

  function PathLoss(d: real, band: Band, n: real, minDistanceM: real, m: MathFns): real {
    FsplAt1m(band, m) + 10.0 * n * m.log10(Max(d, minDistanceM))
  }

  /** The signal of one access point at p, after distance and walls. */
  ghost function Rssi(p: Point, ap: ApPlacement, walls: seq<Wall>, opts: PropagationOptions, m: MathFns): real {
    var d := m.hypot(p.x - ap.pos.x, p.y - ap.pos.y);
    ap.txPowerDbm
    - PathLoss(d, opts.band, opts.pathLossExponent.GetOr(DEFAULT_PATH_LOSS_EXPONENT),
               opts.minDistanceM.GetOr(DEFAULT_MIN_DISTANCE_M), m)
    - WallLoss(ap.pos, p, walls, opts.band)
  }

  method RssiFromAp(p: Point, ap: ApPlacement, walls: seq<Wall>, opts: PropagationOptions, m: MathFns)
    returns (rssi: real)
    ensures rssi == Rssi(p, ap, walls, opts, m)
  {
    var d := m.hypot(p.x - ap.pos.x, p.y - ap.pos.y);
    var n := opts.pathLossExponent.GetOr(DEFAULT_PATH_LOSS_EXPONENT);
    var minDistanceM := opts.minDistanceM.GetOr(DEFAULT_MIN_DISTANCE_M);
    var pl := PathLoss(d, opts.band, n, minDistanceM, m);
    var loss := WallLossAlong(ap.pos, p, walls, opts.band);
    rssi := ap.txPowerDbm - pl - loss;
  }

  // ----- What the model says of distance, band and walls

  ghost predicate AddsUp(log10: real -> real, x: real, y: real) { x > 0.0 && y > 0.0 ==> log10(x * y) == log10(x) + log10(y) }

  /** What a decimal logarithm is: one for ten, sums for products, and no less for more. */
  ghost predicate IsLog10(log10: real -> real) {
    && log10(10.0) == 1.0
    && (forall x, y :: AddsUp(log10, x, y))
    && (forall x, y :: 0.0 < x <= y ==> log10(x) <= log10(y))
  }

  lemma TimesGrows(k: real, a: real, b: real)
    requires k >= 0.0 && a <= b
    ensures k * a <= k * b
  {
    ProductSign(k, b - a);
    assert k * (b - a) == k * b - k * a;
  }

  lemma TimesOneMore(k: real, a: real)
    ensures k * (1.0 + a) == k * a + k
  {
  }

  /** With exponent 2 it is the loss in free space, of which 27.55 dB is the constant for metres and megahertz. */
  lemma FreeSpaceLoss(d: real, band: Band, minDistanceM: real, m: MathFns)
    requires IsLog10(m.log10) && 0.0 < minDistanceM <= d
    ensures PathLoss(d, band, 2.0, minDistanceM, m) == 20.0 * m.log10(d * BandFreqMhz(band)) - 27.55
  {
    assert AddsUp(m.log10, d, BandFreqMhz(band));
  }

  /** Ten times the distance costs ten times the exponent, in decibels. */
  lemma TenTimesFarther(d: real, band: Band, n: real, minDistanceM: real, m: MathFns)
    requires IsLog10(m.log10) && 0.0 < minDistanceM <= d
    ensures PathLoss(10.0 * d, band, n, minDistanceM, m) == PathLoss(d, band, n, minDistanceM, m) + 10.0 * n
  {
    assert AddsUp(m.log10, 10.0, d);
    TimesOneMore(10.0 * n, m.log10(d));
  }

  /** Loss never falls with distance. */
  lemma FartherLosesMore(near: real, far: real, band: Band, n: real, minDistanceM: real, m: MathFns)
    requires IsLog10(m.log10) && minDistanceM > 0.0 && n >= 0.0 && near <= far
    ensures PathLoss(near, band, n, minDistanceM, m) <= PathLoss(far, band, n, minDistanceM, m)
  {
    var a, b := Max(near, minDistanceM), Max(far, minDistanceM);
    assert 0.0 < a <= b;
    var la, lb := m.log10(a), m.log10(b);
    LossGrows(FsplAt1m(band, m), n, la, lb);
  }

  lemma LossGrows(at1m: real, n: real, la: real, lb: real)
    requires n >= 0.0 && la <= lb
    ensures at1m + 10.0 * n * la <= at1m + 10.0 * n * lb
  {
    TimesGrows(10.0 * n, la, lb);
  }

  /** Nearer than the minimum distance the loss is that at the minimum. */
  lemma NoLessThanAtMinimum(d: real, band: Band, n: real, minDistanceM: real, m: MathFns)
    requires d <= minDistanceM
    ensures PathLoss(d, band, n, minDistanceM, m) == PathLoss(minDistanceM, band, n, minDistanceM, m)
  {
  }

  /** Higher bands lose more in the air and in every wall. */
  lemma HigherBandsLoseMore(d: real, n: real, minDistanceM: real, material: Material, m: MathFns)
    requires IsLog10(m.log10)
    ensures PathLoss(d, Band24, n, minDistanceM, m) <= PathLoss(d, Band5, n, minDistanceM, m) <= PathLoss(d, Band6, n, minDistanceM, m)
    ensures 0.0 < WallAttenuationDb(material, Band24) < WallAttenuationDb(material, Band5) < WallAttenuationDb(material, Band6)
  {
  }

  /** A wall costs its attenuation if it shares a point with the way to the access point, and otherwise nothing. */
  lemma OneMoreWall(p: Point, ap: ApPlacement, walls: seq<Wall>, wall: Wall, opts: PropagationOptions, m: MathFns)
    ensures Rssi(p, ap, walls + [wall], opts, m)
         == Rssi(p, ap, walls, opts, m)
            - if SharePoint(ap.pos, p, wall.c, wall.d) then WallAttenuationDb(wall.material, opts.band) else 0.0
  {
    assert (walls + [wall])[..|walls|] == walls;
    var crossed := Crossed(ap.pos, p, walls);
    IntersectIffSharePoint(ap.pos, p, wall.c, wall.d);
    assert (crossed + [wall])[..|crossed|] == crossed;
  }

  /** Without walls the signal is the power of the access point less the loss over the distance. */
  lemma SignalInTheOpen(p: Point, ap: ApPlacement, opts: PropagationOptions, m: MathFns)
    requires opts.pathLossExponent.None? && opts.minDistanceM.None?
    ensures Rssi(p, ap, [], opts, m) + PathLoss(m.hypot(p.x - ap.pos.x, p.y - ap.pos.y), opts.band, 3.0, 1.0, m) == ap.txPowerDbm
  {
  }

  predicate Emits(ap: ApPlacement, band: Band) { ap.enabled && band in ap.bands }

  function Active(aps: seq<ApPlacement>, band: Band): (r: seq<ApPlacement>)
    ensures forall ap :: ap in r <==> ap in aps && Emits(ap, band)
  {
    if aps == [] then []
    else (if Emits(aps[0], band) then [aps[0]] else []) + Active(aps[1..], band)
  }

  /**
   * The cell promised for point p: the strongest signal over the enabled access points of
   * the band, or null when there is none or the strongest is under the floor.
   */
  ghost predicate CellAt(v: Option<real>, p: Point, aps: seq<ApPlacement>, walls: seq<Wall>,
                         opts: PropagationOptions, m: MathFns)
  {
    var floor := opts.floorDbm.GetOr(-95.0);
    match v
    case None =>
      forall ap :: ap in aps && ap.enabled && opts.band in ap.bands ==> Rssi(p, ap, walls, opts, m) < floor
    case Some(r) =>
      && r >= floor
      && (exists ap :: ap in aps && ap.enabled && opts.band in ap.bands && Rssi(p, ap, walls, opts, m) == r)
      && (forall ap :: ap in aps && ap.enabled && opts.band in ap.bands ==> Rssi(p, ap, walls, opts, m) <= r)
  }

  lemma CellUnique(v: Option<real>, v': Option<real>, p: Point, aps: seq<ApPlacement>, walls: seq<Wall>,
                   opts: PropagationOptions, m: MathFns)
    requires CellAt(v, p, aps, walls, opts, m) && CellAt(v', p, aps, walls, opts, m)
    ensures v == v'
  {
    if v.Some? {
      var ap :| ap in aps && Emits(ap, opts.band) && Rssi(p, ap, walls, opts, m) == v.value;
    }
    if v'.Some? {
      var ap :| ap in aps && Emits(ap, opts.band) && Rssi(p, ap, walls, opts, m) == v'.value;
    }
  }

  /** The strongest signal at p, whatever the floor. */
  method BestRssi(p: Point, active: seq<ApPlacement>, walls: seq<Wall>, opts: PropagationOptions, m: MathFns)
    returns (best: Option<real>)
    ensures best.None? <==> active == []
    ensures best.Some? ==> exists ap :: ap in active && Rssi(p, ap, walls, opts, m) == best.value
    ensures best.Some? ==> forall ap :: ap in active ==> Rssi(p, ap, walls, opts, m) <= best.value
  {
    best := None;
    for i := 0 to |active|
      invariant best.None? <==> i == 0
      invariant best.Some? ==> exists ap :: ap in active && Rssi(p, ap, walls, opts, m) == best.value
      invariant best.Some? ==> forall ap :: ap in active[..i] ==> Rssi(p, ap, walls, opts, m) <= best.value
    {
      var rssi := RssiFromAp(p, active[i], walls, opts, m);
      if best.None? || rssi > best.value {
        best := Some(rssi);
      }
    }
    assert active[..|active|] == active;
  }

  /** The bounds while the map is filled; None stands for the initial infinities. */
  class DbmAccum {
    var minDbm: Option<real>
    var maxDbm: Option<real>

    constructor ()
      ensures minDbm == None && maxDbm == None
    {
      minDbm, maxDbm := None, None;
    }

    method Include(v: Option<real>, ghost seen: seq<Option<real>>)
      requires IsMinOf(minDbm, seen) && IsMaxOf(maxDbm, seen)
      modifies this
      ensures IsMinOf(minDbm, seen + [v]) && IsMaxOf(maxDbm, seen + [v])
    {
      if minDbm.Some? { assert minDbm in seen; }
      if maxDbm.Some? { assert maxDbm in seen; }
      assert (seen + [v])[|seen|] == v;
      if v.Some? {
        if minDbm.None? || v.value < minDbm.value { minDbm := v; }
        if maxDbm.None? || v.value > maxDbm.value { maxDbm := v; }
      }
    }
  }

  datatype PredictedSetup = PredictedSetup(cols: nat, rows: nat, cellSizeM: real, activeAps: seq<ApPlacement>,
                                           walls: seq<Wall>, floorDbm: real, values: array<Option<real>>)

  ghost predicate SetupFor(setup: PredictedSetup, aps: seq<ApPlacement>, walls: seq<Wall>, opts: PropagationOptions) {
    && setup.activeAps == Active(aps, opts.band)
    && setup.walls == walls
    && setup.floorDbm == opts.floorDbm.GetOr(DEFAULT_FLOOR_DBM)
    && setup.values.Length == RowStart(setup.rows, setup.cols)
  }

  method SetupPredicted(widthM: real, heightM: real, aps: seq<ApPlacement>, walls: seq<Wall>,
                        opts: PropagationOptions, m: MathFns)
    returns (setup: PredictedSetup)
    ensures SetupFor(setup, aps, walls, opts) && fresh(setup.values)
    ensures GridDims(setup.cols, setup.rows, setup.cellSizeM)
         == GridFor(widthM, heightM, opts.cellSizeM.GetOr(DEFAULT_CELL_SIZE_M), m.sqrt)
  {
    var g := ResolveGrid(widthM, heightM, opts.cellSizeM.GetOr(DEFAULT_CELL_SIZE_M), m.sqrt);
    RowStartIsProduct(g.rows, g.cols);
    var values := new Option<real>[g.rows * g.cols](_ => None);
    setup := PredictedSetup(g.cols, g.rows, g.cellSizeM, Active(aps, opts.band), walls,
                            opts.floorDbm.GetOr(DEFAULT_FLOOR_DBM), values);
  }

  /** What every cell of the predicted map must hold. */
  ghost function Promise(cellSizeM: real, aps: seq<ApPlacement>, walls: seq<Wall>,
                         opts: PropagationOptions, m: MathFns): CellPromise
  {
    (v: Option<real>, r: nat, c: nat) => CellAt(v, Center(r, c, cellSizeM), aps, walls, opts, m)
  }

  method PredictedCell(p: Point, setup: PredictedSetup, opts: PropagationOptions, ghost aps: seq<ApPlacement>, m: MathFns)
    returns (v: Option<real>)
    requires SetupFor(setup, aps, setup.walls, opts)
    ensures CellAt(v, p, aps, setup.walls, opts, m)
  {
    var best := BestRssi(p, setup.activeAps, setup.walls, opts, m);
    v := if best.None? || best.value < setup.floorDbm then None else best;
  }

  /** The cells before (row, col) are as promised, and the bounds so far are their extremes. */
  ghost predicate Progress(values: seq<Option<real>>, minDbm: Option<real>, maxDbm: Option<real>,
                           row: nat, col: nat, cols: nat, promise: CellPromise)
  {
    && FilledUpTo(values, row, col, cols, promise)
    && IsMinOf(minDbm, values[..Index(row, col, cols)])
    && IsMaxOf(maxDbm, values[..Index(row, col, cols)])
  }

  method PutCell(row: nat, col: nat, cols: nat, values: array<Option<real>>, v: Option<real>, accum: DbmAccum,
                 ghost promise: CellPromise)
    requires col < cols && Index(row, col, cols) == row * cols + col < values.Length && promise(v, row, col)
    requires Progress(values[..], accum.minDbm, accum.maxDbm, row, col, cols, promise)
    modifies values, accum
    ensures Progress(values[..], accum.minDbm, accum.maxDbm, row, col + 1, cols, promise)
  {
    var at := row * cols + col;
    ghost var was := values[..];
    values[at] := v;
    ghost var now := values[..];
    FillNext(was, now, row, col, cols, promise);
    assert now[..at + 1] == was[..at] + [v];
    accum.Include(v, was[..at]);
    assert values[..] == now;
  }

  method FillPredictedRow(row: nat, setup: PredictedSetup, opts: PropagationOptions, accum: DbmAccum,
                          ghost aps: seq<ApPlacement>, m: MathFns)
    requires SetupFor(setup, aps, setup.walls, opts) && row < setup.rows
    requires FilledUpTo(setup.values[..], row, 0, setup.cols, Promise(setup.cellSizeM, aps, setup.walls, opts, m))
    requires IsMinOf(accum.minDbm, setup.values[..RowStart(row, setup.cols)])
    requires IsMaxOf(accum.maxDbm, setup.values[..RowStart(row, setup.cols)])
    modifies setup.values, accum
    ensures FilledUpTo(setup.values[..], row + 1, 0, setup.cols,
                       Promise(setup.cellSizeM, aps, setup.walls, opts, m))
    ensures IsMinOf(accum.minDbm, setup.values[..RowStart(row + 1, setup.cols)])
    ensures IsMaxOf(accum.maxDbm, setup.values[..RowStart(row + 1, setup.cols)])
  {
    var cols, values := setup.cols, setup.values;
    RowStartMonotone(row + 1, setup.rows, cols);
    RowStartIsProduct(row, cols);
    ghost var promise := Promise(setup.cellSizeM, aps, setup.walls, opts, m);
    for col := 0 to cols
      invariant Progress(values[..], accum.minDbm, accum.maxDbm, row, col, cols, promise)
    {
      assert Index(row, col, cols) == row * cols + col < values.Length;
      var v := PredictedCell(Center(row, col, setup.cellSizeM), setup, opts, aps, m);
      PutCell(row, col, cols, values, v, accum, promise);
    }
  }

  /** The map promised for the inputs: grid, every cell, and bounds that are the extremes or the floor. */
  ghost predicate PredictedMap(h: CoverageHeatmap, widthM: real, heightM: real, aps: seq<ApPlacement>,
                               walls: seq<Wall>, opts: PropagationOptions, m: MathFns)
  {
    && h.band == opts.band && h.source == Predicted && h.widthM == widthM && h.heightM == heightM
    && GridDims(h.cols, h.rows, h.cellSizeM)
       == GridFor(widthM, heightM, opts.cellSizeM.GetOr(DEFAULT_CELL_SIZE_M), m.sqrt)
    && |h.values| == RowStart(h.rows, h.cols)
    && FilledUpTo(h.values, h.rows, 0, h.cols, Promise(h.cellSizeM, aps, walls, opts, m))
    && BoundsOrFloor(h.values, h.minDbm, h.maxDbm, opts.floorDbm.GetOr(DEFAULT_FLOOR_DBM))
  }

  ghost predicate BoundsOrFloor(values: seq<Option<real>>, minDbm: real, maxDbm: real, floor: real) {
    if forall i :: 0 <= i < |values| ==> values[i].None? then minDbm == floor && maxDbm == floor
    else IsMinOf(Some(minDbm), values) && IsMaxOf(Some(maxDbm), values)
  }

  method FinalizePredicted(widthM: real, heightM: real, band: Band, setup: PredictedSetup, accum: DbmAccum)
    returns (h: CoverageHeatmap)
    requires IsMinOf(accum.minDbm, setup.values[..]) && IsMaxOf(accum.maxDbm, setup.values[..])
    ensures h == CoverageHeatmap(band, Predicted, widthM, heightM, setup.cols, setup.rows, setup.cellSizeM,
                                 setup.values[..], h.minDbm, h.maxDbm)
    ensures BoundsOrFloor(h.values, h.minDbm, h.maxDbm, setup.floorDbm)
  {
    var minDbm := accum.minDbm.GetOr(setup.floorDbm);
    var maxDbm := accum.maxDbm.GetOr(setup.floorDbm);
    h := CoverageHeatmap(band, Predicted, widthM, heightM, setup.cols, setup.rows, setup.cellSizeM,
                         setup.values[..], minDbm, maxDbm);
  }

  method ComputePredictedHeatmap(widthM: real, heightM: real, aps: seq<ApPlacement>, walls: seq<Wall>,
                                 opts: PropagationOptions, m: MathFns)
    returns (h: CoverageHeatmap)
    ensures PredictedMap(h, widthM, heightM, aps, walls, opts, m)
  {
    var setup := SetupPredicted(widthM, heightM, aps, walls, opts, m);
    var accum := new DbmAccum();
    for row := 0 to setup.rows
      invariant FilledUpTo(setup.values[..], row, 0, setup.cols, Promise(setup.cellSizeM, aps, walls, opts, m))
      invariant IsMinOf(accum.minDbm, setup.values[..RowStart(row, setup.cols)])
      invariant IsMaxOf(accum.maxDbm, setup.values[..RowStart(row, setup.cols)])
    {
      FillPredictedRow(row, setup, opts, accum, aps, m);
    }
    assert setup.values[..RowStart(setup.rows, setup.cols)] == setup.values[..];
    h := FinalizePredicted(widthM, heightM, opts.band, setup, accum);
  }

  /** The variant that hands the event loop back after every ROWS_PER_YIELD rows. */
  method ComputePredictedHeatmapAsync(widthM: real, heightM: real, aps: seq<ApPlacement>, walls: seq<Wall>,
                                      opts: PropagationOptions, m: MathFns)
    returns (h: CoverageHeatmap, cessions: nat)
    ensures PredictedMap(h, widthM, heightM, aps, walls, opts, m)
    ensures cessions == h.rows / ROWS_PER_YIELD
  {
    var setup := SetupPredicted(widthM, heightM, aps, walls, opts, m);
    var accum := new DbmAccum();
    cessions := 0;
    for row := 0 to setup.rows
      invariant FilledUpTo(setup.values[..], row, 0, setup.cols, Promise(setup.cellSizeM, aps, walls, opts, m))
      invariant IsMinOf(accum.minDbm, setup.values[..RowStart(row, setup.cols)])
      invariant IsMaxOf(accum.maxDbm, setup.values[..RowStart(row, setup.cols)])
      invariant cessions == row / ROWS_PER_YIELD
    {
      FillPredictedRow(row, setup, opts, accum, aps, m);
      if row % ROWS_PER_YIELD == ROWS_PER_YIELD - 1 { cessions := cessions + 1; }
    }
    assert setup.values[..RowStart(setup.rows, setup.cols)] == setup.values[..];
    h := FinalizePredicted(widthM, heightM, opts.band, setup, accum);
  }

  /** The specification fixes the whole map, so the two variants return the same heatmap. */
  lemma PredictedMapUnique(h: CoverageHeatmap, h': CoverageHeatmap, widthM: real, heightM: real,
                           aps: seq<ApPlacement>, walls: seq<Wall>, opts: PropagationOptions, m: MathFns)
    requires PredictedMap(h, widthM, heightM, aps, walls, opts, m)
    requires PredictedMap(h', widthM, heightM, aps, walls, opts, m)
    ensures h == h'
  {
    forall i | 0 <= i < |h.values|
      ensures h.values[i] == h'.values[i]
    {
      var r, c := CellOf(i, h.cols, h.rows);
      CellUnique(h.values[Index(r, c, h.cols)], h'.values[Index(r, c, h.cols)], Center(r, c, h.cellSizeM),
                 aps, walls, opts, m);
    }
    assert h.values == h'.values;
  }

  /** The path is reciprocal: exchanging the access point and the measured point changes nothing. */
  lemma SignalReciprocal(p: Point, ap: ApPlacement, walls: seq<Wall>, opts: PropagationOptions, m: MathFns)
    requires forall x, y :: m.hypot(x, y) == m.hypot(-x, -y)
    ensures Rssi(p, ap, walls, opts, m) == Rssi(ap.pos, ap.(pos := p), walls, opts, m)
  {
    WallLossSymmetric(ap.pos, p, walls, opts.band);
    assert m.hypot(p.x - ap.pos.x, p.y - ap.pos.y) == m.hypot(-(p.x - ap.pos.x), -(p.y - ap.pos.y));
    assert -(p.x - ap.pos.x) == ap.pos.x - p.x && -(p.y - ap.pos.y) == ap.pos.y - p.y;
  }
}
