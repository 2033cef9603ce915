/** The measured heatmap of coverage/interpolation.ts: inverse-distance weighting of survey samples. */
module Interpolation {
  import opened Segments
  import opened Grid
  import opened Coverage
  import opened Options

  datatype SurveySample = SurveySample(pos: Point, rssiDbm: real)

  datatype MeasuredOpts = MeasuredOpts(band: Band, cellSizeM: Option<real>, power: Option<real>,
                                       maxRadiusM: Option<real>)

  const DEFAULT_POWER := 2.0
  const DEFAULT_MAX_RADIUS_M := 4.0
  const COINCIDENCE_EPS_M := 0.000000001

  function Dist(p: Point, s: SurveySample, m: MathFns): real { m.hypot(p.x - s.pos.x, p.y - s.pos.y) }

  predicate Coincides(p: Point, s: SurveySample, m: MathFns) { Dist(p, s, m) < COINCIDENCE_EPS_M }

  // ----- The estimate as a function of the samples

  function Weight(p: Point, s: SurveySample, power: real, m: MathFns): real
    requires Sane(m) && !Coincides(p, s, m)
  {
    1.0 / m.pow(Dist(p, s, m), power)
  }

  lemma WeightPositive(p: Point, s: SurveySample, power: real, m: MathFns)
    requires Sane(m) && !Coincides(p, s, m)
    ensures Weight(p, s, power, m) > 0.0
  {
    var w, d := Weight(p, s, power, m), m.pow(Dist(p, s, m), power);
    assert d > 0.0 && w * d == 1.0;
    ProductSign(w, d);
  }

  /** A sample weighs in inverse proportion to the power of its distance. */
  lemma WeightIsInverse(p: Point, s: SurveySample, power: real, m: MathFns)
    requires Sane(m) && !Coincides(p, s, m)
    ensures Weight(p, s, power, m) * m.pow(Dist(p, s, m), power) == 1.0
  {
    assert m.pow(Dist(p, s, m), power) > 0.0;
  }

  ghost predicate NoneCoincides(p: Point, samples: seq<SurveySample>, m: MathFns) {
    forall s :: s in samples ==> !Coincides(p, s, m)
  }

  /** Numerator and denominator of the weighted mean. */
  datatype Sums = Sums(weighted: real, total: real) {
    function Add(w: real, v: real): Sums { Sums(weighted + w * v, total + w) }

    function Mean(): real
      requires total != 0.0
    {
      weighted / total
    }
  }

  ghost function SumsOf(p: Point, samples: seq<SurveySample>, power: real, m: MathFns): Sums
    requires Sane(m) && NoneCoincides(p, samples, m)
  {
    if samples == [] then Sums(0.0, 0.0)
    else
      var last := samples[|samples| - 1];
      SumsOf(p, samples[..|samples| - 1], power, m).Add(Weight(p, last, power, m), last.rssiDbm)
  }

  lemma AddSample(p: Point, samples: seq<SurveySample>, s: SurveySample, power: real, m: MathFns)
    requires Sane(m) && NoneCoincides(p, samples, m) && !Coincides(p, s, m)
    ensures NoneCoincides(p, samples + [s], m)
    ensures SumsOf(p, samples + [s], power, m) == SumsOf(p, samples, power, m).Add(Weight(p, s, power, m), s.rssiDbm)
  {
    assert (samples + [s])[..|samples|] == samples;
  }

  lemma {:induction false} SumsPositive(p: Point, samples: seq<SurveySample>, power: real, m: MathFns)
    requires Sane(m) && NoneCoincides(p, samples, m)
    ensures SumsOf(p, samples, power, m).total >= 0.0
    ensures samples != [] ==> SumsOf(p, samples, power, m).total > 0.0
  {
    if samples != [] {
      SumsPositive(p, samples[..|samples| - 1], power, m);
      WeightPositive(p, samples[|samples| - 1], power, m);
    }
  }

  ghost predicate Within(sums: Sums, lo: real, hi: real) {
    lo * sums.total <= sums.weighted <= hi * sums.total
  }

  /** Weighting keeps the sum between lo and hi times the total weight. */
  lemma {:induction false} SumsBounded(p: Point, samples: seq<SurveySample>, power: real, m: MathFns, lo: real, hi: real)
    requires Sane(m) && NoneCoincides(p, samples, m)
    requires forall s :: s in samples ==> lo <= s.rssiDbm <= hi
    ensures Within(SumsOf(p, samples, power, m), lo, hi)
  {
    if samples != [] {
      var last := samples[|samples| - 1];
      SumsBounded(p, samples[..|samples| - 1], power, m, lo, hi);
      WeightPositive(p, last, power, m);
      AddWithin(SumsOf(p, samples[..|samples| - 1], power, m), Weight(p, last, power, m), last.rssiDbm, lo, hi);
    }
  }

  lemma AddWithin(sums: Sums, w: real, v: real, lo: real, hi: real)
    requires Within(sums, lo, hi) && w > 0.0 && lo <= v <= hi
    ensures Within(sums.Add(w, v), lo, hi)
  {
    ProductSign(w, v - lo);
    ProductSign(w, hi - v);
    assert w * (v - lo) == w * v - lo * w && w * (hi - v) == hi * w - w * v;
    var total := sums.total;
    assert lo * (total + w) == lo * total + lo * w && hi * (total + w) == hi * total + hi * w;
  }

  lemma MeanWithin(sums: Sums, lo: real, hi: real)
    requires sums.total > 0.0 && Within(sums, lo, hi)
    ensures lo <= sums.Mean() <= hi
  {
    var q, total := sums.Mean(), sums.total;
    assert q * total == sums.weighted;
    ProductSign(q - lo, total);
    ProductSign(hi - q, total);
    assert (q - lo) * total == q * total - lo * total && (hi - q) * total == hi * total - q * total;
  }

  /**
   * The promised estimate at p: the first coincident sample as it is; otherwise nothing when every
   * sample is out of the radius; otherwise the mean of the samples weighted by 1 / dist^power.
   */
  ghost predicate EstimateAt(v: Option<real>, p: Point, samples: seq<SurveySample>, power: real, maxRadiusM: real,
                             m: MathFns)
    requires Sane(m)
  {
    if NoneCoincides(p, samples, m) then
      if forall s :: s in samples ==> Dist(p, s, m) > maxRadiusM then v == None
      else
        var sums := SumsOf(p, samples, power, m);
        sums.total != 0.0 && v == Some(sums.Mean())
    else
      exists i :: FirstCoincident(i, p, samples, m) && v == Some(samples[i].rssiDbm)
  }

  ghost predicate FirstCoincident(i: int, p: Point, samples: seq<SurveySample>, m: MathFns) {
    && 0 <= i < |samples|
    && Coincides(p, samples[i], m)
    && forall j :: 0 <= j < i ==> !Coincides(p, samples[j], m)
  }

  method IdwEstimate(p: Point, samples: seq<SurveySample>, power: real, maxRadiusM: real, m: MathFns)
    returns (v: Option<real>)
    requires Sane(m)
    ensures EstimateAt(v, p, samples, power, maxRadiusM, m)
  {
    var sums := Sums(0.0, 0.0);
    var minDist: Option<real> := None;
    for i := 0 to |samples|
      invariant NoneCoincides(p, samples[..i], m)
      invariant sums == SumsOf(p, samples[..i], power, m)
      invariant minDist.None? <==> i == 0
      invariant minDist.Some? ==> exists s :: s in samples[..i] && Dist(p, s, m) == minDist.value
      invariant minDist.Some? ==> forall s :: s in samples[..i] ==> minDist.value <= Dist(p, s, m)
    {
      var sample := samples[i];
      var dist := Dist(p, sample, m);
      if dist < COINCIDENCE_EPS_M {
        assert forall j :: 0 <= j < i ==> samples[j] == samples[..i][j];
        assert FirstCoincident(i, p, samples, m);
        return Some(sample.rssiDbm);
      }
      AddSample(p, samples[..i], sample, power, m);
      assert samples[..i + 1] == samples[..i] + [sample];
      if minDist.None? || dist < minDist.value { minDist := Some(dist); }
      sums := sums.Add(Weight(p, sample, power, m), sample.rssiDbm);
    }
    assert samples[..|samples|] == samples;
    SumsPositive(p, samples, power, m);
    if sums.total == 0.0 || minDist.value > maxRadiusM {
      return None;
    }
    v := Some(sums.Mean());
  }

  /** A cell is null exactly when it coincides with no sample and none is within the radius. */
  lemma NullIffNothingNear(v: Option<real>, p: Point, samples: seq<SurveySample>, power: real, maxRadiusM: real, m: MathFns)
    requires Sane(m) && EstimateAt(v, p, samples, power, maxRadiusM, m)
    ensures v.None? <==> forall s :: s in samples ==> !Coincides(p, s, m) && Dist(p, s, m) > maxRadiusM
  {
  }

  /** The estimate is a convex combination: it stays within any range that holds all samples. */
  lemma EstimateWithinSamples(v: Option<real>, p: Point, samples: seq<SurveySample>, power: real, maxRadiusM: real,
                              m: MathFns, lo: real, hi: real)
    requires Sane(m) && EstimateAt(v, p, samples, power, maxRadiusM, m)
    requires forall s :: s in samples ==> lo <= s.rssiDbm <= hi
    ensures v.Some? ==> lo <= v.value <= hi
  {
    if v.Some? && NoneCoincides(p, samples, m) {
      SumsPositive(p, samples, power, m);
      SumsBounded(p, samples, power, m, lo, hi);
      MeanWithin(SumsOf(p, samples, power, m), lo, hi);
    }
  }

  /** Between two samples the estimate divides the difference as the powers of the distances do. */
  lemma TwoSamples(v: Option<real>, p: Point, a: SurveySample, b: SurveySample, power: real, maxRadiusM: real, m: MathFns)
    requires Sane(m) && NoneCoincides(p, [a, b], m) && EstimateAt(v, p, [a, b], power, maxRadiusM, m)
    ensures v.Some? ==>
      (v.value - a.rssiDbm) * m.pow(Dist(p, b, m), power) == (b.rssiDbm - v.value) * m.pow(Dist(p, a, m), power)
  {
    if v.Some? {
      var wa, wb := Weight(p, a, power, m), Weight(p, b, power, m);
      var da, db := m.pow(Dist(p, a, m), power), m.pow(Dist(p, b, m), power);
      WeightIsInverse(p, a, power, m);
      WeightIsInverse(p, b, power, m);
      assert a in [a, b] && b in [a, b] && [a, b][..1] == [a] && [a][..0] == [];
      var none := SumsOf(p, [], power, m);
      assert SumsOf(p, [a], power, m) == none.Add(wa, a.rssiDbm);
      assert SumsOf(p, [a, b], power, m) == SumsOf(p, [a], power, m).Add(wb, b.rssiDbm);
      Balance(v.value, wa, wb, da, db, a.rssiDbm, b.rssiDbm);
    }
  }

  lemma Balance(v: real, wa: real, wb: real, da: real, db: real, x: real, y: real)
    requires wa * da == 1.0 && wb * db == 1.0 && wa + wb != 0.0 && v == (wa * x + wb * y) / (wa + wb)
    ensures (v - x) * db == (y - v) * da
  {
    assert v * (wa + wb) == wa * x + wb * y;
    assert wa * (v - x) == wb * (y - v);
    calc {
      (v - x) * db;
    ==
      (wa * da) * ((v - x) * db);
    ==
      (wa * (v - x)) * (da * db);
    ==
      (wb * (y - v)) * (da * db);
    ==
      (wb * db) * ((y - v) * da);
    ==
      (y - v) * da;
    }
  }

  lemma EstimateUnique(v: Option<real>, v': Option<real>, p: Point, samples: seq<SurveySample>, power: real,
                       maxRadiusM: real, m: MathFns)
    requires Sane(m)
    requires EstimateAt(v, p, samples, power, maxRadiusM, m) && EstimateAt(v', p, samples, power, maxRadiusM, m)
    ensures v == v'
  {
    if !NoneCoincides(p, samples, m) {
      var i :| FirstCoincident(i, p, samples, m) && v == Some(samples[i].rssiDbm);
      var j :| FirstCoincident(j, p, samples, m) && v' == Some(samples[j].rssiDbm);
      assert i == j;
    }
  }

  // ----- The map

  datatype MeasuredSetup = MeasuredSetup(cols: nat, rows: nat, cellSizeM: real, power: real, maxRadiusM: real,
                                         values: array<Option<real>>)

  method SetupMeasured(widthM: real, heightM: real, opts: MeasuredOpts, m: MathFns) returns (setup: MeasuredSetup)
    ensures fresh(setup.values) && setup.values.Length == RowStart(setup.rows, setup.cols)
    ensures GridDims(setup.cols, setup.rows, setup.cellSizeM)
         == GridFor(widthM, heightM, opts.cellSizeM.GetOr(DEFAULT_CELL_SIZE_M), m.sqrt)
    ensures setup.power == opts.power.GetOr(DEFAULT_POWER)
    ensures setup.maxRadiusM == opts.maxRadiusM.GetOr(DEFAULT_MAX_RADIUS_M)
  {
    var g := ResolveGrid(widthM, heightM, opts.cellSizeM.GetOr(DEFAULT_CELL_SIZE_M), m.sqrt);
    RowStartIsProduct(g.rows, g.cols);
    var values := new Option<real>[g.rows * g.cols](_ => None);
    setup := MeasuredSetup(g.cols, g.rows, g.cellSizeM, opts.power.GetOr(DEFAULT_POWER),
                           opts.maxRadiusM.GetOr(DEFAULT_MAX_RADIUS_M), values);
  }

  /** What every cell of the measured map must hold. */
  ghost function Promise(cellSizeM: real, samples: seq<SurveySample>, power: real, maxRadiusM: real, m: MathFns): CellPromise
    requires Sane(m)
  {
    (v: Option<real>, r: nat, c: nat) => Sane(m) && EstimateAt(v, Center(r, c, cellSizeM), samples, power, maxRadiusM, m)
  }

  method FillMeasuredRow(row: nat, setup: MeasuredSetup, samples: seq<SurveySample>, m: MathFns)
    requires Sane(m) && row < setup.rows && setup.values.Length == RowStart(setup.rows, setup.cols)
    requires FilledUpTo(setup.values[..], row, 0, setup.cols,
                        Promise(setup.cellSizeM, samples, setup.power, setup.maxRadiusM, m))
    modifies setup.values
    ensures FilledUpTo(setup.values[..], row + 1, 0, setup.cols,
                       Promise(setup.cellSizeM, samples, setup.power, setup.maxRadiusM, m))
  {
    var cols, values := setup.cols, setup.values;
    RowStartMonotone(row + 1, setup.rows, cols);
    RowStartIsProduct(row, cols);
    ghost var promise := Promise(setup.cellSizeM, samples, setup.power, setup.maxRadiusM, m);
    for col := 0 to cols
      invariant FilledUpTo(values[..], row, col, cols, promise)
    {
      var v := IdwEstimate(Center(row, col, setup.cellSizeM), samples, setup.power, setup.maxRadiusM, m);
      ghost var was := values[..];
      values[row * cols + col] := v;
      FillNext(was, values[..], row, col, cols, promise);
    }
  }

  /** The legend's bounds: the exact range of the samples, or a fixed one when there are none. */
  ghost predicate BoundsOfSamples(samples: seq<SurveySample>, minDbm: real, maxDbm: real) {
    if samples == [] then minDbm == -90.0 && maxDbm == -30.0
    else
      && (exists s :: s in samples && s.rssiDbm == minDbm) && (exists s :: s in samples && s.rssiDbm == maxDbm)
      && (forall s :: s in samples ==> minDbm <= s.rssiDbm <= maxDbm)
  }

  method MeasuredBounds(samples: seq<SurveySample>) returns (minDbm: real, maxDbm: real)
    ensures BoundsOfSamples(samples, minDbm, maxDbm)
  {
    if |samples| == 0 { return -90.0, -30.0; }
    var lo: Option<real>, hi: Option<real> := None, None;
    for i := 0 to |samples|
      invariant (lo.None? <==> i == 0) && (hi.None? <==> i == 0)
      invariant i > 0 ==> BoundsOfSamples(samples[..i], lo.value, hi.value)
    {
      var sample := samples[i];
      assert samples[..i + 1] == samples[..i] + [sample];
      if lo.None? || sample.rssiDbm < lo.value { lo := Some(sample.rssiDbm); }
      if hi.None? || sample.rssiDbm > hi.value { hi := Some(sample.rssiDbm); }
      assert sample in samples[..i + 1];
    }
    assert samples[..|samples|] == samples;
    return lo.value, hi.value;
  }

  ghost predicate MeasuredMap(h: CoverageHeatmap, widthM: real, heightM: real, samples: seq<SurveySample>,
                              opts: MeasuredOpts, m: MathFns)
    requires Sane(m)
  {
    && h.band == opts.band && h.source == Measured && h.widthM == widthM && h.heightM == heightM
    && GridDims(h.cols, h.rows, h.cellSizeM)
       == GridFor(widthM, heightM, opts.cellSizeM.GetOr(DEFAULT_CELL_SIZE_M), m.sqrt)
    && |h.values| == RowStart(h.rows, h.cols)
    && FilledUpTo(h.values, h.rows, 0, h.cols, Promise(h.cellSizeM, samples, opts.power.GetOr(DEFAULT_POWER),
                                                       opts.maxRadiusM.GetOr(DEFAULT_MAX_RADIUS_M), m))
    && BoundsOfSamples(samples, h.minDbm, h.maxDbm)
  }

  method ComputeMeasuredHeatmap(widthM: real, heightM: real, samples: seq<SurveySample>, opts: MeasuredOpts, m: MathFns)
    returns (h: CoverageHeatmap)
    requires Sane(m)
    ensures MeasuredMap(h, widthM, heightM, samples, opts, m)
  {
    var setup := SetupMeasured(widthM, heightM, opts, m);
    for row := 0 to setup.rows
      invariant FilledUpTo(setup.values[..], row, 0, setup.cols,
                           Promise(setup.cellSizeM, samples, setup.power, setup.maxRadiusM, m))
    {
      FillMeasuredRow(row, setup, samples, m);
    }
    var minDbm, maxDbm := MeasuredBounds(samples);
    h := CoverageHeatmap(opts.band, Measured, widthM, heightM, setup.cols, setup.rows, setup.cellSizeM,
                         setup.values[..], minDbm, maxDbm);
  }

  /** The variant that hands the event loop back after every ROWS_PER_YIELD rows. */
  method ComputeMeasuredHeatmapAsync(widthM: real, heightM: real, samples: seq<SurveySample>, opts: MeasuredOpts, m: MathFns)
    returns (h: CoverageHeatmap, cessions: nat)
    requires Sane(m)
    ensures MeasuredMap(h, widthM, heightM, samples, opts, m)
    ensures cessions == h.rows / ROWS_PER_YIELD
  {
    var setup := SetupMeasured(widthM, heightM, opts, m);
    cessions := 0;
    for row := 0 to setup.rows
      invariant FilledUpTo(setup.values[..], row, 0, setup.cols,
                           Promise(setup.cellSizeM, samples, setup.power, setup.maxRadiusM, m))
      invariant cessions == row / ROWS_PER_YIELD
    {
      FillMeasuredRow(row, setup, samples, m);
      if row % ROWS_PER_YIELD == ROWS_PER_YIELD - 1 { cessions := cessions + 1; }
    }
    var minDbm, maxDbm := MeasuredBounds(samples);
    h := CoverageHeatmap(opts.band, Measured, widthM, heightM, setup.cols, setup.rows, setup.cellSizeM,
                         setup.values[..], minDbm, maxDbm);
  }

  /** Every non-null cell of the map lies between the bounds returned with it. */
  lemma CellsWithinBounds(h: CoverageHeatmap, widthM: real, heightM: real, samples: seq<SurveySample>,
                          opts: MeasuredOpts, m: MathFns, i: nat)
    requires Sane(m) && MeasuredMap(h, widthM, heightM, samples, opts, m)
    requires i < |h.values| && h.values[i].Some?
    ensures h.minDbm <= h.values[i].value <= h.maxDbm
  {
    var r, c := CellOf(i, h.cols, h.rows);
    assert h.values[Index(r, c, h.cols)] == h.values[i];
    EstimateWithinSamples(h.values[i], Center(r, c, h.cellSizeM), samples, opts.power.GetOr(DEFAULT_POWER),
                          opts.maxRadiusM.GetOr(DEFAULT_MAX_RADIUS_M), m, h.minDbm, h.maxDbm);
    if samples == [] {
      NullIffNothingNear(h.values[i], Center(r, c, h.cellSizeM), samples, opts.power.GetOr(DEFAULT_POWER),
                         opts.maxRadiusM.GetOr(DEFAULT_MAX_RADIUS_M), m);
    }
  }

  /** The specification fixes the grid and every cell, so both variants return the same map. */
  lemma MeasuredMapUnique(h: CoverageHeatmap, h': CoverageHeatmap, widthM: real, heightM: real,
                          samples: seq<SurveySample>, opts: MeasuredOpts, m: MathFns)
    requires Sane(m)
    requires MeasuredMap(h, widthM, heightM, samples, opts, m) && MeasuredMap(h', widthM, heightM, samples, opts, m)
    ensures h == h'
  {
    forall i | 0 <= i < |h.values|
      ensures h.values[i] == h'.values[i]
    {
      var r, c := CellOf(i, h.cols, h.rows);
      EstimateUnique(h.values[Index(r, c, h.cols)], h'.values[Index(r, c, h.cols)], Center(r, c, h.cellSizeM), samples,
                     opts.power.GetOr(DEFAULT_POWER), opts.maxRadiusM.GetOr(DEFAULT_MAX_RADIUS_M), m);
    }
    assert h.values == h'.values;
  }
}
