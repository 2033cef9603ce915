/** Motion detection by frame differencing (cameras/motion.ts), over real numbers. */
module Motion {
  import opened Bytes
  import opened Options

  datatype Sensitivity = High | Medium | Low

  datatype Thresholds = Thresholds(pixelThreshold: real, minChangedFraction: real)

  function SensitivityToThresholds(sensitivity: Sensitivity): Thresholds {
    match sensitivity
    case High => Thresholds(12.0, 0.02)
    case Low => Thresholds(32.0, 0.1)
    case Medium => Thresholds(20.0, 0.05)
  }

  datatype MotionResult = MotionResult(motion: bool, score: real)

  /** Grey levels of the same picture, pixel by pixel. */
  ghost predicate Comparable(prev: seq<Byte>, curr: seq<Byte>) { |prev| == |curr| && prev != [] }

  function Delta(prev: seq<Byte>, curr: seq<Byte>, i: nat): int
    requires i < |prev| && i < |curr|
  {
    curr[i] as int - prev[i] as int
  }

  /** The sum of the changes of the first n pixels. */
  function SumOfDeltas(prev: seq<Byte>, curr: seq<Byte>, n: nat): int
    requires n <= |prev| && n <= |curr|
  {
    if n == 0 then 0 else SumOfDeltas(prev, curr, n - 1) + Delta(prev, curr, n - 1)
  }

  function Abs(x: real): real { if x < 0.0 then -x else x }

  /** The pixel changed by more than the threshold, apart from the global change of brightness. */
  predicate PixelChanged(delta: int, mean: real, threshold: real) { Abs(delta as real - mean) > threshold }

  /** How many of the first n pixels changed. */
  function CountChanged(prev: seq<Byte>, curr: seq<Byte>, mean: real, threshold: real, n: nat): (k: nat)
    requires n <= |prev| && n <= |curr|
  {
    if n == 0 then 0
    else
      CountChanged(prev, curr, mean, threshold, n - 1)
      + if PixelChanged(Delta(prev, curr, n - 1), mean, threshold) then 1 else 0
  }

  function Mean(prev: seq<Byte>, curr: seq<Byte>): real
    requires |prev| == |curr| && prev != []
  {
    SumOfDeltas(prev, curr, |curr|) as real / |curr| as real
  }

  function Score(prev: seq<Byte>, curr: seq<Byte>, threshold: real): real
    requires |prev| == |curr| && prev != []
  {
    CountChanged(prev, curr, Mean(prev, curr), threshold, |curr|) as real / |curr| as real
  }

  /** The result as a function: no motion without a previous frame of the same size. */
  function Compare(prev: Option<seq<Byte>>, curr: seq<Byte>, thresholds: Thresholds): MotionResult {
    if prev.None? || |prev.value| == 0 || |prev.value| != |curr| then MotionResult(false, 0.0)
    else
      var score := Score(prev.value, curr, thresholds.pixelThreshold);
      MotionResult(score >= thresholds.minChangedFraction, score)
  }

  method DetectMotion(prev: Option<seq<Byte>>, curr: seq<Byte>, thresholds: Thresholds) returns (r: MotionResult)
    ensures r == Compare(prev, curr, thresholds)
  {
    if prev.None? || |prev.value| == 0 || |prev.value| != |curr| {
      return MotionResult(false, 0.0);
    }
    var n := |curr|;
    var sum := 0;
    for i := 0 to n
      invariant sum == SumOfDeltas(prev.value, curr, i)
    {
      sum := sum + (curr[i] as int - prev.value[i] as int);
    }
    var meanDelta := sum as real / n as real;
    var changed := 0;
    for i := 0 to n
      invariant changed == CountChanged(prev.value, curr, meanDelta, thresholds.pixelThreshold, i)
    {
      var residual := Abs((curr[i] as int - prev.value[i] as int) as real - meanDelta);
      if residual > thresholds.pixelThreshold { changed := changed + 1; }
    }
    var score := changed as real / n as real;
    r := MotionResult(score >= thresholds.minChangedFraction, score);
  }

  // ----- The score is a fraction

  lemma {:induction false} CountAtMost(prev: seq<Byte>, curr: seq<Byte>, mean: real, threshold: real, n: nat)
    requires n <= |prev| && n <= |curr|
    ensures CountChanged(prev, curr, mean, threshold, n) <= n
  {
    if n > 0 { CountAtMost(prev, curr, mean, threshold, n - 1); }
  }

  lemma ScoreIsAFraction(prev: Option<seq<Byte>>, curr: seq<Byte>, thresholds: Thresholds)
    ensures 0.0 <= Compare(prev, curr, thresholds).score <= 1.0
  {
    if prev.Some? && Comparable(prev.value, curr) {
      var mean := Mean(prev.value, curr);
      CountAtMost(prev.value, curr, mean, thresholds.pixelThreshold, |curr|);
    }
  }

  // ----- Brightness does not count

  /** Every pixel of `curr` is k brighter in `shifted`. */
  ghost predicate Brighter(curr: seq<Byte>, shifted: seq<Byte>, k: int) {
    |shifted| == |curr| && forall i :: 0 <= i < |curr| ==> shifted[i] as int == curr[i] as int + k
  }

  lemma {:induction false} SumShifts(prev: seq<Byte>, curr: seq<Byte>, shifted: seq<Byte>, k: int, n: nat)
    requires |prev| == |curr| && Brighter(curr, shifted, k) && n <= |curr|
    ensures SumOfDeltas(prev, shifted, n) == SumOfDeltas(prev, curr, n) + k * n
  {
    if n > 0 {
      SumShifts(prev, curr, shifted, k, n - 1);
      assert k * n == k * (n - 1) + k;
    }
  }

  lemma DivShift(s: int, k: int, n: nat)
    requires n > 0
    ensures (s + k * n) as real / n as real == s as real / n as real + k as real
  {
    assert (s + k * n) as real == s as real + k as real * n as real;
  }

  lemma {:induction false} CountUnderShift(prev: seq<Byte>, curr: seq<Byte>, shifted: seq<Byte>, k: int, mean: real, threshold: real, n: nat)
    requires |prev| == |curr| && Brighter(curr, shifted, k) && n <= |curr|
    ensures CountChanged(prev, shifted, mean + k as real, threshold, n) == CountChanged(prev, curr, mean, threshold, n)
  {
    if n > 0 { CountUnderShift(prev, curr, shifted, k, mean, threshold, n - 1); }
  }

  /** Brightening or darkening the whole current frame by the same amount changes nothing. */
  lemma BrightnessDoesNotCount(prev: Option<seq<Byte>>, curr: seq<Byte>, shifted: seq<Byte>, k: int, thresholds: Thresholds)
    requires Brighter(curr, shifted, k)
    ensures Compare(prev, shifted, thresholds) == Compare(prev, curr, thresholds)
  {
    if prev.Some? && Comparable(prev.value, curr) {
      SumShifts(prev.value, curr, shifted, k, |curr|);
      DivShift(SumOfDeltas(prev.value, curr, |curr|), k, |curr|);
      CountUnderShift(prev.value, curr, shifted, k, Mean(prev.value, curr), thresholds.pixelThreshold, |curr|);
    }
  }

  lemma {:induction false} StillFrame(frame: seq<Byte>, threshold: real, n: nat)
    requires n <= |frame| && threshold >= 0.0
    ensures SumOfDeltas(frame, frame, n) == 0 && CountChanged(frame, frame, 0.0, threshold, n) == 0
  {
    if n > 0 { StillFrame(frame, threshold, n - 1); }
  }

  /** A pure change of brightness scores 0, and is motion at no sensitivity. */
  lemma LightSwitchIsNotMotion(frame: seq<Byte>, shifted: seq<Byte>, k: int, sensitivity: Sensitivity)
    requires Brighter(frame, shifted, k)
    ensures Compare(Some(frame), shifted, SensitivityToThresholds(sensitivity)) == MotionResult(false, 0.0)
  {
    var thresholds := SensitivityToThresholds(sensitivity);
    BrightnessDoesNotCount(Some(frame), frame, shifted, k, thresholds);
    StillFrame(frame, thresholds.pixelThreshold, |frame|);
  }

  // ----- Symmetry

  lemma {:induction false} SumSwapped(prev: seq<Byte>, curr: seq<Byte>, n: nat)
    requires n <= |prev| == |curr|
    ensures SumOfDeltas(curr, prev, n) == -SumOfDeltas(prev, curr, n)
  {
    if n > 0 { SumSwapped(prev, curr, n - 1); }
  }

  lemma {:induction false} CountSwapped(prev: seq<Byte>, curr: seq<Byte>, mean: real, threshold: real, n: nat)
    requires n <= |prev| == |curr|
    ensures CountChanged(curr, prev, -mean, threshold, n) == CountChanged(prev, curr, mean, threshold, n)
  {
    if n > 0 { CountSwapped(prev, curr, mean, threshold, n - 1); }
  }

  lemma DivNegated(s: int, n: nat)
    requires n > 0
    ensures (-s) as real / n as real == -(s as real / n as real)
  {
  }

  /** Going back from one frame to the other is as much motion as going forth. */
  lemma MotionIsSymmetric(prev: seq<Byte>, curr: seq<Byte>, thresholds: Thresholds)
    ensures Compare(Some(curr), prev, thresholds) == Compare(Some(prev), curr, thresholds)
  {
    if Comparable(prev, curr) {
      SumSwapped(prev, curr, |curr|);
      DivNegated(SumOfDeltas(prev, curr, |curr|), |curr|);
      CountSwapped(prev, curr, Mean(prev, curr), thresholds.pixelThreshold, |curr|);
    }
  }

  // ----- Sensitivity

  lemma {:induction false} LowerThresholdCountsMore(prev: seq<Byte>, curr: seq<Byte>, mean: real, low: real, high: real, n: nat)
    requires n <= |prev| && n <= |curr| && low <= high
    ensures CountChanged(prev, curr, mean, high, n) <= CountChanged(prev, curr, mean, low, n)
  {
    if n > 0 { LowerThresholdCountsMore(prev, curr, mean, low, high, n - 1); }
  }

  lemma DivMonotone(a: nat, b: nat, n: nat)
    requires a <= b && n > 0
    ensures a as real / n as real <= b as real / n as real
  {
  }

  /** Thresholds that are both at least as low see at least as much motion. */
  lemma LowerThresholdsSeeMore(prev: Option<seq<Byte>>, curr: seq<Byte>, strict: Thresholds, lax: Thresholds)
    requires lax.pixelThreshold <= strict.pixelThreshold && lax.minChangedFraction <= strict.minChangedFraction
    ensures Compare(prev, curr, strict).score <= Compare(prev, curr, lax).score
    ensures Compare(prev, curr, strict).motion ==> Compare(prev, curr, lax).motion
  {
    if prev.Some? && Comparable(prev.value, curr) {
      var mean := Mean(prev.value, curr);
      LowerThresholdCountsMore(prev.value, curr, mean, lax.pixelThreshold, strict.pixelThreshold, |curr|);
      DivMonotone(CountChanged(prev.value, curr, mean, strict.pixelThreshold, |curr|),
                  CountChanged(prev.value, curr, mean, lax.pixelThreshold, |curr|), |curr|);
    }
  }

  /** Motion at low sensitivity is motion at medium, and motion at medium is motion at high. */
  lemma SensitivitiesAreOrdered(prev: Option<seq<Byte>>, curr: seq<Byte>)
    ensures Compare(prev, curr, SensitivityToThresholds(Low)).motion ==> Compare(prev, curr, SensitivityToThresholds(Medium)).motion
    ensures Compare(prev, curr, SensitivityToThresholds(Medium)).motion ==> Compare(prev, curr, SensitivityToThresholds(High)).motion
  {
    LowerThresholdsSeeMore(prev, curr, SensitivityToThresholds(Low), SensitivityToThresholds(Medium));
    LowerThresholdsSeeMore(prev, curr, SensitivityToThresholds(Medium), SensitivityToThresholds(High));
  }

  // ----- What is motion

  /** The pixels that changed by more than the threshold, apart from the mean change. */
  ghost function Changed(prev: seq<Byte>, curr: seq<Byte>, mean: real, threshold: real, n: nat): set<nat>
    requires n <= |prev| && n <= |curr|
  {
    set i: nat | i < n && (curr[i] as real - prev[i] as real - mean > threshold || mean - (curr[i] as real - prev[i] as real) > threshold)
  }

  lemma {:induction false} CountIsSize(prev: seq<Byte>, curr: seq<Byte>, mean: real, threshold: real, n: nat)
    requires n <= |prev| && n <= |curr|
    ensures CountChanged(prev, curr, mean, threshold, n) == |Changed(prev, curr, mean, threshold, n)|
  {
    if n > 0 {
      CountIsSize(prev, curr, mean, threshold, n - 1);
      var before, now := Changed(prev, curr, mean, threshold, n - 1), Changed(prev, curr, mean, threshold, n);
      assert Delta(prev, curr, n - 1) as real == curr[n - 1] as real - prev[n - 1] as real;
      if PixelChanged(Delta(prev, curr, n - 1), mean, threshold) {
        assert now == before + {n - 1};
      } else {
        assert now == before;
      }
    }
  }

  /**
   * There is motion exactly when there is a previous frame of the same size, not empty, and the pixels that changed are
   * at least the minimal fraction of all.
   */
  lemma MotionIff(prev: Option<seq<Byte>>, curr: seq<Byte>, thresholds: Thresholds)
    ensures Compare(prev, curr, thresholds).motion <==>
              && prev.Some? && curr != [] && |prev.value| == |curr|
              && var mean := SumOfDeltas(prev.value, curr, |curr|) as real / |curr| as real;
                 |Changed(prev.value, curr, mean, thresholds.pixelThreshold, |curr|)| as real / |curr| as real >= thresholds.minChangedFraction
  {
    if prev.Some? && curr != [] && |prev.value| == |curr| {
      CountIsSize(prev.value, curr, Mean(prev.value, curr), thresholds.pixelThreshold, |curr|);
    }
  }

  /** How many of the first n pixels changed by d. */
  ghost function Moved(prev: seq<Byte>, curr: seq<Byte>, d: int, n: nat): nat
    requires n <= |prev| && n <= |curr|
  {
    if n == 0 then 0 else Moved(prev, curr, d, n - 1) + if Delta(prev, curr, n - 1) == d then 1 else 0
  }

  /** Every pixel either changed by d or stayed. */
  ghost predicate PatchOf(prev: seq<Byte>, curr: seq<Byte>, d: int) {
    |prev| == |curr| && d > 0 && forall i :: 0 <= i < |curr| ==> Delta(prev, curr, i) == d || Delta(prev, curr, i) == 0
  }

  lemma {:induction false} PatchSums(prev: seq<Byte>, curr: seq<Byte>, d: int, mean: real, threshold: real, n: nat)
    requires PatchOf(prev, curr, d) && n <= |curr|
    ensures SumOfDeltas(prev, curr, n) == Moved(prev, curr, d, n) * d && Moved(prev, curr, d, n) <= n
    ensures d as real - mean > threshold >= 0.0 ==> CountChanged(prev, curr, mean, threshold, n) >= Moved(prev, curr, d, n)
  {
    if n > 0 { PatchSums(prev, curr, d, mean, threshold, n - 1); }
  }

  /**
   * A patch of the picture that gets brighter by d is motion when it is at least the minimal fraction of it and d, less the
   * share of it that the mean takes, exceeds the pixel threshold.
   */
  lemma PatchIsMotion(prev: seq<Byte>, curr: seq<Byte>, d: int, thresholds: Thresholds)
    requires PatchOf(prev, curr, d) && curr != [] && thresholds.pixelThreshold >= 0.0
    requires var k, n := Moved(prev, curr, d, |curr|), |curr|;
             k as real / n as real >= thresholds.minChangedFraction && d as real * (1.0 - k as real / n as real) > thresholds.pixelThreshold
    ensures Compare(Some(prev), curr, thresholds).motion
  {
    var k, n, mean, threshold := Moved(prev, curr, d, |curr|), |curr|, Mean(prev, curr), thresholds.pixelThreshold;
    PatchSums(prev, curr, d, mean, threshold, n);
    MeanOfPatch(k, d, n, mean);
    var share := k as real / n as real;
    assert d as real * (1.0 - share) == d as real - d as real * share;
    var changed := CountChanged(prev, curr, mean, threshold, n);
    DivMonotone(k, changed, n);
  }

  lemma MeanOfPatch(k: nat, d: int, n: nat, mean: real)
    requires n > 0 && mean == (k * d) as real / n as real
    ensures mean == d as real * (k as real / n as real)
  {
    var share := k as real / n as real;
    assert share * n as real == k as real && mean * n as real == (k * d) as real;
    assert (d as real * share) * n as real == d as real * k as real;
    assert (mean - d as real * share) * n as real == 0.0;
  }
}
