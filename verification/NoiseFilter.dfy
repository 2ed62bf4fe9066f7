/**
  `process_audio_chunk` and `apply_light_processing` of src/utils/noise_filter.rs, with every float operation rounded
  by a parameter. The model is a parameter too, and so are the square root and the filter's time constant.
 */
module NoiseFilter {
  import opened Wrappers
  import opened Floats
  import opened Pcm
  import opened FrameModel

  const SILENCE_THRESHOLD := 0.0000001
  const MAX_SKIP_FRAMES: nat := 5
  const MIN_SAMPLES: nat := 512
  const HIGH_SNR_RMS_THRESHOLD := 0.1
  const HIGH_SNR_PEAK_THRESHOLD := 0.3
  const LOW_ENERGY_RMS_THRESHOLD := 0.005
  const LOW_ENERGY_PEAK_THRESHOLD := 0.02
  const SHORT_AUDIO_DURATION := 1.0
  const VERY_SHORT_AUDIO_DURATION := 0.2
  const LOUDER_THAN := 1.2
  const VOLUME_SAFETY_MARGIN := 0.95
  const LIGHT_PROCESSING_SAFETY_MARGIN := 0.98

  datatype NoiseError = ModelFailed

  /** A worker's model with its hop size; `rc` is 1 / (2 pi 80 Hz). */
  datatype Engine = Engine(model: Model, hop: nat, rnd: Rounding, sqrt: real -> real, rc: real) {
    ghost predicate Valid() { hop > 0 && HopSized(model, hop) }
  }

  // ---- Samples ----

  /** Scaling by a power of two is exact. */
  function ToFloat(s: I16): real { Clamp(Grid(s), -1.0, 1.0) }

  function ToWav(samples: seq<I16>): seq<real> { seq(|samples|, i requires 0 <= i < |samples| => ToFloat(samples[i])) }

  function Quantise(rnd: Rounding, x: real): I16 {
    var clamped := Clamp(x, -1.0, 1.0);
    Saturate(Round(if clamped >= 0.0 then rnd(clamped * 32767.0) else rnd(clamped * 32768.0)))
  }

  function Quantised(rnd: Rounding, wav: seq<real>): seq<I16> {
    seq(|wav|, i requires 0 <= i < |wav| => Quantise(rnd, wav[i]))
  }

  predicate Silent(wav: seq<real>) { forall i :: 0 <= i < |wav| ==> Abs(wav[i]) < SILENCE_THRESHOLD }

  /** The test is exact on 16-bit samples: one step of a sample is far above the threshold. */
  lemma SilentIffZero(samples: seq<I16>)
    ensures Silent(ToWav(samples)) <==> forall i :: 0 <= i < |samples| ==> samples[i] == 0
  {
    forall i | 0 <= i < |samples| ensures Abs(ToWav(samples)[i]) < SILENCE_THRESHOLD <==> samples[i] == 0 { }
    if forall i :: 0 <= i < |samples| ==> samples[i] == 0 {
      assert forall i :: 0 <= i < |samples| ==> Abs(ToWav(samples)[i]) < SILENCE_THRESHOLD;
    }
  }

  function ZeroBytes(n: nat): seq<Byte> { seq(n, _ => 0) }

  /** So what is returned after many silent chunks is what came in. */
  lemma SilentBytesAreZero(pcm: seq<Byte>)
    requires |pcm| % 2 == 0
    ensures Silent(ToWav(Decode(pcm))) <==> pcm == ZeroBytes(|pcm|)
  {
    var samples := Decode(pcm);
    SilentIffZero(samples);
    if Silent(ToWav(samples)) {
      forall k | 0 <= k < |pcm| ensures pcm[k] == 0 {
        assert samples[k / 2] == 0 && (k == 2 * (k / 2) || k == 2 * (k / 2) + 1);
      }
    }
  }

  lemma RoundedBetween(rnd: Rounding, lo: int, x: real, hi: int)
    requires Nearest(rnd) && -TWO_24 <= lo <= hi <= TWO_24 && lo as real <= x <= hi as real
    ensures lo <= Round(rnd(x)) <= hi
  {
    RoundsWhole(rnd, lo);
    RoundsWhole(rnd, hi);
    RoundsOrder(rnd, lo as real, x);
    RoundsOrder(rnd, x, hi as real);
    RoundBetween(lo, rnd(x), hi);
  }

  /** Converting to float and back is exact up to zero and loses at most one step above it, whatever the rounding. */
  lemma QuantiseNearlyInverts(rnd: Rounding, s: I16)
    requires Nearest(rnd)
    ensures s <= 0 ==> Quantise(rnd, ToFloat(s)) == s
    ensures s > 0 ==> s - 1 <= Quantise(rnd, ToFloat(s)) <= s
  {
    var x := Grid(s);
    assert ToFloat(s) == x;
    if s < 0 {
      assert x * 32768.0 == s as real;
      RoundedBetween(rnd, s, x * 32768.0, s);
    } else {
      var lo := if s == 0 then 0 else s - 1;
      assert lo as real <= x * 32767.0 <= s as real;
      RoundedBetween(rnd, lo, x * 32767.0, s);
    }
  }

  lemma QuantiseBeyond(rnd: Rounding, x: real)
    ensures x >= 1.0 ==> Quantise(rnd, x) == Quantise(rnd, 1.0)
    ensures x <= -1.0 ==> Quantise(rnd, x) == Quantise(rnd, -1.0)
  {
  }

  lemma RoundedIs(rnd: Rounding, lo: int, p: real, hi: int)
    requires Nearest(rnd) && -32768 <= lo <= hi <= 32767 && lo as real <= p <= hi as real
    ensures lo <= Saturate(Round(rnd(p))) <= hi && Abs(Saturate(Round(rnd(p))) as real - p) <= 0.502
  {
    RoundedBetween(rnd, lo, p, hi);
    RoundsNearby(rnd, p);
  }

  lemma QuantiseUp(rnd: Rounding, x: real)
    requires Nearest(rnd) && 0.0 <= x <= 1.0
    ensures Abs(Quantise(rnd, x) as real - x * 32767.0) <= 0.502 && 0 <= Quantise(rnd, x) && (x == 1.0 ==> Quantise(rnd, x) == 32767)
  {
    assert Clamp(x, -1.0, 1.0) == x;
    if x == 1.0 { RoundedIs(rnd, 32767, 32767.0, 32767); } else { RoundedIs(rnd, 0, x * 32767.0, 32767); }
  }

  lemma QuantiseDown(rnd: Rounding, x: real)
    requires Nearest(rnd) && -1.0 <= x < 0.0
    ensures Abs(Quantise(rnd, x) as real - x * 32768.0) <= 0.502 && Quantise(rnd, x) <= 0 && (x == -1.0 ==> Quantise(rnd, x) == -32768)
  {
    assert Clamp(x, -1.0, 1.0) == x;
    if x == -1.0 { RoundedIs(rnd, -32768, -32768.0, -32768); } else { RoundedIs(rnd, -32768, x * 32768.0, 0); }
  }

  /** Conversion scales to the sample's range, up to half a step and a rounding, and whatever is beyond full scale is full scale. */
  lemma QuantiseAccuracy(rnd: Rounding, x: real)
    requires Nearest(rnd)
    ensures x >= 1.0 ==> Quantise(rnd, x) == 32767
    ensures x <= -1.0 ==> Quantise(rnd, x) == -32768
    ensures 0.0 <= x <= 1.0 ==> Abs(Quantise(rnd, x) as real - x * 32767.0) <= 0.502
    ensures -1.0 <= x < 0.0 ==> Abs(Quantise(rnd, x) as real - x * 32768.0) <= 0.502
  {
    QuantiseBeyond(rnd, x);
    QuantiseUp(rnd, 1.0);
    QuantiseDown(rnd, -1.0);
    if 0.0 <= x <= 1.0 { QuantiseUp(rnd, x); } else if -1.0 <= x < 0.0 { QuantiseDown(rnd, x); }
  }

  // ---- Peaks and gains ----

  function MaxAbs(wav: seq<real>): (m: real)
    ensures m >= 0.0 && forall i :: 0 <= i < |wav| ==> Abs(wav[i]) <= m
    ensures |wav| > 0 ==> exists i :: 0 <= i < |wav| && Abs(wav[i]) == m
  {
    if |wav| == 0 then 0.0 else
    var n := |wav| - 1;
    var before := MaxAbs(wav[..n]);
    assert forall i :: 0 <= i < n ==> wav[..n][i] == wav[i];
    if n == 0 || Abs(wav[n]) > before then Abs(wav[n]) else before
  }

  function Map(f: real -> real, wav: seq<real>): (r: seq<real>)
    ensures |r| == |wav| && forall i :: 0 <= i < |wav| ==> r[i] == f(wav[i])
  {
    seq(|wav|, i requires 0 <= i < |wav| => f(wav[i]))
  }

  function Scaled(rnd: Rounding, wav: seq<real>, ratio: real): (r: seq<real>)
    ensures |r| == |wav|
  {
    Map(Gain(rnd, ratio), wav)
  }

  lemma MaxAbsIs(wav: seq<real>, m: real, i: nat)
    requires i < |wav| && Abs(wav[i]) == m && forall k :: 0 <= k < |wav| ==> Abs(wav[k]) <= m
    ensures MaxAbs(wav) == m
  {
    assert Abs(wav[i]) <= MaxAbs(wav);
  }

  ghost predicate MagnitudeMonotone(f: real -> real) {
    forall x, y :: Abs(x) <= Abs(y) ==> Abs(f(x)) <= Abs(f(y))
  }

  lemma GainMonotone(rnd: Rounding, ratio: real)
    requires Nearest(rnd) && ratio >= 0.0
    ensures MagnitudeMonotone(Gain(rnd, ratio))
  {
    forall x, y | Abs(x) <= Abs(y) ensures Abs(Gain(rnd, ratio)(x)) <= Abs(Gain(rnd, ratio)(y)) {
      GainOrder(rnd, ratio, x, y);
    }
  }

  lemma PeakOfMap(f: real -> real, wav: seq<real>) returns (x: real)
    requires MagnitudeMonotone(f) && |wav| > 0
    ensures Abs(x) == MaxAbs(wav) && MaxAbs(Map(f, wav)) == Abs(f(x))
  {
    var i :| 0 <= i < |wav| && Abs(wav[i]) == MaxAbs(wav);
    x := wav[i];
    forall k | 0 <= k < |wav| ensures Abs(Map(f, wav)[k]) <= Abs(f(x)) { assert Abs(wav[k]) <= MaxAbs(wav) == Abs(x); }
    MaxAbsIs(Map(f, wav), Abs(f(x)), i);
  }

  /** Scaling scales the peak. */
  lemma PeakOfScaled(rnd: Rounding, wav: seq<real>, ratio: real)
    requires Nearest(rnd) && ratio >= 0.0 && |wav| > 0
    ensures MaxAbs(Scaled(rnd, wav, ratio)) == rnd(Product(MaxAbs(wav), ratio))
  {
    GainMonotone(rnd, ratio);
    var x := PeakOfMap(Gain(rnd, ratio), wav);
    GainAbs(rnd, ratio, x);
  }

  lemma WithinPeak(wav: seq<real>)
    requires MaxAbs(wav) < 1.0
    ensures forall i :: 0 <= i < |wav| ==> -1.0 < wav[i] < 1.0
  {
    forall i | 0 <= i < |wav| ensures -1.0 < wav[i] < 1.0 { assert Abs(wav[i]) <= MaxAbs(wav); }
  }

  // ---- Measurements ----

  function Square(rnd: Rounding, x: real): real { rnd(Product(x, x)) }

  function SumOfSquares(rnd: Rounding, wav: seq<real>): real {
    if |wav| == 0 then 0.0 else
    var n := |wav| - 1;
    rnd(SumOfSquares(rnd, wav[..n]) + Square(rnd, wav[n]))
  }

  /** Float division; by zero the result is not a number one can use. */
  function Divided(rnd: Rounding, x: real, y: real): Float {
    if y == 0.0 then Infinite else Finite(rnd(Quotient(x, y)))
  }

  function Root(e: Engine, x: Float): Float {
    match x case Finite(v) => Finite(e.sqrt(v)) case _ => x
  }

  function Rms(e: Engine, sumSquares: real, n: nat): Float { Root(e, Divided(e.rnd, sumSquares, e.rnd(n as real))) }

  /** Infinite at a sample rate of zero. */
  function Seconds(e: Engine, n: nat, rate: nat): Float { Divided(e.rnd, e.rnd(n as real), e.rnd(rate as real)) }

  predicate Above(e: Engine, x: Float, threshold: real) { x.Infinite? || (x.Finite? && x.value > e.rnd(threshold)) }

  predicate Below(e: Engine, x: Float, threshold: real) { x.Finite? && x.value < e.rnd(threshold) }

  predicate HighSnr(e: Engine, rms: Float, peak: real) {
    Above(e, rms, HIGH_SNR_RMS_THRESHOLD) && Above(e, Finite(peak), HIGH_SNR_PEAK_THRESHOLD)
  }

  predicate LowEnergy(e: Engine, rms: Float, peak: real) {
    Below(e, rms, LOW_ENERGY_RMS_THRESHOLD) || Below(e, Finite(peak), LOW_ENERGY_PEAK_THRESHOLD)
  }

  function RmsOf(e: Engine, wav: seq<real>): Float { Rms(e, SumOfSquares(e.rnd, wav), |wav|) }

  predicate Short(e: Engine, n: nat, rate: nat) { Below(e, Seconds(e, n, rate), SHORT_AUDIO_DURATION) }

  predicate VeryShort(e: Engine, n: nat, rate: nat) { Below(e, Seconds(e, n, rate), VERY_SHORT_AUDIO_DURATION) }

  /** rc / (rc + dt); a sample rate of zero makes dt infinite and the coefficient zero. */
  function Alpha(e: Engine, rate: nat): real {
    match Divided(e.rnd, 1.0, e.rnd(rate as real))
    case Finite(dt) =>
      var d := Divided(e.rnd, e.rc, e.rnd(e.rc + dt));
      if d.Finite? then d.value else 0.0
    case _ => 0.0
  }

  // ---- Light processing ----

  function FilterStep(rnd: Rounding, alpha: real, prevOutput: real, input: real, prevInput: real): real {
    rnd(Product(alpha, rnd(rnd(prevOutput + input) - prevInput)))
  }

  /** First sample unchanged, then one step for each input. */
  function HighPass(rnd: Rounding, alpha: real, wav: seq<real>): (r: seq<real>)
    ensures |r| == |wav|
  {
    if |wav| <= 1 then wav else
    var n := |wav| - 1;
    var before := HighPass(rnd, alpha, wav[..n]);
    before + [FilterStep(rnd, alpha, before[n - 1], wav[n], wav[n - 1])]
  }

  function Rescaled(rnd: Rounding, filtered: seq<real>, originalMax: real): (r: seq<real>)
    ensures |r| == |filtered|
  {
    var filteredMax := MaxAbs(filtered);
    if filteredMax > 0.0 && originalMax > 0.0
    then Scaled(rnd, filtered, Ratio(rnd, originalMax, filteredMax, LIGHT_PROCESSING_SAFETY_MARGIN))
    else filtered
  }

  function LightlyProcessed(e: Engine, pcm: seq<Byte>, wav: seq<real>, rate: nat): seq<Byte> {
    if VeryShort(e, |wav|, rate) && MaxAbs(wav) > 0.0 then pcm
    else Encode(Quantised(e.rnd, Rescaled(e.rnd, HighPass(e.rnd, Alpha(e, rate), wav), MaxAbs(wav))))
  }

  /** A peak that was to be margin * a, from b: exactly so with exact arithmetic, else up to five roundings. */
  ghost predicate NearMargin(rnd: Rounding, peak: real, a: real, b: real, margin: real) {
    && (Exact(rnd) ==> peak == Product(a, margin))
    && (Grid(1) <= a && b <= LARGE ==> Abs(peak - Product(a, margin)) <= Product(a, margin) * 5.0 * UNIT)
  }

  lemma RestoredNearMargin(rnd: Rounding, a: real, b: real, margin: real)
    requires Nearest(rnd) && a >= 0.0 && b > 0.0 && 0.5 <= margin <= 1.0
    ensures NearMargin(rnd, Restored(rnd, a, b, margin), a, b, margin)
  {
    if Exact(rnd) { RestoredExactly(rnd, a, b, margin); }
    if Grid(1) <= a && b <= LARGE { RestoredNear(rnd, a, b, margin); }
  }

  lemma RescaledPeak(rnd: Rounding, filtered: seq<real>, a: real)
    requires Nearest(rnd) && MaxAbs(filtered) > 0.0 && a > 0.0
    ensures MaxAbs(Rescaled(rnd, filtered, a)) == Restored(rnd, a, MaxAbs(filtered), LIGHT_PROCESSING_SAFETY_MARGIN)
  {
    RatioNonNegative(rnd, a, MaxAbs(filtered), LIGHT_PROCESSING_SAFETY_MARGIN);
    PeakOfScaled(rnd, filtered, Ratio(rnd, a, MaxAbs(filtered), LIGHT_PROCESSING_SAFETY_MARGIN));
  }

  /** Whatever the filter does to the level, the peak comes back at 98 % of the input's. */
  lemma LightPeak(rnd: Rounding, filtered: seq<real>, wav: seq<real>)
    requires Nearest(rnd) && MaxAbs(filtered) > 0.0 && MaxAbs(wav) > 0.0
    ensures NearMargin(rnd, MaxAbs(Rescaled(rnd, filtered, MaxAbs(wav))), MaxAbs(wav), MaxAbs(filtered), LIGHT_PROCESSING_SAFETY_MARGIN)
  {
    RescaledPeak(rnd, filtered, MaxAbs(wav));
    RestoredNearMargin(rnd, MaxAbs(wav), MaxAbs(filtered), LIGHT_PROCESSING_SAFETY_MARGIN);
  }

  lemma BelowFullScale(rnd: Rounding, peak: real, a: real, b: real)
    requires NearMargin(rnd, peak, a, b, LIGHT_PROCESSING_SAFETY_MARGIN) && 0.0 <= a <= 1.0
    requires Exact(rnd) || (Grid(1) <= a && b <= LARGE)
    ensures peak < 1.0
  {
    assert Product(a, LIGHT_PROCESSING_SAFETY_MARGIN) == a * 0.98;
  }

  /** So the clamp to full scale changes nothing. */
  lemma LightNeverClamps(rnd: Rounding, filtered: seq<real>, wav: seq<real>)
    requires Nearest(rnd) && MaxAbs(filtered) > 0.0 && 0.0 < MaxAbs(wav) <= 1.0
    requires Exact(rnd) || (Grid(1) <= MaxAbs(wav) && MaxAbs(filtered) <= LARGE)
    ensures forall i :: 0 <= i < |filtered| ==> -1.0 < Rescaled(rnd, filtered, MaxAbs(wav))[i] < 1.0
  {
    LightPeak(rnd, filtered, wav);
    var r := Rescaled(rnd, filtered, MaxAbs(wav));
    BelowFullScale(rnd, MaxAbs(r), MaxAbs(wav), MaxAbs(filtered));
    WithinPeak(r);
  }

  function Power(a: real, n: nat): real { if n == 0 then 1.0 else Power(a, n - 1) * a }

  function Decayed(alpha: real, c: real, n: nat): real {
    if n == 0 then c else Product(alpha, Decayed(alpha, c, n - 1))
  }

  lemma {:induction false} DecayedIsPower(alpha: real, c: real, n: nat)
    ensures Decayed(alpha, c, n) == c * Power(alpha, n)
  {
    if n > 0 {
      DecayedIsPower(alpha, c, n - 1);
      ThreeFactors(alpha, c, Power(alpha, n - 1));
    }
  }

  lemma ThreeFactors(alpha: real, c: real, p: real)
    ensures alpha * (c * p) == c * (p * alpha)
  {
  }

  lemma ConstantStep(rnd: Rounding, alpha: real, y: real, c: real)
    requires Exact(rnd)
    ensures FilterStep(rnd, alpha, y, c, c) == Product(alpha, y)
  {
    assert rnd(rnd(y + c) - c) == y;
  }

  lemma {:induction false} ConstantFiltered(rnd: Rounding, alpha: real, c: real, wav: seq<real>, i: nat)
    requires Exact(rnd) && i < |wav| && forall k :: 0 <= k < |wav| ==> wav[k] == c
    ensures HighPass(rnd, alpha, wav)[i] == Decayed(alpha, c, i)
    decreases |wav|
  {
    var n := |wav| - 1;
    if n > 0 {
      assert forall k :: 0 <= k < n ==> wav[..n][k] == wav[k];
      ConstantFiltered(rnd, alpha, c, wav[..n], if i < n then i else n - 1);
      if i == n { ConstantStep(rnd, alpha, Decayed(alpha, c, n - 1), c); }
    }
  }

  /** With exact arithmetic a constant offset dies out geometrically: that is what the filter is for. */
  lemma ConstantDecays(rnd: Rounding, alpha: real, c: real, wav: seq<real>, i: nat)
    requires Exact(rnd) && i < |wav| && forall k :: 0 <= k < |wav| ==> wav[k] == c
    ensures HighPass(rnd, alpha, wav)[i] == c * Power(alpha, i)
  {
    ConstantFiltered(rnd, alpha, c, wav, i);
    DecayedIsPower(alpha, c, i);
  }

  /** The filter's answer to a jump at sample j. */
  ghost predicate Jumps(wav: seq<real>, j: nat, c: real) { forall k :: 0 <= k < |wav| ==> wav[k] == if k < j then 0.0 else c }

  lemma {:induction false} JumpFiltered(rnd: Rounding, alpha: real, c: real, wav: seq<real>, j: nat, i: nat)
    requires Exact(rnd) && 0 < j && i < |wav| && Jumps(wav, j, c)
    ensures HighPass(rnd, alpha, wav)[i] == if i < j then 0.0 else Decayed(alpha, c, i - j + 1)
    decreases |wav|
  {
    var n := |wav| - 1;
    if n > 0 {
      assert forall k :: 0 <= k < n ==> wav[..n][k] == wav[k];
      JumpFiltered(rnd, alpha, c, wav[..n], j, if i < n then i else n - 1);
      if i == n {
        var before := HighPass(rnd, alpha, wav[..n])[n - 1];
        if n < j {
          SilenceStep(rnd, alpha, before);
        } else if n == j {
          JumpStep(rnd, alpha, before, c);
        } else {
          ConstantStep(rnd, alpha, before, c);
        }
      }
    }
  }

  lemma SilenceStep(rnd: Rounding, alpha: real, y: real)
    requires Exact(rnd) && y == 0.0
    ensures FilterStep(rnd, alpha, y, 0.0, 0.0) == 0.0
  {
    assert rnd(rnd(y + 0.0) - 0.0) == 0.0;
    ProductSymmetric(alpha, 0.0);
    ProductSymmetric(0.0, alpha);
  }

  lemma JumpStep(rnd: Rounding, alpha: real, y: real, c: real)
    requires Exact(rnd) && y == 0.0
    ensures FilterStep(rnd, alpha, y, c, 0.0) == Product(alpha, c)
    ensures Decayed(alpha, c, 1) == Product(alpha, c)
  {
    assert rnd(rnd(y + c) - 0.0) == c;
  }

  /** With exact arithmetic the filter passes silence, lets a jump through at its coefficient, and then lets it die out. */
  lemma JumpDecays(rnd: Rounding, alpha: real, c: real, wav: seq<real>, j: nat, i: nat)
    requires Exact(rnd) && 0 < j && i < |wav| && Jumps(wav, j, c)
    ensures HighPass(rnd, alpha, wav)[i] == if i < j then 0.0 else c * Power(alpha, i - j + 1)
  {
    JumpFiltered(rnd, alpha, c, wav, j, i);
    if i >= j { DecayedIsPower(alpha, c, i - j + 1); }
  }

  // ---- Full processing ----

  function Times(rnd: Rounding, x: Float, ratio: real): Float {
    match x
    case Finite(v) => Finite(Gain(rnd, ratio)(v))
    case Infinite => if ratio == 0.0 then NotANumber else Infinite
    case NotANumber => NotANumber
  }

  /** `fold(0.0, f32::max)` of absolute values: NaN is passed over. */
  function FloatMax(e: seq<Float>): (m: Float)
    ensures !m.NotANumber?
  {
    if |e| == 0 then Finite(0.0) else
    var n := |e| - 1;
    var before := FloatMax(e[..n]);
    match e[n]
    case NotANumber => before
    case Infinite => Infinite
    case Finite(v) => if before.Infinite? || before.value > Abs(v) then before else Finite(Abs(v))
  }

  function LoudnessLimit(rnd: Rounding, originalMax: real): real { rnd(Product(originalMax, rnd(LOUDER_THAN))) }

  predicate TooLoud(rnd: Rounding, enhancedMax: Float, originalMax: real) {
    && originalMax > 0.0
    && (enhancedMax.Infinite?
        || (enhancedMax.Finite? && enhancedMax.value > 0.0 && enhancedMax.value > LoudnessLimit(rnd, originalMax)))
  }

  function VolumeRatio(rnd: Rounding, enhancedMax: Float, originalMax: real): real
    requires TooLoud(rnd, enhancedMax, originalMax)
  {
    if enhancedMax.Infinite? then 0.0 else Ratio(rnd, originalMax, enhancedMax.value, VOLUME_SAFETY_MARGIN)
  }

  function Preserved(rnd: Rounding, e: seq<Float>, originalMax: real): (r: seq<Float>)
    ensures |r| == |e|
  {
    var m := FloatMax(e);
    if TooLoud(rnd, m, originalMax)
    then seq(|e|, i requires 0 <= i < |e| => Times(rnd, e[i], VolumeRatio(rnd, m, originalMax)))
    else e
  }

  predicate AllFinite(e: seq<Float>) { forall i :: 0 <= i < |e| ==> e[i].Finite? }

  function Values(e: seq<Float>): seq<real>
    requires AllFinite(e)
  {
    seq(|e|, i requires 0 <= i < |e| => e[i].value)
  }

  function Finished(rnd: Rounding, pcm: seq<Byte>, e: seq<Float>, originalMax: real): seq<Byte> {
    var r := Preserved(rnd, e, originalMax);
    if AllFinite(r) then Encode(Quantised(rnd, Values(r))) else pcm
  }

  lemma FloatMaxOfFinite(e: seq<Float>)
    requires AllFinite(e)
    ensures FloatMax(e) == Finite(MaxAbs(Values(e)))
  {
    if |e| > 0 {
      var n := |e| - 1;
      FloatMaxOfFinite(e[..n]);
      assert Values(e)[..n] == Values(e[..n]);
    }
  }

  lemma PreservedOfFinite(rnd: Rounding, e: seq<Float>, originalMax: real, m: real)
    requires AllFinite(e) && FloatMax(e) == Finite(m) && originalMax > 0.0 && m > 0.0 && m > LoudnessLimit(rnd, originalMax)
    ensures AllFinite(Preserved(rnd, e, originalMax))
    ensures Values(Preserved(rnd, e, originalMax)) == Scaled(rnd, Values(e), Ratio(rnd, originalMax, m, VOLUME_SAFETY_MARGIN))
  {
    var ratio := Ratio(rnd, originalMax, m, VOLUME_SAFETY_MARGIN);
    var r, scaled := Preserved(rnd, e, originalMax), Scaled(rnd, Values(e), ratio);
    forall i | 0 <= i < |e| ensures r[i] == Finite(scaled[i]) { assert e[i].Finite? && Values(e)[i] == e[i].value; }
  }

  /** The limit is 1.2 times the input's peak, up to two roundings. */
  lemma LimitAccuracy(rnd: Rounding, a: real)
    requires Nearest(rnd) && a > 0.0
    ensures LoudnessLimit(rnd, a) >= 0.0
    ensures Exact(rnd) ==> LoudnessLimit(rnd, a) == a * 1.2
    ensures Grid(1) <= a ==> LoudnessLimit(rnd, a) <= High(High(a * 1.2))
  {
    RoundsWhole(rnd, 0);
    RoundsOrder(rnd, 0.0, 1.2);
    RoundsNear(rnd, 1.2);
    ProductOrder(0.0, a, rnd(1.2));
    ProductSymmetric(rnd(1.2), a);
    RoundsOrder(rnd, 0.0, Product(a, rnd(1.2)));
    if Grid(1) <= a {
      ProductOrder(rnd(1.2), High(1.2), a);
      LowHighProduct(a, 1.2);
      ProductOrder(Low(1.2), rnd(1.2), a);
      RoundsNear(rnd, Product(a, rnd(1.2)));
    }
  }

  /** If the model got louder than the limit, the output peaks at 95 % of the input; else it is left alone. */
  lemma LouderIsRestored(rnd: Rounding, e: seq<Float>, originalMax: real)
    requires Nearest(rnd) && AllFinite(e) && originalMax > 0.0
    ensures AllFinite(Preserved(rnd, e, originalMax))
    ensures var m, r := MaxAbs(Values(e)), MaxAbs(Values(Preserved(rnd, e, originalMax)));
      if TooLoud(rnd, Finite(m), originalMax) then r == Restored(rnd, originalMax, m, VOLUME_SAFETY_MARGIN) else r == m
  {
    FloatMaxOfFinite(e);
    var m := MaxAbs(Values(e));
    if TooLoud(rnd, Finite(m), originalMax) {
      PreservedOfFinite(rnd, e, originalMax, m);
      RatioNonNegative(rnd, originalMax, m, VOLUME_SAFETY_MARGIN);
      PeakOfScaled(rnd, Values(e), Ratio(rnd, originalMax, m, VOLUME_SAFETY_MARGIN));
    }
  }

  lemma MarginBelowLimit(rnd: Rounding, a: real, m: real, r: real)
    requires a > 0.0 && NearMargin(rnd, r, a, m, VOLUME_SAFETY_MARGIN)
    ensures Exact(rnd) ==> r <= a * 1.2
    ensures Grid(1) <= a && m <= LARGE ==> r <= High(High(a * 1.2))
  {
    assert Product(a, VOLUME_SAFETY_MARGIN) == a * 0.95;
  }

  /**
    The output never peaks above 1.2 times the input: exactly so with exact arithmetic, up to two roundings with floats.
    If the model got louder than that, it peaks at 95 %.
   */
  lemma NeverLouder(rnd: Rounding, e: seq<Float>, originalMax: real)
    requires Nearest(rnd) && AllFinite(e) && originalMax > 0.0
    ensures AllFinite(Preserved(rnd, e, originalMax))
    ensures var m, r := MaxAbs(Values(e)), MaxAbs(Values(Preserved(rnd, e, originalMax)));
      && (if TooLoud(rnd, Finite(m), originalMax) then NearMargin(rnd, r, originalMax, m, VOLUME_SAFETY_MARGIN) else r == m)
      && (Exact(rnd) ==> r <= originalMax * 1.2)
      && (Grid(1) <= originalMax && m <= LARGE ==> r <= High(High(originalMax * 1.2)))
  {
    LouderIsRestored(rnd, e, originalMax);
    LimitAccuracy(rnd, originalMax);
    var m := MaxAbs(Values(e));
    if TooLoud(rnd, Finite(m), originalMax) {
      RestoredNearMargin(rnd, originalMax, m, VOLUME_SAFETY_MARGIN);
      MarginBelowLimit(rnd, originalMax, m, Restored(rnd, originalMax, m, VOLUME_SAFETY_MARGIN));
    }
  }

  lemma TimesKeepsInfinite(rnd: Rounding, x: Float, ratio: real)
    requires !x.Finite?
    ensures !Times(rnd, x, ratio).Finite?
  {
  }

  /** If the model answers anything that is not a number, the chunk comes back as it was. */
  lemma NotFiniteReturnsInput(rnd: Rounding, pcm: seq<Byte>, e: seq<Float>, originalMax: real)
    requires !AllFinite(e)
    ensures Finished(rnd, pcm, e, originalMax) == pcm
  {
    var i :| 0 <= i < |e| && !e[i].Finite?;
    var r := Preserved(rnd, e, originalMax);
    if TooLoud(rnd, FloatMax(e), originalMax) { TimesKeepsInfinite(rnd, e[i], VolumeRatio(rnd, FloatMax(e), originalMax)); }
    assert !r[i].Finite?;
  }

  // ---- A chunk ----

  predicate Malformed(pcm: seq<Byte>) { |pcm| < 2 || |pcm| % 2 != 0 }

  function WavOf(pcm: seq<Byte>): (wav: seq<real>)
    ensures |wav| == |pcm| / 2
  {
    ToWav(Decode(pcm))
  }

  predicate TooFew(e: Engine, n: nat) { n < MIN_SAMPLES || n < 2 * e.hop }

  /** Does the chunk reach the model? */
  predicate Full(e: Engine, wav: seq<real>, rate: nat) {
    !Silent(wav) && !HighSnr(e, RmsOf(e, wav), MaxAbs(wav)) && !Short(e, |wav|, rate) && !TooFew(e, |wav|)
  }

  /** What is done with sound that does not reach the model. */
  function Spared(e: Engine, pcm: seq<Byte>, wav: seq<real>, rate: nat): (r: seq<Byte>)
    requires |pcm| == 2 * |wav|
    ensures |r| == |pcm|
  {
    if Silent(wav) then pcm
    else if !HighSnr(e, RmsOf(e, wav), MaxAbs(wav)) && Short(e, |wav|, rate) && LowEnergy(e, RmsOf(e, wav), MaxAbs(wav)) then pcm
    else LightlyProcessed(e, pcm, wav, rate)
  }

  /** The answer to a chunk does not involve the skip counter. */
  function Chunk(e: Engine, past: seq<Frame>, pcm: seq<Byte>, rate: nat): Result<seq<Byte>, NoiseError>
    requires e.hop > 0
  {
    if Malformed(pcm) then Ok(pcm) else
    var wav := WavOf(pcm);
    if !Full(e, wav, rate) then Ok(Spared(e, pcm, wav, rate)) else
    match Enhanced(e.model, past, wav, e.hop)
    case None => Err(ModelFailed)
    case Some(enhanced) => Ok(Finished(e.rnd, pcm, enhanced, MaxAbs(wav)))
  }

  function FedAfter(e: Engine, past: seq<Frame>, pcm: seq<Byte>, rate: nat): seq<Frame>
    requires e.hop > 0
  {
    if Malformed(pcm) || !Full(e, WavOf(pcm), rate) then past else Fed(e.model, past, Frames(WavOf(pcm), e.hop))
  }

  function SkipAfter(skip: nat, pcm: seq<Byte>): nat {
    if Malformed(pcm) then skip else if Silent(WavOf(pcm)) then skip + 1 else 0
  }

  /** For every byte string, rate, hop and model, an answer has exactly the length of the chunk. */
  lemma LengthIsKept(e: Engine, past: seq<Frame>, pcm: seq<Byte>, rate: nat)
    requires e.hop > 0 && Chunk(e, past, pcm, rate).Ok?
    ensures |Chunk(e, past, pcm, rate).value| == |pcm|
  {
    if !Malformed(pcm) { assert 2 * |WavOf(pcm)| == |pcm|; }
  }

  /** An error is only ever the model's own, on a chunk that reaches it. */
  lemma FailsOnlyWithModel(e: Engine, past: seq<Frame>, pcm: seq<Byte>, rate: nat)
    requires e.hop > 0
    ensures Chunk(e, past, pcm, rate).Err? <==>
      !Malformed(pcm) && Full(e, WavOf(pcm), rate) && Enhanced(e.model, past, WavOf(pcm), e.hop).None?
  {
  }

  /** Sample by sample the same, or one step below. */
  ghost predicate AtMostOneBelow(out: seq<I16>, samples: seq<I16>) {
    |out| == |samples| && forall i :: 0 <= i < |samples| ==> samples[i] as int - 1 <= out[i] as int <= samples[i] as int
  }

  lemma QuantisedWav(rnd: Rounding, samples: seq<I16>)
    requires Nearest(rnd)
    ensures AtMostOneBelow(Quantised(rnd, ToWav(samples)), samples)
  {
    forall i | 0 <= i < |samples|
      ensures samples[i] as int - 1 <= Quantised(rnd, ToWav(samples))[i] as int <= samples[i] as int
    {
      QuantiseNearlyInverts(rnd, samples[i]);
    }
  }

  lemma FloatMaxOfLift(wav: seq<real>)
    ensures FloatMax(Lift(wav)) == Finite(MaxAbs(wav))
  {
    assert Values(Lift(wav)) == wav;
    FloatMaxOfFinite(Lift(wav));
  }

  /** The peak of 16-bit samples is itself a float, and 1.2 times it is no less. */
  lemma SamplePeak(samples: seq<I16>) returns (n: int)
    requires |samples| > 0
    ensures 0 <= n <= 32768 && MaxAbs(ToWav(samples)) == Grid(n)
  {
    var wav := ToWav(samples);
    var i :| 0 <= i < |wav| && Abs(wav[i]) == MaxAbs(wav);
    var s: int := samples[i];
    n := if s < 0 then -s else s;
  }

  lemma LimitAbovePeak(rnd: Rounding, n: int)
    requires Nearest(rnd) && 0 <= n <= 32768
    ensures LoudnessLimit(rnd, Grid(n)) >= Grid(n)
  {
    RoundsWhole(rnd, 1);
    RoundsWhole(rnd, n);
    RoundsOrder(rnd, 1.0, 1.2);
    ProductOrder(1.0, rnd(1.2), Grid(n));
    ProductSymmetric(Grid(n), 1.0);
    RoundsOrder(rnd, Grid(n), Product(Grid(n), rnd(1.2)));
  }

  lemma EchoPreserved(rnd: Rounding, samples: seq<I16>)
    requires Nearest(rnd) && |samples| > 0
    ensures var wav := ToWav(samples); Preserved(rnd, Lift(wav), MaxAbs(wav)) == Lift(wav)
  {
    var n := SamplePeak(samples);
    FloatMaxOfLift(ToWav(samples));
    LimitAbovePeak(rnd, n);
  }

  lemma FinishedEcho(rnd: Rounding, pcm: seq<Byte>, wav: seq<real>)
    requires Preserved(rnd, Lift(wav), MaxAbs(wav)) == Lift(wav)
    ensures Finished(rnd, pcm, Lift(wav), MaxAbs(wav)) == Encode(Quantised(rnd, wav))
  {
    assert Values(Lift(wav)) == wav;
  }

  /** With a model that repeats its frames the full path returns every sample within one step. */
  lemma EchoModelNearlyReturnsInput(e: Engine, past: seq<Frame>, pcm: seq<Byte>, rate: nat)
    requires e.Valid() && Nearest(e.rnd) && !Malformed(pcm) && Full(e, WavOf(pcm), rate)
    requires forall h, f :: |f| == e.hop ==> e.model(h + [f]) == Some(Lift(f))
    ensures Chunk(e, past, pcm, rate).Ok?
    ensures AtMostOneBelow(Decode(Chunk(e, past, pcm, rate).value), Decode(pcm))
  {
    var wav := WavOf(pcm);
    EchoModelChangesNothing(e.model, past, wav, e.hop);
    EchoPreserved(e.rnd, Decode(pcm));
    FinishedEcho(e.rnd, pcm, wav);
    DecodeEncode(Quantised(e.rnd, wav));
    QuantisedWav(e.rnd, Decode(pcm));
  }
}
