/**
  Which way a chunk takes through `process_audio_chunk` (src/utils/noise_filter.rs), in terms of its samples alone: no
  square root, no quotient and no intermediate value of the code. For exact arithmetic; floats move the thresholds by
  their roundings.
 */
module NoisePaths {
  import opened Wrappers
  import opened Floats
  import opened Pcm
  import opened FrameModel
  import opened NoiseFilter

  ghost predicate TrueRoot(sqrt: real -> real) { forall x :: x >= 0.0 ==> sqrt(x) >= 0.0 && Product(sqrt(x), sqrt(x)) == x }

  ghost predicate ExactEngine(e: Engine) { Exact(e.rnd) && TrueRoot(e.sqrt) && e.hop > 0 && e.rc > 0.0 }

  // ---- What is measured ----

  ghost function Energy(wav: seq<real>): (s: real)
    ensures s >= 0.0
  {
    if |wav| == 0 then 0.0 else
    var n := |wav| - 1;
    SquareNonNegative(wav[n]);
    Energy(wav[..n]) + wav[n] * wav[n]
  }

  lemma SquareNonNegative(x: real)
    ensures x * x >= 0.0
  {
  }

  ghost predicate SomeAbove(wav: seq<real>, t: real) { exists i :: 0 <= i < |wav| && Abs(wav[i]) > t }

  ghost predicate AllBelow(wav: seq<real>, t: real) { forall i :: 0 <= i < |wav| ==> Abs(wav[i]) < t }

  /** Clear speech: mean square above 0.1 squared, and a sample above 0.3. */
  ghost predicate Loud(wav: seq<real>) { Energy(wav) > 0.01 * |wav| as real && SomeAbove(wav, 0.3) }

  /** Nearly nothing: mean square below 0.005 squared, or every sample below 0.02. */
  ghost predicate Quiet(wav: seq<real>) { Energy(wav) < 0.000025 * |wav| as real || AllBelow(wav, 0.02) }

  lemma {:induction false} EnergyIs(rnd: Rounding, wav: seq<real>)
    requires Exact(rnd)
    ensures SumOfSquares(rnd, wav) == Energy(wav)
  {
    if |wav| > 0 {
      var n := |wav| - 1;
      EnergyIs(rnd, wav[..n]);
      assert Square(rnd, wav[n]) == wav[n] * wav[n];
    }
  }

  /** Squares of non-negative numbers are in the order of the numbers. */
  lemma SquareOrder(r: real, t: real)
    requires r >= 0.0 && t >= 0.0
    ensures r > t <==> Product(r, r) > Product(t, t)
  {
    if r > t {
      ProductOrder(t, r, t);
      StrictProduct(t, r);
    } else {
      ProductOrder(r, t, r);
      ProductOrder(r, t, t);
    }
  }

  lemma StrictProduct(t: real, r: real)
    requires 0.0 <= t < r
    ensures Product(r, r) > Product(t, t)
  {
    NegativeProduct(t - r, r + t);
    assert Product(t - r, r + t) == t * t - r * r;
  }

  lemma QuotientOrder(s: real, n: real, t: real)
    requires n > 0.0
    ensures Quotient(s, n) > t <==> s > t * n
    ensures Quotient(s, n) < t <==> s < t * n
  {
    var q := Quotient(s, n);
    assert q * n == s;
    assert q > t ==> (q - t) * n > 0.0;
    assert q < t ==> (t - q) * n > 0.0;
    assert (q - t) * n == s - t * n && (t - q) * n == t * n - s;
  }

  lemma RmsIs(e: Engine, wav: seq<real>) returns (r: real)
    requires ExactEngine(e) && |wav| > 0
    ensures RmsOf(e, wav) == Finite(r) && r >= 0.0 && Product(r, r) == Quotient(Energy(wav), |wav| as real)
  {
    EnergyIs(e.rnd, wav);
    var n := |wav| as real;
    assert e.rnd(n) == n;
    QuotientTimes(Energy(wav), n);
    var q := Quotient(Energy(wav), n);
    assert e.rnd(q) == q;
    r := e.sqrt(q);
  }

  /** The root of the mean square is beyond t exactly when the energy is beyond t squared times the number of samples. */
  lemma RmsOrder(e: Engine, wav: seq<real>, t: real)
    requires ExactEngine(e) && |wav| > 0 && t > 0.0
    ensures Above(e, RmsOf(e, wav), t) <==> Energy(wav) > Product(t, t) * |wav| as real
    ensures Below(e, RmsOf(e, wav), t) <==> Energy(wav) < Product(t, t) * |wav| as real
  {
    var r := RmsIs(e, wav);
    assert e.rnd(t) == t;
    SquareOrder(r, t);
    SquareOrder(t, r);
    QuotientOrder(Energy(wav), |wav| as real, Product(t, t));
  }

  lemma PeakOrder(e: Engine, wav: seq<real>, t: real)
    requires Exact(e.rnd) && t > 0.0
    ensures Above(e, Finite(MaxAbs(wav)), t) <==> SomeAbove(wav, t)
    ensures Below(e, Finite(MaxAbs(wav)), t) <==> AllBelow(wav, t)
  {
    assert e.rnd(t) == t;
    if |wav| > 0 {
      var i :| 0 <= i < |wav| && Abs(wav[i]) == MaxAbs(wav);
    }
  }

  lemma HighSnrIff(e: Engine, wav: seq<real>)
    requires ExactEngine(e) && |wav| > 0
    ensures HighSnr(e, RmsOf(e, wav), MaxAbs(wav)) <==> Loud(wav)
  {
    RmsOrder(e, wav, 0.1);
    PeakOrder(e, wav, 0.3);
    assert Product(0.1, 0.1) == 0.01;
  }

  lemma LowEnergyIff(e: Engine, wav: seq<real>)
    requires ExactEngine(e) && |wav| > 0
    ensures LowEnergy(e, RmsOf(e, wav), MaxAbs(wav)) <==> Quiet(wav)
  {
    RmsOrder(e, wav, 0.005);
    PeakOrder(e, wav, 0.02);
    assert Product(0.005, 0.005) == 0.000025;
  }

  /** A second and a fifth of a second, in samples; at a rate of zero nothing is short. */
  lemma DurationIff(e: Engine, n: nat, rate: nat)
    requires Exact(e.rnd)
    ensures Short(e, n, rate) <==> n < rate
    ensures VeryShort(e, n, rate) <==> 5 * n < rate
  {
    var x, y := n as real, rate as real;
    assert e.rnd(x) == x && e.rnd(y) == y && e.rnd(1.0) == 1.0 && e.rnd(0.2) == 0.2;
    if rate > 0 {
      var q := Quotient(x, y);
      assert e.rnd(q) == q;
      QuotientOrder(x, y, 1.0);
      QuotientOrder(x, y, 0.2);
    }
  }

  /** The filter's coefficient is rc * rate / (rc * rate + 1). */
  lemma AlphaIs(e: Engine, rate: nat)
    requires ExactEngine(e)
    ensures var a := Alpha(e, rate); a * (e.rc * rate as real + 1.0) == e.rc * rate as real && 0.0 <= a < 1.0
  {
    var y := rate as real;
    assert e.rnd(y) == y;
    if rate > 0 {
      var dt := Quotient(1.0, y);
      assert e.rnd(dt) == dt && dt * y == 1.0;
      QuotientTimes(1.0, y);
      var sum := e.rc + dt;
      assert e.rnd(sum) == sum && sum > 0.0;
      var a := Quotient(e.rc, sum);
      assert e.rnd(a) == a && a * sum == e.rc;
      QuotientTimes(e.rc, sum);
      QuotientOrder(e.rc, sum, 1.0);
      AlphaTimes(a, e.rc, dt, y);
    }
  }

  lemma AlphaTimes(a: real, rc: real, dt: real, y: real)
    requires a * (rc + dt) == rc && dt * y == 1.0
    ensures a * (rc * y + 1.0) == rc * y
  {
    assert (rc + dt) * y == rc * y + 1.0;
    assert a * ((rc + dt) * y) == (a * (rc + dt)) * y;
  }

  // ---- Which way a chunk takes ----

  ghost predicate WholeSamples(pcm: seq<Byte>) { |pcm| >= 2 && |pcm| % 2 == 0 }

  ghost predicate Sounds(pcm: seq<Byte>) { exists k :: 0 <= k < |pcm| && pcm[k] != 0 }

  lemma SoundsIff(pcm: seq<Byte>)
    requires WholeSamples(pcm)
    ensures Sounds(pcm) <==> !Silent(WavOf(pcm))
  {
    SilentBytesAreZero(pcm);
    if Sounds(pcm) {
      var k :| 0 <= k < |pcm| && pcm[k] != 0;
      assert ZeroBytes(|pcm|)[k] == 0;
    } else {
      assert pcm == ZeroBytes(|pcm|);
    }
  }

  lemma SoundHasPeak(pcm: seq<Byte>)
    requires WholeSamples(pcm) && Sounds(pcm)
    ensures MaxAbs(WavOf(pcm)) > 0.0
  {
    SoundsIff(pcm);
    var wav := WavOf(pcm);
    var i :| 0 <= i < |wav| && !(Abs(wav[i]) < SILENCE_THRESHOLD);
    assert Abs(wav[i]) <= MaxAbs(wav);
  }

  /** Sound that is not clear speech, at least a second long, and at least 512 samples and two hops. */
  ghost predicate NeedsModel(e: Engine, pcm: seq<Byte>, rate: nat) {
    var n := |pcm| / 2;
    WholeSamples(pcm) && Sounds(pcm) && !Loud(WavOf(pcm)) && n >= rate && n >= 512 && n >= 2 * e.hop
  }

  /** Malformed, silent, shorter than a fifth of a second, or quiet and shorter than a second without being clear speech. */
  ghost predicate ComesBack(pcm: seq<Byte>, rate: nat) {
    var n := |pcm| / 2;
    !WholeSamples(pcm) || !Sounds(pcm) || 5 * n < rate || (n < rate && Quiet(WavOf(pcm)) && !Loud(WavOf(pcm)))
  }

  lemma FullIff(e: Engine, pcm: seq<Byte>, rate: nat)
    requires ExactEngine(e) && WholeSamples(pcm)
    ensures Full(e, WavOf(pcm), rate) <==> NeedsModel(e, pcm, rate)
  {
    SoundsIff(pcm);
    HighSnrIff(e, WavOf(pcm));
    DurationIff(e, |WavOf(pcm)|, rate);
  }

  /** What the high-pass filter makes of the chunk, brought back to its level. */
  ghost function Filtered(e: Engine, pcm: seq<Byte>, rate: nat): seq<Byte> {
    Encode(Quantised(e.rnd, Rescaled(e.rnd, HighPass(e.rnd, Alpha(e, rate), WavOf(pcm)), MaxAbs(WavOf(pcm)))))
  }

  /** A chunk comes back as it is, goes to the model, or is filtered and brought back to its level; these samples decide which. */
  lemma ChunkPaths(e: Engine, past: seq<Frame>, pcm: seq<Byte>, rate: nat)
    requires ExactEngine(e)
    ensures
      var wav, r := WavOf(pcm), Chunk(e, past, pcm, rate);
      && (ComesBack(pcm, rate) ==> r == Ok(pcm))
      && (!ComesBack(pcm, rate) && !NeedsModel(e, pcm, rate) ==> r == Ok(Filtered(e, pcm, rate)))
      && (NeedsModel(e, pcm, rate) ==>
           match Enhanced(e.model, past, wav, e.hop)
           case None => r == Err(ModelFailed)
           case Some(enhanced) => r == Ok(Finished(e.rnd, pcm, enhanced, MaxAbs(wav))))
  {
    if WholeSamples(pcm) {
      var wav := WavOf(pcm);
      FullIff(e, pcm, rate);
      SoundsIff(pcm);
      HighSnrIff(e, wav);
      LowEnergyIff(e, wav);
      DurationIff(e, |wav|, rate);
      if Sounds(pcm) { SoundHasPeak(pcm); }
    }
  }

  // ---- What a worker remembers ----

  lemma {:induction false} FedAll(model: Model, past: seq<Frame>, frames: seq<Frame>)
    ensures past <= Fed(model, past, frames) <= past + frames
    ensures Answers(model, past, frames).Some? ==> Fed(model, past, frames) == past + frames
    decreases |frames|
  {
    if |frames| == 0 {
      assert past + frames == past;
    } else {
      assert past + frames == (past + [frames[0]]) + frames[1..];
      FedAll(model, past + [frames[0]], frames[1..]);
    }
  }

  /** The model is fed the chunk's frames in order, all of them unless it fails, and nothing of a chunk that does not need it. */
  lemma MemoryGrows(e: Engine, past: seq<Frame>, pcm: seq<Byte>, rate: nat)
    requires ExactEngine(e)
    ensures var fed, frames := FedAfter(e, past, pcm, rate), Frames(WavOf(pcm), e.hop);
      && (!NeedsModel(e, pcm, rate) ==> fed == past)
      && (NeedsModel(e, pcm, rate) ==> past <= fed <= past + frames && (Chunk(e, past, pcm, rate).Ok? ==> fed == past + frames))
  {
    if WholeSamples(pcm) { FullIff(e, pcm, rate); }
    FedAll(e.model, past, Frames(WavOf(pcm), e.hop));
  }

  function SkipsAfter(chunks: seq<seq<Byte>>): nat {
    if |chunks| == 0 then 0 else SkipAfter(SkipsAfter(chunks[..|chunks| - 1]), chunks[|chunks| - 1])
  }

  /** The skip counter counts the silent chunks at the end; a malformed chunk leaves it alone. */
  lemma {:induction false} SkipsAreTrailing(chunks: seq<seq<Byte>>, n: nat)
    requires n <= |chunks|
    ensures (forall i :: 0 <= i < |chunks| ==> WholeSamples(chunks[i])) ==>
      (SkipsAfter(chunks) >= n <==> forall i :: |chunks| - n <= i < |chunks| ==> !Sounds(chunks[i]))
    ensures |chunks| > 0 && !WholeSamples(chunks[|chunks| - 1]) ==> SkipsAfter(chunks) == SkipsAfter(chunks[..|chunks| - 1])
    decreases n
  {
    if n > 0 {
      var last := |chunks| - 1;
      SkipsAreTrailing(chunks[..last], n - 1);
      if WholeSamples(chunks[last]) { SoundsIff(chunks[last]); }
      assert (forall i :: |chunks| - n <= i < |chunks| ==> !Sounds(chunks[i]))
        <==> !Sounds(chunks[last]) && forall i :: |chunks| - n <= i < last ==> !Sounds(chunks[..last][i]);
    }
  }
}
