/** One worker of src/utils/noise_filter.rs: its model's memory, its skip counter, and the loops over samples. */
module NoiseWorker {
  import opened Wrappers
  import opened Floats
  import opened Pcm
  import opened FrameModel
  import opened NoiseFilter

  method BytesToWav(pcm: seq<Byte>) returns (wav: seq<real>)
    ensures wav == WavOf(pcm)
  {
    wav := [];
    var i := 0;
    while i + 2 <= |pcm|
      invariant i % 2 == 0 && i <= |pcm|
      invariant wav == WavOf(pcm)[..i / 2]
    {
      wav := wav + [ToFloat(FromLeBytes(pcm[i], pcm[i + 1]))];
      i := i + 2;
    }
  }

  method PeakEnergy(wav: seq<real>) returns (peak: real)
    ensures peak == MaxAbs(wav)
  {
    peak := 0.0;
    for i := 0 to |wav|
      invariant peak == MaxAbs(wav[..i])
    {
      assert wav[..i + 1][..i] == wav[..i];
      var absSample := Abs(wav[i]);
      if absSample > peak { peak := absSample; }
    }
    assert wav[..|wav|] == wav;
  }

  lemma SumStep(rnd: Rounding, wav: seq<real>, i: nat)
    requires i < |wav|
    ensures SumOfSquares(rnd, wav[..i + 1]) == rnd(SumOfSquares(rnd, wav[..i]) + Square(rnd, wav[i]))
  {
    assert wav[..i + 1][..i] == wav[..i] && wav[..i + 1][i] == wav[i];
  }

  /** The energies of the chunk, in one pass. */
  method Analyse(rnd: Rounding, wav: seq<real>) returns (sumSquares: real, peakEnergy: real)
    ensures sumSquares == SumOfSquares(rnd, wav) && peakEnergy == MaxAbs(wav)
  {
    sumSquares, peakEnergy := 0.0, 0.0;
    for i := 0 to |wav|
      invariant sumSquares == SumOfSquares(rnd, wav[..i])
      invariant peakEnergy == MaxAbs(wav[..i])
    {
      SumStep(rnd, wav, i);
      assert wav[..i + 1][..i] == wav[..i];
      var absSample := Abs(wav[i]);
      sumSquares := rnd(sumSquares + Square(rnd, wav[i]));
      if absSample > peakEnergy { peakEnergy := absSample; }
    }
    assert wav[..|wav|] == wav;
  }

  method WavToBytes(rnd: Rounding, wav: seq<real>) returns (bytes: seq<Byte>)
    ensures bytes == Encode(Quantised(rnd, wav))
  {
    bytes := [];
    for i := 0 to |wav|
      invariant bytes == Encode(Quantised(rnd, wav)[..i])
    {
      assert Quantised(rnd, wav)[..i + 1] == Quantised(rnd, wav)[..i] + [Quantise(rnd, wav[i])];
      bytes := bytes + ToLeBytes(Quantise(rnd, wav[i]));
    }
    assert Quantised(rnd, wav)[..|wav|] == Quantised(rnd, wav);
  }

  lemma HighPassStep(rnd: Rounding, alpha: real, wav: seq<real>, i: nat)
    requires 1 <= i < |wav|
    ensures var before := HighPass(rnd, alpha, wav[..i]);
      HighPass(rnd, alpha, wav[..i + 1]) == before + [FilterStep(rnd, alpha, before[i - 1], wav[i], wav[i - 1])]
  {
    assert wav[..i + 1][..i] == wav[..i];
    assert wav[..i + 1][i] == wav[i] && wav[..i + 1][i - 1] == wav[i - 1];
  }

  method Filter(rnd: Rounding, alpha: real, wav: seq<real>) returns (filtered: seq<real>)
    ensures filtered == HighPass(rnd, alpha, wav)
  {
    if |wav| == 0 { return []; }
    filtered := [wav[0]];
    var prevInput, prevOutput := wav[0], wav[0];
    assert wav[..1] == [wav[0]];
    for i := 1 to |wav|
      invariant filtered == HighPass(rnd, alpha, wav[..i])
      invariant prevInput == wav[i - 1] && prevOutput == filtered[i - 1]
    {
      HighPassStep(rnd, alpha, wav, i);
      var filteredSample := FilterStep(rnd, alpha, prevOutput, wav[i], prevInput);
      filtered := filtered + [filteredSample];
      prevInput, prevOutput := wav[i], filteredSample;
    }
    assert wav[..|wav|] == wav;
  }

  method MapInPlace(f: real -> real, buffer: array<real>)
    modifies buffer
    ensures buffer[..] == Map(f, old(buffer[..]))
  {
    for i := 0 to buffer.Length
      invariant forall k :: 0 <= k < i ==> buffer[k] == f(old(buffer[k]))
      invariant forall k :: i <= k < buffer.Length ==> buffer[k] == old(buffer[k])
    {
      buffer[i] := f(buffer[i]);
    }
  }

  /** `for sample in &mut filtered { *sample *= volume_ratio }`. */
  method ScaleInPlace(rnd: Rounding, buffer: array<real>, ratio: real)
    modifies buffer
    ensures buffer[..] == Scaled(rnd, old(buffer[..]), ratio)
  {
    MapInPlace(Gain(rnd, ratio), buffer);
  }

  method ApplyLightProcessing(e: Engine, pcm: seq<Byte>, wav: seq<real>, rate: nat) returns (r: seq<Byte>)
    ensures r == LightlyProcessed(e, pcm, wav, rate)
  {
    var originalMax := PeakEnergy(wav);
    if VeryShort(e, |wav|, rate) {
      if originalMax > 0.0 { return pcm; }
    }
    var samples := Filter(e.rnd, Alpha(e, rate), wav);
    var filtered := new real[|samples|](i requires 0 <= i < |samples| => samples[i]);
    assert filtered[..] == samples;
    var filteredMax := PeakEnergy(samples);
    if filteredMax > 0.0 && originalMax > 0.0 {
      ScaleInPlace(e.rnd, filtered, Ratio(e.rnd, originalMax, filteredMax, LIGHT_PROCESSING_SAFETY_MARGIN));
    }
    r := WavToBytes(e.rnd, filtered[..]);
  }

  method Finish(rnd: Rounding, pcm: seq<Byte>, enhanced: seq<Float>, originalMax: real) returns (r: seq<Byte>)
    ensures r == Finished(rnd, pcm, enhanced, originalMax)
  {
    var enhancedMax := Finite(0.0);
    for i := 0 to |enhanced|
      invariant enhancedMax == FloatMax(enhanced[..i])
    {
      assert enhanced[..i + 1][..i] == enhanced[..i];
      match enhanced[i] {
        case NotANumber =>
        case Infinite => enhancedMax := Infinite;
        case Finite(v) => if enhancedMax.Finite? && enhancedMax.value <= Abs(v) { enhancedMax := Finite(Abs(v)); }
      }
    }
    assert enhanced[..|enhanced|] == enhanced;
    var scaled := enhanced;
    if TooLoud(rnd, enhancedMax, originalMax) {
      var volumeRatio := VolumeRatio(rnd, enhancedMax, originalMax);
      for i := 0 to |enhanced|
        invariant |scaled| == |enhanced|
        invariant forall k :: 0 <= k < i ==> scaled[k] == Times(rnd, enhanced[k], volumeRatio)
        invariant forall k :: i <= k < |enhanced| ==> scaled[k] == enhanced[k]
      {
        scaled := scaled[i := Times(rnd, scaled[i], volumeRatio)];
      }
    }
    assert scaled == Preserved(rnd, enhanced, originalMax);
    if exists i :: 0 <= i < |scaled| && !scaled[i].Finite? { return pcm; }
    r := WavToBytes(rnd, Values(scaled));
  }

  class Worker {
    const engine: Engine
    var skipCounter: nat
    /** Every frame the model has been given. */
    var fed: seq<Frame>

    constructor (engine: Engine)
      ensures this.engine == engine && skipCounter == 0 && fed == []
    {
      this.engine, skipCounter, fed := engine, 0, [];
    }

    method ProcessAudioChunk(pcm: seq<Byte>, rate: nat) returns (r: Result<seq<Byte>, NoiseError>)
      requires engine.Valid()
      modifies this
      ensures r == Chunk(engine, old(fed), pcm, rate)
      ensures fed == FedAfter(engine, old(fed), pcm, rate)
      ensures skipCounter == SkipAfter(old(skipCounter), pcm)
    {
      if |pcm| < 2 || |pcm| % 2 != 0 { return Ok(pcm); }
      var wav := BytesToWav(pcm);
      if forall i :: 0 <= i < |wav| ==> Abs(wav[i]) < SILENCE_THRESHOLD {
        skipCounter := skipCounter + 1;
        SilentBytesAreZero(pcm);
        if skipCounter > MAX_SKIP_FRAMES { return Ok(ZeroBytes(|pcm|)); }
        return Ok(pcm);
      }
      skipCounter := 0;
      var sumSquares, peakEnergy := Analyse(engine.rnd, wav);
      var rmsEnergy := Rms(engine, sumSquares, |wav|);
      if HighSnr(engine, rmsEnergy, peakEnergy) {
        var light := ApplyLightProcessing(engine, pcm, wav, rate);
        return Ok(light);
      }
      if Short(engine, |wav|, rate) {
        if LowEnergy(engine, rmsEnergy, peakEnergy) { return Ok(pcm); }
        var light := ApplyLightProcessing(engine, pcm, wav, rate);
        return Ok(light);
      }
      var minSamples := if MIN_SAMPLES < engine.hop * 2 then engine.hop * 2 else MIN_SAMPLES;
      if |wav| < minSamples {
        var light := ApplyLightProcessing(engine, pcm, wav, rate);
        return Ok(light);
      }
      var enhanced, f := Enhance(engine.model, engine.hop, fed, wav);
      fed := f;
      if enhanced.None? { return Err(ModelFailed); }
      var bytes := Finish(engine.rnd, pcm, enhanced.value, peakEnergy);
      r := Ok(bytes);
    }
  }
}
