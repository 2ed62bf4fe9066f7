/**
  Decoding and validation of loading clips, src/livekit/loading_clip.rs. `hound`, the WAV reader, and the rounding of
  floats are parameters.
 */
module LoadingClip {
  import opened Wrappers
  import opened Arithmetic
  import opened Floats
  import opened Text
  import opened Pcm
  import Base64

  const MIN_LOADING_AUDIO_MS: nat := 250
  const MAX_LOADING_AUDIO_MS: nat := 10_000
  const LOADING_AUDIO_SAMPLE_RATE_MIN: nat := 8_000
  const LOADING_AUDIO_SAMPLE_RATE_MAX: nat := 48_000
  const MAX_LOADING_AUDIO_DECODED_BYTES: nat := LOADING_AUDIO_SAMPLE_RATE_MAX * 2 * 2 * MAX_LOADING_AUDIO_MS / 1000
  const MAX_LOADING_AUDIO_PAYLOAD_BYTES: nat := MAX_LOADING_AUDIO_DECODED_BYTES + 4_096
  /** 2^-23, the spacing of `f32` at one. */
  const EPSILON := 1.0 / 8_388_608.0

  datatype ClipError =
    | EstimateTooLarge | NotBase64 | PayloadTooLarge | UnknownFormat
    | NotWav | NotPcm16 | DeclaredTooLarge | Unreadable | WavNotWholeFrames
    | SampleRateRequired | NotFrameAligned
    | UnsupportedChannels | UnsupportedRate | TooShort | TooLong

  /** What `hound` makes of a file: its header, and the samples it reads, if it can read them all. */
  datatype Wav = Wav(pcm16: bool, rate: nat, channels: nat, declared: nat, samples: Option<seq<I16>>)

  type WavReader = seq<Byte> -> Option<Wav>

  /** The samples of a file are as many as its header declares. */
  ghost predicate Counts(reader: WavReader) {
    forall b :: reader(b).Some? && reader(b).value.samples.Some? ==> |reader(b).value.samples.value| == reader(b).value.declared
  }

  /** Interleaved samples with the authoritative rate and channel count. */
  datatype Audio = Audio(samples: seq<I16>, rate: nat, channels: nat)

  /** An `f32`. */
  datatype Volume = Number(value: real) | PlusInfinity | MinusInfinity | NotANumber

  datatype LoadingClip = LoadingClip(samples: seq<I16>, rate: nat, channels: nat, volume: Volume)

  /** `is_multiple_of`, which is defined for zero. */
  predicate IsMultipleOf(a: nat, b: nat) { if b == 0 then a == 0 else a % b == 0 }

  function DecodeWav(reader: WavReader, bytes: seq<Byte>): Result<Audio, ClipError> {
    var file := reader(bytes);
    if file.None? then Err(NotWav) else
    var wav := file.value;
    if !wav.pcm16 then Err(NotPcm16)
    else if wav.declared * 2 > MAX_LOADING_AUDIO_DECODED_BYTES then Err(DeclaredTooLarge)
    else if wav.samples.None? then Err(Unreadable)
    else if wav.channels == 0 || !IsMultipleOf(|wav.samples.value|, wav.channels) then Err(WavNotWholeFrames)
    else Ok(Audio(wav.samples.value, wav.rate, wav.channels))
  }

  function DecodeRawPcm(bytes: seq<Byte>, rate: Option<nat>, channels: Option<nat>): Result<Audio, ClipError> {
    if rate.None? then Err(SampleRateRequired) else
    var c := if channels.Some? then channels.value else 1;
    if !IsMultipleOf(|bytes|, 2) || !IsMultipleOf(|bytes|, 2 * c) then Err(NotFrameAligned)
    else Ok(Audio(Decode(bytes), rate.value, c))
  }

  /** An explicit hint wins; without one the file's magic decides. */
  function IsWav(bytes: seq<Byte>, format: Option<string>): Result<bool, ClipError> {
    match format
    case Some(f) =>
      if ToLower(Trim(f)) == "wav" then Ok(true)
      else if ToLower(Trim(f)) == "pcm" then Ok(false)
      else Err(UnknownFormat)
    case None =>
      // "RIFF" and "WAVE"
      Ok(|bytes| >= 12 && bytes[0..4] == [82, 73, 70, 70] && bytes[8..12] == [87, 65, 86, 69])
  }

  function Validate(a: Audio): Result<Audio, ClipError> {
    if a.channels != 1 && a.channels != 2 then Err(UnsupportedChannels)
    else if !(LOADING_AUDIO_SAMPLE_RATE_MIN <= a.rate <= LOADING_AUDIO_SAMPLE_RATE_MAX) then Err(UnsupportedRate)
    else
      var frames := |a.samples| / a.channels;
      if |a.samples| == 0 || frames == 0 then Err(TooShort) else
      var durationMs := frames * 1000 / a.rate;
      if durationMs < MIN_LOADING_AUDIO_MS then Err(TooShort)
      else if durationMs > MAX_LOADING_AUDIO_MS then Err(TooLong)
      else Ok(a)
  }

  function EstimatedBytes(data: seq<Byte>): nat { |data| / 4 * 3 }

  /** Steps 1 to 9: everything but the volume. */
  function DecodeAudio(reader: WavReader, data: seq<Byte>, format: Option<string>, rate: Option<nat>,
      channels: Option<nat>): Result<Audio, ClipError> {
    if EstimatedBytes(data) > MAX_LOADING_AUDIO_PAYLOAD_BYTES then Err(EstimateTooLarge) else
    var decoded := Base64.Decode(Base64.STANDARD, data);
    if decoded.None? then Err(NotBase64) else
    var bytes := decoded.value;
    if |bytes| > MAX_LOADING_AUDIO_PAYLOAD_BYTES then Err(PayloadTooLarge) else
    var isWav :- IsWav(bytes, format);
    var audio :- if isWav then DecodeWav(reader, bytes) else DecodeRawPcm(bytes, rate, channels);
    Validate(audio)
  }

  // ---- Volume ----

  function ScaleSample(rnd: Rounding, s: I16, volume: real): I16 { Saturate(Round(rnd(Product(s as real, volume)))) }

  function Each(f: I16 -> I16, samples: seq<I16>): seq<I16> {
    seq(|samples|, i requires 0 <= i < |samples| => f(samples[i]))
  }

  function ScaledSamples(rnd: Rounding, samples: seq<I16>, volume: real): seq<I16> {
    Each(s => ScaleSample(rnd, s, volume), samples)
  }

  /** `clamp` passes a NaN through. */
  function EffectiveVolume(volume: Option<Volume>): Volume {
    match volume
    case None => Number(1.0)
    case Some(Number(v)) => Number(Clamp(v, 0.0, 1.0))
    case Some(PlusInfinity) => Number(1.0)
    case Some(MinusInfinity) => Number(0.0)
    case Some(NotANumber) => NotANumber
  }

  predicate MustScale(rnd: Rounding, volume: Volume) { volume.Number? && Abs(rnd(volume.value - 1.0)) > EPSILON }

  function WithVolume(rnd: Rounding, samples: seq<I16>, volume: Volume): seq<I16> {
    if MustScale(rnd, volume) then ScaledSamples(rnd, samples, volume.value) else samples
  }

  method ReplaceEach(f: I16 -> I16, samples: array<I16>)
    modifies samples
    ensures samples[..] == Each(f, old(samples[..]))
  {
    for i := 0 to samples.Length
      invariant forall k :: 0 <= k < i ==> samples[k] == f(old(samples[k]))
      invariant forall k :: i <= k < samples.Length ==> samples[k] == old(samples[k])
    {
      samples[i] := f(samples[i]);
    }
  }

  method ApplyVolume(rnd: Rounding, samples: array<I16>, volume: real)
    modifies samples
    ensures samples[..] == ScaledSamples(rnd, old(samples[..]), volume)
  {
    ReplaceEach(s => ScaleSample(rnd, s, volume), samples);
  }

  method DecodeLoadingClip(rnd: Rounding, reader: WavReader, data: seq<Byte>, format: Option<string>, rate: Option<nat>,
      channels: Option<nat>, volume: Option<Volume>) returns (r: Result<LoadingClip, ClipError>)
    ensures r.Ok? <==> DecodeAudio(reader, data, format, rate, channels).Ok?
    ensures r.Err? ==> DecodeAudio(reader, data, format, rate, channels) == Err(r.error)
    ensures r.Ok? ==>
      var a, v := DecodeAudio(reader, data, format, rate, channels).value, EffectiveVolume(volume);
      r.value == LoadingClip(WithVolume(rnd, a.samples, v), a.rate, a.channels, v)
  {
    var decoded := DecodeAudio(reader, data, format, rate, channels);
    if decoded.Err? { return Err(decoded.error); }
    var audio := decoded.value;
    var samples := new I16[|audio.samples|](i requires 0 <= i < |audio.samples| => audio.samples[i]);
    assert samples[..] == audio.samples;
    var v := EffectiveVolume(volume);
    if MustScale(rnd, v) { ApplyVolume(rnd, samples, v.value); }
    r := Ok(LoadingClip(samples[..], audio.rate, audio.channels, v));
  }

  /** A gain of at most one never makes a sample larger or flips its sign, so the clamp has nothing to do. */
  lemma VolumeNeverAmplifies(rnd: Rounding, s: I16, volume: real)
    requires Nearest(rnd) && 0.0 <= volume <= 1.0
    ensures ScaleSample(rnd, s, volume) == Round(rnd(Product(s as real, volume)))
    ensures s >= 0 ==> 0 <= ScaleSample(rnd, s, volume) <= s
    ensures s <= 0 ==> s <= ScaleSample(rnd, s, volume) <= 0
  {
    GainAtMostOne(rnd, s, volume);
    var x := rnd(Product(s as real, volume));
    if s >= 0 { RoundBetween(0, x, s); } else { RoundBetween(s, x, 0); }
  }

  /** The recorded volume is the given one if that is between zero and one, and else the nearer end; none given is one, and a NaN stays. */
  lemma VolumeIsClamped(volume: Option<Volume>)
    ensures EffectiveVolume(volume) == NotANumber <==> volume == Some(NotANumber)
    ensures EffectiveVolume(volume) != NotANumber ==> EffectiveVolume(volume).Number? && 0.0 <= EffectiveVolume(volume).value <= 1.0
    ensures forall v: real :: volume == Some(Number(v)) && 0.0 <= v <= 1.0 ==> EffectiveVolume(volume) == Number(v)
  {
  }

  /** A scaled sample is the product up to half a step and the rounding of the product. */
  lemma ScaleAccuracy(rnd: Rounding, s: I16, volume: real)
    requires Nearest(rnd) && 0.0 <= volume <= 1.0
    ensures Abs(ScaleSample(rnd, s, volume) as real - Product(s as real, volume)) <= 0.502
  {
    VolumeNeverAmplifies(rnd, s, volume);
    ProductBetween(s as real, volume);
    RoundsNearby(rnd, Product(s as real, volume));
  }

  /** Where the test finds the volume too near to one to scale, scaling would have moved no sample by a hundredth of a step. */
  lemma UnscaledAccuracy(rnd: Rounding, s: I16, volume: real)
    requires Nearest(rnd) && 0.0 <= volume <= 1.0 && !MustScale(rnd, Number(volume))
    ensures Abs(s as real - Product(s as real, volume)) <= 0.01
  {
    var x := 1.0 - volume;
    assert rnd(-x) == -rnd(x);
    RoundsAbs(rnd, x);
    if x >= SMALLEST_NORMAL { RoundsNear(rnd, x); }
    assert x <= 0.0000003;
    UnscaledDifference(s as real, x);
  }

  lemma UnscaledDifference(s: real, x: real)
    requires -32768.0 <= s <= 32768.0 && 0.0 <= x <= 0.0000003
    ensures Abs(s - Product(s, 1.0 - x)) <= 0.01
  {
    assert s - Product(s, 1.0 - x) == Product(s, x);
    ProductAbs(s, x);
    ProductOrder(Abs(s), 32768.0, x);
  }

  lemma FullVolumeKeeps(rnd: Rounding, samples: seq<I16>)
    requires Nearest(rnd)
    ensures WithVolume(rnd, samples, Number(1.0)) == samples
  {
    RoundsWhole(rnd, 0);
    assert 1.0 - 1.0 == 0.0;
  }

  lemma VolumeBetween(rnd: Rounding, samples: seq<I16>, volume: real)
    requires Nearest(rnd) && 0.0 <= volume <= 1.0
    ensures var out := WithVolume(rnd, samples, Number(volume));
      |out| == |samples| && forall i :: 0 <= i < |samples| ==> Abs(out[i] as real - Product(samples[i] as real, volume)) <= 0.502
  {
    var out := WithVolume(rnd, samples, Number(volume));
    forall i | 0 <= i < |samples| ensures Abs(out[i] as real - Product(samples[i] as real, volume)) <= 0.502 {
      if MustScale(rnd, Number(volume)) { ScaleAccuracy(rnd, samples[i], volume); } else { UnscaledAccuracy(rnd, samples[i], volume); }
    }
  }

  ghost predicate AllZero(samples: seq<I16>) { forall i :: 0 <= i < |samples| ==> samples[i] == 0 }

  lemma NoVolumeSilences(rnd: Rounding, samples: seq<I16>)
    requires Nearest(rnd)
    ensures var out := WithVolume(rnd, samples, Number(0.0)); |out| == |samples| && AllZero(out)
  {
    VolumeBetween(rnd, samples, 0.0);
    var out := WithVolume(rnd, samples, Number(0.0));
    forall i | 0 <= i < |out| ensures out[i] == 0 {
      ProductSymmetric(samples[i] as real, 0.0);
      ProductSymmetric(0.0, samples[i] as real);
      assert Abs(out[i] as real) <= 0.502;
    }
  }

  /** What a caller hears: no volume, one or more, and a NaN leave the clip as it is; zero or less silences it; else it is scaled. */
  lemma VolumeApplied(rnd: Rounding, samples: seq<I16>, volume: Option<Volume>)
    requires Nearest(rnd)
    ensures
      var out := WithVolume(rnd, samples, EffectiveVolume(volume));
      && |out| == |samples|
      && (volume.None? || volume.value.NotANumber? || volume.value.PlusInfinity? || (volume.value.Number? && volume.value.value >= 1.0)
          ==> out == samples)
      && (volume.Some? && (volume.value.MinusInfinity? || (volume.value.Number? && volume.value.value <= 0.0)) ==> AllZero(out))
      && (volume.Some? && volume.value.Number? && 0.0 <= volume.value.value <= 1.0 ==>
           forall i :: 0 <= i < |samples| ==> Abs(out[i] as real - Product(samples[i] as real, volume.value.value)) <= 0.502)
  {
    FullVolumeKeeps(rnd, samples);
    NoVolumeSilences(rnd, samples);
    var v := EffectiveVolume(volume);
    if v.Number? {
      VolumeIsClamped(volume);
      VolumeBetween(rnd, samples, v.value);
    }
  }

  // ---- Formats ----

  ghost predicate Spells(bytes: seq<Byte>, text: string) {
    |bytes| == |text| && forall i :: 0 <= i < |text| ==> bytes[i] == text[i] as int
  }

  /** Without a hint a file is WAV exactly when it starts with RIFF, any length and WAVE. */
  lemma WavMagic(bytes: seq<Byte>)
    ensures IsWav(bytes, None).Ok?
    ensures IsWav(bytes, None).value <==> |bytes| >= 12 && Spells(bytes[..4], "RIFF") && Spells(bytes[8..12], "WAVE")
  {
  }

  /** A hint decides whatever the bytes are, in either case and with white space around it; there are two. */
  lemma FormatHint(bytes: seq<Byte>, before: string, hint: string, after: string)
    requires Blanks(before) && Blanks(after) && Trimmed(hint)
    ensures IsWav(bytes, Some(before + hint + after)) ==
      if EqIgnoreAsciiCase(hint, "wav") then Ok(true) else if EqIgnoreAsciiCase(hint, "pcm") then Ok(false) else Err(UnknownFormat)
  {
    TrimSurrounded(before, hint, after);
    assert ToLower("wav") == "wav" && ToLower("pcm") == "pcm";
  }

  /** A WAV file is accepted as such exactly when it is whole 16-bit frames of declared size, and says all about itself. */
  lemma DecodeWavIff(reader: WavReader, bytes: seq<Byte>)
    requires Counts(reader)
    ensures DecodeWav(reader, bytes).Ok? <==>
      && reader(bytes).Some? && reader(bytes).value.pcm16 && reader(bytes).value.samples.Some?
      && reader(bytes).value.declared <= 960_000 && exists frames: nat :: Frames(reader(bytes).value, frames)
    ensures DecodeWav(reader, bytes).Ok? ==>
      DecodeWav(reader, bytes).value == Audio(reader(bytes).value.samples.value, reader(bytes).value.rate, reader(bytes).value.channels)
  {
    if reader(bytes).Some? && reader(bytes).value.samples.Some? {
      var wav := reader(bytes).value;
      if wav.channels > 0 && IsMultipleOf(wav.declared, wav.channels) { assert Frames(wav, wav.declared / wav.channels); }
      if frames: nat :| Frames(wav, frames) { MultipleHasNoRest(frames, wav.channels); }
    }
  }

  ghost predicate Frames(wav: Wav, frames: nat) { wav.channels > 0 && wav.declared == frames * wav.channels }

  ghost predicate RawFrames(bytes: seq<Byte>, channels: nat, frames: nat) { |bytes| == frames * (2 * channels) }

  lemma RawFramesEven(frames: nat, c: nat)
    ensures frames * (2 * c) == 2 * (frames * c)
  {
  }

  lemma RawFramesAligned(n: nat, frames: nat, c: nat)
    requires n == frames * (2 * c)
    ensures IsMultipleOf(n, 2) && IsMultipleOf(n, 2 * c)
  {
    RawFramesEven(frames, c);
    if c > 0 { MultipleHasNoRest(frames, 2 * c); }
  }

  lemma AlignedHasFrames(n: nat, m: nat) returns (frames: nat)
    requires IsMultipleOf(n, m)
    ensures n == frames * m
  {
    if m == 0 {
      frames := 0;
    } else {
      frames := n / m;
      assert n == m * frames + n % m;
    }
  }

  lemma RawFramesIff(bytes: seq<Byte>, c: nat)
    ensures IsMultipleOf(|bytes|, 2) && IsMultipleOf(|bytes|, 2 * c) <==> exists frames: nat :: RawFrames(bytes, c, frames)
  {
    if IsMultipleOf(|bytes|, 2 * c) {
      var frames := AlignedHasFrames(|bytes|, 2 * c);
      assert RawFrames(bytes, c, frames);
    }
    forall frames: nat | RawFrames(bytes, c, frames) ensures IsMultipleOf(|bytes|, 2) && IsMultipleOf(|bytes|, 2 * c) {
      RawFramesAligned(|bytes|, frames, c);
    }
  }

  /** Raw PCM needs a rate, and then has to be whole frames; of no channels there are none. */
  lemma DecodeRawPcmIff(bytes: seq<Byte>, rate: Option<nat>, channels: Option<nat>)
    ensures var r, c := DecodeRawPcm(bytes, rate, channels), if channels.Some? then channels.value else 1;
      && (rate.None? ==> r == Err(SampleRateRequired))
      && (rate.Some? && (exists frames: nat :: RawFrames(bytes, c, frames)) ==> r == Ok(Audio(Decode(bytes), rate.value, c)))
      && (rate.Some? && (forall frames: nat :: !RawFrames(bytes, c, frames)) ==> r == Err(NotFrameAligned))
  {
    RawFramesIff(bytes, if channels.Some? then channels.value else 1);
  }

  lemma MultipleHasNoRest(frames: nat, channels: nat)
    requires channels > 0
    ensures frames * channels % channels == 0
  {
    var q, r := frames * channels / channels, frames * channels % channels;
    assert frames * channels == channels * q + r;
    if frames > q { MulMonotone(q + 1, frames, channels); Distribute(q, channels); }
    if frames < q { MulMonotone(frames + 1, q, channels); Distribute(frames, channels); Distribute(q, channels); }
  }

  /** What a WAV file says about itself wins over the request; raw PCM is mono unless the request says otherwise. */
  lemma RequestMatters(reader: WavReader, data: seq<Byte>, format: Option<string>, rate: Option<nat>, channels: Option<nat>)
    ensures DecodeAudio(reader, data, format, rate, None) == DecodeAudio(reader, data, format, rate, Some(1))
    ensures Base64.Decode(Base64.STANDARD, data).Some? && IsWav(Base64.Decode(Base64.STANDARD, data).value, format) == Ok(true)
      ==> DecodeAudio(reader, data, format, rate, channels) == DecodeAudio(reader, data, format, None, None)
    ensures Base64.Decode(Base64.STANDARD, data).Some? && IsWav(Base64.Decode(Base64.STANDARD, data).value, format) == Ok(false)
      ==> DecodeAudio(reader, data, format, None, channels).Err?
  {
  }

  // ---- Bounds of accepted clips ----

  /** The milliseconds are truncated, so a clip may last just under 10001 ms. */
  predicate FitsDuration(frames: nat, rate: nat) { 250 * rate <= 1000 * frames < 10_001 * rate }

  predicate Acceptable(a: Audio) {
    && (a.channels == 1 || a.channels == 2)
    && 8_000 <= a.rate <= 48_000
    && FitsDuration(|a.samples| / a.channels, a.rate)
  }

  lemma QuotientAtLeast(x: nat, n: nat, k: nat)
    requires n > 0
    ensures Div(x, n) >= k <==> x >= k * n
  {
    var q := Div(x, n);
    if x >= k * n {
      AtLeast(q, k, n, x);
    } else if k > 0 {
      assert k * n == (k - 1) * n + n;
      AtMost(q, k - 1, n, x);
    }
  }

  lemma DurationBounds(frames: nat, rate: nat)
    requires rate > 0
    ensures 250 <= frames * 1000 / rate <= 10_000 <==> FitsDuration(frames, rate)
  {
    assert Div(frames * 1000, rate) == frames * 1000 / rate;
    QuotientAtLeast(frames * 1000, rate, 250);
    QuotientAtLeast(frames * 1000, rate, 10_001);
  }

  /** A decoded clip passes exactly when channels, rate and duration are in range; the first of them that is not is the reason. */
  lemma ValidateIff(a: Audio)
    ensures Validate(a).Ok? <==> Acceptable(a)
    ensures Validate(a).Ok? ==> Validate(a).value == a
    ensures Validate(a) == Err(UnsupportedChannels) <==> a.channels !in {1, 2}
    ensures Validate(a) == Err(UnsupportedRate) <==> a.channels in {1, 2} && !(8_000 <= a.rate <= 48_000)
    ensures Validate(a) == Err(TooShort) <==>
      a.channels in {1, 2} && 8_000 <= a.rate <= 48_000 && 1000 * (|a.samples| / a.channels) < 250 * a.rate
    ensures Validate(a) == Err(TooLong) <==>
      a.channels in {1, 2} && 8_000 <= a.rate <= 48_000 && 1000 * (|a.samples| / a.channels) >= 10_001 * a.rate
  {
    if (a.channels == 1 || a.channels == 2) && 8_000 <= a.rate <= 48_000 {
      var frames := |a.samples| / a.channels;
      DurationBounds(frames, a.rate);
      assert Div(frames * 1000, a.rate) == frames * 1000 / a.rate;
      QuotientAtLeast(frames * 1000, a.rate, 250);
    }
  }

  lemma DecodedWithinEstimate(data: seq<Byte>)
    ensures Base64.Decode(Base64.STANDARD, data).Some? ==> |Base64.Decode(Base64.STANDARD, data).value| <= EstimatedBytes(data)
  {
    Base64.StandardIsValid();
    if Base64.Decode(Base64.STANDARD, data).Some? { Base64.DecodedLength(Base64.STANDARD, data); }
  }

  /** The estimate bounds the decoded size from above, so the second size guard never fires. */
  lemma PayloadGuardIsUnreachable(reader: WavReader, data: seq<Byte>, format: Option<string>, rate: Option<nat>, channels: Option<nat>)
    ensures DecodeAudio(reader, data, format, rate, channels) != Err(PayloadTooLarge)
  {
    DecodedWithinEstimate(data);
  }

  lemma GroupsAtMost(n: nat, m: nat)
    requires m == (n + 2) / 3 * 4
    ensures m / 4 * 3 <= MAX_LOADING_AUDIO_PAYLOAD_BYTES <==> n <= 1_924_095
  {
    var q := (n + 2) / 3;
    assert m / 4 == q;
    assert q <= 641_365 <==> n <= 1_924_095;
  }

  /** The largest payload whose encoding passes the size guard is one byte short of the documented bound. */
  lemma LargestPayload(bytes: seq<Byte>)
    ensures EstimatedBytes(Base64.Encode(Base64.STANDARD, bytes)) <= MAX_LOADING_AUDIO_PAYLOAD_BYTES <==> |bytes| <= 1_924_095
  {
    Base64.EncodedLength(Base64.STANDARD, bytes);
    GroupsAtMost(|bytes|, |Base64.Encode(Base64.STANDARD, bytes)|);
  }

  lemma FrameBounds(n: nat, rate: nat, channels: nat)
    requires (channels == 1 || channels == 2) && 8_000 <= rate <= 48_000
    requires n % channels == 0 && FitsDuration(n / channels, rate)
    ensures 2_000 <= n / channels <= 480_047 && n <= 960_094
  {
  }

  lemma RawPcmFrames(bytes: seq<Byte>, rate: Option<nat>, channels: Option<nat>)
    requires DecodeRawPcm(bytes, rate, channels).Ok?
    ensures var a := DecodeRawPcm(bytes, rate, channels).value;
      (a.channels == 1 || a.channels == 2) ==> |a.samples| % a.channels == 0
  {
  }

  lemma WavFrames(reader: WavReader, bytes: seq<Byte>)
    requires Counts(reader) && DecodeWav(reader, bytes).Ok?
    ensures var a := DecodeWav(reader, bytes).value;
      a.channels > 0 && |a.samples| % a.channels == 0 && |a.samples| <= 960_000
  {
  }

  /** Every accepted clip. */
  lemma AcceptedClips(reader: WavReader, data: seq<Byte>, format: Option<string>, rate: Option<nat>, channels: Option<nat>)
    requires Counts(reader) && DecodeAudio(reader, data, format, rate, channels).Ok?
    ensures var a := DecodeAudio(reader, data, format, rate, channels).value;
      && (a.channels == 1 || a.channels == 2) && 8_000 <= a.rate <= 48_000
      && |a.samples| % a.channels == 0
      && 2_000 <= |a.samples| / a.channels <= 480_047
      && |a.samples| <= 960_094
      && (IsWav(Base64.Decode(Base64.STANDARD, data).value, format) == Ok(true) ==> |a.samples| <= 960_000)
  {
    var bytes := Base64.Decode(Base64.STANDARD, data).value;
    var a := DecodeAudio(reader, data, format, rate, channels).value;
    if IsWav(bytes, format).value {
      ValidateIff(DecodeWav(reader, bytes).value);
      WavFrames(reader, bytes);
    } else {
      ValidateIff(DecodeRawPcm(bytes, rate, channels).value);
      RawPcmFrames(bytes, rate, channels);
    }
    FrameBounds(|a.samples|, a.rate, a.channels);
  }

  lemma PcmHint(bytes: seq<Byte>)
    ensures IsWav(bytes, Some("pcm")) == Ok(false)
  {
    assert Trimmed("pcm");
    TrimFixpoint("pcm");
    assert ToLower("pcm") == "pcm";
  }

  lemma EvenMultiple(n: nat, c: nat)
    requires c == 1 || c == 2
    ensures IsMultipleOf(2 * n, 2) && (IsMultipleOf(2 * n, 2 * c) <==> n % c == 0)
  {
    if c == 1 { assert 2 * c == 2; } else { assert 2 * c == 4; }
  }

  /** What raw PCM of whole samples is worth. */
  lemma RawPcmOf(samples: seq<I16>, rate: nat, channels: nat)
    requires channels == 1 || channels == 2
    ensures DecodeRawPcm(Encode(samples), Some(rate), Some(channels)) ==
      if |samples| % channels == 0 then Ok(Audio(samples, rate, channels)) else Err(NotFrameAligned)
  {
    DecodeEncode(samples);
    EvenMultiple(|samples|, channels);
  }

  /** Alignment and validation of raw PCM. */
  function RawPcmOutcome(bytes: seq<Byte>, rate: nat, channels: nat): Result<Audio, ClipError> {
    var audio := DecodeRawPcm(bytes, Some(rate), Some(channels));
    if audio.Err? then audio else Validate(audio.value)
  }

  lemma RawPcmPath(reader: WavReader, bytes: seq<Byte>, rate: nat, channels: nat)
    ensures DecodeAudio(reader, Base64.Encode(Base64.STANDARD, bytes), Some("pcm"), Some(rate), Some(channels)) ==
      if |bytes| > 1_924_095 then Err(EstimateTooLarge) else RawPcmOutcome(bytes, rate, channels)
  {
    Base64.StandardIsValid();
    Base64.DecodeEncode(Base64.STANDARD, bytes);
    LargestPayload(bytes);
    PcmHint(bytes);
  }

  ghost predicate Accepted(a: Audio) {
    (a.channels == 1 || a.channels == 2) && |a.samples| % a.channels == 0 && Acceptable(a)
  }

  lemma RawPcmOutcomeIff(samples: seq<I16>, rate: nat, channels: nat)
    ensures var r := RawPcmOutcome(Encode(samples), rate, channels);
      if Accepted(Audio(samples, rate, channels)) then r == Ok(Audio(samples, rate, channels)) else r.Err?
  {
    if channels == 1 || channels == 2 {
      RawPcmOf(samples, rate, channels);
      ValidateIff(Audio(samples, rate, channels));
    }
  }

  lemma AcceptedFits(samples: seq<I16>, rate: nat, channels: nat)
    requires Accepted(Audio(samples, rate, channels))
    ensures |Encode(samples)| <= 1_924_095
  {
    FrameBounds(|samples|, rate, channels);
  }

  /**
    Raw PCM that is sent is what comes back: encoding samples as little-endian bytes and Base64 is accepted exactly
    when channels, rate, frames and duration are in range, and then yields those samples. No clip in range is too large.
   */
  lemma RawPcmRoundTrip(reader: WavReader, samples: seq<I16>, rate: nat, channels: nat)
    ensures var r := DecodeAudio(reader, Base64.Encode(Base64.STANDARD, Encode(samples)), Some("pcm"), Some(rate), Some(channels));
      if Accepted(Audio(samples, rate, channels)) then r == Ok(Audio(samples, rate, channels)) else r.Err?
  {
    RawPcmPath(reader, Encode(samples), rate, channels);
    RawPcmOutcomeIff(samples, rate, channels);
    if Accepted(Audio(samples, rate, channels)) { AcceptedFits(samples, rate, channels); }
  }
}
