/**
  The hop loop of `process_audio_chunk` in src/utils/noise_filter.rs: audio is cut into frames of `hop` samples for
  the noise model, whose answers are put together again. The model is a parameter: what it answers may depend on
  every frame it was ever given, and it may fail.
 */
module FrameModel {
  import opened Wrappers

  /** A float the model may answer; only the sums and comparisons of finite ones are numbers. */
  datatype Float = Finite(value: real) | Infinite | NotANumber

  type Frame = seq<real>
  type Model = seq<Frame> -> Option<seq<Float>>

  /** Every answer is as long as a frame. */
  ghost predicate HopSized(model: Model, hop: nat) { forall h :: model(h).Some? ==> |model(h).value| == hop }

  function Zeros(n: nat): seq<real> { seq(n, _ => 0.0) }

  function Lift(wav: seq<real>): seq<Float> { seq(|wav|, i requires 0 <= i < |wav| => Finite(wav[i])) }

  /** Whole frames, then a last one padded with zeros if at least half a hop is left. */
  function Frames(wav: seq<real>, hop: nat): seq<Frame>
    requires hop > 0
    decreases |wav|
  {
    if hop <= |wav| then [wav[..hop]] + Frames(wav[hop..], hop)
    else if |wav| > 0 && |wav| >= hop / 2 then [wav + Zeros(hop - |wav|)]
    else []
  }

  /** The model's answers to frames, in order, one after the other; None as soon as it fails. */
  function Answers(model: Model, past: seq<Frame>, frames: seq<Frame>): Option<seq<Float>>
    decreases |frames|
  {
    if |frames| == 0 then Some([]) else
    var first := model(past + [frames[0]]);
    if first.None? then None else
    var rest := Answers(model, past + [frames[0]], frames[1..]);
    if rest.None? then None else Some(first.value + rest.value)
  }

  /** What the model has been given after a chunk: a failure ends the chunk. */
  function Fed(model: Model, past: seq<Frame>, frames: seq<Frame>): seq<Frame>
    decreases |frames|
  {
    if |frames| == 0 then past
    else if model(past + [frames[0]]).None? then past + [frames[0]]
    else Fed(model, past + [frames[0]], frames[1..])
  }

  /** Cut to the length of the input, or completed with the input's own last samples. */
  function Fit(answers: seq<Float>, wav: seq<real>): (r: seq<Float>)
    ensures |r| == |wav|
  {
    if |answers| >= |wav| then answers[..|wav|] else answers + Lift(wav)[|answers|..]
  }

  function Enhanced(model: Model, past: seq<Frame>, wav: seq<real>, hop: nat): Option<seq<Float>>
    requires hop > 0
  {
    var answers := Answers(model, past, Frames(wav, hop));
    if answers.None? then None else Some(Fit(answers.value, wav))
  }

  function Concat(frames: seq<Frame>): seq<real> {
    if |frames| == 0 then [] else frames[0] + Concat(frames[1..])
  }

  // ---- The loop ----

  lemma AnswersUnfold(model: Model, past: seq<Frame>, frame: Frame, frames: seq<Frame>)
    ensures model(past + [frame]).None? ==> Answers(model, past, [frame] + frames).None?
    ensures model(past + [frame]).None? ==> Fed(model, past, [frame] + frames) == past + [frame]
    ensures model(past + [frame]).Some? ==>
      Answers(model, past, [frame] + frames) == Prepend(model(past + [frame]).value, Answers(model, past + [frame], frames))
    ensures model(past + [frame]).Some? ==> Fed(model, past, [frame] + frames) == Fed(model, past + [frame], frames)
  {
    assert ([frame] + frames)[1..] == frames;
  }

  lemma FitSplit(first: seq<Float>, rest: seq<Float>, wav: seq<real>)
    requires |first| <= |wav|
    ensures Fit(first + rest, wav) == first + Fit(rest, wav[|first|..])
  {
    var hop := |first|;
    assert Lift(wav)[hop..] == Lift(wav[hop..]);
    if |first + rest| >= |wav| {
      assert (first + rest)[..|wav|] == first + rest[..|wav| - hop];
    } else {
      assert Lift(wav)[|first + rest|..] == Lift(wav)[hop..][|rest|..];
      assert (first + rest) + Lift(wav)[|first + rest|..] == first + (rest + Lift(wav[hop..])[|rest|..]);
    }
  }

  function Prepend(done: seq<Float>, rest: Option<seq<Float>>): Option<seq<Float>> {
    if rest.None? then None else Some(done + rest.value)
  }

  lemma PrependTwice(a: seq<Float>, b: seq<Float>, rest: Option<seq<Float>>)
    ensures Prepend(a, Prepend(b, rest)) == Prepend(a + b, rest)
  {
    if rest.Some? { assert a + (b + rest.value) == (a + b) + rest.value; }
  }

  lemma EnhancedUnfold(model: Model, past: seq<Frame>, wav: seq<real>, hop: nat)
    requires 0 < hop <= |wav| && HopSized(model, hop)
    ensures Frames(wav, hop) == [wav[..hop]] + Frames(wav[hop..], hop)
    ensures var first := model(past + [wav[..hop]]);
      Enhanced(model, past, wav, hop) ==
      if first.None? then None else Prepend(first.value, Enhanced(model, past + [wav[..hop]], wav[hop..], hop))
  {
    AnswersUnfold(model, past, wav[..hop], Frames(wav[hop..], hop));
    var first := model(past + [wav[..hop]]);
    var rest := Answers(model, past + [wav[..hop]], Frames(wav[hop..], hop));
    if first.Some? && rest.Some? { FitSplit(first.value, rest.value, wav); }
  }

  /** The samples left when no whole frame is: padded and cut if half a hop or more, else copied. */
  method EnhanceTail(model: Model, hop: nat, past: seq<Frame>, rest: seq<real>) returns (r: Option<seq<Float>>, fed: seq<Frame>)
    requires |rest| < hop && HopSized(model, hop)
    ensures r == Enhanced(model, past, rest, hop)
    ensures fed == Fed(model, past, Frames(rest, hop))
  {
    var remaining := |rest|;
    if remaining > 0 && remaining >= hop / 2 {
      var paddedFrame := rest + Zeros(hop - remaining);
      AnswersUnfold(model, past, paddedFrame, []);
      assert [paddedFrame] + [] == [paddedFrame];
      var out := model(past + [paddedFrame]);
      fed := past + [paddedFrame];
      if out.None? { return None, fed; }
      assert out.value + [] == out.value;
      r := Some(out.value[..remaining]);
    } else {
      assert [] + Lift(rest)[0..] == Lift(rest);
      r, fed := Some(Lift(rest)), past;
    }
  }

  /** One turn of the loop: the frame at idx is answered, or the model fails. */
  lemma HopStep(model: Model, hop: nat, fed: seq<Frame>, wav: seq<real>, idx: nat, enhanced: seq<Float>)
    requires hop > 0 && HopSized(model, hop) && idx + hop <= |wav|
    ensures var frame, rest := wav[idx..idx + hop], wav[idx + hop..];
      var out := model(fed + [frame]);
      && Prepend(enhanced, Enhanced(model, fed, wav[idx..], hop)) ==
         (if out.None? then None else Prepend(enhanced + out.value, Enhanced(model, fed + [frame], rest, hop)))
      && Fed(model, fed, Frames(wav[idx..], hop)) ==
         if out.None? then fed + [frame] else Fed(model, fed + [frame], Frames(rest, hop))
  {
    var frame, rest := wav[idx..idx + hop], wav[idx + hop..];
    assert wav[idx..][..hop] == frame && wav[idx..][hop..] == rest;
    EnhancedUnfold(model, fed, wav[idx..], hop);
    AnswersUnfold(model, fed, frame, Frames(rest, hop));
    var out := model(fed + [frame]);
    if out.Some? { PrependTwice(enhanced, out.value, Enhanced(model, fed + [frame], rest, hop)); }
  }

  /** The loop and its tail compute `Enhanced`; `fed` is the model's memory. */
  method Enhance(model: Model, hop: nat, past: seq<Frame>, wav: seq<real>) returns (r: Option<seq<Float>>, fed: seq<Frame>)
    requires hop > 0 && HopSized(model, hop)
    ensures r == Enhanced(model, past, wav, hop)
    ensures fed == Fed(model, past, Frames(wav, hop))
  {
    var enhanced: seq<Float> := [];
    var idx := 0;
    fed := past;
    assert wav[0..] == wav;
    if Enhanced(model, past, wav, hop).Some? {
      assert [] + Enhanced(model, past, wav, hop).value == Enhanced(model, past, wav, hop).value;
    }
    while idx + hop <= |wav|
      invariant 0 <= idx <= |wav|
      invariant Enhanced(model, past, wav, hop) == Prepend(enhanced, Enhanced(model, fed, wav[idx..], hop))
      invariant Fed(model, past, Frames(wav, hop)) == Fed(model, fed, Frames(wav[idx..], hop))
    {
      var frame := wav[idx..idx + hop];
      HopStep(model, hop, fed, wav, idx, enhanced);
      var out := model(fed + [frame]);
      if out.None? { return None, fed + [frame]; }
      fed := fed + [frame];
      enhanced := enhanced + out.value;
      idx := idx + hop;
    }
    var tail, f := EnhanceTail(model, hop, fed, wav[idx..]);
    fed := f;
    r := if tail.None? then None else Some(enhanced + tail.value);
  }

  // ---- What the frames cover ----

  /** The samples followed by zeros, or a prefix of them. */
  ghost predicate Covers(all: seq<real>, wav: seq<real>) {
    forall i :: 0 <= i < |all| ==> all[i] == if i < |wav| then wav[i] else 0.0
  }

  lemma ConcatCons(first: Frame, more: seq<Frame>)
    ensures Concat([first] + more) == first + Concat(more) && Concat([first]) == first
  {
    assert ([first] + more)[1..] == more && [first][1..] == [];
    assert first + [] == first;
  }

  lemma CoverStep(first: seq<real>, wav: seq<real>, all: seq<real>)
    requires Covers(all, wav)
    ensures Covers(first + all, first + wav)
  {
  }

  /**
    The frames hold each sample exactly once and in order: they are the input followed by padding zeros, or a prefix
    of it that leaves less than half a hop over.
   */
  lemma {:induction false} FramesCoverOnce(wav: seq<real>, hop: nat)
    requires hop > 0
    ensures forall k :: 0 <= k < |Frames(wav, hop)| ==> |Frames(wav, hop)[k]| == hop
    ensures var all := Concat(Frames(wav, hop));
      Covers(all, wav) && |all| - |wav| <= hop - hop / 2 && (|all| < |wav| ==> |wav| - |all| < hop / 2)
    decreases |wav|
  {
    if hop <= |wav| {
      FramesCoverOnce(wav[hop..], hop);
      var first, more := wav[..hop], Frames(wav[hop..], hop);
      ConcatCons(first, more);
      CoverStep(first, wav[hop..], Concat(more));
      assert wav == first + wav[hop..];
    } else if |wav| > 0 && |wav| >= hop / 2 {
      ConcatCons(wav + Zeros(hop - |wav|), []);
    }
  }

  lemma DivStep(i: nat, hop: nat)
    requires 0 < hop <= i
    ensures i / hop == (i - hop) / hop + 1 && i % hop == (i - hop) % hop
  {
    var q, r := (i - hop) / hop, (i - hop) % hop;
    assert i == hop * (q + 1) + r;
    DivModUnique(i, hop, q + 1, r);
  }

  lemma MulBound(hop: nat, d: int)
    ensures d >= 1 ==> hop * d >= hop
    ensures d <= -1 ==> hop * d + hop <= 0
  {
    if d <= -1 { assert hop * d + hop == hop * (d + 1); }
  }

  lemma DivModUnique(i: nat, hop: nat, q: nat, r: nat)
    requires 0 <= r < hop && i == hop * q + r
    ensures i / hop == q && i % hop == r
  {
    var d := i / hop - q;
    assert hop * d == r - i % hop;
    MulBound(hop, d);
  }

  /** `out` is the model's answer at an offset of frame k, given the frames before it, and x is the sample there. */
  ghost predicate Aligned(model: Model, past: seq<Frame>, frames: seq<Frame>, hop: nat, k: nat, offset: nat, x: real, out: Float)
    requires HopSized(model, hop)
  {
    if k < |frames| then
      && offset < hop == |frames[k]| && frames[k][offset] == x
      && model(past + frames[..k + 1]).Some? && model(past + frames[..k + 1]).value[offset] == out
    else out == Finite(x)
  }

  lemma AlignedShift(model: Model, past: seq<Frame>, frame: Frame, frames: seq<Frame>, hop: nat, k: nat, offset: nat, x: real, out: Float)
    requires HopSized(model, hop) && Aligned(model, past + [frame], frames, hop, k, offset, x, out)
    ensures Aligned(model, past, [frame] + frames, hop, k + 1, offset, x, out)
  {
    if k < |frames| {
      assert ([frame] + frames)[..k + 2] == [frame] + frames[..k + 1];
      assert past + ([frame] + frames[..k + 1]) == (past + [frame]) + frames[..k + 1];
    }
  }

  lemma AlignedStep(model: Model, past: seq<Frame>, frame: Frame, frames: seq<Frame>, hop: nat, i: nat, x: real, out: Float)
    requires HopSized(model, hop) && 0 < hop <= i
    requires Aligned(model, past + [frame], frames, hop, (i - hop) / hop, (i - hop) % hop, x, out)
    ensures Aligned(model, past, [frame] + frames, hop, i / hop, i % hop, x, out)
  {
    DivStep(i, hop);
    AlignedShift(model, past, frame, frames, hop, (i - hop) / hop, (i - hop) % hop, x, out);
  }

  /**
    Output sample i is the model's answer, at the same offset, to the frame that holds input sample i, given all the
    frames before it; only samples past the last frame are the input's own.
   */
  lemma {:induction false} OutputAligned(model: Model, past: seq<Frame>, wav: seq<real>, hop: nat, i: nat)
    requires hop > 0 && HopSized(model, hop) && i < |wav| && Enhanced(model, past, wav, hop).Some?
    ensures Aligned(model, past, Frames(wav, hop), hop, i / hop, i % hop, wav[i], Enhanced(model, past, wav, hop).value[i])
    decreases |wav|
  {
    var frames := Frames(wav, hop);
    if hop <= |wav| {
      EnhancedUnfold(model, past, wav, hop);
      var rest, past' := wav[hop..], past + [wav[..hop]];
      if i < hop {
        DivModUnique(i, hop, 0, i);
        assert frames[..1] == [frames[0]];
      } else {
        OutputAligned(model, past', rest, hop, i - hop);
        AlignedStep(model, past, wav[..hop], Frames(rest, hop), hop, i, rest[i - hop], Enhanced(model, past', rest, hop).value[i - hop]);
      }
    } else {
      DivModUnique(i, hop, 0, i);
      if |frames| > 0 { assert frames[..1] == [frames[0]]; }
    }
  }

  /** A model that repeats the frame it is given leaves every sample where and as it was, tails included. */
  lemma {:induction false} EchoModelChangesNothing(model: Model, past: seq<Frame>, wav: seq<real>, hop: nat)
    requires hop > 0 && HopSized(model, hop)
    requires forall h, f :: |f| == hop ==> model(h + [f]) == Some(Lift(f))
    ensures Enhanced(model, past, wav, hop) == Some(Lift(wav))
    decreases |wav|
  {
    if hop <= |wav| {
      EnhancedUnfold(model, past, wav, hop);
      EchoModelChangesNothing(model, past + [wav[..hop]], wav[hop..], hop);
      assert Lift(wav) == Lift(wav[..hop]) + Lift(wav[hop..]);
    } else if |wav| > 0 && |wav| >= hop / 2 {
      var f := wav + Zeros(hop - |wav|);
      AnswersUnfold(model, past, f, []);
      assert [f] + [] == [f] && Lift(f) + [] == Lift(f);
      assert Lift(f)[..|wav|] == Lift(wav);
    } else {
      assert [] + Lift(wav)[0..] == Lift(wav);
    }
  }
}
