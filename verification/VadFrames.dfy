/** Splitting a PCM chunk into voice-activity frames of exact length. */
module VadFrames {
  import opened FusionTypes
  import Arithmetic
  import Runs

  const VAD_SAMPLE_RATES := {8000, 16000, 32000, 48000}
  const VAD_FRAME_DURATIONS := {10, 20, 30}

  datatype AudioFrame = AudioFrame(samples: seq<int>, sampleRateHz: int, durationMs: int, capturedAtMs: int)

  datatype Split = Frames(frames: seq<AudioFrame>) | BadRate(rate: int) | BadDuration(duration: int) | EmptyFrame

  function SamplesPerFrame(rate: int, duration: int): int {
    rate * duration / 1000
  }

  /** The n-th sample of the signal: silence after the end of the chunk. */
  function SampleAt(samples: seq<int>, n: nat): int {
    if n < |samples| then samples[n] else 0
  }

  /** Frame i holds samples i * size .. (i + 1) * size of the signal and starts i durations after
      the chunk. */
  predicate IsFrame(f: AudioFrame, samples: seq<int>, i: nat, size: nat, rate: int, duration: int, offset: int) {
    && |f.samples| == size
    && (forall j :: 0 <= j < size ==> f.samples[j] == SampleAt(samples, i * size + j))
    && f.sampleRateHz == rate && f.durationMs == duration && f.capturedAtMs == offset + i * duration
  }

  /** The supported combinations all give frames of at least 80 samples, a whole number of
      samples each, so the empty-frame error never occurs. */
  lemma {:induction false} FrameSize(rate: int, duration: int)
    requires rate in VAD_SAMPLE_RATES && duration in VAD_FRAME_DURATIONS
    ensures SamplesPerFrame(rate, duration) >= 80
    ensures SamplesPerFrame(rate, duration) * 1000 == rate * duration
  {
  }

  method SplitIntoVadFrames(samples: seq<int>, rate: int, duration: int, offset: int) returns (r: Split)
    ensures r.Frames? <==> rate in VAD_SAMPLE_RATES && duration in VAD_FRAME_DURATIONS
    ensures rate !in VAD_SAMPLE_RATES ==> r == BadRate(rate)
    ensures rate in VAD_SAMPLE_RATES && duration !in VAD_FRAME_DURATIONS ==> r == BadDuration(duration)
    ensures r.Frames? ==>
      var size := SamplesPerFrame(rate, duration);
      && size > 0
      && |samples| <= |r.frames| * size < |samples| + size
      && forall i :: 0 <= i < |r.frames| ==> IsFrame(r.frames[i], samples, i, size, rate, duration, offset)
  {
    hide IsFrame, SamplesPerFrame, SampleAt;
    if rate !in VAD_SAMPLE_RATES {
      return BadRate(rate);
    }
    if duration !in VAD_FRAME_DURATIONS {
      return BadDuration(duration);
    }
    var size := SamplesPerFrame(rate, duration);
    FrameSize(rate, duration);
    if size == 0 {
      return EmptyFrame;
    }
    var frames: seq<AudioFrame> := [];
    if |samples| == 0 {
      return Frames(frames);
    }
    var full, tail := DivMod(|samples|, size);
    frames := FullFrames(samples, full, size, rate, duration, offset);
    if tail > 0 {
      var chunk := PadTail(samples[full * size..], size);
      TailFrame(samples, chunk, full, size, rate, duration, offset);
      frames := frames + [AudioFrame(chunk, rate, duration, offset + full * duration)];
      assert |frames| * size == full * size + size;
    }
    r := Frames(frames);
  }

  method DivMod(n: nat, size: nat) returns (full: nat, tail: nat)
    requires size > 0
    ensures n == full * size + tail && tail < size
  {
    full, tail := n / size, n % size;
  }

  method FullFrames(samples: seq<int>, full: nat, size: nat, rate: int, duration: int, offset: int)
    returns (frames: seq<AudioFrame>)
    requires size > 0 && full * size <= |samples|
    ensures |frames| == full
    ensures forall k :: 0 <= k < full ==> IsFrame(frames[k], samples, k, size, rate, duration, offset)
  {
    hide IsFrame;
    frames := [];
    for i := 0 to full
      invariant |frames| == i
      invariant forall k :: 0 <= k < i ==> IsFrame(frames[k], samples, k, size, rate, duration, offset)
    {
      var start := i * size;
      FullFrame(samples, i, full, size, rate, duration, offset);
      frames := frames + [AudioFrame(samples[start..start + size], rate, duration, offset + i * duration)];
    }
  }

  lemma {:induction false} FullFrame(
    samples: seq<int>, i: nat, full: nat, size: nat, rate: int, duration: int, offset: int)
    requires i < full && size > 0 && full * size <= |samples|
    ensures 0 <= i * size <= i * size + size <= |samples|
    ensures IsFrame(
      AudioFrame(samples[i * size..i * size + size], rate, duration, offset + i * duration),
      samples, i, size, rate, duration, offset)
  {
    Arithmetic.MulMonotone(i + 1, full, size);
    assert (i + 1) * size == i * size + size;
  }

  lemma {:induction false} TailFrame(
    samples: seq<int>, chunk: seq<int>, full: nat, size: nat, rate: int, duration: int, offset: int)
    requires 0 <= full * size <= |samples| && |chunk| == size
    requires forall j :: 0 <= j < size ==> chunk[j] == SampleAt(samples[full * size..], j)
    ensures IsFrame(
      AudioFrame(chunk, rate, duration, offset + full * duration), samples, full, size, rate, duration, offset)
  {
    var rest := samples[full * size..];
    forall j | 0 <= j < size
      ensures SampleAt(rest, j) == SampleAt(samples, full * size + j)
    {
    }
  }

  /** A zeroed frame with the samples copied to its front. */
  method PadTail(samples: seq<int>, size: nat) returns (chunk: seq<int>)
    requires |samples| <= size
    ensures |chunk| == size && forall j :: 0 <= j < size ==> chunk[j] == SampleAt(samples, j)
  {
    var a := new int[size](_ => 0);
    for j := 0 to |samples|
      invariant forall k :: 0 <= k < size ==> a[k] == if k < j then samples[k] else 0
    {
      a[j] := samples[j];
    }
    chunk := a[..];
  }

  // -------------------------------------------------------------------------
  // Nothing is lost
  // -------------------------------------------------------------------------

  function Parts(frames: seq<AudioFrame>): (parts: seq<seq<int>>)
    ensures |parts| == |frames| && forall i :: 0 <= i < |frames| ==> parts[i] == frames[i].samples
  {
    seq(|frames|, i requires 0 <= i < |frames| => frames[i].samples)
  }

  lemma {:induction false} FlattenIsSignal(
    frames: seq<AudioFrame>, samples: seq<int>, size: nat, rate: int, duration: int, offset: int)
    requires forall i :: 0 <= i < |frames| ==> IsFrame(frames[i], samples, i, size, rate, duration, offset)
    ensures var all := Runs.Flatten(Parts(frames));
      |all| == |frames| * size && forall p :: 0 <= p < |all| ==> all[p] == SampleAt(samples, p)
  {
    if |frames| > 0 {
      var n := |frames| - 1;
      FlattenIsSignal(frames[..n], samples, size, rate, duration, offset);
      assert Parts(frames)[..n] == Parts(frames[..n]);
      assert IsFrame(frames[n], samples, n, size, rate, duration, offset);
      assert |frames| * size == n * size + size;
    }
  }

  /** Framing is lossless: the frames put together are the chunk followed by less than one frame
      of silence, and there are as few frames as possible. */
  lemma {:induction false} FramesAreLossless(
    frames: seq<AudioFrame>, samples: seq<int>, size: nat, rate: int, duration: int, offset: int)
    requires size > 0 && |samples| <= |frames| * size < |samples| + size
    requires forall i :: 0 <= i < |frames| ==> IsFrame(frames[i], samples, i, size, rate, duration, offset)
    ensures var all := Runs.Flatten(Parts(frames));
      && |samples| <= |all| < |samples| + size
      && all[..|samples|] == samples
      && (forall p :: |samples| <= p < |all| ==> all[p] == 0)
    ensures |frames| == (|samples| + size - 1) / size
  {
    FlattenIsSignal(frames, samples, size, rate, duration, offset);
    Arithmetic.DivModOf(|samples| + size - 1, size, |frames|, |samples| + size - 1 - |frames| * size);
  }
}
