/** The frame slicer: cuts mono audio into fixed-size, non-overlapping frames for voice-activity detection. */
module Frames {

  /** One 16-bit PCM sample. */
  newtype Sample = x: int | -32768 <= x < 32768

  /** A slice of the audio together with the time, in seconds, at which it starts. */
  datatype Frame = Frame(record: seq<Sample>, timestamp: real)

  /** Samples per frame: `sample_rate * (frame_duration / 1000) * 2`, truncated to an integer. */
  function FrameSize(sampleRate: nat, frameDurationMs: nat): (n: nat)
  {
    (sampleRate * frameDurationMs * 2) / 1000
  }

  /** Length in seconds of one frame of `n` samples. */
  function FrameStep(n: nat, sampleRate: nat): (step: real)
    requires sampleRate > 0
  {
    n as real / sampleRate as real
  }

  /** Start time of frame number `k`. */
  function Timestamp(k: nat, step: real): (t: real)
  {
    k as real * step
  }

  /**
   * Number of frames the slicer emits for `len` samples: one per block of `n` samples
   * that ends strictly before the end of the audio (that is, (len - 1) div n of them for
   * non-empty audio, and none otherwise).
   */
  function FrameCount(len: nat, n: nat): (count: nat)
    requires n > 0
  {
    if len <= n then 0 else 1 + FrameCount(len - n, n)
  }

  /**
   * The size is a byte count used as a sample count: at 48 kHz a 10 ms setting gives
   * frames of 960 samples, which last 20 ms.
   */
  lemma FrameSizeAt48kHz()
    ensures FrameSize(48000, 10) == 960 && FrameStep(960, 48000) == 0.02
  {
  }

  /**
   * frame_generator: frame `k` is samples `k*n .. (k+1)*n` stamped `k*n/sample_rate`;
   * frames stop as soon as the next one would reach the end of the audio, so a last
   * frame that ends exactly at the end, and any shorter tail, are dropped.
   */
  method FrameGenerator(audio: seq<Sample>, sampleRate: nat, frameDurationMs: nat) returns (frames: seq<Frame>)
    requires FrameSize(sampleRate, frameDurationMs) > 0
    ensures sampleRate > 0
    ensures var n := FrameSize(sampleRate, frameDurationMs);
      |frames| == FrameCount(|audio|, n) && |frames| * n + n >= |audio|
    ensures var n := FrameSize(sampleRate, frameDurationMs);
      forall k :: 0 <= k < |frames| ==>
        k * n + n < |audio| &&
        frames[k] == Frame(audio[k * n..k * n + n], Timestamp(k, FrameStep(n, sampleRate)))
  {
    var n := FrameSize(sampleRate, frameDurationMs);
    var offset := 0;
    var timestamp := 0.0;
    var duration := n as real / sampleRate as real;
    frames := [];
    while offset + n < |audio|
      invariant offset == |frames| * n
      invariant offset <= |audio| && (|frames| > 0 ==> offset < |audio|)
      invariant |frames| + FrameCount(|audio| - offset, n) == FrameCount(|audio|, n)
      invariant timestamp == Timestamp(|frames|, duration)
      invariant forall k :: 0 <= k < |frames| ==>
        k * n + n < |audio| &&
        frames[k] == Frame(audio[k * n..k * n + n], Timestamp(k, duration))
      decreases |audio| - offset
    {
      NextFrame(|frames|, n, duration);
      frames := frames + [Frame(audio[offset..offset + n], timestamp)];
      timestamp := timestamp + duration;
      offset := offset + n;
    }
  }

  /** Moving on by one frame moves the offset by `n` samples and the timestamp by `step`. */
  lemma NextFrame(k: nat, n: nat, step: real)
    ensures (k + 1) * n == k * n + n
    ensures Timestamp(k + 1, step) == Timestamp(k, step) + step
  {
  }
}
