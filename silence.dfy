/**
 * The voice-activity aggregator: merges runs of frames the voice-activity
 * detector calls silent into `(start, end)` silence intervals.
 */
module Silence {
  import opened Common
  import opened Frames

  /** A silence interval on the audio timeline, in seconds. */
  datatype Interval = Interval(start: real, end: real)

  /** A run of silent frames by frame number: `first` is its first silent frame, `voice` the voice frame that closes it. */
  datatype Run = Run(first: nat, voice: nat)

  /** The silence run still open after the classifications `s`: where it began, if the last frame is silent. */
  function OpenRun(s: seq<bool>): (start: Option<nat>)
  {
    if s == [] then None
    else if s[|s| - 1] then None
    else if OpenRun(s[..|s| - 1]).Some? then OpenRun(s[..|s| - 1])
    else Some(|s| - 1)
  }

  /** The silence runs closed by a voice frame within the classifications `s`, in order. */
  function Runs(s: seq<bool>): (runs: seq<Run>)
  {
    if s == [] then []
    else
      var p := s[..|s| - 1];
      if s[|s| - 1] && OpenRun(p).Some? then Runs(p) + [Run(OpenRun(p).value, |s| - 1)]
      else Runs(p)
  }

  /** A run is maximal, all silent and closed by a voice frame. */
  ghost predicate RunIn(r: Run, s: seq<bool>)
  {
    r.first < r.voice < |s| && s[r.voice] &&
    (r.first == 0 || s[r.first - 1]) &&
    forall k :: r.first <= k < r.voice ==> !s[k]
  }

  /** What is known of the open run: it is all silent up to the end, and maximal on the left. */
  lemma {:induction false} OpenRunShape(s: seq<bool>)
    ensures OpenRun(s).Some? ==>
      var f := OpenRun(s).value;
      f < |s| && (f == 0 || s[f - 1]) && forall k :: f <= k < |s| ==> !s[k]
    ensures OpenRun(s).None? ==> s == [] || s[|s| - 1]
  {
    if s != [] {
      var p := s[..|s| - 1];
      OpenRunShape(p);
    }
  }

  /**
   * Every emitted run is a maximal block of silent frames followed by a voice frame,
   * and each run starts strictly after the voice frame that closed the one before.
   */
  lemma {:induction false} RunsSound(s: seq<bool>)
    ensures forall i :: 0 <= i < |Runs(s)| ==> RunIn(Runs(s)[i], s)
    ensures forall i :: 0 < i < |Runs(s)| ==> Runs(s)[i - 1].voice < Runs(s)[i].first
    ensures OpenRun(s).Some? && |Runs(s)| > 0 ==> Runs(s)[|Runs(s)| - 1].voice < OpenRun(s).value
    ensures forall i :: 0 <= i < |Runs(s)| ==> Runs(s)[i].voice < |s|
  {
    if s != [] {
      var p := s[..|s| - 1];
      RunsSound(p);
      OpenRunShape(p);
      var rp := Runs(p);
      if s[|s| - 1] && OpenRun(p).Some? {
        var r := Run(OpenRun(p).value, |s| - 1);
        assert Runs(s) == rp + [r];
        NewRunIn(s);
        forall i | 0 <= i < |Runs(s)|
          ensures RunIn(Runs(s)[i], s)
        {
          if i < |rp| {
            RunInExtend(rp[i], p, s);
          }
        }
        assert OpenRun(s).None?;
      } else {
        assert Runs(s) == rp;
        forall i | 0 <= i < |rp|
          ensures RunIn(rp[i], s)
        {
          RunInExtend(rp[i], p, s);
        }
      }
    }
  }

  /** A voice frame closing an open run produces a run of the classifications. */
  lemma NewRunIn(s: seq<bool>)
    requires s != [] && s[|s| - 1]
    requires OpenRun(s[..|s| - 1]).Some?
    ensures RunIn(Run(OpenRun(s[..|s| - 1]).value, |s| - 1), s)
  {
    var p := s[..|s| - 1];
    OpenRunShape(p);
    var f := OpenRun(p).value;
    forall k | f <= k < |s| - 1 ensures !s[k] { assert s[k] == p[k]; }
  }

  /** A run found in a prefix is still a run once one more classification is appended. */
  lemma RunInExtend(r: Run, p: seq<bool>, s: seq<bool>)
    requires s != [] && p == s[..|s| - 1]
    requires RunIn(r, p)
    ensures RunIn(r, s)
  {
    forall k | r.first <= k < r.voice ensures !s[k] { assert s[k] == p[k]; }
  }

  /**
   * Completeness: a silent frame followed, somewhere later, by a voice frame lies in some
   * emitted run. A silent frame with no voice frame after it (the trailing run) lies in none.
   */
  lemma {:induction false} RunsComplete(s: seq<bool>, k: nat, j: nat)
    requires k < j < |s| && !s[k] && s[j]
    ensures exists i :: 0 <= i < |Runs(s)| && Runs(s)[i].first <= k < Runs(s)[i].voice
  {
    var p := s[..|s| - 1];
    if j < |s| - 1 {
      RunsComplete(p, k, j);
      var i :| 0 <= i < |Runs(p)| && Runs(p)[i].first <= k < Runs(p)[i].voice;
      assert Runs(s)[i] == Runs(p)[i];
    } else if exists j' :: k < j' < |s| - 1 && s[j'] {
      var j' :| k < j' < |s| - 1 && s[j'];
      RunsComplete(p, k, j');
      var i :| 0 <= i < |Runs(p)| && Runs(p)[i].first <= k < Runs(p)[i].voice;
      assert Runs(s)[i] == Runs(p)[i];
    } else {
      // every frame from k up to the last one before j is silent, so a run is open
      OpenRunTail(p, k);
      var f := OpenRun(p).value;
      assert Runs(s) == Runs(p) + [Run(f, |s| - 1)];
      assert Runs(s)[|Runs(p)|] == Run(f, |s| - 1);
    }
  }

  /** A run is open, and began no later than `k`, when every frame from `k` on is silent. */
  lemma {:induction false} OpenRunTail(s: seq<bool>, k: nat)
    requires k < |s|
    requires forall m :: k <= m < |s| ==> !s[m]
    ensures OpenRun(s).Some? && OpenRun(s).value <= k
  {
    var p := s[..|s| - 1];
    OpenRunShape(p);
    if k < |s| - 1 {
      OpenRunTail(p, k);
    }
  }

  /** A silent frame with only silent frames after it is in no emitted run: trailing silence is not reported. */
  lemma TrailingSilenceDropped(s: seq<bool>, k: nat)
    requires k < |s|
    requires forall m :: k <= m < |s| ==> !s[m]
    ensures forall i :: 0 <= i < |Runs(s)| ==> !(Runs(s)[i].first <= k < Runs(s)[i].voice)
  {
    RunsSound(s);
    forall i | 0 <= i < |Runs(s)|
      ensures !(Runs(s)[i].first <= k < Runs(s)[i].voice)
    {
      assert RunIn(Runs(s)[i], s);
    }
  }

  /** The interval on the timeline covered by a run of frames `step` seconds long. */
  function ToInterval(r: Run, step: real): (iv: Interval)
  {
    Interval(Timestamp(r.first, step), Timestamp(r.voice, step))
  }

  /** The runs placed on the timeline, in order. */
  function Timeline(runs: seq<Run>, step: real): (ivs: seq<Interval>)
    ensures |ivs| == |runs|
    ensures forall i :: 0 <= i < |runs| ==> ivs[i] == ToInterval(runs[i], step)
  {
    if runs == [] then [] else Timeline(runs[..|runs| - 1], step) + [ToInterval(runs[|runs| - 1], step)]
  }

  lemma TimestampMonotone(a: nat, b: nat, step: real)
    requires step > 0.0
    ensures a < b <==> Timestamp(a, step) < Timestamp(b, step)
    ensures 0.0 <= Timestamp(a, step)
  {
    if a < b {
      assert Timestamp(b, step) - Timestamp(a, step) == (b - a) as real * step;
    } else {
      assert Timestamp(a, step) - Timestamp(b, step) == (a - b) as real * step;
    }
  }

  lemma StampBetween(a: nat, k: nat, b: nat, step: real)
    requires step > 0.0
    requires Timestamp(a, step) <= Timestamp(k, step) < Timestamp(b, step)
    ensures a <= k < b
  {
    TimestampMonotone(k, a, step);
    TimestampMonotone(k, b, step);
  }

  /** Each interval is non-empty, starts at or after time zero and ends at a voice frame. */
  lemma TimelineIntervals(s: seq<bool>, step: real)
    requires step > 0.0
    ensures var ivs := Timeline(Runs(s), step);
      forall i :: 0 <= i < |ivs| ==>
        0.0 <= ivs[i].start < ivs[i].end &&
        Runs(s)[i].voice < |s| && s[Runs(s)[i].voice] && ivs[i].end == Timestamp(Runs(s)[i].voice, step)
  {
    RunsSound(s);
    var runs := Runs(s);
    var ivs := Timeline(runs, step);
    forall i | 0 <= i < |ivs|
      ensures 0.0 <= ivs[i].start < ivs[i].end
      ensures runs[i].voice < |s| && s[runs[i].voice] && ivs[i].end == Timestamp(runs[i].voice, step)
    {
      assert RunIn(runs[i], s);
      TimestampMonotone(runs[i].first, runs[i].voice, step);
      assert s[runs[i].voice] && ivs[i].end == Timestamp(runs[i].voice, step);
    }
  }

  /** Intervals come out in order, each starting strictly after the previous one ends. */
  lemma TimelineOrdered(s: seq<bool>, step: real)
    requires step > 0.0
    ensures var ivs := Timeline(Runs(s), step);
      forall i :: 0 < i < |ivs| ==> ivs[i - 1].end < ivs[i].start
  {
    RunsSound(s);
    var runs := Runs(s);
    var ivs := Timeline(runs, step);
    forall i | 0 < i < |ivs|
      ensures ivs[i - 1].end < ivs[i].start
    {
      TimestampMonotone(runs[i - 1].voice, runs[i].first, step);
    }
  }

  /** Every frame stamped inside an interval was classified silent. */
  lemma TimelineSilent(s: seq<bool>, step: real)
    requires step > 0.0
    ensures var ivs := Timeline(Runs(s), step);
      forall i, k :: 0 <= i < |ivs| && 0 <= k < |s| && ivs[i].start <= Timestamp(k, step) < ivs[i].end ==> !s[k]
  {
    RunsSound(s);
    var runs := Runs(s);
    var ivs := Timeline(runs, step);
    forall i, k | 0 <= i < |ivs| && 0 <= k < |s| && ivs[i].start <= Timestamp(k, step) < ivs[i].end
      ensures !s[k]
    {
      assert RunIn(runs[i], s);
      StampBetween(runs[i].first, k, runs[i].voice, step);
    }
  }

  /** One more classification: a voice frame closes the open run, a silent frame opens one if none is open. */
  lemma AggregateStep(s: seq<bool>, i: nat)
    requires i < |s|
    ensures s[i] ==> OpenRun(s[..i + 1]).None?
    ensures !s[i] ==> OpenRun(s[..i + 1]) == if OpenRun(s[..i]).Some? then OpenRun(s[..i]) else Some(i)
    ensures Runs(s[..i + 1]) ==
      if s[i] && OpenRun(s[..i]).Some? then Runs(s[..i]) + [Run(OpenRun(s[..i]).value, i)] else Runs(s[..i])
  {
    assert s[..i + 1][..i] == s[..i];
  }

  /** Placing one more run on the timeline appends its interval. */
  lemma TimelineAppend(runs: seq<Run>, r: Run, step: real)
    ensures Timeline(runs + [r], step) == Timeline(runs, step) + [ToInterval(r, step)]
  {
    assert (runs + [r])[..|runs|] == runs;
  }

  /**
   * no_voice_intervals: walks the frames of `audio`, opening a silence interval at the first
   * silent frame and closing it at the next voice frame; `isSpeech[k]` is the detector's
   * verdict on frame `k`. The result is the runs of `Runs(isSpeech)` on the timeline: each
   * interval is non-empty, every frame stamped inside it is silent, it ends at a voice frame,
   * and each starts strictly after the previous one ends.
   */
  method NoVoiceIntervals(isSpeech: seq<bool>, audio: seq<Sample>, rate: nat, frameDurationMs: nat)
    returns (noVoice: seq<Interval>)
    requires FrameSize(rate, frameDurationMs) > 0
    requires |isSpeech| == FrameCount(|audio|, FrameSize(rate, frameDurationMs))
    ensures rate > 0
    ensures noVoice == Timeline(Runs(isSpeech), FrameStep(FrameSize(rate, frameDurationMs), rate))
    ensures forall i :: 0 <= i < |noVoice| ==> 0.0 <= noVoice[i].start < noVoice[i].end
    ensures forall i :: 0 < i < |noVoice| ==> noVoice[i - 1].end < noVoice[i].start
    ensures var step := FrameStep(FrameSize(rate, frameDurationMs), rate);
      forall i, k ::
        0 <= i < |noVoice| && 0 <= k < |isSpeech| && noVoice[i].start <= Timestamp(k, step) < noVoice[i].end ==> !isSpeech[k]
    ensures var step := FrameStep(FrameSize(rate, frameDurationMs), rate);
      forall i :: 0 <= i < |noVoice| ==>
        Runs(isSpeech)[i].voice < |isSpeech| && isSpeech[Runs(isSpeech)[i].voice] &&
        noVoice[i].end == Timestamp(Runs(isSpeech)[i].voice, step)
  {
    var frames := FrameGenerator(audio, rate, frameDurationMs);
    ghost var step := FrameStep(FrameSize(rate, frameDurationMs), rate);
    noVoice := [];
    var tStart: Option<real> := None;
    for i := 0 to |frames|
      invariant noVoice == Timeline(Runs(isSpeech[..i]), step)
      invariant tStart == if OpenRun(isSpeech[..i]).Some? then Some(Timestamp(OpenRun(isSpeech[..i]).value, step)) else None
    {
      var frame := frames[i];
      assert frame.timestamp == Timestamp(i, step);
      AggregateStep(isSpeech, i);
      if isSpeech[i] {
        if tStart.Some? {
          TimelineAppend(Runs(isSpeech[..i]), Run(OpenRun(isSpeech[..i]).value, i), step);
          noVoice := noVoice + [Interval(tStart.value, frame.timestamp)];
          tStart := None;
        }
      } else {
        if tStart.None? {
          tStart := Some(frame.timestamp);
        }
      }
    }
    assert isSpeech[..|frames|] == isSpeech;
    TimelineIntervals(isSpeech, step);
    TimelineOrdered(isSpeech, step);
    TimelineSilent(isSpeech, step);
  }
}
