# Speech-segment planner for subtitle timing

This project is a verified model of the audio-analysis half of a tool that
splits a video into short subtitle-sized pieces. The tool works on the clip's
mono 16-bit audio in four stages:

1. **Frames** (`frames.dfy`). The frame slicer cuts the samples into
   fixed-size, non-overlapping frames. Each frame carries its start time.
2. **Silence** (`silence.dfy`). A voice-activity detector classifies each
   frame as speech or not. Each maximal run of silent frames that a speech
   frame follows becomes a quiet interval `(start, end)`.
3. **Planner** (`planner.dfy`). The greedy planner walks the quiet intervals
   and cuts the timeline at interval midpoints. It aims for pieces of about
   `duration` seconds and never cuts at the left candidate less than 1.5 s
   after the last cut. It returns the piece lengths, which add up to the
   clip's duration.
4. **Refinement** (`refinement.dfy`). Any piece longer than 2.5 × the target
   is split again, this time by asking a speech recogniser about 2-second
   windows and cutting in the middle of a window that holds no speech.

`pipeline.dfy` states what the composition of the stages keeps. `common.dfy`
holds `Option` and the sum of a sequence of reals.

Each stage in the source is a loop over mutable locals. Each one is modelled
as a Dafny `method` with that loop, and each method is proved equal to a
specification function: `FrameCount` and the slice formula, `Runs`/`Timeline`,
`Scan`/`Plan`, `Divide` and `Refined`. The properties are then proved about
those functions as lemmas.

The external parts are parameters:

- the detector's verdicts are a `seq<bool>` with one entry per frame;
- the recogniser's verdict on the 2-second window starting at second `w` is a
  predicate `hasSpeech(w)`, true when the transcript is non-empty;
- for the refinement pass over the whole clip, `speechOf(t)` gives the
  recogniser's verdicts `int -> bool` on the windows of the subclip that starts
  `t` seconds into the audio.

Times are exact `real`s.

The docstring of `frame_generator` (recognizer.py:56) promises frames of the
given duration, but the code computes the frame size as
`sample_rate * ms / 1000 * 2` (recognizer.py:63), a byte count for 16-bit
audio, and then uses it to slice an array of samples. The model follows the
code: each frame holds twice the samples of the nominal frame duration and
lasts twice as long, and the timestamps are consistent with the longer frames.
`Frames.FrameSizeAt48kHz` shows the case for 48 kHz and 10 ms.

## Model

| member | source | states |
|---|---|---|
| Frames.FrameGenerator | recognizer.py:54-70 | frame k is exactly samples k·n to (k+1)·n of the audio, stamped k·n/rate seconds. Every emitted frame ends strictly before the end of the audio. No further whole frame would, so a final frame ending exactly at the end is dropped, as is any shorter tail. |
| Frames.FrameSizeAt48kHz | recognizer.py:63-66 | at 48 kHz with a 10 ms setting, a frame has 960 samples and lasts 0.02 s |
| Silence.NoVoiceIntervals | recognizer.py:73-96 | the result is the timeline of silent runs. Every interval has 0 ≤ start < end, and the intervals are strictly increasing and disjoint. Every frame stamped inside an interval is silent. Every interval ends at the timestamp of the speech frame that closes its run. |
| Silence.RunsSound | recognizer.py:85-94 | each run is a block of silent frames closed by the speech frame right after it. Runs are in order, and the run still open at the end lies after all closed runs. |
| Silence.RunsComplete | recognizer.py:88-94 | every silent frame that some later speech frame follows lies inside one of the reported runs |
| Silence.OpenRunShape | recognizer.py:86-94 | the pending `t_start` is the first frame of the silent suffix, which is either the first frame or comes right after a speech frame; it is absent exactly when the audio is empty or ends with speech |
| Silence.OpenRunTail | recognizer.py:92-94 | when the audio ends in silence, the pending start is at or before the first frame of that silence |
| Silence.RunInExtend | recognizer.py:87-94 | a run found among the first frames stays a run when more frames are classified |
| Silence.NewRunIn | recognizer.py:88-91 | a speech frame that closes the pending silence produces a run: silent from the pending start up to, but not including, the speech frame |
| Silence.AggregateStep | recognizer.py:88-94 | one more verdict. A speech frame closes the pending silence into a new interval and clears it. A silent frame opens pending silence only when none is pending. |
| Silence.TimelineAppend | recognizer.py:90 | closing a run appends exactly its interval to the output |
| Silence.TrailingSilenceDropped | recognizer.py:85-96 | silence at the end of the audio that no speech frame closes is reported in no interval |
| Silence.TimestampMonotone | recognizer.py:66-69 | frame timestamps are nonnegative and strictly increasing in the frame index, in both directions |
| Silence.TimelineIntervals | recognizer.py:89-91 | every interval starts at or after 0, ends after it starts, and ends at the timestamp of the speech frame that closes its run |
| Silence.TimelineOrdered | recognizer.py:87-94 | each interval ends strictly before the next one starts |
| Silence.TimelineSilent | recognizer.py:88-94 | no speech frame is stamped inside a reported interval |
| Planner.VisitInterval | recognizer.py:116-142 | one pass of the loop computes the specification step `Step`. It leaves no right candidate behind, and it keeps every segment emitted so far, adding at most one. |
| Planner.GetDurations | recognizer.py:99-146 | it fails exactly when the target is at most 2.0 s. Otherwise it returns the plan, whose pieces add up to the clip's end, and there is at least one piece and at most one more piece than there are intervals. |
| Planner.PlanSum | recognizer.py:112-146 | the piece lengths always add up to `end`, and there are between 1 and (intervals + 1) pieces |
| Planner.ScanShaped | recognizer.py:116-142 | during the walk, the committed pieces add up to the last cut, every cut is the midpoint of some interval, a remembered interval is one of the inputs, and at most one piece is committed per interval |
| Planner.StepAppends | recognizer.py:120-142 | a step keeps the emitted segments and appends at most one, whose length is the distance from the previous cut to the new one |
| Planner.ScanTelescopes | recognizer.py:112-142 | between intervals there is never a right candidate, and the emitted segments add up to the last cut |
| Planner.CommitShaped | recognizer.py:135-142 | committing a cut at an interval midpoint keeps the walk's invariant: the pieces add up to the new last cut, and every cut is a midpoint |
| Planner.StepShaped | recognizer.py:116-142 | processing one more interval keeps that invariant |
| Planner.PlanCutsAreMidpoints | recognizer.py:118-141 | every boundary between pieces is the midpoint of a quiet interval |
| Planner.StepCutRules | recognizer.py:116-142 | the per-interval decision. (1) An interval ending by last_start + duration becomes the left candidate; nothing is cut, no right candidate remains and the remembered interval is kept. (2) An interval straddling that mark is cut at its midpoint at once, both candidates are cleared and the remembered interval is kept. (3) An interval past the mark commits a piece and clears both candidates: at the left candidate, which remembers the interval, when the left candidate exists, the average of the two candidates is within the mark and the candidate is at least 1.5 s from the last cut; otherwise at the right candidate, which clears the remembered interval. |
| Planner.StepCutFollowsRules | recognizer.py:120-141 | a step that commits a piece cuts at a straddling midpoint, past the mark, or between 1.5 s past the last cut and the mark |
| Planner.ScanCutRules | recognizer.py:116-142 | every committed cut follows those rules relative to the cut before it |
| Planner.CutRulesWiden | recognizer.py:116-142 | a cut that follows the rules for a prefix of the intervals follows them for the whole list |
| Planner.PlanMinLength | recognizer.py:130-142 | when the target exceeds 2.0 s, every piece but the last is at least 1.5 s long, unless its cut is the midpoint of an interval that straddles the mark |
| Planner.LastCutIsMidpoint | recognizer.py:113-141 | the last cut is 0 or the midpoint of some interval |
| Planner.MidsBefore | recognizer.py:116-119 | for ordered intervals, midpoints of earlier intervals lie before the start of the latest one |
| Planner.MidsBeforeEnd | recognizer.py:119-144 | for ordered intervals inside (0, end), every midpoint lies strictly between 0 and end |
| Planner.ScanPositive | recognizer.py:116-142 | for ordered intervals and a positive target, every committed piece is positive |
| Planner.PlanPositive | recognizer.py:112-146 | for ordered intervals inside (0, end], every piece of the plan is positive |
| Planner.PlanWithoutSilence | recognizer.py:144-146 | with no quiet intervals, the plan is the whole clip as one piece |
| Planner.PlanStraddlingPause | recognizer.py:122-126 | an interval straddling the target mark is cut at its midpoint: (3.8, 4.2) on an 8 s clip gives 4 + 4 |
| Planner.PlanReusesRememberedInterval | recognizer.py:115-141 | on a 10 s clip with target 4 and intervals (2.8,3.2), (4.4,4.6), (6.0,6.2), (9.0,9.2), the pieces are 3.0, 1.5 and 5.5: the interval (4.4, 4.6), remembered after the left cut at 3.0, beats the nearer (6.0, 6.2) as the left candidate when (9.0, 9.2) is resolved. A remembered interval overrides the left candidate only until a right cut clears it; `StepCutRules` states the general rule, with the candidate given by `LeftCandidate`. |
| Refinement.DivideBySpeech | recognizer.py:149-172 | the pieces equal the specification `Divide`. A positive length is covered exactly by at least one piece. A length of zero or less gives no pieces. Every piece but the last is at least 3 s. |
| Refinement.SlideSum | recognizer.py:156-171 | from a valid state, the remaining pieces add up to what is left of the clip. Every piece but the last is at least 3 s, and the last one is positive. |
| Refinement.SlideCuts | recognizer.py:160-167 | every cut is at a whole second c ≥ 3 such that the window starting at c − 1 is silent and ends within the clip |
| Refinement.SlideSpoken | recognizer.py:160-169 | inside every piece, every window the scan probed and passed over had speech |
| Refinement.SlideAllSpeech | recognizer.py:164-171 | when every window has speech, the clip stays one piece |
| Refinement.DivideSilentClip | recognizer.py:156-171 | a silent 12 s clip is cut every 3 s: 3 + 3 + 3 + 3 |
| Refinement.CutAtCons | recognizer.py:165-167 | moving the first piece into the base keeps every later cut position |
| Refinement.ExtraDivision | recognizer.py:175-193 | the output equals the specification `Refined`. For a nonnegative target it keeps the total length and never has fewer pieces than the input. When no piece exceeds 2.5 × the target, the input comes back unchanged. |
| Refinement.RefinedSnoc | recognizer.py:186-192 | the output after entry i is the output before it followed by entry i's pieces, computed at the running offset `Sum(durations[..i])` |
| Refinement.PiecePositive | recognizer.py:187-191 | a positive segment becomes positive pieces |
| Refinement.RefinedConcat | recognizer.py:184-192 | refining a concatenation is refining each part, with the second part's offset moved by the first part's total |
| Refinement.RefinedAt | recognizer.py:186-192 | piece i is refined on its own, at the offset given by the sum of the pieces before it |
| Refinement.RefinedPassThrough | recognizer.py:187-191 | pieces no longer than 2.5 × the target pass through unchanged |
| Refinement.RefinedSum | recognizer.py:184-192 | refining keeps the total length and never lowers the number of pieces |
| Refinement.RefinedPositive | recognizer.py:184-192 | when every input piece is positive, every refined piece is positive |
| Pipeline.RunsOrderedPairwise | recognizer.py:85-94 | any earlier run closes before any later run starts |
| Pipeline.SilenceIsWellFormed | recognizer.py:217-218 | the detector's intervals are ordered and lie within [0, end] whenever the clip lasts at least until the timestamp of the last classified frame, which is what the planner's positivity result needs |
| Pipeline.PipelineSum | recognizer.py:218-219 | planning and then refining keeps the clip's total duration |
| Pipeline.PipelineFromClassifications | recognizer.py:217-219 | from any frame classification, given a frame length step > 0, a clip duration end > 0 and the last classified frame's timestamp at most end, the final pieces are all positive and add up to the clip's duration |

## Left out

- `recognize` (recognizer.py:17-35) calls a web speech service. It is represented by the predicate `hasSpeech` and the family `speechOf`: a window has speech when its transcript is non-empty. Failures of the service other than "could not understand" are not modelled.
- `stereo_to_mono` is not part of this model. The model starts from mono samples.
- The I/O in `get_durations` is not part of this model: extracting and writing the audio, reading the WAV file, building the detector, and cleaning up temporary files. The model keeps the composition of the three stages, as the `Pipeline` lemmas.
- Writing each 2-second window to a temporary WAV file (recognizer.py:161-163) is not modelled. Only the recogniser's verdict on that window is kept.
- `video_proc.py` and `main.py` are not part of this model.
- Floating point is not modelled. Times and lengths are exact reals. The frame size is the integer part of the exact product, and rounding in the repeated `timestamp += duration` is ignored, so frame k is stamped exactly k·n/rate.
- The voice-activity detector is not modelled. Its verdicts are an input sequence with one entry per frame, so the frames' contents do not influence the model's classification.
- The frame slicer is a lazy generator in the source. The model returns the list of frames at once.
- Frames.FrameGenerator: requires a frame of at least one sample. With a size of 0, the source's loop never ends on non-empty audio.
- Planner.GetDurations: the source's failed `assert` (an exception) is modelled as a `None` result. Running Python with assertions disabled is not modelled.
- Planner.VisitInterval: requires that no right candidate is held when a pass starts. The source always clears it before the next pass, which `Planner.ScanTelescopes` proves.
- Planner.PlanPositive: requires the intervals to be ordered and inside [0, end]. `Pipeline.SilenceIsWellFormed` proves that the detector stage provides this. For arbitrary input lists the source makes no such promise.
- The refinement pass identifies each subclip by its start time only. The recogniser's verdicts for the subclip starting at t are `speechOf(t)`, so two subclips with the same start get the same verdicts. In the source they start at the same point of the same audio.
