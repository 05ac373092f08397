/**
 * How the stages compose in get_durations: the silence intervals feed the planner, and the
 * plan feeds the refinement pass. Reading the audio, building the detector and the
 * recogniser are outside this model; what is stated here is what the composition keeps.
 */
module Pipeline {
  import opened Common
  import opened Frames
  import opened Silence
  import opened Planner
  import opened Refinement

  /** Runs come out in order pairwise, not only neighbour by neighbour. */
  lemma {:induction false} RunsOrderedPairwise(s: seq<bool>, i: nat, j: nat)
    requires i < j < |Runs(s)|
    ensures Runs(s)[i].voice < Runs(s)[j].first
    decreases j - i
  {
    RunsSound(s);
    if i + 1 < j {
      RunsOrderedPairwise(s, i, j - 1);
      assert RunIn(Runs(s)[j - 1], s);
    }
  }

  /**
   * The aggregator's intervals are what the planner's positivity result asks for, as long
   * as the total duration reaches the timestamp of the last analysed frame.
   */
  lemma SilenceIsWellFormed(s: seq<bool>, step: real, end: real)
    requires step > 0.0 && (|s| > 0 ==> Timestamp(|s| - 1, step) <= end)
    ensures WellFormed(Timeline(Runs(s), step), end)
  {
    var runs := Runs(s);
    var ivs := Timeline(runs, step);
    TimelineIntervals(s, step);
    forall i | 0 <= i < |ivs|
      ensures 0.0 <= ivs[i].start < ivs[i].end <= end
    {
      var v := runs[i].voice;
      assert v < |s| && ivs[i].end == Timestamp(v, step);
      TimestampMonotone(v, |s| - 1, step);
    }
    forall i, j | 0 <= i < j < |ivs|
      ensures ivs[i].end <= ivs[j].start
    {
      RunsOrderedPairwise(s, i, j);
      TimestampMonotone(runs[i].voice, runs[j].first, step);
    }
  }

  /** Planning then refining keeps the total: the final segments add up to the clip's duration. */
  lemma PipelineSum(ivs: seq<Interval>, end: real, optDuration: real, speechOf: real -> (int -> bool))
    requires optDuration > MinTarget
    ensures Sum(Refined(Plan(ivs, end, optDuration), optDuration, speechOf, 0.0)) == end
  {
    PlanSum(ivs, end, optDuration);
    RefinedSum(Plan(ivs, end, optDuration), optDuration, speechOf, 0.0);
  }

  /**
   * From frame classifications to final segments: with silence found by the aggregator and
   * a positive duration reaching the last frame's timestamp, every final segment is positive and
   * together they cover the clip exactly.
   */
  lemma PipelineFromClassifications(s: seq<bool>, step: real, end: real, optDuration: real, speechOf: real -> (int -> bool))
    requires step > 0.0 && (|s| > 0 ==> Timestamp(|s| - 1, step) <= end) && end > 0.0
    requires optDuration > MinTarget
    ensures Sum(Refined(Plan(Timeline(Runs(s), step), end, optDuration), optDuration, speechOf, 0.0)) == end
    ensures forall i :: 0 <= i < |Refined(Plan(Timeline(Runs(s), step), end, optDuration), optDuration, speechOf, 0.0)| ==>
      Refined(Plan(Timeline(Runs(s), step), end, optDuration), optDuration, speechOf, 0.0)[i] > 0.0
  {
    var ivs := Timeline(Runs(s), step);
    SilenceIsWellFormed(s, step, end);
    PipelineSum(ivs, end, optDuration, speechOf);
    PlanPositive(ivs, end, optDuration);
    RefinedPositive(Plan(ivs, end, optDuration), optDuration, speechOf, 0.0);
  }
}
