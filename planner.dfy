/**
 * The duration planner: scans the silence intervals once and cuts the timeline at
 * interval midpoints near every `last_start + duration` mark, producing the list of
 * segment lengths.
 */
module Planner {
  import opened Common
  import opened Silence

  /** Hard floor, in seconds, on a segment cut at the left candidate. */
  const MinLength: real := 1.5

  /** Smallest target duration the planner accepts is anything above this. */
  const MinTarget: real := 2.0

  /** The candidate cut point of a silence interval: its midpoint. */
  function Mid(iv: Interval): (m: real)
  {
    (iv.start + iv.end) / 2.0
  }

  /** The scan state carried from one silence interval to the next. */
  datatype PlanState = PlanState(
    lastStart: real,
    closestLeft: Option<real>,
    closestRight: Option<real>,
    previous: Option<Interval>,
    durations: seq<real>)

  const Initial: PlanState := PlanState(0.0, None, None, None, [])

  /** Cut at `cut`: emit the segment since the last cut, drop both candidates, set the remembered interval. */
  function Commit(st: PlanState, cut: real, previous: Option<Interval>): (next: PlanState)
  {
    PlanState(cut, None, None, previous, st.durations + [cut - st.lastStart])
  }

  /** The tie-break between the left and the right candidate, once a right candidate exists. */
  function Resolve(st: PlanState, iv: Interval, duration: real): (next: PlanState)
  {
    match st.closestRight
    case None => st
    case Some(right) =>
      if st.closestLeft.None? || (right + st.closestLeft.value) / 2.0 > st.lastStart + duration
         || st.closestLeft.value - st.lastStart < MinLength
      then Commit(st, right, None)
      else Commit(st, st.closestLeft.value, Some(iv))
  }

  /**
   * One iteration of the scan. The remembered interval, if any, is reloaded as the left
   * candidate first; then the interval is a left candidate (ends by the mark), is cut at
   * its midpoint at once (straddles the mark, leaving the remembered interval as it was),
   * or is the right candidate (starts after the mark).
   */
  function Step(st: PlanState, iv: Interval, duration: real): (next: PlanState)
  {
    var st1 := if st.previous.Some? then st.(closestLeft := Some(Mid(st.previous.value))) else st;
    var mark := st1.lastStart + duration;
    if iv.end <= mark then Resolve(st1.(closestLeft := Some(Mid(iv))), iv, duration)
    else if iv.start <= mark then Commit(st1, Mid(iv), st1.previous)
    else Resolve(st1.(closestRight := Some(Mid(iv))), iv, duration)
  }

  /** The state after scanning all of `ivs`. */
  function Scan(ivs: seq<Interval>, duration: real): (st: PlanState)
  {
    if ivs == [] then Initial
    else Step(Scan(ivs[..|ivs| - 1], duration), ivs[|ivs| - 1], duration)
  }

  /** The planner's output: the segments cut during the scan, then the one closing out to `end`. */
  function Plan(ivs: seq<Interval>, end: real, duration: real): (plan: seq<real>)
  {
    var st := Scan(ivs, duration);
    st.durations + [end - st.lastStart]
  }

  /** All candidate cut points. */
  ghost function Mids(ivs: seq<Interval>): (mids: set<real>)
  {
    set iv | iv in ivs :: Mid(iv)
  }

  /** Midpoints of the intervals that straddle `mark`. */
  ghost function StraddleMids(ivs: seq<Interval>, mark: real): (mids: set<real>)
  {
    set iv | iv in ivs && iv.start <= mark < iv.end :: Mid(iv)
  }

  /** Intervals as the aggregator produces them: non-empty, in order, not overlapping, within `[0, end]`. */
  ghost predicate WellFormed(ivs: seq<Interval>, end: real)
  {
    (forall i :: 0 <= i < |ivs| ==> 0.0 <= ivs[i].start < ivs[i].end <= end) &&
    (forall i, j :: 0 <= i < j < |ivs| ==> ivs[i].end <= ivs[j].start)
  }

  /** What the scan keeps true: the emitted segments telescope to `lastStart`, and every cut and candidate is a midpoint. */
  ghost predicate Shaped(st: PlanState, ivs: seq<Interval>)
  {
    st.closestRight.None? &&
    Sum(st.durations) == st.lastStart &&
    (forall k :: 1 <= k <= |st.durations| ==> Sum(st.durations[..k]) in Mids(ivs)) &&
    (st.closestLeft.Some? ==> st.closestLeft.value in Mids(ivs)) &&
    (st.previous.Some? ==> st.previous.value in ivs)
  }

  lemma CommitShaped(st: PlanState, cut: real, previous: Option<Interval>, ivs: seq<Interval>)
    requires Sum(st.durations) == st.lastStart
    requires forall k :: 1 <= k <= |st.durations| ==> Sum(st.durations[..k]) in Mids(ivs)
    requires cut in Mids(ivs)
    requires previous.Some? ==> previous.value in ivs
    ensures Shaped(Commit(st, cut, previous), ivs)
  {
    var d := st.durations;
    var d' := d + [cut - st.lastStart];
    SumAppend(d, cut - st.lastStart);
    forall k | 1 <= k <= |d'|
      ensures Sum(d'[..k]) in Mids(ivs)
    {
      if k <= |d| {
        assert d'[..k] == d[..k];
      } else {
        assert d'[..k] == d';
      }
    }
  }

  lemma StepShaped(st: PlanState, ivs: seq<Interval>, duration: real)
    requires ivs != []
    requires Shaped(st, ivs[..|ivs| - 1])
    ensures Shaped(Step(st, ivs[|ivs| - 1], duration), ivs)
  {
    var p, iv := ivs[..|ivs| - 1], ivs[|ivs| - 1];
    assert iv in ivs;
    assert forall x :: x in p ==> x in ivs;
    assert Mids(p) <= Mids(ivs);
    assert Mid(iv) in Mids(ivs);
    if st.previous.Some? {
      assert Mid(st.previous.value) in Mids(ivs);
    }
    var st1 := if st.previous.Some? then st.(closestLeft := Some(Mid(st.previous.value))) else st;
    var mark := st1.lastStart + duration;
    if iv.end <= mark {
    } else if iv.start <= mark {
      CommitShaped(st1, Mid(iv), st1.previous, ivs);
    } else {
      var st2 := st1.(closestRight := Some(Mid(iv)));
      if st2.closestLeft.None? || (Mid(iv) + st2.closestLeft.value) / 2.0 > st2.lastStart + duration
         || st2.closestLeft.value - st2.lastStart < MinLength {
        CommitShaped(st2, Mid(iv), None, ivs);
      } else {
        CommitShaped(st2, st2.closestLeft.value, Some(iv), ivs);
      }
    }
  }

  /**
   * The scan invariant: the emitted segments telescope to `lastStart` (each append is
   * `cut - last_start` followed by `last_start := cut`), one segment at most per interval,
   * and every cut is the midpoint of an input interval.
   */
  lemma {:induction false} ScanShaped(ivs: seq<Interval>, duration: real)
    ensures Shaped(Scan(ivs, duration), ivs)
    ensures |Scan(ivs, duration).durations| <= |ivs|
  {
    if ivs != [] {
      var p := ivs[..|ivs| - 1];
      ScanShaped(p, duration);
      StepShaped(Scan(p, duration), ivs, duration);
    }
  }

  /** The plan sums exactly to `end` and has between 1 and `|ivs| + 1` segments. */
  lemma PlanSum(ivs: seq<Interval>, end: real, duration: real)
    ensures Sum(Plan(ivs, end, duration)) == end
    ensures 1 <= |Plan(ivs, end, duration)| <= |ivs| + 1
  {
    var st := Scan(ivs, duration);
    ScanShaped(ivs, duration);
    SumAppend(st.durations, end - st.lastStart);
  }

  /** Every internal cut point of the plan is the midpoint of one of the silence intervals. */
  lemma PlanCutsAreMidpoints(ivs: seq<Interval>, end: real, duration: real)
    ensures forall k :: 1 <= k < |Plan(ivs, end, duration)| ==> Sum(Plan(ivs, end, duration)[..k]) in Mids(ivs)
  {
    var st := Scan(ivs, duration);
    var plan := Plan(ivs, end, duration);
    ScanShaped(ivs, duration);
    forall k | 1 <= k < |plan|
      ensures Sum(plan[..k]) in Mids(ivs)
    {
      assert plan[..k] == st.durations[..k];
    }
  }

  /** The left candidate as the tie-break sees it: the remembered interval's midpoint, if one is remembered. */
  function LeftCandidate(st: PlanState): (left: Option<real>)
  {
    if st.previous.Some? then Some(Mid(st.previous.value)) else st.closestLeft
  }

  /** The tie-break accepts the left candidate `left` against the right candidate `right`. */
  predicate LeftAccepted(lastStart: real, left: real, right: real, duration: real)
  {
    left - lastStart >= MinLength && (left + right) / 2.0 <= lastStart + duration
  }

  /**
   * The cut rules of one scan step, with `mark = lastStart + duration`: an interval ending
   * by the mark cuts nothing; one straddling the mark is cut at its own midpoint; one
   * starting after the mark is the right candidate, and the cut goes to the left candidate
   * exactly when that is at least 1.5 s from the last cut and the two candidates' average
   * is not past the mark (the interval is then remembered), to the right one otherwise.
   */
  lemma StepCutRules(st: PlanState, iv: Interval, duration: real)
    requires st.closestRight.None?
    ensures var st' := Step(st, iv, duration); var mark := st.lastStart + duration;
      var left := LeftCandidate(st);
      (iv.end <= mark ==>
        st'.durations == st.durations && st'.lastStart == st.lastStart &&
        st'.closestLeft == Some(Mid(iv)) && st'.closestRight.None? && st'.previous == st.previous) &&
      (iv.start <= mark < iv.end ==>
        st'.durations == st.durations + [st'.lastStart - st.lastStart] && st'.lastStart == Mid(iv) &&
        st'.closestLeft.None? && st'.closestRight.None? && st'.previous == st.previous) &&
      (mark < iv.start && mark < iv.end ==>
        st'.durations == st.durations + [st'.lastStart - st.lastStart] &&
        st'.closestLeft.None? && st'.closestRight.None? &&
        if left.Some? && LeftAccepted(st.lastStart, left.value, Mid(iv), duration)
        then st'.lastStart == left.value && st'.previous == Some(iv)
        else st'.lastStart == Mid(iv) && st'.previous == None)
  {
  }

  /** A cut `c` after the cut `lastStart` obeys the rules: a straddling midpoint, past the mark, or at least 1.5 s on and before it. */
  ghost predicate CutFollowsRules(ivs: seq<Interval>, lastStart: real, c: real, duration: real)
  {
    c in StraddleMids(ivs, lastStart + duration) ||
    lastStart + duration < c ||
    lastStart + MinLength <= c < lastStart + duration
  }

  /** A cut made by one step obeys the rules. */
  lemma StepCutFollowsRules(st: PlanState, iv: Interval, ivs: seq<Interval>, duration: real)
    requires st.closestRight.None? && iv in ivs
    ensures var st' := Step(st, iv, duration);
      |st'.durations| != |st.durations| ==> CutFollowsRules(ivs, st.lastStart, st'.lastStart, duration)
  {
    StepCutRules(st, iv, duration);
    var mark := st.lastStart + duration;
    if iv.start <= mark < iv.end {
      assert Mid(iv) in StraddleMids(ivs, mark);
    }
  }

  /** Between intervals the scan never holds a right candidate, and its segments add up to the last cut. */
  lemma {:induction false} ScanTelescopes(ivs: seq<Interval>, duration: real)
    ensures Scan(ivs, duration).closestRight.None?
    ensures Sum(Scan(ivs, duration).durations) == Scan(ivs, duration).lastStart
  {
    if ivs != [] {
      var st := Scan(ivs[..|ivs| - 1], duration);
      ScanTelescopes(ivs[..|ivs| - 1], duration);
      StepAppends(st, ivs[|ivs| - 1], duration);
      SumAppend(st.durations, Step(st, ivs[|ivs| - 1], duration).lastStart - st.lastStart);
    }
  }

  /** A step keeps the segments emitted so far and adds at most the one ending at its new cut. */
  lemma StepAppends(st: PlanState, iv: Interval, duration: real)
    requires st.closestRight.None?
    ensures Step(st, iv, duration).durations == st.durations ||
      Step(st, iv, duration).durations == st.durations + [Step(st, iv, duration).lastStart - st.lastStart]
  {
  }

  /** Every segment the scan emits ends at a cut that obeys the rules. */
  lemma {:induction false} ScanCutRules(ivs: seq<Interval>, duration: real)
    ensures forall k :: 0 <= k < |Scan(ivs, duration).durations| ==>
      CutFollowsRules(ivs, Sum(Scan(ivs, duration).durations[..k]), Sum(Scan(ivs, duration).durations[..k + 1]), duration)
  {
    if ivs != [] {
      var p, iv := ivs[..|ivs| - 1], ivs[|ivs| - 1];
      ScanCutRules(p, duration);
      ScanTelescopes(p, duration);
      var st := Scan(p, duration);
      var st' := Step(st, iv, duration);
      var d, d' := st.durations, st'.durations;
      StepAppends(st, iv, duration);
      assert iv in ivs;
      StepCutFollowsRules(st, iv, ivs, duration);
      forall k | 0 <= k < |d'|
        ensures CutFollowsRules(ivs, Sum(d'[..k]), Sum(d'[..k + 1]), duration)
      {
        if k < |d| {
          assert d'[..k] == d[..k] && d'[..k + 1] == d[..k + 1];
          assert CutFollowsRules(p, Sum(d[..k]), Sum(d[..k + 1]), duration);
          CutRulesWiden(p, ivs, Sum(d[..k]), Sum(d[..k + 1]), duration);
        } else {
          assert d'[..k] == d && d'[..k + 1] == d';
          SumAppend(d, st'.lastStart - st.lastStart);
          assert Sum(d'[..k]) == st.lastStart && Sum(d'[..k + 1]) == st'.lastStart;
        }
      }
    }
  }

  /** The rules for a prefix of the intervals still hold for the whole list. */
  lemma CutRulesWiden(p: seq<Interval>, ivs: seq<Interval>, lastStart: real, c: real, duration: real)
    requires |p| <= |ivs| && p == ivs[..|p|]
    requires CutFollowsRules(p, lastStart, c, duration)
    ensures CutFollowsRules(ivs, lastStart, c, duration)
  {
    if c in StraddleMids(p, lastStart + duration) {
      var q :| q in p && q.start <= lastStart + duration < q.end && Mid(q) == c;
      assert q in ivs;
    }
  }

  /**
   * With a target above 2 s, every segment but the last is at least 1.5 s long, unless
   * its cut is the midpoint of a pause straddling the mark.
   */
  lemma PlanMinLength(ivs: seq<Interval>, end: real, duration: real)
    requires duration > MinTarget
    ensures forall k :: 0 <= k < |Plan(ivs, end, duration)| - 1 ==>
      Plan(ivs, end, duration)[k] >= MinLength ||
      Sum(Plan(ivs, end, duration)[..k + 1]) in StraddleMids(ivs, Sum(Plan(ivs, end, duration)[..k]) + duration)
  {
    var d := Scan(ivs, duration).durations;
    var plan := Plan(ivs, end, duration);
    ScanCutRules(ivs, duration);
    forall k | 0 <= k < |plan| - 1
      ensures plan[k] >= MinLength || Sum(plan[..k + 1]) in StraddleMids(ivs, Sum(plan[..k]) + duration)
    {
      assert plan[..k] == d[..k] && plan[..k + 1] == d[..k + 1] && plan[k] == d[k];
      SumPrefixStep(d, k);
      assert CutFollowsRules(ivs, Sum(d[..k]), Sum(d[..k + 1]), duration);
    }
  }

  /** The last cut is 0 or a midpoint. */
  lemma LastCutIsMidpoint(st: PlanState, ivs: seq<Interval>)
    requires Shaped(st, ivs)
    ensures st.lastStart == 0.0 || st.lastStart in Mids(ivs)
  {
    if st.durations != [] {
      assert st.durations[..|st.durations|] == st.durations;
    }
  }

  /** In well-formed input, every midpoint of the earlier intervals lies before the next interval's start. */
  lemma MidsBefore(ivs: seq<Interval>, end: real, m: real)
    requires ivs != [] && WellFormed(ivs, end)
    requires m in Mids(ivs[..|ivs| - 1])
    ensures m < ivs[|ivs| - 1].start
  {
    var p := ivs[..|ivs| - 1];
    var q :| q in p && Mid(q) == m;
    var j :| 0 <= j < |p| && p[j] == q;
    assert ivs[j] == q;
  }

  /** Every midpoint is inside `[0, end]`, strictly before `end`. */
  lemma MidsBeforeEnd(ivs: seq<Interval>, end: real, m: real)
    requires WellFormed(ivs, end)
    requires m in Mids(ivs)
    ensures 0.0 < m < end
  {
    var q :| q in ivs && Mid(q) == m;
    var j :| 0 <= j < |ivs| && ivs[j] == q;
  }

  /** On well-formed input every segment the scan emits is strictly positive. */
  lemma {:induction false} ScanPositive(ivs: seq<Interval>, end: real, duration: real)
    requires WellFormed(ivs, end) && duration > 0.0
    ensures forall k :: 0 <= k < |Scan(ivs, duration).durations| ==> Scan(ivs, duration).durations[k] > 0.0
  {
    if ivs != [] {
      var p, iv := ivs[..|ivs| - 1], ivs[|ivs| - 1];
      assert WellFormed(p, end);
      ScanPositive(p, end, duration);
      ScanShaped(p, duration);
      var st := Scan(p, duration);
      LastCutIsMidpoint(st, p);
      if st.lastStart != 0.0 {
        MidsBefore(ivs, end, st.lastStart);
      }
      assert st.lastStart <= iv.start < Mid(iv);
      StepCutRules(st, iv, duration);
    }
  }

  /** On well-formed input within `(0, end]`, every segment of the plan is strictly positive. */
  lemma PlanPositive(ivs: seq<Interval>, end: real, duration: real)
    requires WellFormed(ivs, end) && end > 0.0 && duration > 0.0
    ensures forall k :: 0 <= k < |Plan(ivs, end, duration)| ==> Plan(ivs, end, duration)[k] > 0.0
  {
    var st := Scan(ivs, duration);
    ScanPositive(ivs, end, duration);
    ScanShaped(ivs, duration);
    LastCutIsMidpoint(st, ivs);
    if st.lastStart != 0.0 {
      MidsBeforeEnd(ivs, end, st.lastStart);
    }
  }

  /** No silence at all: one segment spanning everything. */
  lemma PlanWithoutSilence()
    ensures Plan([], 10.0, 4.0) == [10.0]
  {
  }

  /** A pause straddling the 4 s mark is cut at its midpoint. */
  lemma PlanStraddlingPause()
    ensures Plan([Interval(3.8, 4.2)], 8.0, 4.0) == [4.0, 4.0]
  {
  }

  /**
   * The remembered interval in action: after the left cut at 3.0 the interval (4.4, 4.6)
   * is remembered, so its midpoint 4.5, not the nearer pause (6.0, 6.2), is the left
   * candidate when (9.0, 9.2) arrives, and the next cut falls at 4.5.
   */
  lemma PlanReusesRememberedInterval()
    ensures Plan([Interval(2.8, 3.2), Interval(4.4, 4.6), Interval(6.0, 6.2), Interval(9.0, 9.2)], 10.0, 4.0)
      == [3.0, 1.5, 5.5]
  {
    var a, b, c, e := Interval(2.8, 3.2), Interval(4.4, 4.6), Interval(6.0, 6.2), Interval(9.0, 9.2);
    var ivs := [a, b, c, e];
    assert ivs[..3] == [a, b, c] && [a, b, c][..2] == [a, b] && [a, b][..1] == [a] && [a][..0] == [];
    assert Scan([a], 4.0) == PlanState(0.0, Some(3.0), None, None, []);
    assert Scan([a, b], 4.0) == PlanState(3.0, None, None, Some(b), [3.0]);
    assert Scan([a, b, c], 4.0) == PlanState(3.0, Some(6.1), None, Some(b), [3.0]);
    assert Scan(ivs, 4.0) == PlanState(4.5, None, None, Some(e), [3.0, 1.5]);
  }

  /**
   * One pass of the loop in _get_durations over `interval`, on the loop's variables held in
   * `st`: reload the remembered interval, classify `interval` against the mark, and resolve
   * the candidates once a right one exists. The straddle branch's `continue` is the early
   * return. Between passes there is never a right candidate, so the pass starts without one.
   */
  method VisitInterval(st: PlanState, interval: Interval, duration: real) returns (next: PlanState)
    requires st.closestRight.None?
    ensures next == Step(st, interval, duration)
    ensures next.closestRight.None?
    ensures |next.durations| <= |st.durations| + 1 && next.durations[..|st.durations|] == st.durations
  {
    var lastStart, closestLeft, closestRight, previousInterval, durations :=
      st.lastStart, st.closestLeft, st.closestRight, st.previous, st.durations;
    if previousInterval.Some? {
      closestLeft := Some(Mid(previousInterval.value));
    }
    var middle := Mid(interval);
    if interval.end <= lastStart + duration {
      closestLeft := Some(middle);
    } else if interval.start <= lastStart + duration {
      closestLeft, closestRight := None, None;
      durations := durations + [middle - lastStart];
      lastStart := middle;
      return PlanState(lastStart, closestLeft, closestRight, previousInterval, durations);
    } else {
      closestRight := Some(middle);
    }
    if closestRight.Some? {
      if closestLeft.None? || (closestRight.value + closestLeft.value) / 2.0 > lastStart + duration
         || closestLeft.value - lastStart < MinLength {
        durations := durations + [closestRight.value - lastStart];
        lastStart := closestRight.value;
        previousInterval := None;
      } else {
        durations := durations + [closestLeft.value - lastStart];
        lastStart := closestLeft.value;
        previousInterval := Some(interval);
      }
      closestLeft, closestRight := None, None;
    }
    next := PlanState(lastStart, closestLeft, closestRight, previousInterval, durations);
  }

  /**
   * _get_durations: rejects a target of 2 s or less (the assertion at its top), and
   * otherwise returns the plan, which sums to `end` and has one segment more than it cut.
   */
  method GetDurations(noVoice: seq<Interval>, end: real, duration: real) returns (r: Option<seq<real>>)
    ensures r.None? <==> duration <= MinTarget
    ensures r.Some? ==> r.value == Plan(noVoice, end, duration)
    ensures r.Some? ==> Sum(r.value) == end && 1 <= |r.value| <= |noVoice| + 1
  {
    if duration <= MinTarget {
      return None;
    }
    var st := Initial;
    for i := 0 to |noVoice|
      invariant st == Scan(noVoice[..i], duration)
      invariant st.closestRight.None?
    {
      assert noVoice[..i + 1][..i] == noVoice[..i];
      st := VisitInterval(st, noVoice[i], duration);
    }
    assert noVoice[..|noVoice|] == noVoice;
    var durations := st.durations + [end - st.lastStart];
    PlanSum(noVoice, end, duration);
    r := Some(durations);
  }
}
