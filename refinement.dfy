/**
 * The refinement pass: segments still longer than 2.5 times the target are re-split by
 * sliding a 2-second window in whole-second steps and cutting where the recogniser
 * finds no speech.
 *
 * The recogniser is a predicate `hasSpeech(w)`: true when recognising the 2-second window
 * starting `w` seconds into the clip returns a non-empty transcript.
 */
module Refinement {
  import opened Common

  /** Width of the probed window, and the gap left after a cut before probing again, in seconds. */
  const Margin: int := 2

  /** Segments longer than this many targets are re-split. */
  const LongFactor: real := 2.5

  /**
   * The rest of the sliding-window loop on a clip of `length` seconds, from window start
   * `offset` with the last cut at `lastStart`.
   */
  function Slide(length: real, hasSpeech: int -> bool, offset: int, lastStart: int): (pieces: seq<real>)
    decreases length.Floor - offset
  {
    if (offset + Margin) as real <= length then
      if !hasSpeech(offset) then
        [(offset + 1 - lastStart) as real] + Slide(length, hasSpeech, offset + 1 + Margin, offset + 1)
      else
        Slide(length, hasSpeech, offset + 1, lastStart)
    else if (lastStart as real) < length then [length - lastStart as real]
    else []
  }

  /** What divide_by_speech computes for a clip of `length` seconds. */
  function Divide(length: real, hasSpeech: int -> bool): (pieces: seq<real>)
  {
    Slide(length, hasSpeech, Margin, 0)
  }

  /** Time of the `k`-th cut of pieces `s` laid end to end from `base`. */
  function CutAt(s: seq<real>, base: int, k: nat): (cut: real)
    requires k <= |s|
  {
    base as real + Sum(s[..k])
  }

  /**
   * The recogniser heard speech in every window of the piece `[a, b]` that it was asked
   * about: each window starting at least 2 s after `a`, inside the clip, and ending
   * before `b + 1`.
   */
  ghost predicate Spoken(a: real, b: real, length: real, hasSpeech: int -> bool)
  {
    forall w: int :: a + Margin as real <= w as real && (w + Margin) as real <= length && (w + 1) as real < b ==> hasSpeech(w)
  }

  /** A cut at time `c` is a whole second, one second into a speech-free window that lies inside the clip. */
  predicate SpeechFreeCut(c: real, length: real, hasSpeech: int -> bool)
  {
    c.Floor as real == c && c.Floor - 1 >= Margin && !hasSpeech(c.Floor - 1) && (c.Floor + 1) as real <= length
  }

  lemma CutAtCons(x: int, t: seq<real>, base: int, k: nat)
    requires k <= |t|
    ensures CutAt([x as real] + t, base, k + 1) == CutAt(t, base + x, k)
  {
    assert ([x as real] + t)[..k + 1] == [x as real] + t[..k];
    assert ([x as real] + t[..k])[1..] == t[..k];
  }

  /**
   * The pieces of the loop from a state reached by the loop: at least one, they add up to the
   * rest of the clip, every piece but the last is at least 3 s long, and the last is positive.
   */
  lemma {:induction false} SlideSum(length: real, hasSpeech: int -> bool, offset: int, lastStart: int)
    requires 0 <= lastStart && lastStart + Margin <= offset && (lastStart as real) < length
    ensures |Slide(length, hasSpeech, offset, lastStart)| >= 1
    ensures Sum(Slide(length, hasSpeech, offset, lastStart)) == length - lastStart as real
    ensures forall k :: 0 <= k < |Slide(length, hasSpeech, offset, lastStart)| - 1 ==>
      Slide(length, hasSpeech, offset, lastStart)[k] >= 3.0
    ensures Slide(length, hasSpeech, offset, lastStart)[|Slide(length, hasSpeech, offset, lastStart)| - 1] > 0.0
    decreases length.Floor - offset
  {
    var s := Slide(length, hasSpeech, offset, lastStart);
    if (offset + Margin) as real <= length {
      if !hasSpeech(offset) {
        var x := (offset + 1 - lastStart) as real;
        var t := Slide(length, hasSpeech, offset + 1 + Margin, offset + 1);
        SlideSum(length, hasSpeech, offset + 1 + Margin, offset + 1);
        assert s == [x] + t;
        assert s[1..] == t;
        forall k | 1 <= k < |s| - 1 ensures s[k] >= 3.0 { assert s[k] == t[k - 1]; }
      } else {
        SlideSum(length, hasSpeech, offset + 1, lastStart);
      }
    } else {
      assert s == [length - lastStart as real];
    }
  }

  /**
   * Every cut of the loop falls one second into a window the recogniser found speech-free:
   * the cut time `c` is a whole number, `hasSpeech(c - 1)` is false, and the window
   * `[c - 1, c + 1]` lies inside the clip.
   */
  lemma {:induction false} SlideCuts(length: real, hasSpeech: int -> bool, offset: int, lastStart: int)
    requires 0 <= lastStart && lastStart + Margin <= offset
    ensures forall k :: 1 <= k < |Slide(length, hasSpeech, offset, lastStart)| ==>
      SpeechFreeCut(CutAt(Slide(length, hasSpeech, offset, lastStart), lastStart, k), length, hasSpeech)
    decreases length.Floor - offset
  {
    var s := Slide(length, hasSpeech, offset, lastStart);
    if (offset + Margin) as real <= length {
      if !hasSpeech(offset) {
        var x := offset + 1 - lastStart;
        var t := Slide(length, hasSpeech, offset + 1 + Margin, offset + 1);
        SlideCuts(length, hasSpeech, offset + 1 + Margin, offset + 1);
        assert s == [x as real] + t;
        forall k | 1 <= k < |s|
          ensures SpeechFreeCut(CutAt(s, lastStart, k), length, hasSpeech)
        {
          CutAtCons(x, t, lastStart, k - 1);
          if k == 1 {
            assert t[..0] == [];
            assert CutAt(t, offset + 1, 0) == (offset + 1) as real;
          }
        }
      } else {
        SlideCuts(length, hasSpeech, offset + 1, lastStart);
      }
    }
  }

  /**
   * Cuts fall at the first speech-free window: inside every piece, each window that starts
   * at least 2 s after the piece's start, fits in the clip and ends before the piece's end
   * plus one second was found to hold speech.
   */
  lemma {:induction false} SlideSpoken(length: real, hasSpeech: int -> bool, offset: int, lastStart: int)
    requires 0 <= lastStart && lastStart + Margin <= offset
    requires forall w :: lastStart + Margin <= w < offset ==> hasSpeech(w)
    ensures forall k :: 0 <= k < |Slide(length, hasSpeech, offset, lastStart)| ==>
      Spoken(CutAt(Slide(length, hasSpeech, offset, lastStart), lastStart, k),
             CutAt(Slide(length, hasSpeech, offset, lastStart), lastStart, k + 1), length, hasSpeech)
    decreases length.Floor - offset
  {
    var s := Slide(length, hasSpeech, offset, lastStart);
    var base := lastStart;
    if (offset + Margin) as real <= length {
      if !hasSpeech(offset) {
        var x := offset + 1 - lastStart;
        var t := Slide(length, hasSpeech, offset + 1 + Margin, offset + 1);
        SlideSpoken(length, hasSpeech, offset + 1 + Margin, offset + 1);
        assert s == [x as real] + t;
        forall k | 0 <= k < |s|
          ensures Spoken(CutAt(s, base, k), CutAt(s, base, k + 1), length, hasSpeech)
        {
          CutAtCons(x, t, base, k);
          if k == 0 {
            assert s[..0] == [];
            assert CutAt(s, base, 0) == base as real;
            assert t[..0] == [];
            assert CutAt(s, base, 1) == (offset + 1) as real;
            forall w: int | (base + Margin) as real <= w as real && (w + Margin) as real <= length && (w + 1) as real < CutAt(s, base, 1)
              ensures hasSpeech(w)
            {
              assert w < offset;
            }
          } else {
            CutAtCons(x, t, base, k - 1);
          }
        }
      } else {
        SlideSpoken(length, hasSpeech, offset + 1, lastStart);
      }
    } else if (lastStart as real) < length {
      assert s == [length - base as real];
      assert s[..0] == [] && s[..1] == s && s[1..] == [];
      assert CutAt(s, base, 0) == base as real && CutAt(s, base, 1) == length;
      forall w: int | (base + Margin) as real <= w as real && (w + Margin) as real <= length && (w + 1) as real < length
        ensures hasSpeech(w)
      {
        assert w < offset;
      }
    }
  }

  /** When the recogniser hears speech in every window, the clip comes back whole. */
  lemma {:induction false} SlideAllSpeech(length: real, hasSpeech: int -> bool, offset: int)
    requires forall w :: hasSpeech(w)
    requires 0.0 < length
    ensures Slide(length, hasSpeech, offset, 0) == [length]
    decreases length.Floor - offset
  {
    if (offset + Margin) as real <= length {
      SlideAllSpeech(length, hasSpeech, offset + 1);
    }
  }

  /** A clip with no speech anywhere is cut every 3 s: cuts at 3, 6 and 9 in a 12 s clip. */
  lemma DivideSilentClip()
    ensures Divide(12.0, w => false) == [3.0, 3.0, 3.0, 3.0]
  {
    var h: int -> bool := w => false;
    assert Slide(12.0, h, 11, 9) == [3.0];
    assert Slide(12.0, h, 8, 6) == [3.0, 3.0];
    assert Slide(12.0, h, 5, 3) == [3.0, 3.0, 3.0];
  }

  /**
   * divide_by_speech on a clip of `length` seconds: starting with the window at 2 s, a
   * speech-free window at `offset` cuts at `offset + 1` and the next window starts 2 s after
   * the cut, while a window with speech slides on by one second; the rest of the clip is
   * the last piece. The pieces add up to the clip, and all but the last are at least 3 s.
   */
  method DivideBySpeech(length: real, hasSpeech: int -> bool) returns (durations: seq<real>)
    ensures durations == Divide(length, hasSpeech)
    ensures length > 0.0 ==> |durations| >= 1 && Sum(durations) == length
    ensures length <= 0.0 ==> durations == []
    ensures forall k :: 0 <= k < |durations| - 1 ==> durations[k] >= 3.0
  {
    var margin := Margin;
    var offset := margin;
    var lastStart := 0;
    durations := [];
    while (offset + margin) as real <= length
      invariant 0 <= lastStart && lastStart + Margin <= offset
      invariant durations + Slide(length, hasSpeech, offset, lastStart) == Divide(length, hasSpeech)
      decreases length.Floor - offset
    {
      if !hasSpeech(offset) {
        ghost var x := (offset + 1 - lastStart) as real;
        ghost var rest := Slide(length, hasSpeech, offset + 1 + Margin, offset + 1);
        assert Slide(length, hasSpeech, offset, lastStart) == [x] + rest;
        assert durations + ([x] + rest) == (durations + [x]) + rest;
        durations := durations + [(offset + 1 - lastStart) as real];
        lastStart := offset + 1;
        offset := lastStart + margin;
      } else {
        offset := offset + 1;
      }
    }
    if (lastStart as real) < length {
      durations := durations + [length - lastStart as real];
    }
    if length > 0.0 {
      SlideSum(length, hasSpeech, Margin, 0);
    }
  }

  /**
   * What one segment of `d` seconds, starting at `offset`, becomes. `speechOf(t)` is the
   * recogniser's verdict on the windows of the subclip that starts `t` seconds into the audio.
   */
  function Piece(d: real, optDuration: real, speechOf: real -> (int -> bool), offset: real): (pieces: seq<real>)
  {
    if d > LongFactor * optDuration then Divide(d, speechOf(offset)) else [d]
  }

  /** extra_division's output for `durations` laid out from `offset`. */
  function Refined(durations: seq<real>, optDuration: real, speechOf: real -> (int -> bool), offset: real): (refined: seq<real>)
  {
    if durations == [] then []
    else Piece(durations[0], optDuration, speechOf, offset) +
         Refined(durations[1..], optDuration, speechOf, offset + durations[0])
  }

  /** Order is kept: refining a concatenation refines each part at its own running offset. */
  lemma {:induction false} RefinedConcat(a: seq<real>, b: seq<real>, optDuration: real, speechOf: real -> (int -> bool), offset: real)
    ensures Refined(a + b, optDuration, speechOf, offset) ==
      Refined(a, optDuration, speechOf, offset) + Refined(b, optDuration, speechOf, offset + Sum(a))
  {
    if a == [] {
      assert a + b == b;
    } else {
      assert (a + b)[0] == a[0] && (a + b)[1..] == a[1..] + b;
      RefinedConcat(a[1..], b, optDuration, speechOf, offset + a[0]);
    }
  }

  /** Each entry is replaced in place by its pieces, computed for the subclip at its running offset. */
  lemma RefinedAt(durations: seq<real>, i: nat, optDuration: real, speechOf: real -> (int -> bool))
    requires i < |durations|
    ensures Refined(durations, optDuration, speechOf, 0.0) ==
      Refined(durations[..i], optDuration, speechOf, 0.0) +
      Piece(durations[i], optDuration, speechOf, Sum(durations[..i])) +
      Refined(durations[i + 1..], optDuration, speechOf, Sum(durations[..i + 1]))
  {
    var a, b := durations[..i + 1], durations[i + 1..];
    assert durations == a + b;
    RefinedConcat(a, b, optDuration, speechOf, 0.0);
    assert Refined(durations, optDuration, speechOf, 0.0) ==
      Refined(a, optDuration, speechOf, 0.0) + Refined(b, optDuration, speechOf, Sum(a));
    RefinedSnoc(durations, i, optDuration, speechOf);
  }

  /** Entries no longer than 2.5 targets pass through unchanged: a list with only such entries is returned as it is. */
  lemma {:induction false} RefinedPassThrough(durations: seq<real>, optDuration: real, speechOf: real -> (int -> bool), offset: real)
    requires forall i :: 0 <= i < |durations| ==> durations[i] <= LongFactor * optDuration
    ensures Refined(durations, optDuration, speechOf, offset) == durations
  {
    if durations != [] {
      RefinedPassThrough(durations[1..], optDuration, speechOf, offset + durations[0]);
      assert durations == [durations[0]] + durations[1..];
    }
  }

  /** With a non-negative target, refinement keeps the total and never shortens the list. */
  lemma {:induction false} RefinedSum(durations: seq<real>, optDuration: real, speechOf: real -> (int -> bool), offset: real)
    requires optDuration >= 0.0
    ensures Sum(Refined(durations, optDuration, speechOf, offset)) == Sum(durations)
    ensures |Refined(durations, optDuration, speechOf, offset)| >= |durations|
  {
    if durations != [] {
      var d := durations[0];
      var piece := Piece(d, optDuration, speechOf, offset);
      RefinedSum(durations[1..], optDuration, speechOf, offset + d);
      SumConcat(piece, Refined(durations[1..], optDuration, speechOf, offset + d));
      if d > LongFactor * optDuration {
        SlideSum(d, speechOf(offset), Margin, 0);
      } else {
        assert Sum(piece) == d + Sum([]);
      }
    }
  }

  /** Every entry of `s` is positive. */
  ghost predicate Positive(s: seq<real>)
  {
    forall i :: 0 <= i < |s| ==> s[i] > 0.0
  }

  /** A positive segment is split into positive pieces. */
  lemma PiecePositive(d: real, optDuration: real, speechOf: real -> (int -> bool), offset: real)
    requires optDuration >= 0.0 && d > 0.0
    ensures Positive(Piece(d, optDuration, speechOf, offset))
  {
    if d > LongFactor * optDuration {
      SlideSum(d, speechOf(offset), Margin, 0);
    }
  }

  /** Positive segments stay positive after refinement. */
  lemma {:induction false} RefinedPositive(durations: seq<real>, optDuration: real, speechOf: real -> (int -> bool), offset: real)
    requires optDuration >= 0.0
    requires Positive(durations)
    ensures Positive(Refined(durations, optDuration, speechOf, offset))
  {
    if durations != [] {
      var d := durations[0];
      var piece := Piece(d, optDuration, speechOf, offset);
      var rest := Refined(durations[1..], optDuration, speechOf, offset + d);
      RefinedPositive(durations[1..], optDuration, speechOf, offset + d);
      PiecePositive(d, optDuration, speechOf, offset);
      assert Positive(durations[1..]) by {
        forall i | 0 <= i < |durations| - 1 ensures durations[1..][i] > 0.0 { assert durations[1..][i] == durations[i + 1]; }
      }
      assert Refined(durations, optDuration, speechOf, offset) == piece + rest;
      assert Positive(piece + rest);
    }
  }

  /** The walk up to entry `i` included: the walk up to `i`, then the piece entry `i` becomes at its running offset. */
  lemma RefinedSnoc(durations: seq<real>, i: nat, optDuration: real, speechOf: real -> (int -> bool))
    requires i < |durations|
    ensures Refined(durations[..i + 1], optDuration, speechOf, 0.0) ==
      Refined(durations[..i], optDuration, speechOf, 0.0) + Piece(durations[i], optDuration, speechOf, Sum(durations[..i]))
  {
    var a := durations[..i];
    assert durations[..i + 1] == a + [durations[i]];
    RefinedConcat(a, [durations[i]], optDuration, speechOf, 0.0);
    assert [durations[i]][1..] == [];
    assert Refined([durations[i]], optDuration, speechOf, Sum(a)) == Piece(durations[i], optDuration, speechOf, Sum(a)) + [];
  }

  /**
   * extra_division: walks the segments with a running offset; each segment longer than
   * 2.5 targets is replaced by the pieces divide_by_speech finds in its subclip, the others
   * are copied. With a non-negative target the total is kept and the list only grows.
   */
  method ExtraDivision(durations: seq<real>, optDuration: real, speechOf: real -> (int -> bool)) returns (newDurations: seq<real>)
    ensures newDurations == Refined(durations, optDuration, speechOf, 0.0)
    ensures optDuration >= 0.0 ==> Sum(newDurations) == Sum(durations) && |newDurations| >= |durations|
    ensures (forall i :: 0 <= i < |durations| ==> durations[i] <= LongFactor * optDuration) ==> newDurations == durations
  {
    var offset := 0.0;
    newDurations := [];
    for i := 0 to |durations|
      invariant offset == Sum(durations[..i])
      invariant newDurations == Refined(durations[..i], optDuration, speechOf, 0.0)
    {
      var duration := durations[i];
      RefinedSnoc(durations, i, optDuration, speechOf);
      if duration > LongFactor * optDuration {
        var extraDurations := DivideBySpeech(duration, speechOf(offset));
        newDurations := newDurations + extraDurations;
      } else {
        newDurations := newDurations + [duration];
      }
      SumPrefixStep(durations, i);
      offset := offset + duration;
    }
    assert durations[..|durations|] == durations;
    if optDuration >= 0.0 {
      RefinedSum(durations, optDuration, speechOf, 0.0);
    }
    if forall i :: 0 <= i < |durations| ==> durations[i] <= LongFactor * optDuration {
      RefinedPassThrough(durations, optDuration, speechOf, 0.0);
    }
  }
}
