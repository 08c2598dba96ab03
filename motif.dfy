/**
 * Motif detection (`detect_last_motif`, `detect_repeated_motif`) and the
 * two motif rewards. A motif is the trailing bar of the composition; its
 * complexity is the number of distinct pitches in it.
 */
module Motif {
  import opened Wrappers
  import opened MusicUtil

  /** The distinct pitches (holds and rests excluded) of a window. */
  function DistinctNotes(bar: seq<int>): set<int> {
    set x | x in bar && !IsSpecial(x)
  }

  /** A window holds at most as many distinct pitches as it has elements. */
  lemma {:induction false} DistinctNotesBound(bar: seq<int>)
    ensures |DistinctNotes(bar)| <= |bar|
  {
    if bar == [] {
      assert DistinctNotes(bar) == {};
    } else {
      DistinctNotesBound(bar[1..]);
      assert bar == [bar[0]] + bar[1..];
      if IsSpecial(bar[0]) {
        assert DistinctNotes(bar) == DistinctNotes(bar[1..]);
      } else {
        assert DistinctNotes(bar) == DistinctNotes(bar[1..]) + {bar[0]};
      }
    }
  }

  /**
   * The trailing bar and its number of distinct pitches, or no motif and 0
   * when the composition is shorter than one bar.
   */
  function DetectLastMotif(c: seq<int>): (res: (Option<seq<int>>, nat))
    ensures |c| < NOTES_PER_BAR ==> res == (None, 0)
    ensures |c| >= NOTES_PER_BAR ==>
      res.0 == Some(c[|c| - NOTES_PER_BAR..]) && res.1 == |DistinctNotes(c[|c| - NOTES_PER_BAR..])|
    ensures res.1 <= NOTES_PER_BAR
  {
    if |c| < NOTES_PER_BAR then
      (None, 0)
    else
      var lastBar := c[|c| - NOTES_PER_BAR..];
      DistinctNotesBound(lastBar);
      (Some(lastBar), |DistinctNotes(lastBar)|)
  }

  /** The count is zero exactly when the trailing bar holds only holds and rests. */
  lemma MotifCountZeroIffNoPitch(c: seq<int>)
    requires |c| >= NOTES_PER_BAR
    ensures DetectLastMotif(c).1 == 0 <==> forall k :: |c| - NOTES_PER_BAR <= k < |c| ==> IsSpecial(c[k])
  {
    var bar := c[|c| - NOTES_PER_BAR..];
    if DetectLastMotif(c).1 == 0 {
      assert DistinctNotes(bar) == {};
      forall k | |c| - NOTES_PER_BAR <= k < |c| ensures IsSpecial(c[k]) {
        assert c[k] == bar[k - (|c| - NOTES_PER_BAR)];
        assert c[k] in DistinctNotes(bar) <==> c[k] in bar && !IsSpecial(c[k]);
      }
    } else {
      var x :| x in DistinctNotes(bar);
    }
  }

  /** The complexity bonus shared by both motif rewards. */
  function MotifBonus(numNotesInMotif: int, unique: int): (r: real)
    requires numNotesInMotif >= unique
    ensures r >= 1.0
  {
    1.0 + (numNotesInMotif - unique) as real / NOTES_PER_BAR as real
  }

  /**
   * Rewards a trailing bar with at least `unique` distinct pitches, with a
   * bonus that grows with the number of distinct pitches.
   */
  function RewardMotif(c: seq<int>, unique: int): (r: real)
    ensures r == 0.0 <==> DetectLastMotif(c).1 < unique
    ensures r != 0.0 ==> r >= 1.0
    ensures unique >= 1 ==> r < 2.0
  {
    var (_, numNotesInMotif) := DetectLastMotif(c);
    if numNotesInMotif >= unique then MotifBonus(numNotesInMotif, unique) else 0.0
  }

  /** More distinct pitches in the trailing bar never earn less. */
  lemma RewardMotifMonotone(c: seq<int>, d: seq<int>, unique: int)
    requires DetectLastMotif(c).1 <= DetectLastMotif(d).1
    ensures RewardMotif(c, unique) <= RewardMotif(d, unique)
  {
  }

  /** Whether `w` occurs in `s` starting at index `i`. */
  predicate WindowAt(s: seq<int>, w: seq<int>, i: nat) {
    i + |w| <= |s| && s[i..i + |w|] == w
  }

  /** Whether `w` occurs as a contiguous run of `s`. */
  predicate Occurs(s: seq<int>, w: seq<int>) {
    exists i: nat :: i <= |s| && WindowAt(s, w, i)
  }

  /** The trailing bar also occurs at `i`, entirely before the last bar. */
  predicate EarlierBarAt(c: seq<int>, i: nat)
    requires |c| >= NOTES_PER_BAR
  {
    i + NOTES_PER_BAR <= |c| - NOTES_PER_BAR && c[i..i + NOTES_PER_BAR] == c[|c| - NOTES_PER_BAR..]
  }

  /**
   * The repeated-motif test: the trailing bar has at least `unique` distinct
   * pitches and occurs in the composition with its last bar removed.
   */
  function RepeatedMotif(c: seq<int>, unique: int): (res: (bool, Option<nat>))
    ensures res.0 <==> res.1.Some?
    ensures res.0 ==> res.1.value == DetectLastMotif(c).1 >= unique
    ensures res.0 ==> |c| >= 2 * NOTES_PER_BAR
    ensures res.0 <==>
      |c| >= NOTES_PER_BAR && DetectLastMotif(c).1 >= unique &&
      exists i: nat :: i <= |c| && EarlierBarAt(c, i)
  {
    if |c| < NOTES_PER_BAR then (false, None)
    else
      var (motif, numNotesInMotif) := DetectLastMotif(c);
      if numNotesInMotif < unique then (false, None)
      else
        var prevComposition := c[..|c| - NOTES_PER_BAR];
        if Occurs(prevComposition, motif.value) then
          RepeatedMotifWindow(c, prevComposition, motif.value);
          (true, Some(numNotesInMotif))
        else
          RepeatedMotifWindow(c, prevComposition, motif.value);
          (false, None)
  }

  /** A window of the prefix is a window of the composition that ends before its last bar. */
  lemma RepeatedMotifWindow(c: seq<int>, prev: seq<int>, motif: seq<int>)
    requires |c| >= NOTES_PER_BAR
    requires prev == c[..|c| - NOTES_PER_BAR] && motif == c[|c| - NOTES_PER_BAR..]
    ensures Occurs(prev, motif) <==>
      exists i: nat :: i <= |c| && EarlierBarAt(c, i)
  {
    if Occurs(prev, motif) {
      var i: nat :| i <= |prev| && WindowAt(prev, motif, i);
      assert c[i..i + NOTES_PER_BAR] == prev[i..i + NOTES_PER_BAR];
      assert EarlierBarAt(c, i);
    }
    if exists i: nat :: i <= |c| && EarlierBarAt(c, i) {
      var i: nat :| i <= |c| && EarlierBarAt(c, i);
      assert prev[i..i + NOTES_PER_BAR] == c[i..i + NOTES_PER_BAR];
      assert WindowAt(prev, motif, i);
    }
  }

  /**
   * The window search of the source: for each start `i` of the prefix, compare
   * the motif element by element and stop at the first mismatch.
   */
  method DetectRepeatedMotif(c: seq<int>, unique: int) returns (isRepeated: bool, numNotesInMotif: Option<nat>)
    ensures (isRepeated, numNotesInMotif) == RepeatedMotif(c, unique)
  {
    if |c| < NOTES_PER_BAR {
      return false, None;
    }
    var (motif, n) := DetectLastMotif(c);
    if n < unique {
      return false, None;
    }
    var m := motif.value;
    var prevComposition := c[..|c| - NOTES_PER_BAR];
    var i := 0;
    while i < |prevComposition| - |m| + 1
      invariant 0 <= i
      invariant forall k: nat :: k < i ==> !WindowAt(prevComposition, m, k)
    {
      var j := 0;
      while j < |m|
        invariant 0 <= j <= |m|
        invariant forall t :: 0 <= t < j ==> prevComposition[i + t] == m[t]
      {
        if prevComposition[i + j] != m[j] {
          break;
        }
        j := j + 1;
      }
      if j == |m| {
        assert prevComposition[i..i + |m|] == m;
        assert WindowAt(prevComposition, m, i);
        return true, Some(n);
      }
      assert prevComposition[i..i + |m|][j] != m[j];
      i := i + 1;
    }
    return false, None;
  }

  /**
   * Rewards a repeated motif with the same bonus as `RewardMotif`. The
   * repetition test itself always asks for 3 distinct pitches.
   */
  function RewardRepeatedMotif(c: seq<int>, unique: int): (r: real)
    ensures r != 0.0 ==> r >= 1.0
    ensures r != 0.0 <==> RepeatedMotif(c, 3).0 && DetectLastMotif(c).1 >= unique
  {
    var (isRepeated, numNotesInMotif) := RepeatedMotif(c, 3);
    if isRepeated && numNotesInMotif.value >= unique then MotifBonus(numNotesInMotif.value, unique) else 0.0
  }

  /** A repeated motif earns exactly the plain motif reward, and never more. */
  lemma RepeatedMotifEarnsMotifReward(c: seq<int>, unique: int)
    ensures RewardRepeatedMotif(c, unique) != 0.0 ==> RewardRepeatedMotif(c, unique) == RewardMotif(c, unique)
    ensures RewardRepeatedMotif(c, unique) <= RewardMotif(c, unique)
  {
  }

  /** Early in a piece there is neither a motif nor a repeated one. */
  lemma ShortCompositionNoMotif(c: seq<int>, unique: int)
    requires |c| < NOTES_PER_BAR && unique >= 1
    ensures DetectLastMotif(c) == (None, 0)
    ensures RewardMotif(c, unique) == 0.0 && RewardRepeatedMotif(c, unique) == 0.0
  {
  }
}
