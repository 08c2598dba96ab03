/**
 * Interval classification (`detect_sequential_interval`, default key only)
 * and the preferred-interval lookup (`reward_preferred_intervals`).
 */
module Intervals {
  import opened MusicUtil

  /** Pitches of C, E and G in the default key's playable range. */
  const C_NOTES: seq<int> := [2, 14, 26]
  const G_NOTES: seq<int> := [9, 21, 33]
  const E_NOTES: seq<int> := [6, 18, 30]
  /** Tonic and fifth degrees, which make a following hold or rest strong. */
  const TONIC_NOTES: seq<int> := [2, 14, 26]
  const FIFTH_NOTES: seq<int> := [9, 21, 33]

  function Abs(x: int): (r: nat)
    ensures r == x || r == -x
  {
    if x < 0 then -x else x
  }

  /**
   * The index of the most recent pitch at or before `i`; index 0 when every
   * element up to `i` is a hold or a rest.
   */
  function LastSoundingIndex(c: seq<int>, i: nat): (k: nat)
    requires i < |c|
    ensures k <= i
    ensures forall j :: k < j <= i ==> IsSpecial(c[j])
    ensures IsSpecial(c[k]) ==> k == 0
    ensures IsSpecial(c[k]) <==> forall j :: 0 <= j <= i ==> IsSpecial(c[j])
  {
    if !IsSpecial(c[i]) || i == 0 then i else LastSoundingIndex(c, i - 1)
  }

  /** The note the action is measured from: the last pitch before the action. */
  function PrevNote(c: seq<int>): int
    requires |c| >= 2
  {
    c[LastSoundingIndex(c, |c| - 2)]
  }

  /** No pitch precedes the action: the composition before it holds only holds and rests. */
  predicate NoEarlierPitch(c: seq<int>)
    requires |c| >= 2
  {
    forall j :: 0 <= j <= |c| - 2 ==> IsSpecial(c[j])
  }

  /**
   * The interval code, the action and the previous note. The code is 0 when
   * no pitch precedes the action, a special code for a hold or a rest (strong
   * after a tonic or a fifth degree), an in-key code for a fifth up or down
   * from C or G and a third from C or E, and the size in half-steps otherwise.
   */
  function SequentialInterval(c: seq<int>, action: int): (res: (real, int, int))
    requires |c| >= 2
    ensures res.1 == action && res.2 == PrevNote(c)
  {
    var prevNote := PrevNote(c);
    if IsSpecial(prevNote) then
      (0.0, action, prevNote)
    else if action == NO_EVENT then
      if prevNote in TONIC_NOTES || prevNote in FIFTH_NOTES then
        (HOLD_INTERVAL_AFTER_THIRD_OR_FIFTH, action, prevNote)
      else
        (HOLD_INTERVAL, action, prevNote)
    else if action == NOTE_OFF then
      if prevNote in TONIC_NOTES || prevNote in FIFTH_NOTES then
        (REST_INTERVAL_AFTER_THIRD_OR_FIFTH, action, prevNote)
      else
        (REST_INTERVAL, action, prevNote)
    else
      var interval := Abs(action - prevNote);
      if interval == FIFTH && (prevNote in C_NOTES || prevNote in G_NOTES) then
        (IN_KEY_FIFTH, action, prevNote)
      else if interval == THIRD && (prevNote in C_NOTES || prevNote in E_NOTES) then
        (IN_KEY_THIRD, action, prevNote)
      else
        (interval as real, action, prevNote)
  }

  /**
   * The source's classification: walk `prevNoteIndex` down past holds and
   * rests, then classify.
   */
  method DetectSequentialInterval(c: seq<int>, action: int) returns (interval: real, actionNote: int, prevNote: int)
    requires |c| >= 2
    ensures (interval, actionNote, prevNote) == SequentialInterval(c, action)
  {
    prevNote := c[|c| - 2];
    var prevNoteIndex := |c| - 2;
    while (prevNote == NO_EVENT || prevNote == NOTE_OFF) && prevNoteIndex >= 0
      invariant -1 <= prevNoteIndex <= |c| - 2
      invariant PrevNote(c) ==
        if IsSpecial(prevNote) && prevNoteIndex >= 0 then c[LastSoundingIndex(c, prevNoteIndex)] else prevNote
      decreases prevNoteIndex + 1
    {
      prevNote := c[prevNoteIndex];
      prevNoteIndex := prevNoteIndex - 1;
    }
    actionNote := action;
    if prevNote == NOTE_OFF || prevNote == NO_EVENT {
      interval := 0.0;
      return;
    }
    if action == NO_EVENT {
      if prevNote in TONIC_NOTES || prevNote in FIFTH_NOTES {
        interval := HOLD_INTERVAL_AFTER_THIRD_OR_FIFTH;
      } else {
        interval := HOLD_INTERVAL;
      }
      return;
    } else if action == NOTE_OFF {
      if prevNote in TONIC_NOTES || prevNote in FIFTH_NOTES {
        interval := REST_INTERVAL_AFTER_THIRD_OR_FIFTH;
      } else {
        interval := REST_INTERVAL;
      }
      return;
    }
    var size := Abs(action - prevNote);
    if size == FIFTH && (prevNote in C_NOTES || prevNote in G_NOTES) {
      interval := IN_KEY_FIFTH;
      return;
    }
    if size == THIRD && (prevNote in C_NOTES || prevNote in E_NOTES) {
      interval := IN_KEY_THIRD;
      return;
    }
    interval := size as real;
  }

  /** The code is 0 exactly when no pitch precedes the action or the action repeats it. */
  lemma IntervalZeroIff(c: seq<int>, action: int)
    requires |c| >= 2
    ensures SequentialInterval(c, action).0 == 0.0 <==>
      NoEarlierPitch(c) || (!IsSpecial(action) && action == PrevNote(c))
  {
  }

  /** A hold or a rest after a pitch lands in its bucket, the strong one after a tonic or fifth degree. */
  lemma HoldAndRestBuckets(c: seq<int>, action: int)
    requires |c| >= 2 && !NoEarlierPitch(c) && IsSpecial(action)
    ensures var interval := SequentialInterval(c, action).0;
      var strong := PrevNote(c) in TONIC_NOTES || PrevNote(c) in FIFTH_NOTES;
      (action == NO_EVENT ==> interval == if strong then HOLD_INTERVAL_AFTER_THIRD_OR_FIFTH else HOLD_INTERVAL) &&
      (action == NOTE_OFF ==> interval == if strong then REST_INTERVAL_AFTER_THIRD_OR_FIFTH else REST_INTERVAL)
  {
  }

  /**
   * Between two pitches the code is the distance in half-steps, except that
   * a fifth from C or G and a third from C or E become their in-key codes.
   */
  lemma PitchIntervalCodes(c: seq<int>, action: int)
    requires |c| >= 2 && !NoEarlierPitch(c) && !IsSpecial(action)
    ensures var interval := SequentialInterval(c, action).0;
      var p := PrevNote(c);
      && (interval == IN_KEY_FIFTH <==> Abs(action - p) == FIFTH && (p in C_NOTES || p in G_NOTES))
      && (interval == IN_KEY_THIRD <==> Abs(action - p) == THIRD && (p in C_NOTES || p in E_NOTES))
      && (interval != IN_KEY_FIFTH && interval != IN_KEY_THIRD ==> interval == Abs(action - p) as real)
  {
  }

  /** A leap: a fifth or more, or an in-key fifth. */
  predicate IsLeap(interval: real) {
    interval >= FIFTH as real || interval == IN_KEY_FIFTH
  }

  /** A leap is only ever detected between two pitches a fifth or more apart. */
  lemma LeapBetweenPitches(c: seq<int>, action: int)
    requires |c| >= 2
    ensures IsLeap(SequentialInterval(c, action).0) <==>
      !NoEarlierPitch(c) && !IsSpecial(action) && Abs(action - PrevNote(c)) >= FIFTH
  {
  }

  /**
   * The preferred-interval weights, applied in the source's order: each
   * matching rule overrides the earlier ones.
   */
  function PreferredIntervalReward(interval: real): (r: real)
    ensures -1.0 <= r <= 0.4
    ensures interval == 0.0 || interval == OCTAVE as real ==> r == 0.0
  {
    if interval == 0.0 then 0.0
    else
      var r := 0.0;
      var r := if interval == REST_INTERVAL then 0.07 else r;
      var r := if interval == HOLD_INTERVAL then 0.1 else r;
      var r := if interval == REST_INTERVAL_AFTER_THIRD_OR_FIFTH then 0.15 else r;
      var r := if interval == HOLD_INTERVAL_AFTER_THIRD_OR_FIFTH then 0.4 else r;
      var r := if interval == SEVENTH as real then -0.3 else r;
      var r := if interval > OCTAVE as real then -1.0 else r;
      var r := if interval == IN_KEY_FIFTH then 0.1 else r;
      var r := if interval == IN_KEY_THIRD then 0.15 else r;
      var r := if interval == THIRD as real then 0.09 else r;
      var r := if interval == SECOND as real then 0.08 else r;
      var r := if interval == FOURTH as real then 0.07 else r;
      var r := if interval == SIXTH as real then 0.05 else r;
      var r := if interval == FIFTH as real then 0.02 else r;
      r
  }

  /** The interval sizes up to an octave that have a rule of their own. */
  const RULED_SIZES: seq<real> := [SECOND as real, THIRD as real, FOURTH as real, FIFTH as real, SIXTH as real, SEVENTH as real]

  /** The weight of every bucket, independent of the order of the rules. */
  lemma PreferredIntervalTable()
    ensures PreferredIntervalReward(REST_INTERVAL) == 0.07
    ensures PreferredIntervalReward(HOLD_INTERVAL) == 0.1
    ensures PreferredIntervalReward(REST_INTERVAL_AFTER_THIRD_OR_FIFTH) == 0.15
    ensures PreferredIntervalReward(HOLD_INTERVAL_AFTER_THIRD_OR_FIFTH) == 0.4
    ensures PreferredIntervalReward(IN_KEY_FIFTH) == 0.1
    ensures PreferredIntervalReward(IN_KEY_THIRD) == 0.15
    ensures PreferredIntervalReward(SECOND as real) == 0.08
    ensures PreferredIntervalReward(THIRD as real) == 0.09
    ensures PreferredIntervalReward(FOURTH as real) == 0.07
    ensures PreferredIntervalReward(FIFTH as real) == 0.02
    ensures PreferredIntervalReward(SIXTH as real) == 0.05
    ensures PreferredIntervalReward(SEVENTH as real) == -0.3
    ensures forall x: real :: x > OCTAVE as real ==> PreferredIntervalReward(x) == -1.0
    ensures forall x: real :: x.Floor as real == x && 0.0 <= x <= OCTAVE as real && x !in RULED_SIZES ==> PreferredIntervalReward(x) == 0.0
  {
    ConstantAssumptions();
  }

  /** The reward for the interval the action forms with the previous pitch. */
  function RewardPreferredIntervals(c: seq<int>, action: int): (r: real)
    requires |c| >= 2
    ensures -1.0 <= r <= 0.4
    ensures NoEarlierPitch(c) ==> r == 0.0
    ensures !IsSpecial(action) && !NoEarlierPitch(c) && Abs(action - PrevNote(c)) > OCTAVE ==> r == -1.0
  {
    PreferredIntervalReward(SequentialInterval(c, action).0)
  }

  /** A pitch exactly an octave away from the previous one earns nothing: no rule matches it. */
  lemma OctaveEarnsNothing(c: seq<int>, action: int)
    requires |c| >= 2 && !NoEarlierPitch(c) && !IsSpecial(action)
    requires Abs(action - PrevNote(c)) == OCTAVE
    ensures RewardPreferredIntervals(c, action) == 0.0
  {
  }
}
