/**
 * Leap tracking (`detect_leap_up_back`) as a transition function on the
 * three tracking fields. The class in `env.dfy` updates its fields in place
 * and is proved to follow this function.
 */
module Leap {
  import opened Wrappers
  import opened MusicUtil
  import opened Intervals

  /** `composition_direction`, `leapt_from` and `steps_since_last_leap`. */
  datatype LeapState = LeapState(direction: int, leaptFrom: Option<int>, steps: int)

  /** The state at the start of an episode. */
  const RESET: LeapState := LeapState(0, None, 0)

  /**
   * A leap is pending exactly when its starting pitch is stored; the
   * direction is one of the two codes; the step count is not negative.
   */
  predicate LeapInvariant(st: LeapState) {
    && (st.direction == 0 <==> st.leaptFrom.None?)
    && (st.direction == 0 || st.direction == ASCENDING || st.direction == DESCENDING)
    && (st.leaptFrom.Some? ==> !IsSpecial(st.leaptFrom.value))
    && st.steps >= 0
  }

  /** The direction of a leap from `prevNote` to `actionNote`. */
  function LeapDirection(actionNote: int, prevNote: int): (d: int)
    ensures d == ASCENDING <==> actionNote > prevNote
    ensures d == ASCENDING || d == DESCENDING
  {
    if actionNote > prevNote then ASCENDING else DESCENDING
  }

  /** The melody has come back to, or past, the pitch the pending leap started from. */
  predicate ReturnedPast(st: LeapState, actionNote: int)
    requires (st.direction == ASCENDING || st.direction == DESCENDING) ==> st.leaptFrom.Some?
  {
    (st.direction == ASCENDING && actionNote <= st.leaptFrom.value) ||
    (st.direction == DESCENDING && actionNote >= st.leaptFrom.value)
  }

  /**
   * One step of leap detection: the new state and the outcome (0,
   * `LEAP_RESOLVED` or `LEAP_DOUBLED`). A stored direction without a stored
   * pitch would make the source compare a pitch with `None`.
   */
  function LeapUpBack(st: LeapState, interval: real, actionNote: int, prevNote: int, stepsBetweenLeaps: int)
    : (res: (LeapState, int))
    requires (st.direction == ASCENDING || st.direction == DESCENDING) ==> st.leaptFrom.Some?
    ensures res.1 == 0 || res.1 == LEAP_RESOLVED || res.1 == LEAP_DOUBLED
    ensures res.1 == LEAP_RESOLVED ==> res.0.direction == 0 && res.0.leaptFrom == None
  {
    if actionNote == NOTE_OFF || actionNote == NO_EVENT then
      (st.(steps := st.steps + 1), 0)
    else if IsLeap(interval) then
      var leapDirection := LeapDirection(actionNote, prevNote);
      if st.direction != 0 then
        if st.direction != leapDirection then
          (LeapState(0, None, 0), if st.steps > stepsBetweenLeaps then LEAP_RESOLVED else 0)
        else
          (st.(steps := 0), LEAP_DOUBLED)
      else
        (LeapState(leapDirection, Some(prevNote), 0), 0)
    else
      if ReturnedPast(st, actionNote) then
        (LeapState(0, None, st.steps + 1), LEAP_RESOLVED)
      else
        (st.(steps := st.steps + 1), 0)
  }

  /** The step taken when `action` has just been appended to `c`. */
  function LeapStep(st: LeapState, c: seq<int>, action: int, stepsBetweenLeaps: int): (res: (LeapState, int))
    requires |c| >= 2 && LeapInvariant(st)
    ensures LeapInvariant(res.0)
  {
    var (interval, actionNote, prevNote) := SequentialInterval(c, action);
    LeapBetweenPitches(c, action);
    LeapUpBack(st, interval, actionNote, prevNote, stepsBetweenLeaps)
  }

  /** The reward for a leap outcome: +1 resolved, -1 doubled, 0 otherwise. */
  function LeapReward(outcome: int): (r: real)
    ensures r == 1.0 <==> outcome == LEAP_RESOLVED
    ensures r == -1.0 <==> outcome == LEAP_DOUBLED
    ensures r == 0.0 <==> outcome != LEAP_RESOLVED && outcome != LEAP_DOUBLED
  {
    if outcome == LEAP_RESOLVED then 1.0
    else if outcome == LEAP_DOUBLED then -1.0
    else 0.0
  }

  /** Two ascending leaps in a row (C up a sixth, then up a sixth again): the second is doubled. */
  lemma TwoAscendingLeapsDoubled()
    ensures var (st1, outcome1) := LeapStep(RESET, [2, 11], 11, 12);
      outcome1 == 0 && st1 == LeapState(ASCENDING, Some(2), 0) &&
      LeapReward(LeapStep(st1, [2, 11, 20], 20, 12).1) == -1.0
  {
  }

  /** A hold or a rest only advances the step count. */
  lemma HoldOrRestOnlyCounts(st: LeapState, c: seq<int>, action: int, stepsBetweenLeaps: int)
    requires |c| >= 2 && LeapInvariant(st) && IsSpecial(action)
    ensures LeapStep(st, c, action, stepsBetweenLeaps) == (st.(steps := st.steps + 1), 0)
  {
  }

  /**
   * A second leap in the pending direction is doubled: the pending leap is
   * kept as it was and the count restarts.
   */
  lemma DoubledLeapKeepsPending(st: LeapState, c: seq<int>, action: int, stepsBetweenLeaps: int)
    requires |c| >= 2 && LeapInvariant(st)
    ensures var (st', outcome) := LeapStep(st, c, action, stepsBetweenLeaps);
      outcome == LEAP_DOUBLED <==>
        IsLeap(SequentialInterval(c, action).0) && st.direction == LeapDirection(action, PrevNote(c))
    ensures var (st', outcome) := LeapStep(st, c, action, stepsBetweenLeaps);
      outcome == LEAP_DOUBLED ==> st'.direction == st.direction && st'.leaptFrom == st.leaptFrom && st'.steps == 0
  {
    LeapBetweenPitches(c, action);
  }

  /**
   * A leap against the pending direction clears the pending leap; it counts
   * as resolved only after more than `stepsBetweenLeaps` steps.
   */
  lemma AbruptReversalGate(st: LeapState, c: seq<int>, action: int, stepsBetweenLeaps: int)
    requires |c| >= 2 && LeapInvariant(st)
    requires IsLeap(SequentialInterval(c, action).0)
    requires st.direction != 0 && st.direction != LeapDirection(action, PrevNote(c))
    ensures var (st', outcome) := LeapStep(st, c, action, stepsBetweenLeaps);
      st' == RESET && (outcome == LEAP_RESOLVED <==> st.steps > stepsBetweenLeaps)
  {
    LeapBetweenPitches(c, action);
  }

  /** A leap with nothing pending is recorded, starting from the previous pitch. */
  lemma FirstLeapRecorded(st: LeapState, c: seq<int>, action: int, stepsBetweenLeaps: int)
    requires |c| >= 2 && LeapInvariant(st)
    requires IsLeap(SequentialInterval(c, action).0) && st.direction == 0
    ensures LeapStep(st, c, action, stepsBetweenLeaps) ==
      (LeapState(LeapDirection(action, PrevNote(c)), Some(PrevNote(c)), 0), 0)
  {
    LeapBetweenPitches(c, action);
  }

  /**
   * A pitch that is not a leap advances the count and resolves the pending
   * leap, whatever the count, exactly when the melody is back at or past
   * the pitch the leap started from.
   */
  lemma GradualResolution(st: LeapState, c: seq<int>, action: int, stepsBetweenLeaps: int)
    requires |c| >= 2 && LeapInvariant(st)
    requires !IsSpecial(action) && !IsLeap(SequentialInterval(c, action).0)
    ensures var (st', outcome) := LeapStep(st, c, action, stepsBetweenLeaps);
      st'.steps == st.steps + 1 &&
      (outcome == LEAP_RESOLVED <==> ReturnedPast(st, action)) &&
      (outcome == 0 ==> st' == st.(steps := st.steps + 1)) &&
      (outcome == LEAP_RESOLVED ==> st'.direction == 0 && st'.leaptFrom == None)
  {
  }

  /** The count restarts exactly on a leap. */
  lemma StepsRestartIffLeap(st: LeapState, c: seq<int>, action: int, stepsBetweenLeaps: int)
    requires |c| >= 2 && LeapInvariant(st)
    ensures LeapStep(st, c, action, stepsBetweenLeaps).0.steps == 0 <==>
      !IsSpecial(action) && IsLeap(SequentialInterval(c, action).0)
  {
  }

  /**
   * An episode: starting from `st` with composition `c`, each action is
   * appended and then scored. Every state on the way keeps the invariant.
   */
  function RunLeaps(st: LeapState, c: seq<int>, actions: seq<int>, stepsBetweenLeaps: int): (st': LeapState)
    requires |c| >= 1 && LeapInvariant(st)
    ensures LeapInvariant(st')
    decreases |actions|
  {
    if actions == [] then st
    else
      var c' := c + [actions[0]];
      RunLeaps(LeapStep(st, c', actions[0], stepsBetweenLeaps).0, c', actions[1..], stepsBetweenLeaps)
  }

  /** Episodes compose: running two action lists in turn is running their concatenation. */
  lemma {:induction false} RunLeapsAppend(st: LeapState, c: seq<int>, xs: seq<int>, ys: seq<int>, stepsBetweenLeaps: int)
    requires |c| >= 1 && LeapInvariant(st)
    ensures RunLeaps(st, c, xs + ys, stepsBetweenLeaps) ==
      RunLeaps(RunLeaps(st, c, xs, stepsBetweenLeaps), c + xs, ys, stepsBetweenLeaps)
    decreases |xs|
  {
    if xs != [] {
      var c' := c + [xs[0]];
      assert (xs + ys)[0] == xs[0] && (xs + ys)[1..] == xs[1..] + ys;
      RunLeapsAppend(LeapStep(st, c', xs[0], stepsBetweenLeaps).0, c', xs[1..], ys, stepsBetweenLeaps);
      assert c' + xs[1..] == c + xs;
    } else {
      assert xs + ys == ys && c + xs == c;
    }
  }

  /** After a reset, whatever the melody, no pending leap exists without its starting pitch. */
  lemma EpisodeKeepsInvariant(c: seq<int>, actions: seq<int>, stepsBetweenLeaps: int)
    requires |c| >= 1
    ensures var st := RunLeaps(RESET, c, actions, stepsBetweenLeaps);
      st.direction == 0 <==> st.leaptFrom.None?
  {
  }
}
