/**
 * The environment object: the composition and step counters it is given,
 * and the leap-tracking fields it updates in place. `_step` is modelled with
 * the base reward of the surrounding environment and the autocorrelation
 * penalty as inputs.
 */
module MusicTheory {
  import opened Wrappers
  import opened MusicUtil
  import opened KeyTonic
  import opened Repetition
  import opened Motif
  import opened Intervals
  import opened Leap
  import opened HighLow

  /** The weighted sum of one step's partial rewards. */
  function StepReward(baseReward: real, key: int, tonic: int, repeating: real, autocorrelation: real,
                      motif: real, repeatedMotif: real, preferred: real, leap: real, highLow: real): real
  {
    baseReward + (key - 1) as real + (tonic * 3) as real + repeating * 100.0 + autocorrelation * 4.0
      + motif * 3.0 + repeatedMotif * 4.0 + preferred * 5.0 + leap * 5.0 + highLow * 3.0
  }

  /**
   * The repetition penalty outweighs every other term: whenever it applies
   * (and the autocorrelation term is, as always, not positive) the step
   * earns less than the base reward, whatever the leap outcome.
   */
  lemma RepetitionPenaltyDominates(c: seq<int>, beat: int, numNotes: int, action: int, leapOutcome: int,
                                   baseReward: real, autocorrelation: real)
    requires |c| >= 2 && beat >= 1 && (|c| == numNotes ==> numNotes > 0)
    requires autocorrelation <= 0.0
    requires RepeatPenalty(c, action) != 0.0
    ensures StepReward(baseReward, RewardKey(action, C_MAJOR_KEY), RewardTonic(beat, numNotes, action, C_MAJOR_TONIC),
                       RepeatPenalty(c, action), autocorrelation, RewardMotif(c, 3), RewardRepeatedMotif(c, 3),
                       RewardPreferredIntervals(c, action), LeapReward(leapOutcome), RewardHighLowUnique(c, numNotes))
            < baseReward
  {
    RepeatedMotifEarnsMotifReward(c, 3);
  }

  class MusicTheoryEnv {
    /** Supplied by the surrounding environment; the action is already appended. */
    var composition: seq<int>
    var beat: int
    var numNotes: int
    /** Leap tracking, reinitialised at the start of every episode. */
    var compositionDirection: int
    var leaptFrom: Option<int>
    var stepsSinceLastLeap: int

    ghost function State(): LeapState
      reads this
    {
      LeapState(compositionDirection, leaptFrom, stepsSinceLastLeap)
    }

    ghost predicate Valid()
      reads this
    {
      LeapInvariant(State())
    }

    constructor (composition: seq<int>, beat: int, numNotes: int)
      ensures Valid() && State() == RESET
      ensures this.composition == composition && this.beat == beat && this.numNotes == numNotes
    {
      this.composition := composition;
      this.beat := beat;
      this.numNotes := numNotes;
      compositionDirection := 0;
      leaptFrom := None;
      stepsSinceLastLeap := 0;
    }

    /** `_reset`: forget any pending leap. */
    method Reset()
      modifies this`compositionDirection, this`leaptFrom, this`stepsSinceLastLeap
      ensures Valid() && State() == RESET
    {
      compositionDirection := 0;
      leaptFrom := None;
      stepsSinceLastLeap := 0;
    }

    /** `detect_leap_up_back`: classify the step and update the leap-tracking fields. */
    method DetectLeapUpBack(action: int, stepsBetweenLeaps: int) returns (outcome: int)
      requires Valid() && |composition| >= 2
      modifies this`compositionDirection, this`leaptFrom, this`stepsSinceLastLeap
      ensures Valid()
      ensures (State(), outcome) == LeapStep(old(State()), composition, action, stepsBetweenLeaps)
    {
      outcome := 0;
      var interval, actionNote, prevNote := DetectSequentialInterval(composition, action);
      LeapBetweenPitches(composition, action);
      if actionNote == NOTE_OFF || actionNote == NO_EVENT {
        stepsSinceLastLeap := stepsSinceLastLeap + 1;
        return 0;
      }
      if interval >= FIFTH as real || interval == IN_KEY_FIFTH {
        var leapDirection;
        if actionNote > prevNote {
          leapDirection := ASCENDING;
        } else {
          leapDirection := DESCENDING;
        }
        if compositionDirection != 0 {
          if compositionDirection != leapDirection {
            if stepsSinceLastLeap > stepsBetweenLeaps {
              outcome := LEAP_RESOLVED;
            }
            compositionDirection := 0;
            leaptFrom := None;
          } else {
            outcome := LEAP_DOUBLED;
          }
        } else {
          compositionDirection := leapDirection;
          leaptFrom := Some(prevNote);
        }
        stepsSinceLastLeap := 0;
      } else {
        stepsSinceLastLeap := stepsSinceLastLeap + 1;
        if (compositionDirection == ASCENDING && actionNote <= leaptFrom.value) ||
           (compositionDirection == DESCENDING && actionNote >= leaptFrom.value) {
          outcome := LEAP_RESOLVED;
          compositionDirection := 0;
          leaptFrom := None;
        }
      }
    }

    /** `reward_leap_up_back`: +1 for a resolved leap, -1 for a doubled one. */
    method RewardLeapUpBack(action: int) returns (r: real)
      requires Valid() && |composition| >= 2
      modifies this`compositionDirection, this`leaptFrom, this`stepsSinceLastLeap
      ensures Valid()
      ensures var (leap', outcome) := LeapStep(old(State()), composition, action, 12);
        State() == leap' && r == LeapReward(outcome)
    {
      var leapOutcome := DetectLeapUpBack(action, 12);
      if leapOutcome == LEAP_RESOLVED {
        r := 1.0;
      } else if leapOutcome == LEAP_DOUBLED {
        r := -1.0;
      } else {
        r := 0.0;
      }
    }

    /**
     * `_step` after the base environment has appended the action: every
     * heuristic in the source's order, weighted and summed. Only the leap
     * term changes state.
     */
    method Step(action: int, baseReward: real, autocorrelationPenalty: real) returns (reward: real)
      requires Valid() && beat >= 1 && |composition| >= 2
      requires |composition| == numNotes ==> numNotes > 0
      modifies this`compositionDirection, this`leaptFrom, this`stepsSinceLastLeap
      ensures Valid()
      ensures var (leap', outcome) := LeapStep(old(State()), composition, action, 12);
        State() == leap' &&
        reward == StepReward(baseReward, RewardKey(action, C_MAJOR_KEY), RewardTonic(beat, numNotes, action, C_MAJOR_TONIC),
                             RepeatPenalty(composition, action), autocorrelationPenalty,
                             RewardMotif(composition, 3), RewardRepeatedMotif(composition, 3),
                             RewardPreferredIntervals(composition, action), LeapReward(outcome),
                             RewardHighLowUnique(composition, numNotes))
    {
      reward := baseReward;
      reward := reward + (RewardKey(action, C_MAJOR_KEY) - 1) as real;
      reward := reward + (RewardTonic(beat, numNotes, action, C_MAJOR_TONIC) * 3) as real;
      var repeating := RewardPenalizeRepeating(composition, action);
      reward := reward + repeating * 100.0;
      reward := reward + autocorrelationPenalty * 4.0;
      reward := reward + RewardMotif(composition, 3) * 3.0;
      reward := reward + RewardRepeatedMotif(composition, 3) * 4.0;
      reward := reward + RewardPreferredIntervals(composition, action) * 5.0;
      var leap := RewardLeapUpBack(action);
      reward := reward + leap * 5.0;
      reward := reward + RewardHighLowUnique(composition, numNotes) * 3.0;
    }
  }
}
