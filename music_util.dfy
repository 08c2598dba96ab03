/**
 * Constants of the event encoding and of music theory that the reward
 * engine imports from `music/util`. That module is not part of this model.
 * The event codes, interval sizes and codes, default key and tonic, and
 * direction and outcome codes follow the constants of magenta's rl_tuner;
 * the bar and beat lengths (16 and 4) are assumed. Apart from the scenario
 * lemmas, which compute with these numbers, the properties proved in this
 * project use only the facts listed in `ConstantAssumptions`.
 */
module MusicUtil {
  /** Event codes: action 0 silences, action 1 holds, 2.. are pitches (2 is C). */
  const NOTE_OFF: int := 0
  const NO_EVENT: int := 1

  const NOTES_PER_BEAT: int := 4
  const NOTES_PER_BAR: int := 16

  /** C-major pitches over the playable range, plus the two special events. */
  const C_MAJOR_KEY: seq<int> :=
    [0, 1, 2, 4, 6, 7, 9, 11, 13, 14, 16, 18, 19, 21, 23, 25, 26, 28, 30, 31, 33, 35, 37]
  const C_MAJOR_TONIC: int := 14

  /** Interval sizes in half-steps. */
  const SECOND: int := 2
  const THIRD: int := 4
  const FOURTH: int := 5
  const FIFTH: int := 7
  const SIXTH: int := 9
  const SEVENTH: int := 11
  const OCTAVE: int := 12

  /**
   * Special interval codes. Two of them are fractional, so interval codes
   * are reals; all of them are negative, hence distinct from every interval
   * size |a - b|.
   */
  const REST_INTERVAL: real := -1.0
  const HOLD_INTERVAL: real := -1.5
  const REST_INTERVAL_AFTER_THIRD_OR_FIFTH: real := -2.0
  const HOLD_INTERVAL_AFTER_THIRD_OR_FIFTH: real := -2.5
  const IN_KEY_THIRD: real := -3.0
  const IN_KEY_FIFTH: real := -5.0
  const SPECIAL_INTERVALS: seq<real> := [REST_INTERVAL, HOLD_INTERVAL, REST_INTERVAL_AFTER_THIRD_OR_FIFTH,
                                         HOLD_INTERVAL_AFTER_THIRD_OR_FIFTH, IN_KEY_THIRD, IN_KEY_FIFTH]

  /** Leap direction; 0 means no leap is pending. */
  const ASCENDING: int := 1
  const DESCENDING: int := -1

  /** Outcomes of leap detection; 0 means nothing happened. */
  const LEAP_RESOLVED: int := 1
  const LEAP_DOUBLED: int := -1

  /** A hold or a rest rather than a pitch. */
  predicate IsSpecial(x: int) {
    x == NO_EVENT || x == NOTE_OFF
  }

  /** Python's `list.count`. */
  function Count(s: seq<int>, x: int): (n: nat)
    ensures n <= |s|
  {
    if s == [] then 0 else (if s[0] == x then 1 else 0) + Count(s[1..], x)
  }

  /** The facts about the constants that the lookups and the leap detector rely on. */
  lemma ConstantAssumptions()
    ensures NOTE_OFF != NO_EVENT
    ensures NOTES_PER_BAR > 0 && NOTES_PER_BEAT > 0 && NOTES_PER_BEAT % 2 == 0
    ensures 0 < SECOND < THIRD < FOURTH < FIFTH < SIXTH < SEVENTH < OCTAVE
    ensures ASCENDING != 0 && DESCENDING != 0 && ASCENDING != DESCENDING
    ensures LEAP_RESOLVED != 0 && LEAP_DOUBLED != 0 && LEAP_RESOLVED != LEAP_DOUBLED
    ensures forall code :: code in SPECIAL_INTERVALS ==> code < 0.0
    ensures forall i, j :: 0 <= i < j < |SPECIAL_INTERVALS| ==> SPECIAL_INTERVALS[i] != SPECIAL_INTERVALS[j]
    ensures NOTE_OFF in C_MAJOR_KEY && NO_EVENT in C_MAJOR_KEY && C_MAJOR_TONIC in C_MAJOR_KEY
  {
  }

  /** `Count` is 0 exactly when the value does not occur. */
  lemma {:induction false} CountZero(s: seq<int>, x: int)
    ensures Count(s, x) == 0 <==> x !in s
  {
    if s != [] {
      CountZero(s[1..], x);
      assert s == [s[0]] + s[1..];
    }
  }

  /** `Count` is 1 exactly when the value occurs at one index only. */
  lemma {:induction false} CountOne(s: seq<int>, x: int)
    ensures Count(s, x) == 1 <==>
      exists k :: 0 <= k < |s| && s[k] == x && forall j :: 0 <= j < |s| && j != k ==> s[j] != x
  {
    if s == [] {
    } else {
      var t := s[1..];
      CountOne(t, x);
      CountZero(t, x);
      if Count(s, x) == 1 {
        if s[0] == x {
          assert x !in t;
          assert forall j :: 0 <= j < |s| && j != 0 ==> s[j] != x by {
            forall j | 0 <= j < |s| && j != 0 ensures s[j] != x { assert s[j] == t[j - 1]; }
          }
        } else {
          var k' :| 0 <= k' < |t| && t[k'] == x && forall j :: 0 <= j < |t| && j != k' ==> t[j] != x;
          assert s[k' + 1] == x;
          forall j | 0 <= j < |s| && j != k' + 1 ensures s[j] != x {
            if j > 0 { assert s[j] == t[j - 1]; }
          }
        }
      }
    }
  }
}
