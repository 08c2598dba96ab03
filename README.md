# Music-theory reward engine

A Dafny model of the reward shaping in `MusicTheoryEnv`
(`music/music_theory_env.py`), the environment that scores a reinforcement
learning agent's melody one event at a time. Each step the surrounding
environment appends the agent's action to the `composition` (a sequence of
event codes: pitches, `NO_EVENT` for a hold and `NOTE_OFF` for a rest) and the
engine sums weighted partial rewards:

- key and tonic placement (`key_tonic.dfy`);
- a penalty for a note repeated too often in a row (`repetition.dfy`);
- a bonus for a one-bar motif and a larger one for a repeated motif (`motif.dfy`);
- a weight for the melodic interval just played (`intervals.dfy`);
- leap tracking: a leap of a fifth or more should be followed by a move back
  (`leap.dfy`), a small state machine over three fields;
- a bonus when the highest and lowest notes of a finished piece occur once (`high_low.dfy`).

`env.dfy` holds the class `MusicTheoryEnv`. It carries the fields the engine
reads (`composition`, `beat`, `numNotes`) and the leap-tracking fields it
updates in place (`compositionDirection`, `leaptFrom`, `stepsSinceLastLeap`).
`Reset` puts the leap fields back to the reset state `Leap.RESET`;
`DetectLeapUpBack`, `RewardLeapUpBack` and `Step` are proved to update them
as the transition function `Leap.LeapStep` does. The heuristics that
only read the composition are functions over `seq<int>`. Where the source
computes with a loop (the repetition scan, the search back for the previous
pitch, the motif window search), the model has a method with that loop, and
the method is proved equal to a specification function.

The constants come from `music/util`, which is not part of this model. They
are declared in `music_util.dfy`. The event codes, interval sizes and codes,
default key and tonic, and direction and outcome codes follow the constants of
magenta's rl_tuner; the bar length of 16 steps and the beat length of 4 are
assumed. Apart from the scenario lemmas, which compute with the concrete
values, the proofs rely only on the facts that `MusicUtil.ConstantAssumptions`
lists:

- the two event codes differ;
- bars and beats are non-empty;
- a beat has an even number of steps, so the repetition tolerance of half a
  beat is a whole number and an active penalty is at least 1;
- the interval sizes are positive and increasing;
- the direction and outcome codes are non-zero and distinct;
- the six special interval codes are negative and pairwise distinct, so no
  special code equals a distance `|a - b|`;
- the default key contains both event codes and the tonic.

The special interval codes include -1.5 and -2.5, so interval codes are
`real`. The source is Python 3 (`super()` without arguments), so `/` is true
division and the rewards are `real`.

Notes on the source, which the model follows as written:

- The "strong" hold and rest buckets (`*_AFTER_THIRD_OR_FIFTH`) are chosen
  after a tonic or a fifth-degree pitch, despite their names
  (`music/music_theory_env.py:258`, `:264`).
- Gradual resolution of a leap compares with `<=` / `>=`, so the melody
  resolves when it is back at `leapt_from` or past it (lines 417-420).
- The highest note is taken over the whole composition, codes of holds and
  rests included (line 455). The lowest note is taken over pitches only.
- The repetition scan walks back past holds and rests as well as repeats
  (lines 87-95). A single rest or hold anywhere in that stretch raises the
  tolerance from half a beat to 6, even when the notes right before the
  action are an unbroken run of it (`Repetition.RestBeforeRunRaisesTolerance`).

## Model

| member | source | states |
|---|---|---|
| MusicUtil.ConstantAssumptions | music/music_theory_env.py:3 | the facts about the imported constants that every lookup relies on: distinct event codes, positive bar length, negative and distinct special interval codes, non-zero direction and outcome codes |
| MusicUtil.CountOne | music/music_theory_env.py:456 | `list.count(x) == 1` exactly when a single index holds `x` |
| KeyTonic.RewardKey | music/music_theory_env.py:34-46 | the reward is 1 exactly when the action is in the key, else 0 |
| KeyTonic.RewardTonic | music/music_theory_env.py:59-72 | result in {0,1}; on the first step and on the first step of the final bar it is 1 iff the action is the tonic; before the final bar (after the first step) it is 0; it only rewards the tonic, a hold or a rest |
| KeyTonic.FinalBarRewardsHoldsAndRests | music/music_theory_env.py:66-71 | on the step after the final bar's first note only a hold earns the reward; later in the final bar, exactly a hold or a rest |
| KeyTonic.TonicRewardImpliesInKey | music/music_theory_env.py:34-72 | with the default key and tonic, whatever the tonic rule rewards is also in key |
| Repetition.ScanStart | music/music_theory_env.py:87-95 | the backward scan stops right after the last element that is neither the action, a rest nor a hold, and every element it steps over is one of those |
| Repetition.RepeatPenalty | music/music_theory_env.py:97-107 | the penalty is never positive, and when it applies it is at most -1 |
| Repetition.RewardPenalizeRepeating | music/music_theory_env.py:82-107 | the source's backward loop with its three flags computes `RepeatPenalty`, so it is never positive |
| Repetition.CountAllEqual | music/music_theory_env.py:88-89 | a run of `n` copies of the action counts `n` repeats |
| Repetition.ImmediateRunPenalised | music/music_theory_env.py:97-101 | when the `k` elements before the action all equal it and the run starts there, the penalty is `-(k - NOTES_PER_BEAT/2)` beyond the tolerance and 0 within it |
| Repetition.RestBeforeRunRaisesTolerance | music/music_theory_env.py:87-105 | four repeats right before the action are penalised by -2 after another pitch, but a rest before them makes the scan continue, switch to the tolerance of 6 and give 0 |
| Repetition.SevenTonicsPenalty | music/music_theory_env.py:97-101 | seven tonics in a row: the seventh is penalised by -4 |
| Repetition.InterruptedRunTolerance | music/music_theory_env.py:102-105 | once the run contains a rest or a hold, the note is penalised exactly when it was counted more than 6 times |
| Motif.DistinctNotesBound | music/music_theory_env.py:165-166 | a bar holds at most as many distinct pitches as it has elements |
| Motif.DetectLastMotif | music/music_theory_env.py:160-167 | shorter than a bar gives no motif and 0; otherwise exactly the last `NOTES_PER_BAR` elements and their number of distinct pitches (holds and rests excluded), which is at most `NOTES_PER_BAR` |
| Motif.MotifCountZeroIffNoPitch | music/music_theory_env.py:165-166 | the count is 0 exactly when the trailing bar holds only holds and rests |
| Motif.MotifBonus | music/music_theory_env.py:144-145 | the motif bonus is at least 1 |
| Motif.RewardMotif | music/music_theory_env.py:142-146 | 0 exactly when the trailing bar has fewer than `unique` distinct pitches; otherwise at least 1, and below 2 when `unique >= 1` |
| Motif.RewardMotifMonotone | music/music_theory_env.py:143-145 | a trailing bar with more distinct pitches never earns less |
| Motif.RepeatedMotif | music/music_theory_env.py:201-217 | a repeat is reported exactly when the trailing bar has at least `unique` distinct pitches and occurs entirely before the last bar; a reported repeat carries the count and needs two full bars |
| Motif.RepeatedMotifWindow | music/music_theory_env.py:208-216 | a window of the prefix without the last bar is an occurrence of the trailing bar that ends before the last bar, and conversely |
| Motif.DetectRepeatedMotif | music/music_theory_env.py:191-217 | the nested search with its early exits returns what `RepeatedMotif` specifies |
| Motif.RewardRepeatedMotif | music/music_theory_env.py:185-189 | non-zero exactly when a repeat is found (with 3 distinct pitches) and the bar has at least `unique` distinct pitches; then at least 1 |
| Motif.RepeatedMotifEarnsMotifReward | music/music_theory_env.py:142-189 | a repeated motif earns exactly the plain motif reward, so never more than it |
| Motif.ShortCompositionNoMotif | music/music_theory_env.py:160-161 | before one full bar there is no motif and both motif rewards are 0 |
| Intervals.LastSoundingIndex | music/music_theory_env.py:241-248 | the index of the most recent pitch at or before `i`: everything after it up to `i` is a hold or a rest, and it is itself a hold or a rest only when all of them are |
| Intervals.SequentialInterval | music/music_theory_env.py:231-279 | returns the action and the most recent pitch before it with the interval code; what the code means is stated by the four lemmas below |
| Intervals.DetectSequentialInterval | music/music_theory_env.py:219-279 | the source's walk back past holds and rests, then classification, returns what `SequentialInterval` specifies |
| Intervals.IntervalZeroIff | music/music_theory_env.py:249-270 | the code is 0 exactly when no pitch precedes the action or the action repeats the previous pitch |
| Intervals.HoldAndRestBuckets | music/music_theory_env.py:257-268 | after a pitch, a hold or a rest gets its own bucket, the strong one exactly after a tonic or fifth-degree pitch |
| Intervals.PitchIntervalCodes | music/music_theory_env.py:270-279 | between two pitches the code is the in-key fifth iff a fifth from C or G, the in-key third iff a third from C or E, and the distance in half-steps otherwise |
| Intervals.LeapBetweenPitches | music/music_theory_env.py:249-279 | a leap code arises exactly between two pitches a fifth or more apart |
| Intervals.PreferredIntervalReward | music/music_theory_env.py:294-347 | every weight lies in [-1.0, 0.4]; interval 0 and the octave earn 0 |
| Intervals.PreferredIntervalTable | music/music_theory_env.py:298-347 | the weight of each bucket regardless of rule order: rest 0.07, hold 0.1, strong rest 0.15, strong hold 0.4, in-key fifth 0.1, in-key third 0.15, second 0.08, third 0.09, fourth 0.07, fifth 0.02, sixth 0.05, seventh -0.3, beyond an octave -1.0, and 0 for every whole interval from unison to the octave that matches no rule |
| Intervals.RewardPreferredIntervals | music/music_theory_env.py:281-347 | the reward lies in [-1.0, 0.4], is 0 when no pitch precedes the action and -1.0 for a pitch more than an octave away |
| Intervals.OctaveEarnsNothing | music/music_theory_env.py:316-347 | a pitch exactly an octave from the previous one matches no rule and earns 0 |
| Leap.LeapDirection | music/music_theory_env.py:378-383 | ascending exactly when the action is above the previous pitch, else descending |
| Leap.LeapUpBack | music/music_theory_env.py:365-426 | the outcome is 0, resolved or doubled, and a resolved outcome clears the pending leap |
| Leap.LeapStep | music/music_theory_env.py:367-426 | a step keeps the invariant: a direction is pending exactly when `leapt_from` is set, and `leapt_from` is a pitch |
| Leap.LeapReward | music/music_theory_env.py:439-445 | +1 exactly for a resolved leap, -1 exactly for a doubled one, 0 otherwise |
| Leap.TwoAscendingLeapsDoubled | music/music_theory_env.py:385-404 | two ascending leaps in a row: the first is recorded, the second is doubled and earns -1 |
| Leap.HoldOrRestOnlyCounts | music/music_theory_env.py:370-374 | a hold or a rest only advances the step count, with outcome 0 |
| Leap.DoubledLeapKeepsPending | music/music_theory_env.py:386-407 | doubled exactly for a leap in the pending direction; the pending direction and `leapt_from` stay, the count restarts |
| Leap.AbruptReversalGate | music/music_theory_env.py:386-407 | a leap against the pending direction clears it and resets the count; it is resolved exactly when more than `steps_between_leaps` steps had passed |
| Leap.FirstLeapRecorded | music/music_theory_env.py:402-407 | a leap with nothing pending records its direction and the previous pitch as `leapt_from` |
| Leap.GradualResolution | music/music_theory_env.py:408-424 | a non-leap pitch advances the count and resolves the pending leap, with no step gate, exactly when the melody is back at or past `leapt_from` |
| Leap.StepsRestartIffLeap | music/music_theory_env.py:370-410 | the step count becomes 0 exactly on a leap |
| Leap.RunLeaps | music/music_theory_env.py:365-426 | over any sequence of appended actions every state keeps the invariant |
| Leap.RunLeapsAppend | music/music_theory_env.py:365-426 | scoring two stretches of actions in turn is scoring their concatenation |
| Leap.EpisodeKeepsInvariant | music/music_theory_env.py:499-503 | from the reset state, whatever the melody, a direction is pending exactly when `leapt_from` is set |
| HighLow.Max | music/music_theory_env.py:455 | `max` returns an element that no element exceeds |
| HighLow.Min | music/music_theory_env.py:471 | `min` returns an element that no element undercuts |
| HighLow.Sounding | music/music_theory_env.py:468-469 | the filtered list holds exactly the pitches of the composition |
| HighLow.DetectHighUnique | music/music_theory_env.py:455-459 | true exactly when one element is above all others |
| HighLow.HighUniqueIff | music/music_theory_env.py:455-459 | the maximum occurs once exactly when one element is above all others |
| HighLow.DetectLowUnique | music/music_theory_env.py:468-474 | true exactly when one pitch is below all other pitches; false without pitches |
| HighLow.LowUniqueIff | music/music_theory_env.py:468-474 | the lowest pitch occurs once exactly when one pitch is below all others |
| HighLow.RewardHighLowUnique | music/music_theory_env.py:484-497 | 0, 1 or 2; 0 before the full length; 2 exactly when both extremes are unique; 0 exactly when neither is |
| HighLow.UniqueHighRepeatedLow | music/music_theory_env.py:484-497 | a full piece with a unique highest note and a repeated lowest pitch earns 1 |
| MusicTheory.RepetitionPenaltyDominates | music/music_theory_env.py:19-30 | whenever the repetition penalty applies, the step earns less than the base reward, whatever the other terms are |
| MusicTheory.MusicTheoryEnv.constructor | music/music_theory_env.py:499-503 | a new environment starts with no pending leap and a zero step count |
| MusicTheory.MusicTheoryEnv.Reset | music/music_theory_env.py:499-503 | resets the three leap fields to no direction, no `leapt_from`, zero steps |
| MusicTheory.MusicTheoryEnv.DetectLeapUpBack | music/music_theory_env.py:349-426 | updates the fields and returns the outcome exactly as `LeapStep` does, and keeps the invariant |
| MusicTheory.MusicTheoryEnv.RewardLeapUpBack | music/music_theory_env.py:428-445 | updates the fields as `LeapStep` does and returns +1, -1 or 0 for its outcome |
| MusicTheory.MusicTheoryEnv.Step | music/music_theory_env.py:16-32 | the step reward is the weighted sum of every heuristic (key - 1, 3 tonic, 100 repetition, 4 autocorrelation, 3 motif, 4 repeated motif, 5 interval, 5 leap, 3 high/low) and only the leap fields change |

## Left out

- `reward_penalize_autocorrelation` is not modelled: it is a floating-point correlation computed by `autocorrelate` from `music/util`, with NaN handling. `Step` takes its value as an input.
- The base environment (`MusicEnv`, with `super()._step` and `super()._reset`) is not part of this model. `Step` takes its reward as an input and assumes the action is already appended. `Reset` only resets the leap fields.
- `detect_sequential_interval` with an explicit `key`: `tonic_notes` and `c_notes` are then never bound, so a hold or a rest raises a NameError. Only the default key is modelled.
- `detect_sequential_interval` reads `composition[-2]`, so it requires at least two elements. `Step` therefore requires two as well. `MusicEnv` is not part of this model, so it is not known whether the first step of an episode has two elements.
- The `bar_length` parameters of `detect_last_motif` and `detect_repeated_motif` are fixed at `NOTES_PER_BAR`. Every caller uses that default.
- `tf.logging.debug` calls are diagnostics and are not modelled.
- `run.py` (session set-up, agent loading, MIDI output) is orchestration and is not modelled.
- The values of the `music/util` constants are assumed, as described above. The proofs rely only on `MusicUtil.ConstantAssumptions`, except the concrete scenario lemmas, which use the values.
- Python floats are modelled as exact reals; rounding in the reward sum is not modelled. `Step` states the exact real sum (for example 5 × 0.07 is 0.35, where Python computes 0.35000000000000003). No proved property depends on rounding: the equalities the source tests compare integers or the codes -1.5 and -2.5, which floats hold exactly.
