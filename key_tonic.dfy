/** Key and tonic placement (`reward_key`, `reward_tonic`). */
module KeyTonic {
  import opened MusicUtil

  /** 1 when the action belongs to the key, else 0. */
  function RewardKey(action: int, key: seq<int>): (r: int)
    ensures r == 0 || r == 1
    ensures r == 1 <==> action in key
  {
    if action in key then 1 else 0
  }

  /**
   * Rewards the tonic on the first step of the piece and on the first step
   * of its final bar, a hold right after the final bar's first note, and a
   * hold or a rest on the remaining steps of the final bar. `beat` counts the
   * steps taken so far, so the action sits at position `beat - 1`.
   */
  function RewardTonic(beat: int, numNotes: int, action: int, tonicNote: int): (r: int)
    requires beat - 1 >= 0
    ensures r == 0 || r == 1
    ensures beat == 1 ==> (r == 1 <==> action == tonicNote)
    ensures beat - 1 == numNotes - NOTES_PER_BAR ==> (r == 1 <==> action == tonicNote)
    ensures beat - 1 < numNotes - NOTES_PER_BAR && beat != 1 ==> r == 0
    ensures r == 1 ==> action == tonicNote || IsSpecial(action)
  {
    var lastBeat := beat - 1;
    var firstNoteOfFinalBar := numNotes - NOTES_PER_BAR;
    if lastBeat == 0 || lastBeat == firstNoteOfFinalBar then
      (if action == tonicNote then 1 else 0)
    else if lastBeat == firstNoteOfFinalBar + 1 then
      (if action == NO_EVENT then 1 else 0)
    else if lastBeat > firstNoteOfFinalBar + 1 then
      (if action == NO_EVENT || action == NOTE_OFF then 1 else 0)
    else
      0
  }

  /**
   * Inside the final bar after its first step, only a hold can earn the
   * reward right after the tonic, and a hold or a rest later on.
   */
  lemma FinalBarRewardsHoldsAndRests(beat: int, numNotes: int, action: int, tonicNote: int)
    requires beat >= 2
    requires beat - 1 > numNotes - NOTES_PER_BAR
    ensures beat - 1 == numNotes - NOTES_PER_BAR + 1 ==>
      (RewardTonic(beat, numNotes, action, tonicNote) == 1 <==> action == NO_EVENT)
    ensures beat - 1 > numNotes - NOTES_PER_BAR + 1 ==>
      (RewardTonic(beat, numNotes, action, tonicNote) == 1 <==> IsSpecial(action))
  {
  }

  /** With the default key and tonic, every action the tonic rule rewards is also in key. */
  lemma TonicRewardImpliesInKey(beat: int, numNotes: int, action: int)
    requires beat >= 1
    ensures RewardTonic(beat, numNotes, action, C_MAJOR_TONIC) == 1 ==> RewardKey(action, C_MAJOR_KEY) == 1
  {
    ConstantAssumptions();
  }
}
