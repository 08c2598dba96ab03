/** Run-length repetition penalty (`reward_penalize_repeating`). */
module Repetition {
  import opened MusicUtil

  /** An element the backward scan steps over: a repeat of the action, a rest or a hold. */
  predicate Scanned(x: int, action: int) {
    x == action || x == NOTE_OFF || x == NO_EVENT
  }

  /**
   * Where the backward scan from `end - 1` stops: every element in
   * `[s, end)` is scanned over and the one before `s`, if any, is not.
   */
  function ScanStart(c: seq<int>, action: int, end: nat): (s: nat)
    requires end <= |c|
    ensures s <= end
    ensures forall k :: s <= k < end ==> Scanned(c[k], action)
    ensures s > 0 ==> !Scanned(c[s - 1], action)
  {
    if end == 0 || !Scanned(c[end - 1], action) then end else ScanStart(c, action, end - 1)
  }

  /** The current action (the last element) is not scanned. */
  function ScanEnd(c: seq<int>): nat {
    if |c| > 0 then |c| - 1 else 0
  }

  /** The elements the backward scan visits before it stops. */
  function ScannedRun(c: seq<int>, action: int): seq<int> {
    c[ScanStart(c, action, ScanEnd(c))..ScanEnd(c)]
  }

  /** Half a beat of immediate repeats is tolerated. */
  const TOLERANCE: real := NOTES_PER_BEAT as real / 2.0

  /**
   * The penalty: the run is a pure run of note-ons unless it holds a rest or a
   * hold that is not the action itself; a pure run is penalised beyond half a
   * beat, an interrupted one beyond 6 repeats.
   */
  function RepeatPenalty(c: seq<int>, action: int): (r: real)
    ensures r <= 0.0
    ensures r != 0.0 ==> r <= -1.0
  {
    var run := ScannedRun(c, action);
    var numRepeated := Count(run, action);
    var containsBreaks := action != NOTE_OFF && NOTE_OFF in run;
    var containsHeldNotes := action != NO_EVENT && NO_EVENT in run;
    if !containsHeldNotes && !containsBreaks then
      (if numRepeated as real > TOLERANCE then -(numRepeated as real - TOLERANCE) else 0.0)
    else
      (if numRepeated > 6 then -(numRepeated - 6) as real else 0.0)
  }

  /** The backward loop of the source, proved to compute `RepeatPenalty`. */
  method RewardPenalizeRepeating(c: seq<int>, action: int) returns (r: real)
    ensures r == RepeatPenalty(c, action)
    ensures r <= 0.0
  {
    var numRepeated := 0;
    var containsHeldNotes := false;
    var containsBreaks := false;
    var end := ScanEnd(c);
    var i := end as int - 1;
    while i >= 0
      invariant -1 <= i < end
      invariant forall k :: i < k < end ==> Scanned(c[k], action)
      invariant numRepeated == Count(c[i + 1..end], action)
      invariant containsBreaks == (action != NOTE_OFF && NOTE_OFF in c[i + 1..end])
      invariant containsHeldNotes == (action != NO_EVENT && NO_EVENT in c[i + 1..end])
    {
      assert c[i..end] == [c[i]] + c[i + 1..end];
      if c[i] == action {
        numRepeated := numRepeated + 1;
      } else if c[i] == NOTE_OFF {
        containsBreaks := true;
      } else if c[i] == NO_EVENT {
        containsHeldNotes := true;
      } else {
        break;
      }
      i := i - 1;
    }
    ghost var s := ScanStart(c, action, end);
    assert s == i + 1;
    if !containsHeldNotes && !containsBreaks {
      if numRepeated as real > TOLERANCE {
        return -(numRepeated as real - TOLERANCE);
      }
    } else if containsHeldNotes || containsBreaks {
      if numRepeated > 6 {
        return -(numRepeated - 6) as real;
      }
    }
    return 0.0;
  }

  /** A sequence of `n` copies of `x` counts `n` occurrences of `x`. */
  lemma {:induction false} CountAllEqual(s: seq<int>, x: int)
    requires forall k :: 0 <= k < |s| ==> s[k] == x
    ensures Count(s, x) == |s|
  {
    if s != [] {
      CountAllEqual(s[1..], x);
    }
  }

  /**
   * An immediate run: the `k` elements before the action all equal it, and
   * the one before them (if any) is neither the action, a hold nor a rest.
   * The penalty is then `-(k - 2)` beyond the tolerance of half a beat.
   * The condition on the element before the run is needed: an earlier rest
   * or hold would extend the scan (`RestBeforeRunRaisesTolerance`).
   */
  lemma ImmediateRunPenalised(c: seq<int>, action: int, k: nat)
    requires k + 1 <= |c|
    requires forall j :: |c| - 1 - k <= j < |c| - 1 ==> c[j] == action
    requires |c| - 1 - k == 0 || !Scanned(c[|c| - 2 - k], action)
    ensures RepeatPenalty(c, action) == if k as real > TOLERANCE then -(k as real - TOLERANCE) else 0.0
  {
    var end := ScanEnd(c);
    var s := ScanStart(c, action, end);
    assert s == end - k;
    var run := ScannedRun(c, action);
    assert |run| == k;
    assert forall j :: 0 <= j < |run| ==> run[j] == action by {
      forall j | 0 <= j < |run| ensures run[j] == action {
        assert run[j] == c[s + j];
      }
    }
    CountAllEqual(run, action);
    if action != NOTE_OFF {
      assert NOTE_OFF !in run;
    }
    if action != NO_EVENT {
      assert NO_EVENT !in run;
    }
  }

  /**
   * The scan does not stop at the start of an immediate run: it walks on past
   * earlier rests and holds. Four repeats right before the action are
   * penalised after another pitch, but a single rest before them raises the
   * tolerance to 6 and the same run goes unpenalised.
   */
  lemma RestBeforeRunRaisesTolerance()
    ensures RepeatPenalty([2, 14, 14, 14, 14, 14], 14) == -2.0
    ensures RepeatPenalty([NOTE_OFF, 14, 14, 14, 14, 14], 14) == 0.0
  {
    ImmediateRunPenalised([2, 14, 14, 14, 14, 14], 14, 4);
    var c := [NOTE_OFF, 14, 14, 14, 14, 14];
    assert ScanStart(c, 14, 5) == 0;
    assert ScannedRun(c, 14) == c[..5];
    CountAllEqual(c[1..5], 14);
    assert c[..5] == [NOTE_OFF] + c[1..5];
  }

  /** Seven tonics in a row: the seventh is penalised by 6 - 2 = 4. */
  lemma SevenTonicsPenalty()
    ensures RepeatPenalty([14, 14, 14, 14, 14, 14, 14], 14) == -4.0
  {
    ImmediateRunPenalised([14, 14, 14, 14, 14, 14, 14], 14, 6);
  }

  /**
   * A note re-struck after holds or rests is tolerated up to 6 repeats:
   * if the scanned run contains a hold or a rest other than the action,
   * the penalty is zero unless more than 6 repeats were counted.
   */
  lemma InterruptedRunTolerance(c: seq<int>, action: int)
    requires !IsSpecial(action)
    requires NOTE_OFF in ScannedRun(c, action) || NO_EVENT in ScannedRun(c, action)
    ensures RepeatPenalty(c, action) < 0.0 <==> Count(ScannedRun(c, action), action) > 6
  {
  }
}
