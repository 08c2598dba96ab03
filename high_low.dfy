/** Uniqueness of the highest and lowest notes (`reward_high_low_unique`). */
module HighLow {
  import opened MusicUtil

  /** Python's `max` on a non-empty list. */
  function Max(s: seq<int>): (m: int)
    requires |s| > 0
    ensures m in s
    ensures forall x :: x in s ==> x <= m
  {
    if |s| == 1 then s[0]
    else
      var rest := Max(s[1..]);
      assert forall x :: x in s ==> x == s[0] || x in s[1..];
      if s[0] >= rest then s[0] else rest
  }

  /** Python's `min` on a non-empty list. */
  function Min(s: seq<int>): (m: int)
    requires |s| > 0
    ensures m in s
    ensures forall x :: x in s ==> m <= x
  {
    if |s| == 1 then s[0]
    else
      var rest := Min(s[1..]);
      assert forall x :: x in s ==> x == s[0] || x in s[1..];
      if s[0] <= rest then s[0] else rest
  }

  /** The composition without holds and rests, in order. */
  function Sounding(c: seq<int>): (notes: seq<int>)
    ensures forall x :: x in notes <==> x in c && !IsSpecial(x)
  {
    if c == [] then []
    else
      assert forall x :: x in c ==> x == c[0] || x in c[1..];
      (if IsSpecial(c[0]) then [] else [c[0]]) + Sounding(c[1..])
  }

  /** `c[k]` is above every other element. */
  predicate UniqueHighAt(c: seq<int>, k: int) {
    0 <= k < |c| && forall j :: 0 <= j < |c| && j != k ==> c[j] < c[k]
  }

  /** `c[k]` is a pitch below every other pitch. */
  predicate UniqueLowAt(c: seq<int>, k: int) {
    0 <= k < |c| && !IsSpecial(c[k]) && forall j :: 0 <= j < |c| && j != k && !IsSpecial(c[j]) ==> c[k] < c[j]
  }

  /**
   * Whether the highest value of the composition occurs once. Holds and
   * rests take part with their codes, as in the source.
   */
  function DetectHighUnique(c: seq<int>): (r: bool)
    requires |c| > 0
    ensures r <==> exists k :: UniqueHighAt(c, k)
  {
    var maxNote := Max(c);
    HighUniqueIff(c, maxNote);
    Count(c, maxNote) == 1
  }

  /** The highest value occurs once exactly when one element is above all others. */
  lemma HighUniqueIff(c: seq<int>, maxNote: int)
    requires maxNote in c && forall x :: x in c ==> x <= maxNote
    ensures Count(c, maxNote) == 1 <==> exists k :: UniqueHighAt(c, k)
  {
    CountOne(c, maxNote);
    if Count(c, maxNote) == 1 {
      var k :| 0 <= k < |c| && c[k] == maxNote && forall j :: 0 <= j < |c| && j != k ==> c[j] != maxNote;
      forall j | 0 <= j < |c| && j != k ensures c[j] < c[k] {
        assert c[j] in c;
      }
      assert UniqueHighAt(c, k);
    }
    if k :| UniqueHighAt(c, k) {
      var i :| 0 <= i < |c| && c[i] == maxNote;
      assert c[k] in c;
      assert i == k;
    }
  }

  /** Whether the lowest pitch occurs once; false when there is no pitch at all. */
  function DetectLowUnique(c: seq<int>): (r: bool)
    ensures r <==> exists k :: UniqueLowAt(c, k)
  {
    var noSpecialEvents := Sounding(c);
    if |noSpecialEvents| > 0 then
      var minNote := Min(noSpecialEvents);
      LowUniqueIff(c, minNote);
      Count(c, minNote) == 1
    else
      assert forall k :: 0 <= k < |c| ==> c[k] in c;
      false
  }

  /** The lowest pitch occurs once exactly when one pitch is below all others. */
  lemma LowUniqueIff(c: seq<int>, minNote: int)
    requires minNote in c && !IsSpecial(minNote)
    requires forall x :: x in c && !IsSpecial(x) ==> minNote <= x
    ensures Count(c, minNote) == 1 <==> exists k :: UniqueLowAt(c, k)
  {
    CountOne(c, minNote);
    if Count(c, minNote) == 1 {
      var k :| 0 <= k < |c| && c[k] == minNote && forall j :: 0 <= j < |c| && j != k ==> c[j] != minNote;
      forall j | 0 <= j < |c| && j != k && !IsSpecial(c[j]) ensures c[k] < c[j] {
        assert c[j] in c;
      }
      assert UniqueLowAt(c, k);
    }
    if k :| UniqueLowAt(c, k) {
      var i :| 0 <= i < |c| && c[i] == minNote;
      assert c[k] in c;
      assert i == k;
    }
  }

  /**
   * Once the composition has its full length: one point for a unique
   * highest value and one for a unique lowest pitch; 0 before that.
   */
  function RewardHighLowUnique(c: seq<int>, numNotes: int): (r: real)
    requires |c| == numNotes ==> |c| > 0
    ensures r == 0.0 || r == 1.0 || r == 2.0
    ensures |c| != numNotes ==> r == 0.0
    ensures r == 2.0 <==> |c| == numNotes && DetectHighUnique(c) && DetectLowUnique(c)
    ensures r == 0.0 <==> |c| != numNotes || (!DetectHighUnique(c) && !DetectLowUnique(c))
  {
    if |c| != numNotes then 0.0
    else
      var reward := 0.0;
      var reward := if DetectHighUnique(c) then reward + 1.0 else reward;
      var reward := if DetectLowUnique(c) then reward + 1.0 else reward;
      reward
  }

  /**
   * A full composition whose highest value occurs once and whose lowest
   * pitch occurs twice earns one point.
   */
  lemma UniqueHighRepeatedLow(c: seq<int>, hi: nat, lo1: nat, lo2: nat)
    requires |c| > 0 && UniqueHighAt(c, hi) && lo1 < lo2 < |c|
    requires !IsSpecial(c[lo1]) && c[lo1] == c[lo2]
    requires forall j :: 0 <= j < |c| && !IsSpecial(c[j]) ==> c[lo1] <= c[j]
    ensures RewardHighLowUnique(c, |c|) == 1.0
  {
    forall k | 0 <= k < |c| ensures !UniqueLowAt(c, k) {
      if k == lo1 {
        assert lo2 != k && !IsSpecial(c[lo2]);
      } else if !IsSpecial(c[k]) {
        assert c[lo1] <= c[k];
      }
    }
  }
}
