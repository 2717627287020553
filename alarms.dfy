/**
 * `count_false_alarms`: a detector fires on a frame whose score reaches the
 * threshold, then stays deaf for `cooldown_frames` frames. Scores are reals
 * (the source's float32 values, idealised).
 */
module FalseAlarms {

  /** The cooldown the state machine actually keeps: a negative setting acts as none. */
  function Cooldown(cooldownFrames: int): nat
  {
    if cooldownFrames > 0 then cooldownFrames else 0
  }

  /**
   * The frames the detector fires on, scanning from frame `i` with `wait`
   * deaf frames still to go: the earliest-first greedy choice.
   */
  function PicksFrom(scores: seq<real>, threshold: real, cooldown: nat, i: nat, wait: nat): seq<nat>
    requires i <= |scores|
    decreases |scores| - i
  {
    if i == |scores| then []
    else if wait > 0 then PicksFrom(scores, threshold, cooldown, i + 1, wait - 1)
    else if scores[i] >= threshold then [i] + PicksFrom(scores, threshold, cooldown, i + 1, cooldown)
    else PicksFrom(scores, threshold, cooldown, i + 1, 0)
  }

  /** The frames the detector fires on over a whole clip. */
  function Picks(scores: seq<real>, threshold: real, cooldownFrames: int): seq<nat>
  {
    PicksFrom(scores, threshold, Cooldown(cooldownFrames), 0, 0)
  }

  /** The alarm count over one clip. */
  function Alarms(scores: seq<real>, threshold: real, cooldownFrames: int): nat
  {
    |Picks(scores, threshold, cooldownFrames)|
  }

  /** The state machine: one pass, counting alarms and the frames left to skip. */
  method CountFalseAlarms(scores: seq<real>, threshold: real, cooldownFrames: int) returns (alarms: nat)
    ensures alarms == Alarms(scores, threshold, cooldownFrames)
  {
    alarms := 0;
    var cooldown: int := 0;
    var i := 0;
    while i < |scores|
      invariant 0 <= i <= |scores|
      invariant Cooldown(cooldown) <= Cooldown(cooldownFrames)
      invariant alarms + |PicksFrom(scores, threshold, Cooldown(cooldownFrames), i, Cooldown(cooldown))| == Alarms(scores, threshold, cooldownFrames)
    {
      var score := scores[i];
      i := i + 1;
      if cooldown > 0 {
        cooldown := cooldown - 1;
        continue;
      }
      if score >= threshold {
        alarms := alarms + 1;
        cooldown := cooldownFrames;
      }
    }
  }

  // ------------------------------------------------------------ properties

  /** The frames from `i` on whose score reaches the threshold. */
  function HitsFrom(scores: seq<real>, threshold: real, i: nat): nat
    requires i <= |scores|
    decreases |scores| - i
  {
    if i == |scores| then 0
    else (if scores[i] >= threshold then 1 else 0) + HitsFrom(scores, threshold, i + 1)
  }

  /**
   * `idx` is a set of alarm frames a detector with this cooldown could raise
   * from frame `from` on: increasing, more than `cooldown` frames apart, each
   * one reaching the threshold.
   */
  ghost predicate Spaced(idx: seq<nat>, scores: seq<real>, threshold: real, cooldown: nat, from: nat)
  {
    && (|idx| > 0 ==> from <= idx[0])
    && (forall k :: 0 <= k < |idx| ==> idx[k] < |scores| && scores[idx[k]] >= threshold)
    && (forall k :: 0 <= k < |idx| - 1 ==> idx[k] + cooldown < idx[k + 1])
  }

  /** The greedy picks are such a set. */
  lemma {:induction false} PicksAreSpaced(scores: seq<real>, threshold: real, cooldown: nat, i: nat, wait: nat)
    requires i <= |scores|
    ensures Spaced(PicksFrom(scores, threshold, cooldown, i, wait), scores, threshold, cooldown, i + wait)
    decreases |scores| - i
  {
    if i < |scores| {
      if wait > 0 {
        PicksAreSpaced(scores, threshold, cooldown, i + 1, wait - 1);
      } else if scores[i] >= threshold {
        PicksAreSpaced(scores, threshold, cooldown, i + 1, cooldown);
      } else {
        PicksAreSpaced(scores, threshold, cooldown, i + 1, 0);
      }
    }
  }

  /** Earliest-first picking is optimal: no spaced set of alarm frames is larger. */
  lemma {:induction false} GreedyIsOptimal(scores: seq<real>, threshold: real, cooldown: nat, i: nat, wait: nat, other: seq<nat>)
    requires i <= |scores|
    requires Spaced(other, scores, threshold, cooldown, i + wait)
    ensures |other| <= |PicksFrom(scores, threshold, cooldown, i, wait)|
    decreases |scores| - i
  {
    if i == |scores| {
    } else if wait > 0 {
      GreedyIsOptimal(scores, threshold, cooldown, i + 1, wait - 1, other);
    } else if other == [] {
    } else if scores[i] >= threshold {
      var rest := other[1..];
      assert Spaced(rest, scores, threshold, cooldown, i + 1 + cooldown) by {
        assert forall k :: 0 <= k < |rest| ==> rest[k] == other[k + 1];
        if rest != [] {
          assert other[0] + cooldown < other[1];
        }
      }
      GreedyIsOptimal(scores, threshold, cooldown, i + 1, cooldown, rest);
    } else {
      assert other[0] != i;
      GreedyIsOptimal(scores, threshold, cooldown, i + 1, 0, other);
    }
  }

  /** Raising the threshold never raises the alarm count. */
  lemma AlarmsMonotone(scores: seq<real>, low: real, high: real, cooldownFrames: int)
    requires low <= high
    ensures Alarms(scores, high, cooldownFrames) <= Alarms(scores, low, cooldownFrames)
  {
    var cooldown := Cooldown(cooldownFrames);
    PicksAreSpaced(scores, high, cooldown, 0, 0);
    GreedyIsOptimal(scores, low, cooldown, 0, 0, Picks(scores, high, cooldownFrames));
  }

  /** Never more alarms than frames reaching the threshold; exactly that many with no cooldown. */
  lemma {:induction false} AlarmsAtMostHits(scores: seq<real>, threshold: real, cooldown: nat, i: nat, wait: nat)
    requires i <= |scores|
    ensures |PicksFrom(scores, threshold, cooldown, i, wait)| <= HitsFrom(scores, threshold, i)
    ensures cooldown == 0 && wait == 0 ==> |PicksFrom(scores, threshold, cooldown, i, wait)| == HitsFrom(scores, threshold, i)
    decreases |scores| - i
  {
    if i < |scores| {
      if wait > 0 {
        AlarmsAtMostHits(scores, threshold, cooldown, i + 1, wait - 1);
      } else if scores[i] >= threshold {
        AlarmsAtMostHits(scores, threshold, cooldown, i + 1, cooldown);
      } else {
        AlarmsAtMostHits(scores, threshold, cooldown, i + 1, 0);
      }
    }
  }

  /** A ready detector raises at least one alarm exactly when some frame reaches the threshold. */
  lemma {:induction false} AlarmsPositive(scores: seq<real>, threshold: real, cooldown: nat, i: nat)
    requires i <= |scores|
    ensures |PicksFrom(scores, threshold, cooldown, i, 0)| > 0 <==> HitsFrom(scores, threshold, i) > 0
    decreases |scores| - i
  {
    AlarmsAtMostHits(scores, threshold, cooldown, i, 0);
    if i < |scores| && scores[i] < threshold {
      AlarmsPositive(scores, threshold, cooldown, i + 1);
    }
  }

  /**
   * Over a whole clip: the count is at most the number of frames reaching the
   * threshold, zero exactly when there is none, equal to it when the cooldown
   * is zero or negative, and any two counted frames are more than the
   * cooldown apart.
   */
  lemma AlarmsBounds(scores: seq<real>, threshold: real, cooldownFrames: int)
    ensures Alarms(scores, threshold, cooldownFrames) <= HitsFrom(scores, threshold, 0)
    ensures Alarms(scores, threshold, cooldownFrames) == 0 <==> HitsFrom(scores, threshold, 0) == 0
    ensures cooldownFrames <= 0 ==> Alarms(scores, threshold, cooldownFrames) == HitsFrom(scores, threshold, 0)
    ensures Spaced(Picks(scores, threshold, cooldownFrames), scores, threshold, Cooldown(cooldownFrames), 0)
  {
    AlarmsAtMostHits(scores, threshold, Cooldown(cooldownFrames), 0, 0);
    AlarmsPositive(scores, threshold, Cooldown(cooldownFrames), 0);
    PicksAreSpaced(scores, threshold, Cooldown(cooldownFrames), 0, 0);
  }
}
