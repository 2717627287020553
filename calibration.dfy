/**
 * `choose_threshold`: the ascending scan over the candidate thresholds
 * 0.05, 0.06, ..., 0.99 for the first one whose false-alarm rate per hour of
 * negative audio meets the target. A threshold is kept as its whole number of
 * hundredths; scores and durations are reals.
 */
module Calibration {
  import opened FalseAlarms

  /** What the evaluator knows of one clip after running the model on it. */
  datatype ClipEval = ClipEval(path: seq<string>, durationSeconds: real, frameScores: seq<real>, maxScore: real)

  /** Python's `round` on a float: to the nearest integer, halves to the even neighbour. */
  function RoundHalfEven(x: real): (r: int)
    ensures -(1.0 / 2.0) <= r as real - x <= 1.0 / 2.0
    ensures (r as real - x == 1.0 / 2.0 || x - r as real == 1.0 / 2.0) ==> r % 2 == 0
  {
    var f := x.Floor;
    var frac := x - f as real;
    if frac < 1.0 / 2.0 then f
    else if frac > 1.0 / 2.0 then f + 1
    else if f % 2 == 0 then f
    else f + 1
  }

  /** `max(1, int(round(cooldown_sec * frame_hz)))` */
  function CooldownFrames(cooldownSec: real, frameHz: real): (r: int)
    ensures r >= 1
  {
    var n := RoundHalfEven(cooldownSec * frameHz);
    if n > 1 then n else 1
  }

  /** With the defaults (one second at 12.5 frames per second) 12.5 rounds down to 12. */
  lemma DefaultCooldownFrames()
    ensures CooldownFrames(1.0, 12.5) == 12
  {
    assert (12.5).Floor == 12;
  }

  /** The threshold `hundredths / 100`. */
  function Threshold(hundredths: nat): real
  {
    hundredths as real / 100.0
  }

  /** The alarms over all negative clips at one threshold. */
  function TotalEvents(negatives: seq<ClipEval>, threshold: real, cooldownFrames: int): nat
  {
    if negatives == [] then 0
    else
      var last := negatives[|negatives| - 1];
      TotalEvents(negatives[..|negatives| - 1], threshold, cooldownFrames) + Alarms(last.frameScores, threshold, cooldownFrames)
  }

  /** `sum(c.duration_s for c in negatives) / 3600.0` */
  function TotalSeconds(negatives: seq<ClipEval>): real
  {
    if negatives == [] then 0.0
    else TotalSeconds(negatives[..|negatives| - 1]) + negatives[|negatives| - 1].durationSeconds
  }

  function NegativeHours(negatives: seq<ClipEval>): real
  {
    TotalSeconds(negatives) / 3600.0
  }

  /** False alarms per hour; zero when there is no negative audio. */
  function Rate(events: nat, hours: real): (r: real)
    ensures hours <= 0.0 ==> r == 0.0
    ensures hours > 0.0 ==> r * hours == events as real
  {
    if hours > 0.0 then events as real / hours else 0.0
  }

  /** The threshold `hundredths / 100` meets the target rate. */
  ghost predicate Meets(negatives: seq<ClipEval>, hundredths: nat, target: real, cooldownFrames: int)
  {
    Rate(TotalEvents(negatives, Threshold(hundredths), cooldownFrames), NegativeHours(negatives)) <= target
  }

  /** The events summed clip by clip, each counted by the state machine. */
  method SumEvents(negatives: seq<ClipEval>, threshold: real, cooldownFrames: int) returns (events: nat)
    ensures events == TotalEvents(negatives, threshold, cooldownFrames)
  {
    events := 0;
    for i := 0 to |negatives|
      invariant events == TotalEvents(negatives[..i], threshold, cooldownFrames)
    {
      var alarms := CountFalseAlarms(negatives[i].frameScores, threshold, cooldownFrames);
      assert negatives[..i + 1][..i] == negatives[..i];
      events := events + alarms;
    }
    assert negatives[..|negatives|] == negatives;
  }

  /**
   * The scan: the least threshold from 0.05 up that meets the target, or 0.99
   * when none does, with its event count, its rate and the hours of negative
   * audio.
   */
  method ChooseThreshold(negatives: seq<ClipEval>, targetFarPerHour: real, cooldownSec: real, frameHz: real)
    returns (hundredths: nat, events: nat, farPerHour: real, negHours: real)
    ensures 5 <= hundredths <= 99
    ensures negHours == NegativeHours(negatives)
    ensures events == TotalEvents(negatives, Threshold(hundredths), CooldownFrames(cooldownSec, frameHz))
    ensures farPerHour == Rate(events, negHours)
    ensures forall t :: 5 <= t < hundredths ==> !Meets(negatives, t, targetFarPerHour, CooldownFrames(cooldownSec, frameHz))
    ensures Meets(negatives, hundredths, targetFarPerHour, CooldownFrames(cooldownSec, frameHz)) || hundredths == 99
  {
    negHours := NegativeHours(negatives);
    var cooldownFrames := CooldownFrames(cooldownSec, frameHz);
    var t := 5;
    while t < 100
      invariant 5 <= t <= 100
      invariant forall u :: 5 <= u < t ==> !Meets(negatives, u, targetFarPerHour, cooldownFrames)
    {
      events := SumEvents(negatives, Threshold(t), cooldownFrames);
      farPerHour := if negHours > 0.0 then events as real / negHours else 0.0;
      if farPerHour <= targetFarPerHour {
        hundredths := t;
        return;
      }
      t := t + 1;
    }
    hundredths := 99;
    events := SumEvents(negatives, Threshold(hundredths), cooldownFrames);
    farPerHour := if negHours > 0.0 then events as real / negHours else 0.0;
  }

  // ------------------------------------------------------------ properties

  /** A higher threshold never gives more events over the negatives. */
  lemma {:induction false} TotalEventsMonotone(negatives: seq<ClipEval>, low: real, high: real, cooldownFrames: int)
    requires low <= high
    ensures TotalEvents(negatives, high, cooldownFrames) <= TotalEvents(negatives, low, cooldownFrames)
  {
    if negatives != [] {
      TotalEventsMonotone(negatives[..|negatives| - 1], low, high, cooldownFrames);
      AlarmsMonotone(negatives[|negatives| - 1].frameScores, low, high, cooldownFrames);
    }
  }

  /** Every threshold above one that meets the target meets it too. */
  lemma MeetsUpward(negatives: seq<ClipEval>, low: nat, high: nat, target: real, cooldownFrames: int)
    requires low <= high && Meets(negatives, low, target, cooldownFrames)
    ensures Meets(negatives, high, target, cooldownFrames)
  {
    var hours := NegativeHours(negatives);
    var e1 := TotalEvents(negatives, Threshold(low), cooldownFrames);
    var e2 := TotalEvents(negatives, Threshold(high), cooldownFrames);
    TotalEventsMonotone(negatives, Threshold(low), Threshold(high), cooldownFrames);
    if hours > 0.0 {
      RateMonotone(e2, e1, hours);
    }
  }

  lemma RateMonotone(e1: nat, e2: nat, hours: real)
    requires e1 <= e2 && hours > 0.0
    ensures Rate(e1, hours) <= Rate(e2, hours)
  {
    var r1 := Rate(e1, hours);
    var r2 := Rate(e2, hours);
    assert (r2 - r1) * hours == (e2 - e1) as real;
  }

  /**
   * What the scan returns is exactly where the thresholds start to meet the
   * target: every threshold from it to 0.99 meets the target, none below it
   * does, unless it is the 0.99 fallback.
   */
  lemma ChosenThresholdSplits(negatives: seq<ClipEval>, hundredths: nat, target: real, cooldownFrames: int)
    requires 5 <= hundredths <= 99
    requires forall t :: 5 <= t < hundredths ==> !Meets(negatives, t, target, cooldownFrames)
    requires Meets(negatives, hundredths, target, cooldownFrames)
    ensures forall t :: 5 <= t <= 99 ==> (Meets(negatives, t, target, cooldownFrames) <==> hundredths <= t)
  {
    forall t | hundredths <= t <= 99 ensures Meets(negatives, t, target, cooldownFrames) {
      MeetsUpward(negatives, hundredths, t, target, cooldownFrames);
    }
  }
}
