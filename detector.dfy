/** The change detector run on every polling tick (content.js, checkForNewResponses).
    The page is abstracted to the number of read-aloud buttons it shows; the detector
    compares that number with the stored baseline and decides whether a new assistant
    message has appeared. */
module Detector {

  /** What one tick leaves behind: the new baseline and whether an actuation
      (a deferred call of the actuator) was scheduled. */
  datatype Detection = Detection(baseline: nat, schedule: bool)

  /** The three consecutive `if`s of the detector, in source order. Each one sees the
      baseline as the previous one left it. Their net effect is simple: the baseline
      always ends equal to the current count, and an actuation is scheduled exactly
      when the count grew by one. */
  function Detect(baseline: nat, current: nat): (d: Detection)
    ensures d.baseline == current
    ensures d.schedule <==> current == baseline + 1
  {
    // a shrink (conversation cleared) resynchronises
    var afterShrink := if current < baseline then current else baseline;
    // a jump of more than one (batch insert, missed ticks) resynchronises
    var afterJump := if current > afterShrink + 1 then current else afterShrink;
    // what is still above the baseline is exactly one new message
    if current > afterJump then Detection(current, true) else Detection(afterJump, false)
  }

  /** The outcome of a run of ticks: the final baseline and, tick by tick, whether
      that tick scheduled an actuation. */
  datatype TickTrace = TickTrace(baseline: nat, scheduled: seq<bool>)

  /** Runs the detector over the button counts observed on consecutive ticks. */
  function RunTicks(baseline: nat, counts: seq<nat>): (t: TickTrace)
    ensures |t.scheduled| == |counts|
    decreases |counts|
  {
    if counts == [] then TickTrace(baseline, [])
    else
      var d := Detect(baseline, counts[0]);
      var rest := RunTicks(d.baseline, counts[1..]);
      TickTrace(rest.baseline, [d.schedule] + rest.scheduled)
  }

  /** The count the detector compares tick `i` against: the starting baseline for the
      first tick, the count seen on the tick before for every later one. */
  function PreviousCount(baseline: nat, counts: seq<nat>, i: nat): nat
    requires i < |counts|
  {
    if i == 0 then baseline else counts[i - 1]
  }

  /** After any non-empty run of ticks the baseline is the last count observed,
      whatever the starting baseline was. */
  lemma {:induction false} RunTicksEndsOnLastCount(baseline: nat, counts: seq<nat>)
    requires counts != []
    ensures RunTicks(baseline, counts).baseline == counts[|counts| - 1]
    decreases |counts|
  {
    if |counts| > 1 {
      RunTicksEndsOnLastCount(counts[0], counts[1..]);
    }
  }

  /** Over any run of ticks, tick `i` schedules an actuation if and only if its count
      is exactly one more than the count before it; shrinks, jumps and unchanged
      counts schedule nothing. */
  lemma {:induction false} RunTicksSchedulesOnGrowthByOne(baseline: nat, counts: seq<nat>)
    ensures forall i :: 0 <= i < |counts| ==>
      (RunTicks(baseline, counts).scheduled[i] <==> counts[i] == PreviousCount(baseline, counts, i) + 1)
    decreases |counts|
  {
    if counts != [] {
      var t := RunTicks(baseline, counts);
      var rest := counts[1..];
      RunTicksSchedulesOnGrowthByOne(counts[0], rest);
      forall i | 0 <= i < |counts|
        ensures t.scheduled[i] <==> counts[i] == PreviousCount(baseline, counts, i) + 1
      {
        if i > 0 {
          assert t.scheduled[i] == RunTicks(counts[0], rest).scheduled[i - 1];
          assert PreviousCount(counts[0], rest, i - 1) == PreviousCount(baseline, counts, i);
        }
      }
    }
  }

  /** Corollary of `RunTicksSchedulesOnGrowthByOne` for steady growth: counts that grow
      by exactly one on every tick, starting one above the baseline, schedule an
      actuation on every tick. */
  lemma SteadyGrowthSchedulesEveryTick(baseline: nat, counts: seq<nat>)
    requires forall i :: 0 <= i < |counts| ==> counts[i] == baseline + i + 1
    ensures forall i :: 0 <= i < |counts| ==> RunTicks(baseline, counts).scheduled[i]
  {
    RunTicksSchedulesOnGrowthByOne(baseline, counts);
  }
}
