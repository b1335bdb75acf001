/**
 The committee derivation mode and its fallback hysteresis, in the simulator's form
 (scripts/protocol_attack_sim.py) and the exporter's form (tools/checkpoint_fixture_export.cpp).
 */
module Hysteresis {
  import opened WideArith

  datatype Mode = Normal | Fallback
  datatype Reason = NoReason | Insufficient | Sticky

  /** fallback_recovery_threshold */
  function Threshold(min: nat): (t: nat)
    ensures t >= min
  {
    if min <= 3 then min else if min <= 7 then min + 1 else min + 2
  }

  /** derive_mode_reason */
  function DeriveMode(previous: Mode, count: nat, min: nat): (Mode, Reason)
  {
    if previous.Normal? then
      if count < min then (Fallback, Insufficient) else (Normal, NoReason)
    else if count >= Threshold(min) then (Normal, NoReason)
    else if count >= min then (Fallback, Sticky)
    else (Fallback, Insufficient)
  }

  /** The decision of the node, whose 64-bit threshold wraps for a huge minimum. */
  function NodeMode(previous: Mode, count: u64, min: u64): (Mode, Reason)
  {
    if count < min then (Fallback, Insufficient)
    else if previous.Fallback? && count < NodeThreshold(min) then (Fallback, Sticky)
    else (Normal, NoReason)
  }

  function NodeThreshold(min: u64): u64
  {
    if min <= 3 then min else Wrap(min as int + if min <= 7 then 1 else 2)
  }

  /** The two decisions differ exactly when the wrapped threshold of a huge minimum is met. */
  predicate ThresholdWraps(previous: Mode, count: nat, min: nat)
  {
    previous.Fallback? && min >= 0xFFFF_FFFF_FFFF_FFFE && count >= min
  }

  lemma ModesAgree(previous: Mode, count: u64, min: u64)
    ensures NodeMode(previous, count, min) == DeriveMode(previous, count as int, min as int) <==>
      !ThresholdWraps(previous, count as int, min as int)
  {
    assert min as int + 2 < W64 ==> NodeThreshold(min) as int == Threshold(min as int);
  }

  method DecideMode(previous: Mode, count: u64, min: u64) returns (mode: Mode, reason: Reason)
    ensures (mode, reason) == NodeMode(previous, count, min)
    ensures (mode, reason) == DeriveMode(previous, count as int, min as int) <==>
      !ThresholdWraps(previous, count as int, min as int)
  {
    mode, reason := Normal, NoReason;
    var threshold := if min <= 3 then min else if min <= 7 then min + 1 else Wrap(min as int + 2);
    if count < min {
      mode, reason := Fallback, Insufficient;
    } else if previous.Fallback? && count < threshold {
      mode, reason := Fallback, Sticky;
    }
    ModesAgree(previous, count, min);
  }

  // ---------------------------------------------------------------- whole runs

  function RunMode(start: Mode, counts: seq<nat>, min: nat): Mode
  {
    if counts == [] then start
    else DeriveMode(RunMode(start, counts[..|counts| - 1], min), counts[|counts| - 1], min).0
  }

  /** The last epoch below the minimum, or -1. */
  function LastBelow(counts: seq<nat>, min: nat): (j: int)
    ensures -1 <= j < |counts|
    ensures j >= 0 ==> counts[j] < min
    ensures forall i :: j < i < |counts| ==> counts[i] >= min
  {
    if counts == [] then -1
    else if counts[|counts| - 1] < min then |counts| - 1
    else LastBelow(counts[..|counts| - 1], min)
  }

  /** Some epoch after the last one below the minimum exceeded it by 0, 1 or 2, for minima from 0, 4 and 8 on. */
  ghost predicate Recovered(counts: seq<nat>, min: nat)
  {
    var margin := (if min >= 4 then 1 else 0) + if min >= 8 then 1 else 0;
    exists i :: LastBelow(counts, min) < i < |counts| && counts[i] >= min + margin
  }

  /**
   The mode after a run is Fallback exactly when something put it there and no epoch after the last
   below-minimum one (or the start) reached the recovery threshold.
   */
  lemma {:induction false} FallbackExactly(start: Mode, counts: seq<nat>, min: nat)
    ensures RunMode(start, counts, min).Fallback? <==>
      (start.Fallback? || LastBelow(counts, min) >= 0) && !Recovered(counts, min)
    decreases |counts|
  {
    if counts != [] {
      var front, last := counts[..|counts| - 1], counts[|counts| - 1];
      FallbackExactly(start, front, min);
      if last >= min {
        assert LastBelow(counts, min) == LastBelow(front, min);
        RecoveredStep(counts, min);
      }
    }
  }

  lemma RecoveredStep(counts: seq<nat>, min: nat)
    requires counts != [] && counts[|counts| - 1] >= min
    ensures Recovered(counts, min) <==> Recovered(counts[..|counts| - 1], min) || counts[|counts| - 1] >= Threshold(min)
  {
    var front, n := counts[..|counts| - 1], |counts| - 1;
    assert LastBelow(counts, min) == LastBelow(front, min);
    if Recovered(front, min) {
      var i :| LastBelow(front, min) < i < |front| && front[i] >= Threshold(min);
      assert counts[i] >= Threshold(min);
    }
    if Recovered(counts, min) && counts[n] < Threshold(min) {
      var i :| LastBelow(counts, min) < i < |counts| && counts[i] >= Threshold(min);
      assert front[i] >= Threshold(min);
    }
  }

  /** What epoch k of a run from Fallback must report. */
  ghost predicate Reports(counts: seq<nat>, min: nat, k: nat, step: (Mode, Reason))
    requires k < |counts|
  {
    && (step.0.Fallback? <==> !Recovered(counts[..k + 1], min))
    && (step.1.Sticky? <==> step.0.Fallback? && counts[k] >= min)
    && (step.1.Insufficient? <==> counts[k] < min)
  }

  lemma StepReports(counts: seq<nat>, min: nat, k: nat)
    requires k < |counts|
    ensures Reports(counts, min, k, DeriveMode(RunMode(Fallback, counts[..k], min), counts[k], min))
    ensures RunMode(Fallback, counts[..k + 1], min) == DeriveMode(RunMode(Fallback, counts[..k], min), counts[k], min).0
  {
    assert counts[..k + 1][..k] == counts[..k];
    FallbackExactly(Fallback, counts[..k + 1], min);
  }

  /** The epoch loop of run_scenario, which starts in Fallback. */
  method RunEpochs(counts: seq<nat>, min: nat) returns (modes: seq<(Mode, Reason)>)
    ensures |modes| == |counts|
    ensures forall k :: 0 <= k < |counts| ==> Reports(counts, min, k, modes[k])
  {
    modes := [];
    var previous := Fallback;
    for k := 0 to |counts|
      invariant |modes| == k && previous == RunMode(Fallback, counts[..k], min)
      invariant forall i :: 0 <= i < k ==> Reports(counts, min, i, modes[i])
    {
      var step := DeriveMode(previous, counts[k], min);
      StepReports(counts, min, k);
      modes := modes + [step];
      previous := step.0;
    }
  }
}
