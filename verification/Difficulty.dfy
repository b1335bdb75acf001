/** The streak-based ticket difficulty controller (scripts/sybil_model.py). */
module Difficulty {

  const MIN_BITS: nat := 8
  const MAX_BITS: nat := 12

  datatype Metrics = Metrics(averageRoundX1000: int, participationBps: int)
  datatype State = State(bits: int, healthyStreak: nat, unhealthyStreak: nat)

  predicate Healthy(active: nat, capacity: nat, m: Metrics)
  {
    active > capacity && m.averageRoundX1000 <= 1250 && m.participationBps >= 9500
  }

  predicate Unhealthy(m: Metrics)
  {
    m.averageRoundX1000 >= 2500 && m.participationBps < 8500
  }

  /** adjust_ticket_difficulty_bits_v2 */
  method Adjust(previous: State, active: nat, capacity: nat, m: Metrics) returns (next: State)
    ensures next == Step(previous, active, capacity, m)
  {
    var out := if previous.bits < MIN_BITS then MIN_BITS else if previous.bits > MAX_BITS then MAX_BITS
      else previous.bits;
    var healthyStreak, unhealthyStreak := previous.healthyStreak, previous.unhealthyStreak;
    if Healthy(active, capacity, m) {
      healthyStreak, unhealthyStreak := healthyStreak + 1, 0;
      if healthyStreak >= 2 && out < MAX_BITS {
        out, healthyStreak := out + 1, 0;
      }
      return State(out, healthyStreak, unhealthyStreak);
    }
    if Unhealthy(m) {
      unhealthyStreak, healthyStreak := unhealthyStreak + 1, 0;
      if unhealthyStreak >= 3 && out > MIN_BITS {
        out, unhealthyStreak := out - 1, 0;
      }
      return State(out, healthyStreak, unhealthyStreak);
    }
    return State(out, 0, 0);
  }

  function Clamp(bits: int): (r: int)
    ensures MIN_BITS <= r <= MAX_BITS
  {
    if bits < MIN_BITS then MIN_BITS else if bits > MAX_BITS then MAX_BITS else bits
  }

  predicate Rises(s: State, active: nat, capacity: nat, m: Metrics)
  {
    Healthy(active, capacity, m) && s.healthyStreak >= 1 && Clamp(s.bits) < MAX_BITS
  }

  predicate Falls(s: State, m: Metrics)
  {
    Unhealthy(m) && s.unhealthyStreak >= 2 && Clamp(s.bits) > MIN_BITS
  }

  function Step(s: State, active: nat, capacity: nat, m: Metrics): State
  {
    if Healthy(active, capacity, m) then
      if Rises(s, active, capacity, m) then State(Clamp(s.bits) + 1, 0, 0)
      else State(Clamp(s.bits), s.healthyStreak + 1, 0)
    else if Unhealthy(m) then
      if Falls(s, m) then State(Clamp(s.bits) - 1, 0, 0)
      else State(Clamp(s.bits), 0, s.unhealthyStreak + 1)
    else State(Clamp(s.bits), 0, 0)
  }

  // ---------------------------------------------------------------- whole runs

  function CountHealthy(active: nat, capacity: nat, ms: seq<Metrics>): nat
  {
    if ms == [] then 0
    else CountHealthy(active, capacity, ms[..|ms| - 1]) + if Healthy(active, capacity, ms[|ms| - 1]) then 1 else 0
  }

  function CountUnhealthy(ms: seq<Metrics>): nat
  {
    if ms == [] then 0 else CountUnhealthy(ms[..|ms| - 1]) + if Unhealthy(ms[|ms| - 1]) then 1 else 0
  }

  function CountRises(bits: seq<int>): nat
  {
    if |bits| < 2 then 0
    else CountRises(bits[..|bits| - 1]) + if bits[|bits| - 1] > bits[|bits| - 2] then 1 else 0
  }

  function CountFalls(bits: seq<int>): nat
  {
    if |bits| < 2 then 0
    else CountFalls(bits[..|bits| - 1]) + if bits[|bits| - 1] < bits[|bits| - 2] then 1 else 0
  }

  /** Every difficulty in range, every move at most one step. */
  ghost predicate Smooth(bits: seq<int>)
  {
    && (forall i :: 0 <= i < |bits| ==> MIN_BITS <= bits[i] <= MAX_BITS)
    && (forall i, j :: 0 <= i && j == i + 1 && j < |bits| ==> -1 <= bits[j] - bits[i] <= 1)
  }

  /** Each rise is paid for by two healthy epochs, each fall by three unhealthy ones. */
  ghost predicate Paid(bits: seq<int>, active: nat, capacity: nat, ms: seq<Metrics>, last: State)
    requires bits != []
  {
    && (last.healthyStreak == 0 || last.unhealthyStreak == 0)
    && 2 * CountRises(bits) + last.healthyStreak <= CountHealthy(active, capacity, ms)
    && 3 * CountFalls(bits) + last.unhealthyStreak <= CountUnhealthy(ms)
    && last.bits == bits[|bits| - 1] == bits[0] + CountRises(bits) - CountFalls(bits)
  }

  lemma PaidStep(bits: seq<int>, active: nat, capacity: nat, ms: seq<Metrics>, last: State, m: Metrics)
    requires bits != [] && Paid(bits, active, capacity, ms, last) && MIN_BITS <= last.bits <= MAX_BITS
    ensures var next := Step(last, active, capacity, m);
      Paid(bits + [next.bits], active, capacity, ms + [m], next)
  {
    var next := Step(last, active, capacity, m);
    assert (bits + [next.bits])[..|bits|] == bits;
    assert (ms + [m])[..|ms|] == ms;
  }

  /** The controller state after a run of epochs; an out-of-range start acts as the nearest bound. */
  function After(initial: int, active: nat, capacity: nat, ms: seq<Metrics>): (s: State)
    ensures MIN_BITS <= s.bits <= MAX_BITS
  {
    if ms == [] then State(Clamp(initial), 0, 0)
    else Step(After(initial, active, capacity, ms[..|ms| - 1]), active, capacity, ms[|ms| - 1])
  }

  /** The difficulty before the run and after each epoch. */
  function Path(initial: int, active: nat, capacity: nat, ms: seq<Metrics>): (bits: seq<int>)
    ensures |bits| == |ms| + 1
  {
    (if ms == [] then []
      else Path(initial, active, capacity, ms[..|ms| - 1])) + [After(initial, active, capacity, ms).bits]
  }

  /** Over any run: in range, one step at a time, and every move paid for. */
  lemma {:induction false} RunPays(initial: int, active: nat, capacity: nat, ms: seq<Metrics>)
    ensures Smooth(Path(initial, active, capacity, ms))
    ensures Paid(Path(initial, active, capacity, ms), active, capacity, ms, After(initial, active, capacity, ms))
    decreases |ms|
  {
    if ms != [] {
      var front, m := ms[..|ms| - 1], ms[|ms| - 1];
      var path, s := Path(initial, active, capacity, front), After(initial, active, capacity, front);
      RunPays(initial, active, capacity, front);
      PaidStep(path, active, capacity, front, s, m);
      OneStepInRange(s, active, capacity, m);
      SmoothStep(path, Step(s, active, capacity, m).bits);
      assert ms == front + [m];
    }
  }

  lemma OneMoreEpoch(initial: int, active: nat, capacity: nat, ms: seq<Metrics>, k: nat, s: State)
    requires k < |ms| && s.(bits := Clamp(s.bits)) == After(initial, active, capacity, ms[..k])
    ensures var next := Step(s, active, capacity, ms[k]);
      && After(initial, active, capacity, ms[..k + 1]) == next
      && Path(initial, active, capacity, ms[..k + 1]) == Path(initial, active, capacity, ms[..k]) + [next.bits]
  {
    assert ms[..k + 1][..k] == ms[..k];
  }

  /** The adaptive epoch loop of simulate_epochs. */
  method Simulate(initial: int, active: nat, capacity: nat, ms: seq<Metrics>) returns (bits: seq<int>)
    ensures [Clamp(initial)] + bits == Path(initial, active, capacity, ms)
  {
    var last := State(initial, 0, 0);
    bits := [];
    for k := 0 to |ms|
      invariant [Clamp(initial)] + bits == Path(initial, active, capacity, ms[..k])
      invariant last.(bits := Clamp(last.bits)) == After(initial, active, capacity, ms[..k])
    {
      OneMoreEpoch(initial, active, capacity, ms, k, last);
      last := Adjust(last, active, capacity, ms[k]);
      bits := bits + [last.bits];
    }
    assert ms[..|ms|] == ms;
  }

  lemma SmoothStep(bits: seq<int>, next: int)
    requires Smooth(bits) && bits != [] && MIN_BITS <= next <= MAX_BITS && -1 <= next - bits[|bits| - 1] <= 1
    ensures Smooth(bits + [next])
  {
  }

  /** Whatever the start, one adjustment brings the difficulty in range. */
  lemma OneStepInRange(s: State, active: nat, capacity: nat, m: Metrics)
    ensures MIN_BITS <= Step(s, active, capacity, m).bits <= MAX_BITS
    ensures MIN_BITS <= s.bits <= MAX_BITS ==> -1 <= Step(s, active, capacity, m).bits - s.bits <= 1
  {
  }

  // ---------------------------------------------------------------- steady runs

  function Start(initial: int): int
  {
    if initial < 8 then 8 else if initial > 12 then 12 else initial
  }

  /** Every epoch is over capacity, with rounds averaging at most 1.25 and at least 95% participation. */
  ghost predicate AllWell(active: nat, capacity: nat, ms: seq<Metrics>)
  {
    forall m :: m in ms ==> active > capacity && m.averageRoundX1000 <= 1250 && m.participationBps >= 9500
  }

  /** Every epoch has rounds averaging at least 2.5 and less than 85% participation. */
  ghost predicate AllIll(ms: seq<Metrics>)
  {
    forall m :: m in ms ==> m.averageRoundX1000 >= 2500 && m.participationBps < 8500
  }

  ghost predicate NeitherWellNorIll(active: nat, capacity: nat, ms: seq<Metrics>)
  {
    forall m :: m in ms ==> !AllWell(active, capacity, [m]) && !AllIll([m])
  }

  lemma {:induction false} SteadyRise(initial: int, active: nat, capacity: nat, ms: seq<Metrics>)
    requires AllWell(active, capacity, ms)
    ensures
      var s, up := After(initial, active, capacity, ms), Start(initial) + |ms| / 2;
      if up < 12 then s.bits == up && s.healthyStreak == |ms| % 2
      else s.bits == 12 && s.healthyStreak == |ms| - 2 * (12 - Start(initial))
    decreases |ms|
  {
    if ms != [] {
      assert ms[|ms| - 1] in ms;
      SteadyRise(initial, active, capacity, ms[..|ms| - 1]);
    }
  }

  lemma {:induction false} SteadyFall(initial: int, active: nat, capacity: nat, ms: seq<Metrics>)
    requires AllIll(ms)
    ensures
      var s, down := After(initial, active, capacity, ms), Start(initial) - |ms| / 3;
      if down > 8 then s.bits == down && s.unhealthyStreak == |ms| % 3
      else s.bits == 8 && s.unhealthyStreak == |ms| - 3 * (Start(initial) - 8)
    decreases |ms|
  {
    if ms != [] {
      assert ms[|ms| - 1] in ms;
      SteadyFall(initial, active, capacity, ms[..|ms| - 1]);
    }
  }

  lemma {:induction false} SteadyHold(initial: int, active: nat, capacity: nat, ms: seq<Metrics>)
    requires NeitherWellNorIll(active, capacity, ms)
    ensures After(initial, active, capacity, ms) == State(Start(initial), 0, 0)
    decreases |ms|
  {
    if ms != [] {
      var m := ms[|ms| - 1];
      assert m in ms;
      assert Healthy(active, capacity, m) ==> AllWell(active, capacity, [m]);
      assert Unhealthy(m) ==> AllIll([m]);
      SteadyHold(initial, active, capacity, ms[..|ms| - 1]);
    }
  }

  /**
   Over a steady run the difficulty rises by one every second well epoch up to 12, falls by one every third ill one
   down to 8, and stays where it is on neither.
   */
  lemma SteadyRuns(initial: int, active: nat, capacity: nat, ms: seq<Metrics>)
    ensures
      var start, bits := Start(initial), After(initial, active, capacity, ms).bits;
      && (AllWell(active, capacity, ms) ==> bits == if start + |ms| / 2 < 12 then start + |ms| / 2 else 12)
      && (AllIll(ms) ==> bits == if start - |ms| / 3 > 8 then start - |ms| / 3 else 8)
      && (NeitherWellNorIll(active, capacity, ms) ==> bits == start)
  {
    if AllWell(active, capacity, ms) {
      SteadyRise(initial, active, capacity, ms);
    }
    if AllIll(ms) {
      SteadyFall(initial, active, capacity, ms);
    }
    if NeitherWellNorIll(active, capacity, ms) {
      SteadyHold(initial, active, capacity, ms);
    }
  }
}
