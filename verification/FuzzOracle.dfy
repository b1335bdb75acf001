/**
 The vote oracle of the persistence fuzzer (fuzz/fuzz_consensus_persistence.cpp): it remembers every own
 vote and every accepted proof of lock across restarts and reports the first broken rule.
 */
module FuzzOracle {
  import opened Options
  import opened Blocks

  datatype Violation =
    | SignedAfterFailStop | FinalityBroken | PrecommitNotDurable | PrevoteNotDurable
    | DoublePrecommit | DoublePrevote | LockRuleBroken

  type Slot = (nat, nat)

  datatype Memory = Memory(
    sentPc: map<Slot, Block>, seenPv: map<Slot, Block>, pol: map<(nat, nat, Block), int>,
    finalized: map<nat, Block>, maxHeight: nat, maxRound: nat)

  /** The node as an observation sees it, at its open height. */
  datatype View = View(
    late: nat, height: nat, tip: Block, lock: Option<(Block, nat)>,
    precommits: set<(nat, Block)>, prevotes: set<(nat, Block)>, ids: seq<Block>, currentRound: nat)

  const ROUNDS: nat := 6

  // ---------------------------------------------------------------- the rules as functions

  /** The round of the latest own precommit at the height, at or below r. */
  function Latest(pc: map<Slot, Block>, h: nat, r: nat): (l: Option<nat>)
    ensures l.Some? ==> l.value <= r && (h, l.value) in pc
    ensures forall q :: 0 <= q <= r && (h, q) in pc ==> l.Some? && q <= l.value
  {
    if (h, r) in pc then Some(r) else if r == 0 then None else Latest(pc, h, r - 1)
  }

  function PolAt(pol: map<(nat, nat, Block), int>, h: nat, r: nat, b: Block): int
  {
    if (h, r, b) in pol then pol[(h, r, b)] else -1
  }

  predicate LockOk(m: Memory, h: nat, r: nat, b: Block)
  {
    var l := Latest(m.sentPc, h, r);
    l.Some? ==> m.sentPc[(h, l.value)] == b || PolAt(m.pol, h, r, b) >= l.value
  }

  function Mark(m: Memory, h: nat, r: nat, b: Block): (Option<Violation>, Memory)
  {
    if (h, r) !in m.sentPc then (None, m.(sentPc := m.sentPc[(h, r) := b]))
    else if m.sentPc[(h, r)] != b then (Some(DoublePrecommit), m)
    else (None, m)
  }

  function See(m: Memory, h: nat, r: nat, b: Block): (Option<Violation>, Memory)
  {
    var m' := m.(maxRound := if m.maxRound < r then r else m.maxRound);
    if (h, r) in m.seenPv then (if m.seenPv[(h, r)] != b then Some(DoublePrevote) else None, m')
    else (if LockOk(m, h, r, b) then None else Some(LockRuleBroken), m'.(seenPv := m.seenPv[(h, r) := b]))
  }

  function Pol(m: Memory, h: nat, r: nat, b: Block, pol: Option<nat>): Memory
  {
    var round := if pol.Some? then pol.value else -1;
    m.(pol := m.pol[(h, r, b) := if PolAt(m.pol, h, r, b) < round then round else PolAt(m.pol, h, r, b)])
  }

  /** One slot of an observation: the precommit first, then the prevote. */
  function SeeSlot(m: Memory, v: View, r: nat, b: Block): (Option<Violation>, Memory)
  {
    var h := v.height + 1;
    var (bad, m1) := if (r, b) in v.precommits then Mark(m, h, r, b) else (None, m);
    if bad.Some? then (bad, m1)
    else if (r, b) in v.prevotes then See(m1, h, r, b) else (None, m1)
  }

  function SeeIds(m: Memory, v: View, r: nat, i: nat): (Option<Violation>, Memory)
    requires i <= |v.ids|
    decreases |v.ids| - i
  {
    if i == |v.ids| then (None, m) else
    var (bad, m1) := SeeSlot(m, v, r, v.ids[i]);
    if bad.Some? then (bad, m1) else SeeIds(m1, v, r, i + 1)
  }

  function SeeRounds(m: Memory, v: View, r: nat, hi: nat): (Option<Violation>, Memory)
    requires r <= hi + 1
    decreases hi + 1 - r
  {
    if r == hi + 1 then (None, m) else
    var (bad, m1) := SeeIds(m, v, r, 0);
    if bad.Some? then (bad, m1) else SeeRounds(m1, v, r + 1, hi)
  }

  /** A reported height never rolls back and never changes its transition. */
  function Finalized(m: Memory, v: View): (Option<Violation>, Memory)
  {
    if v.height < m.maxHeight then (Some(FinalityBroken), m)
    else if v.height > 0 && v.height in m.finalized && m.finalized[v.height] != v.tip then (Some(FinalityBroken), m)
    else
      var seen := if v.height > 0 then m.finalized[v.height := v.tip] else m.finalized;
      (None, m.(finalized := seen, maxHeight := v.height))
  }

  predicate Covered(v: View, r: nat, b: Block)
  {
    v.lock.Some? && (v.lock.value.1 > r || (v.lock.value.1 == r && v.lock.value.0 == b))
  }

  /** After a restart every vote seen at the open height must still be on record. */
  function Durable(m: Memory, v: View): Option<Violation>
  {
    if exists s :: s in m.sentPc && s.0 == v.height + 1 && !Covered(v, s.1, m.sentPc[s]) then Some(PrecommitNotDurable)
    else if exists s :: s in m.seenPv && s.0 == v.height + 1 && (s.1, m.seenPv[s]) !in v.prevotes
    then Some(PrevoteNotDurable)
    else None
  }

  /** observe() */
  function ObserveAll(m: Memory, v: View, afterRestart: bool): (Option<Violation>, Memory)
  {
    if v.late > 0 then (Some(SignedAfterFailStop), m) else
    var (bad, m1) := Finalized(m, v);
    if bad.Some? then (bad, m1) else
    var lost := if afterRestart then Durable(m1, v) else None;
    if lost.Some? then (lost, m1)
    else SeeRounds(m1, v, 0, (if v.currentRound > m1.maxRound then v.currentRound else m1.maxRound) + ROUNDS)
  }

  // ---------------------------------------------------------------- the oracle

  class Oracle {
    var sentPc: map<Slot, Block>
    var seenPv: map<Slot, Block>
    var pol: map<(nat, nat, Block), int>
    var finalized: map<nat, Block>
    var maxHeight: nat
    var maxRound: nat
    var afterRestart: bool

    function State(): Memory
      reads this
    {
      Memory(sentPc, seenPv, pol, finalized, maxHeight, maxRound)
    }

    constructor ()
      ensures State() == Memory(map[], map[], map[], map[], 0, 0) && !afterRestart
    {
      sentPc, seenPv, pol, finalized, maxHeight, maxRound, afterRestart := map[], map[], map[], map[], 0, 0, false;
    }

    method RecordPol(h: nat, r: nat, b: Block, round: Option<nat>)
      modifies this`pol
      ensures State() == Pol(old(State()), h, r, b, round)
    {
      var best := if (h, r, b) in pol then pol[(h, r, b)] else -1;
      var carried := if round.Some? then round.value else -1;
      pol := pol[(h, r, b) := if best < carried then carried else best];
    }

    method MarkPrecommit(h: nat, r: nat, b: Block) returns (v: Option<Violation>)
      modifies this`sentPc
      ensures (v, State()) == Mark(old(State()), h, r, b)
    {
      if (h, r) !in sentPc {
        sentPc := sentPc[(h, r) := b];
        return None;
      }
      return if sentPc[(h, r)] != b then Some(DoublePrecommit) else None;
    }

    /** The scan of all own precommits for the latest at or below r. */
    method LatestPrecommit(h: nat, r: nat) returns (l: Option<nat>)
      ensures l == Latest(sentPc, h, r)
    {
      var rest := sentPc.Keys;
      l := None;
      while rest != {}
        invariant rest <= sentPc.Keys
        invariant l.Some? ==> l.value <= r && (h, l.value) in sentPc
        invariant forall q :: 0 <= q <= r && (h, q) in sentPc && (h, q) !in rest ==> l.Some? && q <= l.value
        decreases |rest|
      {
        var s: Slot :| s in rest;
        rest := rest - {s};
        if s.0 == h && s.1 <= r && (l == None || s.1 > l.value) {
          l := Some(s.1);
        }
      }
    }

    method SeePrevote(h: nat, r: nat, b: Block) returns (v: Option<Violation>)
      modifies this`seenPv, this`maxRound
      ensures (v, State()) == See(old(State()), h, r, b)
    {
      maxRound := if maxRound < r then r else maxRound;
      if (h, r) in seenPv {
        return if seenPv[(h, r)] != b then Some(DoublePrevote) else None;
      }
      seenPv := seenPv[(h, r) := b];
      var latest := LatestPrecommit(h, r);
      if latest.Some? && sentPc[(h, latest.value)] != b {
        var carried := if (h, r, b) in pol then pol[(h, r, b)] else -1;
        if carried < latest.value {
          return Some(LockRuleBroken);
        }
      }
      return None;
    }

    method ObserveSlot(view: View, r: nat, b: Block) returns (v: Option<Violation>)
      modifies this`sentPc, this`seenPv, this`maxRound
      ensures (v, State()) == SeeSlot(old(State()), view, r, b)
    {
      v := None;
      if (r, b) in view.precommits {
        v := MarkPrecommit(view.height + 1, r, b);
        if v.Some? {
          return;
        }
      }
      if (r, b) in view.prevotes {
        v := SeePrevote(view.height + 1, r, b);
      }
    }

    method ObserveIds(view: View, r: nat) returns (v: Option<Violation>)
      modifies this`sentPc, this`seenPv, this`maxRound
      ensures (v, State()) == SeeIds(old(State()), view, r, 0)
    {
      for i := 0 to |view.ids|
        invariant SeeIds(State(), view, r, i) == SeeIds(old(State()), view, r, 0)
      {
        v := ObserveSlot(view, r, view.ids[i]);
        if v.Some? {
          return;
        }
      }
      v := None;
    }

    method ObserveRounds(view: View, hi: nat) returns (v: Option<Violation>)
      modifies this`sentPc, this`seenPv, this`maxRound
      ensures (v, State()) == SeeRounds(old(State()), view, 0, hi)
    {
      for r := 0 to hi + 1
        invariant SeeRounds(State(), view, r, hi) == SeeRounds(old(State()), view, 0, hi)
      {
        v := ObserveIds(view, r);
        if v.Some? {
          return;
        }
      }
      v := None;
    }

    /** The loops over the remembered precommits and prevotes after a restart. */
    method CheckDurable(view: View) returns (v: Option<Violation>)
      ensures v == Durable(State(), view)
    {
      var h := view.height + 1;
      var rest := sentPc.Keys;
      while rest != {}
        invariant rest <= sentPc.Keys
        invariant forall s :: s in sentPc && s !in rest && s.0 == h ==> Covered(view, s.1, sentPc[s])
        decreases |rest|
      {
        var s :| s in rest;
        if s.0 == h && !Covered(view, s.1, sentPc[s]) {
          return Some(PrecommitNotDurable);
        }
        rest := rest - {s};
      }
      rest := seenPv.Keys;
      while rest != {}
        invariant rest <= seenPv.Keys
        invariant forall s :: s in seenPv && s !in rest && s.0 == h ==> (s.1, seenPv[s]) in view.prevotes
        decreases |rest|
      {
        var s :| s in rest;
        if s.0 == h && (s.1, seenPv[s]) !in view.prevotes {
          return Some(PrevoteNotDurable);
        }
        rest := rest - {s};
      }
      v := None;
    }

    method Observe(view: View) returns (v: Option<Violation>)
      modifies this
      ensures (v, State()) == ObserveAll(old(State()), view, old(afterRestart))
      ensures pol == old(pol)
    {
      if view.late > 0 {
        return Some(SignedAfterFailStop);
      }
      if view.height < maxHeight {
        return Some(FinalityBroken);
      }
      if view.height > 0 {
        if view.height in finalized && finalized[view.height] != view.tip {
          return Some(FinalityBroken);
        }
        finalized := finalized[view.height := view.tip];
      }
      maxHeight := view.height;
      var restarted := afterRestart;
      var hi := (if view.currentRound > maxRound then view.currentRound else maxRound) + ROUNDS;
      if restarted {
        afterRestart := false;
        v := CheckDurable(view);
        if v.Some? {
          return;
        }
      }
      v := ObserveRounds(view, hi);
    }
  }
}
