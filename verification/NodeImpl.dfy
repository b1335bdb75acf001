/** The voting paths of class Node in the source's own imperative form, each proved against module VotingNode. */
module NodeImpl {
  import opened Options
  import opened Blocks
  import opened VoteLog
  import opened VotingNode
  import opened SafetyRows

  class Node {
    const id: NodeId
    var tip: Block
    var currentRound: nat
    var localVoteLocks: map<nat, Lock>
    var validPolkaByHeight: map<nat, Lock>
    var localPrevotes: map<(nat, nat), Block>
    var localVoteReservations: set<(nat, nat)>
    var localTimedOutRounds: set<(nat, nat)>
    var abstainHeights: set<nat>
    var outbox: set<Vote>
    var safetyStorageFailed: bool
    var disk: Disk

    function State(): NodeState
      reads this
    {
      NodeState(
        Memory(tip, currentRound, localVoteLocks, validPolkaByHeight, localPrevotes, localVoteReservations,
               localTimedOutRounds, abstainHeights, outbox, safetyStorageFailed),
        disk)
    }

    /** A first start over an empty database. */
    constructor (id: NodeId)
      ensures State() == NodeState(Memory(Genesis, 0, map[], map[], map[], {}, {}, {}, {}, false),
        Disk(Genesis, map[], {}, 0))
      ensures this.id == id
    {
      this.id := id;
      tip, currentRound := Genesis, 0;
      localVoteLocks, validPolkaByHeight, localPrevotes := map[], map[], map[];
      localVoteReservations, localTimedOutRounds, abstainHeights, outbox := {}, {}, {}, {};
      safetyStorageFailed := false;
      disk := Disk(Genesis, map[], {}, 0);
    }

    /** The greatest round voted in at this height, 0 for none. */
    method LocalVoteRoundFloor(height: nat) returns (floor: nat)
      ensures forall r: nat :: floor <= r <==> FloorAllows(State().mem, height, r)
    {
      floor := 0;
      if height in localVoteLocks {
        floor := localVoteLocks[height].round;
      }
      var left := localPrevotes.Keys;
      while left != {}
        invariant left <= localPrevotes.Keys
        invariant height in localVoteLocks ==> localVoteLocks[height].round <= floor
        invariant forall k :: k in localPrevotes.Keys - left && k.0 == height ==> k.1 <= floor
        invariant || floor == 0
                  || (height in localVoteLocks && floor == localVoteLocks[height].round)
                  || (height, floor) in localPrevotes
        decreases left
      {
        var k: (nat, nat) :| k in left;
        if k.0 == height && k.1 > floor {
          floor := k.1;
        }
        left := left - {k};
      }
    }

    method CanPrevoteLocked(height: nat, b: Block, pol: Option<nat>) returns (ok: bool, reason: string)
      ensures ok <==> CanPrevote(State().mem, height, b, pol)
      ensures ok <==> reason == ""
      ensures reason == "abstain-corrupt-safety-state" <==> height in abstainHeights
    {
      if height in abstainHeights {
        return false, "abstain-corrupt-safety-state";
      }
      if height !in localVoteLocks {
        return true, "";
      }
      var lock := localVoteLocks[height];
      if lock.block == b {
        return true, "";
      }
      if pol.Some? && lock.round <= pol.value {
        return true, "";
      }
      return false, if pol.Some? then "locked-pol-older-than-lock" else "locked-on-other-transition";
    }

    method PersistConsensusSafetyState(height: nat, row: SafetyRow, w: Write) returns (ok: bool)
      modifies this
      ensures State() == Persist(old(State()), height, row, w)
      ensures ok <==> !safetyStorageFailed
    {
      if safetyStorageFailed {
        return false;
      }
      if !w.Lost? {
        disk := Disk(disk.tip, disk.rows[height := row], disk.quarantine,
                     if height > disk.highwater then height else disk.highwater);
      }
      ok := w.Durable?;
      safetyStorageFailed := !ok;
    }

    method RecordLocalPrevote(round: nat, b: Block, w: Write) returns (vote: Option<Vote>)
      modifies this
      ensures State() == RecordPrevote(id, old(State()), round, b, w).state
      ensures vote == RecordPrevote(id, old(State()), round, b, w).emitted
    {
      var height := b.Height();
      var candidate := RowOf(State().mem, height);
      var ok := PersistConsensusSafetyState(height, candidate.(prevotes := candidate.prevotes[round := b]), w);
      if !ok {
        return None;
      }
      localPrevotes := localPrevotes[(height, round) := b];
      outbox := outbox + {Prevote(id, round, b)};
      return Some(Prevote(id, round, b));
    }

    method LockOnPolka(round: nat, b: Block, w: Write) returns (ok: bool)
      requires !safetyStorageFailed
      modifies this
      ensures
        var step := LockAndPrecommit(id, old(State()), round, b, w);
        && (ok <==> step.emitted.Some?)
        && State() ==
           if ok then
             step.state.(mem := step.state.mem.(reservations := old(localVoteReservations), outbox := old(outbox)))
           else step.state
    {
      var height := b.Height();
      if height in localVoteLocks && localVoteLocks[height] == Lock(b, round) {
        return true;
      }
      if height in localVoteLocks && round <= localVoteLocks[height].round {
        return false;
      }
      var candidate := RowOf(State().mem, height);
      ok := PersistConsensusSafetyState(height, candidate.(lock := Some(Lock(b, round))), w);
      if ok {
        localVoteLocks := localVoteLocks[height := Lock(b, round)];
      }
    }

    /** The valid value: the highest-round polka seen, published once its write succeeded. */
    method NoteValidValue(round: nat, b: Block, w: Write)
      modifies this
      ensures State() == NoteValidPolka(old(State()), round, b, w)
    {
      var height := b.Height();
      if height !in validPolkaByHeight || round > validPolkaByHeight[height].round {
        var candidate := RowOf(State().mem, height);
        var stored := PersistConsensusSafetyState(height, candidate.(validPolka := Some(Lock(b, round))), w);
        if stored {
          validPolkaByHeight := validPolkaByHeight[height := Lock(b, round)];
        }
      }
    }

    /** The checks between the valid value and the precommit. */
    method MayPrecommitNow(member: bool, round: nat, b: Block, ready: bool) returns (ok: bool)
      ensures ok <==> MayPrecommit(member, State().mem, round, b, ready) && !safetyStorageFailed
    {
      var height := b.Height();
      if round != currentRound {
        return false;
      }
      if (height, round) in localVoteReservations || (height, round) in localTimedOutRounds {
        return false;
      }
      var floor := LocalVoteRoundFloor(height);
      ok := floor <= round && height !in abstainHeights && member && ready && !safetyStorageFailed;
    }

    /** Locks, and hands the precommit to the network layer once the lock is durable. */
    method PrecommitOnPolka(round: nat, b: Block, w: Write) returns (vote: Option<Vote>)
      requires !safetyStorageFailed
      modifies this
      ensures State() == LockAndPrecommit(id, old(State()), round, b, w).state
      ensures vote == LockAndPrecommit(id, old(State()), round, b, w).emitted
    {
      vote := None;
      var locked := LockOnPolka(round, b, w);
      if locked {
        localVoteReservations := localVoteReservations + {(b.Height(), round)};
        outbox := outbox + {Precommit(id, round, b)};
        vote := Some(Precommit(id, round, b));
      }
    }

    /** on_prevotes_changed_locked from a verified polka on. */
    method OnPrevotesChanged(member: bool, round: nat, b: Block, ready: bool, w1: Write, w2: Write)
      returns (vote: Option<Vote>)
      modifies this
      ensures State() == OnPolka(id, member, old(State()), round, b, ready, w1, w2).state
      ensures vote == OnPolka(id, member, old(State()), round, b, ready, w1, w2).emitted
    {
      vote := None;
      if b.Genesis? || b.parent != tip || round < b.round {
        return;
      }
      NoteValidValue(round, b, w1);
      var may := MayPrecommitNow(member, round, b, ready);
      if !may {
        return;
      }
      vote := PrecommitOnPolka(round, b, w2);
    }

    /** handle_propose_result from the parent check on. */
    method HandleProposeResult(member: bool, round: nat, b: Block, pol: Option<nat>, ready: bool, w: Write)
      returns (vote: Option<Vote>)
      modifies this
      ensures State() == HandlePropose(id, member, old(State()), round, b, pol, ready, w).state
      ensures vote == HandlePropose(id, member, old(State()), round, b, pol, ready, w).emitted
    {
      vote := None;
      if round < currentRound || b.Genesis? || b.parent != tip || !ShapeOk(round, b, pol) {
        return;
      }
      currentRound := round;
      var height := b.Height();
      var floor := LocalVoteRoundFloor(height);
      var can, _ := CanPrevoteLocked(height, b, pol);
      if && member && (height, round) !in localPrevotes && (height, round) !in localTimedOutRounds
         && floor <= round && can && ready && !safetyStorageFailed {
        vote := RecordLocalPrevote(round, b, w);
      }
    }

    /** forget_consensus_safety_state_locked and the reservation cleanup of a finalized height. */
    method ForgetHeight(height: nat)
      modifies this
      ensures State() == old(State()).(mem := Forget(old(State()).mem, height))
      ensures forall k :: RowOf(State().mem, k) == if k == height then EmptyRow() else RowOf(old(State()).mem, k)
    {
      localVoteReservations := KeepAbove(localVoteReservations, height);
      localTimedOutRounds := KeepAbove(localTimedOutRounds, height);
      localVoteLocks := localVoteLocks - {height};
      validPolkaByHeight := validPolkaByHeight - {height};
      localPrevotes := EraseHeight(localPrevotes, height);
      abstainHeights := abstainHeights - {height};
      ForgetClearsRow(old(State()).mem, height);
    }

    /** The write and publication of apply_finalized_frontier_effects_locked. */
    method ApplyFinalized(b: Block, w: Write) returns (ok: bool)
      requires b.Child? && b.parent == tip
      modifies this
      ensures State() == Finalize(old(State()), b, w)
      ensures ok <==> !old(safetyStorageFailed) && w.Durable?
    {
      if safetyStorageFailed {
        return false;
      }
      var height := b.Height();
      if !w.Lost? {
        disk := Disk(b, disk.rows - {height}, disk.quarantine - {height}, disk.highwater);
      }
      if !w.Durable? {
        safetyStorageFailed := true;
        return false;
      }
      tip, currentRound := b, 0;
      ForgetHeight(height);
      return true;
    }

    method Adopt(loaded: Disk, votes: Restored)
      requires votes.locks == LocksOf(loaded.rows) && votes.polkas == ValidPolkasOf(loaded.rows)
      requires votes.prevotes == PrevotesOf(loaded.rows)
      modifies this
      ensures State() == Loaded(loaded)
    {
      disk, tip, currentRound := loaded, loaded.tip, 0;
      localVoteLocks, validPolkaByHeight, localPrevotes := votes.locks, votes.polkas, votes.prevotes;
      localVoteReservations, localTimedOutRounds, outbox := {}, {}, {};
      abstainHeights := loaded.quarantine;
      safetyStorageFailed := false;
    }

    /** load_state over the rows an earlier process left. */
    method LoadState(m: Media, member: bool, members: nat)
      modifies this
      ensures State() == Restart(old(State()), m, member, members)
    {
      var loaded, votes := LoadDatabase(disk, m, member, members);
      Adopt(loaded, votes);
    }
  }

  // ---------------------------------------------------------------- helpers of the node's loops

  method KeepAbove(slots: set<(nat, nat)>, height: nat) returns (kept: set<(nat, nat)>)
    ensures kept == Above(slots, height)
  {
    kept := {};
    var rest := slots;
    while rest != {}
      invariant rest <= slots
      invariant forall k :: k in kept <==> k in slots && k !in rest && k.0 > height
      decreases |rest|
    {
      var k: (nat, nat) :| k in rest;
      if k.0 > height {
        kept := kept + {k};
      }
      rest := rest - {k};
    }
  }

  method EraseHeight(prevotes: map<(nat, nat), Block>, height: nat) returns (kept: map<(nat, nat), Block>)
    ensures kept == WithoutHeight(prevotes, height)
  {
    kept := prevotes;
    var rest := prevotes.Keys;
    while rest != {}
      invariant rest <= prevotes.Keys
      invariant forall k :: k in kept <==> k in prevotes && (k in rest || k.0 != height)
      invariant forall k :: k in kept ==> kept[k] == prevotes[k]
      decreases |rest|
    {
      var k: (nat, nat) :| k in rest;
      if k.0 == height {
        kept := kept - {k};
      }
      rest := rest - {k};
    }
  }
}
