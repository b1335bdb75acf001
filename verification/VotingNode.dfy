/**
 One validator's voting state: what it holds in memory, what its database holds, and the code
 paths that vote, write, fail, finalize and restart (src/node/node_consensus.cpp,
 src/node/node_state.cpp). The functions give each path's effect; class Node of module NodeImpl is the
 imperative form, proved against them.
 */
module VotingNode {
  import opened Options
  import opened Blocks
  import opened VoteLog

  datatype Lock = Lock(block: Block, round: nat)

  /** The consensus safety row of one height. */
  datatype SafetyRow = SafetyRow(lock: Option<Lock>, validPolka: Option<Lock>, prevotes: map<nat, Block>)

  datatype Memory = Memory(
    tip: Block,                              // last finalized transition
    currentRound: nat,
    locks: map<nat, Lock>,                   // local_vote_locks_
    validPolkas: map<nat, Lock>,             // valid_polka_by_height_
    prevotes: map<(nat, nat), Block>,        // local_prevotes_, by (height, round)
    reservations: set<(nat, nat)>,           // local_vote_reservations_
    timedOut: set<(nat, nat)>,               // local_timed_out_rounds_
    abstain: set<nat>,                       // abstain_heights_
    outbox: set<Vote>,                       // own votes handed to the network layer by this process
    failed: bool)                            // fail-stop, database fenced

  datatype Disk = Disk(tip: Block, rows: map<nat, SafetyRow>, quarantine: set<nat>, highwater: nat)

  datatype NodeState = NodeState(mem: Memory, disk: Disk)

  /** How a durable write ends. A failed one may still have reached the disk. */
  datatype Write = Durable | Lost | ReachedDisk

  /** `cast`: a vote that became durable. `emitted`: a vote handed to the network layer. */
  datatype Step = Step(state: NodeState, cast: Option<Vote>, emitted: Option<Vote>)

  function Silent(s: NodeState): Step
  {
    Step(s, None, None)
  }

  // ---------------------------------------------------------------- reading the state

  function Lookup<K, V>(m: map<K, V>, k: K): (o: Option<V>)
    ensures o.Some? <==> k in m
    ensures o.Some? ==> o.value == m[k]
  {
    if k in m then Some(m[k]) else None
  }

  function PrevotesAt(prevotes: map<(nat, nat), Block>, h: nat): (m: map<nat, Block>)
    ensures forall r :: r in m <==> (h, r) in prevotes
    ensures forall r :: r in m ==> m[r] == prevotes[(h, r)]
  {
    map k | k in prevotes && k.0 == h :: k.1 := prevotes[k]
  }

  function EmptyRow(): SafetyRow { SafetyRow(None, None, map[]) }

  /** consensus_safety_state_locked */
  function RowOf(mem: Memory, h: nat): SafetyRow
  {
    SafetyRow(Lookup(mem.locks, h), Lookup(mem.validPolkas, h), PrevotesAt(mem.prevotes, h))
  }

  function RowAt(rows: map<nat, SafetyRow>, h: nat): SafetyRow
  {
    if h in rows then rows[h] else EmptyRow()
  }

  /** A vote in round r is not below local_vote_round_floor_locked. */
  predicate FloorAllows(mem: Memory, h: nat, r: nat)
  {
    && (h in mem.locks ==> mem.locks[h].round <= r)
    && forall k :: k in mem.prevotes && k.0 == h ==> k.1 <= r
  }

  /** can_prevote_locked: abstaining, then the lock rule. */
  predicate CanPrevote(mem: Memory, h: nat, b: Block, pol: Option<nat>)
  {
    && h !in mem.abstain
    && (h in mem.locks ==>
          mem.locks[h].block == b || (pol.Some? && mem.locks[h].round <= pol.value))
  }

  // ---------------------------------------------------------------- writing

  /** persist_consensus_safety_state_locked: one atomic batch with the row, its mirror and the highwater. */
  function Persist(s: NodeState, h: nat, row: SafetyRow, w: Write): (next: NodeState)
    ensures next.disk.tip == s.disk.tip && next.mem == s.mem.(failed := next.mem.failed)
  {
    var disk := Disk(s.disk.tip, s.disk.rows[h := row], s.disk.quarantine,
                     if h > s.disk.highwater then h else s.disk.highwater);
    if s.mem.failed then s
    else match w
      case Durable => NodeState(s.mem, disk)
      case Lost => NodeState(s.mem.(failed := true), s.disk)
      case ReachedDisk => NodeState(s.mem.(failed := true), disk)
  }

  function Written(s: NodeState, w: Write, v: Vote): Option<Vote>
  {
    if !s.mem.failed && !w.Lost? then Some(v) else None
  }

  /** record_local_prevote_locked, then the vote is returned to be broadcast. */
  function RecordPrevote(n: NodeId, s: NodeState, r: nat, b: Block, w: Write): (next: Step)
    ensures next.state.disk.tip == s.disk.tip && next.state.mem.tip == s.mem.tip
  {
    var h := b.Height();
    var v := Prevote(n, r, b);
    var row := RowOf(s.mem, h);
    var s' := Persist(s, h, row.(prevotes := row.prevotes[r := b]), w);
    if s'.mem.failed then Step(s', Written(s, w, v), None)
    else
      Step(s'.(mem := s'.mem.(prevotes := s'.mem.prevotes[(h, r) := b], outbox := s'.mem.outbox + {v})),
           Some(v), Some(v))
  }

  /** lock_on_polka_locked, then the precommit is returned to be broadcast. */
  function LockAndPrecommit(n: NodeId, s: NodeState, r: nat, b: Block, w: Write): (next: Step)
    ensures next.state.disk.tip == s.disk.tip && next.state.mem.tip == s.mem.tip
  {
    var h := b.Height();
    var v := Precommit(n, r, b);
    var row := RowOf(s.mem, h);
    if s.mem.failed then Silent(s)
    else if h in s.mem.locks && s.mem.locks[h] == Lock(b, r) then
      Step(s.(mem := s.mem.(reservations := s.mem.reservations + {(h, r)}, outbox := s.mem.outbox + {v})),
           None, Some(v))
    else if h in s.mem.locks && r <= s.mem.locks[h].round then Silent(s)
    else
      var s' := Persist(s, h, row.(lock := Some(Lock(b, r))), w);
      if s'.mem.failed then Step(s', Written(s, w, v), None)
      else
        Step(s'.(mem := s'.mem.(locks := s'.mem.locks[h := Lock(b, r)],
                                reservations := s'.mem.reservations + {(h, r)},
                                outbox := s'.mem.outbox + {v})), Some(v), Some(v))
  }

  // ---------------------------------------------------------------- message handlers

  /** The shape check of handle_propose_result: fresh in this round, or re-proposed with an older polka. */
  predicate ShapeOk(r: nat, b: Block, pol: Option<nat>)
  {
    b.Child? && (if pol.Some? then b.round <= pol.value < r else b.round == r)
  }

  predicate MayPrevote(member: bool, mem: Memory, r: nat, b: Block, pol: Option<nat>, ready: bool)
  {
    var h := b.Height();
    && member
    && (h, r) !in mem.prevotes
    && (h, r) !in mem.timedOut
    && FloorAllows(mem, h, r)
    && CanPrevote(mem, h, b, pol)
    && ready
  }

  /**
   handle_propose_result from the parent check on. `member`: the node sits in the committee of this
   height. `ready`: the timestamp and certified-ingress checks, which depend on data outside the model.
   */
  function HandlePropose(
      n: NodeId, member: bool, s: NodeState, r: nat, b: Block, pol: Option<nat>, ready: bool, w: Write): (next: Step)
    ensures next.state.disk.tip == s.disk.tip && next.state.mem.tip == s.mem.tip
  {
    if b.Genesis? || b.parent != s.mem.tip || r < s.mem.currentRound || !ShapeOk(r, b, pol) then Silent(s)
    else
      var s' := s.(mem := s.mem.(currentRound := r));
      if !MayPrevote(member, s'.mem, r, b, pol, ready) || s'.mem.failed then Silent(s')
      else RecordPrevote(n, s', r, b, w)
  }

  /** The valid-value update of on_prevotes_changed_locked: the highest-round polka, published once durable. */
  function NoteValidPolka(s: NodeState, r: nat, b: Block, w: Write): (next: NodeState)
    ensures next.disk.tip == s.disk.tip && next.mem.tip == s.mem.tip
  {
    var h := b.Height();
    if h in s.mem.validPolkas && r <= s.mem.validPolkas[h].round then s
    else
      var s' := Persist(s, h, RowOf(s.mem, h).(validPolka := Some(Lock(b, r))), w);
      if s'.mem.failed then s'
      else s'.(mem := s'.mem.(validPolkas := s'.mem.validPolkas[h := Lock(b, r)]))
  }

  predicate MayPrecommit(member: bool, mem: Memory, r: nat, b: Block, ready: bool)
  {
    var h := b.Height();
    && r == mem.currentRound
    && (h, r) !in mem.reservations
    && (h, r) !in mem.timedOut
    && FloorAllows(mem, h, r)
    && h !in mem.abstain
    && member
    && ready
  }

  /**
   on_prevotes_changed_locked, once a polka for b in round r is known and b's body is a candidate:
   candidates are proposals validated against the current tip.
   */
  function OnPolka(
      n: NodeId, member: bool, s: NodeState, r: nat, b: Block, ready: bool, w1: Write, w2: Write): (next: Step)
    ensures next.state.disk.tip == s.disk.tip && next.state.mem.tip == s.mem.tip
  {
    if b.Genesis? || b.parent != s.mem.tip || r < b.round then Silent(s)
    else
      var s' := NoteValidPolka(s, r, b, w1);
      if !MayPrecommit(member, s'.mem, r, b, ready) || s'.mem.failed then Silent(s')
      else LockAndPrecommit(n, s', r, b, w2)
  }

  /** forget_consensus_safety_state_locked and the clean-up of a finalized height's round state. */
  function Forget(mem: Memory, h: nat): Memory
  {
    mem.(locks := mem.locks - {h}, validPolkas := mem.validPolkas - {h},
         prevotes := WithoutHeight(mem.prevotes, h),
         reservations := Above(mem.reservations, h), timedOut := Above(mem.timedOut, h),
         abstain := mem.abstain - {h})
  }

  function WithoutHeight(prevotes: map<(nat, nat), Block>, h: nat): map<(nat, nat), Block>
  {
    map k | k in prevotes && k.0 != h :: prevotes[k]
  }

  function Above(slots: set<(nat, nat)>, h: nat): set<(nat, nat)>
  {
    set k | k in slots && k.0 > h
  }

  lemma PrevotesWithout(prevotes: map<(nat, nat), Block>, h: nat, k: nat)
    ensures PrevotesAt(WithoutHeight(prevotes, h), k) == if k == h then map[] else PrevotesAt(prevotes, k)
  {
    var m, m' := PrevotesAt(prevotes, k), PrevotesAt(WithoutHeight(prevotes, h), k);
    if k == h {
      assert forall r :: r !in m';
    } else {
      assert forall r :: r in m <==> r in m';
    }
  }

  /** Nothing of the height is left, and the safety row of every other height stays as it was. */
  lemma ForgetClears(mem: Memory, h: nat, k: nat)
    ensures RowOf(Forget(mem, h), k) == if k == h then EmptyRow() else RowOf(mem, k)
    ensures k in Forget(mem, h).abstain <==> k in mem.abstain && k != h
    ensures forall r :: (k, r) in Forget(mem, h).reservations <==> (k, r) in mem.reservations && k > h
    ensures forall r :: (k, r) in Forget(mem, h).timedOut <==> (k, r) in mem.timedOut && k > h
  {
    PrevotesWithout(mem.prevotes, h, k);
  }

  lemma ForgetClearsRow(mem: Memory, h: nat)
    ensures forall k :: RowOf(Forget(mem, h), k) == if k == h then EmptyRow() else RowOf(mem, k)
  {
    forall k
      ensures RowOf(Forget(mem, h), k) == if k == h then EmptyRow() else RowOf(mem, k)
    {
      ForgetClears(mem, h, k);
    }
  }

  /** Votes at other heights keep their floor. */
  lemma ForgetFloor(mem: Memory, h: nat, k: nat, r: nat)
    ensures FloorAllows(Forget(mem, h), k, r) <==> k == h || FloorAllows(mem, k, r)
  {
    var after := WithoutHeight(mem.prevotes, h);
    assert forall j :: j in after && j.0 == k <==> j in mem.prevotes && j.0 == k && k != h;
  }

  /** apply_finalized_frontier_effects_locked: one batch moves the tip and releases the height's safety row. */
  function Finalize(s: NodeState, b: Block, w: Write): NodeState
    requires b.Child?
  {
    var h := b.Height();
    var disk := Disk(b, s.disk.rows - {h}, s.disk.quarantine - {h}, s.disk.highwater);
    if s.mem.failed || b.parent != s.mem.tip then s
    else match w
      case Durable =>
        NodeState(Forget(s.mem.(tip := b, currentRound := 0), h), disk)
      case Lost => NodeState(s.mem.(failed := true), s.disk)
      case ReachedDisk => NodeState(s.mem.(failed := true), disk)
  }

  /** Timeouts, catch-up and reconnect resets: the round moves, further rounds time out, reservations change. */
  function ChangeRound(s: NodeState, r: nat, timedOut: set<(nat, nat)>, reservations: set<(nat, nat)>): NodeState
  {
    s.(mem := s.mem.(currentRound := r, timedOut := s.mem.timedOut + timedOut, reservations := reservations))
  }

  // ---------------------------------------------------------------- restart

  const MAX_MISSING_SPAN := 64

  /** A node outside a multi-member committee of the next height cannot have voted there. */
  predicate CannotHaveVoted(tip: Block, member: bool, members: nat, h: nat)
  {
    h == tip.Height() + 1 && members >= 2 && !member
  }

  /**
   The safety rows as a starting process finds them: each height's two copies, absent, unreadable or
   readable, the heights with a quarantine row, which has no second copy, and the highwater row, which reads
   as 0 when it is gone or damaged.
   */
  datatype Media = Media(primary: map<nat, Option<SafetyRow>>, mirror: map<nat, Option<SafetyRow>>,
                         quarantine: set<nat>, highwater: Option<nat>)

  function CopyAt(copies: map<nat, Option<SafetyRow>>, h: nat): Option<SafetyRow>
  {
    if h in copies then copies[h] else None
  }

  predicate Found(m: Media, h: nat)
  {
    h in m.primary || h in m.mirror
  }

  /** The row the loader believes: one readable copy, or two that agree. */
  function Trusted(m: Media, h: nat): Option<SafetyRow>
  {
    var p, q := CopyAt(m.primary, h), CopyAt(m.mirror, h);
    if p.Some? && q.Some? && p != q then None else if p.Some? then p else q
  }

  function MarkOf(m: Media): nat
  {
    if m.highwater.Some? then m.highwater.value else 0
  }

  /** Both copies are written again unless both were readable; that moves the highwater mark up. */
  predicate Rewritten(m: Media, h: nat)
  {
    Trusted(m, h).Some? && (CopyAt(m.primary, h).None? || CopyAt(m.mirror, h).None?)
  }

  ghost function Top(base: nat, hs: set<nat>): (t: nat)
    ensures base <= t && (forall h :: h in hs ==> h <= t) && (t == base || t in hs)
    decreases |hs|
  {
    if hs == {} then base
    else
      var h :| h in hs;
      var rest := Top(base, hs - {h});
      assert hs == hs - {h} + {h};
      if h > rest then h else rest
  }

  function OpenRows(m: Media, fin: nat): set<nat>
  {
    set h | h in m.primary.Keys + m.mirror.Keys && h > fin
  }

  lemma TopUnique(base: nat, hs: set<nat>, t: nat)
    requires base <= t && (forall h :: h in hs ==> h <= t) && (t == base || t in hs)
    ensures t == Top(base, hs)
  {
  }

  ghost function MarkAfter(m: Media, fin: nat): (t: nat)
    ensures MarkOf(m) <= t
  {
    Top(MarkOf(m), set h | h in OpenRows(m, fin) && Rewritten(m, h))
  }

  /** Heights under the highwater mark with no row at all. */
  ghost function LostRows(m: Media, fin: nat): set<nat>
  {
    set h | fin < h <= MarkAfter(m, fin) && h <= fin + MAX_MISSING_SPAN && h !in OpenRows(m, fin) && h !in m.quarantine
  }

  /**
   load_state: rows of finalized heights are dropped; heights whose copies cannot be trusted, and lost ones,
   are quarantined, unless the node cannot have voted there.
   */
  ghost function LoadDisk(d: Disk, m: Media, member: bool, members: nat): Disk
  {
    var fin := d.tip.Height();
    var open := OpenRows(m, fin);
    var bad := (set h | h in open && Trusted(m, h).None?) + LostRows(m, fin);
    Disk(d.tip,
         map h | h in open && Trusted(m, h).Some? :: Trusted(m, h).value,
         (set h | h in m.quarantine && h > fin) + (set h | h in bad && !CannotHaveVoted(d.tip, member, members, h)),
         MarkAfter(m, fin))
  }

  /** Whatever the loader finds and believes is what was last written. */
  ghost predicate NoImpostor(d: Disk, m: Media)
  {
    && (forall h :: h > d.tip.Height() && Found(m, h) && Trusted(m, h).Some? ==>
          h in d.rows && Trusted(m, h).value == d.rows[h])
    && (forall h :: h > d.tip.Height() && h in m.quarantine ==> h in d.quarantine)
  }

  predicate HasVote(row: SafetyRow)
  {
    row.lock.Some? || row.prevotes != map[]
  }

  /** An open height the load gives up, if the node may have voted there. */
  ghost predicate GivenUp(m: Media, fin: nat, h: nat)
  {
    || h in m.quarantine
    || (Found(m, h) && Trusted(m, h).None?)
    || (!Found(m, h) && h <= MarkAfter(m, fin) && h <= fin + MAX_MISSING_SPAN)
  }

  /** The load keeps the votes of an open height: it gives the height up, or restores the row that holds them. */
  ghost predicate Survives(d: Disk, m: Media, h: nat)
  {
    GivenUp(m, d.tip.Height(), h) || (Trusted(m, h).Some? && h !in d.quarantine)
  }

  function LocksOf(rows: map<nat, SafetyRow>): map<nat, Lock>
  {
    map h | h in rows && rows[h].lock.Some? :: rows[h].lock.value
  }

  function ValidPolkasOf(rows: map<nat, SafetyRow>): map<nat, Lock>
  {
    map h | h in rows && rows[h].validPolka.Some? :: rows[h].validPolka.value
  }

  function PrevotesOf(rows: map<nat, SafetyRow>): map<(nat, nat), Block>
  {
    map h, r | h in rows && r in rows[h].prevotes :: (h, r) := rows[h].prevotes[r]
  }

  /** Memory as loaded from the database: votes and locks restored, round state gone. */
  function Loaded(disk: Disk): NodeState
  {
    NodeState(
      Memory(disk.tip, 0, LocksOf(disk.rows), ValidPolkasOf(disk.rows), PrevotesOf(disk.rows), {}, {},
             disk.quarantine, {}, false),
      disk)
  }

  /** A new process over the same database. */
  ghost function Restart(s: NodeState, m: Media, member: bool, members: nat): NodeState
  {
    Loaded(LoadDisk(s.disk, m, member, members))
  }

  /** The process dies (or halts) without writing. */
  function Crash(s: NodeState): NodeState
  {
    s.(mem := s.mem.(failed := true))
  }

  /**
   A vote this node can put on the network now: handed over, or re-sent from memory by the stall rebroadcast or
   reseed.
   */
  predicate Sendable(n: NodeId, s: NodeState, v: Vote)
  {
    && !s.mem.failed
    && ( v in s.mem.outbox
       || (v.Prevote? && v.node == n && (exists k :: k in s.mem.prevotes && v == Prevote(n, k.1, s.mem.prevotes[k])))
       || (v.Precommit? && v.node == n && (exists h ::
             h in s.mem.locks && v == Precommit(n, s.mem.locks[h].round, s.mem.locks[h].block))))
  }

  // ---------------------------------------------------------------- one height's prevotes

  lemma PrevotesAtUpdate(prevotes: map<(nat, nat), Block>, h: nat, r: nat, b: Block, k: nat)
    ensures PrevotesAt(prevotes[(h, r) := b], k) ==
            if k == h then PrevotesAt(prevotes, h)[r := b] else PrevotesAt(prevotes, k)
  {
    var m := PrevotesAt(prevotes[(h, r) := b], k);
    var m' := if k == h then PrevotesAt(prevotes, h)[r := b] else PrevotesAt(prevotes, k);
    forall i
      ensures i in m <==> i in m'
      ensures i in m ==> m[i] == m'[i]
    {
    }
  }

  lemma PrevotesAtLoaded(rows: map<nat, SafetyRow>, h: nat)
    ensures PrevotesAt(PrevotesOf(rows), h) == RowAt(rows, h).prevotes
  {
    var m := PrevotesAt(PrevotesOf(rows), h);
    var m' := RowAt(rows, h).prevotes;
    forall i
      ensures i in m <==> i in m'
      ensures i in m ==> m[i] == m'[i]
    {
    }
  }
}
