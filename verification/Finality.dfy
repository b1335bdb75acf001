/**
 A cluster of validators voting height after height over an asynchronous network: every run keeps
 the voting rules of module VoteLog, so it never forks, through crashes, failed and half-failed
 writes, damaged safety rows and restarts.
 */
module Finality {
  import opened Options
  import opened Blocks
  import opened VoteLog
  import opened VotingNode

  /** The correct validators, and every vote of theirs that became durable, oldest first. */
  datatype Cluster = Cluster(nodes: map<NodeId, NodeState>, log: seq<Vote>)

  // ---------------------------------------------------------------- the step system

  datatype Action =
    | Propose(round: nat, block: Block, pol: Option<nat>, ready: bool, w: Write)
    | SeePolka(round: nat, block: Block, ready: bool, w: Write, w2: Write)
    | SeeCommit(round: nat, block: Block, w: Write)
    | MoveRound(to: nat, timedOut: set<(nat, nat)>, reservations: set<(nat, nat)>)
    | Stop
    | Start(media: Media)

  ghost function Member(cfg: Config, n: NodeId, p: Block): bool
  {
    n in cfg.committee(p)
  }

  /** What the node must have verified before it acts: certificates it acts on are real quorums. */
  ghost predicate Enabled(cfg: Config, log: seq<Vote>, a: Action)
  {
    match a
    case Propose(r, b, pol, _, _) => pol.Some? ==> Polka(cfg, log, pol.value, b)
    case SeePolka(r, b, _, _, _) => Polka(cfg, log, r, b)
    case SeeCommit(r, b, _) => Committed(cfg, log, r, b)
    case _ => true
  }

  /** A start is over rows that are what was written, where they can be believed, and cover every open vote. */
  ghost predicate Recoverable(n: NodeId, log: seq<Vote>, d: Disk, a: Action)
  {
    a.Start? ==> NoImpostor(d, a.media) && Covered(n, log, d, a.media)
  }

  ghost predicate Voted(n: NodeId, log: seq<Vote>, h: nat)
  {
    exists v :: v in log && v.node == n && v.block.Height() == h
  }

  /** Every open height the node has voted at survives the load. */
  ghost predicate Covered(n: NodeId, log: seq<Vote>, d: Disk, m: Media)
  {
    forall h :: h > d.tip.Height() && Voted(n, log, h) ==> Survives(d, m, h)
  }

  ghost function Apply(cfg: Config, n: NodeId, s: NodeState, a: Action): Step
    requires a.SeeCommit? ==> a.block.Child?
  {
    var member := Member(cfg, n, s.mem.tip);
    match a
    case Propose(r, b, pol, ready, w) => HandlePropose(n, member, s, r, b, pol, ready, w)
    case SeePolka(r, b, ready, w, w2) => OnPolka(n, member, s, r, b, ready, w, w2)
    case SeeCommit(r, b, w) => Silent(VotingNode.Finalize(s, b, w))
    case MoveRound(r, timedOut, reservations) => Silent(ChangeRound(s, r, timedOut, reservations))
    case Stop => Silent(Crash(s))
    case Start(m) => Silent(Restart(s, m, Member(cfg, n, s.disk.tip), |cfg.committee(s.disk.tip)|))
  }

  function Extend(log: seq<Vote>, v: Option<Vote>): (more: seq<Vote>)
    ensures log <= more
  {
    if v.Some? then log + [v.value] else log
  }

  ghost predicate NextBy(cfg: Config, c: Cluster, c': Cluster, n: NodeId, a: Action)
  {
    && n in c.nodes
    && Enabled(cfg, c.log, a)
    && Recoverable(n, c.log, c.nodes[n].disk, a)
    && var step := Apply(cfg, n, c.nodes[n], a);
       c' == Cluster(c.nodes[n := step.state], Extend(c.log, step.cast))
  }

  ghost predicate Init(cfg: Config, c: Cluster)
  {
    && c.log == []
    && (forall n :: n in c.nodes ==> n !in cfg.byzantine)
    && forall n :: n in c.nodes ==>
         c.nodes[n] == NodeState(Memory(Genesis, 0, map[], map[], map[], {}, {}, {}, {}, false),
           Disk(Genesis, map[], {}, 0))
  }

  /** An execution: the acting node and its action at every step. */
  ghost predicate IsRun(cfg: Config, run: seq<Cluster>, acts: seq<(NodeId, Action)>)
  {
    && |run| == |acts| + 1
    && Init(cfg, run[0])
    && forall i :: 0 <= i < |acts| ==> NextBy(cfg, run[i], run[i + 1], acts[i].0, acts[i].1)
  }

  // ---------------------------------------------------------------- the invariant of one node

  /** Nothing of this height can be voted on again: it is final, or the node abstains there for good. */
  predicate Closed(d: Disk, h: nat)
  {
    h <= d.tip.Height() || h in d.quarantine
  }

  /** Every own vote is still recorded on disk, unless its height is closed. */
  ghost predicate VotesRecorded(n: NodeId, log: seq<Vote>, d: Disk)
  {
    forall v :: v in log && v.node == n ==>
      var h := v.block.Height();
      || Closed(d, h)
      || (v.Prevote? && v.round in RowAt(d.rows, h).prevotes && RowAt(d.rows, h).prevotes[v.round] == v.block)
      || (v.Precommit? && RowAt(d.rows, h).lock.Some?
          && (RowAt(d.rows, h).lock.value.round > v.round || RowAt(d.rows, h).lock.value == Lock(v.block, v.round)))
  }

  /** Every recorded vote was cast. */
  ghost predicate RecordsCast(n: NodeId, log: seq<Vote>, d: Disk)
  {
    forall h :: h in d.rows ==>
      && (d.rows[h].lock.Some? ==>
            var l := d.rows[h].lock.value;
            l.block.Height() == h && Precommit(n, l.round, l.block) in log)
      && (forall r :: r in d.rows[h].prevotes ==>
            d.rows[h].prevotes[r].Height() == h && Prevote(n, r, d.rows[h].prevotes[r]) in log)
  }

  /** Own votes are for children of own finalized blocks, in own committees. */
  ghost predicate VotesOnOwnChain(cfg: Config, n: NodeId, log: seq<Vote>, d: Disk)
  {
    forall v :: v in log && v.node == n ==>
      v.block.Child? && v.block.parent.On(d.tip) && n in cfg.committee(v.block.parent)
  }

  ghost predicate RowMatches(locks: map<nat, Lock>, prevotes: map<(nat, nat), Block>, rows: map<nat, SafetyRow>, h: nat)
  {
    Lookup(locks, h) == RowAt(rows, h).lock && PrevotesAt(prevotes, h) == RowAt(rows, h).prevotes
  }

  /** A running node's memory is exactly what its database holds. */
  ghost predicate MemoryIsDisk(s: NodeState)
  {
    && s.mem.tip == s.disk.tip
    && (forall h :: h in s.mem.abstain <==> h in s.disk.quarantine)
    && forall h :: RowMatches(s.mem.locks, s.mem.prevotes, s.disk.rows, h)
  }

  ghost predicate OutboxCast(n: NodeId, log: seq<Vote>, outbox: set<Vote>)
  {
    forall v :: v in outbox ==> v in log && v.node == n
  }

  ghost predicate NodeInv(cfg: Config, n: NodeId, log: seq<Vote>, s: NodeState)
  {
    && n !in cfg.byzantine
    && VotesRecorded(n, log, s.disk)
    && RecordsCast(n, log, s.disk)
    && VotesOnOwnChain(cfg, n, log, s.disk)
    && ChainCommitted(cfg, log, s.disk.tip)
    && s.mem.tip.On(s.disk.tip)
    && (!s.mem.failed ==> MemoryIsDisk(s) && OutboxCast(n, log, s.mem.outbox))
  }

  ghost predicate ClusterInv(cfg: Config, c: Cluster)
  {
    LogInv(cfg, c.log) && forall n :: n in c.nodes ==> NodeInv(cfg, n, c.log, c.nodes[n])
  }

  // ---------------------------------------------------------------- growing the log

  lemma OtherNodeKeeps(cfg: Config, n: NodeId, log: seq<Vote>, more: seq<Vote>, s: NodeState)
    requires NodeInv(cfg, n, log, s)
    requires log <= more
    requires forall v :: v in more && v !in log ==> v.node != n
    ensures NodeInv(cfg, n, more, s)
  {
    ChainCommittedGrows(cfg, log, more, s.disk.tip);
  }

  lemma VotesOnFinalParentGrows(cfg: Config, log: seq<Vote>, v: Vote)
    requires VotesOnFinalParent(cfg, log)
    requires v.block.Child? && v.node in cfg.committee(v.block.parent) && ChainCommitted(cfg, log, v.block.parent)
    ensures VotesOnFinalParent(cfg, log + [v])
  {
    forall w | w in log + [v] && w.node !in cfg.byzantine
      ensures w.block.Child? && w.node in cfg.committee(w.block.parent)
        && ChainCommitted(cfg, log + [v], w.block.parent)
    {
      assert w in log || w == v;
      ChainCommittedGrows(cfg, log, log + [v], w.block.parent);
    }
  }

  lemma PrecommitOnPolkaGrows(cfg: Config, log: seq<Vote>, v: Vote)
    requires PrecommitOnPolka(cfg, log)
    requires v.Precommit? ==> Polka(cfg, log, v.round, v.block)
    ensures PrecommitOnPolka(cfg, log + [v])
  {
    var more := log + [v];
    forall i | 0 <= i < |more| && more[i].Precommit? && more[i].node !in cfg.byzantine
      ensures Polka(cfg, more[..i], more[i].round, more[i].block)
    {
      assert more[..i] == log[..i];
      assert i == |log| ==> log[..i] == log;
    }
  }

  /** Appending a prevote allowed by the lock rule. */
  lemma AppendPrevote(cfg: Config, log: seq<Vote>, v: Vote)
    requires LogInv(cfg, log) && v.Prevote?
    requires v.block.Child? && v.node in cfg.committee(v.block.parent) && ChainCommitted(cfg, log, v.block.parent)
    requires forall w :: w in log && w.Prevote? && SameSlot(v, w) ==> w.block == v.block
    requires forall w | w in log && w.Precommit? && w.node == v.node && w.block.Height() == v.block.Height() ::
               w.round < v.round && w.block != v.block ==> PolkaBetween(cfg, log, w.round, v.round, v.block)
    ensures LogInv(cfg, log + [v])
  {
    var more := log + [v];
    VotesOnFinalParentGrows(cfg, log, v);
    PrecommitOnPolkaGrows(cfg, log, v);
    assert forall w :: w in more <==> w in log || w == v;
    forall i, j | && 0 <= i < |more| && more[i].Prevote? && 0 <= j < |more| && more[j].Precommit?
                  && more[i].node !in cfg.byzantine && more[j].node == more[i].node
                  && more[j].block.Height() == more[i].block.Height()
                  && more[j].round < more[i].round && more[j].block != more[i].block
      ensures PolkaBetween(cfg, more[..i], more[j].round, more[i].round, more[i].block)
    {
      assert more[j] in log && log[j] == more[j];
      assert more[..i] == log[..i];
      assert i == |log| ==> log[..i] == log;
    }
  }

  /** Appending a precommit on a polka, above every own prevote of that height. */
  lemma AppendPrecommit(cfg: Config, log: seq<Vote>, v: Vote)
    requires LogInv(cfg, log) && v.Precommit?
    requires v.block.Child? && v.node in cfg.committee(v.block.parent) && ChainCommitted(cfg, log, v.block.parent)
    requires Polka(cfg, log, v.round, v.block)
    requires forall w :: w in log && w.Precommit? && SameSlot(v, w) ==> w.block == v.block
    requires forall w :: w in log && w.Prevote? && w.node == v.node && w.block.Height() == v.block.Height() ==>
      w.round <= v.round
    ensures LogInv(cfg, log + [v])
  {
    var more := log + [v];
    VotesOnFinalParentGrows(cfg, log, v);
    PrecommitOnPolkaGrows(cfg, log, v);
    assert forall w :: w in more <==> w in log || w == v;
    forall i, j | && 0 <= i < |more| && more[i].Prevote? && 0 <= j < |more| && more[j].Precommit?
                  && more[i].node !in cfg.byzantine && more[j].node == more[i].node
                  && more[j].block.Height() == more[i].block.Height()
                  && more[j].round < more[i].round && more[j].block != more[i].block
      ensures PolkaBetween(cfg, more[..i], more[j].round, more[i].round, more[i].block)
    {
      assert more[i] in log && log[i] == more[i];
      assert more[..i] == log[..i];
      assert j < |log| && log[j] == more[j];
    }
  }

  // ---------------------------------------------------------------- each action keeps the invariant

  /** An own vote at the open height is on record there. */
  lemma OpenVoteRecorded(cfg: Config, n: NodeId, log: seq<Vote>, s: NodeState, v: Vote)
    requires NodeInv(cfg, n, log, s) && !s.mem.failed
    requires v in log && v.node == n
    requires v.block.Height() == s.mem.tip.Height() + 1 && v.block.Height() !in s.mem.abstain
    ensures v.Prevote? ==> (v.block.Height(), v.round) in s.mem.prevotes
                           && s.mem.prevotes[(v.block.Height(), v.round)] == v.block
    ensures v.Precommit? ==> v.block.Height() in s.mem.locks
                             && (s.mem.locks[v.block.Height()].round > v.round
                                 || s.mem.locks[v.block.Height()] == Lock(v.block, v.round))
  {
    var h := v.block.Height();
    assert !Closed(s.disk, h);
    assert RowMatches(s.mem.locks, s.mem.prevotes, s.disk.rows, h);
  }

  lemma PrevoteLegal(cfg: Config, n: NodeId, log: seq<Vote>, s: NodeState, r: nat, b: Block, pol: Option<nat>)
    requires LogInv(cfg, log) && NodeInv(cfg, n, log, s) && !s.mem.failed
    requires b.Child? && b.parent == s.mem.tip && ShapeOk(r, b, pol)
    requires MayPrevote(Member(cfg, n, b.parent), s.mem, r, b, pol, true)
    requires pol.Some? ==> Polka(cfg, log, pol.value, b)
    ensures LogInv(cfg, log + [Prevote(n, r, b)])
  {
    var v := Prevote(n, r, b);
    var h := b.Height();
    forall w | w in log && w.Prevote? && w.node == n && w.block.Height() == h
      ensures w.round != r
    {
      OpenVoteRecorded(cfg, n, log, s, w);
    }
    forall w | w in log && w.Precommit? && w.node == n && w.block.Height() == h
      ensures w.round < r && w.block != b ==> PolkaBetween(cfg, log, w.round, r, b)
    {
      OpenVoteRecorded(cfg, n, log, s, w);
      var l := s.mem.locks[h];
      if w.round < r && w.block != b {
        if l.block == b {
          assert RowMatches(s.mem.locks, s.mem.prevotes, s.disk.rows, h);
          LockHasPolka(cfg, n, log, s, h);
          assert w.round <= l.round <= r && Polka(cfg, log, l.round, b);
        } else {
          assert w.round <= pol.value <= r && Polka(cfg, log, pol.value, b);
        }
      }
    }
    AppendPrevote(cfg, log, v);
  }

  lemma LockHasPolka(cfg: Config, n: NodeId, log: seq<Vote>, s: NodeState, h: nat)
    requires LogInv(cfg, log) && NodeInv(cfg, n, log, s) && !s.mem.failed && h in s.mem.locks
    ensures Polka(cfg, log, s.mem.locks[h].round, s.mem.locks[h].block)
  {
    var l := s.mem.locks[h];
    assert RowMatches(s.mem.locks, s.mem.prevotes, s.disk.rows, h);
    assert Precommit(n, l.round, l.block) in log;
    var i :| 0 <= i < |log| && log[i] == Precommit(n, l.round, l.block);
    PolkaGrows(cfg, log[..i], log, l.round, l.block);
  }

  lemma PrecommitLegal(cfg: Config, n: NodeId, log: seq<Vote>, s: NodeState, r: nat, b: Block)
    requires LogInv(cfg, log) && NodeInv(cfg, n, log, s) && !s.mem.failed
    requires b.Child? && b.parent == s.mem.tip && MayPrecommit(Member(cfg, n, b.parent), s.mem, r, b, true)
    requires Polka(cfg, log, r, b)
    requires b.Height() in s.mem.locks ==> s.mem.locks[b.Height()].round < r
    ensures LogInv(cfg, log + [Precommit(n, r, b)])
  {
    var v := Precommit(n, r, b);
    var h := b.Height();
    forall w | w in log && w.node == n && w.block.Height() == h
      ensures w.Precommit? ==> w.round < r
      ensures w.Prevote? ==> w.round <= r
    {
      OpenVoteRecorded(cfg, n, log, s, w);
    }
    AppendPrecommit(cfg, log, v);
  }

  /** The row written for v keeps what was recorded before and adds v. */
  ghost predicate RowAdds(before: SafetyRow, v: Vote, row: SafetyRow)
  {
    if v.Prevote? then
      v.round !in before.prevotes && row.lock == before.lock && row.prevotes == before.prevotes[v.round := v.block]
    else
      && (before.lock.Some? ==> before.lock.value.round < v.round)
      && row.lock == Some(Lock(v.block, v.round)) && row.prevotes == before.prevotes
  }

  ghost predicate DiskAdds(d: Disk, v: Vote, row: SafetyRow, d': Disk)
  {
    var h := v.block.Height();
    && RowAdds(RowAt(d.rows, h), v, row)
    && d'.tip == d.tip && d'.rows == d.rows[h := row] && d'.quarantine == d.quarantine
  }

  lemma VotesStayRecorded(n: NodeId, log: seq<Vote>, d: Disk, v: Vote, row: SafetyRow, d': Disk)
    requires VotesRecorded(n, log, d) && DiskAdds(d, v, row, d')
    ensures VotesRecorded(n, log + [v], d')
  {
    forall w | w in log + [v] && w.node == n
      ensures
        var k := w.block.Height();
        || Closed(d', k)
        || (w.Prevote? && w.round in RowAt(d'.rows, k).prevotes && RowAt(d'.rows, k).prevotes[w.round] == w.block)
        || (w.Precommit? && RowAt(d'.rows, k).lock.Some?
            && (RowAt(d'.rows, k).lock.value.round > w.round || RowAt(d'.rows, k).lock.value == Lock(w.block, w.round)))
    {
      if w == v {
        assert RowAt(d'.rows, v.block.Height()) == row;
      } else {
        assert w in log;
      }
    }
  }

  lemma RecordsStayCast(n: NodeId, log: seq<Vote>, d: Disk, v: Vote, row: SafetyRow, d': Disk)
    requires RecordsCast(n, log, d) && DiskAdds(d, v, row, d') && v.node == n
    ensures RecordsCast(n, log + [v], d')
  {
    assert forall w :: w in log ==> w in log + [v];
    assert v in log + [v];
    var h := v.block.Height();
    forall k | k in d'.rows
      ensures d'.rows[k].lock.Some? ==>
                var l := d'.rows[k].lock.value;
                l.block.Height() == k && Precommit(n, l.round, l.block) in log + [v]
      ensures forall r :: r in d'.rows[k].prevotes ==>
                d'.rows[k].prevotes[r].Height() == k && Prevote(n, r, d'.rows[k].prevotes[r]) in log + [v]
    {
      if k == h {
        assert h in d.rows ==> RowAt(d.rows, h) == d.rows[h];
      }
    }
  }

  /** A vote that reached the disk: the rest of the node's invariant, with the process stopped. */
  lemma CastKeepsDisk(cfg: Config, n: NodeId, log: seq<Vote>, s: NodeState, v: Vote, row: SafetyRow, s': NodeState)
    requires NodeInv(cfg, n, log, s) && s'.mem.tip == s.mem.tip
    requires v.node == n && v.block.Child? && v.block.parent == s.disk.tip && n in cfg.committee(v.block.parent)
    requires DiskAdds(s.disk, v, row, s'.disk) && s'.mem.failed
    ensures NodeInv(cfg, n, log + [v], s')
  {
    VotesStayRecorded(n, log, s.disk, v, row, s'.disk);
    RecordsStayCast(n, log, s.disk, v, row, s'.disk);
    ChainCommittedGrows(cfg, log, log + [v], s.disk.tip);
  }

  /** Writing row `k` and publishing the same change in memory keeps every height matching. */
  lemma RowMatchesAfterWrite(
      locks: map<nat, Lock>, prevotes: map<(nat, nat), Block>, rows: map<nat, SafetyRow>,
      locks': map<nat, Lock>, prevotes': map<(nat, nat), Block>, row: SafetyRow, k: nat, h: nat)
    requires RowMatches(locks, prevotes, rows, h)
    requires h != k ==> Lookup(locks', h) == Lookup(locks, h) && PrevotesAt(prevotes', h) == PrevotesAt(prevotes, h)
    requires h == k ==> row.lock == Lookup(locks', k) && row.prevotes == PrevotesAt(prevotes', k)
    ensures RowMatches(locks', prevotes', rows[k := row], h)
  {
  }

  lemma MemoryAfterPrevote(n: NodeId, s: NodeState, r: nat, b: Block)
    requires MemoryIsDisk(s) && !s.mem.failed
    ensures MemoryIsDisk(RecordPrevote(n, s, r, b, Durable).state)
  {
    var k := b.Height();
    var row := RowOf(s.mem, k).(prevotes := RowOf(s.mem, k).prevotes[r := b]);
    var prevotes, rows := s.mem.prevotes[(k, r) := b], s.disk.rows[k := row];
    forall h
      ensures RowMatches(s.mem.locks, prevotes, rows, h)
    {
      assert RowMatches(s.mem.locks, s.mem.prevotes, s.disk.rows, h);
      PrevotesAtUpdate(s.mem.prevotes, k, r, b, h);
      RowMatchesAfterWrite(s.mem.locks, s.mem.prevotes, s.disk.rows, s.mem.locks, prevotes, row, k, h);
    }
  }

  lemma LockRowsMatch(s: NodeState, k: nat, lock: Lock, row: SafetyRow, locks: map<nat, Lock>,
                      rows: map<nat, SafetyRow>)
    requires MemoryIsDisk(s) && row.lock == Some(lock) && row.prevotes == PrevotesAt(s.mem.prevotes, k)
    requires locks == s.mem.locks[k := lock] && rows == s.disk.rows[k := row]
    ensures forall h :: RowMatches(locks, s.mem.prevotes, rows, h)
  {
    forall h
      ensures RowMatches(locks, s.mem.prevotes, rows, h)
    {
      assert RowMatches(s.mem.locks, s.mem.prevotes, s.disk.rows, h);
      RowMatchesAfterWrite(s.mem.locks, s.mem.prevotes, s.disk.rows, locks, s.mem.prevotes, row, k, h);
    }
  }

  lemma LockedState(n: NodeId, s: NodeState, r: nat, b: Block)
    requires !s.mem.failed && (b.Height() in s.mem.locks ==> s.mem.locks[b.Height()].round < r)
    ensures
      var t := LockAndPrecommit(n, s, r, b, Durable).state;
      var k := b.Height();
      && t.mem.tip == s.mem.tip && t.disk.tip == s.disk.tip && t.mem.abstain == s.mem.abstain
      && t.disk.quarantine == s.disk.quarantine && t.mem.prevotes == s.mem.prevotes
      && t.mem.locks == s.mem.locks[k := Lock(b, r)]
      && t.disk.rows == s.disk.rows[k := RowOf(s.mem, k).(lock := Some(Lock(b, r)))]
  {
  }

  lemma MemoryAfterPrecommit(n: NodeId, s: NodeState, r: nat, b: Block)
    requires MemoryIsDisk(s) && !s.mem.failed
    requires b.Height() in s.mem.locks ==> s.mem.locks[b.Height()].round < r
    ensures MemoryIsDisk(LockAndPrecommit(n, s, r, b, Durable).state)
  {
    var t, k := LockAndPrecommit(n, s, r, b, Durable).state, b.Height();
    LockedState(n, s, r, b);
    LockRowsMatch(s, k, Lock(b, r), RowOf(s.mem, k).(lock := Some(Lock(b, r))), t.mem.locks, t.disk.rows);
  }

  lemma NotedState(s: NodeState, r: nat, b: Block)
    requires !s.mem.failed
    ensures
      var t, k := NoteValidPolka(s, r, b, Durable), b.Height();
      && t.mem.tip == s.mem.tip && t.disk.tip == s.disk.tip && t.mem.abstain == s.mem.abstain
      && t.disk.quarantine == s.disk.quarantine && t.mem.prevotes == s.mem.prevotes && t.mem.locks == s.mem.locks
      && (t.disk.rows == s.disk.rows
            || t.disk.rows == s.disk.rows[k := RowOf(s.mem, k).(validPolka := Some(Lock(b, r)))])
  {
  }

  lemma SameRowsMatch(s: NodeState, k: nat, row: SafetyRow, rows: map<nat, SafetyRow>)
    requires MemoryIsDisk(s) && row.lock == Lookup(s.mem.locks, k) && row.prevotes == PrevotesAt(s.mem.prevotes, k)
    requires rows == s.disk.rows[k := row]
    ensures forall h :: RowMatches(s.mem.locks, s.mem.prevotes, rows, h)
  {
    forall h
      ensures RowMatches(s.mem.locks, s.mem.prevotes, rows, h)
    {
      assert RowMatches(s.mem.locks, s.mem.prevotes, s.disk.rows, h);
      RowMatchesAfterWrite(s.mem.locks, s.mem.prevotes, s.disk.rows, s.mem.locks, s.mem.prevotes, row, k, h);
    }
  }

  lemma MemoryAfterPolka(s: NodeState, r: nat, b: Block)
    requires MemoryIsDisk(s) && !s.mem.failed
    ensures MemoryIsDisk(NoteValidPolka(s, r, b, Durable))
  {
    var t, k := NoteValidPolka(s, r, b, Durable), b.Height();
    NotedState(s, r, b);
    if t.disk.rows != s.disk.rows {
      SameRowsMatch(s, k, RowOf(s.mem, k).(validPolka := Some(Lock(b, r))), t.disk.rows);
    }
  }

  /** A prevote that reached the disk, whether or not the write reported success. */
  lemma PrevoteCastKeeps(cfg: Config, n: NodeId, log: seq<Vote>, s: NodeState, r: nat, b: Block, w: Write)
    requires NodeInv(cfg, n, log, s) && !s.mem.failed && !w.Lost?
    requires b.Child? && b.parent == s.mem.tip && n in cfg.committee(b.parent) && (b.Height(), r) !in s.mem.prevotes
    ensures NodeInv(cfg, n, log + [Prevote(n, r, b)], RecordPrevote(n, s, r, b, w).state)
  {
    var t := RecordPrevote(n, s, r, b, w).state;
    var row := RowOf(s.mem, b.Height());
    assert RowMatches(s.mem.locks, s.mem.prevotes, s.disk.rows, b.Height());
    CastKeepsDisk(cfg, n, log, s, Prevote(n, r, b), row.(prevotes := row.prevotes[r := b]),
      t.(mem := t.mem.(failed := true)));
    MemoryAfterPrevote(n, s, r, b);
  }

  lemma RecordPrevoteKeeps(cfg: Config, n: NodeId, log: seq<Vote>, s: NodeState, r: nat, b: Block, pol: Option<nat>,
                           w: Write)
    requires LogInv(cfg, log) && NodeInv(cfg, n, log, s) && !s.mem.failed
    requires b.Child? && b.parent == s.mem.tip && ShapeOk(r, b, pol)
    requires MayPrevote(Member(cfg, n, b.parent), s.mem, r, b, pol, true)
    requires pol.Some? ==> Polka(cfg, log, pol.value, b)
    ensures
      var step := RecordPrevote(n, s, r, b, w);
      && (step.cast.Some? ==> step.cast.value.node == n)
      && LogInv(cfg, Extend(log, step.cast)) && NodeInv(cfg, n, Extend(log, step.cast), step.state)
  {
    var step := RecordPrevote(n, s, r, b, w);
    if w.Lost? {
      assert step == Silent(s.(mem := s.mem.(failed := true)));
    } else {
      assert step.cast == Some(Prevote(n, r, b));
      PrevoteLegal(cfg, n, log, s, r, b, pol);
      PrevoteCastKeeps(cfg, n, log, s, r, b, w);
    }
  }

  lemma ProposeKeeps(
      cfg: Config, n: NodeId, log: seq<Vote>, s: NodeState, r: nat, b: Block, pol: Option<nat>, ready: bool, w: Write)
    requires LogInv(cfg, log) && NodeInv(cfg, n, log, s)
    requires pol.Some? ==> Polka(cfg, log, pol.value, b)
    ensures
      var step := HandlePropose(n, Member(cfg, n, s.mem.tip), s, r, b, pol, ready, w);
      && (step.cast.Some? ==> step.cast.value.node == n)
      && LogInv(cfg, Extend(log, step.cast)) && NodeInv(cfg, n, Extend(log, step.cast), step.state)
  {
    var s1 := s.(mem := s.mem.(currentRound := r));
    assert NodeInv(cfg, n, log, s1);
    if && b.Child? && b.parent == s.mem.tip && ShapeOk(r, b, pol) && !s.mem.failed
       && MayPrevote(Member(cfg, n, s.mem.tip), s1.mem, r, b, pol, ready) {
      RecordPrevoteKeeps(cfg, n, log, s1, r, b, pol, w);
    }
  }

  /** Rewriting a row without touching its votes changes nothing the invariant speaks of. */
  lemma SameVotesKept(n: NodeId, log: seq<Vote>, d: Disk, h: nat, row: SafetyRow, d': Disk)
    requires VotesRecorded(n, log, d) && RecordsCast(n, log, d)
    requires row.lock == RowAt(d.rows, h).lock && row.prevotes == RowAt(d.rows, h).prevotes
    requires d'.tip == d.tip && d'.rows == d.rows[h := row] && d'.quarantine == d.quarantine
    ensures VotesRecorded(n, log, d') && RecordsCast(n, log, d')
  {
    assert forall k ::
      RowAt(d'.rows, k).lock == RowAt(d.rows, k).lock && RowAt(d'.rows, k).prevotes == RowAt(d.rows, k).prevotes;
    forall v | v in log && v.node == n
      ensures
        var k := v.block.Height();
        || Closed(d', k)
        || (v.Prevote? && v.round in RowAt(d'.rows, k).prevotes && RowAt(d'.rows, k).prevotes[v.round] == v.block)
        || (v.Precommit? && RowAt(d'.rows, k).lock.Some?
            && (RowAt(d'.rows, k).lock.value.round > v.round || RowAt(d'.rows, k).lock.value == Lock(v.block, v.round)))
    {
      assert Closed(d, v.block.Height()) ==> Closed(d', v.block.Height());
    }
  }

  lemma NotePolkaKeeps(cfg: Config, n: NodeId, log: seq<Vote>, s: NodeState, r: nat, b: Block, w: Write)
    requires NodeInv(cfg, n, log, s)
    ensures NodeInv(cfg, n, log, NoteValidPolka(s, r, b, w))
  {
    var h := b.Height();
    var s' := NoteValidPolka(s, r, b, w);
    if !s.mem.failed && s' != s {
      assert RowMatches(s.mem.locks, s.mem.prevotes, s.disk.rows, h);
      if !w.Lost? {
        SameVotesKept(n, log, s.disk, h, RowOf(s.mem, h).(validPolka := Some(Lock(b, r))), s'.disk);
      }
      MemoryAfterPolka(s, r, b);
    }
  }

  lemma LockWrites(n: NodeId, s: NodeState, r: nat, b: Block, w: Write)
    requires !s.mem.failed && !w.Lost? && MemoryIsDisk(s)
    requires b.Height() in s.mem.locks ==> s.mem.locks[b.Height()].round < r
    ensures
      var step := LockAndPrecommit(n, s, r, b, w);
      && step.cast == Some(Precommit(n, r, b))
      && DiskAdds(s.disk, Precommit(n, r, b), RowOf(s.mem, b.Height()).(lock := Some(Lock(b, r))), step.state.disk)
      && (step.state.mem.failed <==> !w.Durable?)
      && (w.Durable? ==> step.state.mem.outbox == s.mem.outbox + {Precommit(n, r, b)})
  {
    assert RowMatches(s.mem.locks, s.mem.prevotes, s.disk.rows, b.Height());
  }

  lemma LockCastKeeps(cfg: Config, n: NodeId, log: seq<Vote>, s: NodeState, r: nat, b: Block, w: Write)
    requires LogInv(cfg, log) && NodeInv(cfg, n, log, s) && !s.mem.failed && !w.Lost?
    requires b.Child? && b.parent == s.mem.tip && MayPrecommit(Member(cfg, n, b.parent), s.mem, r, b, true)
    requires Polka(cfg, log, r, b)
    requires b.Height() in s.mem.locks ==> s.mem.locks[b.Height()].round < r
    ensures LogInv(cfg, log + [Precommit(n, r, b)])
    ensures NodeInv(cfg, n, log + [Precommit(n, r, b)], LockAndPrecommit(n, s, r, b, w).state)
  {
    var s' := LockAndPrecommit(n, s, r, b, w).state;
    var v := Precommit(n, r, b);
    PrecommitLegal(cfg, n, log, s, r, b);
    LockWrites(n, s, r, b, w);
    CastKeepsDisk(cfg, n, log, s, v, RowOf(s.mem, b.Height()).(lock := Some(Lock(b, r))),
      s'.(mem := s'.mem.(failed := true)));
    MemoryAfterPrecommit(n, s, r, b);
  }

  /** A lock already held at this round or later: nothing is cast, a precommit may be sent again. */
  lemma LockRepeats(cfg: Config, n: NodeId, log: seq<Vote>, s: NodeState, r: nat, b: Block, w: Write)
    requires NodeInv(cfg, n, log, s) && !s.mem.failed && b.Height() in s.mem.locks && r <= s.mem.locks[b.Height()].round
    ensures LockAndPrecommit(n, s, r, b, w).cast == None && NodeInv(cfg, n, log, LockAndPrecommit(n, s, r, b, w).state)
  {
    assert RowMatches(s.mem.locks, s.mem.prevotes, s.disk.rows, b.Height());
  }

  lemma LockKeeps(cfg: Config, n: NodeId, log: seq<Vote>, s: NodeState, r: nat, b: Block, w: Write)
    requires LogInv(cfg, log) && NodeInv(cfg, n, log, s) && !s.mem.failed
    requires b.Child? && b.parent == s.mem.tip && MayPrecommit(Member(cfg, n, b.parent), s.mem, r, b, true)
    requires Polka(cfg, log, r, b)
    ensures
      var step := LockAndPrecommit(n, s, r, b, w);
      && (step.cast.Some? ==> step.cast.value.node == n)
      && LogInv(cfg, Extend(log, step.cast)) && NodeInv(cfg, n, Extend(log, step.cast), step.state)
  {
    var h := b.Height();
    if h in s.mem.locks && r <= s.mem.locks[h].round {
      LockRepeats(cfg, n, log, s, r, b, w);
    } else if w.Lost? {
      assert LockAndPrecommit(n, s, r, b, w) == Silent(s.(mem := s.mem.(failed := true)));
    } else {
      LockWrites(n, s, r, b, w);
      LockCastKeeps(cfg, n, log, s, r, b, w);
    }
  }

  lemma PolkaKeeps(
      cfg: Config, n: NodeId, log: seq<Vote>, s: NodeState, r: nat, b: Block, ready: bool, w1: Write, w2: Write)
    requires LogInv(cfg, log) && NodeInv(cfg, n, log, s) && Polka(cfg, log, r, b)
    ensures
      var step := OnPolka(n, Member(cfg, n, s.mem.tip), s, r, b, ready, w1, w2);
      && (step.cast.Some? ==> step.cast.value.node == n)
      && LogInv(cfg, Extend(log, step.cast)) && NodeInv(cfg, n, Extend(log, step.cast), step.state)
  {
    var s1 := NoteValidPolka(s, r, b, w1);
    var member := Member(cfg, n, s.mem.tip);
    var step := OnPolka(n, member, s, r, b, ready, w1, w2);
    NotePolkaKeeps(cfg, n, log, s, r, b, w1);
    if b.parent != s.mem.tip || r < b.round {
      assert step == Silent(s);
    } else if !MayPrecommit(member, s1.mem, r, b, ready) || s1.mem.failed {
      assert step == Silent(s1);
    } else {
      LockKeeps(cfg, n, log, s1, r, b, w2);
      assert step == LockAndPrecommit(n, s1, r, b, w2);
    }
  }

  lemma FinalRowsMatch(s: NodeState, b: Block)
    requires MemoryIsDisk(s) && !s.mem.failed && b.Child? && b.parent == s.mem.tip
    ensures MemoryIsDisk(VotingNode.Finalize(s, b, Durable))
  {
    var t := VotingNode.Finalize(s, b, Durable);
    forall k
      ensures RowMatches(t.mem.locks, t.mem.prevotes, t.disk.rows, k)
    {
      assert RowMatches(s.mem.locks, s.mem.prevotes, s.disk.rows, k);
      assert k != b.Height() ==> PrevotesAt(t.mem.prevotes, k) == PrevotesAt(s.mem.prevotes, k);
      assert k == b.Height() ==> PrevotesAt(t.mem.prevotes, k) == map[];
    }
  }

  lemma FinalVotesOnChain(cfg: Config, n: NodeId, log: seq<Vote>, d: Disk, d': Disk)
    requires VotesOnOwnChain(cfg, n, log, d) && d'.tip.Child? && d'.tip.parent == d.tip
    ensures VotesOnOwnChain(cfg, n, log, d')
  {
    forall v | v in log && v.node == n
      ensures v.block.parent.On(d'.tip)
    {
      assert v.block.parent.On(d.tip);
    }
  }

  lemma FinalizeKeeps(cfg: Config, n: NodeId, log: seq<Vote>, s: NodeState, r: nat, b: Block, w: Write)
    requires NodeInv(cfg, n, log, s) && Committed(cfg, log, r, b)
    ensures NodeInv(cfg, n, log, VotingNode.Finalize(s, b, w))
  {
    var s' := VotingNode.Finalize(s, b, w);
    if !s.mem.failed && b.parent == s.mem.tip && !w.Lost? {
      assert s'.disk.tip == b && b.parent == s.disk.tip;
      FinalVotesOnChain(cfg, n, log, s.disk, s'.disk);
      FinalRowsMatch(s, b);
      assert VotesRecorded(n, log, s'.disk);
    }
  }

  ghost function Reload(cfg: Config, n: NodeId, d: Disk, m: Media): Disk
  {
    LoadDisk(d, m, Member(cfg, n, d.tip), |cfg.committee(d.tip)|)
  }

  /** A vote of an open height is for a child of the tip, and its row holds a vote. */
  lemma OpenVote(cfg: Config, n: NodeId, log: seq<Vote>, d: Disk, v: Vote)
    requires VotesRecorded(n, log, d) && VotesOnOwnChain(cfg, n, log, d)
    requires v in log && v.node == n && !Closed(d, v.block.Height())
    ensures v.block.Height() == d.tip.Height() + 1 && n in cfg.committee(d.tip)
    ensures v.block.Height() in d.rows && HasVote(d.rows[v.block.Height()])
  {
    OnHeight(v.block.parent, d.tip);
  }

  /** An own vote above the finalized chain is for a child of the tip, by a member of its committee. */
  lemma OwnVote(cfg: Config, n: NodeId, log: seq<Vote>, d: Disk, v: Vote)
    requires VotesOnOwnChain(cfg, n, log, d) && v in log && v.node == n && v.block.Height() > d.tip.Height()
    ensures v.block.Height() == d.tip.Height() + 1 && n in cfg.committee(d.tip)
  {
    OnHeight(v.block.parent, d.tip);
  }

  /** What the load leaves of an open height at which the node may vote. */
  lemma LoadedHeight(cfg: Config, n: NodeId, d: Disk, m: Media, h: nat)
    requires NoImpostor(d, m) && h > d.tip.Height() && n in cfg.committee(d.tip)
    ensures
      var d' := Reload(cfg, n, d, m);
      && (h in d'.quarantine <==> GivenUp(m, d.tip.Height(), h))
      && (h in d'.rows <==> Trusted(m, h).Some?)
      && (h in d'.rows ==> h in d.rows && d'.rows[h] == d.rows[h])
  {
  }

  lemma LoadedVotesRecorded(cfg: Config, n: NodeId, log: seq<Vote>, d: Disk, m: Media)
    requires VotesRecorded(n, log, d) && VotesOnOwnChain(cfg, n, log, d) && NoImpostor(d, m) && Covered(n, log, d, m)
    ensures VotesRecorded(n, log, Reload(cfg, n, d, m))
  {
    var d' := Reload(cfg, n, d, m);
    forall v | v in log && v.node == n && !Closed(d', v.block.Height())
      ensures !Closed(d, v.block.Height()) && RowAt(d'.rows, v.block.Height()) == RowAt(d.rows, v.block.Height())
    {
      var h := v.block.Height();
      assert Voted(n, log, h);
      OwnVote(cfg, n, log, d, v);
      LoadedHeight(cfg, n, d, m, h);
    }
  }

  lemma LoadedRecordsCast(cfg: Config, n: NodeId, log: seq<Vote>, d: Disk, m: Media)
    requires RecordsCast(n, log, d) && NoImpostor(d, m)
    ensures RecordsCast(n, log, Reload(cfg, n, d, m))
  {
    var d' := Reload(cfg, n, d, m);
    assert forall h :: h in d'.rows ==> h in d.rows && d'.rows[h] == d.rows[h];
  }

  lemma RestartKeeps(cfg: Config, n: NodeId, log: seq<Vote>, s: NodeState, m: Media)
    requires NodeInv(cfg, n, log, s) && NoImpostor(s.disk, m) && Covered(n, log, s.disk, m)
    ensures NodeInv(cfg, n, log, Loaded(Reload(cfg, n, s.disk, m)))
  {
    var s' := Loaded(Reload(cfg, n, s.disk, m));
    LoadedVotesRecorded(cfg, n, log, s.disk, m);
    LoadedRecordsCast(cfg, n, log, s.disk, m);
    forall h
      ensures RowMatches(s'.mem.locks, s'.mem.prevotes, s'.disk.rows, h)
    {
      PrevotesAtLoaded(s'.disk.rows, h);
    }
  }

  /** The vote a row holds, cast earlier. */
  lemma VoteOfRow(n: NodeId, log: seq<Vote>, d: Disk, h: nat) returns (v: Vote)
    requires RecordsCast(n, log, d) && h in d.rows && HasVote(d.rows[h])
    ensures v in log && v.node == n && v.block.Height() == h
  {
    if d.rows[h].lock.Some? {
      v := Precommit(n, d.rows[h].lock.value.round, d.rows[h].lock.value.block);
    } else {
      var r :| r in d.rows[h].prevotes;
      v := Prevote(n, r, d.rows[h].prevotes[r]);
    }
  }

  /** Every action of one node keeps its own invariant and the log's. */
  lemma StepKeeps(cfg: Config, n: NodeId, log: seq<Vote>, s: NodeState, a: Action)
    requires LogInv(cfg, log) && NodeInv(cfg, n, log, s) && Enabled(cfg, log, a) && Recoverable(n, log, s.disk, a)
    ensures
      var step := Apply(cfg, n, s, a);
      && (step.cast.Some? ==> step.cast.value.node == n)
      && LogInv(cfg, Extend(log, step.cast)) && NodeInv(cfg, n, Extend(log, step.cast), step.state)
  {
    match a
    case Propose(r, b, pol, ready, w) => ProposeKeeps(cfg, n, log, s, r, b, pol, ready, w);
    case SeePolka(r, b, ready, w, w2) => PolkaKeeps(cfg, n, log, s, r, b, ready, w, w2);
    case SeeCommit(r, b, w) => FinalizeKeeps(cfg, n, log, s, r, b, w);
    case MoveRound(_, _, _) =>
    case Stop =>
    case Start(m) => RestartKeeps(cfg, n, log, s, m);
  }

  lemma NextKeeps(cfg: Config, c: Cluster, c': Cluster, n: NodeId, a: Action)
    requires ClusterInv(cfg, c) && NextBy(cfg, c, c', n, a)
    ensures ClusterInv(cfg, c') && c.log <= c'.log && c'.nodes.Keys == c.nodes.Keys
  {
    StepKeeps(cfg, n, c.log, c.nodes[n], a);
    forall m | m in c'.nodes && m != n
      ensures NodeInv(cfg, m, c'.log, c'.nodes[m])
    {
      OtherNodeKeeps(cfg, m, c.log, c'.log, c.nodes[m]);
    }
  }

  lemma InitHolds(cfg: Config, c: Cluster)
    requires Init(cfg, c)
    ensures ClusterInv(cfg, c)
  {
    forall n | n in c.nodes
      ensures NodeInv(cfg, n, c.log, c.nodes[n])
    {
      assert forall h :: RowMatches(map[], map[], map[], h);
    }
  }

  lemma RunStepKeeps(cfg: Config, run: seq<Cluster>, acts: seq<(NodeId, Action)>, i: nat)
    requires IsRun(cfg, run, acts) && i < |acts| && ClusterInv(cfg, run[i])
    ensures ClusterInv(cfg, run[i + 1]) && run[i].log <= run[i + 1].log && run[i + 1].nodes.Keys == run[i].nodes.Keys
  {
    var c, c', n, a := run[i], run[i + 1], acts[i].0, acts[i].1;
    NextKeeps(cfg, c, c', n, a);
  }

  /** Every state of every run satisfies the invariant. */
  lemma {:induction false} RunKeeps(cfg: Config, run: seq<Cluster>, acts: seq<(NodeId, Action)>, i: nat)
    requires IsRun(cfg, run, acts) && i < |run|
    ensures ClusterInv(cfg, run[i])
    ensures i > 0 ==> run[i - 1].log <= run[i].log && run[i].nodes.Keys == run[i - 1].nodes.Keys
  {
    if i == 0 {
      InitHolds(cfg, run[0]);
    } else {
      RunKeeps(cfg, run, acts, i - 1);
      RunStepKeeps(cfg, run, acts, i - 1);
    }
  }

  lemma ExtendRun(cfg: Config, run: seq<Cluster>, acts: seq<(NodeId, Action)>, c: Cluster, c': Cluster, n: NodeId,
                  a: Action)
    requires IsRun(cfg, run, acts) && run[|acts|] == c && NextBy(cfg, c, c', n, a)
    ensures IsRun(cfg, run + [c'], acts + [(n, a)])
  {
    var more, does := run + [c'], acts + [(n, a)];
    forall i | 0 <= i < |does|
      ensures NextBy(cfg, more[i], more[i + 1], does[i].0, does[i].1)
    {
      if i < |acts| {
        assert NextBy(cfg, run[i], run[i + 1], acts[i].0, acts[i].1);
      }
    }
  }

  // ---------------------------------------------------------------- what every run guarantees

  lemma {:induction false} RunGrows(cfg: Config, run: seq<Cluster>, acts: seq<(NodeId, Action)>, i: nat, j: nat)
    requires IsRun(cfg, run, acts) && i <= j < |run|
    ensures run[i].log <= run[j].log && run[i].nodes.Keys == run[j].nodes.Keys
    decreases j
  {
    if i < j {
      RunGrows(cfg, run, acts, i, j - 1);
      RunKeeps(cfg, run, acts, j);
    }
  }

  /** No fork: the finalized chains of any two correct nodes, at any two times, are one chain. */
  lemma NoFork(cfg: Config, run: seq<Cluster>, acts: seq<(NodeId, Action)>, i: nat, n: NodeId, j: nat, m: NodeId)
    requires FewFaults(cfg) && IsRun(cfg, run, acts) && i <= j < |run|
    requires n in run[i].nodes && m in run[j].nodes
    ensures
      var b, c := run[i].nodes[n].disk.tip, run[j].nodes[m].disk.tip;
      b.On(c) || c.On(b)
  {
    var b, c := run[i].nodes[n].disk.tip, run[j].nodes[m].disk.tip;
    RunKeeps(cfg, run, acts, i);
    RunKeeps(cfg, run, acts, j);
    RunGrows(cfg, run, acts, i, j);
    ChainCommittedGrows(cfg, run[i].log, run[j].log, b);
    if b.Height() <= c.Height() {
      ChainsAgree(cfg, run[j].log, b, c);
    } else {
      ChainsAgree(cfg, run[j].log, c, b);
    }
  }

  /** At any point of any run, at most one block per height has ever gathered a precommit quorum. */
  lemma RunAgreement(cfg: Config, run: seq<Cluster>, acts: seq<(NodeId, Action)>, i: nat, r: nat, b: Block, s: nat,
                     c: Block)
    requires FewFaults(cfg) && IsRun(cfg, run, acts) && i < |run|
    requires Committed(cfg, run[i].log, r, b) && Committed(cfg, run[i].log, s, c) && b.Height() == c.Height()
    ensures b == c
  {
    RunKeeps(cfg, run, acts, i);
    Agreement(cfg, run[i].log, r, b, s, c);
  }

  lemma TipGrows(cfg: Config, n: NodeId, s: NodeState, a: Action)
    requires a.SeeCommit? ==> a.block.Child?
    requires !s.mem.failed ==> s.mem.tip == s.disk.tip
    ensures s.disk.tip.On(Apply(cfg, n, s, a).state.disk.tip)
  {
    if a.SeeCommit? {
      assert s.disk.tip.On(s.disk.tip);
      assert a.block.parent == s.disk.tip ==> s.disk.tip.On(a.block);
    }
  }

  lemma TipsGrow(cfg: Config, c: Cluster, c': Cluster, n: NodeId, a: Action, m: NodeId)
    requires ClusterInv(cfg, c) && NextBy(cfg, c, c', n, a) && m in c.nodes
    ensures m in c'.nodes && c.nodes[m].disk.tip.On(c'.nodes[m].disk.tip)
  {
    TipGrows(cfg, n, c.nodes[n], a);
  }

  /** A finalized height never changes its transition or rolls back: not by crashes, failed writes or restarts. */
  lemma {:induction false} FinalityIsDurable(cfg: Config, run: seq<Cluster>, acts: seq<(NodeId, Action)>, i: nat,
                                             j: nat, n: NodeId)
    requires IsRun(cfg, run, acts) && i <= j < |run| && n in run[i].nodes
    ensures n in run[j].nodes
    ensures run[i].nodes[n].mem.tip.On(run[i].nodes[n].disk.tip)
    ensures run[i].nodes[n].disk.tip.On(run[j].nodes[n].disk.tip)
    decreases j
  {
    RunKeeps(cfg, run, acts, i);
    if i < j {
      FinalityIsDurable(cfg, run, acts, i, j - 1, n);
      RunKeeps(cfg, run, acts, j - 1);
      TipsGrow(cfg, run[j - 1], run[j], acts[j - 1].0, acts[j - 1].1, n);
      OnTransitive(run[i].nodes[n].disk.tip, run[j - 1].nodes[n].disk.tip, run[j].nodes[n].disk.tip);
    }
  }

  /** Whatever a correct node can put on the network was durable first, and stays on record until its height closes. */
  lemma SendableIsDurable(cfg: Config, run: seq<Cluster>, acts: seq<(NodeId, Action)>, i: nat, n: NodeId, v: Vote)
    requires IsRun(cfg, run, acts) && i < |run| && n in run[i].nodes
    requires Sendable(n, run[i].nodes[n], v)
    ensures v in run[i].log && v.node == n
    ensures
      var d := run[i].nodes[n].disk;
      var h := v.block.Height();
      || Closed(d, h)
      || (v.Prevote? && v.round in RowAt(d.rows, h).prevotes && RowAt(d.rows, h).prevotes[v.round] == v.block)
      || (v.Precommit? && RowAt(d.rows, h).lock.Some?
          && (RowAt(d.rows, h).lock.value.round > v.round || RowAt(d.rows, h).lock.value == Lock(v.block, v.round)))
  {
    RunKeeps(cfg, run, acts, i);
    var s := run[i].nodes[n];
    if v !in s.mem.outbox {
      if v.Prevote? {
        var k :| k in s.mem.prevotes && v == Prevote(n, k.1, s.mem.prevotes[k]);
        assert RowMatches(s.mem.locks, s.mem.prevotes, s.disk.rows, k.0);
      } else {
        var h :| h in s.mem.locks && v == Precommit(n, s.mem.locks[h].round, s.mem.locks[h].block);
        assert RowMatches(s.mem.locks, s.mem.prevotes, s.disk.rows, h);
      }
    }
  }

  /**
   No equivocation: over a whole run, restarts included, a correct node sends one vote of each kind per
   (height, round).
   */
  lemma NeverEquivocates(
      cfg: Config, run: seq<Cluster>, acts: seq<(NodeId, Action)>, i: nat, j: nat, n: NodeId, v: Vote, w: Vote)
    requires IsRun(cfg, run, acts) && i <= j < |run| && n in run[i].nodes && n in run[j].nodes
    requires Sendable(n, run[i].nodes[n], v) && Sendable(n, run[j].nodes[n], w)
    requires v.Prevote? == w.Prevote? && v.round == w.round && v.block.Height() == w.block.Height()
    ensures v == w
  {
    SendableIsDurable(cfg, run, acts, i, n, v);
    SendableIsDurable(cfg, run, acts, j, n, w);
    RunGrows(cfg, run, acts, i, j);
    RunKeeps(cfg, run, acts, j);
    assert SameSlot(v, w);
    assert n !in cfg.byzantine;
  }
}
