/**
 The fuzzer's oracle beside the voting code: what an observation of a node shows, what one step of the node
 changes of that, and what the oracle must know for the next vote to pass.
 */
module OracleViews {
  import opened Options
  import opened Blocks
  import opened VoteLog
  import opened VotingNode
  import opened Finality
  import opened Restarts
  import opened FuzzOracle
  import opened OracleScan
  import opened OracleAgreement

  type OracleMemory = FuzzOracle.Memory

  // ---------------------------------------------------------------- what an observation shows

  /** An own precommit of the open height in the vote pool: sent by this process, or the lock. */
  ghost predicate PoolHas(n: NodeId, mem: VotingNode.Memory, r: nat, b: Block)
  {
    var h := mem.tip.Height() + 1;
    b.Height() == h && (Precommit(n, r, b) in mem.outbox || (h in mem.locks && mem.locks[h] == Lock(b, r)))
  }

  /** A view of the process at its open height. The pool may have been cleared, but for the lock. */
  ghost predicate IsView(n: NodeId, mem: VotingNode.Memory, late: nat, v: View)
  {
    var h := mem.tip.Height() + 1;
    && v.late == late && v.tip == mem.tip && v.height == mem.tip.Height() && v.currentRound == mem.currentRound
    && v.lock == (if h in mem.locks then Some((mem.locks[h].block, mem.locks[h].round)) else None)
    && (forall j :: 0 <= j < |v.ids| ==> v.ids[j].Height() == h)
    && (forall r, b :: (r, b) in v.prevotes <==> (h, r) in mem.prevotes && mem.prevotes[(h, r)] == b)
    && (forall r, b :: (r, b) in v.precommits ==> PoolHas(n, mem, r, b))
    && (h in mem.locks ==> (mem.locks[h].round, mem.locks[h].block) in v.precommits)
  }

  /** The known ids and the window of rounds take in every own vote of the open height the oracle does not know. */
  ghost predicate Sees(n: NodeId, log: seq<Vote>, m: OracleMemory, v: View)
  {
    forall w :: w in log && w.node == n && w.block.Height() == v.height + 1 && !Recorded(m, w) ==>
      w.block in v.ids && w.round <= Window(m, v)
  }

  /** Signatures made after the fail-stop. */
  function Late(failed: bool, emitted: Option<Vote>): nat
  {
    if failed && emitted.Some? then 1 else 0
  }

  /** The accepted proposal of a step, as the oracle records it. */
  function AfterAccept(m: OracleMemory, a: Action): OracleMemory
  {
    if a.Propose? && ShapeOk(a.round, a.block, a.pol) then Pol(m, a.block.Height(), a.round, a.block, a.pol) else m
  }

  function Observed(m: OracleMemory, a: Action, v: View): (Option<Violation>, OracleMemory)
  {
    ObserveAll(AfterAccept(m, a), v, a.Start?)
  }

  // ---------------------------------------------------------------- what the oracle knows of the node

  /** Every own vote of the height is remembered, but for p. */
  ghost predicate KnowsHeight(log: seq<Vote>, n: NodeId, m: OracleMemory, h: nat, p: Option<Vote>)
  {
    forall w :: w in log && w.node == n && w.block.Height() == h ==> Recorded(m, w) || p == Some(w)
  }

  /** Every finalized block the oracle saw is on the node's chain. */
  ghost predicate HeightsOk(tip: Block, m: OracleMemory)
  {
    m.maxHeight <= tip.Height() && forall k :: k in m.finalized ==>
      m.finalized[k].Height() == k && m.finalized[k].On(tip)
  }

  /** Every vote a view of the process would show is remembered. */
  ghost predicate ShownKnown(n: NodeId, mem: VotingNode.Memory, m: OracleMemory)
  {
    var h := mem.tip.Height() + 1;
    && (forall r :: (h, r) in mem.prevotes ==>
          mem.prevotes[(h, r)].Height() == h && Recorded(m, Prevote(n, r, mem.prevotes[(h, r)])))
    && (forall r, b :: PoolHas(n, mem, r, b) ==> Recorded(m, Precommit(n, r, b)))
  }

  /** A vote that reached the disk as the process failed: not seen yet, and one the oracle will accept. */
  ghost predicate PendingOk(n: NodeId, log: seq<Vote>, s: NodeState, m: OracleMemory, p: Option<Vote>)
  {
    p.Some? ==>
      var h := p.value.block.Height();
      && s.mem.failed && p.value.node == n && p.value in log && h == s.disk.tip.Height() + 1 && h !in s.disk.quarantine
      && Tell(m, p.value).0 == None
      && (p.value.Precommit? ==> RowAt(s.disk.rows, h).lock == Some(Lock(p.value.block, p.value.round)))
  }

  ghost predicate Tracks(cfg: Config, log: seq<Vote>, n: NodeId, s: NodeState, m: OracleMemory, p: Option<Vote>)
  {
    var h := s.disk.tip.Height() + 1;
    && RealEntries(cfg, log, n, m) && HeightsOk(s.mem.tip, m) && PendingOk(n, log, s, m, p)
    && (h in s.disk.quarantine || KnowsHeight(log, n, m, h, p))
    && (s.mem.failed ==> ShownKnown(n, s.mem, m))
  }

  // ---------------------------------------------------------------- views

  lemma ShownView(n: NodeId, mem: VotingNode.Memory, late: nat, v: View, m: OracleMemory)
    requires IsView(n, mem, late, v) && ShownKnown(n, mem, m)
    ensures Familiar(n, v, m, None)
  {
    forall r, j | 0 <= j < |v.ids| && (r, v.ids[j]) in v.precommits
      ensures Recorded(m, Precommit(n, r, v.ids[j]))
    {
      assert PoolHas(n, mem, r, v.ids[j]);
    }
  }

  lemma HeldInLog(cfg: Config, n: NodeId, log: seq<Vote>, s: NodeState, h: nat)
    requires NodeInv(cfg, n, log, s) && !s.mem.failed && h == s.mem.tip.Height() + 1
    ensures forall r :: (h, r) in s.mem.prevotes ==>
              s.mem.prevotes[(h, r)].Height() == h && Prevote(n, r, s.mem.prevotes[(h, r)]) in log
    ensures forall r, b :: PoolHas(n, s.mem, r, b) ==> Precommit(n, r, b) in log
  {
    assert RowMatches(s.mem.locks, s.mem.prevotes, s.disk.rows, h);
    forall r | (h, r) in s.mem.prevotes
      ensures s.mem.prevotes[(h, r)].Height() == h && Prevote(n, r, s.mem.prevotes[(h, r)]) in log
    {
      assert r in PrevotesAt(s.mem.prevotes, h);
    }
  }

  /** A running process shows only votes of the log. */
  lemma TrueView(cfg: Config, n: NodeId, log: seq<Vote>, s: NodeState, late: nat, v: View)
    requires NodeInv(cfg, n, log, s) && !s.mem.failed && IsView(n, s.mem, late, v)
    ensures Truthful(log, n, v)
    ensures forall r, b :: (r, b) in v.precommits ==> Precommit(n, r, b) in log
    ensures forall r, b :: (r, b) in v.prevotes ==> Prevote(n, r, b) in log && b.Height() == v.height + 1
  {
    var h := s.mem.tip.Height() + 1;
    HeldInLog(cfg, n, log, s, h);
    forall r, b | (r, b) in v.precommits
      ensures Precommit(n, r, b) in log
    {
      assert PoolHas(n, s.mem, r, b);
    }
  }

  lemma NothingHeld(s: NodeState, h: nat)
    requires MemoryIsDisk(s) && QuarantineEmpty(s.disk) && h in s.disk.quarantine
    ensures h !in s.mem.locks && forall r :: (h, r) !in s.mem.prevotes
  {
    assert RowMatches(s.mem.locks, s.mem.prevotes, s.disk.rows, h);
    assert PrevotesAt(s.mem.prevotes, h) == map[];
    forall r
      ensures (h, r) !in s.mem.prevotes
    {
      assert r !in PrevotesAt(s.mem.prevotes, h);
    }
  }

  lemma NothingShown(n: NodeId, mem: VotingNode.Memory, late: nat, v: View, h: nat)
    requires IsView(n, mem, late, v) && OutboxOpen(mem) && h == mem.tip.Height() + 1 && h in mem.abstain
    requires h !in mem.locks && forall r :: (h, r) !in mem.prevotes
    ensures v.lock == None && (forall r, b :: (r, b) !in v.prevotes) && (forall r, b :: (r, b) !in v.precommits)
  {
    assert forall r, b :: !PoolHas(n, mem, r, b);
  }

  /** A process that abstains at its open height shows no vote there. */
  lemma EmptyView(n: NodeId, s: NodeState, late: nat, v: View)
    requires MemoryIsDisk(s) && Tidy(s) && !s.mem.failed && IsView(n, s.mem, late, v)
    requires s.mem.tip.Height() + 1 in s.disk.quarantine
    ensures v.lock == None && (forall r, b :: (r, b) !in v.prevotes) && (forall r, b :: (r, b) !in v.precommits)
  {
    NothingHeld(s, s.mem.tip.Height() + 1);
    NothingShown(n, s.mem, late, v, s.mem.tip.Height() + 1);
  }

  lemma KnownViewAt(n: NodeId, log: seq<Vote>, v: View, m: OracleMemory, p: Option<Vote>)
    requires Truthful(log, n, v) && KnowsHeight(log, n, m, v.height + 1, p)
    ensures Familiar(n, v, m, p)
  {
  }

  // ---------------------------------------------------------------- the checks before the scan

  lemma CalmView(n: NodeId, tip: Block, mem: VotingNode.Memory, v: View, m: OracleMemory)
    requires IsView(n, mem, 0, v) && HeightsOk(tip, m) && tip.On(mem.tip)
    ensures v.late == 0 && Finalized(m, v).0 == None && HeightsOk(mem.tip, Finalized(m, v).1)
  {
    OnHeight(tip, mem.tip);
    forall k | k in m.finalized
      ensures m.finalized[k].On(mem.tip)
    {
      OnTransitive(m.finalized[k], tip, mem.tip);
    }
    if v.height in m.finalized {
      OnHeight(m.finalized[v.height], mem.tip);
    }
  }

  lemma {:induction false} IdsKeepHeights(m: OracleMemory, v: View, r: nat, i: nat)
    requires i <= |v.ids|
    ensures SeeIds(m, v, r, i).1.finalized == m.finalized && SeeIds(m, v, r, i).1.maxHeight == m.maxHeight
    decreases |v.ids| - i
  {
    if i < |v.ids| && SeeSlot(m, v, r, v.ids[i]).0 == None {
      IdsKeepHeights(SeeSlot(m, v, r, v.ids[i]).1, v, r, i + 1);
    }
  }

  lemma {:induction false} RoundsKeepHeights(m: OracleMemory, v: View, r: nat, hi: nat)
    requires r <= hi + 1
    ensures SeeRounds(m, v, r, hi).1.finalized == m.finalized && SeeRounds(m, v, r, hi).1.maxHeight == m.maxHeight
    decreases hi + 1 - r
  {
    if r <= hi {
      IdsKeepHeights(m, v, r, 0);
      if SeeIds(m, v, r, 0).0 == None {
        RoundsKeepHeights(SeeIds(m, v, r, 0).1, v, r + 1, hi);
      }
    }
  }

  lemma ObserveHeights(tip: Block, m: OracleMemory, v: View, restarted: bool)
    requires ObserveAll(m, v, restarted).0 == None && HeightsOk(tip, Finalized(m, v).1)
    ensures HeightsOk(tip, ObserveAll(m, v, restarted).1)
  {
    var m1 := Finalized(m, v).1;
    RoundsKeepHeights(m1, v, 0, (if v.currentRound > m1.maxRound then v.currentRound else m1.maxRound) + ROUNDS);
  }

  // ---------------------------------------------------------------- votes the oracle accepts

  /** The oracle's latest precommit is the node's lock. */
  lemma LatestIsLock(cfg: Config, n: NodeId, log: seq<Vote>, s: NodeState, m: OracleMemory, r: nat, h: nat)
    requires NodeInv(cfg, n, log, s) && !s.mem.failed && RealEntries(cfg, log, n, m) && KnowsHeight(log, n, m, h, None)
    requires h == s.mem.tip.Height() + 1 && h !in s.mem.abstain && FloorAllows(s.mem, h, r)
    requires Latest(m.sentPc, h, r).Some?
    ensures
      var l := Latest(m.sentPc, h, r).value;
      h in s.mem.locks && s.mem.locks[h] == Lock(m.sentPc[(h, l)], l)
  {
    var l := Latest(m.sentPc, h, r).value;
    var w := Precommit(n, l, m.sentPc[(h, l)]);
    OpenVoteRecorded(cfg, n, log, s, w);
    var lock := s.mem.locks[h];
    assert RowMatches(s.mem.locks, s.mem.prevotes, s.disk.rows, h);
    assert Precommit(n, lock.round, lock.block) in log && lock.block.Height() == h;
    assert Recorded(m, Precommit(n, lock.round, lock.block));
  }

  lemma PrevotePasses(cfg: Config, n: NodeId, log: seq<Vote>, s: NodeState, m: OracleMemory, r: nat, b: Block,
                      pol: Option<nat>)
    requires NodeInv(cfg, n, log, s) && !s.mem.failed && RealEntries(cfg, log, n, m)
    requires KnowsHeight(log, n, m, b.Height(), None)
    requires b.Child? && b.parent == s.mem.tip && MayPrevote(Member(cfg, n, b.parent), s.mem, r, b, pol, true)
    requires pol.Some? ==> PolAt(m.pol, b.Height(), r, b) >= pol.value
    ensures See(m, b.Height(), r, b).0 == None
  {
    var h := b.Height();
    if (h, r) in m.seenPv {
      OpenVoteRecorded(cfg, n, log, s, Prevote(n, r, m.seenPv[(h, r)]));
    } else if Latest(m.sentPc, h, r).Some? {
      LatestIsLock(cfg, n, log, s, m, r, h);
    }
  }

  lemma PrecommitPasses(cfg: Config, log: seq<Vote>, m: OracleMemory, v: Vote)
    requires v.Precommit? && v.node !in cfg.byzantine && RealEntries(cfg, log, v.node, m)
      && NoDoubleVote(cfg, log + [v])
    ensures Mark(m, v.block.Height(), v.round, v.block).0 == None
  {
    var h := v.block.Height();
    if (h, v.round) in m.sentPc {
      var w := Precommit(v.node, v.round, m.sentPc[(h, v.round)]);
      assert w in log + [v] && v in log + [v] && SameSlot(v, w);
    }
  }

  lemma FloorHolds(cfg: Config, n: NodeId, log: seq<Vote>, s: NodeState, r: nat, h: nat, w: Vote)
    requires NodeInv(cfg, n, log, s) && !s.mem.failed && FloorAllows(s.mem, h, r) && h !in s.mem.abstain
    requires h == s.mem.tip.Height() + 1 && w in log && w.node == n && w.block.Height() == h
    ensures w.round <= r
  {
    OpenVoteRecorded(cfg, n, log, s, w);
  }

  /** The guards on a vote at the open height that respects the floor. */
  lemma GuardsHold(cfg: Config, n: NodeId, log: seq<Vote>, s: NodeState, v: Vote)
    requires NodeInv(cfg, n, log, s) && !s.mem.failed && v.node == n && v.block.Child? && v.block.parent == s.mem.tip
    requires Member(cfg, n, s.mem.tip) && FloorAllows(s.mem, v.block.Height(), v.round)
      && v.block.Height() !in s.mem.abstain
    requires v.Precommit? ==> Polka(cfg, log, v.round, v.block)
    ensures Guarded(cfg, log, Cast(v))
  {
    forall w | w in log && w.node == v.node && w.block.Height() == v.block.Height()
      ensures w.round <= v.round
    {
      FloorHolds(cfg, n, log, s, v.round, v.block.Height(), w);
    }
  }

  // ---------------------------------------------------------------- the shape of a step

  lemma ProposeShape(cfg: Config, n: NodeId, s: NodeState, a: Action)
    requires a.Propose? && Apply(cfg, n, s, a).cast.Some?
    ensures Apply(cfg, n, s, a).cast.value == Prevote(n, a.round, a.block) && !s.mem.failed
    ensures ShapeOk(a.round, a.block, a.pol) && a.block.parent == s.mem.tip
    ensures MayPrevote(Member(cfg, n, s.mem.tip), s.mem, a.round, a.block, a.pol, true)
  {
  }

  lemma PolkaShape(cfg: Config, n: NodeId, s: NodeState, a: Action)
    requires a.SeePolka? && Apply(cfg, n, s, a).cast.Some?
    ensures Apply(cfg, n, s, a).cast.value == Precommit(n, a.round, a.block) && !s.mem.failed
    ensures a.block.Child? && a.block.parent == s.mem.tip && Member(cfg, n, s.mem.tip)
    ensures FloorAllows(s.mem, a.block.Height(), a.round) && a.block.Height() !in s.mem.abstain
  {
  }

  ghost predicate SameHands(x: VotingNode.Memory, y: VotingNode.Memory)
  {
    x.tip == y.tip && x.prevotes == y.prevotes && x.locks == y.locks && x.outbox == y.outbox
  }

  /** What one write of a step changes: nothing held if the process fails, and no quarantine row. */
  ghost predicate Modest(s: NodeState, s': NodeState)
  {
    && (s'.mem.failed ==> SameHands(s'.mem, s.mem)) && (s.mem.failed ==> s'.mem.failed)
    && s'.disk.tip == s.disk.tip && s'.disk.quarantine == s.disk.quarantine
  }

  lemma PersistModest(s: NodeState, h: nat, row: SafetyRow, w: Write)
    ensures Modest(s, Persist(s, h, row, w))
  {
  }

  lemma PrevoteModest(n: NodeId, s: NodeState, r: nat, b: Block, w: Write)
    requires !s.mem.failed
    ensures Modest(s, RecordPrevote(n, s, r, b, w).state)
  {
    var row := RowOf(s.mem, b.Height());
    PersistModest(s, b.Height(), row.(prevotes := row.prevotes[r := b]), w);
  }

  lemma NoteModest(s: NodeState, r: nat, b: Block, w: Write)
    ensures Modest(s, NoteValidPolka(s, r, b, w)) && SameHands(NoteValidPolka(s, r, b, w).mem, s.mem)
  {
    PersistModest(s, b.Height(), RowOf(s.mem, b.Height()).(validPolka := Some(Lock(b, r))), w);
  }

  lemma LockModest(n: NodeId, s: NodeState, r: nat, b: Block, w: Write)
    requires !s.mem.failed
    ensures
      var step := LockAndPrecommit(n, s, r, b, w);
      && Modest(s, step.state)
      && (step.cast.Some? ==> RowAt(step.state.disk.rows, b.Height()).lock == Some(Lock(b, r)))
  {
    var h := b.Height();
    if !(h in s.mem.locks && r <= s.mem.locks[h].round) {
      var row := RowOf(s.mem, h).(lock := Some(Lock(b, r)));
      PersistModest(s, h, row, w);
      assert LockAndPrecommit(n, s, r, b, w).state.disk == Persist(s, h, row, w).disk;
    }
  }

  lemma PolkaModest(n: NodeId, member: bool, s: NodeState, r: nat, b: Block, ready: bool, w1: Write, w2: Write)
    requires !s.mem.failed
    ensures
      var step := OnPolka(n, member, s, r, b, ready, w1, w2);
      && Modest(s, step.state)
      && (step.cast.Some? ==> RowAt(step.state.disk.rows, b.Height()).lock == Some(Lock(b, r)))
  {
    NoteModest(s, r, b, w1);
    var s1 := NoteValidPolka(s, r, b, w1);
    if !s1.mem.failed {
      LockModest(n, s1, r, b, w2);
    }
  }

  lemma ProposeModest(n: NodeId, member: bool, s: NodeState, r: nat, b: Block, pol: Option<nat>, ready: bool, w: Write)
    requires !s.mem.failed
    ensures Modest(s, HandlePropose(n, member, s, r, b, pol, ready, w).state)
  {
    PrevoteModest(n, s.(mem := s.mem.(currentRound := r)), r, b, w);
  }

  lemma OnlyTwoCast(cfg: Config, n: NodeId, s: NodeState, a: Action)
    requires (a.SeeCommit? ==> a.block.Child?) && Apply(cfg, n, s, a).cast.Some?
    ensures a.Propose? || a.SeePolka?
  {
  }

  /** A failed process stays failed, writes nothing and sends nothing until it is started again. */
  lemma FailedIsSilent(cfg: Config, n: NodeId, s: NodeState, a: Action)
    requires !a.Start? && (a.SeeCommit? ==> a.block.Child?) && s.mem.failed
    ensures
      var step := Apply(cfg, n, s, a);
      && step.state.mem.failed && step.state.disk == s.disk && step.cast == None && step.emitted == None
      && SameHands(step.state.mem, s.mem)
  {
  }

  /** A step of a running process: modest, unless it finalizes. */
  lemma StepShape(cfg: Config, n: NodeId, s: NodeState, a: Action)
    requires !a.Start? && (a.SeeCommit? ==> a.block.Child?) && !s.mem.failed
    ensures
      var step := Apply(cfg, n, s, a);
      || Modest(s, step.state)
      || (a.SeeCommit? && a.block.parent == s.mem.tip && step.state.disk.tip == a.block && step.cast == None
          && step.state.mem.tip == if step.state.mem.failed then s.mem.tip else a.block)
    ensures Apply(cfg, n, s, a).state.mem.failed ==> SameHands(Apply(cfg, n, s, a).state.mem, s.mem)
    ensures a.SeePolka? && Apply(cfg, n, s, a).cast.Some? ==>
      RowAt(Apply(cfg, n, s, a).state.disk.rows, a.block.Height()).lock == Some(Lock(a.block, a.round))
  {
    match a
    case Propose(r, b, pol, ready, w) => ProposeModest(n, Member(cfg, n, s.mem.tip), s, r, b, pol, ready, w);
    case SeePolka(r, b, ready, w, w2) => PolkaModest(n, Member(cfg, n, s.mem.tip), s, r, b, ready, w, w2);
    case _ =>
  }

  // ---------------------------------------------------------------- a vote cast

  ghost predicate GoodCast(cfg: Config, log: seq<Vote>, n: NodeId, m: OracleMemory, v: Vote)
  {
    v.node == n && Guarded(cfg, log, Cast(v)) && Tell(m, v).0 == None
  }

  lemma ProposeGood(cfg: Config, n: NodeId, log: seq<Vote>, s: NodeState, m: OracleMemory, r: nat, b: Block,
                    pol: Option<nat>)
    requires NodeInv(cfg, n, log, s) && RealEntries(cfg, log, n, m) && KnowsHeight(log, n, m, b.Height(), None)
    requires pol.Some? ==> Polka(cfg, log, pol.value, b)
    requires !s.mem.failed && ShapeOk(r, b, pol) && b.parent == s.mem.tip
    requires MayPrevote(Member(cfg, n, s.mem.tip), s.mem, r, b, pol, true)
    ensures GoodCast(cfg, log, n, Pol(m, b.Height(), r, b, pol), Prevote(n, r, b))
  {
    var m1 := Pol(m, b.Height(), r, b, pol);
    PolReal(cfg, log, n, m, r, b, pol);
    PrevotePasses(cfg, n, log, s, m1, r, b, pol);
    GuardsHold(cfg, n, log, s, Prevote(n, r, b));
  }

  lemma PolkaGood(cfg: Config, n: NodeId, log: seq<Vote>, s: NodeState, m: OracleMemory, v: Vote)
    requires NodeInv(cfg, n, log, s) && RealEntries(cfg, log, n, m) && NoDoubleVote(cfg, log + [v])
    requires v.Precommit? && v.node == n && v.block.Child? && v.block.parent == s.mem.tip
      && Polka(cfg, log, v.round, v.block)
    requires !s.mem.failed && Member(cfg, n, s.mem.tip) && FloorAllows(s.mem, v.block.Height(), v.round)
    requires v.block.Height() !in s.mem.abstain
    ensures GoodCast(cfg, log, n, m, v)
  {
    PrecommitPasses(cfg, log, m, v);
    GuardsHold(cfg, n, log, s, v);
  }

  lemma StepGood(cfg: Config, n: NodeId, log: seq<Vote>, s: NodeState, a: Action, m: OracleMemory)
    requires LogInv(cfg, log) && NodeInv(cfg, n, log, s) && Enabled(cfg, log, a) && Recoverable(n, log, s.disk, a)
    requires RealEntries(cfg, log, n, m) && KnowsHeight(log, n, m, s.disk.tip.Height() + 1, None)
    requires Apply(cfg, n, s, a).cast.Some?
    ensures
      var v := Apply(cfg, n, s, a).cast.value;
      && GoodCast(cfg, log, n, AfterAccept(m, a), v)
      && v.block.Height() == s.disk.tip.Height() + 1 && v.block.Height() !in s.disk.quarantine && !s.mem.failed
  {
    OnlyTwoCast(cfg, n, s, a);
    if a.Propose? {
      ProposeShape(cfg, n, s, a);
      ProposeGood(cfg, n, log, s, m, a.round, a.block, a.pol);
    } else {
      PolkaShape(cfg, n, s, a);
      StepKeeps(cfg, n, log, s, a);
      PolkaGood(cfg, n, log, s, m, Precommit(n, a.round, a.block));
    }
  }

  lemma AcceptKeeps(cfg: Config, log: seq<Vote>, n: NodeId, m: OracleMemory, a: Action)
    requires RealEntries(cfg, log, n, m) && Enabled(cfg, log, a)
    ensures RealEntries(cfg, log, n, AfterAccept(m, a))
    ensures forall w :: Recorded(AfterAccept(m, a), w) == Recorded(m, w)
    ensures AfterAccept(m, a).finalized == m.finalized && AfterAccept(m, a).maxHeight == m.maxHeight
  {
    if a.Propose? && ShapeOk(a.round, a.block, a.pol) {
      PolReal(cfg, log, n, m, a.round, a.block, a.pol);
    }
  }

  /** A further accepted proposal takes no vote's proof of lock away. */
  lemma AcceptTells(m: OracleMemory, a: Action, p: Vote)
    requires Tell(m, p).0 == None
    ensures Tell(AfterAccept(m, a), p).0 == None
  {
  }

  // ---------------------------------------------------------------- an observed step: what every case needs

  /** No own vote is above the open height. */
  lemma NoVoteAbove(cfg: Config, n: NodeId, log: seq<Vote>, d: Disk, m: OracleMemory, h: nat)
    requires VotesOnOwnChain(cfg, n, log, d) && h > d.tip.Height() + 1
    ensures KnowsHeight(log, n, m, h, None)
  {
    forall w | w in log && w.node == n
      ensures w.block.Height() <= d.tip.Height() + 1
    {
      OnHeight(w.block.parent, d.tip);
    }
  }

  lemma NothingPooled(n: NodeId, mem: VotingNode.Memory, h: nat)
    requires OutboxOpen(mem) && h == mem.tip.Height() + 1 && h in mem.abstain && h !in mem.locks
    ensures forall r, b :: !PoolHas(n, mem, r, b)
  {
  }

  /** What a running process holds at its open height is remembered. */
  lemma RunningShown(cfg: Config, n: NodeId, log: seq<Vote>, s: NodeState, m: OracleMemory)
    requires NodeInv(cfg, n, log, s) && Tidy(s) && !s.mem.failed
    requires s.disk.tip.Height() + 1 in s.disk.quarantine || KnowsHeight(log, n, m, s.disk.tip.Height() + 1, None)
    ensures ShownKnown(n, s.mem, m)
  {
    var h := s.mem.tip.Height() + 1;
    if h in s.disk.quarantine {
      NothingHeld(s, h);
      NothingPooled(n, s.mem, h);
    } else {
      HeldInLog(cfg, n, log, s, h);
    }
  }

  lemma ShownCarries(n: NodeId, x: VotingNode.Memory, y: VotingNode.Memory, m: OracleMemory, m': OracleMemory)
    requires ShownKnown(n, x, m) && SameHands(y, x) && forall w :: Recorded(m, w) ==> Recorded(m', w)
    ensures ShownKnown(n, y, m')
  {
    var h := x.tip.Height() + 1;
    forall r | (h, r) in y.prevotes
      ensures y.prevotes[(h, r)].Height() == h && Recorded(m', Prevote(n, r, y.prevotes[(h, r)]))
    {
      assert Recorded(m, Prevote(n, r, x.prevotes[(h, r)]));
    }
    forall r, b | PoolHas(n, y, r, b)
      ensures Recorded(m', Precommit(n, r, b))
    {
      assert PoolHas(n, x, r, b);
    }
  }

  /** A passing observation with at most one vote of news leaves the oracle knowing what it knew, and that vote. */
  lemma Learns(cfg: Config, log: seq<Vote>, n: NodeId, tip: Block, mem: VotingNode.Memory, m: OracleMemory, v: View,
               restarted: bool, news: Option<Vote>)
    requires IsView(n, mem, 0, v) && HeightsOk(tip, m) && tip.On(mem.tip) && RealEntries(cfg, log, n, m)
    requires Familiar(n, v, m, news) && (restarted ==> FuzzOracle.Durable(Finalized(m, v).1, v) == None)
    requires news.Some? ==>
      news.value.node == n && news.value in log && Visible(m, v, news.value) && Tell(m, news.value).0 == None
    ensures
      var out := ObserveAll(m, v, restarted);
      && out.0 == None && RealEntries(cfg, log, n, out.1) && HeightsOk(mem.tip, out.1)
      && Like(out.1, if news.Some? then Tell(m, news.value).1 else m)
      && (forall w :: Recorded(m, w) ==> Recorded(out.1, w)) && (news.Some? ==> Recorded(out.1, news.value))
  {
    CalmView(n, tip, mem, v, m);
    ObserveScan(n, m, v, restarted, news);
    ObserveHeights(mem.tip, m, v, restarted);
    LearnsNews(cfg, log, n, m, ObserveAll(m, v, restarted).1, news);
  }

  lemma LearnsNews(cfg: Config, log: seq<Vote>, n: NodeId, m: OracleMemory, m': OracleMemory, news: Option<Vote>)
    requires RealEntries(cfg, log, n, m) && Like(m', if news.Some? then Tell(m, news.value).1 else m)
    requires news.Some? ==> news.value.node == n && news.value in log && Tell(m, news.value).0 == None
    ensures RealEntries(cfg, log, n, m') && (forall w :: Recorded(m, w) ==> Recorded(m', w))
    ensures news.Some? ==> Recorded(m', news.value)
  {
    if news.Some? {
      TellEntries(cfg, log, m, news.value);
      LikeRemembers(cfg, log, n, Tell(m, news.value).1, m');
      forall w | Recorded(m, w)
        ensures Recorded(m', w)
      {
        StaysRecorded(m, news.value, w);
      }
    } else {
      LikeRemembers(cfg, log, n, m, m');
    }
  }

  lemma TellEntries(cfg: Config, log: seq<Vote>, m: OracleMemory, v: Vote)
    requires RealEntries(cfg, log, v.node, m) && Tell(m, v).0 == None && v in log
    ensures RealEntries(cfg, log, v.node, Tell(m, v).1) && Recorded(Tell(m, v).1, v)
  {
  }
}
