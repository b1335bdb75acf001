/**
 When exactly a validator votes, in terms of the votes it has cast before and not of what it holds in memory:
 the proposal and polka handlers, rounds it timed out of, its valid value, and what finalizing clears.
 */
module VoteGuards {
  import opened Options
  import opened Blocks
  import opened VoteLog
  import opened VotingNode
  import opened Finality
  import VoteEffects

  // ---------------------------------------------------------------- rounds the node timed out of

  predicate InTime(mem: Memory, v: Option<Vote>)
  {
    v.Some? ==> (v.value.block.Height(), v.value.round) !in mem.timedOut
  }

  lemma PrevoteInTime(n: NodeId, member: bool, s: NodeState, r: nat, b: Block, pol: Option<nat>, ready: bool, w: Write)
    ensures
      var step := HandlePropose(n, member, s, r, b, pol, ready, w);
      InTime(s.mem, step.cast) && InTime(s.mem, step.emitted)
  {
  }

  lemma PrecommitInTime(n: NodeId, member: bool, s: NodeState, r: nat, b: Block, ready: bool, w: Write, w2: Write)
    ensures
      var step := OnPolka(n, member, s, r, b, ready, w, w2);
      InTime(s.mem, step.cast) && InTime(s.mem, step.emitted)
  {
    var t, step := NoteValidPolka(s, r, b, w), OnPolka(n, member, s, r, b, ready, w, w2);
    VoteEffects.NoteKeeps(s, r, b, w);
    LockVote(n, t, r, b, w2);
    if b.Genesis? || b.parent != s.mem.tip || r < b.round || !MayPrecommit(member, t.mem, r, b, ready) || t.mem.failed {
      assert step.cast == None && step.emitted == None;
    } else {
      assert step == LockAndPrecommit(n, t, r, b, w2);
    }
  }

  lemma LockVote(n: NodeId, s: NodeState, r: nat, b: Block, w: Write)
    ensures
      var step := LockAndPrecommit(n, s, r, b, w);
      && (step.cast.Some? ==> step.cast.value == Precommit(n, r, b))
      && (step.emitted.Some? ==> step.emitted.value == Precommit(n, r, b))
  {
  }

  /** No step casts or sends a vote of a round the node timed out of. */
  lemma VotesInTime(cfg: Config, n: NodeId, s: NodeState, a: Action)
    requires a.SeeCommit? ==> a.block.Child?
    ensures InTime(s.mem, Apply(cfg, n, s, a).cast) && InTime(s.mem, Apply(cfg, n, s, a).emitted)
  {
    var member := Member(cfg, n, s.mem.tip);
    match a
    case Propose(r, b, pol, ready, w) => PrevoteInTime(n, member, s, r, b, pol, ready, w);
    case SeePolka(r, b, ready, w, w2) => PrecommitInTime(n, member, s, r, b, ready, w, w2);
    case _ =>
  }

  lemma VotesForChild(cfg: Config, n: NodeId, s: NodeState, a: Action)
    requires (a.SeeCommit? ==> a.block.Child?) && Apply(cfg, n, s, a).cast.Some?
    ensures Apply(cfg, n, s, a).cast.value.block.Height() == s.mem.tip.Height() + 1
  {
    match a
    case Propose(r, b, pol, ready, w) =>
      assert b.Child? && b.parent == s.mem.tip;
    case SeePolka(r, b, ready, w, w2) =>
      assert b.Child? && b.parent == s.mem.tip;
      LockVote(n, NoteValidPolka(s, r, b, w), r, b, w2);
  }

  /** The rounds timed out of above the tip are still known later in the process. */
  ghost predicate KeepsTimeouts(mem: Memory, mem': Memory)
  {
    && mem.tip.Height() <= mem'.tip.Height()
    && forall k :: k in mem.timedOut && k.0 > mem'.tip.Height() ==> k in mem'.timedOut
  }

  lemma StepKeepsTimeouts(cfg: Config, n: NodeId, s: NodeState, a: Action)
    requires !a.Start? && (a.SeeCommit? ==> a.block.Child?)
    ensures KeepsTimeouts(s.mem, Apply(cfg, n, s, a).state.mem)
  {
    match a
    case Propose(_, _, _, _, _) => VoteEffects.VoteLeaves(cfg, n, s, a);
    case SeePolka(_, _, _, _, _) => VoteEffects.VoteLeaves(cfg, n, s, a);
    case SeeCommit(_, b, w) => FinalizeKeepsTimeouts(s, b, w);
    case _ =>
  }

  lemma FinalizeKeepsTimeouts(s: NodeState, b: Block, w: Write)
    requires b.Child?
    ensures KeepsTimeouts(s.mem, VotingNode.Finalize(s, b, w).mem)
  {
    assert b.Height() == b.parent.Height() + 1;
  }

  lemma KeepsTwice(x: Memory, y: Memory, z: Memory)
    requires KeepsTimeouts(x, y) && KeepsTimeouts(y, z)
    ensures KeepsTimeouts(x, z)
  {
  }

  /** One step of the process: its vote is in time for every earlier state too. */
  lemma StepInTime(cfg: Config, n: NodeId, s: NodeState, a: Action, mem: Memory)
    requires !a.Start? && (a.SeeCommit? ==> a.block.Child?) && KeepsTimeouts(mem, s.mem)
    ensures InTime(mem, Apply(cfg, n, s, a).cast) && KeepsTimeouts(mem, Apply(cfg, n, s, a).state.mem)
  {
    StepKeepsTimeouts(cfg, n, s, a);
    KeepsTwice(mem, s.mem, Apply(cfg, n, s, a).state.mem);
    VotesInTime(cfg, n, s, a);
    if Apply(cfg, n, s, a).cast.Some? {
      VotesForChild(cfg, n, s, a);
    }
  }

  /** Node n is not started again between the two states. */
  ghost predicate SameProcess(acts: seq<(NodeId, Action)>, n: NodeId, i: nat, j: nat)
    requires i <= j <= |acts|
  {
    forall k :: i <= k < j && acts[k].0 == n ==> !acts[k].1.Start?
  }

  /** Every own vote of the longer log beyond the shorter one is of a round not timed out of. */
  ghost predicate NewVotesInTime(log: seq<Vote>, more: seq<Vote>, n: NodeId, mem: Memory)
  {
    forall k :: |log| <= k < |more| && more[k].node == n ==> (more[k].block.Height(), more[k].round) !in mem.timedOut
  }

  lemma CastIsOwn(cfg: Config, n: NodeId, s: NodeState, a: Action)
    requires a.SeeCommit? ==> a.block.Child?
    ensures Apply(cfg, n, s, a).cast.Some? ==> Apply(cfg, n, s, a).cast.value.node == n
  {
    if a.SeePolka? {
      LockVote(n, NoteValidPolka(s, a.round, a.block, a.w), a.round, a.block, a.w2);
    }
  }

  lemma LogInTime(log: seq<Vote>, more: seq<Vote>, v: Option<Vote>, n: NodeId, mem: Memory)
    requires |log| <= |more| && NewVotesInTime(log, more, n, mem) && (v.Some? && v.value.node == n ==> InTime(mem, v))
    ensures NewVotesInTime(log, Extend(more, v), n, mem)
  {
  }

  lemma OneMoreInTime(cfg: Config, c: Cluster, c': Cluster, m: NodeId, a: Action, n: NodeId, log: seq<Vote>,
                      mem: Memory)
    requires NextBy(cfg, c, c', m, a) && n in c.nodes && (m == n ==> !a.Start?)
    requires NewVotesInTime(log, c.log, n, mem) && KeepsTimeouts(mem, c.nodes[n].mem) && |log| <= |c.log|
    ensures n in c'.nodes && NewVotesInTime(log, c'.log, n, mem) && KeepsTimeouts(mem, c'.nodes[n].mem)
  {
    CastIsOwn(cfg, m, c.nodes[m], a);
    if m == n {
      StepInTime(cfg, n, c.nodes[n], a, mem);
    }
    LogInTime(log, c.log, Apply(cfg, m, c.nodes[m], a).cast, n, mem);
  }

  /** From the first state to the second the node casts no vote in a round it had timed out of, and forgets none. */
  ghost predicate Quiet(c: Cluster, d: Cluster, n: NodeId)
  {
    && n in c.nodes && n in d.nodes && c.log <= d.log
    && NewVotesInTime(c.log, d.log, n, c.nodes[n].mem) && KeepsTimeouts(c.nodes[n].mem, d.nodes[n].mem)
  }

  lemma QuietNext(cfg: Config, first: Cluster, c: Cluster, c': Cluster, m: NodeId, a: Action, n: NodeId)
    requires Quiet(first, c, n) && NextBy(cfg, c, c', m, a) && (m == n ==> !a.Start?)
    ensures Quiet(first, c', n)
  {
    OneMoreInTime(cfg, c, c', m, a, n, first.log, first.nodes[n].mem);
  }

  lemma QuietAtFirst(c: Cluster, n: NodeId)
    requires n in c.nodes
    ensures Quiet(c, c, n)
  {
  }

  lemma RunStep(cfg: Config, run: seq<Cluster>, acts: seq<(NodeId, Action)>, k: nat)
    requires IsRun(cfg, run, acts) && k < |acts|
    ensures NextBy(cfg, run[k], run[k + 1], acts[k].0, acts[k].1)
  {
  }

  /** Until it is started again, a node casts no vote in a round it has timed out of, over a whole run. */
  lemma {:induction false} TimedOutIsSilent(cfg: Config, run: seq<Cluster>, acts: seq<(NodeId, Action)>, i: nat, j: nat,
                                            n: NodeId)
    requires IsRun(cfg, run, acts) && i <= j < |run| && n in run[i].nodes && SameProcess(acts, n, i, j)
    ensures Quiet(run[i], run[j], n)
    decreases j
  {
    if i == j {
      QuietAtFirst(run[i], n);
    } else {
      TimedOutIsSilent(cfg, run, acts, i, j - 1, n);
      RunStep(cfg, run, acts, j - 1);
      QuietNext(cfg, run[i], run[j - 1], run[j], acts[j - 1].0, acts[j - 1].1, n);
    }
  }

  // ---------------------------------------------------------------- memory and the votes cast

  ghost predicate Own(log: seq<Vote>, n: NodeId, h: nat, v: Vote)
  {
    v in log && v.node == n && v.block.Height() == h
  }

  /** The own precommit of the greatest round at the height. */
  ghost predicate LatestPrecommit(log: seq<Vote>, n: NodeId, h: nat, v: Vote)
  {
    Own(log, n, h, v) && v.Precommit? && forall u :: Own(log, n, h, u) && u.Precommit? ==> u.round <= v.round
  }

  /** A running node at an open height it has not given up. */
  ghost predicate Voting(s: NodeState, h: nat)
  {
    !s.mem.failed && h == s.mem.tip.Height() + 1 && h !in s.disk.quarantine
  }

  lemma HeldVotes(cfg: Config, n: NodeId, log: seq<Vote>, s: NodeState, h: nat)
    requires NodeInv(cfg, n, log, s) && Voting(s, h)
    ensures forall r :: (h, r) in s.mem.prevotes ==> Own(log, n, h, Prevote(n, r, s.mem.prevotes[(h, r)]))
    ensures h in s.mem.locks ==> Own(log, n, h, Precommit(n, s.mem.locks[h].round, s.mem.locks[h].block))
  {
    assert RowMatches(s.mem.locks, s.mem.prevotes, s.disk.rows, h);
    forall r | (h, r) in s.mem.prevotes
      ensures Own(log, n, h, Prevote(n, r, s.mem.prevotes[(h, r)]))
    {
      assert r in PrevotesAt(s.mem.prevotes, h);
    }
  }

  lemma CastVote(cfg: Config, n: NodeId, log: seq<Vote>, s: NodeState, h: nat, v: Vote)
    requires NodeInv(cfg, n, log, s) && Voting(s, h) && Own(log, n, h, v)
    ensures v.Prevote? ==> (h, v.round) in s.mem.prevotes && s.mem.prevotes[(h, v.round)] == v.block
    ensures v.Precommit? ==>
      h in s.mem.locks && (s.mem.locks[h].round > v.round || s.mem.locks[h] == Lock(v.block, v.round))
  {
    OpenVoteRecorded(cfg, n, log, s, v);
  }

  lemma FloorIsLog(cfg: Config, n: NodeId, log: seq<Vote>, s: NodeState, h: nat, r: nat)
    requires NodeInv(cfg, n, log, s) && Voting(s, h)
    ensures FloorAllows(s.mem, h, r) <==> forall v :: Own(log, n, h, v) ==> v.round <= r
  {
    HeldVotes(cfg, n, log, s, h);
    if FloorAllows(s.mem, h, r) {
      forall v | Own(log, n, h, v)
        ensures v.round <= r
      {
        CastVote(cfg, n, log, s, h, v);
      }
    }
    if forall v :: Own(log, n, h, v) ==> v.round <= r {
      forall k | k in s.mem.prevotes && k.0 == h
        ensures k.1 <= r
      {
        assert k == (h, k.1);
        assert Own(log, n, h, Prevote(n, k.1, s.mem.prevotes[k]));
      }
      if h in s.mem.locks {
        assert Own(log, n, h, Precommit(n, s.mem.locks[h].round, s.mem.locks[h].block));
      }
    }
  }

  lemma LockIsLatest(cfg: Config, n: NodeId, log: seq<Vote>, s: NodeState, h: nat, q: nat, b: Block)
    requires NodeInv(cfg, n, log, s) && Voting(s, h) && b.Height() == h
    ensures LatestPrecommit(log, n, h, Precommit(n, q, b)) <==> h in s.mem.locks && s.mem.locks[h] == Lock(b, q)
  {
    HeldVotes(cfg, n, log, s, h);
    forall v | Own(log, n, h, v) && v.Precommit?
      ensures h in s.mem.locks && v.round <= s.mem.locks[h].round
    {
      CastVote(cfg, n, log, s, h, v);
    }
    if LatestPrecommit(log, n, h, Precommit(n, q, b)) {
      CastVote(cfg, n, log, s, h, Precommit(n, q, b));
      var l := s.mem.locks[h];
      assert Own(log, n, h, Precommit(n, l.round, l.block));
    }
  }

  // ---------------------------------------------------------------- exactly when a proposal is prevoted

  /** The last precommit at the height is for this block, or the proof of lock is no older than it. */
  ghost predicate LockPermits(log: seq<Vote>, n: NodeId, h: nat, b: Block, pol: Option<nat>)
  {
    forall v :: LatestPrecommit(log, n, h, v) ==> v.block == b || (pol.Some? && v.round <= pol.value)
  }

  lemma LockRuleIsLog(cfg: Config, n: NodeId, log: seq<Vote>, s: NodeState, h: nat, b: Block, pol: Option<nat>)
    requires NodeInv(cfg, n, log, s) && Voting(s, h)
    ensures LockPermits(log, n, h, b, pol) <==>
      (h in s.mem.locks ==> s.mem.locks[h].block == b || (pol.Some? && s.mem.locks[h].round <= pol.value))
  {
    HeldVotes(cfg, n, log, s, h);
    if h in s.mem.locks {
      var l := s.mem.locks[h];
      LockIsLatest(cfg, n, log, s, h, l.round, l.block);
      assert LatestPrecommit(log, n, h, Precommit(n, l.round, l.block));
    }
    forall v | LatestPrecommit(log, n, h, v)
      ensures h in s.mem.locks && s.mem.locks[h] == Lock(v.block, v.round)
    {
      LockIsLatest(cfg, n, log, s, h, v.round, v.block);
    }
  }

  /** The proposal is for this height and round: a child of the tip, fresh, or carried over with an older polka. */
  predicate Acceptable(s: NodeState, r: nat, b: Block, pol: Option<nat>)
  {
    && b.Child? && b.parent == s.mem.tip && r >= s.mem.currentRound
    && (if pol.Some? then b.round <= pol.value < r else b.round == r)
  }

  ghost predicate PrevoteDue(cfg: Config, n: NodeId, log: seq<Vote>, s: NodeState, r: nat, b: Block, pol: Option<nat>)
  {
    var h := b.Height();
    && Acceptable(s, r, b, pol) && Voting(s, h) && n in cfg.committee(s.mem.tip)
    && (h, r) !in s.mem.timedOut
    && (forall v :: Own(log, n, h, v) ==> v.round <= r && !(v.Prevote? && v.round == r))
    && LockPermits(log, n, h, b, pol)
  }

  lemma NoPrevoteYet(cfg: Config, n: NodeId, log: seq<Vote>, s: NodeState, h: nat, r: nat)
    requires NodeInv(cfg, n, log, s) && Voting(s, h)
    ensures (h, r) !in s.mem.prevotes <==> forall v :: Own(log, n, h, v) ==> !(v.Prevote? && v.round == r)
  {
    HeldVotes(cfg, n, log, s, h);
    if (h, r) !in s.mem.prevotes {
      forall v | Own(log, n, h, v)
        ensures !(v.Prevote? && v.round == r)
      {
        CastVote(cfg, n, log, s, h, v);
      }
    }
  }

  lemma MayIsDue(cfg: Config, n: NodeId, log: seq<Vote>, s: NodeState, r: nat, b: Block, pol: Option<nat>)
    requires NodeInv(cfg, n, log, s) && !s.mem.failed && Acceptable(s, r, b, pol)
    ensures MayPrevote(Member(cfg, n, s.mem.tip), s.mem, r, b, pol, true) <==> PrevoteDue(cfg, n, log, s, r, b, pol)
  {
    var h := b.Height();
    if h !in s.disk.quarantine {
      FloorIsLog(cfg, n, log, s, h, r);
      NoPrevoteYet(cfg, n, log, s, h, r);
      LockRuleIsLog(cfg, n, log, s, h, b, pol);
    }
  }

  /**
   A proposal is prevoted exactly when it is a child of the tip for this round, the node sits in the committee,
   has not given the height up or timed out of the round, has cast no prevote in it and no vote in a later one,
   its last precommit allows it, the checks outside the model pass and the row becomes durable. An acceptable
   proposal moves the node to its round, voted for or not.
   */
  lemma ProposeExactly(cfg: Config, n: NodeId, log: seq<Vote>, s: NodeState, r: nat, b: Block, pol: Option<nat>,
                       ready: bool, w: Write)
    requires NodeInv(cfg, n, log, s)
    ensures
      var step := Apply(cfg, n, s, Propose(r, b, pol, ready, w));
      var due := ready && PrevoteDue(cfg, n, log, s, r, b, pol);
      && step.emitted == (if due && w.Durable? then Some(Prevote(n, r, b)) else None)
      && step.cast == (if due && !w.Lost? then Some(Prevote(n, r, b)) else None)
      && step.state.mem.currentRound == (if Acceptable(s, r, b, pol) then r else s.mem.currentRound)
  {
    var s1 := s.(mem := s.mem.(currentRound := r));
    if !s.mem.failed && Acceptable(s, r, b, pol) {
      MayIsDue(cfg, n, log, s, r, b, pol);
      assert MayPrevote(Member(cfg, n, s.mem.tip), s1.mem, r, b, pol, ready) ==
             (ready && MayPrevote(Member(cfg, n, s.mem.tip), s.mem, r, b, pol, true));
    }
  }

  // ---------------------------------------------------------------- exactly when a polka is precommitted

  ghost predicate PrecommitDue(cfg: Config, n: NodeId, log: seq<Vote>, s: NodeState, r: nat, b: Block)
  {
    var h := b.Height();
    && b.Child? && b.parent == s.mem.tip && b.round <= r == s.mem.currentRound
    && Voting(s, h) && n in cfg.committee(s.mem.tip)
    && (h, r) !in s.mem.reservations && (h, r) !in s.mem.timedOut
    && (forall v :: Own(log, n, h, v) ==> v.round <= r && (v.Precommit? && v.round == r ==> v.block == b))
  }

  /** The polka is of a higher round than the valid value held. */
  predicate NewsOfPolka(s: NodeState, r: nat, b: Block)
  {
    b.Height() in s.mem.validPolkas ==> s.mem.validPolkas[b.Height()].round < r
  }

  lemma NoteKeeps(s: NodeState, r: nat, b: Block, w: Write)
    requires !s.mem.failed
    ensures
      var t := NoteValidPolka(s, r, b, w);
      && t.mem.failed == (NewsOfPolka(s, r, b) && !w.Durable?)
      && t.mem.tip == s.mem.tip && t.mem.currentRound == s.mem.currentRound && t.mem.locks == s.mem.locks
      && t.mem.prevotes == s.mem.prevotes && t.mem.reservations == s.mem.reservations
      && t.mem.timedOut == s.mem.timedOut && t.mem.abstain == s.mem.abstain
  {
  }

  /** The lock leaves room for a precommit of b in round r. */
  lemma LockIsFree(cfg: Config, n: NodeId, log: seq<Vote>, s: NodeState, h: nat, r: nat, b: Block)
    requires NodeInv(cfg, n, log, s) && Voting(s, h) && b.Height() == h && FloorAllows(s.mem, h, r)
    ensures (forall v :: Own(log, n, h, v) && v.Precommit? && v.round == r ==> v.block == b) <==>
      (h in s.mem.locks && s.mem.locks[h].round == r ==> s.mem.locks[h].block == b)
    ensures Precommit(n, r, b) in log <==> h in s.mem.locks && s.mem.locks[h] == Lock(b, r)
  {
    HeldVotes(cfg, n, log, s, h);
    if h in s.mem.locks {
      assert Own(log, n, h, Precommit(n, s.mem.locks[h].round, s.mem.locks[h].block));
    }
    forall v | Own(log, n, h, v) && v.Precommit? && v.round == r
      ensures h in s.mem.locks && s.mem.locks[h] == Lock(v.block, r)
    {
      CastVote(cfg, n, log, s, h, v);
    }
    if Precommit(n, r, b) in log {
      assert Own(log, n, h, Precommit(n, r, b));
    }
  }

  lemma PrecommitGuards(cfg: Config, n: NodeId, log: seq<Vote>, s: NodeState, r: nat, b: Block)
    requires NodeInv(cfg, n, log, s) && !s.mem.failed && b.Child? && b.parent == s.mem.tip && r >= b.round
    ensures PrecommitDue(cfg, n, log, s, r, b) <==>
      && MayPrecommit(Member(cfg, n, s.mem.tip), s.mem, r, b, true)
      && (b.Height() in s.mem.locks && s.mem.locks[b.Height()].round == r ==> s.mem.locks[b.Height()].block == b)
  {
    var h := b.Height();
    if h !in s.disk.quarantine {
      FloorIsLog(cfg, n, log, s, h, r);
      if FloorAllows(s.mem, h, r) {
        LockIsFree(cfg, n, log, s, h, r, b);
      }
    }
  }

  /** What locking does once the guards before it have passed. */
  lemma LockSends(n: NodeId, s: NodeState, r: nat, b: Block, w: Write)
    requires !s.mem.failed && FloorAllows(s.mem, b.Height(), r)
    ensures
      var step, h := LockAndPrecommit(n, s, r, b, w), b.Height();
      var held := h in s.mem.locks && s.mem.locks[h] == Lock(b, r);
      var free := h in s.mem.locks && s.mem.locks[h].round == r ==> s.mem.locks[h].block == b;
      && step.emitted == (if free && (held || w.Durable?) then Some(Precommit(n, r, b)) else None)
      && step.cast == (if free && !held && !w.Lost? then Some(Precommit(n, r, b)) else None)
  {
  }

  /** The polka handler in terms of its guards, the lock held and the two writes. */
  lemma PolkaSends(n: NodeId, member: bool, s: NodeState, r: nat, b: Block, ready: bool, w: Write, w2: Write)
    requires !s.mem.failed && b.Child? && b.parent == s.mem.tip && r >= b.round
    ensures
      var step, h := OnPolka(n, member, s, r, b, ready, w, w2), b.Height();
      var held := h in s.mem.locks && s.mem.locks[h] == Lock(b, r);
      var free := h in s.mem.locks && s.mem.locks[h].round == r ==> s.mem.locks[h].block == b;
      var goes := ready && MayPrecommit(member, s.mem, r, b, true) && free && (NewsOfPolka(s, r, b) ==> w.Durable?);
      && step.emitted == (if goes && (held || w2.Durable?) then Some(Precommit(n, r, b)) else None)
      && step.cast == (if goes && !held && !w2.Lost? then Some(Precommit(n, r, b)) else None)
  {
    var t := NoteValidPolka(s, r, b, w);
    NoteKeeps(s, r, b, w);
    assert MayPrecommit(member, t.mem, r, b, ready) == (ready && MayPrecommit(member, s.mem, r, b, true));
    if !t.mem.failed && MayPrecommit(member, t.mem, r, b, ready) {
      LockSends(n, t, r, b, w2);
    }
  }

  lemma PolkaIdle(n: NodeId, member: bool, s: NodeState, r: nat, b: Block, ready: bool, w: Write, w2: Write)
    requires s.mem.failed || b.Genesis? || b.parent != s.mem.tip || r < b.round
    ensures
      var step := OnPolka(n, member, s, r, b, ready, w, w2);
      step.emitted == None && step.cast == None
  {
  }

  /**
   A polka is precommitted exactly when it is for a child of the tip and the current round, the node sits in the
   committee, has not given the height up, timed out of the round or sent a precommit in it since, has cast no
   vote in a later round and no precommit of this one for another block, the checks outside the model pass, and
   the valid value and the lock, where they are new, become durable.
   */
  lemma PolkaExactly(cfg: Config, n: NodeId, log: seq<Vote>, s: NodeState, r: nat, b: Block, ready: bool, w: Write,
                     w2: Write)
    requires NodeInv(cfg, n, log, s)
    ensures
      var step := Apply(cfg, n, s, SeePolka(r, b, ready, w, w2));
      var due := ready && PrecommitDue(cfg, n, log, s, r, b) && (NewsOfPolka(s, r, b) ==> w.Durable?);
      var cast := Precommit(n, r, b) in log;
      && step.emitted == (if due && (cast || w2.Durable?) then Some(Precommit(n, r, b)) else None)
      && step.cast == (if due && !cast && !w2.Lost? then Some(Precommit(n, r, b)) else None)
  {
    var member := Member(cfg, n, s.mem.tip);
    if !s.mem.failed && b.Child? && b.parent == s.mem.tip && r >= b.round {
      PolkaSends(n, member, s, r, b, ready, w, w2);
      PrecommitGuards(cfg, n, log, s, r, b);
      if PrecommitDue(cfg, n, log, s, r, b) {
        LockIsFree(cfg, n, log, s, b.Height(), r, b);
      }
    } else {
      PolkaIdle(n, member, s, r, b, ready, w, w2);
    }
  }

  // ---------------------------------------------------------------- the valid value

  /** Every valid value, in memory or on disk, is a prevote quorum there was. */
  ghost predicate PolkasReal(cfg: Config, log: seq<Vote>, s: NodeState)
  {
    && (forall h :: h in s.mem.validPolkas ==>
          var l := s.mem.validPolkas[h];
          l.block.Height() == h && Polka(cfg, log, l.round, l.block))
    && (forall h :: h in s.disk.rows && s.disk.rows[h].validPolka.Some? ==>
          var l := s.disk.rows[h].validPolka.value;
          l.block.Height() == h && Polka(cfg, log, l.round, l.block))
  }

  lemma PersistPolkas(cfg: Config, log: seq<Vote>, s: NodeState, h: nat, row: SafetyRow, w: Write)
    requires PolkasReal(cfg, log, s)
    requires row.validPolka.Some? ==>
      row.validPolka.value.block.Height() == h
        && Polka(cfg, log, row.validPolka.value.round, row.validPolka.value.block)
    ensures PolkasReal(cfg, log, Persist(s, h, row, w))
  {
  }

  lemma PrevotePolkas(cfg: Config, log: seq<Vote>, n: NodeId, s: NodeState, r: nat, b: Block, w: Write)
    requires PolkasReal(cfg, log, s)
    ensures PolkasReal(cfg, log, RecordPrevote(n, s, r, b, w).state)
  {
    var row := RowOf(s.mem, b.Height());
    PersistPolkas(cfg, log, s, b.Height(), row.(prevotes := row.prevotes[r := b]), w);
  }

  lemma NotePolkas(cfg: Config, log: seq<Vote>, s: NodeState, r: nat, b: Block, w: Write)
    requires PolkasReal(cfg, log, s) && Polka(cfg, log, r, b)
    ensures PolkasReal(cfg, log, NoteValidPolka(s, r, b, w))
  {
    PersistPolkas(cfg, log, s, b.Height(), RowOf(s.mem, b.Height()).(validPolka := Some(Lock(b, r))), w);
  }

  lemma LockPolkas(cfg: Config, log: seq<Vote>, n: NodeId, s: NodeState, r: nat, b: Block, w: Write)
    requires PolkasReal(cfg, log, s)
    ensures PolkasReal(cfg, log, LockAndPrecommit(n, s, r, b, w).state)
  {
    var h := b.Height();
    LockKeepsValue(n, s, r, b, w);
    if !s.mem.failed && !(h in s.mem.locks && r <= s.mem.locks[h].round) {
      var row := RowOf(s.mem, h).(lock := Some(Lock(b, r)));
      PersistPolkas(cfg, log, s, h, row, w);
      assert LockAndPrecommit(n, s, r, b, w).state.disk == Persist(s, h, row, w).disk;
    } else {
      assert LockAndPrecommit(n, s, r, b, w).state.disk == s.disk;
    }
  }

  lemma LoadPolkas(cfg: Config, log: seq<Vote>, n: NodeId, s: NodeState, m: Media)
    requires PolkasReal(cfg, log, s) && NoImpostor(s.disk, m)
    ensures PolkasReal(cfg, log, Loaded(Reload(cfg, n, s.disk, m)))
  {
    var d' := Reload(cfg, n, s.disk, m);
    assert forall h :: h in d'.rows ==> h in s.disk.rows && d'.rows[h] == s.disk.rows[h];
  }

  lemma ProposePolkas(cfg: Config, log: seq<Vote>, n: NodeId, member: bool, s: NodeState, r: nat, b: Block,
                      pol: Option<nat>, ready: bool, w: Write)
    requires PolkasReal(cfg, log, s)
    ensures PolkasReal(cfg, log, HandlePropose(n, member, s, r, b, pol, ready, w).state)
  {
    var s1 := s.(mem := s.mem.(currentRound := r));
    PrevotePolkas(cfg, log, n, s1, r, b, w);
  }

  lemma OnPolkaPolkas(cfg: Config, log: seq<Vote>, n: NodeId, member: bool, s: NodeState, r: nat, b: Block, ready: bool,
                      w: Write, w2: Write)
    requires PolkasReal(cfg, log, s) && Polka(cfg, log, r, b)
    ensures PolkasReal(cfg, log, OnPolka(n, member, s, r, b, ready, w, w2).state)
  {
    NotePolkas(cfg, log, s, r, b, w);
    LockPolkas(cfg, log, n, NoteValidPolka(s, r, b, w), r, b, w2);
  }

  lemma FinalizePolkas(cfg: Config, log: seq<Vote>, s: NodeState, b: Block, w: Write)
    requires PolkasReal(cfg, log, s) && b.Child?
    ensures PolkasReal(cfg, log, VotingNode.Finalize(s, b, w))
  {
  }

  lemma StepPolkas(cfg: Config, n: NodeId, log: seq<Vote>, s: NodeState, a: Action)
    requires PolkasReal(cfg, log, s) && Enabled(cfg, log, a) && Recoverable(n, log, s.disk, a)
    ensures PolkasReal(cfg, log, Apply(cfg, n, s, a).state)
  {
    var member := Member(cfg, n, s.mem.tip);
    match a
    case Propose(r, b, pol, ready, w) => ProposePolkas(cfg, log, n, member, s, r, b, pol, ready, w);
    case SeePolka(r, b, ready, w, w2) => OnPolkaPolkas(cfg, log, n, member, s, r, b, ready, w, w2);
    case SeeCommit(r, b, w) => FinalizePolkas(cfg, log, s, b, w);
    case MoveRound(_, _, _) =>
    case Stop =>
    case Start(m) => LoadPolkas(cfg, log, n, s, m);
  }

  lemma PolkasStay(cfg: Config, log: seq<Vote>, more: seq<Vote>, s: NodeState)
    requires PolkasReal(cfg, log, s) && log <= more
    ensures PolkasReal(cfg, more, s)
  {
    forall r, b | Polka(cfg, log, r, b)
      ensures Polka(cfg, more, r, b)
    {
      PolkaGrows(cfg, log, more, r, b);
    }
  }

  ghost predicate AllPolkasReal(cfg: Config, c: Cluster)
  {
    forall n :: n in c.nodes ==> PolkasReal(cfg, c.log, c.nodes[n])
  }

  lemma NextPolkas(cfg: Config, c: Cluster, c': Cluster, n: NodeId, a: Action)
    requires AllPolkasReal(cfg, c) && NextBy(cfg, c, c', n, a)
    ensures AllPolkasReal(cfg, c')
  {
    StepPolkas(cfg, n, c.log, c.nodes[n], a);
    forall m | m in c'.nodes
      ensures PolkasReal(cfg, c'.log, c'.nodes[m])
    {
      PolkasStay(cfg, c.log, c'.log, c'.nodes[m]);
    }
  }

  lemma RunStepPolkas(cfg: Config, run: seq<Cluster>, acts: seq<(NodeId, Action)>, i: nat)
    requires IsRun(cfg, run, acts) && i < |acts| && AllPolkasReal(cfg, run[i])
    ensures AllPolkasReal(cfg, run[i + 1])
  {
    var c, c', n, a := run[i], run[i + 1], acts[i].0, acts[i].1;
    NextPolkas(cfg, c, c', n, a);
  }

  /** In every state of every run each valid value held is a real prevote quorum for a block of its height. */
  lemma {:induction false} ValidValuesReal(cfg: Config, run: seq<Cluster>, acts: seq<(NodeId, Action)>, i: nat)
    requires IsRun(cfg, run, acts) && i < |run|
    ensures AllPolkasReal(cfg, run[i])
  {
    if i > 0 {
      ValidValuesReal(cfg, run, acts, i - 1);
      RunStepPolkas(cfg, run, acts, i - 1);
    }
  }

  /** A running node learns of a polka of the height. */
  predicate SeesPolka(s: NodeState, a: Action, h: nat)
  {
    && a.SeePolka? && a.block.Child? && a.block.parent == s.mem.tip && a.round >= a.block.round
    && a.block.Height() == h && !s.mem.failed
  }

  /**
   The valid value of an open height moves only to a polka the node sees, of a higher round; a polka of the
   next height that is seen and written is held, or a later one is.
   */
  lemma ValidValueRises(cfg: Config, n: NodeId, s: NodeState, a: Action, h: nat)
    requires !a.Start? && (a.SeeCommit? ==> a.block.Child?) && h > Apply(cfg, n, s, a).state.mem.tip.Height()
    ensures
      var was, now := Lookup(s.mem.validPolkas, h), Lookup(Apply(cfg, n, s, a).state.mem.validPolkas, h);
      && (was.Some? ==> now.Some? && was.value.round <= now.value.round)
      && (now != was ==>
            && a.SeePolka? && now == Some(Lock(a.block, a.round)) && a.block.Height() == h
            && (was.Some? ==> was.value.round < a.round))
      && (SeesPolka(s, a, h) && a.w.Durable? ==> now.Some? && now.value.round >= a.round)
  {
    match a
    case SeePolka(r, b, ready, w, w2) =>
      NoteValue(s, r, b, w);
      PolkaValue(n, Member(cfg, n, s.mem.tip), s, r, b, ready, w, w2);
    case SeeCommit(r, b, w) =>
    case _ =>
  }

  lemma NoteValue(s: NodeState, r: nat, b: Block, w: Write)
    ensures NoteValidPolka(s, r, b, w).mem.validPolkas ==
            if !s.mem.failed && NewsOfPolka(s, r, b) && w.Durable? then s.mem.validPolkas[b.Height() := Lock(b, r)]
            else s.mem.validPolkas
  {
  }

  lemma LockKeepsValue(n: NodeId, s: NodeState, r: nat, b: Block, w: Write)
    ensures LockAndPrecommit(n, s, r, b, w).state.mem.validPolkas == s.mem.validPolkas
  {
  }

  lemma PolkaValue(n: NodeId, member: bool, s: NodeState, r: nat, b: Block, ready: bool, w: Write, w2: Write)
    ensures OnPolka(n, member, s, r, b, ready, w, w2).state.mem.validPolkas ==
            if b.Child? && b.parent == s.mem.tip && r >= b.round then NoteValidPolka(s, r, b, w).mem.validPolkas
            else s.mem.validPolkas
  {
    LockKeepsValue(n, NoteValidPolka(s, r, b, w), r, b, w2);
  }

  // ---------------------------------------------------------------- finalizing

  /**
   A commit of a child of the tip, once durable, makes it the tip and starts the next height in round 0; the
   safety row of the height is forgotten, and every other height's stays.
   */
  lemma FinalizeMemory(s: NodeState, b: Block, w: Write, k: nat)
    requires b.Child?
    ensures
      var t, goes := VotingNode.Finalize(s, b, w), !s.mem.failed && b.parent == s.mem.tip;
      && t.mem.tip == (if goes && w.Durable? then b else s.mem.tip)
      && t.mem.currentRound == (if goes && w.Durable? then 0 else s.mem.currentRound)
      && t.mem.failed == (s.mem.failed || (goes && !w.Durable?))
      && RowOf(t.mem, k) == (if goes && w.Durable? && k == b.Height() then EmptyRow() else RowOf(s.mem, k))
  {
    var m := s.mem.(tip := b, currentRound := 0);
    ForgetClears(m, b.Height(), k);
    assert RowOf(m, k) == RowOf(s.mem, k);
  }

  /** The database follows in one batch, unless the write is lost. */
  lemma FinalizeDisk(s: NodeState, b: Block, w: Write, k: nat)
    requires b.Child?
    ensures
      var d, goes := VotingNode.Finalize(s, b, w).disk, !s.mem.failed && b.parent == s.mem.tip && !w.Lost?;
      && d.tip == (if goes then b else s.disk.tip) && d.highwater == s.disk.highwater
      && RowAt(d.rows, k) == (if goes && k == b.Height() then EmptyRow() else RowAt(s.disk.rows, k))
      && (k in d.quarantine <==> k in s.disk.quarantine && !(goes && k == b.Height()))
  {
  }
}
