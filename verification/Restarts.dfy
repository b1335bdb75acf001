/**
 Restarts over damaged safety rows: exactly when a start keeps every vote, what happens when it does not, and
 the runs in which the highwater row makes every start safe.
 */
module Restarts {
  import opened Options
  import opened Blocks
  import opened VoteLog
  import opened VotingNode
  import opened Finality

  // ---------------------------------------------------------------- what the node keeps besides

  /** A quarantined height has no vote on record. */
  ghost predicate QuarantineEmpty(d: Disk)
  {
    forall h :: h in d.quarantine && h in d.rows ==> !HasVote(d.rows[h])
  }

  /** Votes sent by this process are not of heights it abstains at. */
  ghost predicate OutboxOpen(mem: Memory)
  {
    forall v :: v in mem.outbox ==> v.block.Height() !in mem.abstain
  }

  ghost predicate Tidy(s: NodeState)
  {
    QuarantineEmpty(s.disk) && (!s.mem.failed ==> OutboxOpen(s.mem))
  }

  lemma PersistTidy(s: NodeState, h: nat, row: SafetyRow, w: Write)
    requires QuarantineEmpty(s.disk) && (h in s.disk.quarantine ==> !HasVote(row))
    ensures QuarantineEmpty(Persist(s, h, row, w).disk)
  {
  }

  lemma PrevoteTidy(n: NodeId, s: NodeState, r: nat, b: Block, w: Write)
    requires Tidy(s) && !s.mem.failed && MemoryIsDisk(s) && b.Height() !in s.mem.abstain
    ensures Tidy(RecordPrevote(n, s, r, b, w).state)
  {
    var row := RowOf(s.mem, b.Height());
    PersistTidy(s, b.Height(), row.(prevotes := row.prevotes[r := b]), w);
  }

  /** Memory holds no vote of a quarantined height. */
  lemma HoldsNoVote(s: NodeState, h: nat)
    requires QuarantineEmpty(s.disk) && MemoryIsDisk(s) && h in s.disk.quarantine
    ensures !HasVote(RowOf(s.mem, h))
  {
    assert RowMatches(s.mem.locks, s.mem.prevotes, s.disk.rows, h);
  }

  lemma NoteTidy(s: NodeState, r: nat, b: Block, w: Write)
    requires Tidy(s) && !s.mem.failed && MemoryIsDisk(s)
    ensures Tidy(NoteValidPolka(s, r, b, w))
  {
    var h := b.Height();
    if h in s.disk.quarantine {
      HoldsNoVote(s, h);
    }
    var row := RowOf(s.mem, h).(validPolka := Some(Lock(b, r)));
    PersistTidy(s, h, row, w);
    assert NoteValidPolka(s, r, b, w).disk == s.disk || NoteValidPolka(s, r, b, w).disk == Persist(s, h, row, w).disk;
  }

  lemma LockTidy(n: NodeId, s: NodeState, r: nat, b: Block, w: Write)
    requires Tidy(s) && !s.mem.failed && (forall h :: h in s.mem.abstain <==> h in s.disk.quarantine)
    requires b.Height() !in s.mem.abstain
    ensures Tidy(LockAndPrecommit(n, s, r, b, w).state)
  {
    var h := b.Height();
    if !(h in s.mem.locks && r <= s.mem.locks[h].round) {
      var row := RowOf(s.mem, h).(lock := Some(Lock(b, r)));
      PersistTidy(s, h, row, w);
      assert LockAndPrecommit(n, s, r, b, w).state.disk == Persist(s, h, row, w).disk;
    }
  }

  lemma FinalizeTidy(s: NodeState, b: Block, w: Write)
    requires Tidy(s) && b.Child?
    ensures Tidy(VotingNode.Finalize(s, b, w))
  {
  }

  lemma LoadTidy(cfg: Config, n: NodeId, d: Disk, m: Media)
    requires QuarantineEmpty(d) && NoImpostor(d, m)
    ensures Tidy(Loaded(Reload(cfg, n, d, m)))
  {
    var d' := Reload(cfg, n, d, m);
    forall h | h in d'.quarantine && h in d'.rows
      ensures !HasVote(d'.rows[h])
    {
      assert h in OpenRows(m, d.tip.Height()) && Trusted(m, h).Some?;
      assert h in d.quarantine;
    }
  }

  lemma ProposeTidy(n: NodeId, member: bool, s: NodeState, r: nat, b: Block, pol: Option<nat>, ready: bool, w: Write)
    requires Tidy(s) && (!s.mem.failed ==> MemoryIsDisk(s))
    ensures Tidy(HandlePropose(n, member, s, r, b, pol, ready, w).state)
  {
    var s1 := s.(mem := s.mem.(currentRound := r));
    if !s.mem.failed && b.Height() !in s.mem.abstain {
      PrevoteTidy(n, s1, r, b, w);
    }
  }

  lemma PolkaTidy(n: NodeId, member: bool, s: NodeState, r: nat, b: Block, ready: bool, w: Write, w2: Write)
    requires Tidy(s) && (!s.mem.failed ==> MemoryIsDisk(s))
    ensures Tidy(OnPolka(n, member, s, r, b, ready, w, w2).state)
  {
    if !s.mem.failed {
      NoteTidy(s, r, b, w);
      var s1 := NoteValidPolka(s, r, b, w);
      if !s1.mem.failed && b.Height() !in s.mem.abstain {
        LockTidy(n, s1, r, b, w2);
      }
    }
  }

  lemma StepTidy(cfg: Config, n: NodeId, log: seq<Vote>, s: NodeState, a: Action)
    requires NodeInv(cfg, n, log, s) && Tidy(s) && Recoverable(n, log, s.disk, a) && (a.SeeCommit? ==> a.block.Child?)
    ensures Tidy(Apply(cfg, n, s, a).state)
  {
    match a
    case Propose(r, b, pol, ready, w) => ProposeTidy(n, Member(cfg, n, s.mem.tip), s, r, b, pol, ready, w);
    case SeePolka(r, b, ready, w, w2) => PolkaTidy(n, Member(cfg, n, s.mem.tip), s, r, b, ready, w, w2);
    case SeeCommit(r, b, w) => FinalizeTidy(s, b, w);
    case MoveRound(_, _, _) =>
    case Stop =>
    case Start(m) => LoadTidy(cfg, n, s.disk, m);
  }

  ghost predicate AllTidy(c: Cluster)
  {
    forall n :: n in c.nodes ==> Tidy(c.nodes[n])
  }

  lemma NextTidy(cfg: Config, c: Cluster, c': Cluster, n: NodeId, a: Action)
    requires ClusterInv(cfg, c) && NextBy(cfg, c, c', n, a) && AllTidy(c)
    ensures AllTidy(c')
  {
    StepTidy(cfg, n, c.log, c.nodes[n], a);
  }

  lemma InitTidy(cfg: Config, c: Cluster)
    requires Init(cfg, c)
    ensures AllTidy(c)
  {
  }

  lemma RunStepTidy(cfg: Config, run: seq<Cluster>, acts: seq<(NodeId, Action)>, i: nat)
    requires IsRun(cfg, run, acts) && i < |acts| && AllTidy(run[i])
    ensures AllTidy(run[i + 1])
  {
    var c, c', n, a := run[i], run[i + 1], acts[i].0, acts[i].1;
    RunKeeps(cfg, run, acts, i);
    NextTidy(cfg, c, c', n, a);
  }

  lemma {:induction false} RunTidy(cfg: Config, run: seq<Cluster>, acts: seq<(NodeId, Action)>, i: nat)
    requires IsRun(cfg, run, acts) && i < |run|
    ensures AllTidy(run[i])
  {
    if i == 0 {
      InitTidy(cfg, run[0]);
    } else {
      RunTidy(cfg, run, acts, i - 1);
      RunStepTidy(cfg, run, acts, i - 1);
    }
  }

  // ---------------------------------------------------------------- exactly the safe restarts

  /** What does not survive leaves an open height without a vote on record. */
  lemma ForgottenHeight(cfg: Config, n: NodeId, d: Disk, m: Media, h: nat)
    requires NoImpostor(d, m) && QuarantineEmpty(d) && h > d.tip.Height() && !Survives(d, m, h)
    ensures
      var d' := Reload(cfg, n, d, m);
      !Closed(d', h) && (h in d'.rows ==> !HasVote(d'.rows[h]))
  {
  }

  lemma CoverIsNeeded(cfg: Config, n: NodeId, log: seq<Vote>, s: NodeState, m: Media)
    requires QuarantineEmpty(s.disk) && NoImpostor(s.disk, m) && !Covered(n, log, s.disk, m)
    ensures !VotesRecorded(n, log, Reload(cfg, n, s.disk, m))
  {
    var h :| h > s.disk.tip.Height() && Voted(n, log, h) && !Survives(s.disk, m, h);
    var v :| v in log && v.node == n && v.block.Height() == h;
    ForgottenHeight(cfg, n, s.disk, m, h);
  }

  /**
   Over rows that are what was written, a restart keeps the invariant exactly when every open height the node
   has voted at survives: a quarantined one has its quarantine row, or a row that cannot be read, or no row
   but the highwater mark above it; any other one has a row, readable or not, or the mark above it.
   */
  lemma RestartExactly(cfg: Config, n: NodeId, log: seq<Vote>, s: NodeState, m: Media)
    requires NodeInv(cfg, n, log, s) && QuarantineEmpty(s.disk) && NoImpostor(s.disk, m)
    ensures NodeInv(cfg, n, log, Loaded(Reload(cfg, n, s.disk, m))) <==> Covered(n, log, s.disk, m)
  {
    if Covered(n, log, s.disk, m) {
      RestartKeeps(cfg, n, log, s, m);
    } else {
      CoverIsNeeded(cfg, n, log, s, m);
    }
  }

  /** The same in every state of every run. */
  lemma RunRestartExactly(cfg: Config, run: seq<Cluster>, acts: seq<(NodeId, Action)>, i: nat, n: NodeId, m: Media)
    requires IsRun(cfg, run, acts) && i < |run| && n in run[i].nodes && NoImpostor(run[i].nodes[n].disk, m)
    ensures NodeInv(cfg, n, run[i].log, Loaded(Reload(cfg, n, run[i].nodes[n].disk, m))) <==>
      Covered(n, run[i].log, run[i].nodes[n].disk, m)
  {
    RunKeeps(cfg, run, acts, i);
    RunTidy(cfg, run, acts, i);
    RestartExactly(cfg, n, run[i].log, run[i].nodes[n], m);
  }

  /**
   Where it fails the node may vote again at the height: in the round of its earlier prevote, and for any
   other child of its tip.
   */
  lemma ForgottenVoteRepeats(cfg: Config, n: NodeId, s: NodeState, m: Media, r: nat, c: Block)
    requires NoImpostor(s.disk, m) && QuarantineEmpty(s.disk) && c.Child? && c.parent == s.disk.tip
    requires !Survives(s.disk, m, c.Height())
    ensures MayPrevote(true, Loaded(Reload(cfg, n, s.disk, m)).mem, r, c, None, true)
  {
    ForgottenHeight(cfg, n, s.disk, m, c.Height());
    var d' := Reload(cfg, n, s.disk, m);
    PrevotesAtLoaded(d'.rows, c.Height());
    assert forall k :: k in PrevotesOf(d'.rows) ==> k.0 in d'.rows && k.1 in d'.rows[k.0].prevotes;
  }

  // ---------------------------------------------------------------- a lost quarantine row

  /** Both copies of one row readable, the highwater row intact and the quarantine row gone. */
  function Unquarantined(d: Disk, h: nat): Media
    requires h in d.rows
  {
    Media(map[h := Some(d.rows[h])], map[h := Some(d.rows[h])], {}, Some(d.highwater))
  }

  /** A quarantined open height with a row that holds no vote, under the mark. */
  ghost predicate HasShadow(d: Disk, h: nat)
  {
    h > d.tip.Height() && h in d.quarantine && h in d.rows && !HasVote(d.rows[h]) && h <= d.highwater
  }

  lemma NoteShadows(s: NodeState, r: nat, b: Block, w: Write)
    requires QuarantineEmpty(s.disk) && MemoryIsDisk(s) && !s.mem.failed && !w.Lost?
    requires b.Height() > s.disk.tip.Height() && b.Height() in s.disk.quarantine && b.Height() !in s.mem.validPolkas
    ensures HasShadow(NoteValidPolka(s, r, b, w).disk, b.Height())
  {
    HoldsNoVote(s, b.Height());
  }

  /** With that row and the highwater row intact, the quarantine row alone being gone, the height does not survive. */
  lemma ShadowFails(d: Disk, h: nat)
    requires HasShadow(d, h)
    ensures NoImpostor(d, Unquarantined(d, h)) && !Survives(d, Unquarantined(d, h), h)
  {
  }

  /**
   A polka seen at a quarantined height leaves such a row, since the valid value is recorded before the
   abstention is looked up.
   */
  lemma PolkaShadows(n: NodeId, member: bool, s: NodeState, r: nat, b: Block, ready: bool, w: Write, w2: Write)
    requires Tidy(s) && MemoryIsDisk(s) && !s.mem.failed && !w.Lost?
    requires b.Child? && b.parent == s.mem.tip && r >= b.round
    requires b.Height() in s.disk.quarantine && b.Height() !in s.mem.validPolkas
    ensures
      var s' := OnPolka(n, member, s, r, b, ready, w, w2).state;
      HasShadow(s'.disk, b.Height()) && QuarantineEmpty(s'.disk) && s'.disk.tip == s.disk.tip
  {
    NoteShadows(s, r, b, w);
    NoteTidy(s, r, b, w);
    var s1 := NoteValidPolka(s, r, b, w);
    assert b.Height() in s1.mem.abstain;
  }

  /** After a start that finds all but the quarantine row the node may prevote any child of its tip, in any round. */
  lemma LostQuarantineRepeats(cfg: Config, n: NodeId, s: NodeState, h: nat, c: Block, r: nat)
    requires HasShadow(s.disk, h) && QuarantineEmpty(s.disk) && c.Child? && c.parent == s.disk.tip && c.Height() == h
    ensures MayPrevote(true, Loaded(Reload(cfg, n, s.disk, Unquarantined(s.disk, h))).mem, r, c, None, true)
  {
    ShadowFails(s.disk, h);
    ForgottenVoteRepeats(cfg, n, s, Unquarantined(s.disk, h), r, c);
  }

  // ---------------------------------------------------------------- the highwater mark

  /** Every open vote lies under the mark. */
  ghost predicate UnderMark(n: NodeId, log: seq<Vote>, d: Disk)
  {
    forall h :: h > d.tip.Height() && Voted(n, log, h) ==> h <= d.highwater
  }

  /** What a step does to the mark. */
  ghost predicate MarkMoves(d: Disk, d': Disk, cast: Option<Vote>)
  {
    && d.highwater <= d'.highwater && d.tip.Height() <= d'.tip.Height()
    && (cast.Some? ==> cast.value.block.Height() <= d'.highwater)
  }

  lemma PersistMarks(s: NodeState, h: nat, row: SafetyRow, w: Write)
    ensures
      var d' := Persist(s, h, row, w).disk;
      s.disk.highwater <= d'.highwater && d'.tip == s.disk.tip && (!w.Lost? && !s.mem.failed ==> h <= d'.highwater)
  {
  }

  lemma PrevoteMarks(n: NodeId, s: NodeState, r: nat, b: Block, w: Write)
    ensures MarkMoves(s.disk, RecordPrevote(n, s, r, b, w).state.disk, RecordPrevote(n, s, r, b, w).cast)
  {
    var row := RowOf(s.mem, b.Height());
    PersistMarks(s, b.Height(), row.(prevotes := row.prevotes[r := b]), w);
  }

  lemma NoteMarks(s: NodeState, r: nat, b: Block, w: Write)
    ensures MarkMoves(s.disk, NoteValidPolka(s, r, b, w).disk, None)
  {
    PersistMarks(s, b.Height(), RowOf(s.mem, b.Height()).(validPolka := Some(Lock(b, r))), w);
  }

  lemma LockMarks(n: NodeId, s: NodeState, r: nat, b: Block, w: Write)
    ensures MarkMoves(s.disk, LockAndPrecommit(n, s, r, b, w).state.disk, LockAndPrecommit(n, s, r, b, w).cast)
  {
    var h := b.Height();
    if !s.mem.failed && !(h in s.mem.locks && r <= s.mem.locks[h].round) {
      var row := RowOf(s.mem, h).(lock := Some(Lock(b, r)));
      PersistMarks(s, h, row, w);
      assert LockAndPrecommit(n, s, r, b, w).state.disk == Persist(s, h, row, w).disk;
    } else {
      assert LockAndPrecommit(n, s, r, b, w).state.disk == s.disk;
    }
  }

  /** Every step keeps the mark above every vote, unless a start finds the highwater row gone. */
  lemma StepMarks(cfg: Config, n: NodeId, s: NodeState, a: Action)
    requires a.SeeCommit? ==> a.block.Child?
    requires !s.mem.failed ==> s.mem.tip == s.disk.tip
    requires a.Start? ==> a.media.highwater == Some(s.disk.highwater)
    ensures MarkMoves(s.disk, Apply(cfg, n, s, a).state.disk, Apply(cfg, n, s, a).cast)
  {
    match a
    case Propose(r, b, pol, ready, w) =>
      PrevoteMarks(n, s.(mem := s.mem.(currentRound := r)), r, b, w);
    case SeePolka(r, b, ready, w, w2) =>
      NoteMarks(s, r, b, w);
      LockMarks(n, NoteValidPolka(s, r, b, w), r, b, w2);
    case _ =>
  }

  lemma MarkKept(n: NodeId, log: seq<Vote>, d: Disk, d': Disk, cast: Option<Vote>)
    requires UnderMark(n, log, d) && MarkMoves(d, d', cast)
    ensures UnderMark(n, Extend(log, cast), d')
  {
    forall h | h > d'.tip.Height() && Voted(n, Extend(log, cast), h)
      ensures h <= d'.highwater
    {
      var v :| v in Extend(log, cast) && v.node == n && v.block.Height() == h;
      if v in log {
        assert Voted(n, log, h);
      }
    }
  }

  /** A readable row at the open height the node has voted at and given up, with the quarantine row gone. */
  ghost predicate Shadowed(n: NodeId, log: seq<Vote>, d: Disk, m: Media)
  {
    var h := d.tip.Height() + 1;
    Voted(n, log, h) && h in d.quarantine && h !in m.quarantine && Trusted(m, h).Some?
  }

  /** While the highwater row is readable, a restart is unsafe in that case only. */
  lemma MarkCoversExactly(cfg: Config, n: NodeId, log: seq<Vote>, d: Disk, m: Media)
    requires VotesOnOwnChain(cfg, n, log, d) && UnderMark(n, log, d) && m.highwater == Some(d.highwater)
    ensures Covered(n, log, d, m) <==> !Shadowed(n, log, d, m)
  {
    forall h | h > d.tip.Height() && Voted(n, log, h)
      ensures h == d.tip.Height() + 1 && h <= MarkAfter(m, d.tip.Height())
    {
      var v :| v in log && v.node == n && v.block.Height() == h;
      OwnVote(cfg, n, log, d, v);
    }
  }

  // ---------------------------------------------------------------- runs in which the highwater row survives

  /** A step whose start, if it is one, finds the highwater row intact and no shadowed height. */
  ghost predicate NextMarked(cfg: Config, c: Cluster, c': Cluster, n: NodeId, a: Action)
  {
    && n in c.nodes && Enabled(cfg, c.log, a)
    && (a.Start? ==>
          && NoImpostor(c.nodes[n].disk, a.media) && a.media.highwater == Some(c.nodes[n].disk.highwater)
          && !Shadowed(n, c.log, c.nodes[n].disk, a.media))
    && var step := Apply(cfg, n, c.nodes[n], a);
       c' == Cluster(c.nodes[n := step.state], Extend(c.log, step.cast))
  }

  ghost predicate IsMarkedRun(cfg: Config, run: seq<Cluster>, acts: seq<(NodeId, Action)>)
    decreases |acts|
  {
    var k := |acts| - 1;
    && |run| == |acts| + 1
    && if acts == [] then Init(cfg, run[0])
       else IsMarkedRun(cfg, run[..k + 1], acts[..k]) && NextMarked(cfg, run[k], run[k + 1], acts[k].0, acts[k].1)
  }

  ghost predicate AllUnderMark(c: Cluster)
  {
    forall m :: m in c.nodes ==> UnderMark(m, c.log, c.nodes[m].disk)
  }

  lemma MarkedIsNext(cfg: Config, c: Cluster, c': Cluster, n: NodeId, a: Action)
    requires ClusterInv(cfg, c) && AllUnderMark(c) && NextMarked(cfg, c, c', n, a)
    ensures NextBy(cfg, c, c', n, a)
  {
    if a.Start? {
      MarkCoversExactly(cfg, n, c.log, c.nodes[n].disk, a.media);
    }
  }

  /** A vote of another node is no vote of this one. */
  lemma OthersUnderMark(n: NodeId, log: seq<Vote>, log': seq<Vote>, d: Disk)
    requires UnderMark(n, log, d) && forall v :: v in log' && v.node == n ==> v in log
    ensures UnderMark(n, log', d)
  {
    forall h | h > d.tip.Height() && Voted(n, log', h)
      ensures h <= d.highwater
    {
      assert Voted(n, log, h);
    }
  }

  lemma MarkedStep(cfg: Config, c: Cluster, c': Cluster, n: NodeId, a: Action)
    requires ClusterInv(cfg, c) && AllUnderMark(c) && NextBy(cfg, c, c', n, a)
    requires a.Start? ==> a.media.highwater == Some(c.nodes[n].disk.highwater)
    ensures AllUnderMark(c')
  {
    var step := Apply(cfg, n, c.nodes[n], a);
    StepMarks(cfg, n, c.nodes[n], a);
    MarkKept(n, c.log, c.nodes[n].disk, step.state.disk, step.cast);
    StepKeeps(cfg, n, c.log, c.nodes[n], a);
    forall m | m in c'.nodes && m != n
      ensures UnderMark(m, c'.log, c'.nodes[m].disk)
    {
      OthersUnderMark(m, c.log, c'.log, c.nodes[m].disk);
    }
  }

  lemma ExtendMarked(cfg: Config, run: seq<Cluster>, acts: seq<(NodeId, Action)>, c': Cluster, n: NodeId, a: Action)
    requires IsRun(cfg, run, acts) && AllUnderMark(run[|acts|]) && NextMarked(cfg, run[|acts|], c', n, a)
    ensures IsRun(cfg, run + [c'], acts + [(n, a)]) && AllUnderMark(c')
  {
    RunKeeps(cfg, run, acts, |acts|);
    MarkedIsNext(cfg, run[|acts|], c', n, a);
    MarkedStep(cfg, run[|acts|], c', n, a);
    ExtendRun(cfg, run, acts, run[|acts|], c', n, a);
  }

  /** Such a run is a run: with the highwater row, and no shadowed height, every restart is safe. */
  lemma {:induction false} MarkedRunIsRun(cfg: Config, run: seq<Cluster>, acts: seq<(NodeId, Action)>)
    requires IsMarkedRun(cfg, run, acts)
    ensures IsRun(cfg, run, acts) && AllUnderMark(run[|acts|])
    decreases |acts|
  {
    if acts != [] {
      var k := |acts| - 1;
      assert run == run[..k + 1] + [run[k + 1]] && acts == acts[..k] + [acts[k]];
      MarkedRunIsRun(cfg, run[..k + 1], acts[..k]);
      ExtendMarked(cfg, run[..k + 1], acts[..k], run[k + 1], acts[k].0, acts[k].1);
    }
  }
}
