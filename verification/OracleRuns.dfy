/**
 The fuzzer's oracle on runs of the voting code: a node is observed after each of its steps, through crashes,
 failed writes and restarts. The observation passes exactly when the step is not a restart that quarantines
 the open height after the oracle has seen a vote there.
 */
module OracleRuns {
  import opened Options
  import opened Blocks
  import opened VoteLog
  import opened VotingNode
  import opened Finality
  import opened Restarts
  import opened FuzzOracle
  import opened OracleScan
  import opened OracleAgreement
  import opened OracleViews

  // ---------------------------------------------------------------- what a step leaves

  /** The vote a step cast, on disk. */
  ghost predicate CastShape(n: NodeId, s: NodeState, s': NodeState, cast: Option<Vote>)
  {
    cast.Some? ==>
      var w, h := cast.value, cast.value.block.Height();
      && w.node == n && h == s.disk.tip.Height() + 1 && h !in s.disk.quarantine && !s.mem.failed
      && s'.disk.tip == s.disk.tip && s'.disk.quarantine == s.disk.quarantine
      && (w.Precommit? ==> RowAt(s'.disk.rows, h).lock == Some(Lock(w.block, w.round)))
  }

  /** A step of a process that had failed: nothing happens. */
  ghost predicate StepFailed(s: NodeState, s': NodeState, cast: Option<Vote>, emitted: Option<Vote>)
  {
    s'.mem.failed && s'.disk == s.disk && cast == None && emitted == None && SameHands(s'.mem, s.mem)
  }

  ghost predicate StepUp(n: NodeId, s: NodeState, s': NodeState, cast: Option<Vote>)
  {
    && (s'.mem.failed ==> SameHands(s'.mem, s.mem)) && CastShape(n, s, s', cast)
    && ( (s'.disk.tip == s.disk.tip && s'.disk.quarantine == s.disk.quarantine)
       || (s'.disk.tip.Child? && s'.disk.tip.parent == s.disk.tip && cast == None))
  }

  /** What a load leaves of the open height. */
  ghost predicate Restarted(n: NodeId, log: seq<Vote>, d: Disk, s: NodeState)
  {
    var h := d.tip.Height() + 1;
    && !s.mem.failed && s.mem.tip == d.tip && s.disk.tip == d.tip && s.mem.abstain == s.disk.quarantine
    && (h in d.quarantine && Voted(n, log, h) ==> h in s.disk.quarantine)
    && (h in s.disk.rows ==> h in d.rows && s.disk.rows[h] == d.rows[h])
  }

  lemma ReloadFacts(cfg: Config, n: NodeId, log: seq<Vote>, d: Disk, m: Media)
    requires NoImpostor(d, m) && Finality.Covered(n, log, d, m) && VotesOnOwnChain(cfg, n, log, d)
    ensures Restarted(n, log, d, Loaded(Reload(cfg, n, d, m)))
  {
    StaysGivenUp(cfg, n, log, d, m, d.tip.Height() + 1);
    RowsKept(cfg, n, d, m, d.tip.Height() + 1);
  }

  lemma RowsKept(cfg: Config, n: NodeId, d: Disk, m: Media, h: nat)
    requires NoImpostor(d, m)
    ensures
      var d' := Reload(cfg, n, d, m);
      d'.tip == d.tip && (h in d'.rows ==> h in d.rows && d'.rows[h] == d.rows[h])
  {
  }

  lemma StaysGivenUp(cfg: Config, n: NodeId, log: seq<Vote>, d: Disk, m: Media, h: nat)
    requires NoImpostor(d, m) && Finality.Covered(n, log, d, m) && VotesOnOwnChain(cfg, n, log, d) && h > d.tip.Height()
    ensures h in d.quarantine && Voted(n, log, h) ==> h in Reload(cfg, n, d, m).quarantine
  {
    if Voted(n, log, h) {
      var v :| v in log && v.node == n && v.block.Height() == h;
      OwnVote(cfg, n, log, d, v);
      LoadedHeight(cfg, n, d, m, h);
    }
  }

  /** What an observer needs of a step, whatever the action. */
  ghost predicate Stepped(cfg: Config, n: NodeId, log: seq<Vote>, s: NodeState, a: Action, s': NodeState,
                          cast: Option<Vote>, emitted: Option<Vote>)
  {
    && NodeInv(cfg, n, Extend(log, cast), s') && Tidy(s')
    && (if a.Start? then Restarted(n, log, s.disk, s') && cast == None && emitted == None
        else if s.mem.failed then StepFailed(s, s', cast, emitted)
        else StepUp(n, s, s', cast))
  }

  lemma CastFacts(cfg: Config, n: NodeId, log: seq<Vote>, s: NodeState, a: Action)
    requires NodeInv(cfg, n, log, s) && (a.SeeCommit? ==> a.block.Child?) && Apply(cfg, n, s, a).cast.Some?
    ensures
      var w := Apply(cfg, n, s, a).cast.value;
      && w.node == n && w.block.Height() == s.disk.tip.Height() + 1 && !s.mem.failed
         && w.block.Height() !in s.disk.quarantine
      && (w.Precommit? ==> a.SeePolka? && w == Precommit(n, a.round, a.block))
  {
    OnlyTwoCast(cfg, n, s, a);
    if a.Propose? {
      ProposeShape(cfg, n, s, a);
    } else {
      PolkaShape(cfg, n, s, a);
    }
  }

  lemma UpHolds(cfg: Config, n: NodeId, log: seq<Vote>, s: NodeState, a: Action)
    requires NodeInv(cfg, n, log, s) && !a.Start? && (a.SeeCommit? ==> a.block.Child?) && !s.mem.failed
    ensures StepUp(n, s, Apply(cfg, n, s, a).state, Apply(cfg, n, s, a).cast)
  {
    StepShape(cfg, n, s, a);
    if Apply(cfg, n, s, a).cast.Some? {
      CastFacts(cfg, n, log, s, a);
    }
  }

  lemma SteppedHolds(cfg: Config, n: NodeId, log: seq<Vote>, s: NodeState, a: Action)
    requires LogInv(cfg, log) && NodeInv(cfg, n, log, s) && Tidy(s) && Enabled(cfg, log, a)
      && Recoverable(n, log, s.disk, a)
    ensures
      var step := Apply(cfg, n, s, a);
      Stepped(cfg, n, log, s, a, step.state, step.cast, step.emitted)
  {
    StepKeeps(cfg, n, log, s, a);
    StepTidy(cfg, n, log, s, a);
    if a.Start? {
      ReloadFacts(cfg, n, log, s.disk, a.media);
    } else if s.mem.failed {
      FailedIsSilent(cfg, n, s, a);
    } else {
      UpHolds(cfg, n, log, s, a);
    }
  }

  ghost predicate Tells(m: OracleMemory, cast: Option<Vote>)
  {
    cast.Some? ==> Tell(m, cast.value).0 == None
  }

  /** Known at the open height, or nothing can be shown there. */
  ghost predicate KnowsOpen(log: seq<Vote>, n: NodeId, d: Disk, m: OracleMemory, p: Option<Vote>)
  {
    d.tip.Height() + 1 in d.quarantine || KnowsHeight(log, n, m, d.tip.Height() + 1, p)
  }

  lemma OpenKnown(log: seq<Vote>, n: NodeId, d: Disk, m: OracleMemory, w: Vote)
    requires KnowsOpen(log, n, d, m, None) && w.block.Height() == d.tip.Height() + 1
      && w.block.Height() !in d.quarantine
    ensures KnowsHeight(log, n, m, d.tip.Height() + 1, None)
  {
  }

  lemma GoodTells(cfg: Config, log: seq<Vote>, n: NodeId, m: OracleMemory, cast: Option<Vote>)
    requires cast.Some? ==> GoodCast(cfg, log, n, m, cast.value)
    ensures Tells(m, cast)
  {
  }

  lemma CastTells(cfg: Config, n: NodeId, log: seq<Vote>, s: NodeState, a: Action, m: OracleMemory)
    requires LogInv(cfg, log) && NodeInv(cfg, n, log, s) && Enabled(cfg, log, a) && Recoverable(n, log, s.disk, a)
    requires RealEntries(cfg, log, n, m) && KnowsOpen(log, n, s.disk, m, None)
    ensures Tells(AfterAccept(m, a), Apply(cfg, n, s, a).cast)
  {
    var cast := Apply(cfg, n, s, a).cast;
    if cast.Some? {
      CastFacts(cfg, n, log, s, a);
      OpenKnown(log, n, s.disk, m, cast.value);
      StepGood(cfg, n, log, s, a, m);
    }
    GoodTells(cfg, log, n, AfterAccept(m, a), cast);
  }

  // ---------------------------------------------------------------- observing a process that has failed

  lemma PendingStays(n: NodeId, log: seq<Vote>, s: NodeState, s': NodeState, m: OracleMemory, m1: OracleMemory,
                     m': OracleMemory, p: Option<Vote>, a: Action)
    requires PendingOk(n, log, s, m, p) && s.mem.failed && s'.mem.failed && s'.disk == s.disk
    requires m1 == AfterAccept(m, a) && Like(m', m1)
    ensures PendingOk(n, log, s', m', p)
  {
    if p.Some? {
      AcceptTells(m, a, p.value);
      TellLike(m', m1, p.value);
    }
  }

  /** What the oracle knows once the step's accepted proposal is recorded. */
  ghost predicate Accepted(cfg: Config, log: seq<Vote>, n: NodeId, tip: Block, m: OracleMemory, m1: OracleMemory)
  {
    RealEntries(cfg, log, n, m1) && HeightsOk(tip, m1) && forall w :: Recorded(m1, w) == Recorded(m, w)
  }

  lemma AcceptedHolds(cfg: Config, log: seq<Vote>, n: NodeId, tip: Block, m: OracleMemory, a: Action)
    requires RealEntries(cfg, log, n, m) && HeightsOk(tip, m) && Enabled(cfg, log, a)
    ensures Accepted(cfg, log, n, tip, m, AfterAccept(m, a))
  {
    AcceptKeeps(cfg, log, n, m, a);
  }

  lemma ObserveFailed(cfg: Config, n: NodeId, log: seq<Vote>, s: NodeState, a: Action, s': NodeState, m: OracleMemory,
                      p: Option<Vote>, v: View)
    requires Tracks(cfg, log, n, s, m, p) && s.mem.failed && StepFailed(s, s', None, None) && Enabled(cfg, log, a)
    requires IsView(n, s'.mem, 0, v)
    ensures
      var out := ObserveAll(AfterAccept(m, a), v, false);
      out.0 == None && Tracks(cfg, log, n, s', out.1, p)
  {
    var m1 := AfterAccept(m, a);
    AcceptedHolds(cfg, log, n, s.mem.tip, m, a);
    ShownCarries(n, s.mem, s'.mem, m, m1);
    ShownView(n, s'.mem, 0, v, m1);
    Learns(cfg, log, n, s.mem.tip, s'.mem, m1, v, false, None);
    var m' := ObserveAll(m1, v, false).1;
    ShownCarries(n, s'.mem, s'.mem, m1, m');
    PendingStays(n, log, s, s', m, m1, m', p, a);
  }

  // ---------------------------------------------------------------- observing a step of a running process

  lemma KnowsNext(cfg: Config, n: NodeId, log: seq<Vote>, s: NodeState, s': NodeState, cast: Option<Vote>,
                  m: OracleMemory)
    requires VotesOnOwnChain(cfg, n, log, s.disk) && KnowsOpen(log, n, s.disk, m, None) && StepUp(n, s, s', cast)
    ensures KnowsOpen(Extend(log, cast), n, s'.disk, m, cast)
  {
    if s'.disk.tip != s.disk.tip {
      NoVoteAbove(cfg, n, log, s.disk, m, s'.disk.tip.Height() + 1);
    }
  }

  lemma KnowsLike(log: seq<Vote>, n: NodeId, d: Disk, m: OracleMemory, m': OracleMemory, p: Option<Vote>)
    requires KnowsOpen(log, n, d, m, p) && forall w :: Recorded(m, w) ==> Recorded(m', w)
    ensures KnowsOpen(log, n, d, m', p)
  {
  }

  /** A vote whose write reached the disk as the process failed waits to be seen. */
  lemma BecomesPending(n: NodeId, log: seq<Vote>, s: NodeState, s': NodeState, m: OracleMemory, m': OracleMemory,
                       cast: Option<Vote>)
    requires CastShape(n, s, s', cast) && Tells(m, cast) && s'.mem.failed && Like(m', m)
    ensures PendingOk(n, Extend(log, cast), s', m', cast)
  {
    if cast.Some? {
      TellLike(m', m, cast.value);
    }
  }

  /** Observing a process that has just failed shows nothing new. */
  lemma NothingNew(cfg: Config, n: NodeId, log: seq<Vote>, log': seq<Vote>, s: NodeState, mem: VotingNode.Memory,
                   m: OracleMemory, m1: OracleMemory, v: View)
    requires NodeInv(cfg, n, log, s) && Tidy(s) && !s.mem.failed && SameHands(mem, s.mem) && log <= log'
    requires KnowsOpen(log, n, s.disk, m, None) && Accepted(cfg, log, n, s.mem.tip, m, m1) && IsView(n, mem, 0, v)
    ensures
      var out := ObserveAll(m1, v, false);
      && out.0 == None && RealEntries(cfg, log', n, out.1) && HeightsOk(mem.tip, out.1) && ShownKnown(n, mem, out.1)
      && Like(out.1, m1) && forall w :: Recorded(m, w) ==> Recorded(out.1, w)
  {
    RunningShown(cfg, n, log, s, m);
    ShownCarries(n, s.mem, mem, m, m1);
    ShownView(n, mem, 0, v, m1);
    EntriesStayReal(cfg, log, log', n, m1);
    Learns(cfg, log', n, s.mem.tip, mem, m1, v, false, None);
    ShownCarries(n, mem, mem, m1, ObserveAll(m1, v, false).1);
  }

  /** A step at which the process fails. */
  lemma ObserveFailing(cfg: Config, n: NodeId, log: seq<Vote>, s: NodeState, s': NodeState, cast: Option<Vote>,
                       m: OracleMemory, m1: OracleMemory, v: View)
    requires NodeInv(cfg, n, log, s) && Tidy(s) && !s.mem.failed && StepUp(n, s, s', cast) && s'.mem.failed
    requires KnowsOpen(log, n, s.disk, m, None) && Accepted(cfg, log, n, s.mem.tip, m, m1) && Tells(m1, cast)
    requires IsView(n, s'.mem, 0, v)
    ensures
      var out := ObserveAll(m1, v, false);
      out.0 == None && Tracks(cfg, Extend(log, cast), n, s', out.1, cast)
  {
    NothingNew(cfg, n, log, Extend(log, cast), s, s'.mem, m, m1, v);
    var m' := ObserveAll(m1, v, false).1;
    BecomesPending(n, log, s, s', m1, m', cast);
    KnowsNext(cfg, n, log, s, s', cast, m);
    KnowsLike(Extend(log, cast), n, s'.disk, m, m', cast);
  }

  lemma EmptyFamiliar(n: NodeId, v: View, m: OracleMemory)
    requires forall j :: 0 <= j < |v.ids| ==> v.ids[j].Height() == v.height + 1
    requires (forall r, b :: (r, b) !in v.prevotes) && (forall r, b :: (r, b) !in v.precommits)
    ensures Familiar(n, v, m, None)
  {
  }

  /** What a view of a running process brings the oracle: at most the one vote it does not know. */
  lemma UpFamiliar(cfg: Config, n: NodeId, log: seq<Vote>, s: NodeState, m: OracleMemory, v: View, p: Option<Vote>)
    requires NodeInv(cfg, n, log, s) && Tidy(s) && !s.mem.failed && IsView(n, s.mem, 0, v)
    requires KnowsOpen(log, n, s.disk, m, p) && (s.disk.tip.Height() + 1 in s.disk.quarantine ==> p == None)
    ensures Familiar(n, v, m, p)
  {
    if s.disk.tip.Height() + 1 in s.disk.quarantine {
      EmptyView(n, s, 0, v);
      EmptyFamiliar(n, v, m);
    } else {
      TrueView(cfg, n, log, s, 0, v);
      KnownViewAt(n, log, v, m, p);
    }
  }

  lemma NothingPending(log: seq<Vote>, n: NodeId, d: Disk, m: OracleMemory, m': OracleMemory, p: Option<Vote>)
    requires KnowsOpen(log, n, d, m, p) && forall w :: Recorded(m, w) ==> Recorded(m', w)
    requires p.Some? ==> Recorded(m', p.value)
    ensures KnowsOpen(log, n, d, m', None)
  {
  }

  /** The news is a vote the oracle can see and accepts. */
  ghost predicate FairNews(n: NodeId, log: seq<Vote>, m: OracleMemory, v: View, p: Option<Vote>)
  {
    p.Some? ==> p.value.node == n && p.value in log && Visible(m, v, p.value) && Tell(m, p.value).0 == None
  }

  /** The vote, if it is news to the oracle. */
  ghost function Unknown(m: OracleMemory, p: Option<Vote>): Option<Vote>
  {
    if p.Some? && Recorded(m, p.value) then None else p
  }

  lemma KnowsUnknown(log: seq<Vote>, n: NodeId, d: Disk, m: OracleMemory, p: Option<Vote>)
    requires KnowsOpen(log, n, d, m, p)
    ensures KnowsOpen(log, n, d, m, Unknown(m, p))
  {
  }

  lemma UpTracks(cfg: Config, n: NodeId, log: seq<Vote>, tip: Block, s: NodeState, m: OracleMemory, v: View,
                 restarted: bool, p: Option<Vote>)
    requires NodeInv(cfg, n, log, s) && Tidy(s) && !s.mem.failed && IsView(n, s.mem, 0, v)
    requires KnowsOpen(log, n, s.disk, m, p) && (s.disk.tip.Height() + 1 in s.disk.quarantine ==> p == None)
    requires RealEntries(cfg, log, n, m) && HeightsOk(tip, m) && tip.On(s.mem.tip) && FairNews(n, log, m, v, p)
    requires restarted ==> FuzzOracle.Durable(Finalized(m, v).1, v) == None
    ensures
      var out := ObserveAll(m, v, restarted);
      out.0 == None && Tracks(cfg, log, n, s, out.1, None)
  {
    UpFamiliar(cfg, n, log, s, m, v, p);
    Learns(cfg, log, n, tip, s.mem, m, v, restarted, p);
    var m' := ObserveAll(m, v, restarted).1;
    NothingPending(log, n, s.disk, m, m', p);
    AllKnown(cfg, log, n, s, m');
  }

  lemma AllKnown(cfg: Config, log: seq<Vote>, n: NodeId, s: NodeState, m: OracleMemory)
    requires RealEntries(cfg, log, n, m) && HeightsOk(s.mem.tip, m) && KnowsOpen(log, n, s.disk, m, None)
      && !s.mem.failed
    ensures Tracks(cfg, log, n, s, m, None)
  {
  }

  /** The process holds the vote at its open height. */
  ghost predicate Held(mem: VotingNode.Memory, w: Vote)
  {
    var h := w.block.Height();
    && h == mem.tip.Height() + 1
    && (w.Prevote? ==> (h, w.round) in mem.prevotes && mem.prevotes[(h, w.round)] == w.block)
    && (w.Precommit? ==> h in mem.locks && mem.locks[h] == Lock(w.block, w.round))
  }

  lemma HoldsVote(cfg: Config, n: NodeId, log: seq<Vote>, s: NodeState, w: Vote)
    requires NodeInv(cfg, n, log, s) && !s.mem.failed
    requires w in log && w.node == n && w.block.Height() == s.disk.tip.Height() + 1
      && w.block.Height() !in s.disk.quarantine
    requires w.Precommit? ==> RowAt(s.disk.rows, w.block.Height()).lock == Some(Lock(w.block, w.round))
    ensures Held(s.mem, w)
  {
    OpenVoteRecorded(cfg, n, log, s, w);
    assert RowMatches(s.mem.locks, s.mem.prevotes, s.disk.rows, w.block.Height());
  }

  lemma HeldInView(n: NodeId, mem: VotingNode.Memory, m: OracleMemory, v: View, w: Vote)
    requires IsView(n, mem, 0, v) && Held(mem, w) && w.block in v.ids && w.round <= Window(m, v)
    ensures Visible(m, v, w)
  {
    var j :| 0 <= j < |v.ids| && v.ids[j] == w.block;
    assert Holds(v, w.round, v.ids[j], w);
  }

  /** An own vote of the open height, with its row on disk, is in view. */
  lemma InView(cfg: Config, n: NodeId, log: seq<Vote>, s: NodeState, m: OracleMemory, v: View, w: Vote)
    requires NodeInv(cfg, n, log, s) && !s.mem.failed && IsView(n, s.mem, 0, v) && Sees(n, log, m, v)
    requires w in log && w.node == n && w.block.Height() == s.disk.tip.Height() + 1
      && w.block.Height() !in s.disk.quarantine
    requires w.Precommit? ==> RowAt(s.disk.rows, w.block.Height()).lock == Some(Lock(w.block, w.round))
    requires !Recorded(m, w)
    ensures Visible(m, v, w)
  {
    HoldsVote(cfg, n, log, s, w);
    HeldInView(n, s.mem, m, v, w);
  }

  lemma NewsOfStep(cfg: Config, n: NodeId, log: seq<Vote>, s: NodeState, s': NodeState, cast: Option<Vote>,
                   m: OracleMemory, v: View)
    requires NodeInv(cfg, n, Extend(log, cast), s') && !s'.mem.failed && StepUp(n, s, s', cast) && Tells(m, cast)
    requires IsView(n, s'.mem, 0, v) && Sees(n, Extend(log, cast), m, v)
    ensures FairNews(n, Extend(log, cast), m, v, Unknown(m, cast))
  {
    if cast.Some? && !Recorded(m, cast.value) {
      assert cast.value in Extend(log, cast);
      InView(cfg, n, Extend(log, cast), s', m, v, cast.value);
    }
  }

  lemma TipKept(cfg: Config, n: NodeId, log: seq<Vote>, log': seq<Vote>, s: NodeState, s': NodeState,
                cast: Option<Vote>)
    requires NodeInv(cfg, n, log, s) && NodeInv(cfg, n, log', s') && !s.mem.failed && !s'.mem.failed
      && StepUp(n, s, s', cast)
    ensures s.mem.tip.On(s'.mem.tip)
  {
  }

  /** A step of a process that stays up. */
  lemma ObserveLive(cfg: Config, n: NodeId, log: seq<Vote>, s: NodeState, s': NodeState, cast: Option<Vote>,
                    m: OracleMemory, m1: OracleMemory, v: View)
    requires NodeInv(cfg, n, log, s) && !s.mem.failed && StepUp(n, s, s', cast) && !s'.mem.failed
    requires NodeInv(cfg, n, Extend(log, cast), s') && Tidy(s')
    requires KnowsOpen(log, n, s.disk, m, None) && Accepted(cfg, log, n, s.mem.tip, m, m1) && Tells(m1, cast)
    requires IsView(n, s'.mem, 0, v) && Sees(n, Extend(log, cast), m1, v)
    ensures
      var out := ObserveAll(m1, v, false);
      out.0 == None && Tracks(cfg, Extend(log, cast), n, s', out.1, None)
  {
    var log' := Extend(log, cast);
    KnowsNext(cfg, n, log, s, s', cast, m);
    KnowsLike(log', n, s'.disk, m, m1, cast);
    EntriesStayReal(cfg, log, log', n, m1);
    NewsOfStep(cfg, n, log, s, s', cast, m1, v);
    TipKept(cfg, n, log, log', s, s', cast);
    KnowsUnknown(log', n, s'.disk, m1, cast);
    UpTracks(cfg, n, log', s.mem.tip, s', m1, v, false, Unknown(m1, cast));
  }

  // ---------------------------------------------------------------- observing a restart

  /** Every vote seen at an open height that the load restored is still on record. */
  lemma SeenIsDurable(cfg: Config, n: NodeId, log: seq<Vote>, s: NodeState, m: OracleMemory, v: View)
    requires NodeInv(cfg, n, log, s) && !s.mem.failed && RealEntries(cfg, log, n, m) && IsView(n, s.mem, 0, v)
    requires s.mem.tip.Height() + 1 !in s.mem.abstain
    ensures FuzzOracle.Durable(m, v) == None
  {
    var h := v.height + 1;
    forall x | x in m.sentPc && x.0 == h
      ensures FuzzOracle.Covered(v, x.1, m.sentPc[x])
    {
      OpenVoteRecorded(cfg, n, log, s, Precommit(n, x.1, m.sentPc[x]));
    }
    forall x | x in m.seenPv && x.0 == h
      ensures (x.1, m.seenPv[x]) in v.prevotes
    {
      OpenVoteRecorded(cfg, n, log, s, Prevote(n, x.1, m.seenPv[x]));
    }
  }

  /** What the durability rule reports of a height whose votes are all gone. */
  ghost function Loss(m: OracleMemory, h: nat): Option<Violation>
  {
    if exists r :: (h, r) in m.sentPc then Some(PrecommitNotDurable)
    else if exists r :: (h, r) in m.seenPv then Some(PrevoteNotDurable)
    else None
  }

  /** An abstaining process shows no vote, so the durability rule reports any it has seen. */
  lemma AbstainDurable(m: OracleMemory, v: View)
    requires v.lock == None && (forall r, b :: (r, b) !in v.prevotes)
    ensures FuzzOracle.Durable(m, v) == Loss(m, v.height + 1)
  {
    var h := v.height + 1;
    if r :| (h, r) in m.sentPc {
      assert !FuzzOracle.Covered(v, (h, r).1, m.sentPc[(h, r)]);
    } else {
      assert forall x :: x in m.sentPc && x.0 == h ==> (h, x.1) in m.sentPc;
      if r :| (h, r) in m.seenPv {
        assert ((h, r).1, m.seenPv[(h, r)]) !in v.prevotes;
      } else {
        assert forall x :: x in m.seenPv && x.0 == h ==> (h, x.1) in m.seenPv;
      }
    }
  }

  lemma NewsOfRestart(cfg: Config, n: NodeId, log: seq<Vote>, s: NodeState, s': NodeState, m: OracleMemory,
                      p: Option<Vote>, v: View)
    requires NodeInv(cfg, n, log, s') && Restarted(n, log, s.disk, s') && PendingOk(n, log, s, m, p)
    requires s'.disk.tip.Height() + 1 !in s'.disk.quarantine && IsView(n, s'.mem, 0, v) && Sees(n, log, m, v)
    ensures FairNews(n, log, m, v, Unknown(m, p))
  {
    if p.Some? && !Recorded(m, p.value) {
      OpenVoteRecorded(cfg, n, log, s', p.value);
      InView(cfg, n, log, s', m, v, p.value);
    }
  }

  lemma FinalizedLike(cfg: Config, log: seq<Vote>, n: NodeId, m: OracleMemory, v: View)
    requires RealEntries(cfg, log, n, m)
    ensures RealEntries(cfg, log, n, Finalized(m, v).1)
    ensures forall h :: Loss(Finalized(m, v).1, h) == Loss(m, h)
  {
    LikeRemembers(cfg, log, n, m, Finalized(m, v).1);
  }

  lemma ReloadedIsDurable(cfg: Config, n: NodeId, log: seq<Vote>, s: NodeState, m: OracleMemory, v: View)
    requires NodeInv(cfg, n, log, s) && !s.mem.failed && RealEntries(cfg, log, n, m) && IsView(n, s.mem, 0, v)
    requires s.mem.tip.Height() + 1 !in s.mem.abstain
    ensures FuzzOracle.Durable(Finalized(m, v).1, v) == None
  {
    FinalizedLike(cfg, log, n, m, v);
    SeenIsDurable(cfg, n, log, s, Finalized(m, v).1, v);
  }

  /** A height that a start opens again has no vote. */
  lemma StillKnown(cfg: Config, n: NodeId, log: seq<Vote>, s: NodeState, s': NodeState, m: OracleMemory,
                   p: Option<Vote>)
    requires Tracks(cfg, log, n, s, m, p) && Restarted(n, log, s.disk, s')
    ensures KnowsOpen(log, n, s'.disk, m, p)
  {
  }

  /** A restart after which the process votes on at its open height. */
  lemma ObserveOpenStart(cfg: Config, n: NodeId, log: seq<Vote>, s: NodeState, s': NodeState, m: OracleMemory,
                         p: Option<Vote>, v: View)
    requires Tracks(cfg, log, n, s, m, p) && NodeInv(cfg, n, log, s') && Tidy(s') && Restarted(n, log, s.disk, s')
    requires s.mem.tip.On(s'.mem.tip) && s'.disk.tip.Height() + 1 !in s'.disk.quarantine
    requires IsView(n, s'.mem, 0, v) && Sees(n, log, m, v)
    ensures
      var out := ObserveAll(m, v, true);
      out.0 == None && Tracks(cfg, log, n, s', out.1, None)
  {
    ReloadedIsDurable(cfg, n, log, s', m, v);
    NewsOfRestart(cfg, n, log, s, s', m, p, v);
    StillKnown(cfg, n, log, s, s', m, p);
    KnowsUnknown(log, n, s'.disk, m, p);
    UpTracks(cfg, n, log, s.mem.tip, s', m, v, true, Unknown(m, p));
  }

  /** Nothing but the durability rule can fail an observation of an abstaining process after its restart. */
  lemma AbstainLoss(cfg: Config, log: seq<Vote>, n: NodeId, m: OracleMemory, v: View)
    requires RealEntries(cfg, log, n, m) && v.lock == None && (forall r, b :: (r, b) !in v.prevotes)
    ensures FuzzOracle.Durable(Finalized(m, v).1, v) == Loss(m, v.height + 1)
    ensures v.late == 0 && Finalized(m, v).0 == None && Loss(m, v.height + 1) != None ==>
      ObserveAll(m, v, true).0 == Loss(m, v.height + 1)
  {
    FinalizedLike(cfg, log, n, m, v);
    AbstainDurable(Finalized(m, v).1, v);
  }

  /** A restart that leaves the open height in quarantine. */
  lemma ObserveAbstaining(cfg: Config, n: NodeId, log: seq<Vote>, tip: Block, s': NodeState, m: OracleMemory, v: View)
    requires NodeInv(cfg, n, log, s') && Tidy(s') && !s'.mem.failed && tip.On(s'.mem.tip)
    requires RealEntries(cfg, log, n, m) && HeightsOk(tip, m) && IsView(n, s'.mem, 0, v)
    requires s'.disk.tip.Height() + 1 in s'.disk.quarantine
    ensures
      var out := ObserveAll(m, v, true);
      out.0 == Loss(m, s'.disk.tip.Height() + 1) && (out.0 == None ==> Tracks(cfg, log, n, s', out.1, None))
  {
    EmptyView(n, s', 0, v);
    AbstainLoss(cfg, log, n, m, v);
    if Loss(m, v.height + 1) != None {
      CalmView(n, tip, s'.mem, v, m);
    } else {
      UpTracks(cfg, n, log, tip, s', m, v, true, None);
    }
  }

  lemma ObserveStart(cfg: Config, n: NodeId, log: seq<Vote>, s: NodeState, s': NodeState, m: OracleMemory,
                     p: Option<Vote>, v: View)
    requires Tracks(cfg, log, n, s, m, p) && Restarted(n, log, s.disk, s') && NodeInv(cfg, n, log, s') && Tidy(s')
    requires s.mem.tip.On(s'.mem.tip) && IsView(n, s'.mem, 0, v) && Sees(n, log, m, v)
    ensures
      var out, h := ObserveAll(m, v, true), s'.disk.tip.Height() + 1;
      && out.0 == (if h in s'.disk.quarantine then Loss(m, h) else None)
      && (out.0 == None ==> Tracks(cfg, log, n, s', out.1, None))
  {
    if s'.disk.tip.Height() + 1 in s'.disk.quarantine {
      ObserveAbstaining(cfg, n, log, s.mem.tip, s', m, v);
    } else {
      ObserveOpenStart(cfg, n, log, s, s', m, p, v);
    }
  }

  /** The report a step calls for: the votes seen at the open height, if it is a restart that quarantines the height. */
  ghost function Due(m: OracleMemory, a: Action, d: Disk): Option<Violation>
  {
    if a.Start? && d.tip.Height() + 1 in d.quarantine then Loss(m, d.tip.Height() + 1) else None
  }

  // ---------------------------------------------------------------- any step

  /** The verdict on a step, and what the oracle knows after it. */
  ghost predicate Verdict(cfg: Config, log: seq<Vote>, n: NodeId, s': NodeState, m: OracleMemory, a: Action, v: View)
  {
    && Observed(m, a, v).0 == Due(m, a, s'.disk)
    && (Observed(m, a, v).0 == None ==> exists q :: Tracks(cfg, log, n, s', Observed(m, a, v).1, q))
  }

  lemma TipReloaded(cfg: Config, n: NodeId, log: seq<Vote>, s: NodeState, s': NodeState)
    requires NodeInv(cfg, n, log, s) && Restarted(n, log, s.disk, s')
    ensures s.mem.tip.On(s'.mem.tip)
  {
  }

  lemma ObserveRestart(cfg: Config, n: NodeId, log: seq<Vote>, s: NodeState, a: Action, s': NodeState, m: OracleMemory,
                       p: Option<Vote>, v: View)
    requires a.Start? && Tracks(cfg, log, n, s, m, p)
    requires Restarted(n, log, s.disk, s') && NodeInv(cfg, n, log, s') && Tidy(s')
    requires s.mem.tip.On(s'.mem.tip) && IsView(n, s'.mem, 0, v) && Sees(n, log, m, v)
    ensures Verdict(cfg, log, n, s', m, a, v)
  {
    ObserveStart(cfg, n, log, s, s', m, p, v);
    StartVerdict(cfg, log, n, s', m, a, v);
  }

  lemma StartVerdict(cfg: Config, log: seq<Vote>, n: NodeId, s': NodeState, m: OracleMemory, a: Action, v: View)
    requires a.Start?
    requires
      var out, h := ObserveAll(m, v, true), s'.disk.tip.Height() + 1;
      && out.0 == (if h in s'.disk.quarantine then Loss(m, h) else None)
      && (out.0 == None ==> Tracks(cfg, log, n, s', out.1, None))
    ensures Verdict(cfg, log, n, s', m, a, v)
  {
  }

  lemma ObserveUp(cfg: Config, n: NodeId, log: seq<Vote>, s: NodeState, a: Action, s': NodeState, cast: Option<Vote>,
                  m: OracleMemory, v: View)
    requires NodeInv(cfg, n, log, s) && Tidy(s) && !s.mem.failed && !a.Start? && Enabled(cfg, log, a)
    requires Tracks(cfg, log, n, s, m, None) && StepUp(n, s, s', cast) && NodeInv(cfg, n, Extend(log, cast), s')
      && Tidy(s')
    requires Tells(AfterAccept(m, a), cast) && IsView(n, s'.mem, 0, v)
      && Sees(n, Extend(log, cast), AfterAccept(m, a), v)
    ensures Verdict(cfg, Extend(log, cast), n, s', m, a, v)
  {
    AcceptedHolds(cfg, log, n, s.mem.tip, m, a);
    if s'.mem.failed {
      ObserveFailing(cfg, n, log, s, s', cast, m, AfterAccept(m, a), v);
    } else {
      ObserveLive(cfg, n, log, s, s', cast, m, AfterAccept(m, a), v);
    }
  }

  lemma ObserveStepped(cfg: Config, n: NodeId, log: seq<Vote>, s: NodeState, a: Action, s': NodeState,
                       cast: Option<Vote>, emitted: Option<Vote>, m: OracleMemory, p: Option<Vote>, v: View)
    requires NodeInv(cfg, n, log, s) && Tidy(s) && Enabled(cfg, log, a) && Recoverable(n, log, s.disk, a)
    requires Tracks(cfg, log, n, s, m, p) && Stepped(cfg, n, log, s, a, s', cast, emitted)
    requires Tells(AfterAccept(m, a), cast)
    requires IsView(n, s'.mem, Late(s.mem.failed, emitted), v) && Sees(n, Extend(log, cast), AfterAccept(m, a), v)
    ensures Verdict(cfg, Extend(log, cast), n, s', m, a, v)
  {
    if a.Start? {
      TipReloaded(cfg, n, log, s, s');
      ObserveRestart(cfg, n, log, s, a, s', m, p, v);
    } else if s.mem.failed {
      ObserveFailed(cfg, n, log, s, a, s', m, p, v);
    } else {
      assert p == None;
      ObserveUp(cfg, n, log, s, a, s', cast, m, v);
    }
  }
}
