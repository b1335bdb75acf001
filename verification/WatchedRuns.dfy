/**
 Whole runs of the voting code under the fuzzer's oracle: after every step the node that took it is observed,
 and an observation fails exactly at a restart that cannot read back a vote the oracle has seen.
 */
module WatchedRuns {
  import opened Options
  import opened VoteLog
  import opened VotingNode
  import opened Finality
  import opened Restarts
  import opened FuzzOracle
  import opened OracleAgreement
  import opened OracleViews
  import opened OracleRuns

  // ---------------------------------------------------------------- one step

  /** A start that cannot read the row of the open height back, or has given that height up before. */
  ghost predicate Unreadable(d: Disk, a: Action)
  {
    a.Start? && (d.tip.Height() + 1 in d.quarantine || Trusted(a.media, d.tip.Height() + 1).None?)
  }

  /** The report a step calls for, from the state before it. */
  ghost function Expected(m: OracleMemory, d: Disk, a: Action): Option<Violation>
  {
    if Unreadable(d, a) then Loss(m, d.tip.Height() + 1) else None
  }

  /** The vote behind an entry of the oracle. */
  lemma SeenVote(cfg: Config, n: NodeId, log: seq<Vote>, m: OracleMemory, h: nat) returns (w: Vote)
    requires RealEntries(cfg, log, n, m) && Loss(m, h) != None
    ensures w in log && w.node == n && w.block.Height() == h
  {
    if r :| (h, r) in m.sentPc {
      w := Precommit(n, r, m.sentPc[(h, r)]);
    } else {
      var r :| (h, r) in m.seenPv;
      w := Prevote(n, r, m.seenPv[(h, r)]);
    }
  }

  /** The load gives a height with a vote up exactly when it was given up before or its row cannot be trusted. */
  lemma VotedGivesUp(cfg: Config, n: NodeId, log: seq<Vote>, d: Disk, m: Media, w: Vote)
    requires VotesOnOwnChain(cfg, n, log, d) && NoImpostor(d, m) && Finality.Covered(n, log, d, m)
    requires w in log && w.node == n && w.block.Height() == d.tip.Height() + 1
    ensures w.block.Height() in Reload(cfg, n, d, m).quarantine <==>
      w.block.Height() in d.quarantine || Trusted(m, w.block.Height()).None?
  {
    assert Voted(n, log, w.block.Height());
    OwnVote(cfg, n, log, d, w);
    LoadedHeight(cfg, n, d, m, w.block.Height());
  }

  lemma DueIsExpected(m: OracleMemory, a: Action, d: Disk, d': Disk)
    requires a.Start? && d'.tip == d.tip
    requires
      var h := d.tip.Height() + 1;
      Loss(m, h) != None ==> (h in d'.quarantine <==> h in d.quarantine || Trusted(a.media, h).None?)
    ensures Due(m, a, d') == Expected(m, d, a)
  {
  }

  lemma LossIsUnreadable(cfg: Config, n: NodeId, log: seq<Vote>, s: NodeState, m: OracleMemory, a: Action)
    requires NodeInv(cfg, n, log, s) && RealEntries(cfg, log, n, m) && a.Start? && Recoverable(n, log, s.disk, a)
    ensures Due(m, a, Reload(cfg, n, s.disk, a.media)) == Expected(m, s.disk, a)
  {
    if Loss(m, s.disk.tip.Height() + 1) != None {
      var w := SeenVote(cfg, n, log, m, s.disk.tip.Height() + 1);
      VotedGivesUp(cfg, n, log, s.disk, a.media, w);
    }
    DueIsExpected(m, a, s.disk, Reload(cfg, n, s.disk, a.media));
  }

  /** The oracle has followed the node this far. */
  ghost predicate Followed(cfg: Config, log: seq<Vote>, n: NodeId, s: NodeState, m: OracleMemory)
  {
    Tidy(s) && exists p :: Tracks(cfg, log, n, s, m, p)
  }

  /** A view of the node after its step, in which the oracle's known ids and rounds take in the node's own votes. */
  ghost predicate ViewAfter(cfg: Config, n: NodeId, log: seq<Vote>, s: NodeState, a: Action, m: OracleMemory, v: View)
    requires a.SeeCommit? ==> a.block.Child?
  {
    var step := Apply(cfg, n, s, a);
    && IsView(n, step.state.mem, Late(s.mem.failed, step.emitted), v)
    && Sees(n, Extend(log, step.cast), AfterAccept(m, a), v)
  }

  lemma StepTells(cfg: Config, n: NodeId, log: seq<Vote>, s: NodeState, a: Action, m: OracleMemory, p: Option<Vote>)
    requires LogInv(cfg, log) && NodeInv(cfg, n, log, s) && Enabled(cfg, log, a) && Recoverable(n, log, s.disk, a)
    requires Tracks(cfg, log, n, s, m, p)
    ensures Tells(AfterAccept(m, a), Apply(cfg, n, s, a).cast)
  {
    if s.mem.failed {
      NoCast(cfg, n, log, s, a);
    } else {
      UpKnows(cfg, log, n, s, m, p);
      CastTells(cfg, n, log, s, a, m);
    }
  }

  lemma NoCast(cfg: Config, n: NodeId, log: seq<Vote>, s: NodeState, a: Action)
    requires NodeInv(cfg, n, log, s) && (a.SeeCommit? ==> a.block.Child?) && s.mem.failed
    ensures Apply(cfg, n, s, a).cast == None
  {
    if Apply(cfg, n, s, a).cast.Some? {
      CastFacts(cfg, n, log, s, a);
    }
  }

  lemma UpKnows(cfg: Config, log: seq<Vote>, n: NodeId, s: NodeState, m: OracleMemory, p: Option<Vote>)
    requires Tracks(cfg, log, n, s, m, p) && !s.mem.failed
    ensures RealEntries(cfg, log, n, m) && KnowsOpen(log, n, s.disk, m, None)
  {
  }

  lemma StepVerdict(cfg: Config, n: NodeId, log: seq<Vote>, s: NodeState, a: Action, m: OracleMemory, v: View)
    requires LogInv(cfg, log) && NodeInv(cfg, n, log, s) && Enabled(cfg, log, a) && Recoverable(n, log, s.disk, a)
    requires Followed(cfg, log, n, s, m) && ViewAfter(cfg, n, log, s, a, m, v)
    ensures Verdict(cfg, Extend(log, Apply(cfg, n, s, a).cast), n, Apply(cfg, n, s, a).state, m, a, v)
    ensures Tidy(Apply(cfg, n, s, a).state)
  {
    var p :| Tracks(cfg, log, n, s, m, p);
    var step := Apply(cfg, n, s, a);
    SteppedHolds(cfg, n, log, s, a);
    StepTells(cfg, n, log, s, a, m, p);
    ObserveStepped(cfg, n, log, s, a, step.state, step.cast, step.emitted, m, p, v);
  }

  lemma VerdictExactly(cfg: Config, n: NodeId, log: seq<Vote>, s: NodeState, a: Action, m: OracleMemory, v: View)
    requires LogInv(cfg, log) && NodeInv(cfg, n, log, s) && Enabled(cfg, log, a) && Recoverable(n, log, s.disk, a)
    requires Followed(cfg, log, n, s, m) && ViewAfter(cfg, n, log, s, a, m, v)
    ensures Observed(m, a, v).0 == Expected(m, s.disk, a)
    ensures Observed(m, a, v).0 == None ==>
      Followed(cfg, Extend(log, Apply(cfg, n, s, a).cast), n, Apply(cfg, n, s, a).state, Observed(m, a, v).1)
  {
    StepVerdict(cfg, n, log, s, a, m, v);
    if a.Start? {
      LossIsUnreadable(cfg, n, log, s, m, a);
    }
  }

  /** Both copies of the open height's row damaged, and no other row left. */
  function Damaged(h: nat): Media
  {
    Media(map[h := None], map[h := None], {}, None)
  }

  /**
   From any state in which the oracle has seen a precommit of the open height, a restart that must be reported
   is possible.
   */
  lemma DamagedRestart(cfg: Config, n: NodeId, log: seq<Vote>, s: NodeState, m: OracleMemory, r: nat)
    requires NodeInv(cfg, n, log, s) && (s.disk.tip.Height() + 1, r) in m.sentPc
    ensures
      var a := Start(Damaged(s.disk.tip.Height() + 1));
      Enabled(cfg, log, a) && Recoverable(n, log, s.disk, a) && Expected(m, s.disk, a) == Some(PrecommitNotDurable)
  {
    var d, media := s.disk, Damaged(s.disk.tip.Height() + 1);
    forall h | h > d.tip.Height() && Voted(n, log, h)
      ensures Survives(d, media, h)
    {
      var w :| w in log && w.node == n && w.block.Height() == h;
      OwnVote(cfg, n, log, d, w);
    }
  }

  // ---------------------------------------------------------------- runs

  /** What the oracle of node n remembers before step i, one view having been taken after each step. */
  ghost function MemoryAt(acts: seq<(NodeId, Action)>, views: seq<View>, i: nat, n: NodeId): OracleMemory
    requires i <= |acts| == |views|
  {
    if i == 0 then EMPTY
    else if acts[i - 1].0 == n then Observed(MemoryAt(acts, views, i - 1, n), acts[i - 1].1, views[i - 1]).1
    else MemoryAt(acts, views, i - 1, n)
  }

  /** The report after step i. */
  ghost function Report(acts: seq<(NodeId, Action)>, views: seq<View>, i: nat): Option<Violation>
    requires i < |acts| == |views|
  {
    Observed(MemoryAt(acts, views, i, acts[i].0), acts[i].1, views[i]).0
  }

  ghost predicate SilentTo(acts: seq<(NodeId, Action)>, views: seq<View>, i: nat)
    requires i <= |acts| == |views|
  {
    forall k :: 0 <= k < i ==> Report(acts, views, k) == None
  }

  /** Every step of the run is followed by an observation of the node that took it. */
  ghost predicate WatchedRun(cfg: Config, run: seq<Cluster>, acts: seq<(NodeId, Action)>, views: seq<View>)
  {
    && IsRun(cfg, run, acts) && |views| == |acts|
    && forall i :: 0 <= i < |acts| ==>
       WatchedAt(cfg, run[i], acts[i].0, acts[i].1, MemoryAt(acts, views, i, acts[i].0), views[i])
  }

  ghost predicate WatchedAt(cfg: Config, c: Cluster, n: NodeId, a: Action, m: OracleMemory, v: View)
  {
    n in c.nodes && (a.SeeCommit? ==> a.block.Child?) && ViewAfter(cfg, n, c.log, c.nodes[n], a, m, v)
  }

  ghost predicate AllFollowed(cfg: Config, c: Cluster, acts: seq<(NodeId, Action)>, views: seq<View>, i: nat)
    requires i <= |acts| == |views|
  {
    forall n :: n in c.nodes ==> Followed(cfg, c.log, n, c.nodes[n], MemoryAt(acts, views, i, n))
  }

  lemma FollowedAtStart(cfg: Config, c: Cluster, n: NodeId)
    requires Init(cfg, c) && n in c.nodes
    ensures Followed(cfg, c.log, n, c.nodes[n], EMPTY)
  {
    assert Tracks(cfg, c.log, n, c.nodes[n], EMPTY, None);
  }

  /** A vote of another node changes nothing the oracle knows. */
  lemma OthersFollowed(cfg: Config, log: seq<Vote>, log': seq<Vote>, n: NodeId, s: NodeState, m: OracleMemory)
    requires Followed(cfg, log, n, s, m) && log <= log' && (forall w :: w in log' && w.node == n ==> w in log)
    ensures Followed(cfg, log', n, s, m)
  {
    var p :| Tracks(cfg, log, n, s, m, p);
    EntriesStayReal(cfg, log, log', n, m);
    assert Tracks(cfg, log', n, s, m, p);
  }

  lemma OwnVotesOnly(cfg: Config, c: Cluster, c': Cluster, n: NodeId, a: Action)
    requires ClusterInv(cfg, c) && NextBy(cfg, c, c', n, a)
    ensures c.log <= c'.log && c'.nodes.Keys == c.nodes.Keys
    ensures forall w :: w in c'.log && w.node != n ==> w in c.log
    ensures forall k :: k in c.nodes && k != n ==> c'.nodes[k] == c.nodes[k]
  {
    StepKeeps(cfg, n, c.log, c.nodes[n], a);
  }

  lemma ClusterFollowed(cfg: Config, c: Cluster, c': Cluster, acts: seq<(NodeId, Action)>, views: seq<View>, i: nat)
    requires i < |acts| == |views| && AllFollowed(cfg, c, acts, views, i) && NextBy(cfg, c, c', acts[i].0, acts[i].1)
    requires ClusterInv(cfg, c)
    requires WatchedAt(cfg, c, acts[i].0, acts[i].1, MemoryAt(acts, views, i, acts[i].0), views[i])
    ensures Report(acts, views, i) == Expected(MemoryAt(acts, views, i, acts[i].0), c.nodes[acts[i].0].disk, acts[i].1)
    ensures Report(acts, views, i) == None ==> AllFollowed(cfg, c', acts, views, i + 1)
  {
    var n, a := acts[i].0, acts[i].1;
    VerdictExactly(cfg, n, c.log, c.nodes[n], a, MemoryAt(acts, views, i, n), views[i]);
    if Report(acts, views, i) == None {
      OwnVotesOnly(cfg, c, c', n, a);
      forall k | k in c'.nodes
        ensures Followed(cfg, c'.log, k, c'.nodes[k], MemoryAt(acts, views, i + 1, k))
      {
        if k != n {
          OthersFollowed(cfg, c.log, c'.log, k, c.nodes[k], MemoryAt(acts, views, i, k));
        }
      }
    }
  }

  lemma {:induction false} RunFollowed(cfg: Config, run: seq<Cluster>, acts: seq<(NodeId, Action)>, views: seq<View>,
                                       i: nat)
    requires WatchedRun(cfg, run, acts, views) && i <= |acts| && SilentTo(acts, views, i)
    ensures AllFollowed(cfg, run[i], acts, views, i)
  {
    if i == 0 {
      forall n | n in run[0].nodes
        ensures Followed(cfg, run[0].log, n, run[0].nodes[n], MemoryAt(acts, views, 0, n))
      {
        FollowedAtStart(cfg, run[0], n);
      }
    } else {
      RunFollowed(cfg, run, acts, views, i - 1);
      RunKeeps(cfg, run, acts, i - 1);
      ClusterFollowed(cfg, run[i - 1], run[i], acts, views, i - 1);
    }
  }

  /**
   The first report in a run comes at a restart that cannot read back a vote the oracle has seen at the open
   height, and every such restart is reported.
   */
  lemma ObservationExactly(cfg: Config, run: seq<Cluster>, acts: seq<(NodeId, Action)>, views: seq<View>, i: nat)
    requires WatchedRun(cfg, run, acts, views) && i < |acts| && SilentTo(acts, views, i)
    requires acts[i].0 in run[i].nodes
    ensures Report(acts, views, i)
            == Expected(MemoryAt(acts, views, i, acts[i].0), run[i].nodes[acts[i].0].disk, acts[i].1)
  {
    RunFollowed(cfg, run, acts, views, i);
    RunKeeps(cfg, run, acts, i);
    ClusterFollowed(cfg, run[i], run[i + 1], acts, views, i);
  }

  /** Step i is no restart that loses a seen vote. */
  ghost predicate ReadableAt(run: seq<Cluster>, acts: seq<(NodeId, Action)>, views: seq<View>, i: nat)
    requires i < |acts| == |views| && |run| == |acts| + 1
  {
    acts[i].0 in run[i].nodes
      && Expected(MemoryAt(acts, views, i, acts[i].0), run[i].nodes[acts[i].0].disk, acts[i].1) == None
  }

  lemma ReadableExactly(cfg: Config, run: seq<Cluster>, acts: seq<(NodeId, Action)>, views: seq<View>, i: nat)
    requires WatchedRun(cfg, run, acts, views) && i < |acts| && SilentTo(acts, views, i)
    ensures Report(acts, views, i) == None <==> ReadableAt(run, acts, views, i)
  {
    assert NextBy(cfg, run[i], run[i + 1], acts[i].0, acts[i].1);
    ObservationExactly(cfg, run, acts, views, i);
  }

  ghost predicate ReadableTo(run: seq<Cluster>, acts: seq<(NodeId, Action)>, views: seq<View>, i: nat)
    requires i <= |acts| == |views| && |run| == |acts| + 1
  {
    forall k :: 0 <= k < i ==> ReadableAt(run, acts, views, k)
  }

  lemma OneMore(run: seq<Cluster>, acts: seq<(NodeId, Action)>, views: seq<View>, i: nat)
    requires i < |acts| == |views| && |run| == |acts| + 1
    ensures SilentTo(acts, views, i + 1) <==> SilentTo(acts, views, i) && Report(acts, views, i) == None
    ensures ReadableTo(run, acts, views, i + 1) <==> ReadableTo(run, acts, views, i) && ReadableAt(run, acts, views, i)
  {
  }

  /** A run passes every observation exactly when every restart reads back the votes seen. */
  lemma {:induction false} RunPasses(cfg: Config, run: seq<Cluster>, acts: seq<(NodeId, Action)>, views: seq<View>,
                                     i: nat)
    requires WatchedRun(cfg, run, acts, views) && i <= |acts|
    ensures SilentTo(acts, views, i) <==> ReadableTo(run, acts, views, i)
  {
    if i > 0 {
      RunPasses(cfg, run, acts, views, i - 1);
      OneMore(run, acts, views, i - 1);
      if SilentTo(acts, views, i - 1) {
        ReadableExactly(cfg, run, acts, views, i - 1);
      }
    }
  }
}
