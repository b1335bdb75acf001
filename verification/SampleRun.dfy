/** The step system is not idle: a one-member committee proposes, prevotes, precommits and finalizes a block. */
module SampleRun {
  import opened Options
  import opened Blocks
  import opened VoteLog
  import opened VotingNode
  import opened Finality

  const FIRST: Block := Child(Genesis, 0, 7)

  function Solo(): Config
  {
    Config({}, _ => {1})
  }

  const START: NodeState := NodeState(Memory(Genesis, 0, map[], map[], map[], {}, {}, {}, {}, false),
    Disk(Genesis, map[], {}, 0))

  const A0: Action := Propose(0, FIRST, None, true, Durable)
  const A1: Action := SeePolka(0, FIRST, true, Durable, Durable)
  const A2: Action := SeeCommit(0, FIRST, Durable)

  /** Nothing voted yet on children of the tip. */
  ghost predicate Idle(s: NodeState, r: nat, b: Block)
  {
    && b.Child? && b.parent == s.mem.tip && b.round == r && s.mem.currentRound == r && !s.mem.failed
    && s.mem.locks == map[] && s.mem.prevotes == map[]
    && s.mem.timedOut == {} && s.mem.reservations == {} && s.mem.abstain == {}
  }

  ghost predicate Prepared(s: NodeState, r: nat, b: Block)
  {
    && b.Child? && b.parent == s.mem.tip && b.round == r && s.mem.currentRound == r && !s.mem.failed
    && s.mem.locks == map[] && (forall k :: k in s.mem.prevotes ==> k.1 <= r)
    && s.mem.timedOut == {} && s.mem.reservations == {} && s.mem.abstain == {}
  }

  lemma Recorded(n: NodeId, s: NodeState, r: nat, b: Block)
    requires Idle(s, r, b)
    ensures
      var step := RecordPrevote(n, s, r, b, Durable);
      step.cast == Some(Prevote(n, r, b)) && Prepared(step.state, r, b)
  {
  }

  lemma Prevoted(n: NodeId, s: NodeState, r: nat, b: Block)
    requires Idle(s, r, b)
    ensures
      var step := HandlePropose(n, true, s, r, b, None, true, Durable);
      step.cast == Some(Prevote(n, r, b)) && Prepared(step.state, r, b)
  {
    assert s.(mem := s.mem.(currentRound := r)) == s;
    Recorded(n, s, r, b);
  }

  lemma Noted(s: NodeState, r: nat, b: Block)
    requires Prepared(s, r, b)
    ensures Prepared(NoteValidPolka(s, r, b, Durable), r, b)
  {
  }

  lemma Locked(n: NodeId, s: NodeState, r: nat, b: Block)
    requires Prepared(s, r, b)
    ensures
      var step := LockAndPrecommit(n, s, r, b, Durable);
      step.cast == Some(Precommit(n, r, b)) && step.state.mem.tip == b.parent && !step.state.mem.failed
  {
  }

  lemma MayNow(s: NodeState, r: nat, b: Block)
    requires Prepared(s, r, b)
    ensures MayPrecommit(true, s.mem, r, b, true)
  {
  }

  lemma Precommitted(n: NodeId, s: NodeState, r: nat, b: Block)
    requires Prepared(s, r, b)
    ensures
      var step := OnPolka(n, true, s, r, b, true, Durable, Durable);
      step.cast == Some(Precommit(n, r, b)) && step.state.mem.tip == b.parent && !step.state.mem.failed
  {
    var s1 := NoteValidPolka(s, r, b, Durable);
    Noted(s, r, b);
    MayNow(s1, r, b);
    Locked(n, s1, r, b);
  }

  lemma Finalized(t: NodeState) returns (u: NodeState)
    requires t.mem.tip == Genesis && !t.mem.failed
    ensures Apply(Solo(), 1, t, A2).state == u && Apply(Solo(), 1, t, A2).cast == None && u.disk.tip == FIRST
  {
    u := Apply(Solo(), 1, t, A2).state;
  }

  lemma SoloFew()
    ensures FewFaults(Solo())
  {
    forall p: Block
      ensures 3 * |Solo().committee(p) * Solo().byzantine| < |Solo().committee(p)|
    {
      assert Solo().committee(p) * Solo().byzantine == {};
    }
  }

  lemma SoloPolka(log: seq<Vote>)
    requires Prevote(1, 0, FIRST) in log
    ensures Polka(Solo(), log, 0, FIRST)
  {
    assert PrevoteSigners(Solo(), log, 0, FIRST) == {1};
  }

  lemma SoloCommit(log: seq<Vote>)
    requires Precommit(1, 0, FIRST) in log
    ensures Committed(Solo(), log, 0, FIRST)
  {
    assert PrecommitSigners(Solo(), log, 0, FIRST) == {1};
  }

  /** A run of the one-member cluster that ends in a state and with a log. */
  ghost predicate Reaches(s: NodeState, log: seq<Vote>)
  {
    exists run, acts :: IsRun(Solo(), run, acts) && run[|acts|] == Cluster(map[1 := s], log)
  }

  lemma ReachStart()
    ensures Reaches(START, [])
  {
    var c := Cluster(map[1 := START], []);
    assert IsRun(Solo(), [c], []) && [c][0] == c;
  }

  lemma ReachNext(s: NodeState, log: seq<Vote>, a: Action, s': NodeState, v: Option<Vote>)
    requires Reaches(s, log) && Enabled(Solo(), log, a) && !a.Start?
    requires Apply(Solo(), 1, s, a).state == s' && Apply(Solo(), 1, s, a).cast == v
    ensures Reaches(s', Extend(log, v))
  {
    var run, acts :| IsRun(Solo(), run, acts) && run[|acts|] == Cluster(map[1 := s], log);
    var c, c' := Cluster(map[1 := s], log), Cluster(map[1 := s'], Extend(log, v));
    StepTo(c, c', a);
    ExtendRun(Solo(), run, acts, c, c', 1, a);
    assert (run + [c'])[|acts + [(1, a)]|] == c';
  }

  lemma StepTo(c: Cluster, c': Cluster, a: Action)
    requires c.nodes.Keys == {1} && c'.nodes.Keys == {1} && Enabled(Solo(), c.log, a) && !a.Start?
    requires
      var step := Apply(Solo(), 1, c.nodes[1], a);
      step.state == c'.nodes[1] && c'.log == Extend(c.log, step.cast)
    ensures NextBy(Solo(), c, c', 1, a)
  {
    assert c.nodes[1 := c'.nodes[1]] == c'.nodes;
  }

  /** Under the fault assumption some run ends with a finalized block. */
  lemma FinalityReachable()
    ensures FewFaults(Solo()) && exists s, log :: Reaches(s, log) && s.disk.tip == FIRST
  {
    SoloFew();
    Prevoted(1, START, 0, FIRST);
    var s1 := Apply(Solo(), 1, START, A0).state;
    Precommitted(1, s1, 0, FIRST);
    var s2 := Apply(Solo(), 1, s1, A1).state;
    var s3 := Finalized(s2);
    ReachStart();
    ReachNext(START, [], A0, s1, Some(Prevote(1, 0, FIRST)));
    SoloPolka([Prevote(1, 0, FIRST)]);
    ReachNext(s1, [Prevote(1, 0, FIRST)], A1, s2, Some(Precommit(1, 0, FIRST)));
    var log := [Prevote(1, 0, FIRST)] + [Precommit(1, 0, FIRST)];
    SoloCommit(log);
    ReachNext(s2, log, A2, s3, None);
  }
}
