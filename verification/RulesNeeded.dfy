/**
 The lock rule of module VoteLog is what a node keeps by two rules at the moment it votes: the lock rule
 against the precommits it has cast, and the vote-round floor. Both are needed: with either one dropped
 and every other voting rule kept, four validators with one Byzantine commit two blocks of one height.
 */
module RulesNeeded {
  import opened Blocks
  import opened VoteLog

  /** The lock rule as judged when the prevote is cast: against earlier precommits only. */
  ghost predicate LockWhenCast(cfg: Config, log: seq<Vote>)
  {
    forall i, j ::
      && 0 <= j < i < |log| && log[i].Prevote? && log[j].Precommit?
      && log[i].node !in cfg.byzantine && log[j].node == log[i].node
      && log[j].block.Height() == log[i].block.Height()
      && log[j].round < log[i].round && log[j].block != log[i].block
      ==> PolkaBetween(cfg, log[..i], log[j].round, log[i].round, log[i].block)
  }

  /** The floor: no vote in a round below one already voted in at that height. */
  ghost predicate VoteRoundFloor(cfg: Config, log: seq<Vote>)
  {
    forall i, j ::
      && 0 <= i < j < |log| && log[j].node !in cfg.byzantine && log[i].node == log[j].node
      && log[i].block.Height() == log[j].block.Height()
      ==> log[i].round <= log[j].round
  }

  ghost predicate OtherRules(cfg: Config, log: seq<Vote>)
  {
    NoDoubleVote(cfg, log) && PrecommitOnPolka(cfg, log) && VotesOnFinalParent(cfg, log)
  }

  ghost predicate Forks(cfg: Config, log: seq<Vote>)
  {
    exists r, b, s, c :: Committed(cfg, log, r, b) && Committed(cfg, log, s, c) && b.Height() == c.Height() && b != c
  }

  /** Under the floor no precommit comes below a prevote already cast, so the two rules give the whole lock rule. */
  lemma CastRulesSuffice(cfg: Config, log: seq<Vote>)
    requires FewFaults(cfg) && OtherRules(cfg, log) && LockWhenCast(cfg, log) && VoteRoundFloor(cfg, log)
    ensures LogInv(cfg, log) && !Forks(cfg, log)
  {
    forall r, b, s, c | Committed(cfg, log, r, b) && Committed(cfg, log, s, c) && b.Height() == c.Height()
      ensures b == c
    {
      Agreement(cfg, log, r, b, s, c);
    }
  }

  // ---------------------------------------------------------------- four validators, one Byzantine

  const B: Block := Child(Genesis, 0, 1)
  const C: Block := Child(Genesis, 1, 2)

  function Four(): Config
  {
    Config({3}, _ => {0, 1, 2, 3})
  }

  /** Nodes 0 and 1 vote for B in round 0 and for C in round 1, precommits on both their prevotes. */
  ghost predicate Scripted(log: seq<Vote>)
  {
    && (forall i :: 0 <= i < |log| ==>
          log[i].node in {0, 1} && log[i].round <= 1 && log[i].block == if log[i].round == 0 then B else C)
    && (forall i :: 0 <= i < |log| && log[i].Precommit? ==> Voted(log[..i], log[i].round, log[i].block))
  }

  ghost predicate Voted(log: seq<Vote>, r: nat, b: Block)
  {
    Prevote(0, r, b) in log && Prevote(1, r, b) in log
  }

  ghost predicate TwoRounds(log: seq<Vote>)
  {
    && Scripted(log)
    && Precommit(0, 0, B) in log && Precommit(1, 0, B) in log && Precommit(0, 1, C) in log && Precommit(1, 1, C) in log
  }

  lemma PolkaIn(log: seq<Vote>, r: nat, b: Block)
    requires b.Child? && Prevote(0, r, b) in log && Prevote(1, r, b) in log
    ensures Polka(Four(), log, r, b)
  {
    var signers := PrevoteSigners(Four(), log, r, b);
    assert {0, 1, 3} <= signers && |{0, 1, 3}| == 3;
    Quorum.SubsetSize({0, 1, 3}, signers);
  }

  lemma CommitIn(log: seq<Vote>, r: nat, b: Block)
    requires b.Child? && Precommit(0, r, b) in log && Precommit(1, r, b) in log
    ensures Committed(Four(), log, r, b)
  {
    var signers := PrecommitSigners(Four(), log, r, b);
    assert {0, 1, 3} <= signers && |{0, 1, 3}| == 3;
    Quorum.SubsetSize({0, 1, 3}, signers);
  }

  lemma FewFour()
    ensures FewFaults(Four())
  {
    forall p: Block
      ensures 3 * |Four().committee(p) * Four().byzantine| < |Four().committee(p)|
    {
      assert Four().committee(p) * Four().byzantine == {3};
    }
  }

  /** Such a log keeps the other rules and forks, whatever the order of its votes. */
  lemma TwoRoundsFork(log: seq<Vote>)
    requires TwoRounds(log)
    ensures FewFaults(Four()) && OtherRules(Four(), log) && Forks(Four(), log)
  {
    FewFour();
    forall i | 0 <= i < |log| && log[i].Precommit?
      ensures Polka(Four(), log[..i], log[i].round, log[i].block)
    {
      PolkaIn(log[..i], log[i].round, log[i].block);
    }
    CommitIn(log, 0, B);
    CommitIn(log, 1, C);
    assert B.Height() == 1 && C.Height() == 1;
  }

  ghost predicate Ascending(log: seq<Vote>)
  {
    forall i, j :: 0 <= i < j < |log| ==> log[i].round <= log[j].round
  }

  ghost predicate PrevotesFirst(log: seq<Vote>)
  {
    forall i, j :: 0 <= j < i < |log| && log[i].Prevote? ==> log[j].Prevote?
  }

  lemma AscendingKeepsFloor(cfg: Config, log: seq<Vote>)
    requires Ascending(log)
    ensures VoteRoundFloor(cfg, log)
  {
  }

  lemma PrevotesFirstKeepLock(cfg: Config, log: seq<Vote>)
    requires PrevotesFirst(log)
    ensures LockWhenCast(cfg, log)
  {
  }

  ghost predicate AllBy(log: seq<Vote>, r: nat)
  {
    Ascending(log) && forall i :: 0 <= i < |log| ==> log[i].round <= r
  }

  ghost predicate AllPrevotes(log: seq<Vote>)
  {
    forall i :: 0 <= i < |log| ==> log[i].Prevote?
  }

  lemma AddVote(log: seq<Vote>, v: Vote)
    requires Scripted(log) && v.node in {0, 1} && v.round <= 1 && v.block == if v.round == 0 then B else C
    requires v.Precommit? ==> Voted(log, v.round, v.block)
    ensures Scripted(log + [v]) && v in log + [v]
  {
    var more := log + [v];
    assert more[|log|] == v && more[..|log|] == log;
    forall i | 0 <= i < |more| && more[i].Precommit?
      ensures Voted(more[..i], more[i].round, more[i].block)
    {
      if i < |log| {
        assert more[..i] == log[..i] && more[i] == log[i];
      }
    }
  }

  lemma AddKeeps(log: seq<Vote>, v: Vote)
    ensures AllBy(log, v.round) ==> AllBy(log + [v], v.round)
    ensures AllPrevotes(log) && v.Prevote? ==> AllPrevotes(log + [v])
    ensures PrevotesFirst(log) && v.Precommit? ==> PrevotesFirst(log + [v])
  {
  }

  lemma AddPrevotes(log: seq<Vote>, r: nat, b: Block) returns (more: seq<Vote>)
    requires Scripted(log) && r <= 1 && b == if r == 0 then B else C
    ensures Scripted(more) && log <= more && Voted(more, r, b)
    ensures AllBy(log, r) ==> AllBy(more, r)
    ensures AllPrevotes(log) ==> AllPrevotes(more)
  {
    var v, w := Prevote(0, r, b), Prevote(1, r, b);
    more := log + [v] + [w];
    AddVote(log, v);
    AddVote(log + [v], w);
    AddKeeps(log, v);
    AddKeeps(log + [v], w);
  }

  lemma AddPrecommits(log: seq<Vote>, r: nat, b: Block) returns (more: seq<Vote>)
    requires Scripted(log) && r <= 1 && b == (if r == 0 then B else C) && Voted(log, r, b)
    ensures Scripted(more) && log <= more && Precommit(0, r, b) in more && Precommit(1, r, b) in more
    ensures AllBy(log, r) ==> AllBy(more, r)
    ensures PrevotesFirst(log) ==> PrevotesFirst(more)
  {
    var v, w := Precommit(0, r, b), Precommit(1, r, b);
    more := log + [v] + [w];
    AddVote(log, v);
    AddVote(log + [v], w);
    AddKeeps(log, v);
    AddKeeps(log + [v], w);
  }

  /** Round 1 after the precommits of round 0: in ascending rounds, against the lock rule. */
  lemma AgainstLock() returns (log: seq<Vote>)
    ensures TwoRounds(log) && Ascending(log)
  {
    log := AddPrevotes([], 0, B);
    log := AddPrecommits(log, 0, B);
    assert AllBy(log, 1);
    log := AddPrevotes(log, 1, C);
    log := AddPrecommits(log, 1, C);
  }

  /** The precommits of round 0 after those of round 1: no lock stands in the way of a prevote. */
  lemma BelowFloor() returns (log: seq<Vote>)
    ensures TwoRounds(log) && PrevotesFirst(log)
  {
    log := AddPrevotes([], 0, B);
    log := AddPrevotes(log, 1, C);
    log := AddPrecommits(log, 1, C);
    log := AddPrecommits(log, 0, B);
  }

  /** Every rule but the lock rule, and a fork. */
  lemma LockRuleNeeded()
    ensures exists cfg, log :: FewFaults(cfg) && OtherRules(cfg, log) && VoteRoundFloor(cfg, log) && Forks(cfg, log)
  {
    var log := AgainstLock();
    TwoRoundsFork(log);
    AscendingKeepsFloor(Four(), log);
  }

  /** Every rule but the vote-round floor, and a fork. */
  lemma FloorRuleNeeded()
    ensures exists cfg, log :: FewFaults(cfg) && OtherRules(cfg, log) && LockWhenCast(cfg, log) && Forks(cfg, log)
  {
    var log := BelowFloor();
    TwoRoundsFork(log);
    PrevotesFirstKeepLock(Four(), log);
  }
}
