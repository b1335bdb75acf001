/**
 The votes cast over a whole execution, in the order they became durable, and the safety
 properties that follow from the four rules every correct voter keeps.
 */
module VoteLog {
  import opened Blocks
  import Quorum

  type NodeId = nat

  datatype Vote =
    | Prevote(node: NodeId, round: nat, block: Block)
    | Precommit(node: NodeId, round: nat, block: Block)

  /** `committee(p)` is the committee that votes on children of `p` (it is derived from p's state). */
  datatype Config = Config(byzantine: set<NodeId>, committee: Block -> set<NodeId>)

  /** The fault assumption: fewer than a third of every committee is Byzantine. */
  ghost predicate FewFaults(cfg: Config)
  {
    forall p :: 3 * |cfg.committee(p) * cfg.byzantine| < |cfg.committee(p)|
  }

  /** Byzantine members count towards every quorum: they sign anything. */
  ghost function PrevoteSigners(cfg: Config, log: seq<Vote>, round: nat, b: Block): set<NodeId>
    requires b.Child?
  {
    set n | n in cfg.committee(b.parent) && (n in cfg.byzantine || Prevote(n, round, b) in log)
  }

  ghost function PrecommitSigners(cfg: Config, log: seq<Vote>, round: nat, b: Block): set<NodeId>
    requires b.Child?
  {
    set n | n in cfg.committee(b.parent) && (n in cfg.byzantine || Precommit(n, round, b) in log)
  }

  /** A prevote quorum for `b` in `round`. */
  ghost predicate Polka(cfg: Config, log: seq<Vote>, round: nat, b: Block)
  {
    b.Child? && |PrevoteSigners(cfg, log, round, b)| >= Quorum.Threshold(|cfg.committee(b.parent)|)
  }

  /** A precommit quorum: `b` may be finalized by any node that sees it. */
  ghost predicate Committed(cfg: Config, log: seq<Vote>, round: nat, b: Block)
  {
    b.Child? && |PrecommitSigners(cfg, log, round, b)| >= Quorum.Threshold(|cfg.committee(b.parent)|)
  }

  ghost predicate ChainCommitted(cfg: Config, log: seq<Vote>, b: Block)
  {
    b.Genesis? || ((exists r :: Committed(cfg, log, r, b)) && ChainCommitted(cfg, log, b.parent))
  }

  lemma PolkaGrows(cfg: Config, log: seq<Vote>, more: seq<Vote>, round: nat, b: Block)
    requires Polka(cfg, log, round, b)
    requires log <= more
    ensures Polka(cfg, more, round, b)
  {
    Quorum.SubsetSize(PrevoteSigners(cfg, log, round, b), PrevoteSigners(cfg, more, round, b));
  }

  lemma CommittedGrows(cfg: Config, log: seq<Vote>, more: seq<Vote>, round: nat, b: Block)
    requires Committed(cfg, log, round, b)
    requires log <= more
    ensures Committed(cfg, more, round, b)
  {
    Quorum.SubsetSize(PrecommitSigners(cfg, log, round, b), PrecommitSigners(cfg, more, round, b));
  }

  lemma {:induction false} ChainCommittedGrows(cfg: Config, log: seq<Vote>, more: seq<Vote>, b: Block)
    requires ChainCommitted(cfg, log, b)
    requires log <= more
    ensures ChainCommitted(cfg, more, b)
    decreases b
  {
    if b.Child? {
      var r :| Committed(cfg, log, r, b);
      CommittedGrows(cfg, log, more, r, b);
      ChainCommittedGrows(cfg, log, more, b.parent);
    }
  }

  // ---------------------------------------------------------------- the rules of correct voters

  ghost predicate SameSlot(v: Vote, w: Vote)
  {
    v.node == w.node && v.round == w.round && v.block.Height() == w.block.Height()
  }

  /** One prevote and one precommit per (height, round). */
  ghost predicate NoDoubleVote(cfg: Config, log: seq<Vote>)
  {
    forall v, w :: v in log && w in log && v.Prevote? == w.Prevote? && v.node !in cfg.byzantine && SameSlot(v, w) ==>
      v.block == w.block
  }

  /** A precommit only on a polka already in the log. */
  ghost predicate PrecommitOnPolka(cfg: Config, log: seq<Vote>)
  {
    forall i :: 0 <= i < |log| && log[i].Precommit? && log[i].node !in cfg.byzantine ==>
      Polka(cfg, log[..i], log[i].round, log[i].block)
  }

  ghost predicate PolkaBetween(cfg: Config, log: seq<Vote>, lo: nat, hi: nat, b: Block)
  {
    exists r :: lo <= r <= hi && Polka(cfg, log, r, b)
  }

  /** A prevote above an own precommit for another block needs a polka at or after that precommit's round. */
  ghost predicate LockRule(cfg: Config, log: seq<Vote>)
  {
    forall i, j ::
      && 0 <= i < |log| && log[i].Prevote? && 0 <= j < |log| && log[j].Precommit?
      && log[i].node !in cfg.byzantine && log[j].node == log[i].node
      && log[j].block.Height() == log[i].block.Height()
      && log[j].round < log[i].round && log[j].block != log[i].block
      ==> PolkaBetween(cfg, log[..i], log[j].round, log[i].round, log[i].block)
  }

  /** A correct member votes only on children of a finalized block, and only in its own committee. */
  ghost predicate VotesOnFinalParent(cfg: Config, log: seq<Vote>)
  {
    forall v :: v in log && v.node !in cfg.byzantine ==>
      v.block.Child? && v.node in cfg.committee(v.block.parent) && ChainCommitted(cfg, log, v.block.parent)
  }

  ghost predicate LogInv(cfg: Config, log: seq<Vote>)
  {
    && NoDoubleVote(cfg, log)
    && PrecommitOnPolka(cfg, log)
    && LockRule(cfg, log)
    && VotesOnFinalParent(cfg, log)
  }

  // ---------------------------------------------------------------- agreement

  lemma PolkaHasFinalParent(cfg: Config, log: seq<Vote>, round: nat, b: Block)
    requires FewFaults(cfg) && VotesOnFinalParent(cfg, log)
    requires Polka(cfg, log, round, b)
    ensures ChainCommitted(cfg, log, b.parent)
  {
    var n := Quorum.QuorumHasCorrectMember(cfg.committee(b.parent), PrevoteSigners(cfg, log, round, b), cfg.byzantine);
    assert Prevote(n, round, b) in log;
  }

  lemma CommittedHasPolka(cfg: Config, log: seq<Vote>, round: nat, b: Block)
    requires FewFaults(cfg) && PrecommitOnPolka(cfg, log)
    requires Committed(cfg, log, round, b)
    ensures Polka(cfg, log, round, b)
  {
    var n := Quorum.QuorumHasCorrectMember(cfg.committee(b.parent), PrecommitSigners(cfg, log, round, b),
      cfg.byzantine);
    assert Precommit(n, round, b) in log;
    var i :| 0 <= i < |log| && log[i] == Precommit(n, round, b);
    PolkaGrows(cfg, log[..i], log, round, b);
  }

  lemma OnePolkaPerRound(cfg: Config, log: seq<Vote>, round: nat, b: Block, c: Block)
    requires FewFaults(cfg) && NoDoubleVote(cfg, log)
    requires Polka(cfg, log, round, b) && Polka(cfg, log, round, c) && b.parent == c.parent
    ensures b == c
  {
    var n := Quorum.QuorumsShareCorrectMember(
      cfg.committee(b.parent), PrevoteSigners(cfg, log, round, b), PrevoteSigners(cfg, log, round, c), cfg.byzantine);
    assert SameSlot(Prevote(n, round, b), Prevote(n, round, c));
  }

  /** Once `b` is committed in round `r0`, no polka for a sibling exists in any round from r0 on, in any prefix. */
  lemma {:induction false} NoPolkaAgainstCommit(
      cfg: Config, log: seq<Vote>, r0: nat, b: Block, k: nat, r: nat, c: Block)
    requires FewFaults(cfg) && LogInv(cfg, log)
    requires Committed(cfg, log, r0, b)
    requires k <= |log| && r0 <= r && Polka(cfg, log[..k], r, c) && c.parent == b.parent
    ensures c == b
    decreases k
  {
    PolkaGrows(cfg, log[..k], log, r, c);
    if r == r0 {
      CommittedHasPolka(cfg, log, r0, b);
      OnePolkaPerRound(cfg, log, r0, b, c);
    } else if c != b {
      var n := Quorum.QuorumsShareCorrectMember(
        cfg.committee(b.parent), PrecommitSigners(cfg, log, r0, b), PrevoteSigners(cfg, log[..k], r, c), cfg.byzantine);
      assert Prevote(n, r, c) in log[..k] && Precommit(n, r0, b) in log;
      var i :| 0 <= i < k && log[i] == Prevote(n, r, c);
      var j :| 0 <= j < |log| && log[j] == Precommit(n, r0, b);
      var earlier :| r0 <= earlier <= r && Polka(cfg, log[..i], earlier, c);
      NoPolkaAgainstCommit(cfg, log, r0, b, i, earlier, c);
    }
  }

  /** Agreement: at each height at most one block is ever committed, whatever the rounds. */
  lemma {:induction false} Agreement(cfg: Config, log: seq<Vote>, r: nat, b: Block, s: nat, c: Block)
    requires FewFaults(cfg) && LogInv(cfg, log)
    requires Committed(cfg, log, r, b) && Committed(cfg, log, s, c)
    requires b.Height() == c.Height()
    ensures b == c
    decreases b.Height()
  {
    CommittedHasPolka(cfg, log, r, b);
    CommittedHasPolka(cfg, log, s, c);
    PolkaHasFinalParent(cfg, log, r, b);
    PolkaHasFinalParent(cfg, log, s, c);
    if b.parent.Child? {
      var r' :| Committed(cfg, log, r', b.parent);
      var s' :| Committed(cfg, log, s', c.parent);
      Agreement(cfg, log, r', b.parent, s', c.parent);
    }
    assert log[..|log|] == log;
    if r <= s {
      NoPolkaAgainstCommit(cfg, log, r, b, |log|, s, c);
    } else {
      NoPolkaAgainstCommit(cfg, log, s, c, |log|, r, b);
    }
  }

  /** Two finalized chains never fork: the shorter is a prefix of the longer. */
  lemma {:induction false} ChainsAgree(cfg: Config, log: seq<Vote>, b: Block, c: Block)
    requires FewFaults(cfg) && LogInv(cfg, log)
    requires ChainCommitted(cfg, log, b) && ChainCommitted(cfg, log, c)
    requires b.Height() <= c.Height()
    ensures b.On(c)
    decreases c
  {
    if b.Height() == c.Height() {
      if b.Child? {
        var r :| Committed(cfg, log, r, b);
        var s :| Committed(cfg, log, s, c);
        Agreement(cfg, log, r, b, s, c);
      }
    } else {
      ChainsAgree(cfg, log, b, c.parent);
    }
  }
}
