/**
 What passing the fuzzer's oracle buys: if every observation of every correct node passes, and every vote is
 observed before its node's next vote or accepted proposal, then in any number of rounds and for any
 committee with fewer than a third Byzantine members no two blocks of one height are ever committed. The
 guards the oracle does not check itself are stated as such.
 */
module OracleAgreement {
  import opened Options
  import opened Blocks
  import opened VoteLog
  import opened FuzzOracle
  import opened OracleScan
  import Finality

  /** A correct node casts a vote, accepts a proposal with the proof of lock it carries, or is observed. */
  datatype Event =
    | Cast(vote: Vote)
    | Accept(node: NodeId, round: nat, block: Block, pol: Option<nat>)
    | Look(node: NodeId, view: View, restarted: bool)

  function LogOf(trace: seq<Event>): seq<Vote>
  {
    if trace == [] then []
    else
      var last := trace[|trace| - 1];
      LogOf(trace[..|trace| - 1]) + if last.Cast? then [last.vote] else []
  }

  const EMPTY: Memory := Memory(map[], map[], map[], map[], 0, 0)

  /** One event at node n's oracle: votes reach it only through observations. */
  function Notice(m: Memory, n: NodeId, e: Event): (Option<Violation>, Memory)
  {
    match e
    case Cast(_) => (None, m)
    case Accept(k, r, b, pol) => (None, if k == n then Pol(m, b.Height(), r, b, pol) else m)
    case Look(k, view, restarted) => if k == n then ObserveAll(m, view, restarted) else (None, m)
  }

  function After(trace: seq<Event>, n: NodeId): Memory
  {
    if trace == [] then EMPTY else Notice(After(trace[..|trace| - 1], n), n, trace[|trace| - 1]).1
  }

  ghost predicate PassesAt(trace: seq<Event>, k: nat, n: NodeId)
  {
    k < |trace| ==> Notice(After(trace[..k], n), n, trace[k]).0 == None
  }

  ghost predicate Passes(trace: seq<Event>, n: NodeId)
  {
    forall k: nat :: PassesAt(trace, k, n)
  }

  /** A view shows only own votes, and only under ids of the open height. */
  ghost predicate Truthful(log: seq<Vote>, n: NodeId, view: View)
  {
    && (forall j :: 0 <= j < |view.ids| ==> view.ids[j].Height() == view.height + 1)
    && (forall r, j :: 0 <= j < |view.ids| && (r, view.ids[j]) in view.precommits ==>
          Precommit(n, r, view.ids[j]) in log)
    && (forall r, j :: 0 <= j < |view.ids| && (r, view.ids[j]) in view.prevotes ==> Prevote(n, r, view.ids[j]) in log)
  }

  /**
   What stands outside the oracle: a polka under every precommit, no vote below a round already voted in,
   real proofs of lock, and views of the votes there are.
   */
  ghost predicate Guarded(cfg: Config, log: seq<Vote>, e: Event)
  {
    match e
    case Cast(v) =>
      && v.node !in cfg.byzantine && v.block.Child? && v.node in cfg.committee(v.block.parent)
      && ChainCommitted(cfg, log, v.block.parent)
      && (v.Precommit? ==> Polka(cfg, log, v.round, v.block))
      && (forall w :: w in log && w.node == v.node && w.block.Height() == v.block.Height() ==> w.round <= v.round)
    case Accept(_, r, b, pol) => pol.Some? ==> pol.value <= r && Polka(cfg, log, pol.value, b)
    case Look(n, view, _) => Truthful(log, n, view)
  }

  ghost predicate LawfulAt(cfg: Config, trace: seq<Event>, k: nat)
  {
    k < |trace| ==> Guarded(cfg, LogOf(trace[..k]), trace[k])
  }

  ghost predicate Lawful(cfg: Config, trace: seq<Event>)
  {
    forall k: nat :: LawfulAt(cfg, trace, k)
  }

  /** The event is node n's own vote or accepted proposal. */
  predicate Acts(e: Event, n: NodeId)
  {
    (e.Cast? && e.vote.node == n) || (e.Accept? && e.node == n)
  }

  /** The observation j shows the vote. */
  ghost predicate SeenAt(trace: seq<Event>, j: nat, v: Vote)
    requires j < |trace|
  {
    trace[j].Look? && trace[j].node == v.node && Visible(After(trace[..j], v.node), trace[j].view, v)
  }

  /** Every vote is observed before its node's next vote or accepted proposal. */
  ghost predicate Watched(trace: seq<Event>)
  {
    forall k: nat :: IsCast(trace, k) ==> exists j: nat :: ObservedAt(trace, k, j)
  }

  predicate IsCast(trace: seq<Event>, k: nat)
  {
    k < |trace| && trace[k].Cast?
  }

  ghost predicate ObservedAt(trace: seq<Event>, k: nat, j: nat)
  {
    && IsCast(trace, k) && k < j < |trace|
    && SeenAt(trace, j, trace[k].vote) && Quiet(trace, k, j, trace[k].vote.node)
  }

  ghost predicate Quiet(trace: seq<Event>, k: nat, j: nat, n: NodeId)
    requires j <= |trace|
  {
    forall i :: k < i < j ==> !Acts(trace[i], n)
  }

  // ---------------------------------------------------------------- what the oracle remembers

  ghost predicate Remembers(cfg: Config, log: seq<Vote>, n: NodeId, m: Memory)
  {
    && (forall v :: v in log && v.node == n ==> Recorded(m, v))
    && RealEntries(cfg, log, n, m)
  }

  /** Every remembered vote is one of the node's, and every remembered proof of lock a polka. */
  ghost predicate RealEntries(cfg: Config, log: seq<Vote>, n: NodeId, m: Memory)
  {
    && (forall s :: s in m.sentPc ==> m.sentPc[s].Height() == s.0 && Precommit(n, s.1, m.sentPc[s]) in log)
    && (forall s :: s in m.seenPv ==> m.seenPv[s].Height() == s.0 && Prevote(n, s.1, m.seenPv[s]) in log)
    && PolsReal(cfg, log, m.pol)
  }

  ghost predicate PolsReal(cfg: Config, log: seq<Vote>, pol: map<(nat, nat, Block), int>)
  {
    forall t :: t in pol && pol[t] >= 0 ==> pol[t] <= t.1 && Polka(cfg, log, pol[t], t.2)
  }

  lemma PolsStayReal(cfg: Config, log: seq<Vote>, more: seq<Vote>, pol: map<(nat, nat, Block), int>)
    requires PolsReal(cfg, log, pol) && log <= more
    ensures PolsReal(cfg, more, pol)
  {
    forall t | t in pol && pol[t] >= 0
      ensures Polka(cfg, more, pol[t], t.2)
    {
      PolkaGrows(cfg, log, more, pol[t], t.2);
    }
  }

  lemma EntriesStayReal(cfg: Config, log: seq<Vote>, more: seq<Vote>, n: NodeId, m: Memory)
    requires RealEntries(cfg, log, n, m) && log <= more
    ensures RealEntries(cfg, more, n, m)
  {
    PolsStayReal(cfg, log, more, m.pol);
  }

  lemma LikeRemembers(cfg: Config, log: seq<Vote>, n: NodeId, m: Memory, m': Memory)
    requires RealEntries(cfg, log, n, m) && Like(m', m)
    ensures RealEntries(cfg, log, n, m')
    ensures forall v :: Recorded(m', v) == Recorded(m, v)
  {
  }

  lemma TellReal(cfg: Config, log: seq<Vote>, m: Memory, v: Vote)
    requires RealEntries(cfg, log, v.node, m) && Tell(m, v).0 == None
    ensures RealEntries(cfg, log + [v], v.node, Tell(m, v).1) && Recorded(Tell(m, v).1, v)
  {
    EntriesStayReal(cfg, log, log + [v], v.node, m);
    assert v in log + [v];
  }

  lemma TellRemembers(cfg: Config, log: seq<Vote>, m: Memory, v: Vote)
    requires Remembers(cfg, log, v.node, m) && Tell(m, v).0 == None
    ensures Remembers(cfg, log + [v], v.node, Tell(m, v).1)
  {
    TellReal(cfg, log, m, v);
    forall w | w in log + [v] && w.node == v.node
      ensures Recorded(Tell(m, v).1, w)
    {
      if w in log {
        StaysRecorded(m, v, w);
      }
    }
  }

  lemma PolReal(cfg: Config, log: seq<Vote>, n: NodeId, m: Memory, r: nat, b: Block, pol: Option<nat>)
    requires RealEntries(cfg, log, n, m) && (pol.Some? ==> pol.value <= r && Polka(cfg, log, pol.value, b))
    ensures RealEntries(cfg, log, n, Pol(m, b.Height(), r, b, pol))
    ensures forall v :: Recorded(Pol(m, b.Height(), r, b, pol), v) == Recorded(m, v)
  {
  }

  lemma AcceptRemembers(cfg: Config, log: seq<Vote>, n: NodeId, m: Memory, r: nat, b: Block, pol: Option<nat>)
    requires Remembers(cfg, log, n, m) && (pol.Some? ==> pol.value <= r && Polka(cfg, log, pol.value, b))
    ensures Remembers(cfg, log, n, Pol(m, b.Height(), r, b, pol))
  {
    PolReal(cfg, log, n, m, r, b, pol);
  }

  // ---------------------------------------------------------------- the log keeps the voting rules

  /** A prevote the oracle lets through is covered by a polka wherever an own precommit stands against it. */
  lemma PassedPrevote(cfg: Config, log: seq<Vote>, n: NodeId, m: Memory, v: Vote, w: Vote)
    requires LogInv(cfg, log) && Remembers(cfg, log, n, m) && n !in cfg.byzantine
    requires v.Prevote? && v.node == n && See(m, v.block.Height(), v.round, v.block).0 == None
    requires w in log && w.Precommit? && w.node == n && w.block.Height() == v.block.Height()
    requires w.round < v.round && w.block != v.block
    ensures PolkaBetween(cfg, log, w.round, v.round, v.block)
  {
    var h := v.block.Height();
    if (h, v.round) in m.seenPv {
      RepeatedPrevote(cfg, log, v, w);
    } else {
      assert Recorded(m, w);
      var l := Latest(m.sentPc, h, v.round).value;
      if m.sentPc[(h, l)] == v.block {
        PrecommitHasPolka(cfg, log, Precommit(n, l, v.block));
      } else {
        assert (h, v.round, v.block) in m.pol;
        var p := m.pol[(h, v.round, v.block)];
        assert Polka(cfg, log, p, v.block);
      }
    }
  }

  lemma RepeatedPrevote(cfg: Config, log: seq<Vote>, v: Vote, w: Vote)
    requires LockRule(cfg, log) && v in log && w in log && v.Prevote? && w.Precommit? && v.node == w.node
    requires v.node !in cfg.byzantine && w.block.Height() == v.block.Height() && w.round < v.round && w.block != v.block
    ensures PolkaBetween(cfg, log, w.round, v.round, v.block)
  {
    var i :| 0 <= i < |log| && log[i] == v;
    var j :| 0 <= j < |log| && log[j] == w;
    var r :| w.round <= r <= v.round && Polka(cfg, log[..i], r, v.block);
    PolkaGrows(cfg, log[..i], log, r, v.block);
  }

  lemma PrecommitHasPolka(cfg: Config, log: seq<Vote>, w: Vote)
    requires PrecommitOnPolka(cfg, log) && w in log && w.Precommit? && w.node !in cfg.byzantine
    ensures Polka(cfg, log, w.round, w.block)
  {
    var i :| 0 <= i < |log| && log[i] == w;
    PolkaGrows(cfg, log[..i], log, w.round, w.block);
  }

  lemma CastKeeps(cfg: Config, log: seq<Vote>, m: Memory, v: Vote)
    requires LogInv(cfg, log) && Remembers(cfg, log, v.node, m) && Guarded(cfg, log, Cast(v)) && Tell(m, v).0 == None
    ensures LogInv(cfg, log + [v])
  {
    if v.Prevote? {
      forall w | w in log && w.Precommit? && w.node == v.node && w.block.Height() == v.block.Height()
        ensures w.round < v.round && w.block != v.block ==> PolkaBetween(cfg, log, w.round, v.round, v.block)
      {
        if w.round < v.round && w.block != v.block {
          PassedPrevote(cfg, log, v.node, m, v, w);
        }
      }
      Finality.AppendPrevote(cfg, log, v);
    } else {
      Finality.AppendPrecommit(cfg, log, v);
    }
  }

  // ---------------------------------------------------------------- following one node's oracle

  /** Up to date: every vote of the node so far is remembered. */
  ghost predicate UpToDate(cfg: Config, trace: seq<Event>, i: nat, n: NodeId)
    requires i <= |trace|
  {
    Remembers(cfg, LogOf(trace[..i]), n, After(trace[..i], n))
  }

  /** Waiting: all but the vote cast at k, which no observation since has shown. */
  ghost predicate Waiting(cfg: Config, trace: seq<Event>, k: nat, i: nat, n: NodeId)
    requires i <= |trace|
  {
    && k < i && trace[k].Cast? && trace[k].vote.node == n && UpToDate(cfg, trace, k, n)
    && Like(After(trace[..i], n), After(trace[..k], n)) && Quiet(trace, k, i, n)
    && (forall q :: k < q < i ==> !SeenAt(trace, q, trace[k].vote))
    && (forall v :: v in LogOf(trace[..i]) && v.node == n ==> v in LogOf(trace[..k]) || v == trace[k].vote)
    && LogOf(trace[..k]) <= LogOf(trace[..i]) && trace[k].vote in LogOf(trace[..i])
  }

  lemma NextEvent(trace: seq<Event>, i: nat, n: NodeId)
    requires i < |trace|
    ensures LogOf(trace[..i + 1]) == LogOf(trace[..i]) + if trace[i].Cast? then [trace[i].vote] else []
    ensures After(trace[..i + 1], n) == Notice(After(trace[..i], n), n, trace[i]).1
  {
    assert trace[..i + 1][..i] == trace[..i];
  }

  lemma KnownView(n: NodeId, log: seq<Vote>, view: View, m: Memory, v: Option<Vote>)
    requires Truthful(log, n, view)
    requires forall w :: w in log && w.node == n ==> Recorded(m, w) || v == Some(w)
    ensures Familiar(n, view, m, v)
  {
  }

  lemma UpToDateStep(cfg: Config, trace: seq<Event>, i: nat, n: NodeId)
    requires i < |trace| && UpToDate(cfg, trace, i, n) && Guarded(cfg, LogOf(trace[..i]), trace[i])
    requires Notice(After(trace[..i], n), n, trace[i]).0 == None && !(trace[i].Cast? && trace[i].vote.node == n)
    ensures UpToDate(cfg, trace, i + 1, n)
  {
    var log, m, e := LogOf(trace[..i]), After(trace[..i], n), trace[i];
    NextEvent(trace, i, n);
    assert log + [] == log;
    if e.Cast? {
      EntriesStayReal(cfg, log, log + [e.vote], n, m);
    } else if e.Accept? && e.node == n {
      AcceptRemembers(cfg, log, n, m, e.round, e.block, e.pol);
    } else if e.Look? && e.node == n {
      KnownView(n, log, e.view, m, None);
      ObserveScan(n, m, e.view, e.restarted, None);
      LikeRemembers(cfg, log, n, m, After(trace[..i + 1], n));
    }
  }

  lemma StartsWaiting(cfg: Config, trace: seq<Event>, i: nat, n: NodeId)
    requires i < |trace| && UpToDate(cfg, trace, i, n) && trace[i].Cast? && trace[i].vote.node == n
    ensures Waiting(cfg, trace, i, i + 1, n)
  {
    NextEvent(trace, i, n);
  }

  /** While waiting, only others act, until an observation shows the vote. */
  lemma WaitingActs(trace: seq<Event>, k: nat, i: nat, n: NodeId)
    requires Watched(trace) && k < i < |trace| && trace[k].Cast? && trace[k].vote.node == n
    requires forall q :: k < q < i ==> !SeenAt(trace, q, trace[k].vote)
    ensures !Acts(trace[i], n)
  {
    assert IsCast(trace, k);
    var j: nat :| ObservedAt(trace, k, j);
    if j > i {
      assert !Acts(trace[i], n);
    }
  }

  lemma WaitingElse(cfg: Config, trace: seq<Event>, k: nat, i: nat, n: NodeId)
    requires i < |trace| && Waiting(cfg, trace, k, i, n) && !Acts(trace[i], n)
      && !(trace[i].Look? && trace[i].node == n)
    ensures Waiting(cfg, trace, k, i + 1, n)
  {
    NextEvent(trace, i, n);
  }

  lemma WaitingLook(cfg: Config, trace: seq<Event>, k: nat, i: nat, n: NodeId)
    requires i < |trace| && Waiting(cfg, trace, k, i, n) && trace[i].Look? && trace[i].node == n
    requires Guarded(cfg, LogOf(trace[..i]), trace[i]) && Notice(After(trace[..i], n), n, trace[i]).0 == None
    ensures SeenAt(trace, i, trace[k].vote) ==>
      Tell(After(trace[..k], n), trace[k].vote).0 == None && UpToDate(cfg, trace, i + 1, n)
    ensures !SeenAt(trace, i, trace[k].vote) ==> Waiting(cfg, trace, k, i + 1, n)
  {
    NextEvent(trace, i, n);
    assert LogOf(trace[..i]) + [] == LogOf(trace[..i]);
    LookWhileWaiting(cfg, LogOf(trace[..k]), LogOf(trace[..i]), After(trace[..k], n), After(trace[..i], n),
                     trace[i].view, trace[i].restarted, trace[k].vote);
  }

  /** An observation of a node all of whose votes but v are remembered. */
  lemma LookWhileWaiting(cfg: Config, log0: seq<Vote>, log: seq<Vote>, m0: Memory, m: Memory, view: View,
                         restarted: bool, v: Vote)
    requires Remembers(cfg, log0, v.node, m0) && Like(m, m0) && log0 <= log && v in log
    requires forall w :: w in log && w.node == v.node ==> w in log0 || w == v
    requires Truthful(log, v.node, view) && ObserveAll(m, view, restarted).0 == None
    ensures Visible(m, view, v) ==>
      Tell(m0, v).0 == None && Remembers(cfg, log, v.node, ObserveAll(m, view, restarted).1)
    ensures !Visible(m, view, v) ==> Like(ObserveAll(m, view, restarted).1, m0)
  {
    LikeRemembers(cfg, log0, v.node, m0, m);
    KnownView(v.node, log, view, m, Some(v));
    ObserveScan(v.node, m, view, restarted, Some(v));
    if Visible(m, view, v) {
      TellLike(m, m0, v);
      SeenNow(cfg, log0, log, m0, ObserveAll(m, view, restarted).1, v);
    }
  }

  lemma SeenNow(cfg: Config, log0: seq<Vote>, log: seq<Vote>, m0: Memory, m: Memory, v: Vote)
    requires Remembers(cfg, log0, v.node, m0) && Tell(m0, v).0 == None && Like(m, Tell(m0, v).1)
    requires log0 <= log && v in log && forall w :: w in log && w.node == v.node ==> w in log0 || w == v
    ensures Remembers(cfg, log, v.node, m)
  {
    TellRemembers(cfg, log0, m0, v);
    LikeRemembers(cfg, log0 + [v], v.node, Tell(m0, v).1, m);
    assert forall w :: w in log0 + [v] ==> w in log;
    assert PolsReal(cfg, log, m.pol) by {
      PolsStayReal(cfg, log0, log, m0.pol);
    }
  }

  lemma WaitStep(cfg: Config, trace: seq<Event>, k: nat, i: nat, n: NodeId)
    requires Lawful(cfg, trace) && Passes(trace, n) && Watched(trace) && i < |trace| && Waiting(cfg, trace, k, i, n)
    ensures !Acts(trace[i], n)
    ensures Waiting(cfg, trace, k, i + 1, n)
            || (Tell(After(trace[..k], n), trace[k].vote).0 == None && UpToDate(cfg, trace, i + 1, n))
  {
    WaitingActs(trace, k, i, n);
    assert LawfulAt(cfg, trace, i) && PassesAt(trace, i, n);
    if trace[i].Look? && trace[i].node == n {
      WaitingLook(cfg, trace, k, i, n);
    } else {
      WaitingElse(cfg, trace, k, i, n);
    }
  }

  ghost predicate Following(cfg: Config, trace: seq<Event>, i: nat, n: NodeId)
    requires i <= |trace|
  {
    UpToDate(cfg, trace, i, n) || exists k :: Waiting(cfg, trace, k, i, n)
  }

  lemma FollowStep(cfg: Config, trace: seq<Event>, i: nat, n: NodeId)
    requires Lawful(cfg, trace) && Passes(trace, n) && Watched(trace) && i < |trace| && Following(cfg, trace, i, n)
    ensures Following(cfg, trace, i + 1, n)
    ensures trace[i].Cast? && trace[i].vote.node == n ==> UpToDate(cfg, trace, i, n)
  {
    if UpToDate(cfg, trace, i, n) {
      if trace[i].Cast? && trace[i].vote.node == n {
        StartsWaiting(cfg, trace, i, n);
      } else {
        assert LawfulAt(cfg, trace, i) && PassesAt(trace, i, n);
        UpToDateStep(cfg, trace, i, n);
      }
    } else {
      var k :| Waiting(cfg, trace, k, i, n);
      WaitStep(cfg, trace, k, i, n);
    }
  }

  lemma {:induction false} Follows(cfg: Config, trace: seq<Event>, i: nat, n: NodeId)
    requires Lawful(cfg, trace) && Passes(trace, n) && Watched(trace) && i <= |trace|
    ensures Following(cfg, trace, i, n)
  {
    if i > 0 {
      Follows(cfg, trace, i - 1, n);
      FollowStep(cfg, trace, i - 1, n);
    }
  }

  ghost predicate Checked(trace: seq<Event>, k: nat, n: NodeId)
    requires k < |trace| && trace[k].Cast?
  {
    Tell(After(trace[..k], n), trace[k].vote).0 == None
  }

  ghost predicate Unseen(trace: seq<Event>, k: nat, i: nat)
    requires k < |trace| && trace[k].Cast? && i <= |trace|
  {
    forall q :: k < q < i ==> !SeenAt(trace, q, trace[k].vote)
  }

  lemma WaitNext(cfg: Config, trace: seq<Event>, k: nat, i: nat, n: NodeId) returns (checked: bool)
    requires Lawful(cfg, trace) && Passes(trace, n) && Watched(trace) && i < |trace| && Waiting(cfg, trace, k, i, n)
    ensures checked ==> Checked(trace, k, n)
    ensures !checked ==> Waiting(cfg, trace, k, i + 1, n) && Unseen(trace, k, i + 1)
  {
    WaitStep(cfg, trace, k, i, n);
    checked := !Waiting(cfg, trace, k, i + 1, n);
  }

  /** A waiting vote that some observation j shows gets checked. */
  lemma WaitEnds(cfg: Config, trace: seq<Event>, k: nat, n: NodeId, j: nat)
    requires Lawful(cfg, trace) && Passes(trace, n) && Watched(trace) && k < j < |trace|
    requires Waiting(cfg, trace, k, k + 1, n) && SeenAt(trace, j, trace[k].vote)
    ensures Checked(trace, k, n)
  {
    var i := k + 1;
    while i <= j
      invariant k < i <= j + 1 && Waiting(cfg, trace, k, i, n) && Unseen(trace, k, i)
    {
      var checked := WaitNext(cfg, trace, k, i, n);
      if checked {
        return;
      }
      i := i + 1;
    }
  }

  /** Every vote of a watched trace passes the vote rules as of the moment it was cast. */
  lemma EveryCastChecked(cfg: Config, trace: seq<Event>, k: nat)
    requires Lawful(cfg, trace) && Watched(trace) && k < |trace| && trace[k].Cast? && Passes(trace, trace[k].vote.node)
    ensures UpToDate(cfg, trace, k, trace[k].vote.node)
    ensures Tell(After(trace[..k], trace[k].vote.node), trace[k].vote).0 == None
  {
    var n, v := trace[k].vote.node, trace[k].vote;
    Follows(cfg, trace, k, n);
    FollowStep(cfg, trace, k, n);
    assert IsCast(trace, k);
    var j: nat :| ObservedAt(trace, k, j);
    StartsWaiting(cfg, trace, k, n);
    WaitEnds(cfg, trace, k, n, j);
  }

  lemma {:induction false} PassingKeepsRules(cfg: Config, trace: seq<Event>, i: nat)
    requires Lawful(cfg, trace) && Watched(trace) && i <= |trace|
    requires forall n :: n !in cfg.byzantine ==> Passes(trace, n)
    ensures LogInv(cfg, LogOf(trace[..i]))
  {
    if i > 0 {
      var e := trace[i - 1];
      PassingKeepsRules(cfg, trace, i - 1);
      NextEvent(trace, i - 1, 0);
      if e.Cast? {
        assert LawfulAt(cfg, trace, i - 1);
        EveryCastChecked(cfg, trace, i - 1);
        CastKeeps(cfg, LogOf(trace[..i - 1]), After(trace[..i - 1], e.vote.node), e.vote);
      } else {
        assert LogOf(trace[..i - 1]) + [] == LogOf(trace[..i - 1]);
      }
    }
  }

  /** Agreement for every committee, every round and every watched trace whose observations pass. */
  lemma OracleImpliesAgreement(cfg: Config, trace: seq<Event>, r: nat, b: Block, s: nat, c: Block)
    requires FewFaults(cfg) && Lawful(cfg, trace) && Watched(trace)
    requires forall n :: n !in cfg.byzantine ==> Passes(trace, n)
    requires Committed(cfg, LogOf(trace), r, b) && Committed(cfg, LogOf(trace), s, c) && b.Height() == c.Height()
    ensures b == c
  {
    PassingKeepsRules(cfg, trace, |trace|);
    assert trace[..|trace|] == trace;
    Agreement(cfg, LogOf(trace), r, b, s, c);
  }
}
