/**
 Two votes of one slot in a single observation of the fuzzer's oracle. The precommit is marked before the
 prevote is judged, so the prevote meets its own precommit as the lock and the lock rule cannot fail; this is
 why every vote has to be observed before the next.
 */
module OraclePairs {
  import opened Options
  import opened Blocks
  import opened VoteLog
  import opened FuzzOracle
  import opened OracleScan
  import opened OracleAgreement
  import opened OracleViews

  // ---------------------------------------------------------------- telling both votes

  function TellBoth(m: Memory, h: nat, r: nat, b: Block): (Option<Violation>, Memory)
  {
    var (bad, m1) := Mark(m, h, r, b);
    if bad.Some? then (bad, m1) else See(m1, h, r, b)
  }

  /** The slot is free for the block, or holds it. */
  predicate SlotFits(votes: map<Slot, Block>, h: nat, r: nat, b: Block)
  {
    (h, r) in votes ==> votes[(h, r)] == b
  }

  /** Both pass exactly when neither slot holds another block: the lock rule is not looked at. */
  lemma BothExactly(m: Memory, h: nat, r: nat, b: Block)
    ensures TellBoth(m, h, r, b).0 == None <==> SlotFits(m.sentPc, h, r, b) && SlotFits(m.seenPv, h, r, b)
    ensures TellBoth(m, h, r, b).0 == None ==>
      var m' := TellBoth(m, h, r, b).1;
      m'.sentPc == m.sentPc[(h, r) := b] && m'.seenPv == m.seenPv[(h, r) := b] && m'.pol == m.pol
  {
    if SlotFits(m.sentPc, h, r, b) {
      MarkedLockOk(Mark(m, h, r, b).1, h, r, b);
    }
  }

  lemma MarkedLockOk(m: Memory, h: nat, r: nat, b: Block)
    requires (h, r) in m.sentPc && m.sentPc[(h, r)] == b
    ensures LockOk(m, h, r, b)
  {
  }

  // ---------------------------------------------------------------- the scan

  /** Every vote shown is remembered, or is one of the two of the slot, which shows both. */
  ghost predicate PairFamiliar(n: NodeId, view: View, m: Memory, r0: nat, b0: Block)
  {
    && (forall j :: 0 <= j < |view.ids| ==> view.ids[j].Height() == view.height + 1)
    && (r0, b0) in view.precommits && (r0, b0) in view.prevotes
    && (forall r, j :: 0 <= j < |view.ids| && (r, view.ids[j]) in view.precommits && (r, view.ids[j]) != (r0, b0) ==>
          Recorded(m, Precommit(n, r, view.ids[j])))
    && (forall r, j :: 0 <= j < |view.ids| && (r, view.ids[j]) in view.prevotes && (r, view.ids[j]) != (r0, b0) ==>
          Recorded(m, Prevote(n, r, view.ids[j])))
  }

  ghost predicate PairStage(now: Memory, m: Memory, r0: nat, b0: Block, told: bool)
  {
    var out := TellBoth(m, b0.Height(), r0, b0);
    if told then out.0 == None && Like(now, out.1) else Like(now, m)
  }

  ghost predicate PairOutcome(out: (Option<Violation>, Memory), m: Memory, r0: nat, b0: Block, told: bool, has: bool)
  {
    && (out.0 == None <==> (has ==> TellBoth(m, b0.Height(), r0, b0).0 == None))
    && (out.0 == None ==> PairStage(out.1, m, r0, b0, told || has))
  }

  lemma StaysKnown(now: Memory, m: Memory, r0: nat, b0: Block, told: bool, w: Vote)
    requires PairStage(now, m, r0, b0, told) && Recorded(m, w)
    ensures Recorded(now, w)
  {
    if told {
      BothExactly(m, b0.Height(), r0, b0);
    }
  }

  lemma KnownSlot(n: NodeId, now: Memory, view: View, r: nat, b: Block)
    requires b.Height() == view.height + 1
    requires (r, b) in view.precommits ==> Recorded(now, Precommit(n, r, b))
    requires (r, b) in view.prevotes ==> Recorded(now, Prevote(n, r, b))
    ensures SeeSlot(now, view, r, b).0 == None && Like(SeeSlot(now, view, r, b).1, now)
  {
  }

  lemma BothLike(now: Memory, m: Memory, h: nat, r: nat, b: Block)
    requires Like(now, m)
    ensures TellBoth(now, h, r, b).0 == TellBoth(m, h, r, b).0 && Like(TellBoth(now, h, r, b).1, TellBoth(m, h, r, b).1)
  {
    var a, c := Mark(now, h, r, b), Mark(m, h, r, b);
    assert a.0 == c.0 && Like(a.1, c.1);
    SeeLike(a.1, c.1, h, r, b);
  }

  lemma SeeLike(now: Memory, m: Memory, h: nat, r: nat, b: Block)
    requires Like(now, m)
    ensures See(now, h, r, b).0 == See(m, h, r, b).0 && Like(See(now, h, r, b).1, See(m, h, r, b).1)
  {
  }

  lemma PairSlot(n: NodeId, now: Memory, view: View, r: nat, j: nat, m: Memory, r0: nat, b0: Block, told: bool)
    requires j < |view.ids| && PairFamiliar(n, view, m, r0, b0) && PairStage(now, m, r0, b0, told)
    ensures PairOutcome(SeeSlot(now, view, r, view.ids[j]), m, r0, b0, told, (r, view.ids[j]) == (r0, b0))
  {
    var b := view.ids[j];
    if (r, b) == (r0, b0) {
      if told {
        BothExactly(m, b0.Height(), r0, b0);
        KnownSlot(n, now, view, r, b);
      } else {
        BothLike(now, m, b0.Height(), r0, b0);
      }
    } else {
      if (r, b) in view.precommits {
        StaysKnown(now, m, r0, b0, told, Precommit(n, r, b));
      }
      if (r, b) in view.prevotes {
        StaysKnown(now, m, r0, b0, told, Prevote(n, r, b));
      }
      KnownSlot(n, now, view, r, b);
    }
  }

  lemma PairThen(a: (Option<Violation>, Memory), b: (Option<Violation>, Memory), m: Memory, r0: nat, b0: Block,
                 told: bool, first: bool, second: bool)
    requires PairOutcome(a, m, r0, b0, told, first)
    requires a.0 == None ==> PairOutcome(b, m, r0, b0, told || first, second)
    ensures PairOutcome(if a.0.Some? then a else b, m, r0, b0, told, first || second)
  {
  }

  /** The block is among the known ids from i on, and this is its round. */
  predicate PairFrom(view: View, r: nat, i: nat, r0: nat, b0: Block)
    requires i <= |view.ids|
  {
    r == r0 && b0 in view.ids[i..]
  }

  lemma {:induction false} PairIds(n: NodeId, now: Memory, view: View, r: nat, i: nat, m: Memory, r0: nat, b0: Block,
                                   told: bool)
    requires i <= |view.ids| && PairFamiliar(n, view, m, r0, b0) && PairStage(now, m, r0, b0, told)
    ensures PairOutcome(SeeIds(now, view, r, i), m, r0, b0, told, PairFrom(view, r, i, r0, b0))
    decreases |view.ids| - i
  {
    if i < |view.ids| {
      var first := (r, view.ids[i]) == (r0, b0);
      PairSlot(n, now, view, r, i, m, r0, b0, told);
      var a := SeeSlot(now, view, r, view.ids[i]);
      if a.0 == None {
        PairIds(n, a.1, view, r, i + 1, m, r0, b0, told || first);
      }
      PairThen(a, SeeIds(a.1, view, r, i + 1), m, r0, b0, told, first, PairFrom(view, r, i + 1, r0, b0));
      assert view.ids[i..] == [view.ids[i]] + view.ids[i + 1..];
    }
  }

  lemma {:induction false} PairRounds(n: NodeId, now: Memory, view: View, r: nat, hi: nat, m: Memory, r0: nat,
                                      b0: Block,
                                      told: bool)
    requires r <= hi + 1 && PairFamiliar(n, view, m, r0, b0) && PairStage(now, m, r0, b0, told)
    ensures PairOutcome(SeeRounds(now, view, r, hi), m, r0, b0, told, r <= r0 <= hi && b0 in view.ids)
    decreases hi + 1 - r
  {
    if r <= hi {
      assert view.ids[0..] == view.ids;
      var first := PairFrom(view, r, 0, r0, b0);
      PairIds(n, now, view, r, 0, m, r0, b0, told);
      var a := SeeIds(now, view, r, 0);
      if a.0 == None {
        PairRounds(n, a.1, view, r + 1, hi, m, r0, b0, told || first);
      }
      PairThen(a, SeeRounds(a.1, view, r + 1, hi), m, r0, b0, told, first, r + 1 <= r0 <= hi && b0 in view.ids);
    }
  }

  /**
   An observation in which both votes of one slot are news passes exactly when the checks before the scan pass
   and neither slot holds another block: a prevote against an earlier precommit goes unreported.
   */
  lemma ObservePair(n: NodeId, m: Memory, view: View, afterRestart: bool, r: nat, b: Block)
    requires PairFamiliar(n, view, m, r, b) && b in view.ids && r <= Window(m, view)
    ensures
      var out, h := ObserveAll(m, view, afterRestart), b.Height();
      && (out.0 == None <==>
            Calm(m, view, afterRestart) && SlotFits(m.sentPc, h, r, b) && SlotFits(m.seenPv, h, r, b))
      && (out.0 == None ==> Like(out.1, TellBoth(m, h, r, b).1))
  {
    BothExactly(m, b.Height(), r, b);
    var m1 := Finalized(m, view).1;
    if Calm(m, view, afterRestart) {
      assert Like(m1, m) && m1.maxRound == m.maxRound;
      PairRounds(n, m1, view, 0, Window(m, view), m, r, b, false);
    }
  }

  // ---------------------------------------------------------------- a fork no observation reports

  lemma MoreTrace(cfg: Config, trace: seq<Event>, e: Event)
    requires Lawful(cfg, trace) && Guarded(cfg, LogOf(trace), e)
    ensures Lawful(cfg, trace + [e]) && LogOf(trace + [e]) == LogOf(trace) + if e.Cast? then [e.vote] else []
  {
    var more := trace + [e];
    assert more[..|trace|] == trace;
    forall k: nat
      ensures LawfulAt(cfg, more, k)
    {
      assert LawfulAt(cfg, trace, k);
      if k < |trace| {
        assert more[..k] == trace[..k];
      }
    }
  }

  lemma MorePasses(trace: seq<Event>, e: Event, n: NodeId)
    requires Passes(trace, n) && Notice(After(trace, n), n, e).0 == None
    ensures Passes(trace + [e], n) && After(trace + [e], n) == Notice(After(trace, n), n, e).1
  {
    var more := trace + [e];
    assert more[..|trace|] == trace;
    forall k: nat
      ensures PassesAt(more, k, n)
    {
      assert PassesAt(trace, k, n);
      if k < |trace| {
        assert more[..k] == trace[..k];
      }
    }
  }

  /** One validator. */
  function Alone(n: NodeId): Config
  {
    Config({}, (_: Block) => {n})
  }

  lemma AloneCounts(n: NodeId, log: seq<Vote>, r: nat, b: Block)
    requires b.Child?
    ensures Prevote(n, r, b) in log ==> Polka(Alone(n), log, r, b)
    ensures Precommit(n, r, b) in log ==> Committed(Alone(n), log, r, b)
    ensures FewFaults(Alone(n))
  {
    var cfg := Alone(n);
    if Prevote(n, r, b) in log {
      assert PrevoteSigners(cfg, log, r, b) == {n};
    }
    if Precommit(n, r, b) in log {
      assert PrecommitSigners(cfg, log, r, b) == {n};
    }
  }

  /** Both votes of the slot, and then an observation. */
  function Burst(n: NodeId, r: nat, b: Block, view: View): seq<Event>
  {
    [Cast(Prevote(n, r, b)), Cast(Precommit(n, r, b)), Look(n, view, false)]
  }

  ghost predicate RoundsUpTo(log: seq<Vote>, r: nat)
  {
    forall w :: w in log ==> w.round <= r
  }

  lemma VoteGuarded(n: NodeId, log: seq<Vote>, v: Vote)
    requires v.node == n && v.block.Child? && v.block.parent == Genesis && RoundsUpTo(log, v.round)
    requires v.Precommit? ==> Prevote(n, v.round, v.block) in log
    ensures Guarded(Alone(n), log, Cast(v))
  {
    AloneCounts(n, log, v.round, v.block);
  }

  lemma BurstLawful(n: NodeId, trace: seq<Event>, r: nat, b: Block, view: View)
    requires Lawful(Alone(n), trace) && b.Child? && b.parent == Genesis && RoundsUpTo(LogOf(trace), r)
    requires Truthful(LogOf(trace) + [Prevote(n, r, b), Precommit(n, r, b)], n, view)
    ensures Lawful(Alone(n), trace + Burst(n, r, b, view))
    ensures LogOf(trace + Burst(n, r, b, view)) == LogOf(trace) + [Prevote(n, r, b), Precommit(n, r, b)]
  {
    var cfg, log, pv, pc := Alone(n), LogOf(trace), Prevote(n, r, b), Precommit(n, r, b);
    VoteGuarded(n, log, pv);
    var t1 := trace + [Cast(pv)];
    MoreTrace(cfg, trace, Cast(pv));
    VoteGuarded(n, log + [pv], pc);
    var t2 := t1 + [Cast(pc)];
    MoreTrace(cfg, t1, Cast(pc));
    assert log + [pv] + [pc] == log + [pv, pc];
    MoreTrace(cfg, t2, Look(n, view, false));
    assert t2 + [Look(n, view, false)] == trace + Burst(n, r, b, view);
  }

  lemma BurstPasses(n: NodeId, trace: seq<Event>, r: nat, b: Block, view: View, k: NodeId)
    requires Passes(trace, k) && (k == n ==> ObserveAll(After(trace, n), view, false).0 == None)
    ensures Passes(trace + Burst(n, r, b, view), k)
    ensures After(trace + Burst(n, r, b, view), k) ==
            if k == n then ObserveAll(After(trace, n), view, false).1 else After(trace, k)
  {
    var t1 := trace + [Cast(Prevote(n, r, b))];
    MorePasses(trace, Cast(Prevote(n, r, b)), k);
    var t2 := t1 + [Cast(Precommit(n, r, b))];
    MorePasses(t1, Cast(Precommit(n, r, b)), k);
    MorePasses(t2, Look(n, view, false), k);
    assert t2 + [Look(n, view, false)] == trace + Burst(n, r, b, view);
  }

  const FIRST: Block := Child(Genesis, 0, 0)
  const SECOND: Block := Child(Genesis, 1, 1)

  function ViewOf(slots: set<(nat, Block)>, round: nat): View
  {
    View(0, 0, Genesis, None, slots, slots, [FIRST, SECOND], round)
  }

  /** Prevote and precommit of one block in round 0, an observation, the same for a sibling in round 1. */
  function ForkTrace(n: NodeId): seq<Event>
  {
    Burst(n, 0, FIRST, ViewOf({(0, FIRST)}, 0)) + Burst(n, 1, SECOND, ViewOf({(0, FIRST), (1, SECOND)}, 1))
  }

  /** A view at height 0 leaves the oracle at height 0. */
  lemma StaysLow(m: Memory, slots: set<(nat, Block)>, round: nat)
    requires m.maxHeight == 0 && m.finalized == map[] && ObserveAll(m, ViewOf(slots, round), false).0 == None
    ensures
      var m' := ObserveAll(m, ViewOf(slots, round), false).1;
      m'.maxHeight == 0 && m'.finalized == map[]
  {
    var view := ViewOf(slots, round);
    RoundsKeepHeights(Finalized(m, view).1, view, 0, Window(m, view));
  }

  lemma FirstSeen(n: NodeId)
    ensures
      var out := ObserveAll(EMPTY, ViewOf({(0, FIRST)}, 0), false);
      && out.0 == None && out.1.pol == map[] && out.1.sentPc == map[(1, 0) := FIRST]
         && out.1.seenPv == map[(1, 0) := FIRST]
      && out.1.finalized == map[] && out.1.maxHeight == 0
  {
    var view := ViewOf({(0, FIRST)}, 0);
    assert FIRST.Height() == 1 && SECOND.Height() == 1;
    assert PairFamiliar(n, view, EMPTY, 0, FIRST);
    ObservePair(n, EMPTY, view, false, 0, FIRST);
    BothExactly(EMPTY, 1, 0, FIRST);
    StaysLow(EMPTY, {(0, FIRST)}, 0);
  }

  /** The prevote of the sibling breaks the lock rule, and the observation passes. */
  lemma SecondSeen(n: NodeId, m: Memory)
    requires m.sentPc == map[(1, 0) := FIRST] && m.seenPv == map[(1, 0) := FIRST] && m.pol == map[]
    requires m.finalized == map[] && m.maxHeight == 0
    ensures See(m, 1, 1, SECOND).0 == Some(LockRuleBroken)
    ensures ObserveAll(m, ViewOf({(0, FIRST), (1, SECOND)}, 1), false).0 == None
  {
    var view := ViewOf({(0, FIRST), (1, SECOND)}, 1);
    assert FIRST.Height() == 1 && SECOND.Height() == 1;
    assert PairFamiliar(n, view, m, 1, SECOND);
    ObservePair(n, m, view, false, 1, SECOND);
    assert Latest(m.sentPc, 1, 1) == Some(0);
  }

  /**
   The condition that each vote is observed before the next cannot be dropped: here the guards hold and every
   observation passes, and a single correct validator commits two siblings.
   */
  lemma WatchedNeeded(n: NodeId)
    ensures
      var cfg, trace := Alone(n), ForkTrace(n);
      && FewFaults(cfg) && Lawful(cfg, trace) && (forall k :: Passes(trace, k)) && !Watched(trace)
      && Committed(cfg, LogOf(trace), 0, FIRST) && Committed(cfg, LogOf(trace), 1, SECOND)
      && FIRST.Height() == SECOND.Height() && FIRST != SECOND
  {
    var cfg, v1, v2 := Alone(n), ViewOf({(0, FIRST)}, 0), ViewOf({(0, FIRST), (1, SECOND)}, 1);
    var t1 := Burst(n, 0, FIRST, v1);
    assert [] + t1 == t1 && t1 + Burst(n, 1, SECOND, v2) == ForkTrace(n);
    ForkLawful(n, v1, v2);
    var log := LogOf(ForkTrace(n));
    AloneCounts(n, log, 0, FIRST);
    AloneCounts(n, log, 1, SECOND);
    forall k
      ensures Passes(ForkTrace(n), k)
    {
      ForkPasses(n, v1, v2, k);
    }
    if Watched(ForkTrace(n)) {
      OracleImpliesAgreement(cfg, ForkTrace(n), 0, FIRST, 1, SECOND);
    }
  }

  lemma ForkLawful(n: NodeId, v1: View, v2: View)
    requires v1 == ViewOf({(0, FIRST)}, 0) && v2 == ViewOf({(0, FIRST), (1, SECOND)}, 1)
    ensures Lawful(Alone(n), ForkTrace(n))
    ensures LogOf(ForkTrace(n))
            == [Prevote(n, 0, FIRST), Precommit(n, 0, FIRST), Prevote(n, 1, SECOND), Precommit(n, 1, SECOND)]
  {
    var t1 := Burst(n, 0, FIRST, v1);
    var log := [Prevote(n, 0, FIRST), Precommit(n, 0, FIRST)];
    assert FIRST.Height() == 1 && SECOND.Height() == 1;
    assert LogOf([]) == [] && [] + t1 == t1 && [] + log == log;
    BurstLawful(n, [], 0, FIRST, v1);
    BurstLawful(n, t1, 1, SECOND, v2);
  }

  lemma ForkPasses(n: NodeId, v1: View, v2: View, k: NodeId)
    requires v1 == ViewOf({(0, FIRST)}, 0) && v2 == ViewOf({(0, FIRST), (1, SECOND)}, 1)
    ensures Passes(ForkTrace(n), k)
  {
    var t1 := Burst(n, 0, FIRST, v1);
    assert [] + t1 == t1 && After([], k) == EMPTY;
    FirstSeen(n);
    BurstPasses(n, [], 0, FIRST, v1, k);
    SecondSeen(n, ObserveAll(EMPTY, v1, false).1);
    BurstPasses(n, t1, 1, SECOND, v2, k);
  }
}
