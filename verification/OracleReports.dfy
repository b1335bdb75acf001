/**
 What each report of the fuzzer's oracle means, said of the observation and the memory alone, and what follows
 for a node whose observations all pass: its heights never fall and no height changes its block.
 */
module OracleReports {
  import opened Options
  import opened Blocks
  import opened VoteLog
  import opened FuzzOracle
  import opened OracleScan
  import opened OracleAgreement
  import opened OracleViews

  // ---------------------------------------------------------------- which rule a report comes from

  predicate VoteRule(v: Option<Violation>)
  {
    v == None || v == Some(DoublePrecommit) || v == Some(DoublePrevote) || v == Some(LockRuleBroken)
  }

  lemma {:induction false} IdsReport(m: FuzzOracle.Memory, v: View, r: nat, i: nat)
    requires i <= |v.ids|
    ensures VoteRule(SeeIds(m, v, r, i).0)
    decreases |v.ids| - i
  {
    if i < |v.ids| {
      IdsReport(SeeSlot(m, v, r, v.ids[i]).1, v, r, i + 1);
    }
  }

  lemma {:induction false} RoundsReport(m: FuzzOracle.Memory, v: View, r: nat, hi: nat)
    requires r <= hi + 1
    ensures VoteRule(SeeRounds(m, v, r, hi).0)
    decreases hi + 1 - r
  {
    if r <= hi {
      IdsReport(m, v, r, 0);
      RoundsReport(SeeIds(m, v, r, 0).1, v, r + 1, hi);
    }
  }

  /** The view's height is below one reported before, or has another block than one reported for it. */
  predicate RollsBack(m: FuzzOracle.Memory, v: View)
  {
    v.height < m.maxHeight || (v.height > 0 && v.height in m.finalized && m.finalized[v.height] != v.tip)
  }

  /** A remembered precommit of the open height that the lock does not account for. */
  ghost predicate LostPrecommit(m: FuzzOracle.Memory, v: View)
  {
    var h := v.height + 1;
    exists r :: (h, r) in m.sentPc && !Explained(v.lock, m.sentPc[(h, r)], r)
  }

  /** A lock of a later round, or on this very precommit. */
  predicate Explained(lock: Option<(Block, nat)>, b: Block, r: nat)
  {
    lock.Some? && (lock.value.1 > r || lock.value == (b, r))
  }

  /** A remembered prevote of the open height that is not on record. */
  ghost predicate LostPrevote(m: FuzzOracle.Memory, v: View)
  {
    var h := v.height + 1;
    exists r :: (h, r) in m.seenPv && (r, m.seenPv[(h, r)]) !in v.prevotes
  }

  lemma DurableMeans(m: FuzzOracle.Memory, v: View)
    ensures FuzzOracle.Durable(m, v) ==
            if LostPrecommit(m, v) then Some(PrecommitNotDurable)
            else if LostPrevote(m, v) then Some(PrevoteNotDurable) else None
  {
    var h := v.height + 1;
    if LostPrecommit(m, v) {
      var r :| (h, r) in m.sentPc && !Explained(v.lock, m.sentPc[(h, r)], r);
      assert !FuzzOracle.Covered(v, (h, r).1, m.sentPc[(h, r)]);
    } else {
      forall s | s in m.sentPc && s.0 == h
        ensures FuzzOracle.Covered(v, s.1, m.sentPc[s])
      {
        assert (h, s.1) == s && (h, s.1) in m.sentPc;
      }
      if LostPrevote(m, v) {
        var r :| (h, r) in m.seenPv && (r, m.seenPv[(h, r)]) !in v.prevotes;
        assert ((h, r).1, m.seenPv[(h, r)]) !in v.prevotes;
      } else {
        forall s | s in m.seenPv && s.0 == h
          ensures (s.1, m.seenPv[s]) in v.prevotes
        {
          assert (h, s.1) == s && (h, s.1) in m.seenPv;
        }
      }
    }
  }

  lemma FinalizedMeans(m: FuzzOracle.Memory, v: View)
    ensures Finalized(m, v).0 == if RollsBack(m, v) then Some(FinalityBroken) else None
    ensures !RollsBack(m, v) ==>
      var m1 := Finalized(m, v).1;
      m1.sentPc == m.sentPc && m1.seenPv == m.seenPv && m1.maxHeight == v.height
  {
  }

  /**
   An observation reports, in this order: a signature after the fail-stop, a height that rolled back or changed
   its block, after a restart a precommit or else a prevote that is no longer on record; then only the vote rules.
   */
  lemma ReportExactly(m: FuzzOracle.Memory, v: View, restarted: bool)
    ensures
      var out := ObserveAll(m, v, restarted).0;
      && (out == Some(SignedAfterFailStop) <==> v.late > 0)
      && (out == Some(FinalityBroken) <==> v.late == 0 && RollsBack(m, v))
      && (out == Some(PrecommitNotDurable) <==> v.late == 0 && !RollsBack(m, v) && restarted && LostPrecommit(m, v))
      && (out == Some(PrevoteNotDurable) <==>
            v.late == 0 && !RollsBack(m, v) && restarted && !LostPrecommit(m, v) && LostPrevote(m, v))
  {
    var m1 := Finalized(m, v).1;
    FinalizedMeans(m, v);
    if v.late == 0 && !RollsBack(m, v) {
      DurableMeans(m1, v);
      assert LostPrecommit(m1, v) == LostPrecommit(m, v) && LostPrevote(m1, v) == LostPrevote(m, v);
      RoundsReport(m1, v, 0, Window(m1, v));
    }
  }

  // ---------------------------------------------------------------- heights over a trace

  lemma HeightsAfter(m: FuzzOracle.Memory, v: View, restarted: bool)
    requires ObserveAll(m, v, restarted).0 == None
    ensures
      var m' := ObserveAll(m, v, restarted).1;
      m'.maxHeight == v.height && m'.finalized == if v.height > 0 then m.finalized[v.height := v.tip] else m.finalized
  {
    ReportExactly(m, v, restarted);
    var m1 := Finalized(m, v).1;
    RoundsKeepHeights(m1, v, 0, Window(m1, v));
  }

  /** The observation is remembered: no later one can pass below it or with another block. */
  predicate Pinned(m: FuzzOracle.Memory, v: View)
  {
    m.maxHeight >= v.height && (v.height > 0 ==> v.height in m.finalized && m.finalized[v.height] == v.tip)
  }

  lemma PinnedNext(m: FuzzOracle.Memory, n: NodeId, e: Event, v: View)
    requires Pinned(m, v) && Notice(m, n, e).0 == None
    ensures Pinned(Notice(m, n, e).1, v)
  {
    if e.Look? && e.node == n {
      ReportExactly(m, e.view, e.restarted);
      HeightsAfter(m, e.view, e.restarted);
    }
  }

  lemma PrefixAfter(trace: seq<Event>, j: nat, n: NodeId)
    requires j < |trace|
    ensures After(trace[..j + 1], n) == Notice(After(trace[..j], n), n, trace[j]).1
  {
    assert trace[..j + 1][..j] == trace[..j];
  }

  lemma {:induction false} StaysPinned(trace: seq<Event>, n: NodeId, i: nat, j: nat)
    requires Passes(trace, n) && i < j <= |trace| && trace[i].Look? && trace[i].node == n
    ensures Pinned(After(trace[..j], n), trace[i].view)
    decreases j
  {
    assert PassesAt(trace, j - 1, n);
    PrefixAfter(trace, j - 1, n);
    if j == i + 1 {
      HeightsAfter(After(trace[..i], n), trace[i].view, trace[i].restarted);
    } else {
      StaysPinned(trace, n, i, j - 1);
      PinnedNext(After(trace[..j - 1], n), n, trace[j - 1], trace[i].view);
    }
  }

  /** Over observations that all pass, reported heights never fall and each height keeps its block. */
  lemma HeightsNeverFall(trace: seq<Event>, n: NodeId, i: nat, j: nat)
    requires Passes(trace, n) && i < j < |trace|
    requires trace[i].Look? && trace[i].node == n && trace[j].Look? && trace[j].node == n
    ensures trace[i].view.height <= trace[j].view.height
    ensures trace[i].view.height == trace[j].view.height > 0 ==> trace[i].view.tip == trace[j].view.tip
  {
    StaysPinned(trace, n, i, j);
    assert PassesAt(trace, j, n);
    ReportExactly(After(trace[..j], n), trace[j].view, trace[j].restarted);
  }

  // ---------------------------------------------------------------- the window of rounds

  /** A prevote the scan of these rounds and ids comes across. */
  ghost predicate Scanned(v: View, lo: nat, hi: nat, i: nat, r: nat)
    requires i <= |v.ids|
  {
    lo <= r <= hi && exists j :: i <= j < |v.ids| && (r, v.ids[j]) in v.prevotes
  }

  /** The greatest round is the old one or that of the latest prevote scanned. */
  ghost predicate RoundFollows(m: FuzzOracle.Memory, m': FuzzOracle.Memory, v: View, lo: nat, hi: nat, i: nat)
    requires i <= |v.ids|
  {
    && m.maxRound <= m'.maxRound && (forall r: nat :: Scanned(v, lo, hi, i, r) ==> r <= m'.maxRound)
    && (m'.maxRound == m.maxRound || Scanned(v, lo, hi, i, m'.maxRound))
  }

  lemma SlotRound(m: FuzzOracle.Memory, v: View, r: nat, b: Block)
    requires SeeSlot(m, v, r, b).0 == None
    ensures SeeSlot(m, v, r, b).1.maxRound == if (r, b) in v.prevotes && m.maxRound < r then r else m.maxRound
  {
  }

  lemma {:induction false} IdsRound(m: FuzzOracle.Memory, v: View, r: nat, i: nat)
    requires i <= |v.ids| && SeeIds(m, v, r, i).0 == None
    ensures RoundFollows(m, SeeIds(m, v, r, i).1, v, r, r, i)
    decreases |v.ids| - i
  {
    if i < |v.ids| {
      var m1 := SeeSlot(m, v, r, v.ids[i]).1;
      SlotRound(m, v, r, v.ids[i]);
      IdsRound(m1, v, r, i + 1);
      assert Scanned(v, r, r, i, r) <==> (r, v.ids[i]) in v.prevotes || Scanned(v, r, r, i + 1, r);
    }
  }

  lemma {:induction false} RoundsRound(m: FuzzOracle.Memory, v: View, r: nat, hi: nat)
    requires r <= hi + 1 && SeeRounds(m, v, r, hi).0 == None
    ensures RoundFollows(m, SeeRounds(m, v, r, hi).1, v, r, hi, 0)
    decreases hi + 1 - r
  {
    if r <= hi {
      var m1 := SeeIds(m, v, r, 0).1;
      IdsRound(m, v, r, 0);
      RoundsRound(m1, v, r + 1, hi);
      assert forall q: nat :: Scanned(v, r, hi, 0, q) <==> Scanned(v, r, r, 0, q) || Scanned(v, r + 1, hi, 0, q);
    }
  }

  /**
   A passing observation scans every round up to six past the greatest one known, the node's current one
   included, and afterwards knows the round of every prevote it came across.
   */
  lemma WindowFollows(m: FuzzOracle.Memory, v: View, restarted: bool)
    requires ObserveAll(m, v, restarted).0 == None
    ensures
      var hi := 6 + if v.currentRound > m.maxRound then v.currentRound else m.maxRound;
      RoundFollows(m, ObserveAll(m, v, restarted).1, v, 0, hi, 0)
  {
    var m1 := Finalized(m, v).1;
    RoundsRound(m1, v, 0, Window(m1, v));
  }
}
