/**
 What one observation of the fuzzer's oracle does: when every vote the view shows is remembered already,
 but for one at most, the whole scan amounts to telling the oracle that one vote.
 */
module OracleScan {
  import opened Options
  import opened Blocks
  import opened VoteLog
  import opened FuzzOracle

  /** The vote rules on one own vote. */
  function Tell(m: Memory, v: Vote): (Option<Violation>, Memory)
  {
    if v.Prevote? then See(m, v.block.Height(), v.round, v.block) else Mark(m, v.block.Height(), v.round, v.block)
  }

  predicate Recorded(m: Memory, v: Vote)
  {
    var s := (v.block.Height(), v.round);
    if v.Prevote? then s in m.seenPv && m.seenPv[s] == v.block else s in m.sentPc && m.sentPc[s] == v.block
  }

  /** The same votes and proofs of lock; heights and rounds seen may differ. */
  predicate Like(a: Memory, b: Memory)
  {
    a.sentPc == b.sentPc && a.seenPv == b.seenPv && a.pol == b.pol
  }

  /** The view shows the vote in this slot. */
  predicate Holds(view: View, r: nat, b: Block, v: Vote)
  {
    && v.round == r && v.block == b && b.Height() == view.height + 1
    && (r, b) in if v.Prevote? then view.prevotes else view.precommits
  }

  predicate HoldsFrom(view: View, r: nat, i: nat, v: Vote)
  {
    exists j :: i <= j < |view.ids| && Holds(view, r, view.ids[j], v)
  }

  predicate Shows(view: View, lo: nat, hi: nat, v: Vote)
  {
    lo <= v.round <= hi && HoldsFrom(view, v.round, 0, v)
  }

  /** Every known id is of the open height, and every vote shown under one is remembered or the new one. */
  ghost predicate Familiar(n: NodeId, view: View, m: Memory, v: Option<Vote>)
  {
    && (forall j :: 0 <= j < |view.ids| ==> view.ids[j].Height() == view.height + 1)
    && (forall r, j :: 0 <= j < |view.ids| && (r, view.ids[j]) in view.precommits ==>
          Recorded(m, Precommit(n, r, view.ids[j])) || v == Some(Precommit(n, r, view.ids[j])))
    && (forall r, j :: 0 <= j < |view.ids| && (r, view.ids[j]) in view.prevotes ==>
          Recorded(m, Prevote(n, r, view.ids[j])) || v == Some(Prevote(n, r, view.ids[j])))
  }

  /** The scan so far: the new vote told, or not yet. */
  ghost predicate Stage(now: Memory, m: Memory, v: Option<Vote>, told: bool)
  {
    if told then v.Some? && Tell(m, v.value).0 == None && Like(now, Tell(m, v.value).1) else Like(now, m)
  }

  predicate SlotHas(view: View, r: nat, b: Block, v: Option<Vote>)
  {
    v.Some? && Holds(view, r, b, v.value)
  }

  predicate IdsHave(view: View, r: nat, i: nat, v: Option<Vote>)
  {
    v.Some? && HoldsFrom(view, r, i, v.value)
  }

  predicate RoundsHave(view: View, lo: nat, hi: nat, v: Option<Vote>)
  {
    v.Some? && Shows(view, lo, hi, v.value)
  }

  // ---------------------------------------------------------------- one slot

  /** Telling the same vote to like memories gives like answers. */
  lemma TellLike(now: Memory, m: Memory, v: Vote)
    requires Like(now, m)
    ensures Tell(now, v).0 == Tell(m, v).0 && Like(Tell(now, v).1, Tell(m, v).1)
  {
  }

  lemma TellTwice(now: Memory, m: Memory, v: Vote)
    requires Tell(m, v).0 == None && Like(now, Tell(m, v).1)
    ensures Tell(now, v).0 == None && Like(Tell(now, v).1, now)
  {
  }

  lemma TellKnown(now: Memory, w: Vote)
    requires Recorded(now, w)
    ensures Tell(now, w).0 == None && Like(Tell(now, w).1, now)
  {
  }

  lemma StaysRecorded(m: Memory, v: Vote, w: Vote)
    requires Recorded(m, w) && Tell(m, v).0 == None
    ensures Recorded(Tell(m, v).1, w)
  {
  }

  /** One shown vote w of the scan: the new one, or one remembered. */
  lemma TellShown(now: Memory, m: Memory, v: Option<Vote>, told: bool, w: Vote)
    requires Stage(now, m, v, told) && (Recorded(m, w) || v == Some(w))
    ensures Tell(now, w).0 == None <==> v == Some(w) ==> Tell(m, w).0 == None
    ensures Tell(now, w).0 == None ==> Stage(Tell(now, w).1, m, v, told || v == Some(w))
  {
    if v == Some(w) {
      if told {
        TellTwice(now, m, w);
      } else {
        TellLike(now, m, w);
      }
    } else if told {
      StaysRecorded(m, v.value, w);
      assert Recorded(now, w);
      TellKnown(now, w);
    } else {
      assert Recorded(now, w);
      TellKnown(now, w);
    }
  }

  ghost predicate SlotFamiliar(n: NodeId, view: View, r: nat, b: Block, m: Memory, v: Option<Vote>)
  {
    && b.Height() == view.height + 1
    && ((r, b) in view.precommits ==> Recorded(m, Precommit(n, r, b)) || v == Some(Precommit(n, r, b)))
    && ((r, b) in view.prevotes ==> Recorded(m, Prevote(n, r, b)) || v == Some(Prevote(n, r, b)))
  }

  /** The outcome of a stretch of the scan that holds the new vote iff `has`. */
  ghost predicate Outcome(out: (Option<Violation>, Memory), m: Memory, v: Option<Vote>, told: bool, has: bool)
  {
    && (out.0 == None <==> (has ==> v.Some? && Tell(m, v.value).0 == None))
    && (out.0 == None ==> Stage(out.1, m, v, told || has))
  }

  lemma SlotScan(n: NodeId, now: Memory, view: View, r: nat, b: Block, m: Memory, v: Option<Vote>, told: bool)
    requires Stage(now, m, v, told) && SlotFamiliar(n, view, r, b, m, v) && (v.Some? ==> v.value.node == n)
    ensures Outcome(SeeSlot(now, view, r, b), m, v, told, SlotHas(view, r, b, v))
  {
    var pc, pv := Precommit(n, r, b), Prevote(n, r, b);
    var mid, told1 := now, told;
    if (r, b) in view.precommits {
      TellShown(now, m, v, told, pc);
      mid, told1 := Tell(now, pc).1, told || v == Some(pc);
    }
    if Stage(mid, m, v, told1) && (r, b) in view.prevotes {
      TellShown(mid, m, v, told1, pv);
    }
  }

  // ---------------------------------------------------------------- ids and rounds

  /** Two stretches one after the other. */
  lemma Then(a: (Option<Violation>, Memory), b: (Option<Violation>, Memory), m: Memory, v: Option<Vote>, told: bool,
             first: bool, second: bool)
    requires Outcome(a, m, v, told, first) && (a.0 == None ==> Outcome(b, m, v, told || first, second))
    ensures Outcome(if a.0.Some? then a else b, m, v, told, first || second)
  {
  }

  lemma {:induction false} IdsScan(n: NodeId, now: Memory, view: View, r: nat, i: nat, m: Memory, v: Option<Vote>,
                                   told: bool)
    requires i <= |view.ids| && Stage(now, m, v, told) && Familiar(n, view, m, v) && (v.Some? ==> v.value.node == n)
    ensures Outcome(SeeIds(now, view, r, i), m, v, told, IdsHave(view, r, i, v))
    decreases |view.ids| - i
  {
    if i < |view.ids| {
      var b := view.ids[i];
      var first := SlotHas(view, r, b, v);
      SlotScan(n, now, view, r, b, m, v, told);
      var a := SeeSlot(now, view, r, b);
      if a.0 == None {
        IdsScan(n, a.1, view, r, i + 1, m, v, told || first);
      }
      Then(a, SeeIds(a.1, view, r, i + 1), m, v, told, first, IdsHave(view, r, i + 1, v));
      assert IdsHave(view, r, i, v) <==> first || IdsHave(view, r, i + 1, v);
    }
  }

  lemma {:induction false} RoundsScan(n: NodeId, now: Memory, view: View, r: nat, hi: nat, m: Memory, v: Option<Vote>,
                                      told: bool)
    requires r <= hi + 1 && Stage(now, m, v, told) && Familiar(n, view, m, v) && (v.Some? ==> v.value.node == n)
    ensures Outcome(SeeRounds(now, view, r, hi), m, v, told, RoundsHave(view, r, hi, v))
    decreases hi + 1 - r
  {
    if r <= hi {
      var first := IdsHave(view, r, 0, v);
      IdsScan(n, now, view, r, 0, m, v, told);
      var a := SeeIds(now, view, r, 0);
      if a.0 == None {
        RoundsScan(n, a.1, view, r + 1, hi, m, v, told || first);
      }
      Then(a, SeeRounds(a.1, view, r + 1, hi), m, v, told, first, RoundsHave(view, r + 1, hi, v));
      assert RoundsHave(view, r, hi, v) <==> first || RoundsHave(view, r + 1, hi, v) by {
        RoundsSplit(view, r, hi, v);
      }
    }
  }

  lemma RoundsSplit(view: View, r: nat, hi: nat, v: Option<Vote>)
    requires r <= hi
    ensures RoundsHave(view, r, hi, v) <==> IdsHave(view, r, 0, v) || RoundsHave(view, r + 1, hi, v)
  {
    if IdsHave(view, r, 0, v) {
      assert v.value.round == r;
    }
  }

  // ---------------------------------------------------------------- a whole observation

  /** The last round the scan looks at. */
  function Window(m: Memory, view: View): nat
  {
    (if view.currentRound > m.maxRound then view.currentRound else m.maxRound) + ROUNDS
  }

  predicate Visible(m: Memory, view: View, v: Vote)
  {
    Shows(view, 0, Window(m, view), v)
  }

  /** The rules an observation checks before its scan: fail-stop, finality, durability. */
  ghost predicate Calm(m: Memory, view: View, afterRestart: bool)
  {
    && view.late == 0 && Finalized(m, view).0 == None
    && (afterRestart ==> Durable(Finalized(m, view).1, view) == None)
  }

  /**
   An observation in which at most one vote is news passes exactly when the checks before the scan pass and,
   if that vote is visible, telling it passes; the oracle then remembers it.
   */
  lemma ObserveScan(n: NodeId, m: Memory, view: View, afterRestart: bool, v: Option<Vote>)
    requires Familiar(n, view, m, v) && (v.Some? ==> v.value.node == n)
    ensures
      var out := ObserveAll(m, view, afterRestart);
      var seen := v.Some? && Visible(m, view, v.value);
      && (out.0 == None <==> Calm(m, view, afterRestart) && (seen ==> Tell(m, v.value).0 == None))
      && (out.0 == None ==> Like(out.1, if seen then Tell(m, v.value).1 else m))
  {
    var m1 := Finalized(m, view).1;
    if Calm(m, view, afterRestart) {
      assert Like(m1, m) && m1.maxRound == m.maxRound;
      RoundsScan(n, m1, view, 0, Window(m, view), m, v, false);
    }
  }
}
