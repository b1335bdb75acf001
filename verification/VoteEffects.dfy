/**
 What a vote leaves behind (src/node/node_consensus.cpp): which votes can be sent again, which precommits are taken as
 sent, and what a proposal or a polka changes in the database.
 */
module VoteEffects {
  import opened Options
  import opened Blocks
  import opened VoteLog
  import opened VotingNode
  import opened Finality

  /** The memory beside votes and locks: what was sent can be sent again, and a precommit is sent once. */
  ghost predicate Kept(was: Memory, now: Memory, h: nat, emitted: Option<Vote>)
  {
    && now.outbox == was.outbox + (if emitted.Some? then {emitted.value} else {})
    && now.reservations ==
       was.reservations + (if emitted.Some? && emitted.value.Precommit? then {(h, emitted.value.round)} else {})
    && now.tip == was.tip && now.timedOut == was.timedOut && now.abstain == was.abstain
  }

  /** The database: only the height's row changes, and the mark moves to it or not at all. */
  ghost predicate Stored(was: Disk, now: Disk, h: nat)
  {
    && now.tip == was.tip && now.quarantine == was.quarantine
    && (forall k :: k != h ==> RowAt(now.rows, k) == RowAt(was.rows, k))
    && (now.highwater == was.highwater || now.highwater == h > was.highwater)
    && (now.rows != was.rows ==> h in now.rows && h <= now.highwater)
  }

  // ---------------------------------------------------------------- the database

  lemma RowWritten(d: Disk, h: nat, row: SafetyRow)
    ensures Stored(d, Disk(d.tip, d.rows[h := row], d.quarantine, if h > d.highwater then h else d.highwater), h)
  {
  }

  lemma PersistStores(s: NodeState, h: nat, row: SafetyRow, w: Write)
    ensures Stored(s.disk, Persist(s, h, row, w).disk, h)
  {
    RowWritten(s.disk, h, row);
  }

  lemma StoredTwice(a: Disk, b: Disk, c: Disk, h: nat)
    requires Stored(a, b, h) && Stored(b, c, h)
    ensures Stored(a, c, h)
  {
  }

  lemma PrevoteStores(n: NodeId, s: NodeState, r: nat, b: Block, w: Write)
    ensures Stored(s.disk, RecordPrevote(n, s, r, b, w).state.disk, b.Height())
  {
    var h := b.Height();
    var row := RowOf(s.mem, h).(prevotes := RowOf(s.mem, h).prevotes[r := b]);
    assert RecordPrevote(n, s, r, b, w).state.disk == Persist(s, h, row, w).disk;
    PersistStores(s, h, row, w);
  }

  lemma LockStores(n: NodeId, s: NodeState, r: nat, b: Block, w: Write)
    ensures Stored(s.disk, LockAndPrecommit(n, s, r, b, w).state.disk, b.Height())
  {
    var h := b.Height();
    if !s.mem.failed && !(h in s.mem.locks && r <= s.mem.locks[h].round) {
      var row := RowOf(s.mem, h).(lock := Some(Lock(b, r)));
      PersistStores(s, h, row, w);
      assert LockAndPrecommit(n, s, r, b, w).state.disk == Persist(s, h, row, w).disk;
    } else {
      assert LockAndPrecommit(n, s, r, b, w).state.disk == s.disk;
    }
  }

  lemma NoteStores(s: NodeState, r: nat, b: Block, w: Write)
    ensures Stored(s.disk, NoteValidPolka(s, r, b, w).disk, b.Height())
  {
    var h := b.Height();
    var row := RowOf(s.mem, h).(validPolka := Some(Lock(b, r)));
    var d := NoteValidPolka(s, r, b, w).disk;
    assert d == s.disk || d == Persist(s, h, row, w).disk;
    PersistStores(s, h, row, w);
  }

  lemma PolkaStores(n: NodeId, member: bool, s: NodeState, r: nat, b: Block, ready: bool, w: Write, w2: Write)
    ensures Stored(s.disk, OnPolka(n, member, s, r, b, ready, w, w2).state.disk, b.Height())
  {
    var t := NoteValidPolka(s, r, b, w);
    var d, e := OnPolka(n, member, s, r, b, ready, w, w2).state.disk, LockAndPrecommit(n, t, r, b, w2).state.disk;
    assert d == s.disk || d == t.disk || d == e;
    NoteStores(s, r, b, w);
    LockStores(n, t, r, b, w2);
    StoredTwice(s.disk, t.disk, e, b.Height());
  }

  lemma ProposeStores(n: NodeId, member: bool, s: NodeState, r: nat, b: Block, pol: Option<nat>, ready: bool, w: Write)
    ensures Stored(s.disk, HandlePropose(n, member, s, r, b, pol, ready, w).state.disk, b.Height())
  {
    var t := s.(mem := s.mem.(currentRound := r));
    var d := HandlePropose(n, member, s, r, b, pol, ready, w).state.disk;
    assert d == s.disk || d == RecordPrevote(n, t, r, b, w).state.disk;
    PrevoteStores(n, t, r, b, w);
  }

  // ---------------------------------------------------------------- the memory

  lemma PrevoteKeeps(n: NodeId, s: NodeState, r: nat, b: Block, w: Write)
    ensures
      var step := RecordPrevote(n, s, r, b, w);
      Kept(s.mem, step.state.mem, b.Height(), step.emitted)
  {
  }

  /** A vote sent, and for a precommit its slot reserved; locks do not matter here. */
  lemma SentNow(mem: Memory, h: nat, v: Vote, locks: map<nat, Lock>)
    requires v.Precommit?
    ensures Kept(mem, mem.(locks := locks, reservations := mem.reservations + {(h, v.round)},
      outbox := mem.outbox + {v}),
              h, Some(v))
  {
  }

  lemma LockKeeps(n: NodeId, s: NodeState, r: nat, b: Block, w: Write)
    ensures
      var step := LockAndPrecommit(n, s, r, b, w);
      Kept(s.mem, step.state.mem, b.Height(), step.emitted)
  {
    var h, v := b.Height(), Precommit(n, r, b);
    if s.mem.failed || (h in s.mem.locks && r <= s.mem.locks[h].round && s.mem.locks[h] != Lock(b, r)) {
      assert LockAndPrecommit(n, s, r, b, w) == Silent(s);
    } else if h in s.mem.locks && s.mem.locks[h] == Lock(b, r) {
      SentNow(s.mem, h, v, s.mem.locks);
    } else {
      var p := Persist(s, h, RowOf(s.mem, h).(lock := Some(Lock(b, r))), w);
      assert p.mem == s.mem.(failed := p.mem.failed);
      SentNow(p.mem, h, v, p.mem.locks[h := Lock(b, r)]);
    }
  }

  lemma NoteKeeps(s: NodeState, r: nat, b: Block, w: Write)
    ensures Kept(s.mem, NoteValidPolka(s, r, b, w).mem, b.Height(), None)
  {
  }

  lemma KeptTwice(x: Memory, y: Memory, z: Memory, h: nat, v: Option<Vote>)
    requires Kept(x, y, h, None) && Kept(y, z, h, v)
    ensures Kept(x, z, h, v)
  {
  }

  lemma PolkaKeeps(n: NodeId, member: bool, s: NodeState, r: nat, b: Block, ready: bool, w: Write, w2: Write)
    ensures
      var step := OnPolka(n, member, s, r, b, ready, w, w2);
      Kept(s.mem, step.state.mem, b.Height(), step.emitted)
  {
    var t := NoteValidPolka(s, r, b, w);
    var step, last := OnPolka(n, member, s, r, b, ready, w, w2), LockAndPrecommit(n, t, r, b, w2);
    assert step == Silent(s) || step == Silent(t) || step == last;
    NoteKeeps(s, r, b, w);
    LockKeeps(n, t, r, b, w2);
    KeptTwice(s.mem, t.mem, last.state.mem, b.Height(), last.emitted);
  }

  lemma ProposeKeeps(n: NodeId, member: bool, s: NodeState, r: nat, b: Block, pol: Option<nat>, ready: bool, w: Write)
    ensures
      var step := HandlePropose(n, member, s, r, b, pol, ready, w);
      Kept(s.mem, step.state.mem, b.Height(), step.emitted)
  {
    var t := s.(mem := s.mem.(currentRound := r));
    var step, last := HandlePropose(n, member, s, r, b, pol, ready, w), RecordPrevote(n, t, r, b, w);
    assert step == Silent(s) || step == Silent(t) || step == last;
    PrevoteKeeps(n, t, r, b, w);
  }

  /** A proposal or a polka: what it sends stays to be sent again, and it writes nothing but the height's own row. */
  lemma VoteLeaves(cfg: Config, n: NodeId, s: NodeState, a: Action)
    requires a.Propose? || a.SeePolka?
    ensures
      var step, h := Apply(cfg, n, s, a), a.block.Height();
      Kept(s.mem, step.state.mem, h, step.emitted) && Stored(s.disk, step.state.disk, h)
  {
    var member := Member(cfg, n, s.mem.tip);
    match a
    case Propose(r, b, pol, ready, w) =>
      ProposeKeeps(n, member, s, r, b, pol, ready, w);
      ProposeStores(n, member, s, r, b, pol, ready, w);
    case SeePolka(r, b, ready, w, w2) =>
      PolkaKeeps(n, member, s, r, b, ready, w, w2);
      PolkaStores(n, member, s, r, b, ready, w, w2);
  }
}
