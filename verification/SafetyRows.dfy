/**
 The loops of load_state over the consensus safety rows (src/node/node_state.cpp): the two scans, the row
 loop with its two copies, the loop up to the highwater mark and the quarantine scan.
 */
module SafetyRows {
  import opened Options
  import opened Blocks
  import opened VotingNode

  /** What the row loop builds: restored rows with their votes, heights to quarantine, the highwater mark. */
  datatype Restored = Restored(
    rows: map<nat, SafetyRow>, locks: map<nat, Lock>, polkas: map<nat, Lock>, prevotes: map<(nat, nat), Block>,
    doubtful: set<nat>, highwater: nat)

  // ---------------------------------------------------------------- scans

  /** The scans of the primary and the mirror rows. */
  method ScanHeights(m: Media, fin: nat) returns (open: set<nat>)
    ensures open == OpenRows(m, fin)
  {
    var primary := HeightsAbove(m.primary.Keys, fin);
    var mirror := HeightsAbove(m.mirror.Keys, fin);
    open := primary + mirror;
  }

  method HeightsAbove(keys: set<nat>, fin: nat) returns (open: set<nat>)
    ensures open == set h | h in keys && h > fin
  {
    open := {};
    var rest := keys;
    while rest != {}
      invariant rest <= keys && forall h :: h in open <==> h in keys && h !in rest && h > fin
      decreases |rest|
    {
      var h: nat :| h in rest;
      if h > fin {
        open := open + {h};
      }
      rest := rest - {h};
    }
  }

  /** The scan of the quarantine rows: those of finalized heights are dropped. */
  method ScanQuarantine(rows: set<nat>, fin: nat) returns (kept: set<nat>)
    ensures kept == set h | h in rows && h > fin
  {
    kept := HeightsAbove(rows, fin);
  }

  /** Two readable copies that differ are both distrusted; otherwise the primary goes before the mirror. */
  method ReadRow(m: Media, h: nat) returns (row: Option<SafetyRow>)
    ensures row == Trusted(m, h)
  {
    var primary := if h in m.primary then m.primary[h] else None;
    var mirror := if h in m.mirror then m.mirror[h] else None;
    if primary.Some? && mirror.Some? && primary.value != mirror.value {
      return None;
    }
    if primary.Some? {
      return primary;
    }
    return mirror;
  }

  // ---------------------------------------------------------------- restoring rows

  ghost predicate Believed(rows: map<nat, SafetyRow>, m: Media, done: set<nat>)
  {
    && (forall h :: h in rows <==> h in done && Trusted(m, h).Some?)
    && forall h :: h in rows ==> rows[h] == Trusted(m, h).value
  }

  ghost predicate LocksIn(locks: map<nat, Lock>, rows: map<nat, SafetyRow>)
  {
    && (forall h :: h in locks <==> h in rows && rows[h].lock.Some?)
    && forall h :: h in locks ==> locks[h] == rows[h].lock.value
  }

  ghost predicate PolkasIn(polkas: map<nat, Lock>, rows: map<nat, SafetyRow>)
  {
    && (forall h :: h in polkas <==> h in rows && rows[h].validPolka.Some?)
    && forall h :: h in polkas ==> polkas[h] == rows[h].validPolka.value
  }

  ghost predicate PrevotesIn(prevotes: map<(nat, nat), Block>, rows: map<nat, SafetyRow>)
  {
    && (forall k :: k in prevotes <==> k.0 in rows && k.1 in rows[k.0].prevotes)
    && forall k :: k in prevotes ==> prevotes[k] == rows[k.0].prevotes[k.1]
  }

  ghost predicate VotesIn(r: Restored)
  {
    LocksIn(r.locks, r.rows) && PolkasIn(r.polkas, r.rows) && PrevotesIn(r.prevotes, r.rows)
  }

  lemma VotesAre(r: Restored)
    requires VotesIn(r)
    ensures r.locks == LocksOf(r.rows) && r.polkas == ValidPolkasOf(r.rows) && r.prevotes == PrevotesOf(r.rows)
  {
  }

  /** The prevotes of one row join those restored. */
  method AddPrevotes(all: map<(nat, nat), Block>, rows: map<nat, SafetyRow>, h: nat, row: SafetyRow)
    returns (more: map<(nat, nat), Block>)
    requires PrevotesIn(all, rows) && h !in rows
    ensures PrevotesIn(more, rows[h := row])
  {
    more := all;
    var rest := row.prevotes.Keys;
    while rest != {}
      invariant rest <= row.prevotes.Keys
      invariant forall k :: k in more <==> k in all || (k.0 == h && k.1 in row.prevotes && k.1 !in rest)
      invariant forall k :: k in more ==> more[k] == if k in all then all[k] else row.prevotes[k.1]
      decreases |rest|
    {
      var r: nat :| r in rest;
      more := more[(h, r) := row.prevotes[r]];
      rest := rest - {r};
    }
  }

  method AddRow(r: Restored, h: nat, row: SafetyRow, rewrite: bool) returns (r': Restored)
    requires VotesIn(r) && h !in r.rows
    ensures VotesIn(r') && r'.rows == r.rows[h := row] && r'.doubtful == r.doubtful
    ensures r'.highwater == if rewrite && h > r.highwater then h else r.highwater
  {
    var locks := if row.lock.Some? then r.locks[h := row.lock.value] else r.locks;
    var polkas := if row.validPolka.Some? then r.polkas[h := row.validPolka.value] else r.polkas;
    var prevotes := AddPrevotes(r.prevotes, r.rows, h, row);
    r' := Restored(r.rows[h := row], locks, polkas, prevotes, r.doubtful,
                   if rewrite && h > r.highwater then h else r.highwater);
  }

  ghost predicate Doubted(doubtful: set<nat>, m: Media, done: set<nat>, tip: Block, member: bool, members: nat)
  {
    forall h :: h in doubtful <==> h in done && Trusted(m, h).None? && !CannotHaveVoted(tip, member, members, h)
  }

  ghost predicate MarkMoved(mark: nat, m: Media, done: set<nat>)
  {
    && MarkOf(m) <= mark && (forall h :: h in done && Rewritten(m, h) ==> h <= mark)
    && (mark == MarkOf(m) || (mark in done && Rewritten(m, mark)))
  }

  /** What the loop has done after the rows `done`. */
  ghost predicate Progress(r: Restored, m: Media, done: set<nat>, tip: Block, member: bool, members: nat)
  {
    && VotesIn(r) && Believed(r.rows, m, done)
    && Doubted(r.doubtful, m, done, tip, member, members) && MarkMoved(r.highwater, m, done)
  }

  lemma OneMoreRow(rows: map<nat, SafetyRow>, m: Media, done: set<nat>, h: nat)
    requires Believed(rows, m, done) && h !in done
    ensures h !in rows
    ensures Trusted(m, h).Some? ==> Believed(rows[h := Trusted(m, h).value], m, done + {h})
    ensures Trusted(m, h).None? ==> Believed(rows, m, done + {h})
  {
  }

  lemma OneMoreMark(mark: nat, m: Media, done: set<nat>, h: nat)
    requires MarkMoved(mark, m, done)
    ensures MarkMoved(if Rewritten(m, h) && h > mark then h else mark, m, done + {h})
  {
  }

  /** One row: restored with its votes, dropped, or set aside for quarantine. */
  method LoadRow(r: Restored, h: nat, m: Media, ghost done: set<nat>, tip: Block, member: bool, members: nat)
    returns (r': Restored)
    requires Progress(r, m, done, tip, member, members) && h !in done
    ensures Progress(r', m, done + {h}, tip, member, members)
  {
    OneMoreRow(r.rows, m, done, h);
    OneMoreMark(r.highwater, m, done, h);
    var row := ReadRow(m, h);
    if row.Some? {
      var rewrite := CopyAt(m.primary, h).None? || CopyAt(m.mirror, h).None?;
      r' := AddRow(r, h, row.value, rewrite);
    } else if CannotHaveVoted(tip, member, members, h) {
      r' := r;
    } else {
      r' := r.(doubtful := r.doubtful + {h});
    }
  }

  lemma NothingYet(m: Media, tip: Block, member: bool, members: nat)
    ensures Progress(Restored(map[], map[], map[], map[], {}, MarkOf(m)), m, {}, tip, member, members)
  {
  }

  method LoadRows(open: set<nat>, m: Media, tip: Block, member: bool, members: nat) returns (r: Restored)
    ensures Progress(r, m, open, tip, member, members)
  {
    r := Restored(map[], map[], map[], map[], {}, MarkOf(m));
    NothingYet(m, tip, member, members);
    var rest := open;
    ghost var done: set<nat> := {};
    while rest != {}
      invariant rest <= open && done == open - rest && Progress(r, m, done, tip, member, members)
      decreases |rest|
    {
      var h: nat :| h in rest;
      r := LoadRow(r, h, m, done, tip, member, members);
      rest, done := rest - {h}, done + {h};
    }
    assert done == open;
  }

  // ---------------------------------------------------------------- lost rows

  ghost predicate Lost(h: nat, open: set<nat>, known: set<nat>, fin: nat, mark: nat, tip: Block, member: bool,
                       members: nat)
  {
    && fin < h <= mark && h <= fin + MAX_MISSING_SPAN && h !in open && h !in known
    && !CannotHaveVoted(tip, member, members, h)
  }

  /** The loop up to the highwater mark: heights with no row at all. */
  method LostHeights(open: set<nat>, known: set<nat>, fin: nat, mark: nat, tip: Block, member: bool, members: nat)
    returns (lost: set<nat>)
    ensures forall h :: h in lost <==> Lost(h, open, known, fin, mark, tip, member, members)
  {
    lost := {};
    var h := fin + 1;
    while h <= mark && h <= fin + MAX_MISSING_SPAN
      invariant fin < h
      invariant forall k: nat :: k in lost <==> k < h && Lost(k, open, known, fin, mark, tip, member, members)
      decreases fin + MAX_MISSING_SPAN + 1 - h
    {
      if h !in open && h !in known && !CannotHaveVoted(tip, member, members, h) {
        lost := lost + {h};
      }
      h := h + 1;
    }
  }

  // ---------------------------------------------------------------- together

  lemma MarkIs(mark: nat, m: Media, fin: nat)
    requires MarkMoved(mark, m, OpenRows(m, fin))
    ensures mark == MarkAfter(m, fin)
  {
    TopUnique(MarkOf(m), (set h | h in OpenRows(m, fin) && Rewritten(m, h)), mark);
  }

  lemma RowsAre(rows: map<nat, SafetyRow>, d: Disk, m: Media, member: bool, members: nat)
    requires Believed(rows, m, OpenRows(m, d.tip.Height()))
    ensures rows == LoadDisk(d, m, member, members).rows
  {
  }

  lemma QuarantineIs(d: Disk, m: Media, member: bool, members: nat, doubtful: set<nat>, lost: set<nat>, h: nat)
    requires Doubted(doubtful, m, OpenRows(m, d.tip.Height()), d.tip, member, members)
    requires h in lost <==> Lost(h, OpenRows(m, d.tip.Height()), m.quarantine + doubtful, d.tip.Height(),
                                 MarkAfter(m, d.tip.Height()), d.tip, member, members)
    ensures h in LoadDisk(d, m, member, members).quarantine <==>
      h > d.tip.Height() && (h in m.quarantine || h in doubtful || h in lost)
  {
  }

  /** load_state's loops over the rows an earlier process left. */
  method LoadDatabase(d: Disk, m: Media, member: bool, members: nat) returns (d': Disk, r: Restored)
    ensures d' == LoadDisk(d, m, member, members)
    ensures r.locks == LocksOf(d'.rows) && r.polkas == ValidPolkasOf(d'.rows) && r.prevotes == PrevotesOf(d'.rows)
  {
    var fin := d.tip.Height();
    var open := ScanHeights(m, fin);
    r := LoadRows(open, m, d.tip, member, members);
    MarkIs(r.highwater, m, fin);
    var known := m.quarantine + r.doubtful;
    var lost := LostHeights(open, known, fin, r.highwater, d.tip, member, members);
    var kept := ScanQuarantine(known + lost, fin);
    RowsAre(r.rows, d, m, member, members);
    VotesAre(r);
    forall h: nat
      ensures h in kept <==> h in LoadDisk(d, m, member, members).quarantine
    {
      QuarantineIs(d, m, member, members, r.doubtful, lost, h);
    }
    assert kept == LoadDisk(d, m, member, members).quarantine;
    d' := Disk(d.tip, r.rows, kept, r.highwater);
  }
}
