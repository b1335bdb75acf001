/**
 What a start makes of the safety rows it finds (src/node/node_state.cpp), stated on the two copies of each row, the
 quarantine rows and the highwater row alone.
 */
module LoadLaws {
  import opened Options
  import opened Blocks
  import opened VotingNode

  /** One of the two copies of the height's row is readable and holds the row. */
  ghost predicate Reads(m: Media, h: nat, row: SafetyRow)
  {
    (h in m.primary && m.primary[h] == Some(row)) || (h in m.mirror && m.mirror[h] == Some(row))
  }

  /** Exactly one copy is readable. */
  ghost predicate OneCopy(m: Media, h: nat)
  {
    (h in m.primary && m.primary[h].Some?) != (h in m.mirror && m.mirror[h].Some?)
  }

  ghost predicate Outsider(d: Disk, member: bool, members: nat, h: nat)
  {
    h == d.tip.Height() + 1 && members > 1 && !member
  }

  /** A row is restored exactly when the height is open, some copy reads as it, and no copy reads as another. */
  lemma RowMeans(d: Disk, m: Media, member: bool, members: nat, h: nat, row: SafetyRow)
    ensures
      var d' := LoadDisk(d, m, member, members);
      h in d'.rows && d'.rows[h] == row <==>
        h > d.tip.Height() && Reads(m, h, row) && forall other :: Reads(m, h, other) ==> other == row
  {
    if Reads(m, h, row) {
      var p, q := CopyAt(m.primary, h), CopyAt(m.mirror, h);
      if p.Some? {
        assert Reads(m, h, p.value);
      }
      if q.Some? {
        assert Reads(m, h, q.value);
      }
    }
  }

  /**
   A height is quarantined exactly when it is open and has a quarantine row, or the node may have voted there and
   either its row was found and not restored, or no copy was found up to the mark and 64 heights past the tip.
   */
  lemma QuarantineMeans(d: Disk, m: Media, member: bool, members: nat, h: nat)
    ensures
      var d', fin := LoadDisk(d, m, member, members), d.tip.Height();
      h in d'.quarantine <==>
        && h > fin
        && (|| h in m.quarantine
            || (!Outsider(d, member, members, h)
                && if h in m.primary || h in m.mirror then h !in d'.rows else h <= d'.highwater && h <= fin + 64))
  {
  }

  /** The mark never falls; it moves up to the heights restored from one copy, and to nothing else. */
  lemma MarkMeans(d: Disk, m: Media, member: bool, members: nat)
    ensures
      var d', found := LoadDisk(d, m, member, members), if m.highwater.Some? then m.highwater.value else 0;
      && found <= d'.highwater && (forall h :: h in d'.rows && OneCopy(m, h) ==> h <= d'.highwater)
      && (d'.highwater == found || (d'.highwater in d'.rows && OneCopy(m, d'.highwater)))
  {
    var d', fin := LoadDisk(d, m, member, members), d.tip.Height();
    var moved := set h | h in OpenRows(m, fin) && Rewritten(m, h);
    assert d'.highwater == Top(MarkOf(m), moved);
    assert forall h :: h in moved ==> h in d'.rows && OneCopy(m, h);
    forall h | h in d'.rows && OneCopy(m, h)
      ensures h <= d'.highwater
    {
      assert h in moved;
    }
  }

  /** The tip is not the loader's to change, and a restored row is never at a finalized height. */
  lemma TipStays(d: Disk, m: Media, member: bool, members: nat)
    ensures
      var d' := LoadDisk(d, m, member, members);
      && d'.tip == d.tip && (forall h :: h in d'.rows ==> h > d.tip.Height())
      && forall h :: h in d'.quarantine ==> h > d.tip.Height()
  {
  }

  /**
   The second copy is there for damage to one: of two equal copies either may become unreadable or go missing, and the
   row, the votes in it and the quarantine of its height are as before.
   */
  lemma DamagedCopy(d: Disk, m: Media, m': Media, member: bool, members: nat, h: nat)
    requires h in m.primary && h in m.mirror && m.primary[h] == m.mirror[h] && m.primary[h].Some?
    requires m'.quarantine == m.quarantine
    requires (h in m'.primary && m'.primary[h] in {None, m.primary[h]}) || h !in m'.primary
    requires (h in m'.mirror && m'.mirror[h] in {None, m.mirror[h]}) || h !in m'.mirror
    requires (h in m'.primary && m'.primary[h].Some?) || (h in m'.mirror && m'.mirror[h].Some?)
    ensures
      var before, after := LoadDisk(d, m, member, members), LoadDisk(d, m', member, members);
      && (h in after.rows <==> h in before.rows) && (h in after.rows ==> after.rows[h] == before.rows[h])
      && (h in after.quarantine <==> h in before.quarantine)
  {
    var row := m.primary[h].value;
    RowMeans(d, m, member, members, h, row);
    RowMeans(d, m', member, members, h, row);
    QuarantineMeans(d, m, member, members, h);
    QuarantineMeans(d, m', member, members, h);
  }
}
