/**
 The pending-transaction status cache and its pruning (apps/finalis-wallet/wallet_store.cpp). A record is
 stored under its transaction id, so the id doubles as the key; what does not parse is Malformed. Which
 database erasures fail is the `faults` script.
 */
module StatusCache {
  import opened Sorting
  import opened Sequences
  import opened KeyOrder

  const MAX_RECORDS: nat := 64
  const RETENTION_MS: nat := 604_800_000

  datatype Value = Malformed | Status(cachedAtMs: nat, payload: seq<byte>)
  type Cache = map<string, Value>

  /** A well-formed record as the ranking sees it. */
  datatype Item = Item(txid: string, ms: nat)

  // ---------------------------------------------------------------- what pruning must leave

  function Items(db: Cache): set<Item>
  {
    set k | k in db && db[k].Status? :: Item(k, db[k].cachedAtMs)
  }

  /** Newer first, then by id. */
  function Newer(): (Item, Item) -> bool
  {
    (a: Item, b: Item) => if a.ms != b.ms then a.ms > b.ms else LexLe(a.txid, b.txid)
  }

  lemma NewerIsTotal()
    ensures TotalOrder(Newer())
  {
    var le := Newer();
    forall a, b
      ensures le(a, b) || le(b, a)
      ensures le(a, b) && le(b, a) ==> a == b
    {
      LexTotal(a.txid, b.txid);
    }
    forall a, b, c | le(a, b) && le(b, c)
      ensures le(a, c)
    {
      if a.ms == b.ms == c.ms {
        LexTransitive(a.txid, b.txid, c.txid);
      }
    }
  }

  ghost predicate IsNewest(items: set<Item>, ms: nat)
  {
    (forall x :: x in items ==> x.ms <= ms) && (if items == {} then ms == 0 else exists x :: x in items && x.ms == ms)
  }

  function Cutoff(newest: nat): nat
  {
    if newest > RETENTION_MS then newest - RETENTION_MS else 0
  }

  function Recent(items: set<Item>, newest: nat): set<Item>
  {
    set x | x in items && x.ms >= Cutoff(newest)
  }

  ghost function Ahead(items: set<Item>, x: Item): set<Item>
  {
    set y | y in items && y != x && Newer()(y, x)
  }

  /** The recent records with fewer than 64 ahead of them. */
  ghost function Survivors(items: set<Item>, newest: nat): set<Item>
  {
    set x | x in Recent(items, newest) && |Ahead(Recent(items, newest), x)| < MAX_RECORDS
  }

  /** The records that rank ahead: the newer ones, and of those as old the ones with a smaller id. */
  ghost function RankedAhead(items: set<Item>, x: Item): set<Item>
  {
    set y | y in items && y != x && (y.ms > x.ms || (y.ms == x.ms && LexLe(y.txid, x.txid)))
  }

  /** Kept exactly when it is within seven days of the newest and fewer than 64 of all the records rank ahead of it. */
  lemma SurvivorMeans(items: set<Item>, newest: nat, x: Item)
    ensures x in Survivors(items, newest) <==>
      x in items && newest <= x.ms + 7 * 24 * 3600 * 1000 && |RankedAhead(items, x)| < 64
  {
    if x in Recent(items, newest) {
      assert Ahead(Recent(items, newest), x) == RankedAhead(items, x);
    }
  }

  // ---------------------------------------------------------------- ranks are positions

  function Range(s: seq<Item>): set<Item>
  {
    set x | x in s
  }

  lemma {:induction false} RangeSize(s: seq<Item>)
    requires Distinct(s)
    ensures |Range(s)| == |s|
    decreases |s|
  {
    if s != [] {
      var front, last := s[..|s| - 1], s[|s| - 1];
      RangeSize(front);
      assert Range(s) == Range(front) + {last};
      assert last !in Range(front);
    }
  }

  /** In the sorted list, the records ahead of the i-th are the first i. */
  lemma RankIsPosition(s: seq<Item>, i: nat)
    requires Sorted(s, Newer()) && Distinct(s) && i < |s|
    ensures |Ahead(Range(s), s[i])| == i
  {
    NewerIsTotal();
    var front := s[..i];
    forall y
      ensures y in Ahead(Range(s), s[i]) <==> y in Range(front)
    {
      if y in s {
        var j :| 0 <= j < |s| && s[j] == y;
        if j < i {
          assert front[j] == y;
        }
      }
    }
    assert Ahead(Range(s), s[i]) == Range(front);
    RangeSize(front);
  }

  lemma FirstSurvive(s: seq<Item>, items: set<Item>, newest: nat)
    requires Sorted(s, Newer()) && Distinct(s) && Range(s) == Recent(items, newest)
    ensures Survivors(items, newest) == Range(s[..if |s| < MAX_RECORDS then |s| else MAX_RECORDS])
  {
    var k := if |s| < MAX_RECORDS then |s| else MAX_RECORDS;
    forall x
      ensures x in Survivors(items, newest) <==> x in Range(s[..k])
    {
      if x in Recent(items, newest) {
        var i :| 0 <= i < |s| && s[i] == x;
        RankIsPosition(s, i);
        if i < k {
          assert s[..k][i] == x;
        }
      }
    }
  }

  // ---------------------------------------------------------------- pruning again changes nothing

  /** The newest record is recent, and nothing is strictly ahead of the first. */
  lemma NewestSurvives(items: set<Item>, newest: nat)
    requires IsNewest(items, newest) && items != {}
    ensures exists x :: x in Survivors(items, newest) && x.ms == newest
  {
    var recent := Recent(items, newest);
    var top :| top in items && top.ms == newest;
    assert top in recent;
    var s := SortedList(recent);
    var i :| 0 <= i < |s| && s[i] == top;
    assert s[0] in Range(s) && (i == 0 || Newer()(s[0], s[i]));
    RankIsPosition(s, 0);
  }

  lemma {:induction false} ListOf(items: set<Item>) returns (s: seq<Item>)
    ensures Range(s) == items && Distinct(s)
    decreases |items|
  {
    s := [];
    if items != {} {
      var x :| x in items;
      var rest := ListOf(items - {x});
      s := rest + [x];
      assert x !in Range(rest);
      assert Range(s) == Range(rest) + {x};
    }
  }

  lemma SortedList(items: set<Item>) returns (s: seq<Item>)
    ensures Range(s) == items && Distinct(s) && Sorted(s, Newer())
  {
    var listed := ListOf(items);
    s := SortItems(listed);
  }

  lemma SortItems(listed: seq<Item>) returns (s: seq<Item>)
    requires Distinct(listed)
    ensures s == Sort(listed, Newer()) && Range(s) == Range(listed) && Distinct(s) && Sorted(s, Newer())
  {
    NewerIsTotal();
    SortSorts(listed, Newer());
    s := Sort(listed, Newer());
    SameMembers(listed, s);
    DistinctPermutation(listed, s);
  }

  lemma AheadOfSurvivor(items: set<Item>, newest: nat, x: Item)
    requires x in Survivors(items, newest)
    ensures Ahead(Recent(items, newest), x) <= Survivors(items, newest)
  {
    var recent := Recent(items, newest);
    NewerIsTotal();
    forall y | y in Ahead(recent, x)
      ensures y in Survivors(items, newest)
    {
      assert Ahead(recent, y) <= Ahead(recent, x);
      Smaller(Ahead(recent, y), Ahead(recent, x));
    }
  }

  lemma {:induction false} Smaller<T>(a: set<T>, b: set<T>)
    requires a <= b
    ensures |a| <= |b|
    decreases |a|
  {
    if a != {} {
      var x :| x in a;
      Smaller(a - {x}, b - {x});
    }
  }

  /** Survivors of the survivors, judged by the same newest record, are the survivors. */
  lemma PruneTwice(items: set<Item>, newest: nat)
    requires IsNewest(items, newest)
    ensures IsNewest(Survivors(items, newest), newest)
    ensures Survivors(Survivors(items, newest), newest) == Survivors(items, newest)
    ensures |Survivors(items, newest)| <= MAX_RECORDS
  {
    var kept, recent := Survivors(items, newest), Recent(items, newest);
    if items != {} {
      NewestSurvives(items, newest);
    }
    assert Recent(kept, newest) == kept;
    forall x | x in kept
      ensures Ahead(kept, x) == Ahead(recent, x)
    {
      AheadOfSurvivor(items, newest, x);
    }
    var s := SortedList(recent);
    FirstSurvive(s, items, newest);
    RangeSize(s[..if |s| < MAX_RECORDS then |s| else MAX_RECORDS]);
  }

  // ---------------------------------------------------------------- the store

  ghost predicate Within(db: Cache, db': Cache)
  {
    forall k :: k in db ==> k in db' && db[k] == db'[k]
  }

  ghost predicate Clean(db: Cache)
  {
    forall k :: k in db ==> db[k].Status?
  }

  lemma EraseItem(db: Cache, k: string)
    ensures Within(db - {k}, db)
    ensures Items(db - {k}) == if k in db && db[k].Status? then Items(db) - {Item(k, db[k].cachedAtMs)} else Items(db)
  {
    var db' := db - {k};
    forall x
      ensures x in Items(db') <==> x in Items(db) && x.txid != k
    {
    }
  }

  method AllKeys(db: Cache) returns (keys: seq<string>)
    ensures Distinct(keys) && forall k :: k in keys <==> k in db
  {
    var rest := db.Keys;
    keys := [];
    while rest != {}
      invariant forall k :: (k in rest || k in keys) <==> k in db
      invariant forall k :: k in keys ==> k !in rest
      invariant Distinct(keys)
      decreases |rest|
    {
      var k :| k in rest;
      keys, rest := keys + [k], rest - {k};
    }
  }

  class Store {
    var db: Cache
    var faults: seq<bool>

    constructor (script: seq<bool>)
      ensures db == map[] && faults == script
    {
      db, faults := map[], script;
    }

    method Erase(k: string) returns (ok: bool)
      modifies this
      ensures db == if ok then old(db) - {k} else old(db)
      ensures old(faults) == [] ==> ok && faults == []
    {
      ok := faults == [] || faults[0];
      if faults != [] {
        faults := faults[1..];
      }
      if ok {
        db := db - {k};
      }
    }

    /** A scan of the class: malformed records are erased, whether or not that succeeds, and the rest listed. */
    method Collect() returns (entries: seq<Item>, newest: nat)
      modifies this
      ensures Items(db) == Items(old(db)) == Range(entries) && Distinct(entries) && IsNewest(Items(db), newest)
      ensures Within(db, old(db)) && (old(faults) == [] ==> faults == [] && Clean(db))
    {
      var keys := AllKeys(db);
      var snapshot := db;
      entries, newest := [], 0;
      for i := 0 to |keys|
        invariant Items(db) == Items(snapshot) && Within(db, snapshot)
        invariant Listing(entries, newest, snapshot, keys[..i])
        invariant old(faults) == [] ==> faults == [] && forall j :: 0 <= j < i ==> keys[j] !in db || db[keys[j]].Status?
      {
        var k := keys[i];
        assert k in keys;
        ListNext(entries, newest, snapshot, keys, i);
        if snapshot[k].Malformed? {
          EraseItem(db, k);
          var _ := Erase(k);
        } else {
          newest := if snapshot[k].cachedAtMs > newest then snapshot[k].cachedAtMs else newest;
          entries := entries + [Item(k, snapshot[k].cachedAtMs)];
        }
      }
      assert keys[..|keys|] == keys;
      Complete(entries, newest, snapshot, keys);
    }

    /** Erases every listed record that is too old. */
    method EraseOld(entries: seq<Item>, cutoff: nat) returns (ok: bool)
      requires Range(entries) == Items(db)
      modifies this
      ensures ok ==> Items(db) == set x | x in Items(old(db)) && x.ms >= cutoff
      ensures Within(db, old(db)) && (old(faults) == [] ==> ok && faults == [])
    {
      ghost var start := Items(db);
      ok := true;
      for i := 0 to |entries|
        invariant Items(db) == start - Old(entries[..i], cutoff) && Within(db, old(db))
        invariant old(faults) == [] ==> faults == []
      {
        assert entries[..i + 1] == entries[..i] + [entries[i]];
        OldNext(entries[..i], entries[i], cutoff);
        if entries[i].ms < cutoff {
          EraseListed(db, entries[i], start, Old(entries[..i], cutoff));
          ok := Erase(entries[i].txid);
          if !ok {
            return;
          }
        }
      }
      assert entries[..|entries|] == entries;
      ok := true;
    }

    /** Erases the sorted records from the 65th on. */
    method EraseTail(sorted: seq<Item>) returns (ok: bool)
      requires Range(sorted) == Items(db) && Distinct(sorted) && |sorted| >= MAX_RECORDS
      modifies this
      ensures ok ==> Items(db) == Range(sorted[..MAX_RECORDS])
      ensures Within(db, old(db)) && (old(faults) == [] ==> ok && faults == [])
    {
      ghost var start := Items(db);
      ok := true;
      var i := MAX_RECORDS;
      while i < |sorted|
        invariant MAX_RECORDS <= i <= |sorted|
        invariant Items(db) == start - Range(sorted[MAX_RECORDS..i]) && Within(db, old(db))
        invariant old(faults) == [] ==> faults == []
      {
        assert sorted[MAX_RECORDS..i + 1] == sorted[MAX_RECORDS..i] + [sorted[i]];
        assert Range(sorted[MAX_RECORDS..i + 1]) == Range(sorted[MAX_RECORDS..i]) + {sorted[i]};
        EraseListed(db, sorted[i], start, Range(sorted[MAX_RECORDS..i]));
        ok := Erase(sorted[i].txid);
        if !ok {
          return;
        }
        i := i + 1;
      }
      HeadOnly(sorted);
      ok := true;
    }

    /** prune_pending_tx_status_cache */
    method Prune() returns (ok: bool)
      modifies this
      ensures ok ==> exists newest :: IsNewest(Items(old(db)), newest) && Items(db) == Survivors(Items(old(db)), newest)
      ensures Within(db, old(db)) && (old(faults) == [] ==> ok && faults == [] && Clean(db))
    {
      var entries, newest := Collect();
      ghost var items := Items(db);
      if entries == [] {
        assert Survivors(items, newest) == {};
        return true;
      }
      ok := EraseOld(entries, Cutoff(newest));
      if !ok {
        return;
      }
      assert Items(db) == Recent(items, newest);
      var again, _ := Collect();
      ghost var s := SortItems(again);
      FirstSurvive(s, items, newest);
      if |again| <= MAX_RECORDS {
        assert s[..|s|] == s;
        return true;
      }
      ok := EraseTail(Sort(again, Newer()));
    }

    /** upsert_pending_tx_status */
    method Upsert(txid: string, ms: nat, payload: seq<byte>) returns (ok: bool)
      modifies this
      ensures
        var put := old(db)[txid := Status(ms, payload)];
        && (ok ==> exists newest :: IsNewest(Items(put), newest) && Items(db) == Survivors(Items(put), newest))
        && (ok ==> Within(db, put)) && (old(faults) == [] ==> ok && Clean(db))
    {
      ok := faults == [] || faults[0];
      if faults != [] {
        faults := faults[1..];
      }
      if ok {
        db := db[txid := Status(ms, payload)];
        ok := Prune();
      }
    }
  }

  function Old(entries: seq<Item>, cutoff: nat): set<Item>
  {
    set x | x in entries && x.ms < cutoff
  }

  lemma OldNext(entries: seq<Item>, x: Item, cutoff: nat)
    ensures Old(entries + [x], cutoff) == if x.ms < cutoff then Old(entries, cutoff) + {x} else Old(entries, cutoff)
  {
  }

  /** Erasing a listed record takes exactly that record away, also when it is gone already. */
  lemma EraseListed(db: Cache, x: Item, start: set<Item>, gone: set<Item>)
    requires Items(db) == start - gone && x in start
    requires forall y :: y in start && y.txid == x.txid ==> y == x
    ensures Items(db - {x.txid}) == start - (gone + {x})
  {
    EraseItem(db, x.txid);
    if x.txid in db && db[x.txid].Status? {
      assert Item(x.txid, db[x.txid].cachedAtMs) in Items(db);
    } else {
      assert x !in Items(db);
    }
  }

  lemma HeadOnly(sorted: seq<Item>)
    requires Distinct(sorted) && |sorted| >= MAX_RECORDS
    ensures Range(sorted) - Range(sorted[MAX_RECORDS..]) == Range(sorted[..MAX_RECORDS])
  {
    assert sorted == sorted[..MAX_RECORDS] + sorted[MAX_RECORDS..];
  }

  /** The records of the first keys, and the newest of them. */
  ghost predicate Listing(entries: seq<Item>, newest: nat, db: Cache, keys: seq<string>)
  {
    && Distinct(entries) && IsNewest(Range(entries), newest)
    && (forall x :: x in entries <==>
          x.txid in keys && x.txid in db && db[x.txid].Status? && x.ms == db[x.txid].cachedAtMs)
  }

  lemma ListNext(entries: seq<Item>, newest: nat, db: Cache, keys: seq<string>, i: nat)
    requires i < |keys| && keys[i] in db && Distinct(keys) && Listing(entries, newest, db, keys[..i])
    ensures db[keys[i]].Malformed? ==> Listing(entries, newest, db, keys[..i + 1])
    ensures db[keys[i]].Status? ==>
      var ms := db[keys[i]].cachedAtMs;
      Listing(entries + [Item(keys[i], ms)], if ms > newest then ms else newest, db, keys[..i + 1])
  {
    assert forall k :: k in keys[..i + 1] <==> k in keys[..i] || k == keys[i];
    if db[keys[i]].Status? {
      var x := Item(keys[i], db[keys[i]].cachedAtMs);
      var entries' := entries + [x];
      assert x !in entries;
      assert forall y :: y in entries' <==> y in entries || y == x;
      assert Range(entries') == Range(entries) + {x};
    }
  }

  lemma Complete(entries: seq<Item>, newest: nat, db: Cache, keys: seq<string>)
    requires Listing(entries, newest, db, keys) && forall k :: k in keys <==> k in db
    ensures Range(entries) == Items(db)
  {
  }
}
