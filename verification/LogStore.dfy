/**
 The history and event logs of the wallet store over an ordered key-value database
 (apps/finalis-wallet/wallet_store.cpp). A database write may fail; which ones do is the `faults` script.
 */
module LogStore {
  import opened Options
  import opened WideArith
  import opened Sorting
  import opened Sequences
  import opened ByteCodec
  import opened KeyOrder
  import opened WalletRecords

  type Data = map<string, bytes>

  /** A record class: its key prefix, its counter key and the key of entry i. */
  datatype Class = Class(prefix: string, seqKey: string, entryKey: nat -> string)

  function ClassOf(name: string): Class
  {
    Class(ClassPrefix(name), SeqKey(name), (i: nat) => CounterKey(name, i))
  }

  predicate InClass(key: string, cls: Class)
  {
    cls.prefix <= key
  }

  /** Entry keys of 64-bit counters order as the counters, and differ from the counter key. */
  ghost predicate Orderly(cls: Class)
  {
    && (forall i, j {:trigger LexLe(cls.entryKey(i), cls.entryKey(j))} ::
          0 <= i < W64 && 0 <= j < W64 ==> (LexLe(cls.entryKey(i), cls.entryKey(j)) <==> i <= j))
    && (forall i :: 0 <= i < W64 ==> cls.entryKey(i) != cls.seqKey && InClass(cls.entryKey(i), cls))
    && InClass(cls.seqKey, cls)
  }

  lemma ClassIsOrderly(name: string)
    ensures Orderly(ClassOf(name))
  {
    var cls := ClassOf(name);
    forall i, j | 0 <= i < W64 && 0 <= j < W64
      ensures LexLe(cls.entryKey(i), cls.entryKey(j)) <==> i <= j
    {
      CounterKeys(name, i, j);
    }
    forall i | 0 <= i < W64
      ensures cls.entryKey(i) != cls.seqKey && InClass(cls.entryKey(i), cls)
    {
      CounterKeys(name, i, i);
    }
  }

  // ---------------------------------------------------------------- what the database holds

  predicate HasEntry(db: Data, cls: Class, log: seq<bytes>, i: nat)
    requires i < |log|
  {
    cls.entryKey(i + 1) in db && db[cls.entryKey(i + 1)] == log[i]
  }

  ghost predicate IsEntry(k: string, cls: Class, n: nat)
  {
    exists i :: 1 <= i <= n && k == cls.entryKey(i)
  }

  /** Exactly these entries in the class, 1 to n under their counters. */
  ghost predicate Entries(db: Data, cls: Class, log: seq<bytes>)
  {
    && |log| < W64
    && (forall k :: k in db && InClass(k, cls) ==> k == cls.seqKey || IsEntry(k, cls, |log|))
    && (forall i :: 0 <= i < |log| ==> HasEntry(db, cls, log, i))
  }

  /** The count the class records. */
  ghost predicate Counted(db: Data, cls: Class, n: nat)
  {
    if cls.seqKey in db then db[cls.seqKey] == LE(n, 8) else n == 0
  }

  /** Exactly this log in the class, and its count. */
  ghost predicate Holds(db: Data, cls: Class, log: seq<bytes>)
  {
    Entries(db, cls, log) && Counted(db, cls, |log|)
  }

  /** A log with entries past its count, as appends that failed partway leave it. */
  ghost predicate Loose(db: Data, cls: Class, log: seq<bytes>, tail: seq<bytes>)
  {
    Entries(db, cls, log + tail) && Counted(db, cls, |log|)
  }

  /** The tail once the values have been written over it. */
  function Over(tail: seq<bytes>, values: seq<bytes>): seq<bytes>
  {
    if |values| < |tail| then values + tail[|values|..] else values
  }

  /** Such a class is in order again exactly when nothing is left past the count. */
  lemma LooseExactly(db: Data, cls: Class, log: seq<bytes>, tail: seq<bytes>)
    requires Orderly(cls) && Loose(db, cls, log, tail)
    ensures Holds(db, cls, log) <==> tail == []
  {
    if tail == [] {
      assert log + tail == log;
    } else {
      assert HasEntry(db, cls, log + tail, |log|);
      var k := cls.entryKey(|log| + 1);
      forall i | 1 <= i <= |log|
        ensures k != cls.entryKey(i)
      {
        EntryKeysDiffer(cls, i, |log| + 1);
      }
      assert !IsEntry(k, cls, |log|);
    }
  }

  /**
   After a failed append, a further one that succeeds repairs the log exactly when it is long enough to cover
   the rest.
   */
  lemma RepairExactly(db: Data, cls: Class, log: seq<bytes>, tail: seq<bytes>, values: seq<bytes>)
    requires Orderly(cls) && Loose(db, cls, log + values, Over(tail, values)[|values|..])
    ensures Holds(db, cls, log + values) <==> |tail| <= |values|
  {
    LooseExactly(db, cls, log + values, Over(tail, values)[|values|..]);
  }

  ghost predicate SameClass(db: Data, db': Data, cls: Class)
  {
    forall k :: InClass(k, cls) ==> (k in db <==> k in db') && (k in db ==> db[k] == db'[k])
  }

  /** Writes outside the class leave its log alone. */
  lemma OtherKeysKeep(db: Data, db': Data, cls: Class, log: seq<bytes>)
    requires Orderly(cls) && Holds(db, cls, log) && SameClass(db, db', cls)
    ensures Holds(db', cls, log)
  {
    forall i | 0 <= i < |log|
      ensures HasEntry(db', cls, log, i)
    {
      assert HasEntry(db, cls, log, i);
      assert InClass(cls.entryKey(i + 1), cls);
    }
  }

  lemma HoldsIsLoose(db: Data, cls: Class, log: seq<bytes>)
    requires Holds(db, cls, log)
    ensures Loose(db, cls, log, [])
  {
    assert log + [] == log;
  }

  // ---------------------------------------------------------------- scanning a class

  /** The keys of a class in ascending order. */
  ghost predicate IsScan(keys: seq<string>, db: Data, cls: Class)
  {
    Sorted(keys, KeyLe()) && (forall k :: k in keys <==> k in db && InClass(k, cls)) && Distinct(keys)
  }

  method ScanClass(db: Data, cls: Class) returns (keys: seq<string>)
    ensures IsScan(keys, db, cls)
  {
    var rest := set k | k in db && InClass(k, cls);
    var found: seq<string> := [];
    while rest != {}
      invariant forall k :: (k in rest || k in found) <==> k in db && InClass(k, cls)
      invariant forall k :: k in found ==> k !in rest
      invariant Distinct(found)
      decreases |rest|
    {
      var k :| k in rest;
      found, rest := found + [k], rest - {k};
    }
    keys := Sort(found, KeyLe());
    KeyOrderIsTotal();
    SortSorts(found, KeyLe());
    SameMembers(found, keys);
    DistinctPermutation(found, keys);
  }

  function Counters(cls: Class, n: nat): (ks: seq<string>)
    ensures |ks| == n
  {
    seq(n, i requires 0 <= i < n => cls.entryKey(i + 1))
  }

  function NotSeq(cls: Class): string -> bool
  {
    k => k != cls.seqKey
  }

  /** In key order, a class that holds a log lists its entries 1 to n. */
  lemma ScanIsCounters(keys: seq<string>, db: Data, cls: Class, log: seq<bytes>)
    requires Orderly(cls) && IsScan(keys, db, cls) && Entries(db, cls, log)
    ensures Filter(keys, NotSeq(cls)) == Counters(cls, |log|)
  {
    var listed, counters := Filter(keys, NotSeq(cls)), Counters(cls, |log|);
    FilterMembers(keys, NotSeq(cls));
    FilterKeeps(keys, NotSeq(cls), KeyLe());
    CountersAscend(cls, |log|);
    forall k
      ensures k in listed <==> k in counters
    {
      EntryIffCounter(k, db, cls, log);
    }
    SameSet(listed, counters);
    KeyOrderIsTotal();
    SortedUnique(listed, counters, KeyLe());
  }

  lemma EntryIffCounter(k: string, db: Data, cls: Class, log: seq<bytes>)
    requires Orderly(cls) && Entries(db, cls, log)
    ensures k in Counters(cls, |log|) <==> k in db && InClass(k, cls) && k != cls.seqKey
  {
    var counters := Counters(cls, |log|);
    if k in counters {
      var i :| 0 <= i < |counters| && counters[i] == k;
      assert HasEntry(db, cls, log, i);
    }
    if k in db && InClass(k, cls) && k != cls.seqKey {
      var i :| 1 <= i <= |log| && k == cls.entryKey(i);
      assert counters[i - 1] == k;
    }
  }

  lemma CountersAscend(cls: Class, n: nat)
    requires Orderly(cls) && n < W64
    ensures Sorted(Counters(cls, n), KeyLe()) && Distinct(Counters(cls, n))
  {
    var ks := Counters(cls, n);
    forall i, j | 0 <= i < j < n
      ensures KeyLe()(ks[i], ks[j]) && ks[i] != ks[j]
    {
      LexTotal(ks[i], ks[j]);
      assert LexLe(cls.entryKey(i + 1), cls.entryKey(j + 1)) && !LexLe(cls.entryKey(j + 1), cls.entryKey(i + 1));
    }
  }

  lemma {:induction false} FilterKeeps(s: seq<string>, f: string -> bool, le: (string, string) -> bool)
    requires Sorted(s, le) && Distinct(s)
    ensures Sorted(Filter(s, f), le) && Distinct(Filter(s, f))
    decreases |s|
  {
    if s != [] {
      var front, last := s[..|s| - 1], s[|s| - 1];
      FilterKeeps(front, f, le);
      FilterMembers(front, f);
      forall i | 0 <= i < |Filter(front, f)|
        ensures le(Filter(front, f)[i], last) && Filter(front, f)[i] != last
      {
        assert Filter(front, f)[i] in front;
      }
    }
  }

  // ---------------------------------------------------------------- one write

  lemma SetEntry(db: Data, cls: Class, log: seq<bytes>, i: nat, value: bytes)
    requires Orderly(cls) && Entries(db, cls, log) && i < |log|
    ensures Entries(db[cls.entryKey(i + 1) := value], cls, log[i := value])
  {
    var log', db' := log[i := value], db[cls.entryKey(i + 1) := value];
    forall j | 0 <= j < |log'|
      ensures HasEntry(db', cls, log', j)
    {
      assert HasEntry(db, cls, log, j);
      if j != i {
        EntryKeysDiffer(cls, if i < j then i + 1 else j + 1, if i < j then j + 1 else i + 1);
      }
    }
  }

  lemma PutEntry(db: Data, cls: Class, log: seq<bytes>, value: bytes)
    requires Orderly(cls) && Entries(db, cls, log) && |log| + 1 < W64
    ensures Entries(db[cls.entryKey(|log| + 1) := value], cls, log + [value])
  {
    var n := |log|;
    var log', db' := log + [value], db[cls.entryKey(n + 1) := value];
    forall i | 0 <= i < |log'|
      ensures HasEntry(db', cls, log', i)
    {
      if i < n {
        assert HasEntry(db, cls, log, i);
        EntryKeysDiffer(cls, i + 1, n + 1);
      }
    }
    forall k | k in db' && InClass(k, cls)
      ensures k == cls.seqKey || IsEntry(k, cls, n + 1)
    {
      if k != cls.entryKey(n + 1) && k != cls.seqKey {
        assert IsEntry(k, cls, n);
      }
    }
  }

  /** The next value of an append, over the tail or past it. */
  lemma PutOver(db: Data, cls: Class, log: seq<bytes>, tail: seq<bytes>, done: seq<bytes>, value: bytes)
    requires Orderly(cls) && Entries(db, cls, log + Over(tail, done)) && |log| + |done| + 1 < W64
    ensures Entries(db[cls.entryKey(|log| + |done| + 1) := value], cls, log + Over(tail, done + [value]))
  {
    var all, n := log + Over(tail, done), |log| + |done|;
    if |done| < |tail| {
      SetEntry(db, cls, all, n, value);
      assert all[n := value] == log + Over(tail, done + [value]);
    } else {
      PutEntry(db, cls, all, value);
      assert all + [value] == log + Over(tail, done + [value]);
    }
  }

  lemma EntryKeysDiffer(cls: Class, i: nat, j: nat)
    requires Orderly(cls) && i < j < W64
    ensures cls.entryKey(i) != cls.entryKey(j)
  {
    assert LexLe(cls.entryKey(i), cls.entryKey(j)) && !LexLe(cls.entryKey(j), cls.entryKey(i));
  }

  lemma PutCount(db: Data, cls: Class, log: seq<bytes>, n: nat)
    requires Orderly(cls) && Entries(db, cls, log)
    ensures Entries(db[cls.seqKey := LE(n, 8)], cls, log) && Counted(db[cls.seqKey := LE(n, 8)], cls, n)
  {
    var db' := db[cls.seqKey := LE(n, 8)];
    forall i | 0 <= i < |log|
      ensures HasEntry(db', cls, log, i)
    {
      assert HasEntry(db, cls, log, i);
    }
  }

  /** Nothing outside the class has changed. */
  ghost predicate OutsideSame(db: Data, db': Data, cls: Class)
  {
    forall k :: !InClass(k, cls) ==> (k in db <==> k in db') && (k in db ==> db[k] == db'[k])
  }

  lemma OutsideChain(a: Data, b: Data, c: Data, cls: Class)
    requires OutsideSame(a, b, cls) && OutsideSame(b, c, cls)
    ensures OutsideSame(a, c, cls)
  {
  }

  /** The class keys left while a replace erases them. */
  ghost predicate Left(db: Data, cls: Class, keys: seq<string>)
  {
    forall k :: k in db && InClass(k, cls) ==> k == cls.seqKey || k in keys
  }

  lemma LeftAfter(db: Data, cls: Class, keys: seq<string>)
    requires keys != [] && Left(db, cls, keys)
    ensures Left(db - {keys[0]}, cls, keys[1..])
    ensures keys[0] == cls.seqKey ==> Left(db, cls, keys[1..])
  {
    assert keys == [keys[0]] + keys[1..];
  }

  lemma EmptyClass(db: Data, cls: Class)
    requires Left(db, cls, []) && cls.seqKey !in db
    ensures Holds(db, cls, [])
  {
  }

  class Store {
    var db: Data
    var faults: seq<bool>

    constructor (script: seq<bool>)
      ensures db == map[] && faults == script
    {
      db, faults := map[], script;
    }

    method Put(k: string, v: bytes) returns (ok: bool)
      modifies this
      ensures db == if ok then old(db)[k := v] else old(db)
    {
      ok := faults == [] || faults[0];
      if faults != [] {
        faults := faults[1..];
      }
      if ok {
        db := db[k := v];
      }
    }

    method Erase(k: string) returns (ok: bool)
      modifies this
      ensures db == if ok then old(db) - {k} else old(db)
    {
      ok := faults == [] || faults[0];
      if faults != [] {
        faults := faults[1..];
      }
      if ok {
        db := db - {k};
      }
    }

    /** next_history_seq and next_event_seq */
    method NextSeq(cls: Class, ghost count: nat) returns (n: nat)
      requires Counted(db, cls, count) && count < W64
      ensures n == count
    {
      if cls.seqKey !in db {
        return 0;
      }
      FitsCount(count);
      TakeLEExact(LE(count, 8), 8, count, []);
      assert LE(count, 8) + [] == LE(count, 8);
      var rd := new ByteReader(db[cls.seqKey]);
      var parsed := rd.GetLE(8);
      var end := rd.AtEnd();
      n := if parsed.Some? && end then parsed.value else 0;
    }

    method PutNext(cls: Class, key: string, value: bytes, ghost log: seq<bytes>, ghost tail: seq<bytes>,
                   ghost done: seq<bytes>)
      returns (ok: bool)
      requires Orderly(cls) && Loose(db, cls, log, Over(tail, done)) && |log| + |done| + 1 < W64
      requires key == cls.entryKey(|log| + |done| + 1)
      modifies this
      ensures Loose(db, cls, log, Over(tail, if ok then done + [value] else done))
      ensures OutsideSame(old(db), db, cls)
    {
      PutOver(db, cls, log, tail, done, value);
      ok := Put(key, value);
    }

    method PutSeq(cls: Class, n: nat, ghost log: seq<bytes>, ghost tail: seq<bytes>, ghost values: seq<bytes>)
      returns (ok: bool)
      requires Orderly(cls) && Loose(db, cls, log, Over(tail, values)) && n == |log + values|
      modifies this
      ensures ok ==> Loose(db, cls, log + values, Over(tail, values)[|values|..])
      ensures !ok ==> Loose(db, cls, log, Over(tail, values))
      ensures OutsideSame(old(db), db, cls)
    {
      PutCount(db, cls, log + Over(tail, values), n);
      assert log + Over(tail, values) == log + values + Over(tail, values)[|values|..];
      ok := Put(cls.seqKey, LE(n, 8));
    }

    /** The writing loop of an append. */
    method PutAll(cls: Class, n: nat, values: seq<bytes>, ghost log: seq<bytes>, ghost tail: seq<bytes>)
      returns (ok: bool, ghost written: nat)
      requires Orderly(cls) && Loose(db, cls, log, tail) && n == |log| && |log| + |values| < W64
      modifies this
      ensures written <= |values| && (ok ==> written == |values|)
      ensures Loose(db, cls, log, Over(tail, values[..written])) && OutsideSame(old(db), db, cls)
    {
      assert Over(tail, []) == tail;
      ghost var done: seq<bytes> := [];
      for i := 0 to |values|
        invariant done == values[..i] && Loose(db, cls, log, Over(tail, done)) && OutsideSame(old(db), db, cls)
      {
        ghost var before := db;
        ok := PutNext(cls, cls.entryKey(n + i + 1), values[i], log, tail, done);
        OutsideChain(old(db), before, db, cls);
        if !ok {
          return false, i;
        }
        done := done + [values[i]];
      }
      ok, written := true, |values|;
    }

    /**
     append_finalized_history, and append_local_event with one value. Failing after `written` values, it
     leaves them past the old count, where a load still finds them.
     */
    method Append(cls: Class, values: seq<bytes>, ghost log: seq<bytes>, ghost tail: seq<bytes>)
      returns (ok: bool, ghost written: nat)
      requires Orderly(cls) && Loose(db, cls, log, tail) && |log| + |values| < W64
      modifies this
      ensures written <= |values| && (ok ==> written == |values|)
      ensures ok ==> Loose(db, cls, log + values, Over(tail, values)[|values|..])
      ensures !ok ==> Loose(db, cls, log, Over(tail, values[..written]))
      ensures OutsideSame(old(db), db, cls)
    {
      var n := NextSeq(cls, |log|);
      ok, written := PutAll(cls, n, values, log, tail);
      if ok {
        assert values[..written] == values;
        ghost var before := db;
        ok := PutSeq(cls, n + |values|, log, tail, values);
        OutsideChain(old(db), before, db, cls);
      }
    }

    /** The erasing half of replace_finalized_history. */
    method Clear(cls: Class) returns (ok: bool)
      requires Orderly(cls)
      modifies this
      ensures ok ==> Holds(db, cls, [])
      ensures OutsideSame(old(db), db, cls)
    {
      var keys := ScanClass(db, cls);
      for i := 0 to |keys|
        invariant Left(db, cls, keys[i..]) && OutsideSame(old(db), db, cls)
      {
        LeftAfter(db, cls, keys[i..]);
        assert keys[i] in keys && keys[i..][1..] == keys[i + 1..];
        if keys[i] != cls.seqKey {
          ok := Erase(keys[i]);
          if !ok {
            return;
          }
        }
      }
      ok := Erase(cls.seqKey);
      if ok {
        EmptyClass(db, cls);
      }
    }

    /** replace_finalized_history: whatever the class held before, a replace that succeeds puts it in order. */
    method Replace(cls: Class, values: seq<bytes>) returns (ok: bool)
      requires Orderly(cls) && |values| < W64
      modifies this
      ensures ok ==> Holds(db, cls, values)
      ensures OutsideSame(old(db), db, cls)
    {
      ok := Clear(cls);
      if ok {
        ghost var written;
        HoldsIsLoose(db, cls, []);
        ok, written := Append(cls, values, [], []);
        if ok {
          RepairExactly(db, cls, [], [], values);
          assert [] + values == values;
        }
      }
    }

    /** The scan of load: every key of the class in order but the counter. */
    method Load(cls: Class, ghost log: seq<bytes>) returns (values: seq<bytes>)
      requires Orderly(cls) && Entries(db, cls, log)
      ensures values == log
    {
      var keys := ScanClass(db, cls);
      ScanIsCounters(keys, db, cls, log);
      values := ReadEntries(db, cls, keys);
      ValuesAreLog(db, cls, log, values);
    }
  }

  lemma FitsCount(n: nat)
    requires n < W64
    ensures Fits(n, 8)
  {
    Pow2Of64();
    FitsMeans(n, 8);
  }

  /** The values under the keys, in order. */
  ghost predicate ValuesOf(db: Data, ks: seq<string>, values: seq<bytes>)
  {
    |values| == |ks| && forall j :: 0 <= j < |ks| ==> ks[j] in db && values[j] == db[ks[j]]
  }

  lemma ValuesGrow(db: Data, ks: seq<string>, values: seq<bytes>, k: string)
    requires ValuesOf(db, ks, values) && k in db
    ensures ValuesOf(db, ks + [k], values + [db[k]])
  {
  }

  lemma ValuesAreLog(db: Data, cls: Class, log: seq<bytes>, values: seq<bytes>)
    requires Entries(db, cls, log) && ValuesOf(db, Counters(cls, |log|), values)
    ensures values == log
  {
    forall j | 0 <= j < |log|
      ensures values[j] == log[j]
    {
      assert HasEntry(db, cls, log, j) && Counters(cls, |log|)[j] == cls.entryKey(j + 1);
    }
  }

  method ReadEntries(db: Data, cls: Class, keys: seq<string>) returns (values: seq<bytes>)
    requires forall k :: k in keys ==> k in db
    ensures ValuesOf(db, Filter(keys, NotSeq(cls)), values)
  {
    values := [];
    ghost var done: seq<string> := [];
    for i := 0 to |keys|
      invariant done == keys[..i] && ValuesOf(db, Filter(done, NotSeq(cls)), values)
    {
      FilterGrow(done, keys[i], NotSeq(cls));
      assert keys[i] in keys;
      if keys[i] != cls.seqKey {
        ValuesGrow(db, Filter(done, NotSeq(cls)), values, keys[i]);
        values := values + [db[keys[i]]];
      }
      done := done + [keys[i]];
    }
    assert done == keys;
  }

  // ---------------------------------------------------------------- histories and events over a whole run

  function HistoryClass(): Class
  {
    ClassOf("HIST")
  }

  function EventClass(): Class
  {
    ClassOf("EVT")
  }

  lemma LogsApart(db: Data, db': Data)
    ensures OutsideSame(db, db', HistoryClass()) ==> SameClass(db, db', EventClass())
    ensures OutsideSame(db, db', EventClass()) ==> SameClass(db, db', HistoryClass())
  {
    forall k: string
      ensures !(InClass(k, EventClass()) && InClass(k, HistoryClass()))
    {
      if InClass(k, EventClass()) && InClass(k, HistoryClass()) {
        ClassesApart("EVT", "HIST", k[|ClassPrefix("HIST")|..]);
      }
    }
  }

  function Encodings(rs: seq<History>): (vs: seq<bytes>)
    ensures |vs| == |rs|
  {
    seq(|rs|, i requires 0 <= i < |rs| => EncodeHistory(rs[i]))
  }

  ghost predicate AllOk(rs: seq<History>)
  {
    forall i :: 0 <= i < |rs| ==> HistoryOk(rs[i])
  }

  datatype Op = AppendHistory(records: seq<History>) | ReplaceHistory(records: seq<History>) | AppendEvent(line: bytes)

  /** The history records since the last replace, in append order. */
  function HistoryAfter(ops: seq<Op>): seq<History>
  {
    if ops == [] then []
    else
      var before := HistoryAfter(ops[..|ops| - 1]);
      match ops[|ops| - 1]
      case AppendHistory(rs) => before + rs
      case ReplaceHistory(rs) => rs
      case AppendEvent(_) => before
  }

  function EventsAfter(ops: seq<Op>): seq<bytes>
  {
    if ops == [] then []
    else
      var before := EventsAfter(ops[..|ops| - 1]);
      if ops[|ops| - 1].AppendEvent? then before + [ops[|ops| - 1].line] else before
  }

  /** Both logs as they should be after the calls. */
  ghost predicate Logs(db: Data, ops: seq<Op>)
  {
    Holds(db, HistoryClass(), Encodings(HistoryAfter(ops))) && Holds(db, EventClass(), EventsAfter(ops))
  }

  /** Counters never run out and records are in range. */
  ghost predicate Reasonable(ops: seq<Op>)
  {
    && (forall n :: 0 <= n <= |ops| ==> |HistoryAfter(ops[..n])| < W64 && |EventsAfter(ops[..n])| < W64)
    && (forall n :: 0 <= n <= |ops| ==> AllOk(HistoryAfter(ops[..n])))
  }

  lemma EncodingsJoin(a: seq<History>, b: seq<History>)
    ensures Encodings(a + b) == Encodings(a) + Encodings(b)
  {
  }

  method SerializeAll(rs: seq<History>) returns (vs: seq<bytes>)
    requires AllOk(rs)
    ensures vs == Encodings(rs)
  {
    vs := [];
    for i := 0 to |rs|
      invariant |vs| == i && forall j :: 0 <= j < i ==> vs[j] == EncodeHistory(rs[j])
    {
      var v := SerializeHistory(rs[i]);
      vs := vs + [v];
    }
  }

  /** An append to a log in order. */
  method AppendAll(store: Store, cls: Class, values: seq<bytes>, ghost log: seq<bytes>) returns (ok: bool)
    requires Orderly(cls) && Holds(store.db, cls, log) && |log| + |values| < W64
    modifies store
    ensures ok ==> Holds(store.db, cls, log + values)
    ensures OutsideSame(old(store.db), store.db, cls)
  {
    HoldsIsLoose(store.db, cls, log);
    ghost var written;
    ok, written := store.Append(cls, values, log, []);
    if ok {
      RepairExactly(store.db, cls, log, [], values);
    }
  }

  /**
   An append that fails after some writes, a further one that succeeds, and a load: what the first left past
   the second is still returned.
   */
  method LoadAfterFailure(store: Store, cls: Class, first: seq<bytes>, second: seq<bytes>, ghost log: seq<bytes>)
    returns (failed: bool, repaired: bool, ghost written: nat, loaded: seq<bytes>)
    requires Orderly(cls) && Holds(store.db, cls, log)
    requires |log| + |first| < W64 && |log| + |second| < W64
    modifies store
    ensures written <= |first|
    ensures failed && repaired ==> loaded == log + Over(first[..written], second)
    ensures failed && repaired ==> (loaded == log + second <==> written <= |second|)
  {
    HoldsIsLoose(store.db, cls, log);
    var done;
    done, written := store.Append(cls, first, log, []);
    failed, repaired, loaded := !done, false, [];
    if done {
      return;
    }
    ghost var tail := first[..written];
    assert Over([], tail) == tail;
    ghost var count;
    repaired, count := store.Append(cls, second, log, tail);
    if repaired {
      assert log + second + Over(tail, second)[|second|..] == log + Over(tail, second);
      loaded := store.Load(cls, log + Over(tail, second));
    }
  }

  /** One call on the store; on success both logs are the ones after it. */
  method RunOp(store: Store, ghost done: seq<Op>, op: Op) returns (ok: bool)
    requires Logs(store.db, done) && Reasonable(done + [op])
    modifies store
    ensures ok ==> Logs(store.db, done + [op])
  {
    ghost var before := store.db;
    ghost var after := done + [op];
    assert after[..|done|] == done && after[..|after|] == after;
    assert |HistoryAfter(after[..|after|])| < W64 && |EventsAfter(after[..|after|])| < W64;
    ClassIsOrderly("HIST");
    ClassIsOrderly("EVT");
    if !op.AppendEvent? {
      NewRecordsOk(done, op);
    }
    match op
    case AppendHistory(rs) =>
      var vs := SerializeAll(rs);
      ok := AppendAll(store, HistoryClass(), vs, Encodings(HistoryAfter(done)));
      EncodingsJoin(HistoryAfter(done), rs);
      LogsApart(before, store.db);
      OtherKeysKeep(before, store.db, EventClass(), EventsAfter(done));
    case ReplaceHistory(rs) =>
      var vs := SerializeAll(rs);
      ok := store.Replace(HistoryClass(), vs);
      LogsApart(before, store.db);
      OtherKeysKeep(before, store.db, EventClass(), EventsAfter(done));
    case AppendEvent(line) =>
      ok := AppendAll(store, EventClass(), [line], EventsAfter(done));
      LogsApart(before, store.db);
      OtherKeysKeep(before, store.db, HistoryClass(), Encodings(HistoryAfter(done)));
  }

  lemma NewRecordsOk(done: seq<Op>, op: Op)
    requires Reasonable(done + [op]) && !op.AppendEvent?
    ensures AllOk(op.records)
  {
    var after := done + [op];
    assert after[..|done|] == done && after[..|after|] == after;
    var all := HistoryAfter(after[..|after|]);
    assert AllOk(all);
    var skip := |all| - |op.records|;
    forall i | 0 <= i < |op.records|
      ensures HistoryOk(op.records[i])
    {
      assert all[skip + i] == op.records[i];
    }
  }

  lemma ReasonablePrefix(ops: seq<Op>, n: nat)
    requires Reasonable(ops) && n <= |ops|
    ensures Reasonable(ops[..n])
  {
    forall m | 0 <= m <= n
      ensures ops[..n][..m] == ops[..m]
    {
    }
  }

  lemma EmptyLogs(db: Data)
    requires db == map[]
    ensures Logs(db, [])
  {
  }

  /**
   Any mix of successful calls on an empty store: loading then returns the history records since the
   last replace and every event, both in append order.
   */
  method RunAll(store: Store, ops: seq<Op>) returns (ok: bool)
    requires store.db == map[] && Reasonable(ops)
    modifies store
    ensures ok ==> Logs(store.db, ops)
  {
    EmptyLogs(store.db);
    for i := 0 to |ops|
      invariant Logs(store.db, ops[..i])
    {
      assert ops[..i + 1] == ops[..i] + [ops[i]];
      ReasonablePrefix(ops, i + 1);
      ok := RunOp(store, ops[..i], ops[i]);
      if !ok {
        return;
      }
    }
    assert ops[..|ops|] == ops;
    ok := true;
  }

  method LoadHistory(store: Store, ghost rs: seq<History>) returns (out: seq<History>)
    requires Entries(store.db, HistoryClass(), Encodings(rs)) && AllOk(rs)
    ensures out == rs
  {
    ClassIsOrderly("HIST");
    var values := store.Load(HistoryClass(), Encodings(rs));
    out := DecodeAll(values, rs);
  }

  /** The parsing loop of load, which skips what does not parse. */
  method DecodeAll(values: seq<bytes>, ghost rs: seq<History>) returns (out: seq<History>)
    requires values == Encodings(rs) && AllOk(rs)
    ensures out == rs
  {
    out := [];
    for i := 0 to |values|
      invariant out == rs[..i]
    {
      var parsed := DecodeOne(values[i], rs[i]);
      if parsed.Some? {
        out := out + [parsed.value];
      }
    }
  }

  method DecodeOne(value: bytes, ghost r: History) returns (parsed: Option<History>)
    requires HistoryOk(r) && value == EncodeHistory(r)
    ensures parsed == Some(r)
  {
    HistoryExact(value, r);
    parsed := DecodeHistory(value);
  }

  method LoadEvents(store: Store, ghost events: seq<bytes>) returns (out: seq<bytes>)
    requires Entries(store.db, EventClass(), events)
    ensures out == events
  {
    ClassIsOrderly("EVT");
    out := store.Load(EventClass(), events);
  }
}
