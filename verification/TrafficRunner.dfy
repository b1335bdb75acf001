/**
 The runner of the testnet traffic tool: it takes coins, builds transactions, saves confidential
 secrets before broadcasting, tracks open transactions and recovers after a crash. Server answers,
 random picks and crashes are parameters.
 */
module TrafficRunner {
  import opened Options
  import opened Traffic
  import SavedWallet

  const EXPIRE_BLOCKS: nat := 20
  const MAX_POLLED: nat := 100

  const WORK_COIN_UNITS: nat := 24_000_000
  const DUST_UNITS: nat := 546

  /** Subtraction of 64-bit unsigned amounts. */
  function U64Sub(a: nat, b: nat): nat
  {
    (a - b) % 0x1_0000_0000_0000_0000
  }

  function TotalAmount(coins: seq<ConfCoin>): nat
  {
    if coins == [] then 0 else coins[0].amount + TotalAmount(coins[1..])
  }

  datatype Utxo = Utxo(op: OutPoint, value: nat, plain: bool, spendable: bool)

  datatype Built = Built(
    txid: TxId, split: bool, timed: bool, inputs: seq<Coin>, bodyInputs: set<OutPoint>, bodyRelease: nat,
    expireAfter: nat, confSpent: set<OutPoint>, confCreated: seq<ConfCoin>)

  /** The server's reply to a broadcast; Ambiguous may have reached the node. */
  datatype Answer = Accepted | Ambiguous | Rejected(inputsGone: bool)

  /** Where the process dies inside a send, if it does; a failed save is a death before the save took effect. */
  datatype Fate = Lives | DiesBeforeSave | DiesBeforeBroadcast | DiesAfterBroadcast

  datatype Event =
    | NewTip(height: nat)
    | Refresh(listings: seq<Option<seq<Utxo>>>)
    | Poll(order: seq<TxId>, statuses: map<TxId, bool>)
    | Die(tip: nat, statuses: map<TxId, bool>, gone: set<OutPoint>)
    | SendPlain(min: nat, plainOnly: bool, split: bool, pick: nat, salt: nat, signs: bool, answer: Answer, fate: Fate)
    | SendShield(min: nat, fee: nat, k: nat, pick: nat, salt: nat, pays: bool, signs: bool, answer: Answer, fate: Fate)
    | SendConf(c2c: bool, fee: nat, k1: nat, k2: nat, pick: nat, salt: nat, pays1: bool, pays2: bool, signs: bool,
               answer: Answer, fate: Fate)
    | SendTimed(fee: nat, body: seq<nat>, release: nat, lastInclusion: nat, salt: nat, plans: bool, answer: Answer,
                fate: Fate)

  predicate Sends(e: Event)
  {
    e.SendPlain? || e.SendShield? || e.SendConf? || e.SendTimed?
  }

  /** The process does not outlive the event. */
  predicate Ends(e: Event)
  {
    e.Die? || (Sends(e) && !e.fate.Lives?)
  }

  /** The process lives through the script, and every tip on the way is below the height. */
  predicate Below(script: seq<Event>, height: nat)
  {
    forall i :: 0 <= i < |script| ==> !Ends(script[i]) && (script[i].NewTip? ==> script[i].height < height)
  }

  function Ops(coins: seq<Coin>): (s: set<OutPoint>)
    ensures forall i :: 0 <= i < |coins| ==> coins[i].op in s
    ensures forall op :: op in s ==> exists i :: 0 <= i < |coins| && coins[i].op == op
  {
    set i | 0 <= i < |coins| :: coins[i].op
  }

  function ConfOps(coins: seq<ConfCoin>): (s: set<OutPoint>)
    ensures forall i :: 0 <= i < |coins| ==> coins[i].op in s
    ensures forall op :: op in s ==> exists i :: 0 <= i < |coins| && coins[i].op == op
  {
    set i | 0 <= i < |coins| :: coins[i].op
  }

  function EntryOf(b: Built): InFlight
  {
    InFlight(b.split, b.expireAfter, Ops(b.inputs), b.confSpent, ConfOps(b.confCreated), b.timed)
  }

  function SentOf(b: Built): set<Sent>
  {
    set i | 0 <= i < |b.confCreated| :: Sent(b.confCreated[i].payment, b.confCreated[i].op, b.confCreated[i].amount)
  }

  // ---------------------------------------------------------------- record updates

  function Remark(c: ConfCoin, ops: set<OutPoint>, t: TxId): ConfCoin
  {
    if c.op in ops then c.(spendTxid := t) else c
  }

  /** A rejected spend: the mark goes; a coin the chain no longer has is spent. */
  function Release(c: ConfCoin, ops: set<OutPoint>, gone: bool): ConfCoin
  {
    if c.op in ops then c.(spendTxid := NoTx, spent := c.spent || gone) else c
  }

  /** A final transaction: its outputs become spendable, its inputs are spent. */
  function Settle(c: ConfCoin, created: set<OutPoint>, used: set<OutPoint>): ConfCoin
  {
    var c1 := if c.op in created then c.(originFinal := true) else c;
    if c.op in used then c1.(spent := true, spendTxid := NoTx) else c1
  }

  /** Only flags and marks differ: same coins, same secrets, same order. */
  ghost predicate SameCoins(before: seq<ConfCoin>, after: seq<ConfCoin>)
  {
    && |after| == |before|
    && forall i :: 0 <= i < |before| ==>
         after[i].op == before[i].op && after[i].payment == before[i].payment && after[i].amount == before[i].amount
  }

  lemma SameCoinsKeep(w: Wallet, conf: seq<ConfCoin>, sent: set<Sent>, refused: set<TxId>)
    requires SameCoins(w.conf, conf)
    ensures DistinctConf(w.conf) ==> DistinctConf(conf)
    ensures Counted(w) ==> Counted(w.(conf := conf))
    ensures SecretsKept(w.conf, sent, refused) ==> SecretsKept(conf, sent, refused)
  {
    forall o | HasSecrets(w.conf, o)
      ensures HasSecrets(conf, o)
    {
      var i :| 0 <= i < |w.conf| && w.conf[i].op == o.op && w.conf[i].payment == o.payment
        && w.conf[i].amount == o.amount;
      assert conf[i].op == o.op;
    }
  }

  // ---------------------------------------------------------------- what a built transaction guarantees

  ghost predicate InputsFree(b: Built, coins: seq<Coin>, reserved: set<OutPoint>)
  {
    && Tracked(b.txid, EntryOf(b))
    && DistinctCoins(b.inputs)
    && Ops(b.inputs) !! reserved && Ops(b.inputs) !! Ops(coins)
    && b.bodyInputs !! reserved && b.bodyInputs !! Ops(b.inputs) && b.bodyInputs !! Ops(coins)
  }

  ghost predicate SpendsFree(b: Built, conf: seq<ConfCoin>)
  {
    && (b.confSpent != {} ==> exists i :: 0 <= i < |conf| && b.confSpent == {conf[i].op} && conf[i].spendTxid == NoTx)
  }

  /** Its outputs go to requests issued since the last save. */
  ghost predicate CreatesFresh(b: Built, disk: Wallet, w: Wallet)
  {
    && b.txid.Tx? && |b.confCreated| == |b.txid.outs|
    && (forall i :: 0 <= i < |b.confCreated| ==>
          var c := b.confCreated[i];
          && c.op == OutPoint(b.txid, i) && c.payment == b.txid.outs[i] && c.spendTxid == NoTx
          && disk.Next(c.payment.key) <= c.payment.ordinal < w.Next(c.payment.key))
    && (forall i, j :: 0 <= i < j < |b.confCreated| ==> b.confCreated[i].payment != b.confCreated[j].payment)
  }

  /** Every record in memory was counted in the file that is on disk. */
  ghost predicate CountedOnDisk(conf: seq<ConfCoin>, disk: Wallet)
  {
    forall i :: 0 <= i < |conf| ==> conf[i].payment.ordinal < disk.Next(conf[i].payment.key)
  }

  /** Appending the created coins: distinct outpoints, every payment counted. */
  lemma PushCounts(b: Built, disk: Wallet, w: Wallet)
    requires WalletOk(w) && CountedOnDisk(w.conf, disk) && CreatesFresh(b, disk, w)
    ensures DistinctConf(w.conf + b.confCreated) && Counted(w.(conf := w.conf + b.confCreated))
  {
    var all := w.conf + b.confCreated;
    forall i | 0 <= i < |all|
      ensures OpOf(all[i].op, all[i].payment) && all[i].payment.ordinal < w.Next(all[i].payment.key)
      ensures i >= |w.conf| ==> all[i].op == OutPoint(b.txid, i - |w.conf|)
                                && all[i].payment.ordinal >= disk.Next(all[i].payment.key)
    {
      if i >= |w.conf| {
        assert all[i] == b.confCreated[i - |w.conf|];
      }
    }
  }

  lemma PushSecrets(b: Built, conf: seq<ConfCoin>, sent: set<Sent>, refused: set<TxId>)
    requires SecretsKept(conf, sent, refused)
    ensures SecretsKept(conf + b.confCreated, sent + SentOf(b), refused)
  {
    var all := conf + b.confCreated;
    forall o | o in sent + SentOf(b) && o.op.txid !in refused
      ensures HasSecrets(all, o)
    {
      if o in sent {
        var i :| 0 <= i < |conf| && conf[i].op == o.op && conf[i].payment == o.payment && conf[i].amount == o.amount;
        assert all[i] == conf[i];
      } else {
        var i :| 0 <= i < |b.confCreated|
          && o == Sent(b.confCreated[i].payment, b.confCreated[i].op, b.confCreated[i].amount);
        assert all[|conf| + i] == b.confCreated[i];
      }
    }
  }

  ghost predicate Pushed(b: Built, before: seq<ConfCoin>, conf: seq<ConfCoin>)
  {
    && |conf| == |before| + |b.confCreated|
    && forall i :: 0 <= i < |conf| ==> 
      var c := (before + b.confCreated)[i];
      conf[i] == if c.op in b.confSpent then c.(spendTxid := b.txid) else c
  }

  lemma PushKeeps(b: Built, disk: Wallet, w: Wallet, sent: set<Sent>, refused: set<TxId>, conf: seq<ConfCoin>)
    requires WalletOk(w) && CountedOnDisk(w.conf, disk) && CreatesFresh(b, disk, w)
    requires b.confSpent != {} ==> b.txid.confidential && b.txid.inputs == b.confSpent && |b.confSpent| == 1
    requires SecretsKept(w.conf, sent, refused) && Pushed(b, w.conf, conf)
    ensures WalletOk(w.(conf := conf)) && SecretsKept(conf, sent + SentOf(b), refused)
  {
    var all := w.conf + b.confCreated;
    PushCounts(b, disk, w);
    PushSecrets(b, w.conf, sent, refused);
    SameCoinsKeep(w.(conf := all), conf, sent + SentOf(b), refused);
    forall i | 0 <= i < |conf| && conf[i].spendTxid != NoTx
      ensures conf[i].spendTxid.Tx? && conf[i].spendTxid.confidential && conf[i].spendTxid.inputs == {conf[i].op}
    {
      assert i < |w.conf| ==> all[i] == w.conf[i];
      if conf[i].op in b.confSpent {
        assert {conf[i].op} <= b.confSpent && |b.confSpent - {conf[i].op}| == 0;
      }
    }
  }

  lemma SentGrows(b: Built, disk: Wallet, w: Wallet, sent: set<Sent>)
    requires SentOk(sent, disk) && Ahead(disk, w) && CreatesFresh(b, disk, w)
    ensures SentOk(sent + SentOf(b), w)
  {
    forall o | o in SentOf(b)
      ensures OpOf(o.op, o.payment) && disk.Next(o.payment.key) <= o.payment.ordinal < w.Next(o.payment.key)
    {
    }
    forall o, p | o in SentOf(b) && p in SentOf(b) && o.payment == p.payment
      ensures o == p
    {
      var i :| 0 <= i < |b.confCreated|
        && o == Sent(b.confCreated[i].payment, b.confCreated[i].op, b.confCreated[i].amount);
      var j :| 0 <= j < |b.confCreated|
        && p == Sent(b.confCreated[j].payment, b.confCreated[j].op, b.confCreated[j].amount);
      assert !(i < j) && !(j < i);
    }
  }

  lemma CreatedApart(b: Built, disk: Wallet, w: Wallet, i: nat, j: nat)
    requires WalletOk(w) && CountedOnDisk(w.conf, disk) && CreatesFresh(b, disk, w)
    requires i < |w.conf| && j < |b.confCreated|
    ensures w.conf[i].op != b.confCreated[j].op
  {
    assert OpOf(w.conf[i].op, w.conf[i].payment) && OpOf(b.confCreated[j].op, b.confCreated[j].payment);
  }

  /** The created coins sit behind the old ones and share no outpoint with them. */
  lemma PushedSplit(b: Built, disk: Wallet, w: Wallet, conf: seq<ConfCoin>)
    requires WalletOk(w) && CountedOnDisk(w.conf, disk) && CreatesFresh(b, disk, w) && Pushed(b, w.conf, conf)
    ensures forall i :: 0 <= i < |w.conf| ==>
      conf[i] == Remark(w.conf[i], b.confSpent, b.txid) && conf[i].op !in ConfOps(b.confCreated)
    ensures forall i :: |w.conf| <= i < |conf| ==> conf[i].op in ConfOps(b.confCreated)
  {
    var all := w.conf + b.confCreated;
    forall i | 0 <= i < |w.conf|
      ensures conf[i] == Remark(w.conf[i], b.confSpent, b.txid) && conf[i].op !in ConfOps(b.confCreated)
    {
      assert all[i] == w.conf[i];
      forall j | 0 <= j < |b.confCreated|
        ensures w.conf[i].op != b.confCreated[j].op
      {
        CreatedApart(b, disk, w, i, j);
      }
    }
    forall i | |w.conf| <= i < |conf|
      ensures conf[i].op in ConfOps(b.confCreated)
    {
      assert all[i] == b.confCreated[i - |w.conf|];
    }
  }

  lemma MarksAfterPush(b: Built, disk: Wallet, w: Wallet, inflight: map<TxId, InFlight>, conf: seq<ConfCoin>)
    requires WalletOk(w) && CountedOnDisk(w.conf, disk) && CreatesFresh(b, disk, w) && Pushed(b, w.conf, conf)
    requires Marked(w.conf, inflight) && SpendsKnown(w.conf, inflight) && AllTracked(inflight) && SpendsFree(b, w.conf)
    ensures Marked(conf, inflight) && SpendsKnown(conf, inflight)
  {
    PushedSplit(b, disk, w, conf);
    forall t, op | t in inflight && op in inflight[t].confSpent
      ensures op in ConfOps(conf) && op !in ConfOps(b.confCreated) && op !in b.confSpent
    {
      assert op in ConfOps(w.conf);
      var i :| 0 <= i < |w.conf| && w.conf[i].op == op;
      assert w.conf[i].spendTxid == t && conf[i].op == op;
      if b.confSpent != {} {
        var j :| 0 <= j < |w.conf| && b.confSpent == {w.conf[j].op} && w.conf[j].spendTxid == NoTx;
        assert j != i;
        assert i < j || j < i;
      }
    }
  }

  /** What a rejected send leaves: the old records, the spent coin unmarked (and spent, if the chain lost it). */
  ghost predicate Restored(b: Built, gone: bool, before: seq<ConfCoin>, after: seq<ConfCoin>)
  {
    && |after| == |before|
    && forall i :: 0 <= i < |before| ==>
      var c := before[i];
      after[i] == if c.op in b.confSpent then c.(spendTxid := NoTx, spent := c.spent || gone) else c
  }

  lemma SpentUnmarked(b: Built, conf: seq<ConfCoin>)
    requires DistinctConf(conf) && SpendsFree(b, conf)
    ensures forall i :: 0 <= i < |conf| && conf[i].op in b.confSpent ==> conf[i].spendTxid == NoTx
  {
    forall i | 0 <= i < |conf| && conf[i].op in b.confSpent
      ensures conf[i].spendTxid == NoTx
    {
      var j :| 0 <= j < |conf| && b.confSpent == {conf[j].op} && conf[j].spendTxid == NoTx;
      assert !(i < j) && !(j < i);
    }
  }

  lemma SameOps(before: seq<ConfCoin>, after: seq<ConfCoin>)
    requires |after| == |before| && forall i :: 0 <= i < |before| ==> after[i].op == before[i].op
    ensures ConfOps(after) == ConfOps(before)
  {
    forall op | op in ConfOps(before)
      ensures op in ConfOps(after)
    {
      var i :| 0 <= i < |before| && before[i].op == op;
      assert after[i].op == op;
    }
  }

  /** Undoing an unbroadcast spend changes no mark, only the spent flag of a lost coin. */
  lemma RestoredFields(b: Built, gone: bool, before: seq<ConfCoin>, after: seq<ConfCoin>)
    requires Restored(b, gone, before, after) && DistinctConf(before) && SpendsFree(b, before)
    ensures SameCoins(before, after) && forall i :: 0 <= i < |before| ==> after[i].spendTxid == before[i].spendTxid
    ensures !gone ==> after == before
  {
    SpentUnmarked(b, before);
  }

  lemma SameMarks(before: seq<ConfCoin>, after: seq<ConfCoin>, inflight: map<TxId, InFlight>)
    requires SameCoins(before, after) && forall i :: 0 <= i < |before| ==> after[i].spendTxid == before[i].spendTxid
    ensures Marked(before, inflight) ==> Marked(after, inflight)
    ensures SpendsKnown(before, inflight) ==> SpendsKnown(after, inflight)
    ensures MarksHonest(before) ==> MarksHonest(after)
  {
    SameOps(before, after);
  }

  lemma RestoredKeeps(
      b: Built, gone: bool, w: Wallet, conf: seq<ConfCoin>, inflight: map<TxId, InFlight>, sent: set<Sent>,
      refused: set<TxId>)
    requires Restored(b, gone, w.conf, conf) && WalletOk(w) && SpendsFree(b, w.conf)
    requires Marked(w.conf, inflight) && SpendsKnown(w.conf, inflight) && SecretsKept(w.conf, sent, refused)
    ensures WalletOk(w.(conf := conf)) && Marked(conf, inflight) && SpendsKnown(conf, inflight)
      && SecretsKept(conf, sent, refused)
    ensures !gone ==> conf == w.conf
  {
    RestoredFields(b, gone, w.conf, conf);
    SameMarks(w.conf, conf, inflight);
    SameCoinsKeep(w, conf, sent, refused);
  }

  lemma NextIsStable(before: Wallet, after: Wallet, d: Wallet, sent: set<Sent>)
    requires before.nextRequest == after.nextRequest && Ahead(d, before)
    ensures forall k :: after.Next(k) == before.Next(k)
    ensures Ahead(d, after)
  {
  }

  ghost predicate MarkedFor(conf: seq<ConfCoin>, ops: set<OutPoint>, t: TxId)
  {
    && (forall i :: 0 <= i < |conf| && conf[i].op in ops ==> conf[i].spendTxid == t)
    && forall op :: op in ops ==> op in ConfOps(conf)
  }

  lemma TrackMarks(conf: seq<ConfCoin>, inflight: map<TxId, InFlight>, t: TxId, f: InFlight)
    requires Marked(conf, inflight) && SpendsKnown(conf, inflight) && MarkedFor(conf, f.confSpent, t)
    ensures Marked(conf, inflight[t := f]) && SpendsKnown(conf, inflight[t := f])
  {
  }

  lemma CacheStaysFree(coins: seq<Coin>, reserved: set<OutPoint>, more: set<OutPoint>)
    requires CacheFree(coins, reserved) && Ops(coins) !! more
    ensures CacheFree(coins, reserved + more)
  {
    forall i | 0 <= i < |coins|
      ensures coins[i].op !in reserved + more
    {
      assert coins[i].op in Ops(coins);
    }
  }

  lemma MarkedAfterPush(b: Built, disk: Wallet, w: Wallet, conf: seq<ConfCoin>)
    requires WalletOk(w) && CountedOnDisk(w.conf, disk) && CreatesFresh(b, disk, w) && SpendsFree(b, w.conf)
    requires b.confCreated != [] || b.confSpent != {} ==> Pushed(b, w.conf, conf)
    ensures MarkedFor(conf, b.confSpent, b.txid)
  {
    if b.confSpent != {} {
      PushedSplit(b, disk, w, conf);
      var j :| 0 <= j < |w.conf| && b.confSpent == {w.conf[j].op} && w.conf[j].spendTxid == NoTx;
      assert conf[j].op == w.conf[j].op;
    }
  }

  /** A record when a transaction of ours is final, or given up. */
  function Update(final: bool, created: set<OutPoint>, used: set<OutPoint>, c: ConfCoin): ConfCoin
  {
    if final then Settle(c, created, used) else Remark(c, used, NoTx)
  }

  ghost predicate Updated(final: bool, created: set<OutPoint>, used: set<OutPoint>, before: seq<ConfCoin>,
                          after: seq<ConfCoin>)
  {
    |after| == |before| && forall i :: 0 <= i < |before| ==> after[i] == Update(final, created, used, before[i])
  }

  lemma UpdatedKeeps(
      final: bool, created: set<OutPoint>, used: set<OutPoint>, w: Wallet, conf: seq<ConfCoin>, sent: set<Sent>,
      refused: set<TxId>)
    requires Updated(final, created, used, w.conf, conf) && WalletOk(w)
    ensures WalletOk(w.(conf := conf)) && (SecretsKept(w.conf, sent, refused) ==> SecretsKept(conf, sent, refused))
  {
    SameCoinsKeep(w, conf, sent, refused);
  }

  lemma UpdatedMarks(
      final: bool, created: set<OutPoint>, before: seq<ConfCoin>, after: seq<ConfCoin>, inflight: map<TxId, InFlight>,
      t: TxId)
    requires t in inflight && Updated(final, created, inflight[t].confSpent, before, after)
    requires Marked(before, inflight) && SpendsKnown(before, inflight)
    ensures Marked(after, inflight - {t}) && SpendsKnown(after, inflight - {t})
  {
    forall op | op in ConfOps(before)
      ensures op in ConfOps(after)
    {
      var i :| 0 <= i < |before| && before[i].op == op;
      assert after[i].op == op;
    }
  }

  /** The server reports it final, or it is past its expiry and the server answers that it is not. */
  predicate Done(statuses: map<TxId, bool>, t: TxId, f: InFlight, tip: nat)
  {
    t in statuses && (statuses[t] || tip > f.expireAfter)
  }

  function Closing(inflight: map<TxId, InFlight>, polled: seq<TxId>, statuses: map<TxId, bool>, tip: nat): set<TxId>
  {
    set t | t in polled && t in inflight && Done(statuses, t, inflight[t], tip)
  }

  lemma ClosingGrows(before: map<TxId, InFlight>, order: seq<TxId>, i: nat, statuses: map<TxId, bool>, tip: nat)
    requires i < |order|
    ensures
      var rest := before - Closing(before, order[..i], statuses, tip);
      rest - Closing(rest, [order[i]], statuses, tip) == before - Closing(before, order[..i + 1], statuses, tip)
  {
    assert order[..i + 1] == order[..i] + [order[i]];
  }

  /** Some closed transaction that the server reports final created the coin. */
  ghost predicate MadeFinal(was: map<TxId, InFlight>, closed: set<TxId>, statuses: map<TxId, bool>, op: OutPoint)
  {
    exists t :: t in closed && t in was && t in statuses && statuses[t] && op in was[t].confCreated
  }

  ghost predicate SpentFinal(was: map<TxId, InFlight>, closed: set<TxId>, statuses: map<TxId, bool>, op: OutPoint)
  {
    exists t :: t in closed && t in was && t in statuses && statuses[t] && op in was[t].confSpent
  }

  ghost predicate SpendClosed(was: map<TxId, InFlight>, closed: set<TxId>, op: OutPoint)
  {
    exists t :: t in closed && t in was && op in was[t].confSpent
  }

  /** A record after the closed transactions settled, in whatever order. */
  ghost function Polled(was: map<TxId, InFlight>, closed: set<TxId>, statuses: map<TxId, bool>, c: ConfCoin): ConfCoin
  {
    c.(originFinal := c.originFinal || MadeFinal(was, closed, statuses, c.op),
       spent := c.spent || SpentFinal(was, closed, statuses, c.op),
       spendTxid := if SpendClosed(was, closed, c.op) then NoTx else c.spendTxid)
  }

  ghost predicate AllPolled(
      was: map<TxId, InFlight>, closed: set<TxId>, statuses: map<TxId, bool>, before: seq<ConfCoin>,
      after: seq<ConfCoin>)
  {
    |after| == |before| && forall i :: 0 <= i < |before| ==> after[i] == Polled(was, closed, statuses, before[i])
  }

  lemma PolledOne(was: map<TxId, InFlight>, closed: set<TxId>, statuses: map<TxId, bool>, t: TxId, c: ConfCoin)
    requires t in was && t in statuses
    ensures Update(statuses[t], was[t].confCreated, was[t].confSpent, Polled(was, closed, statuses, c)) ==
      Polled(was, closed + {t}, statuses, c)
  {
    assert MadeFinal(was, closed + {t}, statuses, c.op) <==>
      MadeFinal(was, closed, statuses, c.op) || (statuses[t] && c.op in was[t].confCreated);
    assert SpentFinal(was, closed + {t}, statuses, c.op) <==>
      SpentFinal(was, closed, statuses, c.op) || (statuses[t] && c.op in was[t].confSpent);
    assert SpendClosed(was, closed + {t}, c.op) <==> SpendClosed(was, closed, c.op) || c.op in was[t].confSpent;
  }

  lemma PolledAll(was: map<TxId, InFlight>, closed: set<TxId>, statuses: map<TxId, bool>, t: TxId,
                  before: seq<ConfCoin>, mid: seq<ConfCoin>, after: seq<ConfCoin>)
    requires t in was && t in statuses && AllPolled(was, closed, statuses, before, mid)
    requires Updated(statuses[t], was[t].confCreated, was[t].confSpent, mid, after)
    ensures AllPolled(was, closed + {t}, statuses, before, after)
  {
    forall i | 0 <= i < |before|
      ensures after[i] == Polled(was, closed + {t}, statuses, before[i])
    {
      PolledOne(was, closed, statuses, t, before[i]);
    }
  }

  /** The records and the reserved coins once the closed transactions have settled. */
  ghost predicate Settled(
      was: map<TxId, InFlight>, closed: set<TxId>, statuses: map<TxId, bool>,
      reserved: set<OutPoint>, reserved': set<OutPoint>, before: seq<ConfCoin>, after: seq<ConfCoin>)
  {
    AllPolled(was, closed, statuses, before, after) && reserved' == reserved - InputsOf(was, closed)
  }

  lemma NothingClosed(was: map<TxId, InFlight>, order: seq<TxId>, statuses: map<TxId, bool>, tip: nat,
                      reserved: set<OutPoint>, conf: seq<ConfCoin>)
    ensures Closing(was, order[..0], statuses, tip) == {}
    ensures was - Closing(was, order[..0], statuses, tip) == was
    ensures Settled(was, Closing(was, order[..0], statuses, tip), statuses, reserved, reserved, conf, conf)
  {
    assert was - {} == was;
  }

  /** The loop step: polling one more transaction closes it, or changes nothing. */
  lemma PolledNext(was: map<TxId, InFlight>, order: seq<TxId>, k: nat, statuses: map<TxId, bool>, tip: nat,
                   free: set<OutPoint>, left: set<OutPoint>, reserved: set<OutPoint>,
                   before: seq<ConfCoin>, mid: seq<ConfCoin>, after: seq<ConfCoin>)
    requires k < |order| && Settled(was, Closing(was, order[..k], statuses, tip), statuses, free, left, before, mid)
    requires
      var t := order[k];
      if t in was - Closing(was, order[..k], statuses, tip) && Done(statuses, t, was[t], tip)
      then Updated(statuses[t], was[t].confCreated, was[t].confSpent, mid, after) && reserved == left - was[t].inputs
      else after == mid && reserved == left
    ensures Settled(was, Closing(was, order[..k + 1], statuses, tip), statuses, free, reserved, before, after)
  {
    var t, closed := order[k], Closing(was, order[..k], statuses, tip);
    assert order[..k + 1] == order[..k] + [t];
    if t in was - closed && Done(statuses, t, was[t], tip) {
      assert Closing(was, order[..k + 1], statuses, tip) == closed + {t};
      PolledAll(was, closed, statuses, t, before, mid, after);
    } else {
      assert Closing(was, order[..k + 1], statuses, tip) == closed;
    }
  }

  function InputsOf(was: map<TxId, InFlight>, closed: set<TxId>): set<OutPoint>
  {
    set t, op | t in closed && t in was && op in was[t].inputs :: op
  }

  /**
   One record after a restart. Its creating transaction may be final; its spend may be final; and a coin the
   server reports absent was spent by a transaction this wallet lost track of.
   */
  function Recheck(c: ConfCoin, statuses: map<TxId, bool>, gone: set<OutPoint>): ConfCoin
  {
    var c1 := if !c.originFinal && c.op.txid in statuses && statuses[c.op.txid] then c.(originFinal := true) else c;
    var c2 := if c1.spendTxid != NoTx && c1.spendTxid in statuses && statuses[c1.spendTxid]
              then c1.(spent := true, spendTxid := NoTx) else c1;
    if c2.originFinal && !c2.spent && c2.spendTxid == NoTx && c2.op in gone then c2.(spent := true) else c2
  }

  ghost predicate IsFinal(statuses: map<TxId, bool>, t: TxId)
  {
    t != NoTx && t in statuses && statuses[t]
  }

  /** A record after a restart: what the server's answers and the proofs of absence make of it, field by field. */
  ghost predicate Rechecked(c: ConfCoin, now: ConfCoin, statuses: map<TxId, bool>, gone: set<OutPoint>)
  {
    && now.op == c.op && now.payment == c.payment && now.amount == c.amount
    && (now.originFinal <==> c.originFinal || (c.op.txid in statuses && statuses[c.op.txid]))
    && now.spendTxid == (if IsFinal(statuses, c.spendTxid) then NoTx else c.spendTxid)
    && (now.spent <==>
        || c.spent || IsFinal(statuses, c.spendTxid)
        || (now.originFinal && now.spendTxid == NoTx && c.op in gone))
  }

  lemma RecheckMeans(was: seq<ConfCoin>, conf: seq<ConfCoin>, statuses: map<TxId, bool>, gone: set<OutPoint>)
    requires |conf| == |was| && forall i :: 0 <= i < |conf| ==> conf[i] == Recheck(was[i], statuses, gone)
    ensures forall i :: 0 <= i < |conf| ==> Rechecked(was[i], conf[i], statuses, gone)
  {
  }

  /** What the first `i` rechecked records and the transactions reopened for them satisfy. */
  ghost predicate Resumed(was: seq<ConfCoin>, conf: seq<ConfCoin>, open: map<TxId, InFlight>, i: nat)
    requires i <= |conf|
  {
    && SameCoins(was, conf) && MarksHonest(conf) && DistinctConf(conf)
    && UseOk({}, open, []) && Marked(conf, open) && SpendsKnown(conf[..i], open)
    && forall j :: 0 <= j < i && conf[j].spendTxid != NoTx ==> conf[j].spendTxid in open
  }

  lemma OpsGrow(a: seq<ConfCoin>, b: seq<ConfCoin>)
    requires |a| <= |b| && forall i :: 0 <= i < |a| ==> a[i].op == b[i].op
    ensures ConfOps(a) <= ConfOps(b)
  {
    forall op | op in ConfOps(a)
      ensures op in ConfOps(b)
    {
      var i :| 0 <= i < |a| && a[i].op == op;
      assert b[i].op == op;
    }
  }

  lemma NotBefore(conf: seq<ConfCoin>, i: nat)
    requires i < |conf| && DistinctConf(conf)
    ensures conf[i].op !in ConfOps(conf[..i])
  {
    forall j | 0 <= j < i
      ensures conf[..i][j].op != conf[i].op
    {
    }
  }

  /** The i-th record is rechecked without reopening a transaction for it. */
  lemma ReplaceOne(was: seq<ConfCoin>, conf: seq<ConfCoin>, open: map<TxId, InFlight>, i: nat, c: ConfCoin)
    requires i < |conf| && Resumed(was, conf, open, i)
    requires c.op == conf[i].op && c.payment == conf[i].payment && c.amount == conf[i].amount
    requires c.spendTxid == NoTx || c.spendTxid == conf[i].spendTxid
    requires c.spendTxid != NoTx ==> c.spendTxid in open
    ensures Resumed(was, conf[i := c], open, i + 1)
  {
    NotBefore(conf, i);
    OpsGrow(conf[..i], conf[i := c][..i + 1]);
  }

  lemma ReopenOne(was: seq<ConfCoin>, conf: seq<ConfCoin>, open: map<TxId, InFlight>, i: nat, expire: nat)
    requires i < |conf| && Resumed(was, conf, open, i)
    requires conf[i].spendTxid != NoTx && conf[i].spendTxid !in open
    ensures Resumed(was, conf, open[conf[i].spendTxid := InFlight(false, expire, {}, {conf[i].op}, {}, false)], i + 1)
  {
    var t := conf[i].spendTxid;
    var f := InFlight(false, expire, {}, {conf[i].op}, {}, false);
    OpenInFlight({}, open, [], t, f);
    assert {} + f.inputs == {};
    OpsGrow(conf[..i], conf[..i + 1]);
    assert conf[..i + 1][i].op in ConfOps(conf[..i + 1]);
    forall j | 0 <= j < |conf| && conf[j].op in f.confSpent
      ensures conf[j].spendTxid == t
    {
      assert !(i < j) && !(j < i);
    }
  }

  /** The restart loop over the wallet's records. */
  method ResumeAll(was: seq<ConfCoin>, statuses: map<TxId, bool>, gone: set<OutPoint>, tip: nat)
    returns (conf: seq<ConfCoin>, open: map<TxId, InFlight>)
    requires MarksHonest(was) && DistinctConf(was)
    ensures |conf| == |was| && Resumed(was, conf, open, |was|)
    ensures forall i :: 0 <= i < |was| ==> conf[i] == Recheck(was[i], statuses, gone)
    ensures forall t :: t in open ==> open[t].expireAfter == tip + EXPIRE_BLOCKS
  {
    conf, open := was, map[];
    NothingOpen(conf[..0]);
    for i := 0 to |was|
      invariant |conf| == |was| && Resumed(was, conf, open, i)
      invariant forall t :: t in open ==> open[t].expireAfter == tip + EXPIRE_BLOCKS
      invariant forall j :: 0 <= j < i ==> conf[j] == Recheck(was[j], statuses, gone)
      invariant forall j :: i <= j < |was| ==> conf[j] == was[j]
    {
      var c := Recheck(conf[i], statuses, gone);
      if c.spendTxid != NoTx && c.spendTxid !in open {
        ReopenOne(was, conf, open, i, tip + EXPIRE_BLOCKS);
        open := open[c.spendTxid := InFlight(false, tip + EXPIRE_BLOCKS, {}, {c.op}, {}, false)];
        RewriteOne(was, conf, open, i, c);
      } else {
        ReplaceOne(was, conf, open, i, c);
      }
      conf := conf[i := c];
    }
  }

  lemma RewriteOne(was: seq<ConfCoin>, conf: seq<ConfCoin>, open: map<TxId, InFlight>, i: nat, c: ConfCoin)
    requires i < |conf| && Resumed(was, conf, open, i + 1)
    requires c.op == conf[i].op && c.payment == conf[i].payment && c.amount == conf[i].amount
    requires c.spendTxid == conf[i].spendTxid
    ensures Resumed(was, conf[i := c], open, i + 1)
  {
    OpsGrow(conf[..i + 1], conf[i := c][..i + 1]);
  }

  /** Marks keep confidential inputs apart as well. */
  lemma SpendsDisjoint(conf: seq<ConfCoin>, inflight: map<TxId, InFlight>)
    requires Marked(conf, inflight) && SpendsKnown(conf, inflight)
    ensures forall t, u :: t in inflight && u in inflight && t != u ==> inflight[t].confSpent !! inflight[u].confSpent
  {
    forall t, u, op | t in inflight && u in inflight && op in inflight[t].confSpent && op in inflight[u].confSpent
      ensures t == u
    {
      assert op in ConfOps(conf);
      var i :| 0 <= i < |conf| && conf[i].op == op;
      assert conf[i].spendTxid == t && conf[i].spendTxid == u;
    }
  }

  /** Built on one coin of the cache that is large enough, which leaves the cache; given up 20 blocks on. */
  ghost predicate SpendsOne(b: Built, cache: seq<Coin>, left: seq<Coin>, min: nat, plainOnly: bool, tip: nat)
  {
    && |b.inputs| == 1 && b.inputs[0] in cache && b.inputs[0].value >= min && (plainOnly ==> b.inputs[0].plain)
    && multiset(left) == multiset(cache) - multiset{b.inputs[0]} && b.txid.Tx? && b.txid.inputs == {b.inputs[0].op}
    && b.bodyInputs == {} && !b.timed && b.expireAfter == tip + 20
  }

  /** Some coin of the cache can be taken. */
  predicate HasCoin(cache: seq<Coin>, min: nat, plainOnly: bool)
  {
    exists i :: 0 <= i < |cache| && cache[i].value >= min && (plainOnly ==> cache[i].plain)
  }

  /** The coins a sealed body spends: plain coins of the fee coin's key, chosen by the plan, other than it. */
  function BodyCoins(cache: seq<Coin>, fee: nat, body: seq<nat>): set<OutPoint>
    requires fee < |cache|
  {
    set j | 0 <= j < |body| && body[j] < |cache| && cache[body[j]].key == cache[fee].key && cache[body[j]].plain
            && cache[body[j]].op != cache[fee].op :: cache[body[j]].op
  }

  lemma BodyGrows(cache: seq<Coin>, fee: nat, body: seq<nat>, j: nat)
    requires fee < |cache| && j < |body|
    ensures
      var i := body[j];
      var chosen := i < |cache| && cache[i].key == cache[fee].key && cache[i].plain && cache[i].op != cache[fee].op;
      BodyCoins(cache, fee, body[..j + 1]) ==
        BodyCoins(cache, fee, body[..j]) + if chosen then {cache[i].op} else {}
  {
    var front, more := body[..j], body[..j + 1];
    assert more == front + [body[j]];
    forall op | op in BodyCoins(cache, fee, front)
      ensures op in BodyCoins(cache, fee, more)
    {
      var k :| 0 <= k < |front| && front[k] < |cache| && cache[front[k]].key == cache[fee].key
        && cache[front[k]].plain && cache[front[k]].op != cache[fee].op && cache[front[k]].op == op;
      assert more[k] == front[k];
    }
  }

  lemma OpsOfOne(coins: seq<Coin>)
    requires |coins| == 1
    ensures Ops(coins) == {coins[0].op}
  {
  }

  lemma OneInput(b: Built, coin: Coin, coins: seq<Coin>, reserved: set<OutPoint>)
    requires b.txid.Tx? && !b.txid.confidential && b.txid.inputs == {coin.op} && b.inputs == [coin]
    requires b.confSpent == {} && b.bodyInputs == {}
    requires coin.op !in reserved && coin.op !in Ops(coins)
    ensures InputsFree(b, coins, reserved)
  {
    assert b.inputs[0] == coin;
    assert Ops(b.inputs) == {coin.op};
  }

  /** The coin records of a transaction's confidential outputs. */
  function Records(txid: TxId, outs: seq<Payment>, amounts: seq<nat>): (rs: seq<ConfCoin>)
    requires |outs| == |amounts|
    ensures |rs| == |outs|
    ensures forall i :: 0 <= i < |rs| ==> rs[i] == ConfCoin(OutPoint(txid, i), outs[i], amounts[i], false, false, NoTx)
  {
    seq(|outs|, i requires 0 <= i < |outs| => ConfCoin(OutPoint(txid, i), outs[i], amounts[i], false, false, NoTx))
  }

  function Sum(amounts: seq<nat>): nat
  {
    if amounts == [] then 0 else amounts[0] + Sum(amounts[1..])
  }

  lemma {:induction false} RecordsTotal(txid: TxId, outs: seq<Payment>, amounts: seq<nat>, rs: seq<ConfCoin>)
    requires |rs| == |amounts| && forall i :: 0 <= i < |rs| ==> rs[i].amount == amounts[i]
    ensures TotalAmount(rs) == Sum(amounts)
    decreases |rs|
  {
    if rs != [] {
      RecordsTotal(txid, outs, amounts[1..], rs[1..]);
    }
  }

  /** Payments issued since the last save, each once. */
  ghost predicate Issued(outs: seq<Payment>, disk: Wallet, w: Wallet)
  {
    && (forall i :: 0 <= i < |outs| ==> disk.Next(outs[i].key) <= outs[i].ordinal < w.Next(outs[i].key))
    && (forall i, j :: 0 <= i < j < |outs| ==> outs[i] != outs[j])
  }

  lemma RecordsFresh(b: Built, outs: seq<Payment>, amounts: seq<nat>, disk: Wallet, w: Wallet)
    requires b.txid.Tx? && b.txid.outs == outs && |outs| == |amounts| && b.confCreated == Records(b.txid, outs, amounts)
    requires Issued(outs, disk, w)
    ensures CreatesFresh(b, disk, w)
  {
  }

  lemma SumPair(a: nat, b: nat)
    ensures Sum([a]) == a && Sum([a, b]) == a + b
  {
    assert [a][1..] == [] && [a, b][1..] == [b] && [b][1..] == [];
  }

  lemma NothingOpen(conf: seq<ConfCoin>)
    ensures UseOk({}, map[], []) && Marked(conf, map[]) && SpendsKnown(conf, map[])
  {
  }

  ghost predicate SpendsKnown(conf: seq<ConfCoin>, inflight: map<TxId, InFlight>)
  {
    forall t, op :: t in inflight && op in inflight[t].confSpent ==> op in ConfOps(conf)
  }

  /** A cached coin repeats a spendable, non-empty entry of its key's listing. */
  ghost predicate Listed(k: nat, us: seq<Utxo>, c: Coin)
  {
    c.key == k && c.value > 0 && exists j :: 0 <= j < |us| && us[j] == Utxo(c.op, c.value, c.plain, true)
  }

  /** A listing shows the coin, but not to be spent in the next block. */
  ghost predicate Withheld(us: seq<Utxo>, op: OutPoint)
  {
    exists j :: 0 <= j < |us| && us[j].op == op && us[j].value != 0 && !us[j].spendable
  }

  ghost predicate WithheldIn(listings: seq<Option<seq<Utxo>>>, n: nat, op: OutPoint)
  {
    exists k :: 0 <= k < n && k < |listings| && listings[k].Some? && Withheld(listings[k].value, op)
  }

  /** Every free coin of the first n listings is cached or withheld. */
  ghost predicate AllCached(listings: seq<Option<seq<Utxo>>>, n: nat, reserved: set<OutPoint>, cached: set<OutPoint>)
  {
    forall k, j :: 0 <= k < n && k < |listings| && listings[k].Some? && 0 <= j < |listings[k].value| ==>
      var u := listings[k].value[j];
      u.value != 0 && u.op !in reserved ==> u.op in cached || WithheldIn(listings, n, u.op)
  }

  /** The refresh loop after n listings: which outpoints it has met, and what became of them. */
  ghost predicate Met(listings: seq<Option<seq<Utxo>>>, n: nat, reserved: set<OutPoint>, seen: set<OutPoint>,
                      cached: set<OutPoint>)
  {
    && (forall k, j :: 0 <= k < n && k < |listings| && listings[k].Some? && 0 <= j < |listings[k].value| ==>
          var u := listings[k].value[j];
          u.value != 0 && u.op !in reserved ==> u.op in seen)
    && (forall op :: op in seen ==> op in cached || WithheldIn(listings, n, op))
  }

  lemma MetNext(listings: seq<Option<seq<Utxo>>>, n: nat, reserved: set<OutPoint>,
                seen: set<OutPoint>, cached: set<OutPoint>, seen': set<OutPoint>, cached': set<OutPoint>)
    requires n < |listings| && listings[n].Some? && Met(listings, n, reserved, seen, cached)
    requires seen <= seen' && cached <= cached'
    requires forall j ::
      0 <= j < |listings[n].value| && listings[n].value[j].value != 0 && listings[n].value[j].op !in reserved ==>
        listings[n].value[j].op in seen'
    requires forall op :: op in seen' ==> op in seen || op in cached' || Withheld(listings[n].value, op)
    ensures Met(listings, n + 1, reserved, seen', cached')
  {
    forall op | op in seen' && op !in cached'
      ensures WithheldIn(listings, n + 1, op)
    {
      if op in seen {
        var k :| 0 <= k < n && k < |listings| && listings[k].Some? && Withheld(listings[k].value, op);
      } else {
        assert Withheld(listings[n].value, op);
      }
    }
  }

  lemma OpsPrefix(a: seq<Coin>, b: seq<Coin>)
    requires a <= b
    ensures Ops(a) <= Ops(b)
  {
    forall op | op in Ops(a)
      ensures op in Ops(b)
    {
      var i :| 0 <= i < |a| && a[i].op == op;
      assert b[i].op == op;
    }
  }

  ghost predicate AllListed(listings: seq<Option<seq<Utxo>>>, n: nat, cs: seq<Coin>)
  {
    forall i :: 0 <= i < |cs| ==>
      cs[i].key < n && cs[i].key < |listings| && listings[cs[i].key].Some?
        && Listed(cs[i].key, listings[cs[i].key].value, cs[i])
  }

  /** The loop over the holds: a released one frees its inputs. */
  /** The coins of the bodies whose release height has come. */
  function Expired(holds: seq<Hold>, tip: nat): set<OutPoint>
  {
    set i, op | 0 <= i < |holds| && holds[i].release <= tip && op in holds[i].inputs :: op
  }

  lemma ExpiredNext(holds: seq<Hold>, i: nat, tip: nat)
    requires i < |holds|
    ensures Expired(holds[..i + 1], tip) ==
      Expired(holds[..i], tip) + if holds[i].release <= tip then holds[i].inputs else {}
  {
    var front, more := holds[..i], holds[..i + 1];
    assert more == front + [holds[i]];
    forall op | op in Expired(front, tip)
      ensures op in Expired(more, tip)
    {
      var k :| 0 <= k < |front| && front[k].release <= tip && op in front[k].inputs;
      assert more[k] == front[k];
    }
  }

  method DropHolds(tip: nat, reserved: set<OutPoint>, ghost inflight: map<TxId, InFlight>, holds: seq<Hold>)
    returns (reserved': set<OutPoint>, kept: seq<Hold>)
    requires UseOk(reserved, inflight, holds)
    ensures UseOk(reserved', inflight, kept) && reserved' == reserved - Expired(holds, tip)
    ensures forall h :: h in kept <==> h in holds && tip < h.release
  {
    reserved', kept := reserved, [];
    assert kept + holds[0..] == holds;
    for i := 0 to |holds|
      invariant UseOk(reserved', inflight, kept + holds[i..]) && reserved' == reserved - Expired(holds[..i], tip)
      invariant forall h :: h in kept <==> h in holds[..i] && tip < h.release
    {
      var h := holds[i];
      ExpiredNext(holds, i, tip);
      assert kept + [h] + holds[i + 1..] == kept + holds[i..];
      assert forall k :: k in holds[..i + 1] <==> k in holds[..i] || k == h;
      if tip >= h.release {
        RemoveHold(reserved', inflight, kept, h, holds[i + 1..]);
        reserved' := reserved' - h.inputs;
      } else {
        kept := kept + [h];
      }
    }
    assert kept + holds[|holds|..] == kept && holds[..|holds|] == holds;
  }

  /** The cached coins a request may use. */
  method Takeable(coins: seq<Coin>, min: nat, plainOnly: bool) returns (cands: seq<nat>)
    ensures forall j :: 0 <= j < |cands| ==>
      cands[j] < |coins| && coins[cands[j]].value >= min && (plainOnly ==> coins[cands[j]].plain)
    ensures cands == [] ==> forall i :: 0 <= i < |coins| ==> coins[i].value < min || (plainOnly && !coins[i].plain)
  {
    cands := [];
    for i := 0 to |coins|
      invariant forall j :: 0 <= j < |cands| ==>
        cands[j] < i && coins[cands[j]].value >= min && (plainOnly ==> coins[cands[j]].plain)
      invariant cands == [] ==> forall j :: 0 <= j < i ==> coins[j].value < min || (plainOnly && !coins[j].plain)
    {
      if coins[i].value >= min && (!plainOnly || coins[i].plain) {
        cands := cands + [i];
      }
    }
  }

  lemma TakenAway(coins: seq<Coin>, i: nat)
    requires i < |coins| && DistinctCoins(coins)
    ensures
      var rest := coins[..i] + coins[i + 1..];
      && multiset(rest) == multiset(coins) - multiset{coins[i]} && DistinctCoins(rest) && coins[i].op !in Ops(rest)
      && forall j :: 0 <= j < |rest| ==> rest[j] in coins
  {
    var rest := coins[..i] + coins[i + 1..];
    assert forall j :: 0 <= j < |rest| ==> rest[j] == coins[if j < i then j else j + 1];
    RestCounts(coins, i);
  }

  lemma RestCounts(coins: seq<Coin>, i: nat)
    requires i < |coins|
    ensures multiset(coins[..i] + coins[i + 1..]) == multiset(coins) - multiset{coins[i]}
  {
    assert coins == coins[..i] + [coins[i]] + coins[i + 1..];
  }

  class Runner {
    var tip: nat
    var coins: seq<Coin>                   // spendable now, not reserved
    var reserved: set<OutPoint>
    var inflight: map<TxId, InFlight>
    var holds: seq<Hold>
    var splitInFlight: bool
    var wallet: Wallet
    var disk: Wallet                       // what wallet.txt holds
    ghost var sent: set<Sent>              // confidential outputs that ever left, over all processes
    ghost var refused: set<TxId>           // transactions the server rejected

    ghost predicate CacheOk()
      reads this`coins, this`reserved
    {
      DistinctCoins(coins) && CacheFree(coins, reserved)
    }

    ghost predicate UsageOk()
      reads this`reserved, this`inflight, this`holds
    {
      UseOk(reserved, inflight, holds)
    }

    ghost predicate FilesOk()
      reads this`wallet, this`disk
    {
      WalletOk(wallet) && WalletOk(disk) && Ahead(disk, wallet) && CountedOnDisk(wallet.conf, disk)
    }

    ghost predicate MarksOk()
      reads this`wallet, this`inflight
    {
      Marked(wallet.conf, inflight) && SpendsKnown(wallet.conf, inflight)
    }

    ghost predicate HistoryOk()
      reads this`wallet, this`disk, this`sent, this`refused
    {
      SentOk(sent, disk) && SecretsKept(wallet.conf, sent, refused) && SecretsKept(disk.conf, sent, refused)
    }

    ghost predicate Valid()
      reads this
    {
      CacheOk() && UsageOk() && FilesOk() && MarksOk() && HistoryOk()
    }

    ghost predicate BuiltOk(b: Built)
      reads this
    {
      InputsFree(b, coins, reserved) && SpendsFree(b, wallet.conf) && CreatesFresh(b, disk, wallet)
    }

    constructor ()
      ensures Valid() && sent == {} && refused == {} && inflight == map[] && wallet == disk == Wallet(map[], [])
    {
      tip, coins, reserved, inflight, holds, splitInFlight := 0, [], {}, map[], [], false;
      wallet, disk := Wallet(map[], []), Wallet(map[], []);
      sent, refused := {}, {};
    }

    /** The process is gone; the next one starts from the file and the server's tip. */
    method CrashAndLoad(height: nat)
      requires Valid()
      modifies this
      ensures Valid() && tip == height && wallet == disk == old(disk) && inflight == map[] && reserved == {}
        && coins == [] && holds == []
      ensures sent == old(sent) && refused == old(refused)
      ensures SavedWallet.ReadsAs(old(disk), wallet)
    {
      NothingOpen(disk.conf);
      SavedWallet.ReadsAsItself(disk);
      tip, coins, reserved, inflight, holds, splitInFlight := height, [], {}, map[], [], false;
      wallet := disk;
    }

    // -------------------------------------------------------------- the coin cache

    /** Holds whose release height has passed give their coins back. */
    method ReleaseHolds()
      requires CacheOk() && UsageOk()
      modifies this`holds, this`reserved
      ensures CacheOk() && UsageOk() && reserved == old(reserved) - Expired(old(holds), tip)
      ensures forall h :: h in holds <==> h in old(holds) && tip < h.release
    {
      reserved, holds := DropHolds(tip, reserved, inflight, holds);
    }

    /** One key's listing: free, spendable coins not seen before in this refresh. */
    method AddListing(k: nat, us: seq<Utxo>, found: seq<Coin>, seen: set<OutPoint>)
      returns (more: seq<Coin>, seen': set<OutPoint>)
      requires DistinctCoins(found) && CacheFree(found, reserved) && Ops(found) <= seen
      ensures DistinctCoins(more) && CacheFree(more, reserved) && Ops(more) <= seen'
      ensures found <= more && seen <= seen'
      ensures forall i :: |found| <= i < |more| ==> Listed(k, us, more[i])
      ensures forall j :: 0 <= j < |us| && us[j].value != 0 && us[j].op !in reserved ==> us[j].op in seen'
      ensures forall op :: op in seen' ==> op in seen || op in Ops(more) || Withheld(us, op)
    {
      more, seen' := found, seen;
      for j := 0 to |us|
        invariant DistinctCoins(more) && CacheFree(more, reserved) && Ops(more) <= seen'
        invariant found <= more && seen <= seen'
        invariant forall i :: |found| <= i < |more| ==> Listed(k, us, more[i])
        invariant forall i :: 0 <= i < j && us[i].value != 0 && us[i].op !in reserved ==> us[i].op in seen'
        invariant forall op :: op in seen' ==> op in seen || op in Ops(more) || Withheld(us, op)
      {
        var u := us[j];
        ghost var was := more;
        if u.value != 0 && u.op !in reserved && u.op !in seen' {
          seen' := seen' + {u.op};
          if u.spendable {
            more := more + [Coin(k, u.op, u.value, u.plain)];
            assert u == us[j] && Listed(k, us, more[|more| - 1]);
            OpsPrefix(was, more);
          }
        }
      }
    }

    /** Coins each key may spend in the next block, minus those open transactions use. */
    method RefreshCoins(listings: seq<Option<seq<Utxo>>>)
      requires Valid()
      modifies this`holds, this`reserved, this`coins
      ensures Valid() && reserved == old(reserved) - Expired(old(holds), tip)
      ensures forall h :: h in holds <==> h in old(holds) && tip < h.release
      ensures (exists k :: 0 <= k < |listings| && listings[k].None?) ==> coins == []
      // Otherwise the cache is what the listings allow: nothing else, and nothing free left out.
      ensures (forall k :: 0 <= k < |listings| ==> listings[k].Some?) ==>
                AllListed(listings, |listings|, coins) && AllCached(listings, |listings|, reserved, Ops(coins))
    {
      ReleaseHolds();
      ghost var kept, free := holds, reserved;
      var found: seq<Coin> := [];
      var seen: set<OutPoint> := {};
      for k := 0 to |listings|
        invariant holds == kept && reserved == free
        invariant DistinctCoins(found) && CacheFree(found, reserved) && Ops(found) <= seen
        invariant forall j :: 0 <= j < k ==> listings[j].Some?
        invariant AllListed(listings, k, found)
        invariant Met(listings, k, reserved, seen, Ops(found))
      {
        if listings[k].None? {
          coins := [];
          return;
        }
        ghost var had, met := found, seen;
        found, seen := AddListing(k, listings[k].value, found, seen);
        OpsPrefix(had, found);
        MetNext(listings, k, reserved, met, Ops(had), seen, Ops(found));
      }
      coins := found;
    }

    /** Takes a random coin of at least `min` units out of the cache. */
    method TakeCoin(min: nat, plainOnly: bool, pick: nat) returns (taken: Option<Coin>)
      requires CacheOk()
      modifies this`coins
      ensures CacheOk()
      ensures taken.None? ==> coins == old(coins) && forall i :: 0 <= i < |coins| ==>
        coins[i].value < min || (plainOnly && !coins[i].plain)
      ensures taken.Some? ==>
                && taken.value in old(coins) && taken.value.value >= min && (plainOnly ==> taken.value.plain)
                && taken.value.op !in Ops(coins) && taken.value.op !in reserved
                && multiset(coins) == multiset(old(coins)) - multiset{taken.value}
    {
      var cands := Takeable(coins, min, plainOnly);
      if cands == [] {
        return None;
      }
      var i := cands[pick % |cands|];
      taken := Some(coins[i]);
      TakenAway(coins, i);
      coins := coins[..i] + coins[i + 1..];
    }

    method PutBack(cs: seq<Coin>)
      requires CacheOk() && DistinctCoins(cs) && Ops(cs) !! Ops(coins) && Ops(cs) !! reserved
      modifies this`coins
      ensures CacheOk() && coins == old(coins) + cs
    {
      coins := coins + cs;
      assert forall i :: 0 <= i < |old(coins)| ==> coins[i].op in Ops(old(coins));
      assert forall i :: |old(coins)| <= i < |coins| ==> coins[i] == cs[i - |old(coins)|] && coins[i].op in Ops(cs);
    }

    // -------------------------------------------------------------- building

    /** The next request of key k is used up, whether or not the output can be built. */
    method ConfPayment(k: nat, ok: bool) returns (p: Option<Payment>)
      requires FilesOk()
      modifies this`wallet
      ensures FilesOk() && wallet.conf == old(wallet.conf)
      ensures forall j :: wallet.Next(j) == old(wallet).Next(j) + if j == k then 1 else 0
      ensures p == if ok then Some(Payment(k, old(wallet).Next(k))) else None
    {
      var n := wallet.Next(k);
      wallet := wallet.(nextRequest := wallet.nextRequest[k := n + 1]);
      p := if ok then Some(Payment(k, n)) else None;
    }

    /** Std, height-lock, inheritance and split transactions: one transparent input. */
    method BuildPlain(min: nat, plainOnly: bool, split: bool, pick: nat, salt: nat, signs: bool)
      returns (b: Option<Built>)
      requires CacheOk()
      modifies this`coins
      ensures CacheOk()
      ensures b.Some? <==> signs && HasCoin(old(coins), min, plainOnly)
      ensures b.None? ==> multiset(coins) == multiset(old(coins))
      ensures b.Some? ==> SpendsOne(b.value, old(coins), coins, min, plainOnly, tip)
      ensures b.Some? ==> InputsFree(b.value, coins, reserved) && b.value.split == split
      ensures b.Some? ==> b.value.confSpent == {} && b.value.confCreated == [] && b.value.txid.outs == []
    {
      var taken := TakeCoin(min, plainOnly, pick);
      if taken.None? {
        return None;
      }
      var coin := taken.value;
      if !signs {
        PutBack([coin]);
        return None;
      }
      var txid := Tx(false, {coin.op}, [], salt);
      b := Some(Built(txid, split, false, [coin], {}, 0, tip + EXPIRE_BLOCKS, {}, []));
      OneInput(b.value, coin, coins, reserved);
    }

    /** A transparent coin into one confidential output. */
    method BuildShield(min: nat, fee: nat, k: nat, pick: nat, salt: nat, pays: bool, signs: bool)
      returns (b: Option<Built>)
      requires CacheOk() && FilesOk()
      modifies this`coins, this`wallet
      ensures CacheOk() && FilesOk() && wallet.conf == old(wallet.conf)
      ensures b.Some? <==> pays && signs && HasCoin(old(coins), min, true)
      ensures b.None? ==> multiset(coins) == multiset(old(coins))
      ensures b.Some? ==> BuiltOk(b.value) && b.value.confSpent == {} && |b.value.confCreated| == 1
      // What the coin is worth, less the fee, goes to the next request of the key.
      ensures b.Some? ==> SpendsOne(b.value, old(coins), coins, min, true, tip) && !b.value.split
      ensures b.Some? ==>
                b.value.confCreated[0] == ConfCoin(OutPoint(b.value.txid, 0), Payment(k, old(wallet).Next(k)),
                                                   U64Sub(b.value.inputs[0].value, fee), false, false, NoTx)
    {
      var taken := TakeCoin(min, true, pick);
      if taken.None? {
        return None;
      }
      var coin := taken.value;
      var pay := ConfPayment(k, pays);
      if pay.None? || !signs {
        PutBack([coin]);
        return None;
      }
      var txid := Tx(false, {coin.op}, [pay.value], salt);
      var created := Records(txid, [pay.value], [U64Sub(coin.value, fee)]);
      b := Some(Built(txid, false, false, [coin], {}, 0, tip + EXPIRE_BLOCKS, {}, created));
      OneInput(b.value, coin, coins, reserved);
      RecordsFresh(b.value, [pay.value], [U64Sub(coin.value, fee)], disk, wallet);
    }

    predicate Usable(c: ConfCoin)
      reads this`reserved
    {
      c.originFinal && !c.spent && c.spendTxid == NoTx && c.op !in reserved
    }

    method UsableConf(floor: nat) returns (usable: seq<nat>)
      ensures forall j :: 0 <= j < |usable| ==>
        usable[j] < |wallet.conf| && Usable(wallet.conf[usable[j]]) && wallet.conf[usable[j]].amount > floor
      ensures forall i :: 0 <= i < |wallet.conf| && Usable(wallet.conf[i]) && wallet.conf[i].amount > floor ==>
        i in usable
    {
      usable := [];
      for i := 0 to |wallet.conf|
        invariant forall j :: 0 <= j < |usable| ==>
          usable[j] < i && Usable(wallet.conf[usable[j]]) && wallet.conf[usable[j]].amount > floor
        invariant forall j :: 0 <= j < i && Usable(wallet.conf[j]) && wallet.conf[j].amount > floor ==> j in usable
      {
        if Usable(wallet.conf[i]) && wallet.conf[i].amount > floor {
          usable := usable + [i];
        }
      }
    }

    ghost predicate Balances(b: Built, c2c: bool, fee: nat, c: ConfCoin)
      reads this`reserved
    {
      && b.confSpent == {c.op} && Usable(c) && c.amount > fee + 1092
      && (if c2c then TotalAmount(b.confCreated) + fee == c.amount else b.confCreated == [])
      && |b.confCreated| == (if !c2c then 0 else if c.amount - fee >= 48_000_000 then 2 else 1)
    }

    /** One or two payments that share `total`, depending on its size. */
    method SplitPayments(total: nat, k1: nat, k2: nat, pays1: bool, pays2: bool)
      returns (ok: bool, outs: seq<Payment>, amounts: seq<nat>)
      requires FilesOk()
      modifies this`wallet
      ensures FilesOk() && wallet.conf == old(wallet.conf)
      ensures |outs| == |amounts|
      ensures ok ==> Issued(outs, disk, wallet) && Sum(amounts) == total
      ensures ok ==> amounts == if total >= 48_000_000 then [total / 2, total - total / 2] else [total]
    {
      outs, amounts := [], [];
      var a := if total >= 2 * WORK_COIN_UNITS then total / 2 else total;
      var p1 := ConfPayment(k1, pays1);
      if p1.None? {
        return false, outs, amounts;
      }
      outs, amounts := [p1.value], [a];
      SumPair(a, total - a);
      if a < total {
        var p2 := ConfPayment(k2, pays2);
        if p2.None? {
          return false, outs, amounts;
        }
        outs, amounts := outs + [p2.value], amounts + [total - a];
        assert amounts == [a, total - a];
      }
      ok := true;
    }

    /** A confidential coin to one or two confidential outputs (`c2c`) or back to a transparent one. */
    method BuildConf(c2c: bool, fee: nat, k1: nat, k2: nat, pick: nat, salt: nat, pays1: bool, pays2: bool, signs: bool)
      returns (b: Option<Built>)
      requires FilesOk()
      modifies this`wallet
      ensures FilesOk() && wallet.conf == old(wallet.conf)
      ensures b.Some? ==> BuiltOk(b.value) && b.value.inputs == [] && b.value.bodyInputs == {}
      ensures b.Some? ==> !b.value.split && !b.value.timed && b.value.expireAfter == tip + 20
      // Conservation: the outputs and the fee add up to the coin spent.
      ensures b.Some? ==> exists c :: c in wallet.conf && Balances(b.value, c2c, fee, c)
    {
      var cands := UsableConf(fee + 2 * DUST_UNITS);
      if cands == [] {
        return None;
      }
      var cc := wallet.conf[cands[pick % |cands|]];
      var outs, amounts := [], [];
      if c2c {
        var ok;
        ok, outs, amounts := SplitPayments(cc.amount - fee, k1, k2, pays1, pays2);
        if !ok {
          return None;
        }
      }
      if !signs {
        return None;
      }
      var txid := Tx(true, {cc.op}, outs, salt);
      var created := Records(txid, outs, amounts);
      RecordsTotal(txid, outs, amounts, created);
      b := Some(Built(txid, false, false, [], {}, 0, tip + EXPIRE_BLOCKS, {cc.op}, created));
      assert Balances(b.value, c2c, fee, cc);
      RecordsFresh(b.value, outs, amounts, disk, wallet);
      assert Ops(b.value.inputs) == {};
    }

    /** Takes the used coins out of the cache. */
    method DropUsed(used: set<OutPoint>)
      requires CacheOk()
      modifies this`coins
      ensures CacheOk()
      ensures forall c :: c in coins <==> c in old(coins) && c.op !in used
      ensures Ops(coins) == Ops(old(coins)) - used
    {
      var kept: seq<Coin> := [];
      for i := 0 to |coins|
        invariant coins == old(coins)
        invariant DistinctCoins(kept) && CacheFree(kept, reserved)
        invariant forall c :: c in kept <==> c in coins[..i] && c.op !in used
      {
        if coins[i].op !in used {
          assert forall j :: 0 <= j < |kept| ==> kept[j] in coins[..i];
          kept := kept + [coins[i]];
        }
        assert coins[..i + 1] == coins[..i] + [coins[i]];
      }
      assert coins[..|coins|] == coins;
      coins := kept;
      forall op | op in Ops(coins)
        ensures op in Ops(old(coins)) && op !in used
      {
        var i :| 0 <= i < |coins| && coins[i].op == op;
        assert coins[i] in old(coins);
      }
      forall op | op in Ops(old(coins)) - used
        ensures op in Ops(coins)
      {
        var i :| 0 <= i < |old(coins)| && old(coins)[i].op == op;
        assert old(coins)[i] in coins;
      }
    }

    /** A timed envelope: a fee coin, and for a transfer the sealed body's coins, all plain coins of one key. */
    method BuildTimed(fee: nat, body: seq<nat>, release: nat, lastInclusion: nat, salt: nat, plans: bool)
      returns (b: Option<Built>)
      requires CacheOk()
      modifies this`coins
      ensures CacheOk()
      ensures b.None? ==> coins == old(coins)
      ensures b.Some? <==> plans && fee < |old(coins)| && old(coins)[fee].plain
      ensures b.Some? ==> InputsFree(b.value, coins, reserved) && b.value.timed && !b.value.split
      ensures b.Some? ==> b.value.confSpent == {} && b.value.confCreated == [] && b.value.txid.outs == []
      // The fee coin and the coins of the sealed body, and nothing else, leave the cache.
      ensures b.Some? ==>
                && b.value.inputs == [old(coins)[fee]] && b.value.bodyInputs == BodyCoins(old(coins), fee, body)
                && Ops(old(coins)) - Ops(coins) == Ops(b.value.inputs) + b.value.bodyInputs
      ensures b.Some? ==>
                && b.value.bodyRelease == release && b.value.expireAfter <= lastInclusion
                && b.value.expireAfter <= tip + 20 && b.value.expireAfter in {lastInclusion, tip + 20}
    {
      if fee >= |coins| || !coins[fee].plain || !plans {
        return None;
      }
      var feeCoin := coins[fee];
      var used: set<OutPoint> := {};
      for j := 0 to |body|
        invariant coins == old(coins) && used == BodyCoins(coins, fee, body[..j])
      {
        // plan_timed_p2pkh_send picks the body's coins among those that are not the fee coin.
        BodyGrows(coins, fee, body, j);
        if body[j] < |coins| && coins[body[j]].key == feeCoin.key && coins[body[j]].plain
          && coins[body[j]].op != feeCoin.op {
          used := used + {coins[body[j]].op};
        }
      }
      assert body[..|body|] == body;
      var expire := if lastInclusion < tip + EXPIRE_BLOCKS then lastInclusion else tip + EXPIRE_BLOCKS;
      assert used <= Ops(coins) && used !! reserved && feeCoin.op in Ops(coins);
      DropUsed(used + {feeCoin.op});
      var txid := Tx(false, {feeCoin.op}, [], salt);
      b := Some(Built(txid, false, true, [feeCoin], used, release, expire, {}, []));
      assert b.value.inputs[0] == feeCoin;
      assert Ops(b.value.inputs) == {feeCoin.op};
    }

    // -------------------------------------------------------------- sending

    /** Records the created coins and marks the spent one, in memory. */
    method PushRecords(b: Built)
      modifies this`wallet
      ensures wallet.nextRequest == old(wallet.nextRequest)
      ensures Pushed(b, old(wallet.conf), wallet.conf)
    {
      var conf := wallet.conf + b.confCreated;
      ghost var all := conf;
      for i := 0 to |conf|
        invariant |conf| == |all|
        invariant forall j :: 0 <= j < i ==> conf[j] == Remark(all[j], b.confSpent, b.txid)
        invariant forall j :: i <= j < |conf| ==> conf[j] == all[j]
        invariant wallet == old(wallet)
      {
        if conf[i].op in b.confSpent {
          conf := conf[i := conf[i].(spendTxid := b.txid)];
        }
      }
      wallet := wallet.(conf := conf);
    }

    /** Confidential secrets reach disk before the transaction leaves. */
    method SaveRecords(b: Built)
      requires Valid() && BuiltOk(b)
      modifies this`wallet, this`disk
      ensures Valid() && disk == wallet
      ensures wallet.nextRequest == old(wallet.nextRequest) && Pushed(b, old(wallet.conf), wallet.conf)
      ensures SecretsKept(wallet.conf, sent + SentOf(b), refused) && SentOk(sent + SentOf(b), disk)
    {
      ghost var w, d := wallet, disk;
      PushRecords(b);
      disk := wallet;
      assert b.confSpent != {} ==> |b.confSpent| == 1;
      PushKeeps(b, d, w, sent, refused, wallet.conf);
      SentGrows(b, d, w, sent);
      MarksAfterPush(b, d, w, inflight, wallet.conf);
    }

    /** Removes the created records and releases the spent one, in memory. */
    method PopRecords(b: Built, gone: bool, ghost before: seq<ConfCoin>)
      requires |before| <= |wallet.conf|
      requires forall i :: 0 <= i < |before| ==>
                 wallet.conf[i] == Remark(before[i], b.confSpent, b.txid)
                   && wallet.conf[i].op !in ConfOps(b.confCreated)
      requires forall i :: |before| <= i < |wallet.conf| ==> wallet.conf[i].op in ConfOps(b.confCreated)
      modifies this`wallet
      ensures wallet.nextRequest == old(wallet.nextRequest) && Restored(b, gone, before, wallet.conf)
    {
      var created := ConfOps(b.confCreated);
      var kept: seq<ConfCoin> := [];
      for i := 0 to |wallet.conf|
        invariant wallet == old(wallet)
        invariant |kept| == if i < |before| then i else |before|
        invariant forall j :: 0 <= j < |kept| ==> kept[j] == Release(before[j], b.confSpent, gone)
      {
        var c := wallet.conf[i];
        if c.op !in created {
          kept := kept + [Release(c, b.confSpent, gone)];
        }
      }
      wallet := wallet.(conf := kept);
    }

    /** The server refused it: the coins are free again and the outputs never existed. */
    method Undo(b: Built, gone: bool, ghost before: Wallet, ghost d: Wallet)
      requires Valid() && InputsFree(b, coins, reserved)
      requires b.confCreated != [] || b.confSpent != {} ==> disk == wallet && wallet.nextRequest == before.nextRequest
      requires b.confCreated != [] || b.confSpent != {} ==> Pushed(b, before.conf, wallet.conf)
      requires WalletOk(before) && CountedOnDisk(before.conf, d) && CreatesFresh(b, d, before)
        && SpendsFree(b, before.conf)
      requires Ahead(d, before) && Marked(before.conf, inflight) && SpendsKnown(before.conf, inflight)
      requires SecretsKept(before.conf, sent, refused)
      modifies this`coins, this`wallet, this`disk
      ensures Valid()
      ensures coins == if gone then old(coins) else old(coins) + b.inputs
      ensures if b.confCreated == [] && b.confSpent == {} then wallet == old(wallet) && disk == old(disk)
              else
                && disk == wallet && wallet.nextRequest == before.nextRequest
                && Restored(b, gone, before.conf, wallet.conf)
    {
      if !gone {
        PutBack(b.inputs);
      }
      if b.confCreated != [] || b.confSpent != {} {
        PushedSplit(b, d, before, wallet.conf);
        PopRecords(b, gone, before.conf);
        RestoredKeeps(b, gone, before, wallet.conf, inflight, sent, refused);
        disk := wallet;
        NextIsStable(before, disk, d, sent);
      }
    }

    /** Sent, or ambiguous: the transaction and the coins it uses are tracked. */
    method Track(b: Built)
      requires CacheOk() && UsageOk() && MarksOk() && InputsFree(b, coins, reserved) && b.txid !in inflight
      requires MarkedFor(wallet.conf, b.confSpent, b.txid)
      modifies this`reserved, this`inflight, this`holds
      ensures CacheOk() && UsageOk() && MarksOk()
      ensures inflight == old(inflight)[b.txid := InFlight(b.split, b.expireAfter, Ops(b.inputs), b.confSpent,
                                                            ConfOps(b.confCreated), b.timed)]
      ensures reserved == old(reserved) + Ops(b.inputs) + b.bodyInputs
      ensures holds == if b.bodyInputs == {} then old(holds) else old(holds) + [Hold(b.bodyInputs, b.bodyRelease)]
    {
      var f, r := EntryOf(b), reserved + Ops(b.inputs);
      OpenInFlight(reserved, inflight, holds, b.txid, f);
      TrackMarks(wallet.conf, inflight, b.txid, f);
      CacheStaysFree(coins, reserved, Ops(b.inputs) + b.bodyInputs);
      inflight := inflight[b.txid := f];
      if b.bodyInputs == {} {
        reserved := r;
        assert r == r + b.bodyInputs;
      } else {
        var h := Hold(b.bodyInputs, b.bodyRelease);
        AddHold(r, inflight, holds, h);
        reserved := r + b.bodyInputs;
        holds := holds + [h];
      }
      assert reserved == old(reserved) + (Ops(b.inputs) + b.bodyInputs);
    }

    /** Up to the broadcast: save first, then the transaction leaves. The process may die at each point. */
    method Launch(b: Built, fate: Fate) returns (alive: bool)
      requires Valid() && BuiltOk(b)
      modifies this
      ensures Valid() && (alive <==> fate.Lives?) && refused == old(refused)
      ensures sent == if fate.DiesBeforeSave? || fate.DiesBeforeBroadcast? then old(sent) else old(sent) + SentOf(b)
      ensures alive ==> tip == old(tip) && splitInFlight == old(splitInFlight)
      ensures alive ==>
                && coins == old(coins) && reserved == old(reserved) && inflight == old(inflight) && holds == old(holds)
                && wallet.nextRequest == old(wallet.nextRequest)
      ensures alive && (b.confCreated != [] || b.confSpent != {}) ==>
        disk == wallet && Pushed(b, old(wallet.conf), wallet.conf)
      ensures alive && b.confCreated == [] && b.confSpent == {} ==> disk == old(disk) && wallet == old(wallet)
    {
      assert b.confCreated == [] ==> SentOf(b) == {};
      alive := fate.Lives?;
      if fate.DiesBeforeSave? {
        CrashAndLoad(tip);
        return;
      }
      if b.confCreated != [] || b.confSpent != {} {
        SaveRecords(b);
      }
      if !fate.DiesBeforeBroadcast? {
        sent := sent + SentOf(b);
      }
      if !alive {
        CrashAndLoad(tip);
      }
    }

    /** Saves, broadcasts and handles the answer; the process may die at any of the three points. */
    method Send(b: Built, answer: Answer, fate: Fate) returns (accepted: bool)
      requires Valid() && BuiltOk(b)
      modifies this
      ensures Valid()
      ensures accepted <==> fate.Lives? && answer.Accepted?
      ensures refused == if fate.Lives? && answer.Rejected? then old(refused) + {b.txid} else old(refused)
      // What left the process: exactly this transaction's outputs, and only after the save.
      ensures sent == if fate.DiesBeforeSave? || fate.DiesBeforeBroadcast? then old(sent) else old(sent) + SentOf(b)
      ensures fate.Lives? && !answer.Rejected? ==>
                && inflight == old(inflight)[b.txid := InFlight(b.split, b.expireAfter, Ops(b.inputs), b.confSpent,
                                                                ConfOps(b.confCreated), b.timed)]
                && coins == old(coins) && reserved == old(reserved) + Ops(b.inputs) + b.bodyInputs
      // The coins of a sealed body are held until its release.
      ensures fate.Lives? && !answer.Rejected? ==>
                holds == if b.bodyInputs == {} then old(holds) else old(holds) + [Hold(b.bodyInputs, b.bodyRelease)]
      ensures fate.Lives? ==> tip == old(tip) && splitInFlight == (old(splitInFlight) || (b.split && accepted))
      ensures fate.Lives? && !answer.Rejected? && (b.confSpent != {} || b.confCreated != []) ==>
                disk == wallet && Pushed(b, old(wallet.conf), wallet.conf)
      // A plain rejection restores every record; the request counters stay used up.
      ensures fate.Lives? && answer.Rejected? && !answer.inputsGone ==>
                wallet == old(wallet) && inflight == old(inflight) && reserved == old(reserved)
                  && coins == old(coins) + b.inputs
      // Where the chain no longer has the inputs, they are given up for spent.
      ensures fate.Lives? && answer.Rejected? && answer.inputsGone ==>
                && coins == old(coins) && inflight == old(inflight) && reserved == old(reserved)
                && wallet.nextRequest == old(wallet.nextRequest)
                && Restored(b, true, old(wallet.conf), wallet.conf)
      ensures fate.Lives? && answer.Rejected? ==> holds == old(holds)
    {
      ghost var w, d := wallet, disk;
      FreshId(reserved, inflight, holds, wallet.conf, b.txid, EntryOf(b));
      var alive := Launch(b, fate);
      if alive {
        accepted := HandleAnswer(b, answer, w, d);
      } else {
        accepted := false;
      }
    }

    /** What had to hold of the wallet `before` the send for its records to be taken back. */
    ghost predicate Undoable(b: Built, before: Wallet, d: Wallet)
      reads this`inflight, this`sent, this`refused, this`wallet, this`disk
    {
      && (b.confCreated != [] || b.confSpent != {} ==> disk == wallet && Pushed(b, before.conf, wallet.conf))
      && (b.confCreated == [] && b.confSpent == {} ==> wallet == before)
      && wallet.nextRequest == before.nextRequest
      && WalletOk(before) && CountedOnDisk(before.conf, d) && CreatesFresh(b, d, before) && SpendsFree(b, before.conf)
      && Ahead(d, before) && Marked(before.conf, inflight) && SpendsKnown(before.conf, inflight)
      && SecretsKept(before.conf, sent - SentOf(b), refused)
    }

    method HandleAnswer(b: Built, answer: Answer, ghost before: Wallet, ghost d: Wallet) returns (accepted: bool)
      requires Valid() && InputsFree(b, coins, reserved) && b.txid !in inflight && Undoable(b, before, d)
      modifies this
      ensures Valid() && (accepted <==> answer.Accepted?) && sent == old(sent)
      ensures refused == if answer.Rejected? then old(refused) + {b.txid} else old(refused)
      ensures !answer.Rejected? ==>
                && inflight == old(inflight)[b.txid := EntryOf(b)]
                && reserved == old(reserved) + Ops(b.inputs) + b.bodyInputs
                && holds == (if b.bodyInputs == {} then old(holds)
                   else old(holds) + [Hold(b.bodyInputs, b.bodyRelease)])
                && wallet == old(wallet) && disk == old(disk) && coins == old(coins)
      ensures tip == old(tip) && splitInFlight == (old(splitInFlight) || (b.split && accepted))
      ensures answer.Rejected? && !answer.inputsGone ==>
                wallet == before && inflight == old(inflight) && reserved == old(reserved)
                  && coins == old(coins) + b.inputs
      ensures answer.Rejected? && answer.inputsGone ==>
                && coins == old(coins) && inflight == old(inflight) && reserved == old(reserved)
                && wallet.nextRequest == before.nextRequest && Restored(b, true, before.conf, wallet.conf)
      ensures answer.Rejected? ==> holds == old(holds)
    {
      accepted := answer.Accepted?;
      if answer.Rejected? {
        Reject(b, answer.inputsGone, before, d);
      } else {
        MarkedAfterPush(b, d, before, wallet.conf);
        Track(b);
        splitInFlight := splitInFlight || (b.split && accepted);
      }
    }

    method Reject(b: Built, gone: bool, ghost before: Wallet, ghost d: Wallet)
      requires Valid() && InputsFree(b, coins, reserved) && Undoable(b, before, d)
      modifies this`coins, this`wallet, this`disk, this`refused
      ensures Valid() && refused == old(refused) + {b.txid}
      ensures !gone ==> wallet == before && coins == old(coins) + b.inputs
      ensures gone ==>
                && coins == old(coins) && wallet.nextRequest == before.nextRequest
                && Restored(b, true, before.conf, wallet.conf)
    {
      refused := refused + {b.txid};
      forall o | o in SentOf(b)
        ensures o.op.txid in refused
      {
      }
      Undo(b, gone, before, d);
      if !gone && (b.confCreated != [] || b.confSpent != {}) {
        RestoredKeeps(b, false, before, wallet.conf, inflight, sent, refused);
      }
    }

    // -------------------------------------------------------------- open transactions

    /** Applies a flag update to every record, in memory. */
    method UpdateRecords(final: bool, created: set<OutPoint>, used: set<OutPoint>)
      modifies this`wallet
      ensures wallet.nextRequest == old(wallet.nextRequest)
        && Updated(final, created, used, old(wallet.conf), wallet.conf)
    {
      var conf := wallet.conf;
      for i := 0 to |conf|
        invariant wallet == old(wallet) && |conf| == |wallet.conf|
        invariant forall j :: 0 <= j < i ==> conf[j] == Update(final, created, used, wallet.conf[j])
        invariant forall j :: i <= j < |conf| ==> conf[j] == wallet.conf[j]
      {
        conf := conf[i := Update(final, created, used, conf[i])];
      }
      wallet := wallet.(conf := conf);
    }

    /** A transaction that is final, or given up: its coins come free and its records settle. */
    method Close(t: TxId, final: bool)
      requires Valid() && t in inflight
      modifies this`inflight, this`reserved, this`wallet, this`splitInFlight
      ensures Valid()
      ensures inflight == old(inflight) - {t} && reserved == old(reserved) - old(inflight)[t].inputs
      ensures wallet.nextRequest == old(wallet.nextRequest)
      ensures splitInFlight == (old(splitInFlight) && !old(inflight)[t].split)
      ensures Updated(final, old(inflight)[t].confCreated, old(inflight)[t].confSpent, old(wallet.conf), wallet.conf)
    {
      var f := inflight[t];
      ghost var w := wallet;
      UpdateRecords(final, f.confCreated, f.confSpent);
      UpdatedKeeps(final, f.confCreated, f.confSpent, w, wallet.conf, sent, refused);
      UpdatedMarks(final, f.confCreated, w.conf, wallet.conf, inflight, t);
      CloseInFlight(reserved, inflight, holds, t);
      reserved := reserved - f.inputs;
      inflight := inflight - {t};
      if f.split {
        splitInFlight := false;
      }
    }

    method Save()
      requires Valid()
      modifies this`disk
      ensures Valid() && disk == wallet
    {
      disk := wallet;
    }

    method PollOne(t: TxId, statuses: map<TxId, bool>) returns (changed: bool)
      requires Valid()
      modifies this`inflight, this`reserved, this`wallet, this`splitInFlight
      ensures Valid()
      ensures inflight == old(inflight) - Closing(old(inflight), [t], statuses, tip)
      ensures !changed ==> wallet == old(wallet)
      ensures wallet.nextRequest == old(wallet.nextRequest)
      ensures
        var was := old(inflight);
        if t in was && Done(statuses, t, was[t], tip)
        then
          && Updated(statuses[t], was[t].confCreated, was[t].confSpent, old(wallet.conf), wallet.conf)
          && reserved == old(reserved) - was[t].inputs
        else wallet == old(wallet) && reserved == old(reserved)
    {
      changed := false;
      if t in inflight && t in statuses {
        var f := inflight[t];
        if statuses[t] {
          Close(t, true);
          changed := f.confCreated != {} || f.confSpent != {};
          assert !changed ==> wallet.conf == old(wallet.conf);
        } else if tip > f.expireAfter {
          Close(t, false);
          changed := f.confSpent != {};
          assert !changed ==> wallet.conf == old(wallet.conf);
        }
      }
    }

    /** The polling loop. */
    method PollAll(order: seq<TxId>, statuses: map<TxId, bool>) returns (changed: bool)
      requires Valid()
      modifies this`inflight, this`reserved, this`wallet, this`splitInFlight
      ensures Valid() && (!changed ==> wallet == old(wallet)) && wallet.nextRequest == old(wallet.nextRequest)
      ensures Settled(old(inflight), Closing(old(inflight), order, statuses, tip), statuses, old(reserved), reserved,
        old(wallet.conf), wallet.conf)
      ensures inflight == old(inflight) - Closing(old(inflight), order, statuses, tip)
    {
      changed := false;
      ghost var before, height, conf, free := inflight, tip, wallet.conf, reserved;
      NothingClosed(before, order, statuses, height, free, conf);
      for i := 0 to |order|
        invariant Valid() && inflight == before - Closing(before, order[..i], statuses, height)
        invariant Settled(before, Closing(before, order[..i], statuses, height), statuses, free, reserved, conf,
          wallet.conf)
        invariant wallet.nextRequest == old(wallet.nextRequest) && (!changed ==> wallet == old(wallet))
      {
        ghost var mid, left := wallet.conf, reserved;
        ClosingGrows(before, order, i, statuses, height);
        var c := PollOne(order[i], statuses);
        PolledNext(before, order, i, statuses, height, free, left, reserved, conf, mid, wallet.conf);
        changed := changed || c;
      }
      assert order[..|order|] == order;
    }

    /** Polls open transactions in the given order; records finality, gives up on old ones. */
    method PollInflight(order: seq<TxId>, statuses: map<TxId, bool>)
      requires Valid()
      modifies this`inflight, this`reserved, this`wallet, this`splitInFlight, this`disk
      ensures Valid() && wallet.nextRequest == old(wallet.nextRequest)
      // A polled transaction stays open exactly when it is neither final nor past its expiry; the records and
      // the reserved coins follow from which ones closed, and changed records are on disk.
      ensures
        var closed := Closing(old(inflight), order[..if |order| < 100 then |order| else 100], statuses, tip);
        && inflight == old(inflight) - closed
        && Settled(old(inflight), closed, statuses, old(reserved), reserved, old(wallet.conf), wallet.conf)
      ensures forall t :: t in old(inflight) ==>
                (t !in inflight <==>
                 && t in order[..if |order| < 100 then |order| else 100] && t in statuses
                 && (statuses[t] || tip > old(inflight)[t].expireAfter))
      ensures disk == wallet || (disk == old(disk) && wallet == old(wallet))
    {
      var n := if |order| < MAX_POLLED then |order| else MAX_POLLED;
      var changed := PollAll(order[..n], statuses);
      if changed {
        Save();
      }
    }

    // -------------------------------------------------------------- after a restart

    /**
     Confidential records whose transactions were open when the tool last stopped. `statuses`: the server's
     answers; `gone`: outpoints the server proves absent from the chain.
     */
    method RecheckConf(statuses: map<TxId, bool>, gone: set<OutPoint>)
      requires Valid() && inflight == map[] && reserved == {} && holds == []
      modifies this`wallet, this`disk, this`inflight
      ensures Valid() && wallet.nextRequest == old(wallet.nextRequest) && SameCoins(old(wallet.conf), wallet.conf)
      ensures forall i :: 0 <= i < |wallet.conf| ==> Rechecked(old(wallet.conf)[i], wallet.conf[i], statuses, gone)
      ensures disk == wallet || (disk == old(disk) && wallet == old(wallet))
      // Every spend still open is tracked again, so its coin is not spent twice.
      ensures forall i :: 0 <= i < |wallet.conf| && wallet.conf[i].spendTxid != NoTx ==>
        wallet.conf[i].spendTxid in inflight
      ensures forall t :: t in inflight ==> inflight[t].expireAfter == tip + 20
    {
      var conf, open := ResumeAll(wallet.conf, statuses, gone, tip);
      assert conf[..|conf|] == conf;
      RecheckMeans(wallet.conf, conf, statuses, gone);
      SameCoinsKeep(wallet, conf, sent, refused);
      inflight := open;
      var changed := conf != wallet.conf;
      wallet := wallet.(conf := conf);
      if changed {
        disk := wallet;
      }
    }

    // -------------------------------------------------------------- whole executions

    /** Sends what was built, if anything was. */
    method Deliver(b: Option<Built>, answer: Answer, fate: Fate)
      requires Valid() && (b.Some? ==> BuiltOk(b.value))
      modifies this
      ensures Valid() && old(sent) <= sent && old(refused) <= refused
      ensures fate.Lives? || b.None? ==> tip == old(tip) && old(holds) <= holds
    {
      if b.Some? {
        var _ := Send(b.value, answer, fate);
      }
    }

    /**
     A timed send. Once it is out, the fee coin and every coin of the sealed body is in use, and the body's coins
     are held until the body's release height.
     */
    method DeliverTimed(fee: nat, body: seq<nat>, release: nat, lastInclusion: nat, salt: nat, plans: bool,
                        answer: Answer, fate: Fate)
      requires Valid()
      modifies this
      ensures Valid() && old(sent) <= sent && old(refused) <= refused
      ensures
        var built := plans && fee < |old(coins)| && old(coins)[fee].plain;
        built && fate.Lives? && !answer.Rejected? ==>
          var held := BodyCoins(old(coins), fee, body);
          && reserved == old(reserved) + {old(coins)[fee].op} + held
          && Ops(old(coins)) - Ops(coins) == {old(coins)[fee].op} + held
          && holds == if held == {} then old(holds) else old(holds) + [Hold(held, release)]
      ensures fate.Lives? || !plans || fee >= |old(coins)| || !old(coins)[fee].plain ==>
        tip == old(tip) && old(holds) <= holds
    {
      var b := BuildTimed(fee, body, release, lastInclusion, salt, plans);
      if b.Some? {
        OpsOfOne(b.value.inputs);
        var _ := Send(b.value, answer, fate);
      }
    }

    /** A send of some type: what is built from the free coins, then sent. */
    method Transact(e: Event)
      requires Valid() && Sends(e)
      modifies this
      ensures Valid() && old(sent) <= sent && old(refused) <= refused
      ensures e.fate.Lives? ==> tip == old(tip) && old(holds) <= holds
    {
      match e
      case SendPlain(min, plainOnly, split, pick, salt, signs, answer, fate) =>
        var b := BuildPlain(min, plainOnly, split, pick, salt, signs);
        Deliver(b, answer, fate);
      case SendShield(min, fee, k, pick, salt, pays, signs, answer, fate) =>
        var b := BuildShield(min, fee, k, pick, salt, pays, signs);
        Deliver(b, answer, fate);
      case SendConf(c2c, fee, k1, k2, pick, salt, pays1, pays2, signs, answer, fate) =>
        var b := BuildConf(c2c, fee, k1, k2, pick, salt, pays1, pays2, signs);
        Deliver(b, answer, fate);
      case SendTimed(fee, body, release, lastInclusion, salt, plans, answer, fate) =>
        DeliverTimed(fee, body, release, lastInclusion, salt, plans, answer, fate);
    }

    /** One event of an execution: a timer tick, a send of some type, or the end of the process. */
    method Handle(e: Event)
      requires Valid()
      modifies this
      ensures Valid() && old(sent) <= sent && old(refused) <= refused
      // The process lives on: the tip is the one announced, and a body not yet released stays held.
      ensures !Ends(e) ==> tip == if e.NewTip? then e.height else old(tip)
      ensures !Ends(e) ==> forall h :: h in old(holds) && old(tip) < h.release ==> h in holds
    {
      if Sends(e) {
        Transact(e);
        return;
      }
      match e
      case NewTip(height) =>
        tip := height;
      case Refresh(listings) =>
        RefreshCoins(listings);
      case Poll(order, statuses) =>
        PollInflight(order, statuses);
      case Die(height, statuses, gone) =>
        CrashAndLoad(height);
        RecheckConf(statuses, gone);
      case _ =>
    }

    /**
     Any sequence of events, processes and crashes: no outpoint is used twice, the cache offers nothing in use,
     spends are marked, no request index is broadcast twice and no secret of a live output is lost.
     */
    method Execute(script: seq<Event>)
      requires Valid()
      modifies this
      ensures Valid() && old(sent) <= sent
      ensures forall t, u :: t in inflight && u in inflight && t != u ==>
                inflight[t].inputs !! inflight[u].inputs && inflight[t].confSpent !! inflight[u].confSpent
      ensures forall t, i :: t in inflight && 0 <= i < |holds| ==> inflight[t].inputs !! holds[i].inputs
      ensures forall i :: 0 <= i < |coins| ==> coins[i].op !in reserved
      ensures forall t, i :: t in inflight && 0 <= i < |wallet.conf| && wallet.conf[i].op in inflight[t].confSpent ==>
                wallet.conf[i].spendTxid == t
      ensures forall o, p | o in sent && p in sent && o.payment.key == p.payment.key
        && o.payment.Index() == p.payment.Index() ::
                disk.Next(o.payment.key) <= 0x1_0000_0000 ==> o == p
      ensures forall o :: o in sent && o.op.txid !in refused ==> HasSecrets(disk.conf, o)
      // Until its release, no coin of a sealed body is offered again.
      ensures forall h :: h in old(holds) && old(tip) < h.release && Below(script, h.release) ==>
                h in holds && h.inputs <= reserved && h.inputs !! Ops(coins)
    {
      for n := 0 to |script|
        invariant Valid() && old(sent) <= sent
        invariant forall h :: h in old(holds) && old(tip) < h.release && Below(script[..n], h.release) ==>
          h in holds && tip < h.release
      {
        assert script[..n + 1] == script[..n] + [script[n]];
        ghost var was := script[..n];
        assert forall h: nat :: Below(script[..n + 1], h) ==> Below(was, h) && Below([script[n]], h);
        Handle(script[n]);
      }
      assert script[..|script|] == script;
      SpendsDisjoint(wallet.conf, inflight);
      forall o, p | o in sent && p in sent && o.payment.key == p.payment.key && o.payment.Index() == p.payment.Index()
                    && disk.Next(o.payment.key) <= 0x1_0000_0000
        ensures o == p
      {
        RequestsNeverReused(sent, disk, o, p);
      }
    }
  }
}
