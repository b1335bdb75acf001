/**
 Values of the testnet traffic tool (apps/finalis-nodetest): coins, transactions, the wallet file's
 content, and the invariants its runner keeps about them.
 */
module Traffic {
  /** One confidential output to key `key`; `ordinal` counts that key's requests. */
  datatype Payment = Payment(key: nat, ordinal: nat) {

    /** The request index the keys derive from: the counter is 32 bits wide. */
    function Index(): (i: nat)
      ensures i < 0x1_0000_0000
      ensures ordinal < 0x1_0000_0000 ==> i == ordinal
    {
      ordinal % 0x1_0000_0000
    }
  }

  /**
   An idealised transaction id: it determines the transaction. Its inputs are all confidential or all
   transparent; outputs 0..|outs| are its confidential ones. NoTx is the zero hash that the wallet file
   uses for "none".
   */
  datatype TxId = NoTx | Tx(confidential: bool, inputs: set<OutPoint>, outs: seq<Payment>, salt: nat)
  datatype OutPoint = OutPoint(txid: TxId, index: nat)

  datatype Coin = Coin(key: nat, op: OutPoint, value: nat, plain: bool)

  datatype ConfCoin = ConfCoin(
    op: OutPoint, payment: Payment, amount: nat, originFinal: bool, spent: bool, spendTxid: TxId)

  datatype InFlight = InFlight(
    split: bool, expireAfter: nat, inputs: set<OutPoint>, confSpent: set<OutPoint>, confCreated: set<OutPoint>,
    timed: bool)

  datatype Hold = Hold(inputs: set<OutPoint>, release: nat)

  datatype Wallet = Wallet(nextRequest: map<nat, nat>, conf: seq<ConfCoin>) {

    function Next(k: nat): nat
    {
      if k in nextRequest then nextRequest[k] else 0
    }
  }

  /** A confidential output that left the process. */
  datatype Sent = Sent(payment: Payment, op: OutPoint, amount: nat)

  // ---------------------------------------------------------------- coins in use

  ghost predicate DistinctCoins(coins: seq<Coin>)
  {
    forall i, j :: 0 <= i < j < |coins| ==> coins[i].op != coins[j].op
  }

  ghost predicate CacheFree(coins: seq<Coin>, reserved: set<OutPoint>)
  {
    forall i :: 0 <= i < |coins| ==> coins[i].op !in reserved
  }

  ghost predicate InFlightDisjoint(inflight: map<TxId, InFlight>)
  {
    forall t, u :: t in inflight && u in inflight && t != u ==> inflight[t].inputs !! inflight[u].inputs
  }

  ghost predicate HoldsDisjoint(holds: seq<Hold>)
  {
    forall i, j :: 0 <= i < j < |holds| ==> holds[i].inputs !! holds[j].inputs
  }

  ghost predicate HoldsApart(inflight: map<TxId, InFlight>, holds: seq<Hold>)
  {
    forall t, i :: t in inflight && 0 <= i < |holds| ==> inflight[t].inputs !! holds[i].inputs
  }

  /** The reserved set is exactly what open transactions and live holds use. */
  ghost predicate ReservedExact(reserved: set<OutPoint>, inflight: map<TxId, InFlight>, holds: seq<Hold>)
  {
    && (forall t, op :: t in inflight && op in inflight[t].inputs ==> op in reserved)
    && (forall i, op :: 0 <= i < |holds| && op in holds[i].inputs ==> op in reserved)
    && (forall op :: op in reserved ==>
          (exists t :: t in inflight && op in inflight[t].inputs)
            || (exists i :: 0 <= i < |holds| && op in holds[i].inputs))
  }

  /** A tracked transaction's entry lists the inputs its id commits to. */
  ghost predicate Tracked(t: TxId, f: InFlight)
  {
    && t.Tx? && t.inputs != {}
    && (if t.confidential then f.confSpent == t.inputs && f.inputs == {} else f.inputs == t.inputs && f.confSpent == {})
  }

  ghost predicate AllTracked(inflight: map<TxId, InFlight>)
  {
    forall t :: t in inflight ==> Tracked(t, inflight[t])
  }

  // ---------------------------------------------------------------- confidential records

  ghost predicate DistinctConf(conf: seq<ConfCoin>)
  {
    forall i, j :: 0 <= i < j < |conf| ==> conf[i].op != conf[j].op
  }

  /** Every coin an open transaction spends is marked with that transaction's id. */
  ghost predicate Marked(conf: seq<ConfCoin>, inflight: map<TxId, InFlight>)
  {
    forall t, i :: t in inflight && 0 <= i < |conf| && conf[i].op in inflight[t].confSpent ==> conf[i].spendTxid == t
  }

  /** A mark names a transaction whose only input is the marked coin. */
  ghost predicate MarksHonest(conf: seq<ConfCoin>)
  {
    forall i :: 0 <= i < |conf| && conf[i].spendTxid != NoTx ==>
      conf[i].spendTxid.Tx? && conf[i].spendTxid.confidential && conf[i].spendTxid.inputs == {conf[i].op}
  }

  ghost predicate OpOf(op: OutPoint, p: Payment)
  {
    op.txid.Tx? && op.index < |op.txid.outs| && op.txid.outs[op.index] == p
  }

  /** Every record is of a payment already counted. */
  ghost predicate Counted(w: Wallet)
  {
    forall i :: 0 <= i < |w.conf| ==>
      OpOf(w.conf[i].op, w.conf[i].payment) && w.conf[i].payment.ordinal < w.Next(w.conf[i].payment.key)
  }

  ghost predicate WalletOk(w: Wallet)
  {
    DistinctConf(w.conf) && MarksHonest(w.conf) && Counted(w)
  }

  /** Counters only grow from what is on disk. */
  ghost predicate Ahead(disk: Wallet, w: Wallet)
  {
    forall k :: disk.Next(k) <= w.Next(k)
  }

  ghost predicate HasSecrets(conf: seq<ConfCoin>, o: Sent)
  {
    exists i :: 0 <= i < |conf| && conf[i].op == o.op && conf[i].payment == o.payment && conf[i].amount == o.amount
  }

  /** The secrets of every output that may exist on the chain are kept. */
  ghost predicate SecretsKept(conf: seq<ConfCoin>, sent: set<Sent>, rejected: set<TxId>)
  {
    forall o :: o in sent && o.op.txid !in rejected ==> HasSecrets(conf, o)
  }

  /** What left the process was counted on disk first, and no payment left twice. */
  ghost predicate SentOk(sent: set<Sent>, disk: Wallet)
  {
    && (forall o :: o in sent ==> OpOf(o.op, o.payment) && o.payment.ordinal < disk.Next(o.payment.key))
    && (forall o, p :: o in sent && p in sent && o.payment == p.payment ==> o == p)
  }

  /**
   Two outputs that left the process never share a key and a request index, as long as no key's 32-bit
   counter has wrapped.
   */
  lemma RequestsNeverReused(sent: set<Sent>, disk: Wallet, o: Sent, p: Sent)
    requires SentOk(sent, disk) && o in sent && p in sent
    requires o.payment.key == p.payment.key && o.payment.Index() == p.payment.Index()
    requires disk.Next(o.payment.key) <= 0x1_0000_0000
    ensures o == p
  {
    assert o.payment == p.payment;
  }

  /** Two outputs of one key and request index that are not one output. */
  ghost predicate Reused(sent: set<Sent>, k: nat, o: Sent, p: Sent)
  {
    && o in sent && p in sent && o != p
    && o.payment.key == k && p.payment.key == k && o.payment.Index() == p.payment.Index()
  }

  /** A key that has issued n requests may have reused an index exactly when n is more than 2^32. */
  lemma ReuseExactly(k: nat, n: nat)
    ensures n > 0x1_0000_0000 <==>
      exists sent: set<Sent>, disk: Wallet, o: Sent, p: Sent :: SentOk(sent, disk) && disk.Next(k) == n
        && Reused(sent, k, o, p)
  {
    if n > 0x1_0000_0000 {
      var sent, disk, o, p := WrappedState(k, n);
    } else {
      forall sent: set<Sent>, disk: Wallet, o: Sent, p: Sent | SentOk(sent, disk) && disk.Next(k) == n && o in sent
        && p in sent
        ensures !Reused(sent, k, o, p)
      {
        if Reused(sent, k, o, p) {
          RequestsNeverReused(sent, disk, o, p);
        }
      }
    }
  }

  /** The first output of a key, and the one whose request came 2^32 requests later. */
  lemma WrappedState(k: nat, n: nat) returns (sent: set<Sent>, disk: Wallet, o: Sent, p: Sent)
    requires n > 0x1_0000_0000
    ensures SentOk(sent, disk) && disk.Next(k) == n && Reused(sent, k, o, p)
  {
    o, p := OutputOf(Payment(k, 0)), OutputOf(Payment(k, 0x1_0000_0000));
    sent, disk := {o, p}, Wallet(map[k := n], []);
    assert p.payment.Index() == 0;
  }

  function OutputOf(p: Payment): (o: Sent)
    ensures OpOf(o.op, p) && o.payment == p
  {
    Sent(p, OutPoint(Tx(true, {}, [p], 0), 0), 0)
  }

  // ---------------------------------------------------------------- opening and closing transactions

  ghost predicate UseOk(reserved: set<OutPoint>, inflight: map<TxId, InFlight>, holds: seq<Hold>)
  {
    && InFlightDisjoint(inflight) && HoldsDisjoint(holds) && HoldsApart(inflight, holds)
    && ReservedExact(reserved, inflight, holds) && AllTracked(inflight)
  }

  lemma RemoveHold(reserved: set<OutPoint>, inflight: map<TxId, InFlight>, a: seq<Hold>, h: Hold, b: seq<Hold>)
    requires UseOk(reserved, inflight, a + [h] + b)
    ensures UseOk(reserved - h.inputs, inflight, a + b)
  {
    var all, rest, left := a + [h] + b, a + b, reserved - h.inputs;
    assert forall i :: 0 <= i < |rest| ==> rest[i] == all[if i < |a| then i else i + 1];
    assert all[|a|] == h;
    forall i, op | 0 <= i < |rest| && op in rest[i].inputs
      ensures op in left
    {
      var j := if i < |a| then i else i + 1;
      assert op in all[j].inputs && op in reserved;
      assert j < |a| ==> all[j].inputs !! all[|a|].inputs;
      assert j > |a| ==> all[|a|].inputs !! all[j].inputs;
    }
    forall op | op in left
      ensures (exists t :: t in inflight && op in inflight[t].inputs)
        || (exists i :: 0 <= i < |rest| && op in rest[i].inputs)
    {
      if !exists t :: t in inflight && op in inflight[t].inputs {
        var j :| 0 <= j < |all| && op in all[j].inputs;
        assert j != |a|;
        var i := if j < |a| then j else j - 1;
        assert op in rest[i].inputs;
      }
    }
  }

  lemma CloseInFlight(reserved: set<OutPoint>, inflight: map<TxId, InFlight>, holds: seq<Hold>, t: TxId)
    requires UseOk(reserved, inflight, holds) && t in inflight
    ensures UseOk(reserved - inflight[t].inputs, inflight - {t}, holds)
  {
    var rest, left := inflight - {t}, reserved - inflight[t].inputs;
    forall op | op in left
      ensures (exists u :: u in rest && op in rest[u].inputs) || (exists i :: 0 <= i < |holds| && op in holds[i].inputs)
    {
      if !exists i :: 0 <= i < |holds| && op in holds[i].inputs {
        var u :| u in inflight && op in inflight[u].inputs;
        assert u in rest && op in rest[u].inputs;
      }
    }
  }

  lemma OpenInFlight(reserved: set<OutPoint>, inflight: map<TxId, InFlight>, holds: seq<Hold>, t: TxId, f: InFlight)
    requires UseOk(reserved, inflight, holds) && t !in inflight && Tracked(t, f) && f.inputs !! reserved
    ensures UseOk(reserved + f.inputs, inflight[t := f], holds)
  {
    var more, all := inflight[t := f], reserved + f.inputs;
    forall op | op in all
      ensures (exists u :: u in more && op in more[u].inputs) || (exists i :: 0 <= i < |holds| && op in holds[i].inputs)
    {
      if op in f.inputs {
        assert t in more && op in more[t].inputs;
      } else if !exists i :: 0 <= i < |holds| && op in holds[i].inputs {
        var u :| u in inflight && op in inflight[u].inputs;
        assert u in more && op in more[u].inputs;
      }
    }
  }

  lemma AddHold(reserved: set<OutPoint>, inflight: map<TxId, InFlight>, holds: seq<Hold>, h: Hold)
    requires UseOk(reserved, inflight, holds) && h.inputs !! reserved
    ensures UseOk(reserved + h.inputs, inflight, holds + [h])
  {
    var more, all := holds + [h], reserved + h.inputs;
    assert more[|holds|] == h;
    forall op | op in all
      ensures (exists u :: u in inflight && op in inflight[u].inputs)
        || (exists i :: 0 <= i < |more| && op in more[i].inputs)
    {
      if op in h.inputs {
        assert op in more[|holds|].inputs;
      } else if !exists u :: u in inflight && op in inflight[u].inputs {
        var i :| 0 <= i < |holds| && op in holds[i].inputs;
        assert op in more[i].inputs;
      }
    }
  }

  /** A new transaction over free inputs has an id no open transaction has. */
  lemma FreshId(reserved: set<OutPoint>, inflight: map<TxId, InFlight>, holds: seq<Hold>, conf: seq<ConfCoin>,
                t: TxId, f: InFlight)
    requires UseOk(reserved, inflight, holds) && Marked(conf, inflight)
    requires Tracked(t, f) && f.inputs !! reserved
    requires forall op :: op in f.confSpent ==>
      exists i :: 0 <= i < |conf| && conf[i].op == op && conf[i].spendTxid == NoTx
    ensures t !in inflight
  {
    var op :| op in t.inputs;
  }
}
