/**
 The runner's wallet as its file holds it: the save writes the text of WalletFile, and the text tells the
 next process every counter and record the runner relies on.
 */
module SavedWallet {
  import Traffic
  import opened WalletFile
  import opened WideArith
  import opened Sequences

  /** What the idealised ids and payments stand for: hash bytes, and the bytes of a record's secrets. */
  datatype Secrets = Secrets(spendSecret: seq<byte>, blind: seq<byte>, commitment: seq<byte>, oneTime: seq<byte>)
  datatype Bytes = Bytes(seed: seq<byte>, id: Traffic.TxId -> seq<byte>, secrets: Traffic.Payment -> Secrets)

  function RecordOnFile(c: Traffic.ConfCoin, e: Bytes): ConfCoin
  {
    var s := e.secrets(c.payment);
    ConfCoin(OutPoint(e.id(c.op.txid), c.op.index), c.amount, s.spendSecret, s.blind, s.commitment, s.oneTime,
             c.payment.key, c.originFinal, c.spent, e.id(c.spendTxid))
  }

  /** The counters are 32 bits wide. */
  function OnFile(w: Traffic.Wallet, e: Bytes): Wallet
  {
    Wallet(e.seed, map k | k in w.nextRequest :: w.nextRequest[k] % W32,
           seq(|w.conf|, i requires 0 <= i < |w.conf| => RecordOnFile(w.conf[i], e)))
  }

  ghost function Saved(w: Traffic.Wallet, e: Bytes): string
  {
    File(Lines(OnFile(w, e)))
  }

  /** Amounts, output indices and key numbers in the ranges of their fields, hashes and secrets of their sizes. */
  ghost predicate InRange(w: Traffic.Wallet, e: Bytes)
  {
    && |e.seed| == 32
    && (forall k :: k in w.nextRequest ==> k < WALLET_KEYS)
    && (forall i :: 0 <= i < |w.conf| ==> CoinOk(RecordOnFile(w.conf[i], e)))
  }

  /** A save followed by a load gives back the counters and records, byte for byte. */
  lemma SavedReadsBack(w: Traffic.Wallet, e: Bytes)
    requires InRange(w, e)
    ensures ParseText(Saved(w, e)) == Good(OnFile(w, e))
  {
    var f := OnFile(w, e);
    forall c | c in f.conf
      ensures CoinOk(c)
    {
      var i :| 0 <= i < |f.conf| && f.conf[i] == c;
      assert c == RecordOnFile(w.conf[i], e);
    }
    FileReadsBack(f);
  }

  /** Parsing the file of the saved wallet gives the content of the loaded one, whatever the bytes of its ids. */
  ghost predicate ReadsAs(saved: Traffic.Wallet, loaded: Traffic.Wallet)
  {
    forall e: Bytes :: InRange(saved, e) ==> ParseText(Saved(saved, e)) == Good(OnFile(loaded, e))
  }

  lemma ReadsAsItself(w: Traffic.Wallet)
    ensures ReadsAs(w, w)
  {
    forall e: Bytes | InRange(w, e)
      ensures ParseText(Saved(w, e)) == Good(OnFile(w, e))
    {
      SavedReadsBack(w, e);
    }
  }

  /** Different ids and payments of the two records have different bytes. */
  ghost predicate Apart(c: Traffic.ConfCoin, d: Traffic.ConfCoin, e: Bytes)
  {
    && (e.id(c.op.txid) == e.id(d.op.txid) ==> c.op.txid == d.op.txid)
    && (e.id(c.spendTxid) == e.id(d.spendTxid) ==> c.spendTxid == d.spendTxid)
    && (e.secrets(c.payment) == e.secrets(d.payment) ==> c.payment == d.payment)
  }

  ghost predicate Faithful(w: Traffic.Wallet, v: Traffic.Wallet, e: Bytes)
  {
    forall i, j :: 0 <= i < |w.conf| && 0 <= j < |v.conf| ==> Apart(w.conf[i], v.conf[j], e)
  }

  /** The same records, and the same counters modulo 2^32. */
  ghost predicate SameOnFile(w: Traffic.Wallet, v: Traffic.Wallet)
  {
    && w.conf == v.conf && w.nextRequest.Keys == v.nextRequest.Keys
    && forall k :: k in w.nextRequest ==> w.nextRequest[k] % W32 == v.nextRequest[k] % W32
  }

  lemma ContentTells(w: Traffic.Wallet, v: Traffic.Wallet, e: Bytes)
    requires Faithful(w, v, e) && OnFile(w, e) == OnFile(v, e)
    ensures SameOnFile(w, v)
  {
    var f, g := OnFile(w, e), OnFile(v, e);
    assert |f.conf| == |w.conf| && |g.conf| == |v.conf|;
    forall i | 0 <= i < |w.conf|
      ensures w.conf[i] == v.conf[i]
    {
      assert f.conf[i] == RecordOnFile(w.conf[i], e) && g.conf[i] == RecordOnFile(v.conf[i], e);
      assert Apart(w.conf[i], v.conf[i], e);
    }
    assert f.nextRequest.Keys == w.nextRequest.Keys && g.nextRequest.Keys == v.nextRequest.Keys;
    assert forall k :: k in w.nextRequest ==> f.nextRequest[k] == w.nextRequest[k] % W32;
  }

  lemma SameContent(w: Traffic.Wallet, v: Traffic.Wallet, e: Bytes)
    requires SameOnFile(w, v)
    ensures OnFile(w, e) == OnFile(v, e)
  {
    assert OnFile(w, e).nextRequest == OnFile(v, e).nextRequest;
  }

  /** Two wallets share a file exactly when they have the same records and the same counters modulo 2^32. */
  lemma FileTellsExactly(w: Traffic.Wallet, v: Traffic.Wallet, e: Bytes)
    requires InRange(w, e) && InRange(v, e) && Faithful(w, v, e)
    ensures Saved(w, e) == Saved(v, e) <==> SameOnFile(w, v)
  {
    SavedReadsBack(w, e);
    SavedReadsBack(v, e);
    if Saved(w, e) == Saved(v, e) {
      ContentTells(w, v, e);
    }
    if SameOnFile(w, v) {
      SameContent(w, v, e);
    }
  }
}
