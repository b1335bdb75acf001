/**
 The wallet store's history, timed-send and pending-spend records (apps/finalis-wallet/wallet_store.cpp). Text
 is its bytes.
 */
module WalletRecords {
  import opened Options
  import opened WideArith
  import opened Sequences
  import opened ByteCodec

  type bytes = seq<byte>

  datatype History = History(height: nat, txid: bytes, kind: bytes, detail: bytes)
  datatype OutPoint = OutPoint(txid: bytes, index: nat)
  datatype Coin = Coin(point: OutPoint, value: nat, script: bytes)
  datatype TimedSend = TimedSend(
    body: bytes, unlock: nat, bond: nat, amount: nat, recipient: bytes, fee: Coin, inputs: seq<Coin>, cancel: bytes)
  datatype PendingSpend = PendingSpend(inputs: seq<OutPoint>, tipHeight: nat, unixMs: nat)

  // ---------------------------------------------------------------- in-range records: what the field types can hold

  predicate Short(b: bytes)
  {
    |b| < W64
  }

  predicate HistoryOk(r: History)
  {
    Fits(r.height, 8) && Short(r.txid) && Short(r.kind) && Short(r.detail)
  }

  predicate PointOk(o: OutPoint)
  {
    |o.txid| == 32 && Fits(o.index, 4)
  }

  predicate CoinOk(c: Coin)
  {
    PointOk(c.point) && Fits(c.value, 8) && Short(c.script)
  }

  predicate TimedOk(r: TimedSend)
  {
    HeadOk(r) && |r.inputs| < W64 && (forall c :: c in r.inputs ==> CoinOk(c)) && Short(r.cancel)
  }

  predicate PendingOk(r: PendingSpend)
  {
    Fits(|r.inputs|, 4) && (forall o :: o in r.inputs ==> PointOk(o)) && Fits(r.tipHeight, 8) && Fits(r.unixMs, 8)
  }

  // ---------------------------------------------------------------- history

  function EncodeHistory(r: History): bytes
  {
    LE(r.height, 8) + (Varbytes(r.txid) + (Varbytes(r.kind) + (Varbytes(r.detail) + [])))
  }

  function ParseHistory(s: bytes): Option<History>
  {
    var height := TakeLE(s, 8);
    if height == None then None else
    var txid := TakeVarbytes(height.value.1);
    if txid == None then None else
    var kind := TakeVarbytes(txid.value.1);
    if kind == None then None else
    var detail := TakeVarbytes(kind.value.1);
    if detail == None || detail.value.1 != [] then None else
    Some(History(height.value.0, txid.value.0, kind.value.0, detail.value.0))
  }

  lemma HistoryReadsBack(r: History)
    requires HistoryOk(r)
    ensures ParseHistory(EncodeHistory(r)) == Some(r)
  {
    var d := Varbytes(r.detail) + [];
    var k := Varbytes(r.kind) + d;
    var t := Varbytes(r.txid) + k;
    TakeLEExact(EncodeHistory(r), 8, r.height, t);
    TakeVarbytesExact(t, r.txid, k);
    TakeVarbytesExact(k, r.kind, d);
    TakeVarbytesExact(d, r.detail, []);
  }

  lemma HistoryCanonical(s: bytes)
    requires ParseHistory(s).Some?
    ensures HistoryOk(ParseHistory(s).value) && s == EncodeHistory(ParseHistory(s).value)
  {
    var r := ParseHistory(s).value;
    var s1 := TakeLE(s, 8).value.1;
    var s2 := TakeVarbytes(s1).value.1;
    var s3 := TakeVarbytes(s2).value.1;
    TakeLEExact(s, 8, r.height, s1);
    TakeVarbytesExact(s1, r.txid, s2);
    TakeVarbytesExact(s2, r.kind, s3);
    TakeVarbytesExact(s3, r.detail, []);
  }

  /** Parsing succeeds with r exactly on the encoding of an in-range r: a bijection. */
  lemma HistoryExact(s: bytes, r: History)
    ensures ParseHistory(s) == Some(r) <==> HistoryOk(r) && s == EncodeHistory(r)
  {
    if HistoryOk(r) && s == EncodeHistory(r) {
      HistoryReadsBack(r);
    }
    if ParseHistory(s).Some? {
      HistoryCanonical(s);
    }
  }

  method SerializeHistory(r: History) returns (s: bytes)
    requires HistoryOk(r)
    ensures s == EncodeHistory(r)
  {
    var w := new ByteWriter();
    w.PutLE(r.height, 8);
    w.PutVarbytes(r.txid);
    w.PutVarbytes(r.kind);
    w.PutVarbytes(r.detail);
    s := w.data;
    HistoryText(LE(r.height, 8), Varbytes(r.txid), Varbytes(r.kind), Varbytes(r.detail));
  }

  lemma HistoryText(h: bytes, t: bytes, k: bytes, d: bytes)
    ensures [] + h + t + k + d == h + (t + (k + (d + [])))
  {
  }

  /** parse_exact with the history reader: every field is read before any is checked. */
  method DecodeHistory(s: bytes) returns (r: Option<History>)
    ensures r == ParseHistory(s)
  {
    var rd := new ByteReader(s);
    var height := rd.GetLE(8);
    ghost var s1 := rd.Rest();
    var txid := rd.GetVarbytes();
    ghost var s2 := rd.Rest();
    var kind := rd.GetVarbytes();
    ghost var s3 := rd.Rest();
    var detail := rd.GetVarbytes();
    HistoryInParts(s, height, s1, txid, s2, kind, s3, detail, rd.Rest());
    if height == None || txid == None || kind == None || detail == None {
      return None;
    }
    var end := rd.AtEnd();
    r := if end then Some(History(height.value, txid.value, kind.value, detail.value)) else None;
  }

  lemma HistoryInParts(s: bytes, height: Option<nat>, s1: bytes, txid: Option<bytes>, s2: bytes, kind: Option<bytes>,
                       s3: bytes, detail: Option<bytes>, s4: bytes)
    requires if height == None then TakeLE(s, 8) == None else TakeLE(s, 8) == Some((height.value, s1))
    requires if txid == None then TakeVarbytes(s1) == None else TakeVarbytes(s1) == Some((txid.value, s2))
    requires if kind == None then TakeVarbytes(s2) == None else TakeVarbytes(s2) == Some((kind.value, s3))
    requires if detail == None then TakeVarbytes(s3) == None else TakeVarbytes(s3) == Some((detail.value, s4))
    ensures ParseHistory(s) ==
      if height == None || txid == None || kind == None || detail == None || s4 != [] then None
      else Some(History(height.value, txid.value, kind.value, detail.value))
  {
  }

  // ---------------------------------------------------------------- coins

  function EncodePoint(o: OutPoint): bytes
  {
    o.txid + LE(o.index, 4)
  }

  function TakePoint(s: bytes): Option<(OutPoint, bytes)>
  {
    var txid := TakeFixed(s, 32);
    if txid == None then None else
    var index := TakeLE(txid.value.1, 4);
    if index == None then None else
    Some((OutPoint(txid.value.0, index.value.0), index.value.1))
  }

  lemma TakePointExact(s: bytes, o: OutPoint, rest: bytes)
    ensures TakePoint(s) == Some((o, rest)) <==> PointOk(o) && s == EncodePoint(o) + rest
  {
    TakeFixedExact(s, 32, o.txid, LE(o.index, 4) + rest);
    TakeLEExact(LE(o.index, 4) + rest, 4, o.index, rest);
    assert EncodePoint(o) + rest == o.txid + (LE(o.index, 4) + rest);
    if TakePoint(s) == Some((o, rest)) {
      var s1 := TakeFixed(s, 32).value.1;
      TakeFixedExact(s, 32, o.txid, s1);
      TakeLEExact(s1, 4, o.index, rest);
    }
  }

  function EncodeCoin(c: Coin): bytes
  {
    EncodePoint(c.point) + (LE(c.value, 8) + Varbytes(c.script))
  }

  function TakeCoin(s: bytes): Option<(Coin, bytes)>
  {
    var point := TakePoint(s);
    if point == None then None else
    var value := TakeLE(point.value.1, 8);
    if value == None then None else
    var script := TakeVarbytes(value.value.1);
    if script == None then None else
    Some((Coin(point.value.0, value.value.0, script.value.0), script.value.1))
  }

  lemma TakeCoinExact(s: bytes, c: Coin, rest: bytes)
    ensures TakeCoin(s) == Some((c, rest)) <==> CoinOk(c) && s == EncodeCoin(c) + rest
  {
    var v := Varbytes(c.script) + rest;
    var t := LE(c.value, 8) + v;
    TakePointExact(s, c.point, t);
    TakeLEExact(t, 8, c.value, v);
    TakeVarbytesExact(v, c.script, rest);
    assert EncodeCoin(c) + rest == EncodePoint(c.point) + t;
    if TakeCoin(s) == Some((c, rest)) {
      var s1 := TakePoint(s).value.1;
      var s2 := TakeLE(s1, 8).value.1;
      TakePointExact(s, c.point, s1);
      TakeLEExact(s1, 8, c.value, s2);
      TakeVarbytesExact(s2, c.script, rest);
    }
  }

  lemma CoinFormat()
    ensures ReadsBack(EncodeCoin, TakeCoin, CoinOk) && Canonical(EncodeCoin, TakeCoin, CoinOk)
  {
    forall c: Coin, rest: bytes | CoinOk(c)
      ensures TakeCoin(EncodeCoin(c) + rest) == Some((c, rest))
    {
      TakeCoinExact(EncodeCoin(c) + rest, c, rest);
    }
    forall s | TakeCoin(s).Some?
      ensures CoinOk(TakeCoin(s).value.0) && s == EncodeCoin(TakeCoin(s).value.0) + TakeCoin(s).value.1
    {
      TakeCoinExact(s, TakeCoin(s).value.0, TakeCoin(s).value.1);
    }
  }

  lemma PointFormat()
    ensures ReadsBack(EncodePoint, TakePoint, PointOk) && Canonical(EncodePoint, TakePoint, PointOk)
  {
    forall o: OutPoint, rest: bytes | PointOk(o)
      ensures TakePoint(EncodePoint(o) + rest) == Some((o, rest))
    {
      TakePointExact(EncodePoint(o) + rest, o, rest);
    }
    forall s | TakePoint(s).Some?
      ensures PointOk(TakePoint(s).value.0) && s == EncodePoint(TakePoint(s).value.0) + TakePoint(s).value.1
    {
      TakePointExact(s, TakePoint(s).value.0, TakePoint(s).value.1);
    }
  }

  // ---------------------------------------------------------------- timed sends

  /** Unlock height, forfeit bond and amount. */
  function EncodeThree(u: nat, b: nat, a: nat): bytes
  {
    LE(u, 8) + (LE(b, 8) + LE(a, 8))
  }

  function TakeThree(s: bytes): Option<((nat, nat, nat), bytes)>
  {
    var u := TakeLE(s, 8);
    if u == None then None else
    var b := TakeLE(u.value.1, 8);
    if b == None then None else
    var a := TakeLE(b.value.1, 8);
    if a == None then None else Some(((u.value.0, b.value.0, a.value.0), a.value.1))
  }

  lemma TakeThreeExact(s: bytes, u: nat, b: nat, a: nat, rest: bytes)
    ensures TakeThree(s) == Some(((u, b, a), rest)) <==>
      Fits(u, 8) && Fits(b, 8) && Fits(a, 8) && s == EncodeThree(u, b, a) + rest
  {
    var t := LE(a, 8) + rest;
    TakeLEExact(s, 8, u, LE(b, 8) + t);
    TakeLEExact(LE(b, 8) + t, 8, b, t);
    TakeLEExact(t, 8, a, rest);
    assert EncodeThree(u, b, a) + rest == LE(u, 8) + (LE(b, 8) + t);
    if TakeThree(s) == Some(((u, b, a), rest)) {
      var s1 := TakeLE(s, 8).value.1;
      var s2 := TakeLE(s1, 8).value.1;
      TakeLEExact(s, 8, u, s1);
      TakeLEExact(s1, 8, b, s2);
      TakeLEExact(s2, 8, a, rest);
    }
  }

  /** Everything up to the fee coin. */
  function EncodeHead(r: TimedSend): bytes
  {
    Varbytes(r.body) + (EncodeThree(r.unlock, r.bond, r.amount) + (Varbytes(r.recipient) + EncodeCoin(r.fee)))
  }

  function TakeRecipient(s: bytes): Option<((bytes, Coin), bytes)>
  {
    var recipient := TakeVarbytes(s);
    if recipient == None then None else
    var fee := TakeCoin(recipient.value.1);
    if fee == None then None else Some(((recipient.value.0, fee.value.0), fee.value.1))
  }

  function TakeHead(s: bytes): Option<(TimedSend, bytes)>
  {
    var body := TakeVarbytes(s);
    if body == None then None else
    var three := TakeThree(body.value.1);
    if three == None then None else
    var to := TakeRecipient(three.value.1);
    if to == None then None else
    Some((TimedSend(body.value.0, three.value.0.0, three.value.0.1, three.value.0.2,
                    to.value.0.0, to.value.0.1, [], []), to.value.1))
  }

  predicate HeadOk(r: TimedSend)
  {
    Short(r.body) && Fits(r.unlock, 8) && Fits(r.bond, 8) && Fits(r.amount, 8) && Short(r.recipient) && CoinOk(r.fee)
  }

  lemma HeadReadsBack(r: TimedSend, rest: bytes)
    requires HeadOk(r)
    ensures TakeHead(EncodeHead(r) + rest) == Some((r.(inputs := [], cancel := []), rest))
  {
    var f := EncodeCoin(r.fee) + rest;
    var c := Varbytes(r.recipient) + f;
    var u := EncodeThree(r.unlock, r.bond, r.amount) + c;
    Join4(Varbytes(r.body), EncodeThree(r.unlock, r.bond, r.amount), Varbytes(r.recipient), EncodeCoin(r.fee), rest);
    TakeVarbytesExact(Varbytes(r.body) + u, r.body, u);
    TakeThreeExact(u, r.unlock, r.bond, r.amount, c);
    TakeVarbytesExact(c, r.recipient, f);
    TakeCoinExact(f, r.fee, rest);
  }

  lemma RecipientCanonical(s: bytes)
    requires TakeRecipient(s).Some?
    ensures var ((recipient, fee), rest) := TakeRecipient(s).value;
      Short(recipient) && CoinOk(fee) && s == Varbytes(recipient) + (EncodeCoin(fee) + rest)
  {
    var ((recipient, fee), rest) := TakeRecipient(s).value;
    var s1 := TakeVarbytes(s).value.1;
    TakeVarbytesExact(s, recipient, s1);
    TakeCoinExact(s1, fee, rest);
  }

  lemma HeadCanonical(s: bytes)
    requires TakeHead(s).Some?
    ensures var (r, rest) := TakeHead(s).value; HeadOk(r) && s == EncodeHead(r) + rest
  {
    var (r, rest) := TakeHead(s).value;
    var s1 := TakeVarbytes(s).value.1;
    var s2 := TakeThree(s1).value.1;
    TakeVarbytesExact(s, r.body, s1);
    TakeThreeExact(s1, r.unlock, r.bond, r.amount, s2);
    RecipientCanonical(s2);
    Join4(Varbytes(r.body), EncodeThree(r.unlock, r.bond, r.amount), Varbytes(r.recipient), EncodeCoin(r.fee), rest);
  }

  function EncodeTimed(r: TimedSend): bytes
  {
    EncodeHead(r) + EncodeTail(r)
  }

  /** The counted inputs and the cancel id. */
  function EncodeTail(r: TimedSend): bytes
  {
    Uleb128.Encode(|r.inputs|) + (EncodeAll(r.inputs, EncodeCoin) + (Varbytes(r.cancel) + []))
  }

  function ParseTimed(s: bytes): Option<TimedSend>
  {
    var head := TakeHead(s);
    if head == None then None else
    var tail := ParseTail(head.value.1);
    if tail == None then None else Some(head.value.0.(inputs := tail.value.0, cancel := tail.value.1))
  }

  /** The count guard rejects a count above the bytes left before any coin is read. */
  function ParseTail(s: bytes): Option<(seq<Coin>, bytes)>
  {
    var count := Uleb128.Read(s);
    if count == None || count.value.0 > |count.value.1| then None else
    var coins := TakeAll(count.value.1, count.value.0, TakeCoin);
    if coins == None then None else
    var cancel := TakeVarbytes(coins.value.1);
    if cancel == None || cancel.value.1 != [] then None else
    Some((coins.value.0, cancel.value.0))
  }

  lemma TailReadsBack(r: TimedSend)
    requires TimedOk(r)
    ensures ParseTail(EncodeTail(r)) == Some((r.inputs, r.cancel))
  {
    var c := Varbytes(r.cancel) + [];
    var t := EncodeAll(r.inputs, EncodeCoin) + c;
    Uleb128.ReadExact(EncodeTail(r), |r.inputs|, t);
    CoinFormat();
    AllReadBack(r.inputs, c, EncodeCoin, TakeCoin, CoinOk);
    ItemsTakeRoom(r.inputs, EncodeCoin);
    TakeVarbytesExact(c, r.cancel, []);
  }

  lemma TailCanonical(s: bytes)
    requires ParseTail(s).Some?
    ensures
      var (inputs, cancel) := ParseTail(s).value;
      && |inputs| < W64 && (forall c :: c in inputs ==> CoinOk(c)) && Short(cancel)
      && s == Uleb128.Encode(|inputs|) + (EncodeAll(inputs, EncodeCoin) + (Varbytes(cancel) + []))
  {
    var (count, s1) := Uleb128.Read(s).value;
    var (inputs, s2) := TakeAll(s1, count, TakeCoin).value;
    var cancel := TakeVarbytes(s2).value.0;
    Uleb128.ReadExact(s, count, s1);
    CoinFormat();
    AllCanonical(s1, count, EncodeCoin, TakeCoin, CoinOk);
    TakeVarbytesExact(s2, cancel, []);
  }

  lemma TimedReadsBack(r: TimedSend)
    requires TimedOk(r)
    ensures ParseTimed(EncodeTimed(r)) == Some(r)
  {
    HeadReadsBack(r, EncodeTail(r));
    TailReadsBack(r);
  }

  lemma TimedCanonical(s: bytes)
    requires ParseTimed(s).Some?
    ensures TimedOk(ParseTimed(s).value) && s == EncodeTimed(ParseTimed(s).value)
  {
    HeadCanonical(s);
    TailCanonical(TakeHead(s).value.1);
  }

  /** Timed-send parsing succeeds with r exactly on the encoding of an in-range r; the count guard costs nothing. */
  lemma TimedExact(s: bytes, r: TimedSend)
    ensures ParseTimed(s) == Some(r) <==> TimedOk(r) && s == EncodeTimed(r)
  {
    if TimedOk(r) && s == EncodeTimed(r) {
      TimedReadsBack(r);
    }
    if ParseTimed(s).Some? {
      TimedCanonical(s);
    }
  }

  // ---------------------------------------------------------------- pending spends

  /** The older form ends after the inputs; the current one adds sixteen bytes. */
  function EncodePendingOld(inputs: seq<OutPoint>): bytes
  {
    LE(|inputs|, 4) + (EncodeAll(inputs, EncodePoint) + [])
  }

  function EncodePending(r: PendingSpend): bytes
  {
    LE(|r.inputs|, 4) + (EncodeAll(r.inputs, EncodePoint) + (LE(r.tipHeight, 8) + LE(r.unixMs, 8)))
  }

  function ParsePending(s: bytes): Option<PendingSpend>
  {
    var count := TakeLE(s, 4);
    if count == None then None else
    var inputs := TakeAll(count.value.1, count.value.0, TakePoint);
    if inputs == None then None else PendingFrom(inputs.value.0, inputs.value.1)
  }

  function PendingFrom(inputs: seq<OutPoint>, rest: bytes): Option<PendingSpend>
  {
    if |rest| == 16 then Some(PendingSpend(inputs, FromLE(rest[..8]), FromLE(rest[8..])))
    else if rest == [] then Some(PendingSpend(inputs, 0, 0))
    else None
  }

  lemma PendingFromExact(inputs: seq<OutPoint>, rest: bytes, r: PendingSpend)
    ensures PendingFrom(inputs, rest) == Some(r) <==>
      && inputs == r.inputs && Fits(r.tipHeight, 8) && Fits(r.unixMs, 8)
      && (rest == LE(r.tipHeight, 8) + LE(r.unixMs, 8) || (rest == [] && r.tipHeight == 0 && r.unixMs == 0))
  {
    var tail := LE(r.tipHeight, 8) + LE(r.unixMs, 8);
    assert tail[..8] == LE(r.tipHeight, 8) && tail[8..] == LE(r.unixMs, 8);
    if Fits(r.tipHeight, 8) && Fits(r.unixMs, 8) {
      LEValue(r.tipHeight, 8);
      LEValue(r.unixMs, 8);
    }
    if |rest| == 16 {
      FromLEBytes(rest[..8]);
      FromLEBytes(rest[8..]);
      assert rest == rest[..8] + rest[8..];
    }
  }

  lemma PendingInputs(inputs: seq<OutPoint>, rest: bytes)
    requires Fits(|inputs|, 4) && forall o :: o in inputs ==> PointOk(o)
    ensures
      var s := LE(|inputs|, 4) + (EncodeAll(inputs, EncodePoint) + rest);
      && TakeLE(s, 4) == Some((|inputs|, EncodeAll(inputs, EncodePoint) + rest))
      && TakeAll(TakeLE(s, 4).value.1, |inputs|, TakePoint) == Some((inputs, rest))
  {
    var t := EncodeAll(inputs, EncodePoint) + rest;
    TakeLEExact(LE(|inputs|, 4) + t, 4, |inputs|, t);
    PointFormat();
    AllReadBack(inputs, rest, EncodePoint, TakePoint, PointOk);
  }

  lemma PendingCanonical(s: bytes)
    requires ParsePending(s).Some?
    ensures
      var r := ParsePending(s).value;
      PendingOk(r) && (s == EncodePending(r) || (s == EncodePendingOld(r.inputs) && r.tipHeight == 0 && r.unixMs == 0))
  {
    var r := ParsePending(s).value;
    var (count, s1) := TakeLE(s, 4).value;
    var (inputs, rest) := TakeAll(s1, count, TakePoint).value;
    TakeLEExact(s, 4, count, s1);
    PointFormat();
    AllCanonical(s1, count, EncodePoint, TakePoint, PointOk);
    PendingFromExact(inputs, rest, r);
  }

  /** The pending-spend parser accepts exactly the current form and the older form, whose tail reads as zero. */
  lemma PendingExact(s: bytes, r: PendingSpend)
    ensures ParsePending(s) == Some(r) <==>
      PendingOk(r) && (s == EncodePending(r) || (s == EncodePendingOld(r.inputs) && r.tipHeight == 0 && r.unixMs == 0))
  {
    if PendingOk(r) && s == EncodePending(r) {
      PendingInputs(r.inputs, LE(r.tipHeight, 8) + LE(r.unixMs, 8));
      PendingFromExact(r.inputs, LE(r.tipHeight, 8) + LE(r.unixMs, 8), r);
    } else if PendingOk(r) && s == EncodePendingOld(r.inputs) && r.tipHeight == 0 && r.unixMs == 0 {
      PendingInputs(r.inputs, []);
    }
    if ParsePending(s).Some? {
      PendingCanonical(s);
    }
  }

  // ---------------------------------------------------------------- the record writers and readers

  method PutPoint(w: ByteWriter, o: OutPoint)
    modifies w
    ensures w.data == old(w.data) + EncodePoint(o)
  {
    w.PutBytes(o.txid);
    w.PutLE(o.index, 4);
  }

  method PutCoin(w: ByteWriter, c: Coin)
    requires Short(c.script)
    modifies w
    ensures w.data == old(w.data) + EncodeCoin(c)
  {
    PutPoint(w, c.point);
    w.PutLE(c.value, 8);
    w.PutVarbytes(c.script);
    Join3(old(w.data), EncodePoint(c.point), LE(c.value, 8), Varbytes(c.script));
  }

  method PutCoins(w: ByteWriter, cs: seq<Coin>)
    requires forall c :: c in cs ==> CoinOk(c)
    modifies w
    ensures w.data == old(w.data) + EncodeAll(cs, EncodeCoin)
  {
    for i := 0 to |cs|
      invariant w.data == old(w.data) + EncodeAll(cs[..i], EncodeCoin)
    {
      assert cs[i] in cs;
      PutCoin(w, cs[i]);
      assert cs[..i + 1][..i] == cs[..i];
    }
    assert cs[..|cs|] == cs;
  }

  method PutPoints(w: ByteWriter, os: seq<OutPoint>)
    modifies w
    ensures w.data == old(w.data) + EncodeAll(os, EncodePoint)
  {
    for i := 0 to |os|
      invariant w.data == old(w.data) + EncodeAll(os[..i], EncodePoint)
    {
      PutPoint(w, os[i]);
      assert os[..i + 1][..i] == os[..i];
    }
    assert os[..|os|] == os;
  }

  method PutThree(w: ByteWriter, u: nat, b: nat, a: nat)
    modifies w
    ensures w.data == old(w.data) + EncodeThree(u, b, a)
  {
    w.PutLE(u, 8);
    w.PutLE(b, 8);
    w.PutLE(a, 8);
    Join3(old(w.data), LE(u, 8), LE(b, 8), LE(a, 8));
  }

  method PutTail(w: ByteWriter, r: TimedSend)
    requires TimedOk(r)
    modifies w
    ensures w.data == old(w.data) + EncodeTail(r)
  {
    w.PutVarint(|r.inputs| as u64);
    PutCoins(w, r.inputs);
    w.PutVarbytes(r.cancel);
  }

  method PutHead(w: ByteWriter, r: TimedSend)
    requires HeadOk(r)
    modifies w
    ensures w.data == old(w.data) + EncodeHead(r)
  {
    w.PutVarbytes(r.body);
    ghost var start := w.data;
    PutThree(w, r.unlock, r.bond, r.amount);
    w.PutVarbytes(r.recipient);
    PutCoin(w, r.fee);
    Join3(start, EncodeThree(r.unlock, r.bond, r.amount), Varbytes(r.recipient), EncodeCoin(r.fee));
  }

  method SerializeTimed(r: TimedSend) returns (s: bytes)
    requires TimedOk(r)
    ensures s == EncodeTimed(r)
  {
    var w := new ByteWriter();
    PutHead(w, r);
    PutTail(w, r);
    s := w.data;
  }

  /** The count is written as 32 bits, which an in-range record fits. */
  method SerializePending(r: PendingSpend) returns (s: bytes)
    requires PendingOk(r)
    ensures s == EncodePending(r)
  {
    var w := new ByteWriter();
    w.PutLE(|r.inputs|, 4);
    PutPoints(w, r.inputs);
    w.PutLE(r.tipHeight, 8);
    w.PutLE(r.unixMs, 8);
    s := w.data;
    assert s == LE(|r.inputs|, 4) + EncodeAll(r.inputs, EncodePoint) + LE(r.tipHeight, 8) + LE(r.unixMs, 8);
  }

  method GetPoint(rd: ByteReader) returns (r: Option<OutPoint>)
    requires rd.Valid()
    modifies rd
    ensures rd.Valid()
    ensures r == None ==> TakePoint(old(rd.Rest())) == None
    ensures r.Some? ==> TakePoint(old(rd.Rest())) == Some((r.value, rd.Rest()))
  {
    var txid := rd.GetBytes(32);
    var index := rd.GetLE(4);
    r := if txid == None || index == None then None else Some(OutPoint(txid.value, index.value));
  }

  method GetCoin(rd: ByteReader) returns (r: Option<Coin>)
    requires rd.Valid()
    modifies rd
    ensures rd.Valid()
    ensures r == None ==> TakeCoin(old(rd.Rest())) == None
    ensures r.Some? ==> TakeCoin(old(rd.Rest())) == Some((r.value, rd.Rest()))
  {
    var point := GetPoint(rd);
    var value := rd.GetLE(8);
    var script := rd.GetVarbytes();
    r := if point == None || value == None || script == None then None
         else Some(Coin(point.value, value.value, script.value));
  }

  method GetCoins(rd: ByteReader, n: nat) returns (r: Option<seq<Coin>>)
    requires rd.Valid()
    modifies rd
    ensures rd.Valid()
    ensures r == None ==> TakeAll(old(rd.Rest()), n, TakeCoin) == None
    ensures r.Some? ==> TakeAll(old(rd.Rest()), n, TakeCoin) == Some((r.value, rd.Rest()))
  {
    var coins: seq<Coin> := [];
    for i := 0 to n
      invariant rd.Valid()
      invariant TakeAll(old(rd.Rest()), i, TakeCoin) == Some((coins, rd.Rest()))
    {
      var c := GetCoin(rd);
      if c == None {
        TakeAllStops(old(rd.Rest()), i + 1, n, TakeCoin);
        return None;
      }
      coins := coins + [c.value];
    }
    return Some(coins);
  }

  method GetPoints(rd: ByteReader, n: nat) returns (r: Option<seq<OutPoint>>)
    requires rd.Valid()
    modifies rd
    ensures rd.Valid()
    ensures r == None ==> TakeAll(old(rd.Rest()), n, TakePoint) == None
    ensures r.Some? ==> TakeAll(old(rd.Rest()), n, TakePoint) == Some((r.value, rd.Rest()))
  {
    var points: seq<OutPoint> := [];
    for i := 0 to n
      invariant rd.Valid()
      invariant TakeAll(old(rd.Rest()), i, TakePoint) == Some((points, rd.Rest()))
    {
      var o := GetPoint(rd);
      if o == None {
        TakeAllStops(old(rd.Rest()), i + 1, n, TakePoint);
        return None;
      }
      points := points + [o.value];
    }
    return Some(points);
  }

  /** The part of the timed-send reader after the fee coin. */
  method GetTail(rd: ByteReader) returns (r: Option<(seq<Coin>, bytes)>)
    requires rd.Valid()
    modifies rd
    ensures rd.Valid() && r == ParseTail(old(rd.Rest()))
  {
    var count := rd.GetVarint();
    if count == None {
      return None;
    }
    var left := rd.Remaining();
    if count.value as nat > left {
      return None;
    }
    var inputs := GetCoins(rd, count.value as nat);
    if inputs == None {
      return None;
    }
    var cancel := rd.GetVarbytes();
    if cancel == None {
      return None;
    }
    var end := rd.AtEnd();
    r := if end then Some((inputs.value, cancel.value)) else None;
  }

  method GetThree(rd: ByteReader) returns (r: Option<(nat, nat, nat)>)
    requires rd.Valid()
    modifies rd
    ensures rd.Valid()
    ensures r == None ==> TakeThree(old(rd.Rest())) == None
    ensures r.Some? ==> TakeThree(old(rd.Rest())) == Some((r.value, rd.Rest()))
  {
    var unlock := rd.GetLE(8);
    var bond := rd.GetLE(8);
    var amount := rd.GetLE(8);
    r := if unlock == None || bond == None || amount == None then None
         else Some((unlock.value, bond.value, amount.value));
  }

  method GetRecipient(rd: ByteReader) returns (r: Option<(bytes, Coin)>)
    requires rd.Valid()
    modifies rd
    ensures rd.Valid()
    ensures r == None ==> TakeRecipient(old(rd.Rest())) == None
    ensures r.Some? ==> TakeRecipient(old(rd.Rest())) == Some((r.value, rd.Rest()))
  {
    var recipient := rd.GetVarbytes();
    var fee := GetCoin(rd);
    r := if recipient == None || fee == None then None else Some((recipient.value, fee.value));
  }

  method GetHead(rd: ByteReader) returns (r: Option<TimedSend>)
    requires rd.Valid()
    modifies rd
    ensures rd.Valid()
    ensures r == None ==> TakeHead(old(rd.Rest())) == None
    ensures r.Some? ==> TakeHead(old(rd.Rest())) == Some((r.value, rd.Rest()))
  {
    ghost var s0 := rd.Rest();
    var body := rd.GetVarbytes();
    ghost var s1 := rd.Rest();
    var three := GetThree(rd);
    ghost var s2 := rd.Rest();
    var to := GetRecipient(rd);
    HeadInParts(s0, body, s1, three, s2, to, rd.Rest());
    r := if body == None || three == None || to == None then None
         else Some(TimedSend(body.value, three.value.0, three.value.1, three.value.2, to.value.0, to.value.1, [], []));
  }

  lemma HeadInParts(s0: bytes, body: Option<bytes>, s1: bytes, three: Option<(nat, nat, nat)>, s2: bytes,
                    to: Option<(bytes, Coin)>, s3: bytes)
    requires if body == None then TakeVarbytes(s0) == None else TakeVarbytes(s0) == Some((body.value, s1))
    requires if three == None then TakeThree(s1) == None else TakeThree(s1) == Some((three.value, s2))
    requires if to == None then TakeRecipient(s2) == None else TakeRecipient(s2) == Some((to.value, s3))
    ensures TakeHead(s0) ==
      if body == None || three == None || to == None then None
      else Some((TimedSend(body.value, three.value.0, three.value.1, three.value.2, to.value.0, to.value.1, [], []),
        s3))
  {
  }

  method DecodeTimed(s: bytes) returns (r: Option<TimedSend>)
    ensures r == ParseTimed(s)
  {
    var rd := new ByteReader(s);
    var head := GetHead(rd);
    if head == None {
      return None;
    }
    var tail := GetTail(rd);
    r := if tail == None then None else Some(head.value.(inputs := tail.value.0, cancel := tail.value.1));
  }

  method DecodePending(s: bytes) returns (r: Option<PendingSpend>)
    ensures r == ParsePending(s)
  {
    var rd := new ByteReader(s);
    var count := rd.GetLE(4);
    if count == None {
      return None;
    }
    var inputs := GetPoints(rd, count.value);
    if inputs == None {
      return None;
    }
    r := GetPendingTail(rd, inputs.value);
  }

  /** The sixteen-byte tail of the current form, or none of it. */
  method GetPendingTail(rd: ByteReader, inputs: seq<OutPoint>) returns (r: Option<PendingSpend>)
    requires rd.Valid()
    modifies rd
    ensures rd.Valid() && r == PendingFrom(inputs, old(rd.Rest()))
  {
    ghost var rest := rd.Rest();
    var left := rd.Remaining();
    if left == 16 {
      var tipHeight := rd.GetLE(8);
      var unixMs := rd.GetLE(8);
      assert rest[8..][..8] == rest[8..];
      return Some(PendingSpend(inputs, tipHeight.value, unixMs.value));
    }
    var end := rd.AtEnd();
    r := if end then Some(PendingSpend(inputs, 0, 0)) else None;
  }
}
