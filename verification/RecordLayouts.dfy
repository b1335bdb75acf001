/**
 Where each field of a wallet record sits, byte by byte (apps/finalis-wallet/wallet_store.cpp, src/codec/bytes.cpp):
 fixed-width numbers least significant byte first, strings behind a length of seven bits a byte.
 */
module RecordLayouts {
  import opened WideArith
  import opened Sequences
  import opened ByteCodec
  import opened WalletRecords
  import Base32
  import Uleb128

  // ---------------------------------------------------------------- fields

  ghost predicate At(s: bytes, p: nat, t: bytes)
  {
    p + |t| <= |s| && s[p..p + |t|] == t
  }

  /** Byte i holds bits 8i to 8i + 7 of the number. */
  ghost predicate Spells(t: bytes, v: nat)
  {
    forall i :: 0 <= i < |t| ==> t[i] == v / Pow2(8 * i) % 256
  }

  /** Byte i holds bits 7i to 7i + 6; all but the last byte have the top bit set, and no byte is wasted. */
  ghost predicate Counts(t: bytes, v: nat)
  {
    && t != [] && v < Pow2(7 * |t|) && (|t| > 1 ==> v >= Pow2(7 * (|t| - 1)))
    && forall i :: 0 <= i < |t| ==> t[i] == v / Pow2(7 * i) % 128 + if i < |t| - 1 then 128 else 0
  }

  /** Bytes a length takes: one for each seven bits. */
  function Groups(v: nat): (w: nat)
    ensures w >= 1
  {
    if v < 128 then 1 else 1 + Groups(v / 128)
  }

  /** Bytes a string takes with its length. */
  function Size(b: bytes): nat
  {
    Groups(|b|) + |b|
  }

  /** A number of n bytes at p. */
  ghost predicate NumberAt(s: bytes, p: nat, n: nat, v: nat)
  {
    At(s, p, LE(v, n))
  }

  /** A string at p, behind its length. */
  ghost predicate StringAt(s: bytes, p: nat, b: bytes)
  {
    At(s, p, Varbytes(b))
  }

  // ---------------------------------------------------------------- the two number forms

  lemma {:induction false} NumberBytes(v: nat, n: nat)
    ensures Spells(LE(v, n), v)
  {
    if n > 0 {
      var t := LE(v, n);
      NumberBytes(v / 256, n - 1);
      forall i | 0 <= i < n
        ensures t[i] == v / Pow2(8 * i) % 256
      {
        if i > 0 {
          assert t[i] == LE(v / 256, n - 1)[i - 1];
          Pow256At(8 * (i - 1), 8 * i);
          Base32.DivDivSwap(v, Pow2(8 * (i - 1)), 256);
        }
      }
    }
  }

  lemma {:induction false} LengthByte(v: nat, i: nat)
    requires i < |Uleb128.Encode(v)|
    ensures Uleb128.Encode(v)[i] == v / Pow2(7 * i) % 128 + if i < |Uleb128.Encode(v)| - 1 then 128 else 0
    decreases v
  {
    if i > 0 {
      LengthByte(v / 128, i - 1);
      Pow128At(7 * (i - 1), 7 * i);
      Base32.DivDivSwap(v, Pow2(7 * (i - 1)), 128);
    }
  }

  lemma {:induction false} LengthBounds(v: nat)
    ensures |Uleb128.Encode(v)| == Groups(v) && v < Pow2(7 * Groups(v))
    ensures Groups(v) > 1 ==> v >= Pow2(7 * (Groups(v) - 1))
  {
    assert Pow2(7) == 128 by { Pow128At(0, 7); }
    if v >= 128 {
      LengthBounds(v / 128);
      CountBounds(v, Groups(v));
    }
  }

  lemma LengthBytes(v: nat)
    ensures |Uleb128.Encode(v)| == Groups(v) && Counts(Uleb128.Encode(v), v)
  {
    LengthBounds(v);
    forall i | 0 <= i < Groups(v)
      ensures Uleb128.Encode(v)[i] == v / Pow2(7 * i) % 128 + if i < Groups(v) - 1 then 128 else 0
    {
      LengthByte(v, i);
    }
  }

  lemma CountBounds(v: nat, w: nat)
    requires w >= 2 && v / 128 < Pow2(7 * (w - 1)) && v >= 128 && (w > 2 ==> v / 128 >= Pow2(7 * (w - 2)))
    ensures v < Pow2(7 * w) && v >= Pow2(7 * (w - 1))
  {
    Pow128At(7 * (w - 1), 7 * w);
    Pow128At(7 * (w - 2), 7 * (w - 1));
  }

  // ---------------------------------------------------------------- parts of a text

  lemma Within(s: bytes, p: nat, t: bytes, q: nat, u: bytes)
    requires At(s, p, t) && At(t, q, u)
    ensures At(s, p + q, u)
  {
    forall k | 0 <= k < |u|
      ensures s[p + q + k] == u[k]
    {
      assert u[k] == t[q..q + |u|][k] == t[q + k] == s[p..p + |t|][q + k];
    }
  }

  lemma Front(x: bytes, rest: bytes)
    ensures At(x + rest, 0, x) && At(x + rest, |x|, rest)
  {
  }

  /** The second of two parts of a part. */
  lemma Split(s: bytes, p: nat, x: bytes, rest: bytes)
    requires At(s, p, x + rest)
    ensures At(s, p, x) && At(s, p + |x|, rest)
  {
    Front(x, rest);
    Within(s, p, x + rest, 0, x);
    Within(s, p, x + rest, |x|, rest);
  }

  /** A string takes its length first, then its bytes. */
  lemma StringBytes(b: bytes)
    ensures |Varbytes(b)| == Size(b) && Counts(Varbytes(b)[..Groups(|b|)], |b|) && Varbytes(b)[Groups(|b|)..] == b
  {
    LengthBytes(|b|);
    assert Varbytes(b)[..Groups(|b|)] == Uleb128.Encode(|b|);
  }

  lemma StringLength(b: bytes)
    ensures |Varbytes(b)| == Size(b)
  {
    LengthBytes(|b|);
  }

  lemma SplitString(s: bytes, p: nat, b: bytes, rest: bytes)
    requires At(s, p, Varbytes(b) + rest)
    ensures StringAt(s, p, b) && At(s, p + Size(b), rest)
  {
    Split(s, p, Varbytes(b), rest);
    StringLength(b);
  }

  lemma SplitNumber(s: bytes, p: nat, n: nat, v: nat, rest: bytes)
    requires At(s, p, LE(v, n) + rest)
    ensures NumberAt(s, p, n, v) && At(s, p + n, rest)
  {
    Split(s, p, LE(v, n), rest);
  }

  // ---------------------------------------------------------------- records

  /** History: the height in eight bytes, then transaction id, kind and detail. */
  lemma HistoryLayout(r: History)
    ensures
      var s := EncodeHistory(r);
      var p1 := 8 + Size(r.txid);
      var p2 := p1 + Size(r.kind);
      && NumberAt(s, 0, 8, r.height) && StringAt(s, 8, r.txid) && StringAt(s, p1, r.kind) && StringAt(s, p2, r.detail)
      && |s| == p2 + Size(r.detail)
  {
    assert Varbytes(r.detail) + [] == Varbytes(r.detail);
    FourParts(LE(r.height, 8), Varbytes(r.txid), Varbytes(r.kind), Varbytes(r.detail));
    StringLength(r.txid);
    StringLength(r.kind);
    StringLength(r.detail);
  }

  lemma FourParts(w: bytes, x: bytes, y: bytes, z: bytes)
    ensures
      var s := w + (x + (y + z));
      && At(s, 0, w) && At(s, |w|, x) && At(s, |w| + |x|, y) && At(s, |w| + |x| + |y|, z)
      && |s| == |w| + |x| + |y| + |z|
  {
    var s := w + (x + (y + z));
    Front(w, x + (y + z));
    ThreeParts(s, |w|, x, y, z);
  }

  /** An outpoint: 32 bytes of id and a four-byte index. */
  ghost predicate PointAt(s: bytes, p: nat, o: OutPoint)
  {
    At(s, p, o.txid) && |o.txid| == 32 && NumberAt(s, p + 32, 4, o.index)
  }

  /** A coin: the outpoint, eight bytes of value, the script. */
  ghost predicate CoinAt(s: bytes, p: nat, c: Coin)
  {
    PointAt(s, p, c.point) && NumberAt(s, p + 36, 8, c.value) && StringAt(s, p + 44, c.script)
  }

  function CoinSize(c: Coin): nat
  {
    44 + Size(c.script)
  }

  lemma PointPart(s: bytes, p: nat, o: OutPoint)
    requires |o.txid| == 32 && At(s, p, EncodePoint(o))
    ensures PointAt(s, p, o)
  {
    Split(s, p, o.txid, LE(o.index, 4));
  }

  /** A coin, wherever it is written: 32 bytes of id, four of index, eight of value, then the script. */
  lemma CoinLayout(s: bytes, p: nat, c: Coin)
    requires |c.point.txid| == 32 && At(s, p, EncodeCoin(c))
    ensures CoinAt(s, p, c) && |EncodeCoin(c)| == CoinSize(c)
  {
    Split(s, p, EncodePoint(c.point), LE(c.value, 8) + Varbytes(c.script));
    PointPart(s, p, c.point);
    SplitNumber(s, p + 36, 8, c.value, Varbytes(c.script));
    StringLength(c.script);
  }

  /** The bytes the coins take. */
  function CoinsSize(cs: seq<Coin>): nat
  {
    if cs == [] then 0 else CoinsSize(cs[..|cs| - 1]) + CoinSize(cs[|cs| - 1])
  }

  /** Coins one after the other, from p on. */
  ghost predicate CoinsAt(s: bytes, p: nat, cs: seq<Coin>)
  {
    cs == [] || (CoinsAt(s, p, cs[..|cs| - 1]) && At(s, p + CoinsSize(cs[..|cs| - 1]), EncodeCoin(cs[|cs| - 1])))
  }

  /** Outpoints one after the other, 36 bytes each. */
  ghost predicate PointsAt(s: bytes, p: nat, os: seq<OutPoint>)
  {
    os == [] || (PointsAt(s, p, os[..|os| - 1]) && PointAt(s, p + 36 * (|os| - 1), os[|os| - 1]))
  }

  /** Unlock height, bond and amount, eight bytes each. */
  ghost predicate TermsAt(s: bytes, p: nat, r: TimedSend)
  {
    NumberAt(s, p, 8, r.unlock) && NumberAt(s, p + 8, 8, r.bond) && NumberAt(s, p + 16, 8, r.amount)
  }

  lemma TermsPart(s: bytes, p: nat, r: TimedSend)
    requires At(s, p, EncodeThree(r.unlock, r.bond, r.amount))
    ensures TermsAt(s, p, r)
  {
    SplitNumber(s, p, 8, r.unlock, LE(r.bond, 8) + LE(r.amount, 8));
    SplitNumber(s, p + 8, 8, r.bond, LE(r.amount, 8));
  }

  /** The recipient at p, then the fee coin. */
  lemma RecipientPart(s: bytes, p: nat, r: TimedSend)
    requires At(s, p, Varbytes(r.recipient) + EncodeCoin(r.fee)) && |r.fee.point.txid| == 32
    ensures StringAt(s, p, r.recipient) && CoinAt(s, p + Size(r.recipient), r.fee)
    ensures |Varbytes(r.recipient) + EncodeCoin(r.fee)| == Size(r.recipient) + CoinSize(r.fee)
  {
    SplitString(s, p, r.recipient, EncodeCoin(r.fee));
    CoinLayout(s, p + Size(r.recipient), r.fee);
    StringLength(r.recipient);
  }

  function HeadSize(r: TimedSend): nat
  {
    Size(r.body) + 24 + Size(r.recipient) + CoinSize(r.fee)
  }

  /** The body, the terms, the recipient and the fee coin. */
  ghost predicate HeadAt(s: bytes, r: TimedSend)
  {
    var p := Size(r.body);
    && StringAt(s, 0, r.body) && TermsAt(s, p, r) && StringAt(s, p + 24, r.recipient)
    && CoinAt(s, p + 24 + Size(r.recipient), r.fee)
  }

  /** The number of inputs, each input, and the cancel id. */
  ghost predicate TailAt(s: bytes, p: nat, r: TimedSend)
  {
    var q := p + Groups(|r.inputs|);
    && At(s, p, Uleb128.Encode(|r.inputs|)) && CoinsAt(s, q, r.inputs)
    && StringAt(s, q + CoinsSize(r.inputs), r.cancel)
  }

  lemma HeadParts(s: bytes, r: TimedSend)
    requires At(s, 0, EncodeHead(r)) && |r.fee.point.txid| == 32
    ensures HeadAt(s, r) && |EncodeHead(r)| == HeadSize(r)
  {
    var p := Size(r.body);
    var three, to := EncodeThree(r.unlock, r.bond, r.amount), Varbytes(r.recipient) + EncodeCoin(r.fee);
    SplitString(s, 0, r.body, three + to);
    Split(s, p, three, to);
    TermsPart(s, p, r);
    RecipientPart(s, p + 24, r);
    StringLength(r.body);
  }

  lemma TailParts(s: bytes, p: nat, r: TimedSend)
    requires At(s, p, EncodeTail(r)) && forall c :: c in r.inputs ==> |c.point.txid| == 32
    ensures TailAt(s, p, r)
  {
    var n, m := Groups(|r.inputs|), CoinsSize(r.inputs);
    LengthLength(|r.inputs|);
    CoinsLength(r.inputs);
    assert Varbytes(r.cancel) + [] == Varbytes(r.cancel);
    SizedParts(s, p, Uleb128.Encode(|r.inputs|), n, EncodeAll(r.inputs, EncodeCoin), m, Varbytes(r.cancel));
    CoinsPart(s, p + n, r.inputs);
  }

  lemma SizedParts(s: bytes, p: nat, x: bytes, n: nat, y: bytes, m: nat, z: bytes)
    requires At(s, p, x + (y + z)) && |x| == n && |y| == m
    ensures At(s, p, x) && At(s, p + n, y) && At(s, p + n + m, z)
  {
    ThreeParts(s, p, x, y, z);
  }

  lemma ThreeParts(s: bytes, p: nat, x: bytes, y: bytes, z: bytes)
    requires At(s, p, x + (y + z))
    ensures At(s, p, x) && At(s, p + |x|, y) && At(s, p + |x| + |y|, z)
  {
    Split(s, p, x, y + z);
    Split(s, p + |x|, y, z);
  }

  lemma LengthLength(v: nat)
    ensures |Uleb128.Encode(v)| == Groups(v)
  {
    LengthBytes(v);
  }

  /**
   A timed send: the body; unlock height, bond and amount in eight bytes each; the recipient; the fee coin; the number
   of inputs and each input; the cancel id.
   */
  lemma TimedLayout(r: TimedSend)
    requires TimedOk(r)
    ensures HeadAt(EncodeTimed(r), r) && TailAt(EncodeTimed(r), HeadSize(r), r)
  {
    var s, head, tail := EncodeTimed(r), EncodeHead(r), EncodeTail(r);
    Front(head, tail);
    HeadParts(s, r);
    TailParts(s, |head|, r);
  }

  lemma {:induction false} CoinsLength(cs: seq<Coin>)
    requires forall c :: c in cs ==> |c.point.txid| == 32
    ensures |EncodeAll(cs, EncodeCoin)| == CoinsSize(cs)
    decreases |cs|
  {
    if cs != [] {
      var front, last := cs[..|cs| - 1], cs[|cs| - 1];
      assert last in cs && forall c :: c in front ==> c in cs;
      CoinsLength(front);
      StringLength(last.script);
    }
  }

  lemma {:induction false} CoinsPart(s: bytes, p: nat, cs: seq<Coin>)
    requires At(s, p, EncodeAll(cs, EncodeCoin)) && forall c :: c in cs ==> |c.point.txid| == 32
    ensures CoinsAt(s, p, cs)
    decreases |cs|
  {
    if cs != [] {
      var front, last := cs[..|cs| - 1], cs[|cs| - 1];
      assert last in cs && forall c :: c in front ==> c in cs;
      Split(s, p, EncodeAll(front, EncodeCoin), EncodeCoin(last));
      CoinsLength(front);
      CoinsPart(s, p, front);
    }
  }

  lemma {:induction false} PointsPart(s: bytes, p: nat, os: seq<OutPoint>)
    requires At(s, p, EncodeAll(os, EncodePoint)) && forall o :: o in os ==> |o.txid| == 32
    ensures PointsAt(s, p, os) && |EncodeAll(os, EncodePoint)| == 36 * |os|
    decreases |os|
  {
    if os != [] {
      var front, last := os[..|os| - 1], os[|os| - 1];
      assert last in os && forall o :: o in front ==> o in os;
      Split(s, p, EncodeAll(front, EncodePoint), EncodePoint(last));
      PointsPart(s, p, front);
      PointPart(s, p + 36 * |front|, last);
    }
  }

  /** A pending spend: a four-byte count, 36 bytes an input, then tip height and time in eight bytes each. */
  lemma PendingLayout(r: PendingSpend)
    requires PendingOk(r)
    ensures
      var s, p := EncodePending(r), 4 + 36 * |r.inputs|;
      && NumberAt(s, 0, 4, |r.inputs|) && PointsAt(s, 4, r.inputs) && NumberAt(s, p, 8, r.tipHeight)
      && NumberAt(s, p + 8, 8, r.unixMs) && |s| == p + 16
  {
    var list := EncodeAll(r.inputs, EncodePoint);
    FourParts(LE(|r.inputs|, 4), list, LE(r.tipHeight, 8), LE(r.unixMs, 8));
    PointsPart(EncodePending(r), 4, r.inputs);
  }
}
