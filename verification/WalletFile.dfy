/**
 The nodetest wallet file (apps/finalis-nodetest/nodetest_core.cpp): words and numbers written to a
 text stream and extracted from it again. Extraction skips blanks, then takes a word up to the next
 blank or the digits of a number.
 */
module WalletFile {
  import opened Options
  import opened WideArith
  import opened Sequences
  import opened UtcText
  import Sorting

  const WALLET_KEYS: nat := 8

  datatype OutPoint = OutPoint(txid: seq<byte>, index: nat)
  datatype ConfCoin = ConfCoin(
    op: OutPoint, amount: nat, spendSecret: seq<byte>, blind: seq<byte>, commitment: seq<byte>, oneTime: seq<byte>,
    key: nat, originFinal: bool, spent: bool, spendTxid: seq<byte>)
  datatype Wallet = Wallet(seed: seq<byte>, nextRequest: map<nat, nat>, conf: seq<ConfCoin>)

  predicate CoinOk(c: ConfCoin)
  {
    && |c.op.txid| == 32 && c.op.index < W32 && c.amount < W64 && |c.spendSecret| == 32 && |c.blind| == 32
    && |c.commitment| == 33 && |c.oneTime| == 33 && c.key < WALLET_KEYS && |c.spendTxid| == 32
  }

  predicate WalletOk(w: Wallet)
  {
    && |w.seed| == 32
    && (forall k :: k in w.nextRequest ==> k < WALLET_KEYS && w.nextRequest[k] < W32)
    && (forall c :: c in w.conf ==> CoinOk(c))
  }

  // ---------------------------------------------------------------- hex

  function Nibble(d: nat): char
    requires d < 16
  {
    if d < 10 then '0' + d as char else 'a' + (d - 10) as char
  }

  function FromNibble(c: char): Option<nat>
  {
    if '0' <= c <= '9' then Some((c - '0') as nat)
    else if 'a' <= c <= 'f' then Some((c - 'a') as nat + 10)
    else if 'A' <= c <= 'F' then Some((c - 'A') as nat + 10)
    else None
  }

  function Hex(b: seq<byte>): string
  {
    if b == [] then "" else [Nibble(b[0] / 16), Nibble(b[0] % 16)] + Hex(b[1..])
  }

  function Unhex(s: string): Option<seq<byte>>
  {
    if s == "" then Some([])
    else if |s| == 1 then None
    else
      var hi, lo, rest := FromNibble(s[0]), FromNibble(s[1]), Unhex(s[2..]);
      if hi == None || lo == None || hi.value > 15 || lo.value > 15 || rest == None then None
      else Some([hi.value * 16 + lo.value] + rest.value)
  }

  /** parse_h32 and parse_arr: hex of an exact length. */
  function UnhexExact(s: string, n: nat): Option<seq<byte>>
  {
    var b := Unhex(s);
    if b == None || |b.value| != n then None else b
  }

  predicate HexDigit(c: char)
  {
    '0' <= c <= '9' || 'a' <= c <= 'f'
  }

  lemma NibblesRead(b: byte)
    ensures FromNibble(Nibble(b / 16)) == Some(b / 16) && FromNibble(Nibble(b % 16)) == Some(b % 16)
    ensures HexDigit(Nibble(b / 16)) && HexDigit(Nibble(b % 16))
  {
  }

  lemma {:induction false} HexReadsBack(b: seq<byte>)
    ensures Unhex(Hex(b)) == Some(b) && |Hex(b)| == 2 * |b| && forall c :: c in Hex(b) ==> HexDigit(c)
    decreases |b|
  {
    if b != [] {
      HexReadsBack(b[1..]);
      NibblesRead(b[0]);
      assert Hex(b)[2..] == Hex(b[1..]);
      assert b == [b[0]] + b[1..];
    }
  }

  // ---------------------------------------------------------------- the text stream

  predicate Blank(c: char)
  {
    c == ' ' || c == '\n' || c == '\t' || c == '\r'
  }

  function SkipBlanks(s: string): (t: string)
    ensures |t| <= |s|
  {
    if s != "" && Blank(s[0]) then SkipBlanks(s[1..]) else s
  }

  /** How many of the first characters satisfy the test. */
  function Span(s: string, f: char -> bool): (n: nat)
    ensures n <= |s|
  {
    if s != "" && f(s[0]) then 1 + Span(s[1..], f) else 0
  }

  function NonBlank(c: char): bool
  {
    !Blank(c)
  }

  /** `f >> word`: None when nothing but blanks is left. */
  function Word(s: string): (r: Option<(string, string)>)
    ensures r.Some? ==> |r.value.1| < |s|
  {
    var t := SkipBlanks(s);
    var n := Span(t, NonBlank);
    if n == 0 then None else Some((t[..n], t[n..]))
  }

  /** An optional sign and at least one digit, as the library conversions take them; what follows is left. */
  function Digits(s: string): (r: Option<(bool, nat, string)>)
    ensures r.Some? ==> |r.value.2| < |s|
  {
    var signed := s != "" && (s[0] == '-' || s[0] == '+');
    var t := if signed then s[1..] else s;
    var n := Span(t, IsDigit);
    if n == 0 || DigitsValue(t[..n]) == None then None
      else Some((signed && s[0] == '-', DigitsValue(t[..n]).value, t[n..]))
  }

  // ---------------------------------------------------------------- what is written reads back

  lemma {:induction false} SpanExact(a: string, rest: string, f: char -> bool)
    requires (forall c :: c in a ==> f(c)) && (rest == "" || !f(rest[0]))
    ensures Span(a + rest, f) == |a|
    decreases |a|
  {
    if a == "" {
      assert a + rest == rest;
    } else {
      assert (a + rest)[1..] == a[1..] + rest;
      SpanExact(a[1..], rest, f);
    }
  }

  predicate PlainWord(w: string)
  {
    w != "" && forall c :: c in w ==> !Blank(c)
  }

  /** A word comes back whole and the separator after it is left. */
  lemma WordReads(w: string, rest: string)
    requires PlainWord(w) && rest != "" && Blank(rest[0])
    ensures Word(w + rest) == Some((w, rest))
  {
    SpanExact(w, rest, NonBlank);
    var t := w + rest;
    assert t[0] == w[0] && w[0] in w;
    assert t[..|w|] == w && t[|w|..] == rest;
  }

  lemma {:induction false} DecimalReads(v: nat)
    ensures DigitsValue(Decimal(v)) == Some(v) && forall c :: c in Decimal(v) ==> IsDigit(c)
  {
    if v >= 10 {
      DecimalReads(v / 10);
      assert Decimal(v)[..|Decimal(v)| - 1] == Decimal(v / 10);
    }
  }

  lemma DigitsRead(v: nat, rest: string)
    requires rest == "" || !IsDigit(rest[0])
    ensures Digits(Decimal(v) + rest) == Some((false, v, rest))
  {
    var d := Decimal(v);
    DecimalReads(v);
    SpanExact(d, rest, IsDigit);
    assert d[0] in d && (d + rest)[0] == d[0];
    assert (d + rest)[..|d|] == d && (d + rest)[|d|..] == rest;
  }

  lemma DigitsAll(v: nat)
    ensures Digits(Decimal(v)) == Some((false, v, ""))
  {
    DigitsRead(v, "");
    assert Decimal(v) + "" == Decimal(v);
  }

  lemma DecimalIsWord(v: nat)
    ensures PlainWord(Decimal(v))
  {
    DecimalReads(v);
  }

  lemma HexIsWord(b: seq<byte>)
    requires b != []
    ensures PlainWord(Hex(b))
  {
    HexReadsBack(b);
  }

  // ---------------------------------------------------------------- a file is its words

  function Tokens(s: string): seq<string>
    decreases |s|
  {
    var w := Word(s);
    if w == None then [] else [w.value.0] + Tokens(w.value.1)
  }

  /** A line of words with single blanks between them. */
  function Line(ws: seq<string>): string
  {
    if ws == [] then "\n" else if |ws| == 1 then ws[0] + "\n" else ws[0] + (" " + Line(ws[1..]))
  }

  function File(lines: seq<seq<string>>): string
  {
    if lines == [] then "" else Line(lines[0]) + File(lines[1..])
  }

  function Words(lines: seq<seq<string>>): seq<string>
  {
    if lines == [] then [] else lines[0] + Words(lines[1..])
  }

  ghost predicate PlainWords(ws: seq<string>)
  {
    forall i :: 0 <= i < |ws| ==> PlainWord(ws[i])
  }

  lemma TokensSkip(c: char, rest: string)
    requires Blank(c)
    ensures Tokens([c] + rest) == Tokens(rest)
  {
    assert ([c] + rest)[1..] == rest;
    assert SkipBlanks([c] + rest) == SkipBlanks(rest);
  }

  lemma TokensOfWord(w: string, c: char, rest: string)
    requires PlainWord(w) && Blank(c)
    ensures Tokens(w + ([c] + rest)) == [w] + Tokens(rest)
  {
    WordReads(w, [c] + rest);
    TokensSkip(c, rest);
  }

  lemma LineStep(w: string, c: char, line: string, rest: string)
    requires PlainWord(w) && Blank(c)
    ensures Tokens(w + ([c] + line) + rest) == [w] + Tokens(line + rest)
  {
    TokensOfWord(w, c, line + rest);
    assert w + ([c] + line) + rest == w + ([c] + (line + rest));
  }

  lemma TokensOfOne(w: string, rest: string)
    requires PlainWord(w)
    ensures Tokens(w + "\n" + rest) == [w] + Tokens(rest)
  {
    LineStep(w, '\n', "", rest);
    assert ['\n'] + "" == "\n" && "" + rest == rest;
  }

  lemma {:induction false} TokensOfLine(ws: seq<string>, rest: string)
    requires PlainWords(ws)
    ensures Tokens(Line(ws) + rest) == ws + Tokens(rest)
    decreases |ws|
  {
    if ws == [] {
      TokensSkip('\n', rest);
    } else if |ws| == 1 {
      TokensOfOne(ws[0], rest);
      assert ws == [ws[0]];
    } else {
      TokensOfLine(ws[1..], rest);
      LineStep(ws[0], ' ', Line(ws[1..]), rest);
      assert [ws[0]] + (ws[1..] + Tokens(rest)) == ws + Tokens(rest);
    }
  }

  lemma {:induction false} TokensOfFile(lines: seq<seq<string>>)
    requires forall i :: 0 <= i < |lines| ==> PlainWords(lines[i])
    ensures Tokens(File(lines)) == Words(lines)
    decreases |lines|
  {
    if lines != [] {
      TokensOfFile(lines[1..]);
      TokensOfLine(lines[0], File(lines[1..]));
    }
  }

  // ---------------------------------------------------------------- extraction, token by token

  /** `f >> number`: the digits of the next word; what follows them in the word stays in the stream. */
  function TakeDigits(ts: seq<string>): (r: Option<(bool, nat, seq<string>)>)
    ensures r.Some? ==> Size(r.value.2) < Size(ts)
  {
    if ts == [] then None else
    var d := Digits(ts[0]);
    if d == None then None
    else if d.value.2 == "" then Some((d.value.0, d.value.1, ts[1..]))
    else
      assert ([d.value.2] + ts[1..])[1..] == ts[1..];
      Some((d.value.0, d.value.1, [d.value.2] + ts[1..]))
  }

  /** Characters left, counting each separator. */
  function Size(ts: seq<string>): nat
  {
    if ts == [] then 0 else |ts[0]| + 1 + Size(ts[1..])
  }

  /** For an unsigned type with the given number of values; a minus sign wraps. */
  function TakeNumber(ts: seq<string>, values: nat): (r: Option<(nat, seq<string>)>)
    requires values > 0
    ensures r.Some? ==> Size(r.value.1) < Size(ts)
  {
    var d := TakeDigits(ts);
    if d == None || d.value.1 >= values then None
    else Some((if d.value.0 && d.value.1 > 0 then values - d.value.1 else d.value.1, d.value.2))
  }

  /** For an int read as a flag. */
  function TakeFlag(ts: seq<string>): (r: Option<(bool, seq<string>)>)
    ensures r.Some? ==> Size(r.value.1) < Size(ts)
  {
    var d := TakeDigits(ts);
    if d == None || d.value.1 > (if d.value.0 then 0x8000_0000 else 0x7FFF_FFFF) then None
    else Some((d.value.1 != 0, d.value.2))
  }

  function TakeWord(ts: seq<string>): (r: Option<(string, seq<string>)>)
    ensures r.Some? ==> Size(r.value.1) < Size(ts)
  {
    if ts == [] then None else Some((ts[0], ts[1..]))
  }

  lemma NumberReads(v: nat, rest: seq<string>, values: nat)
    requires v < values
    ensures TakeNumber([Decimal(v)] + rest, values) == Some((v, rest))
  {
    DigitsAll(v);
    assert ([Decimal(v)] + rest)[1..] == rest;
  }

  lemma FlagReads(b: bool, rest: seq<string>)
    ensures TakeFlag([Decimal(Flag(b))] + rest) == Some((b, rest))
  {
    DigitsAll(Flag(b));
    assert ([Decimal(Flag(b))] + rest)[1..] == rest;
  }

  function Flag(b: bool): nat
  {
    if b then 1 else 0
  }

  // ---------------------------------------------------------------- outpoints

  function NotColon(c: char): bool
  {
    c != ':'
  }

  /** hex_op: text of an outpoint. */
  function PointText(o: OutPoint): string
  {
    Hex(o.txid) + (":" + Decimal(o.index))
  }

  /** parse_op: hex up to the first colon, then a number whose low 32 bits count. */
  function ParsePoint(s: string): Option<OutPoint>
  {
    var n := Span(s, NotColon);
    if n == |s| then None else
    var txid, index := UnhexExact(s[..n], 32), PointIndex(s[n + 1..]);
    if txid == None || index == None then None else Some(OutPoint(txid.value, index.value))
  }

  /** stoul: blanks, an optional sign, digits, and anything after. */
  function PointIndex(s: string): Option<nat>
  {
    IndexOf(Digits(SkipBlanks(s)))
  }

  function IndexOf(d: Option<(bool, nat, string)>): Option<nat>
  {
    if d == None || d.value.1 >= W64 then None
    else Some((if d.value.0 then W64 - d.value.1 else d.value.1) % W32)
  }

  lemma NoBlanks(v: nat)
    ensures SkipBlanks(Decimal(v)) == Decimal(v)
  {
    DecimalReads(v);
    assert Decimal(v)[0] in Decimal(v);
  }

  lemma IndexReads(v: nat)
    requires v < W32
    ensures PointIndex(Decimal(v)) == Some(v)
  {
    NoBlanks(v);
    DigitsAll(v);
    SmallIndex(v);
  }

  lemma SmallIndex(v: nat)
    requires v < W32
    ensures IndexOf(Some((false, v, ""))) == Some(v)
  {
  }

  lemma PointWord(o: OutPoint)
    requires |o.txid| == 32
    ensures PlainWord(PointText(o))
  {
    HexReadsBack(o.txid);
    DecimalReads(o.index);
  }

  lemma PointSplit(h: string, d: string)
    requires forall c :: c in h ==> NotColon(c)
    ensures
      var s := h + (":" + d);
      Span(s, NotColon) == |h| && s[..|h|] == h && s[|h| + 1..] == d
  {
    SpanExact(h, ":" + d, NotColon);
  }

  lemma PointReads(o: OutPoint)
    requires |o.txid| == 32 && o.index < W32
    ensures ParsePoint(PointText(o)) == Some(o)
  {
    HexReadsBack(o.txid);
    IndexReads(o.index);
    PointSplit(Hex(o.txid), Decimal(o.index));
  }

  // ---------------------------------------------------------------- confidential coins

  function SecretWords(c: ConfCoin): seq<string>
  {
    [Hex(c.spendSecret), Hex(c.blind), Hex(c.commitment), Hex(c.oneTime)]
  }

  function StateWords(c: ConfCoin): seq<string>
  {
    [Decimal(c.key), Decimal(Flag(c.originFinal)), Decimal(Flag(c.spent)), Hex(c.spendTxid)]
  }

  function ConfWords(c: ConfCoin): seq<string>
  {
    ["conf"] + ConfFields(c)
  }

  function ConfFields(c: ConfCoin): seq<string>
  {
    [PointText(c.op), Decimal(c.amount)] + SecretWords(c) + StateWords(c)
  }

  datatype Secrets = Secrets(spendSecret: seq<byte>, blind: seq<byte>, commitment: seq<byte>, oneTime: seq<byte>)
  datatype State = State(key: nat, originFinal: bool, spent: bool, spendTxid: seq<byte>)

  function TakeSecrets(ts: seq<string>): (r: Option<(Secrets, seq<string>)>)
    ensures r.Some? ==> Size(r.value.1) < Size(ts)
  {
    if |ts| < 4 then None else
    var ss, bl, cm, ot := UnhexExact(ts[0], 32), UnhexExact(ts[1], 32), UnhexExact(ts[2], 33), UnhexExact(ts[3], 33);
    SizeDrop(ts, 4);
    if ss == None || bl == None || cm == None || ot == None then None
    else Some((Secrets(ss.value, bl.value, cm.value, ot.value), ts[4..]))
  }

  lemma {:induction false} SizeDrop(ts: seq<string>, n: nat)
    requires n <= |ts|
    ensures Size(ts[n..]) <= Size(ts) && (n > 0 ==> Size(ts[n..]) < Size(ts))
    decreases n
  {
    if n > 0 {
      SizeDrop(ts[1..], n - 1);
      assert ts[1..][n - 1..] == ts[n..];
    } else {
      assert ts[0..] == ts;
    }
  }

  function TakeState(ts: seq<string>): (r: Option<(State, seq<string>)>)
    ensures r.Some? ==> Size(r.value.1) < Size(ts)
  {
    var key := TakeNumber(ts, W32);
    if key == None then None else
    var origin := TakeFlag(key.value.1);
    if origin == None then None else
    var spent := TakeFlag(origin.value.1);
    if spent == None then None else
    var sp := TakeWord(spent.value.1);
    if sp == None then None else
    var txid := UnhexExact(sp.value.0, 32);
    if txid == None || key.value.0 >= WALLET_KEYS then None
    else Some((State(key.value.0, origin.value.0, spent.value.0, txid.value), sp.value.1))
  }

  /** The rest of a conf line; any field that does not read makes it a bad line. */
  function TakeConf(ts: seq<string>): (r: Option<(ConfCoin, seq<string>)>)
    ensures r.Some? ==> Size(r.value.1) < Size(ts)
  {
    var op := TakeWord(ts);
    if op == None then None else
    var amount := TakeNumber(op.value.1, W64);
    if amount == None then None else
    var secrets := TakeSecrets(amount.value.1);
    if secrets == None then None else
    var state := TakeState(secrets.value.1);
    var point := ParsePoint(op.value.0);
    if state == None || point == None then None else
    var (x, y) := (secrets.value.0, state.value.0);
    Some((ConfCoin(point.value, amount.value.0, x.spendSecret, x.blind, x.commitment, x.oneTime,
                   y.key, y.originFinal, y.spent, y.spendTxid), state.value.1))
  }

  lemma HexReads(b: seq<byte>)
    ensures UnhexExact(Hex(b), |b|) == Some(b)
  {
    HexReadsBack(b);
  }

  lemma SecretsRead(c: ConfCoin, rest: seq<string>)
    requires CoinOk(c)
    ensures TakeSecrets(SecretWords(c) + rest) == Some((Secrets(c.spendSecret, c.blind, c.commitment, c.oneTime), rest))
  {
    HexReads(c.spendSecret);
    HexReads(c.blind);
    HexReads(c.commitment);
    HexReads(c.oneTime);
    assert (SecretWords(c) + rest)[4..] == rest;
  }

  lemma StateReads(c: ConfCoin, rest: seq<string>)
    requires CoinOk(c)
    ensures TakeState(StateWords(c) + rest) == Some((State(c.key, c.originFinal, c.spent, c.spendTxid), rest))
  {
    var r3 := [Hex(c.spendTxid)] + rest;
    var r2 := [Decimal(Flag(c.spent))] + r3;
    var r1 := [Decimal(Flag(c.originFinal))] + r2;
    assert StateWords(c) + rest == [Decimal(c.key)] + r1;
    NumberReads(c.key, r1, W32);
    FlagReads(c.originFinal, r2);
    FlagReads(c.spent, r3);
    HexReads(c.spendTxid);
    StateInParts(StateWords(c) + rest, r1, r2, r3, rest, State(c.key, c.originFinal, c.spent, c.spendTxid),
      Hex(c.spendTxid));
  }

  lemma StateInParts(ts: seq<string>, r1: seq<string>, r2: seq<string>, r3: seq<string>, rest: seq<string>, st: State,
                     word: string)
    requires TakeNumber(ts, W32) == Some((st.key, r1)) && st.key < WALLET_KEYS
    requires TakeFlag(r1) == Some((st.originFinal, r2)) && TakeFlag(r2) == Some((st.spent, r3))
    requires r3 == [word] + rest && UnhexExact(word, 32) == Some(st.spendTxid)
    ensures TakeState(ts) == Some((st, rest))
  {
    assert r3[1..] == rest;
  }

  lemma ConfReads(ts: seq<string>, c: ConfCoin, rest: seq<string>)
    requires CoinOk(c) && ts == ConfFields(c) + rest
    ensures TakeConf(ts) == Some((c, rest))
  {
    var r2 := StateWords(c) + rest;
    var r1 := SecretWords(c) + r2;
    assert ts == [PointText(c.op)] + ([Decimal(c.amount)] + r1);
    assert ts[1..] == [Decimal(c.amount)] + r1;
    PointReads(c.op);
    NumberReads(c.amount, r1, W64);
    SecretsRead(c, r2);
    StateReads(c, rest);
  }

  // ---------------------------------------------------------------- the whole file

  datatype Parsed = Bad(error: string) | Good(wallet: Wallet)

  datatype Kind = SeedLine | ReqLine | ConfLine | OtherLine

  function KindOf(w: string): Kind
  {
    if w == "seed" then SeedLine else if w == "req" then ReqLine else if w == "conf" then ConfLine else OtherLine
  }

  /** The line loop of Wallet::parse on what is left of the stream. */
  function ParseFrom(ts: seq<string>, seed: Option<seq<byte>>, req: map<nat, nat>, conf: seq<ConfCoin>): Parsed
    decreases Size(ts)
  {
    if ts == [] then
      if seed == None then Bad("wallet has no seed") else Good(Wallet(seed.value, req, conf))
    else match KindOf(ts[0])
      case SeedLine =>
        if |ts| == 1 then Bad("wallet has no seed")
        else
          SizeDrop(ts, 2);
          ParseFrom(ts[2..], UnhexExact(ts[1], 32), req, conf)
      case ReqLine =>
        var entry := TakeReq(ts[1..]);
        if entry == None then Bad("bad req line")
          else ParseFrom(entry.value.2, seed, req[entry.value.0 := entry.value.1], conf)
      case ConfLine =>
        var c := TakeConf(ts[1..]);
        if c == None then Bad("bad conf line") else ParseFrom(c.value.1, seed, req, conf + [c.value.0])
      case OtherLine => Bad("unknown wallet line: " + ts[0])
  }

  /** A request counter: a key the wallet has, and a 32-bit count. */
  function TakeReq(ts: seq<string>): (r: Option<(nat, nat, seq<string>)>)
    ensures r.Some? ==> Size(r.value.2) < Size(ts)
  {
    var k := TakeNumber(ts, W32);
    if k == None then None else
    var v := TakeNumber(k.value.1, W32);
    if v == None || k.value.0 >= WALLET_KEYS then None else Some((k.value.0, v.value.0, v.value.1))
  }

  function ParseText(text: string): Parsed
  {
    var ts := Tokens(text);
    if |ts| < 2 || ts[0] != "finalis-nodetest-wallet" || ts[1] != "1" then Bad("not a finalis-nodetest wallet file")
    else ParseFrom(ts[2..], None, map[], [])
  }

  /** Wallet::parse */
  method ParseWallet(text: string) returns (r: Parsed)
    ensures r == ParseText(text)
  {
    var ts := Tokens(text);
    if |ts| < 2 || ts[0] != "finalis-nodetest-wallet" || ts[1] != "1" {
      return Bad("not a finalis-nodetest wallet file");
    }
    var left := ts[2..];
    var seed: Option<seq<byte>>, req: map<nat, nat>, conf: seq<ConfCoin> := None, map[], [];
    while left != []
      invariant ParseFrom(left, seed, req, conf) == ParseText(text)
      decreases Size(left)
    {
      match KindOf(left[0])
      case SeedLine =>
        if |left| == 1 {
          return Bad("wallet has no seed");
        }
        SizeDrop(left, 2);
        seed, left := UnhexExact(left[1], 32), left[2..];
      case ReqLine =>
        var entry := TakeReq(left[1..]);
        if entry == None {
          return Bad("bad req line");
        }
        req, left := req[entry.value.0 := entry.value.1], entry.value.2;
      case ConfLine =>
        var c := TakeConf(left[1..]);
        if c == None {
          return Bad("bad conf line");
        }
        conf, left := conf + [c.value.0], c.value.1;
      case OtherLine =>
        return Bad("unknown wallet line: " + left[0]);
    }
    r := if seed == None then Bad("wallet has no seed") else Good(Wallet(seed.value, req, conf));
  }

  function ReqLines(m: map<nat, nat>, ks: seq<nat>): seq<seq<string>>
    requires forall k :: k in ks ==> k in m
  {
    if ks == [] then [] else [["req", Decimal(ks[0]), Decimal(m[ks[0]])]] + ReqLines(m, ks[1..])
  }

  /** One line per element. */
  function EachLine<T>(xs: seq<T>, words: T -> seq<string>): seq<seq<string>>
  {
    if xs == [] then [] else [words(xs[0])] + EachLine(xs[1..], words)
  }

  function ConfLines(cs: seq<ConfCoin>): seq<seq<string>>
  {
    EachLine(cs, ConfWords)
  }

  ghost function Lines(w: Wallet): seq<seq<string>>
  {
    [["finalis-nodetest-wallet", "1"], ["seed", Hex(w.seed)]]
    + (ReqLines(w.nextRequest, Sorting.Ascending(w.nextRequest.Keys)) + ConfLines(w.conf))
  }

  lemma {:induction false} FileGrow(lines: seq<seq<string>>, ws: seq<string>)
    ensures File(lines + [ws]) == File(lines) + Line(ws)
    decreases |lines|
  {
    if lines == [] {
      assert lines + [ws] == [ws] && [ws][1..] == [];
      assert File([ws]) == Line(ws) + "";
    } else {
      FileGrow(lines[1..], ws);
      assert (lines + [ws])[1..] == lines[1..] + [ws];
      Joined(Line(lines[0]), File(lines[1..]), Line(ws));
    }
  }

  lemma Joined(a: string, b: string, c: string)
    ensures a + (b + c) == a + b + c
  {
  }

  /** The words before the last with a blank after each. */
  function Spaced(ws: seq<string>): string
  {
    if ws == [] then "" else ws[0] + " " + Spaced(ws[1..])
  }

  lemma {:induction false} SpacedGrow(ws: seq<string>, w: string)
    ensures Spaced(ws + [w]) == Spaced(ws) + w + " "
    decreases |ws|
  {
    if ws == [] {
      assert [w][1..] == [];
    } else {
      SpacedGrow(ws[1..], w);
      assert (ws + [w])[1..] == ws[1..] + [w];
    }
  }

  lemma {:induction false} LineEnds(ws: seq<string>, w: string)
    ensures Line(ws + [w]) == Spaced(ws) + w + "\n"
    decreases |ws|
  {
    if ws != [] {
      LineEnds(ws[1..], w);
      assert (ws + [w])[1..] == ws[1..] + [w];
    }
  }

  /** One line to the stream: the words, blanks between them, and the end of the line. */
  method WriteLine(ws: seq<string>) returns (line: string)
    requires ws != []
    ensures line == Line(ws)
  {
    var n := |ws| - 1;
    line := "";
    for i := 0 to n
      invariant line == Spaced(ws[..i])
    {
      SpacedGrow(ws[..i], ws[i]);
      assert ws[..i + 1] == ws[..i] + [ws[i]];
      line := line + ws[i] + " ";
    }
    LineEnds(ws[..n], ws[n]);
    assert ws == ws[..n] + [ws[n]];
    line := line + ws[n] + "\n";
  }

  lemma {:induction false} ReqLinesGrow(m: map<nat, nat>, ks: seq<nat>, k: nat)
    requires k in m && forall j :: j in ks ==> j in m
    ensures ReqLines(m, ks + [k]) == ReqLines(m, ks) + [["req", Decimal(k), Decimal(m[k])]]
    decreases |ks|
  {
    if ks == [] {
      assert [k][1..] == [];
    } else {
      ReqLinesGrow(m, ks[1..], k);
      assert (ks + [k])[1..] == ks[1..] + [k];
    }
  }

  lemma {:induction false} EachLineGrow<T>(xs: seq<T>, x: T, words: T -> seq<string>)
    ensures EachLine(xs + [x], words) == EachLine(xs, words) + [words(x)]
    decreases |xs|
  {
    if xs == [] {
      assert [x][1..] == [];
    } else {
      EachLineGrow(xs[1..], x, words);
      assert (xs + [x])[1..] == xs[1..] + [x];
    }
  }

  /** The counters in key order, one line each. */
  method WriteCounters(m: map<nat, nat>, ks: seq<nat>, text: string, ghost lines: seq<seq<string>>)
    returns (more: string)
    requires (forall k :: k in ks ==> k in m) && text == File(lines)
    ensures more == File(lines + ReqLines(m, ks))
  {
    more := text;
    ghost var written := lines;
    for i := 0 to |ks|
      invariant written == lines + ReqLines(m, ks[..i]) && more == File(written)
    {
      var k := ks[i];
      ReqLinesGrow(m, ks[..i], k);
      assert ks[..i + 1] == ks[..i] + [k];
      FileGrow(written, ["req", Decimal(k), Decimal(m[k])]);
      var line := WriteLine(["req", Decimal(k), Decimal(m[k])]);
      more, written := more + line, written + [["req", Decimal(k), Decimal(m[k])]];
    }
    assert ks[..|ks|] == ks;
  }

  /** One line per element. */
  method WriteEach<T>(xs: seq<T>, words: T -> seq<string>, text: string, ghost lines: seq<seq<string>>)
    returns (more: string)
    requires text == File(lines) && forall i :: 0 <= i < |xs| ==> words(xs[i]) != []
    ensures more == File(lines + EachLine(xs, words))
  {
    more := text;
    ghost var written := lines;
    for i := 0 to |xs|
      invariant written == lines + EachLine(xs[..i], words) && more == File(written)
    {
      EachLineGrow(xs[..i], xs[i], words);
      assert xs[..i + 1] == xs[..i] + [xs[i]];
      FileGrow(written, words(xs[i]));
      var line := WriteLine(words(xs[i]));
      more, written := more + line, written + [words(xs[i])];
    }
    assert xs[..|xs|] == xs;
  }

  lemma FileOfTwo(a: seq<string>, b: seq<string>)
    ensures File([a, b]) == Line(a) + Line(b)
  {
    FileGrow([a], b);
    FileGrow([], a);
    assert [a] + [b] == [a, b] && [] + [a] == [a];
  }

  method WriteHead(seed: string) returns (text: string)
    ensures text == File([["finalis-nodetest-wallet", "1"], ["seed", seed]])
  {
    var first := WriteLine(["finalis-nodetest-wallet", "1"]);
    var second := WriteLine(["seed", seed]);
    FileOfTwo(["finalis-nodetest-wallet", "1"], ["seed", seed]);
    text := first + second;
  }

  lemma HasWords(c: ConfCoin)
    ensures ConfWords(c) != []
  {
  }

  /** The confidential coins, one line each. */
  method WriteCoins(cs: seq<ConfCoin>, text: string, ghost lines: seq<seq<string>>) returns (more: string)
    requires text == File(lines)
    ensures more == File(lines + ConfLines(cs))
  {
    forall i | 0 <= i < |cs|
      ensures ConfWords(cs[i]) != []
    {
      HasWords(cs[i]);
    }
    more := WriteEach(cs, ConfWords, text, lines);
  }

  lemma Regroup(a: seq<seq<string>>, b: seq<seq<string>>, c: seq<seq<string>>)
    ensures a + b + c == a + (b + c)
  {
  }

  method WriteBody(w: Wallet, text: string, ghost head: seq<seq<string>>) returns (more: string)
    requires text == File(head)
    ensures more == File(head + (ReqLines(w.nextRequest, Sorting.Ascending(w.nextRequest.Keys)) + ConfLines(w.conf)))
  {
    var ks := Sorting.SortKeys(w.nextRequest.Keys);
    ghost var req := ReqLines(w.nextRequest, ks);
    more := WriteCounters(w.nextRequest, ks, text, head);
    Regroup(head, req, ConfLines(w.conf));
    more := WriteCoins(w.conf, more, head + req);
  }

  /** Wallet::serialize: the request counters in key order, then the coins. */
  method WriteWallet(w: Wallet) returns (text: string)
    ensures text == File(Lines(w))
  {
    text := WriteHead(Hex(w.seed));
    text := WriteBody(w, text, [["finalis-nodetest-wallet", "1"], ["seed", Hex(w.seed)]]);
  }

  /** What is written parses back. */
  method SerializeWallet(w: Wallet) returns (text: string)
    ensures text == File(Lines(w))
    ensures WalletOk(w) ==> ParseText(text) == Good(w)
  {
    text := WriteWallet(w);
    if WalletOk(w) {
      FileReadsBack(w);
    }
  }

  lemma {:induction false} WordsJoin(a: seq<seq<string>>, b: seq<seq<string>>)
    ensures Words(a + b) == Words(a) + Words(b)
    decreases |a|
  {
    if a == [] {
      assert a + b == b;
    } else {
      WordsJoin(a[1..], b);
      assert (a + b)[1..] == a[1..] + b;
    }
  }

  function Taken(req: map<nat, nat>, m: map<nat, nat>, ks: seq<nat>): map<nat, nat>
    requires forall k :: k in ks ==> k in m
    decreases |ks|
  {
    if ks == [] then req else Taken(req[ks[0] := m[ks[0]]], m, ks[1..])
  }

  lemma ReqReads(k: nat, v: nat, rest: seq<string>, seed: Option<seq<byte>>, req: map<nat, nat>, conf: seq<ConfCoin>)
    requires k < WALLET_KEYS && v < W32
    ensures ParseFrom(["req", Decimal(k), Decimal(v)] + rest, seed, req, conf)
            == ParseFrom(rest, seed, req[k := v], conf)
  {
    var ts := ["req", Decimal(k), Decimal(v)] + rest;
    assert ts[1..] == [Decimal(k)] + ([Decimal(v)] + rest);
    NumberReads(k, [Decimal(v)] + rest, W32);
    NumberReads(v, rest, W32);
    assert KindOf(ts[0]) == ReqLine;
  }

  lemma {:induction false} ReqLinesRead(m: map<nat, nat>, ks: seq<nat>, rest: seq<string>, seed: Option<seq<byte>>,
                                        req: map<nat, nat>, conf: seq<ConfCoin>)
    requires forall k :: k in ks ==> k in m && k < WALLET_KEYS && m[k] < W32
    ensures ParseFrom(Words(ReqLines(m, ks)) + rest, seed, req, conf) == ParseFrom(rest, seed, Taken(req, m, ks), conf)
    decreases |ks|
  {
    if ks == [] {
      assert Words(ReqLines(m, ks)) + rest == rest;
    } else {
      var line, tail := ["req", Decimal(ks[0]), Decimal(m[ks[0]])], Words(ReqLines(m, ks[1..])) + rest;
      assert Words(ReqLines(m, ks)) + rest == line + tail;
      ReqReads(ks[0], m[ks[0]], tail, seed, req, conf);
      ReqLinesRead(m, ks[1..], rest, seed, req[ks[0] := m[ks[0]]], conf);
    }
  }

  lemma {:induction false} TakenAll(req: map<nat, nat>, m: map<nat, nat>, ks: seq<nat>)
    requires forall k :: k in ks ==> k in m
    ensures forall k :: k in Taken(req, m, ks) <==> k in req || k in ks
    ensures forall k :: k in Taken(req, m, ks) ==> Taken(req, m, ks)[k] == if k in ks then m[k] else req[k]
    decreases |ks|
  {
    if ks != [] {
      TakenAll(req[ks[0] := m[ks[0]]], m, ks[1..]);
    }
  }

  lemma ParsesConf(ts: seq<string>, tail: seq<string>, c: ConfCoin, rest: seq<string>, seed: Option<seq<byte>>,
                   req: map<nat, nat>, conf: seq<ConfCoin>)
    requires ts == ["conf"] + tail && TakeConf(tail) == Some((c, rest))
    ensures ParseFrom(ts, seed, req, conf) == ParseFrom(rest, seed, req, conf + [c])
  {
    ConfStart(ts, tail);
    ConfLineStep(ts, c, rest, seed, req, conf);
  }

  lemma ConfStart(ts: seq<string>, tail: seq<string>)
    requires ts == ["conf"] + tail
    ensures ts != [] && ts[1..] == tail && KindOf(ts[0]) == ConfLine
  {
  }

  lemma ConfLineStep(ts: seq<string>, c: ConfCoin, rest: seq<string>, seed: Option<seq<byte>>, req: map<nat, nat>,
                     conf: seq<ConfCoin>)
    requires ts != [] && KindOf(ts[0]) == ConfLine && TakeConf(ts[1..]) == Some((c, rest))
    ensures ParseFrom(ts, seed, req, conf) == ParseFrom(rest, seed, req, conf + [c])
  {
  }

  /** A reader that takes one line at a time takes them all. */
  lemma {:induction false} LineByLine<T(!new)>(read: (seq<string>, seq<T>) -> Parsed, words: T -> seq<string>,
                                               ok: T -> bool,
                                               xs: seq<T>, done: seq<T>)
    requires forall x: T, rest: seq<string>, before: seq<T> ::
      ok(x) ==> read(words(x) + rest, before) == read(rest, before + [x])
    requires forall x :: x in xs ==> ok(x)
    ensures read(Words(EachLine(xs, words)), done) == read([], done + xs)
    decreases |xs|
  {
    if xs == [] {
      assert done + xs == done;
    } else {
      assert Words(EachLine(xs, words)) == words(xs[0]) + Words(EachLine(xs[1..], words));
      LineByLine(read, words, ok, xs[1..], done + [xs[0]]);
      assert done + [xs[0]] + xs[1..] == done + xs;
    }
  }

  lemma ConfLinesRead(cs: seq<ConfCoin>, seed: seq<byte>, req: map<nat, nat>)
    requires forall c :: c in cs ==> CoinOk(c)
    ensures ParseFrom(Words(ConfLines(cs)), Some(seed), req, []) == Good(Wallet(seed, req, cs))
  {
    var read := (ts: seq<string>, done: seq<ConfCoin>) => ParseFrom(ts, Some(seed), req, done);
    forall c: ConfCoin, rest: seq<string>, done: seq<ConfCoin> | CoinOk(c)
      ensures read(ConfWords(c) + rest, done) == read(rest, done + [c])
    {
      assert ConfWords(c) + rest == ["conf"] + (ConfFields(c) + rest);
      ConfLineThen(c, rest, Some(seed), req, done);
    }
    LineByLine(read, ConfWords, CoinOk, cs, []);
    assert [] + cs == cs;
  }

  lemma ConfLineThen(c: ConfCoin, rest: seq<string>, seed: Option<seq<byte>>, req: map<nat, nat>, conf: seq<ConfCoin>)
    requires CoinOk(c)
    ensures ParseFrom(["conf"] + (ConfFields(c) + rest), seed, req, conf) == ParseFrom(rest, seed, req, conf + [c])
  {
    var tail := ConfFields(c) + rest;
    ConfReads(tail, c, rest);
    ParsesConf(["conf"] + tail, tail, c, rest, seed, req, conf);
  }

  // ---------------------------------------------------------------- every written word is plain

  lemma ConfPlain(c: ConfCoin)
    requires CoinOk(c)
    ensures PlainWords(ConfWords(c))
  {
    PointWord(c.op);
    DecimalIsWord(c.amount);
    HexIsWord(c.spendSecret);
    HexIsWord(c.blind);
    HexIsWord(c.commitment);
    HexIsWord(c.oneTime);
    DecimalIsWord(c.key);
    DecimalIsWord(Flag(c.originFinal));
    DecimalIsWord(Flag(c.spent));
    HexIsWord(c.spendTxid);
  }

  ghost predicate AllPlain(lines: seq<seq<string>>)
  {
    forall i :: 0 <= i < |lines| ==> PlainWords(lines[i])
  }

  lemma {:induction false} EachLinePlain<T(!new)>(xs: seq<T>, words: T -> seq<string>)
    requires forall x :: x in xs ==> PlainWords(words(x))
    ensures AllPlain(EachLine(xs, words))
    decreases |xs|
  {
    if xs != [] {
      EachLinePlain(xs[1..], words);
    }
  }

  lemma ConfLinesPlain(cs: seq<ConfCoin>)
    requires forall c :: c in cs ==> CoinOk(c)
    ensures AllPlain(ConfLines(cs))
  {
    forall c | c in cs
      ensures PlainWords(ConfWords(c))
    {
      ConfPlain(c);
    }
    EachLinePlain(cs, ConfWords);
  }

  lemma {:induction false} ReqLinesPlain(m: map<nat, nat>, ks: seq<nat>)
    requires forall k :: k in ks ==> k in m
    ensures AllPlain(ReqLines(m, ks))
    decreases |ks|
  {
    if ks != [] {
      DecimalIsWord(ks[0]);
      DecimalIsWord(m[ks[0]]);
      ReqLinesPlain(m, ks[1..]);
    }
  }

  lemma AllPlainJoin(a: seq<seq<string>>, b: seq<seq<string>>)
    requires AllPlain(a) && AllPlain(b)
    ensures AllPlain(a + b)
  {
  }

  lemma HeadPlain(w: Wallet)
    requires WalletOk(w)
    ensures AllPlain([["finalis-nodetest-wallet", "1"], ["seed", Hex(w.seed)]])
  {
    HexIsWord(w.seed);
  }

  lemma LinesPlain(w: Wallet)
    requires WalletOk(w)
    ensures AllPlain(Lines(w))
  {
    var req := ReqLines(w.nextRequest, Sorting.Ascending(w.nextRequest.Keys));
    HeadPlain(w);
    ReqLinesPlain(w.nextRequest, Sorting.Ascending(w.nextRequest.Keys));
    ConfLinesPlain(w.conf);
    AllPlainJoin(req, ConfLines(w.conf));
    AllPlainJoin([["finalis-nodetest-wallet", "1"], ["seed", Hex(w.seed)]], req + ConfLines(w.conf));
  }

  lemma HeadReads(w: Wallet, rest: seq<string>)
    requires WalletOk(w)
    ensures ParseFrom(["seed", Hex(w.seed)] + rest, None, map[], []) == ParseFrom(rest, Some(w.seed), map[], [])
  {
    HexReads(w.seed);
    assert (["seed", Hex(w.seed)] + rest)[2..] == rest;
  }

  lemma BodyReads(w: Wallet)
    requires WalletOk(w)
    ensures
      var ks := Sorting.Ascending(w.nextRequest.Keys);
      ParseFrom(Words(ReqLines(w.nextRequest, ks)) + Words(ConfLines(w.conf)), Some(w.seed), map[], []) == Good(w)
  {
    var ks := Sorting.Ascending(w.nextRequest.Keys);
    ReqLinesRead(w.nextRequest, ks, Words(ConfLines(w.conf)), Some(w.seed), map[], []);
    AllTaken(w.nextRequest);
    ConfLinesRead(w.conf, w.seed, w.nextRequest);
  }

  lemma AllTaken(m: map<nat, nat>)
    ensures Taken(map[], m, Sorting.Ascending(m.Keys)) == m
  {
    TakenAll(map[], m, Sorting.Ascending(m.Keys));
  }

  /** The file parses back to the wallet it was written from. */
  lemma FileReadsBack(w: Wallet)
    requires WalletOk(w)
    ensures ParseText(File(Lines(w))) == Good(w)
  {
    var ks := Sorting.Ascending(w.nextRequest.Keys);
    var head, body := [["finalis-nodetest-wallet", "1"], ["seed", Hex(w.seed)]],
      ReqLines(w.nextRequest, ks) + ConfLines(w.conf);
    LinesPlain(w);
    TokensOfFile(Lines(w));
    WordsJoin(head, body);
    WordsJoin(ReqLines(w.nextRequest, ks), ConfLines(w.conf));
    assert Words(head) == ["finalis-nodetest-wallet", "1"] + ["seed", Hex(w.seed)];
    var rest := Words(ReqLines(w.nextRequest, ks)) + Words(ConfLines(w.conf));
    assert Tokens(File(Lines(w)))[2..] == ["seed", Hex(w.seed)] + rest;
    HeadReads(w, rest);
    BodyReads(w);
  }

  // ---------------------------------------------------------------- the text

  /** Hex text: two letters a byte, the high half first. */
  lemma {:induction false} HexMeans(b: seq<byte>, i: nat)
    requires i < |b|
    ensures |Hex(b)| == 2 * |b|
    ensures Hex(b)[2 * i] == "0123456789abcdef"[b[i] / 16] && Hex(b)[2 * i + 1] == "0123456789abcdef"[b[i] % 16]
    decreases |b|
  {
    NibbleMeans(b[0] / 16);
    NibbleMeans(b[0] % 16);
    if |b| > 1 {
      HexMeans(b[1..], if i == 0 then 0 else i - 1);
    }
  }

  lemma NibbleMeans(d: nat)
    requires d < 16
    ensures Nibble(d) == "0123456789abcdef"[d]
  {
  }

  /** A counter's line. */
  lemma ReqLineText(k: nat, v: nat)
    ensures Line(["req", Decimal(k), Decimal(v)]) == "req " + Decimal(k) + " " + Decimal(v) + "\n"
  {
    LineOf("req", [Decimal(k), Decimal(v)]);
    LineOf(Decimal(k), [Decimal(v)]);
  }

  lemma LineOf(w: string, ws: seq<string>)
    requires ws != []
    ensures Line([w] + ws) == w + (" " + Line(ws))
  {
    assert ([w] + ws)[1..] == ws;
  }

  /** A record's line: where the coin is, its amount, its secrets, its key and flags, and what spends it. */
  lemma ConfLineText(c: ConfCoin)
    ensures Line(ConfWords(c)) ==
      "conf" + (" " + (Hex(c.op.txid) + (":" + Decimal(c.op.index)) + (" " + (Decimal(c.amount) + (" "
        + (Hex(c.spendSecret) + (" " + (Hex(c.blind) + (" " + (Hex(c.commitment) + (" " + (Hex(c.oneTime) + (" "
        + (Decimal(c.key) + (" " + ((if c.originFinal then "1" else "0") + (" " + ((if c.spent then "1" else "0")
        + (" " + (Hex(c.spendTxid) + "\n"))))))))))))))))))))
  {
    var secret := SecretWords(c) + StateWords(c);
    assert ConfWords(c) == ["conf"] + ([PointText(c.op)] + ([Decimal(c.amount)] + secret));
    LineOf("conf", [PointText(c.op)] + ([Decimal(c.amount)] + secret));
    LineOf(PointText(c.op), [Decimal(c.amount)] + secret);
    LineOf(Decimal(c.amount), secret);
    SecretLine(c, StateWords(c));
    StateLine(c);
  }

  lemma SecretLine(c: ConfCoin, rest: seq<string>)
    requires rest != []
    ensures Line(SecretWords(c) + rest) ==
      Hex(c.spendSecret) + (" " + (Hex(c.blind) + (" " + (Hex(c.commitment) + (" " + (Hex(c.oneTime)
        + (" " + Line(rest))))))))
  {
    var a, b, d := [Hex(c.oneTime)] + rest, [Hex(c.commitment), Hex(c.oneTime)] + rest,
      [Hex(c.blind), Hex(c.commitment), Hex(c.oneTime)] + rest;
    assert SecretWords(c) + rest == [Hex(c.spendSecret)] + d && d == [Hex(c.blind)] + b && b == [Hex(c.commitment)] + a;
    LineOf(Hex(c.spendSecret), d);
    LineOf(Hex(c.blind), b);
    LineOf(Hex(c.commitment), a);
    LineOf(Hex(c.oneTime), rest);
  }

  lemma StateLine(c: ConfCoin)
    ensures Line(StateWords(c)) ==
      Decimal(c.key) + (" " + ((if c.originFinal then "1" else "0") + (" " + ((if c.spent then "1" else "0")
        + (" " + (Hex(c.spendTxid) + "\n"))))))
  {
    var a, b, d := Decimal(Flag(c.originFinal)), Decimal(Flag(c.spent)), Hex(c.spendTxid);
    assert Decimal(1) == "1" && Decimal(0) == "0";
    assert StateWords(c) == [Decimal(c.key)] + [a, b, d] && [a, b, d] == [a] + [b, d] && [b, d] == [b] + [d];
    LineOf(Decimal(c.key), [a, b, d]);
    LineOf(a, [b, d]);
    LineOf(b, [d]);
  }
}
