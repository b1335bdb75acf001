/**
 The address alphabet and bit regrouping (src/common/address.cpp). A string of n-bit groups is read as
 one big-endian number; regrouping keeps the number, shifted by the padding.
 */
module Base32 {
  import opened Options
  import opened WideArith
  import opened Sequences
  import opened Numerals

  // ---------------------------------------------------------------- shifts and a wrapping buffer

  lemma Quotient(q: nat, d: nat, r: nat)
    requires d > 0
    ensures (q * d + r) / d == q + r / d
    ensures (q * d + r) % d == r % d
  {
    var a, b := r / d, r % d;
    assert (q + a) * d == q * d + a * d;
    DivModUnique(q * d + r, d, q + a, b);
  }

  lemma MulAssoc(a: nat, b: nat, c: nat)
    ensures a * b * c == a * (b * c)
  {
  }

  lemma DivDivParts(p: nat, d: nat, a: nat, b: nat, r: nat)
    requires b < d && r < p
    ensures ((a * d + b) * p + r) / (d * p) == a
  {
    MulAdd(a * d, b, p);
    MulAssoc(a, d, p);
    ProductBound(b + 1, p, d, p);
    MulAdd(b, 1, p);
    DivModUnique((a * d + b) * p + r, d * p, a, b * p + r);
  }

  lemma DivDiv(n: nat, p: nat, d: nat)
    requires p > 0 && d > 0
    ensures n / p / d == n / (d * p)
  {
    var q, r := Euclid(n, p);
    var a, b := Euclid(q, d);
    DivDivParts(p, d, a, b, r);
  }

  lemma WrappedParts(p: nat, d: nat, aq: nat, s: nat, t: nat)
    requires t < p && d > 0
    ensures (aq * d * p + (s * p + t)) / p % d == s % d
  {
    MulAdd(aq * d, s, p);
    DivModUnique(aq * d * p + (s * p + t), p, aq * d + s, t);
    Quotient(aq, d, s);
  }

  /** A digit of a number survives the loss of the bits above it. */
  lemma WrappedDigit(n: nat, p: nat, q: nat, d: nat)
    requires p > 0 && q > 0 && d > 0
    ensures n % (q * d * p) / p % d == n / p % d
  {
    var a, r := Euclid(n, q * d * p);
    var s, t := Euclid(r, p);
    MulAssoc(a, q * d, p);
    MulAssoc(a, q, d);
    WrappedParts(p, d, a * q, s, t);
  }

  /** Taking the next digit d bits further down appends it to the quotient. */
  lemma NextDigit(n: nat, p: nat, d: nat)
    requires p > 0 && d > 0
    ensures d * (n / (d * p)) + n / p % d == n / p
  {
    DivDiv(n, p, d);
  }

  lemma MoreBits(n: nat, b: nat, d: nat, p: nat)
    requires p > 0 && b < d
    ensures (d * n + b) / (d * p) == n / p
  {
    DivModUnique(d * n + b, d, n, b);
    DivDivSwap(d * n + b, p, d);
  }

  lemma DivDivSwap(n: nat, p: nat, d: nat)
    requires p > 0 && d > 0
    ensures n / d / p == n / (d * p)
  {
    DivDiv(n, d, p);
  }

  lemma WrapShift(n: nat, b: nat, d: nat, w: nat)
    requires w > 0
    ensures (d * (n % w) + b) % w == (d * n + b) % w
  {
    var a, r := n / w, n % w;
    assert n == a * w + r;
    assert d * (a * w + r) == d * a * w + d * r;
    Quotient(d * a, w, d * r + b);
  }

  // ---------------------------------------------------------------- one step of either loop

  /** The buffer keeps the low 32 bits of all input so far; the output holds everything above `bits`. */
  ghost predicate InStep(n: nat, buffer: nat, bits: nat, ds: seq<nat>, base: nat)
  {
    buffer == n % W32 && Num(ds, base) == n / Pow2(bits) && Below(ds, base)
  }

  lemma Pow2Of32()
    ensures Pow2(32) == W32
  {
    assert Pow2(4) == 16;
    Pow2Add(4, 4);
    Pow2Add(8, 8);
    Pow2Add(16, 16);
  }

  lemma Pow2Split(a: nat, b: nat, c: nat)
    ensures Pow2(a + b + c) == Pow2(a) * Pow2(b) * Pow2(c)
  {
    Pow2Add(a + b, c);
    Pow2Add(a, b);
  }

  lemma PushGroup(n: nat, buffer: nat, bits: nat, ds: seq<nat>, base: nat, w: nat)
    requires base == Pow2(w) && w <= bits <= 32 && InStep(n, buffer, bits, ds, base)
    ensures InStep(n, buffer, bits - w, ds + [buffer / Pow2(bits - w) % base], base)
  {
    var p, q := Pow2(bits - w), Pow2(32 - bits);
    var d := buffer / p % base;
    Pow2Of32();
    Pow2Split(32 - bits, w, bits - w);
    Pow2Add(w, bits - w);
    WrappedDigit(n, p, q, base);
    NextDigit(n, p, base);
    NumGrow(ds, d, base);
  }

  lemma PullGroup(n: nat, buffer: nat, bits: nat, ds: seq<nat>, outBase: nat, base: nat, w: nat, b: nat)
    requires base == Pow2(w) && b < base && InStep(n, buffer, bits, ds, outBase)
    ensures InStep(base * n + b, (base * buffer + b) % W32, bits + w, ds, outBase)
  {
    WrapShift(n, b, base, W32);
    Pow2Add(w, bits);
    MoreBits(n, b, base, Pow2(bits));
  }

  // ---------------------------------------------------------------- the alphabet

  const ALPHABET: string := "abcdefghijklmnopqrstuvwxyz234567"

  function Letter(d: nat): char
    requires d < 32
  {
    if d < 26 then 'a' + d as char else '2' + (d - 26) as char
  }

  lemma AlphabetIs(d: nat)
    requires d < 32
    ensures ALPHABET[d] == Letter(d)
  {
  }

  /** base32_rev */
  function Rev(c: char): (d: Option<nat>)
    ensures d.Some? ==> d.value < 32 && Letter(d.value) == c
    ensures d == None ==> forall e :: 0 <= e < 32 ==> Letter(e) != c
  {
    if 'a' <= c <= 'z' then Some((c - 'a') as nat)
    else if '2' <= c <= '7' then Some((c - '2') as nat + 26)
    else None
  }

  lemma RevLetter(d: nat)
    requires d < 32
    ensures Rev(Letter(d)) == Some(d)
  {
  }

  function Text(ds: seq<nat>): (s: string)
    requires forall i :: 0 <= i < |ds| ==> ds[i] < 32
    ensures |s| == |ds|
  {
    seq(|ds|, i requires 0 <= i < |ds| => Letter(ds[i]))
  }

  // ---------------------------------------------------------------- what the two directions compute

  function TextLength(n: nat): nat
  {
    (8 * n + 4) / 5
  }

  /** A number of 8n bits, padded below with zero bits to whole letters. */
  function Padded(x: nat, n: nat): nat
  {
    x * Pow2(5 * TextLength(n) - 8 * n)
  }

  function PaddedDigits(data: seq<byte>): (ds: seq<nat>)
    ensures Below(ds, 32) && |ds| == TextLength(|data|)
  {
    var x := Padded(Num(data, 256), |data|);
    ToDigitsBelow(x, TextLength(|data|), 32);
    ToDigits(x, TextLength(|data|), 32)
  }

  function Encoded(data: seq<byte>): string
  {
    Text(PaddedDigits(data))
  }

  /** The letters' values, when all are letters. */
  function Values(s: string): (r: Option<seq<nat>>)
    ensures r.Some? ==> |r.value| == |s|
  {
    if s == [] then Some([])
    else
      var front, last := Values(s[..|s| - 1]), Rev(s[|s| - 1]);
      if front == None || last == None then None else Some(front.value + [last.value])
  }

  /** Letters and values are inverse to each other. */
  lemma {:induction false} ValuesExact(s: string, ds: seq<nat>)
    ensures Values(s) == Some(ds) <==> Below(ds, 32) && s == Text(ds)
    decreases |s|
  {
    if s != [] && ds != [] {
      var front, last := s[..|s| - 1], ds[|ds| - 1];
      ValuesExact(front, ds[..|ds| - 1]);
      if |s| == |ds| {
        assert s == front + [s[|s| - 1]] && ds == ds[..|ds| - 1] + [last];
        TextGrow(ds[..|ds| - 1], last);
      }
    }
  }

  lemma TextGrow(ds: seq<nat>, d: nat)
    ensures Below(ds + [d], 32) <==> Below(ds, 32) && d < 32
    ensures Below(ds + [d], 32) ==> Text(ds + [d]) == Text(ds) + [Letter(d)] && Rev(Letter(d)) == Some(d)
  {
    if Below(ds + [d], 32) {
      assert forall i :: 0 <= i < |ds| ==> ds[i] == (ds + [d])[i];
      RevLetter((ds + [d])[|ds|]);
    }
  }

  /** All whole bytes of the letters' bits, when the bits left over are zero. */
  function Decoded(s: string): Option<seq<byte>>
  {
    var vs := Values(s);
    if vs == None then None else
    var m, spare := Num(vs.value, 32), Pow2(5 * |s| % 8);
    if m % spare != 0 then None else
    ToDigitsBelow(m / spare, 5 * |s| / 8, 256);
    Some(ToDigits(m / spare, 5 * |s| / 8, 256))
  }

  /** The inner loop: letters out while five bits are there. */
  method Drain(buffer: nat, start: nat, text: string, ghost n: nat, ghost given: seq<nat>)
    returns (bits: nat, out: string, ghost ds: seq<nat>)
    requires start <= 12 && InStep(n, buffer, start, given, 32) && text == Text(given)
    ensures bits < 5 && 5 * |ds| + bits == 5 * |given| + start
    ensures InStep(n, buffer, bits, ds, 32) && out == Text(ds)
  {
    bits, out, ds := start, text, given;
    while bits >= 5
      invariant bits <= 12 && 5 * |ds| + bits == 5 * |given| + start
      invariant InStep(n, buffer, bits, ds, 32) && out == Text(ds)
    {
      var d := buffer / Pow2(bits - 5) % 32;
      PushGroup(n, buffer, bits, ds, 32, 5);
      AlphabetIs(d);
      out, ds, bits := out + [ALPHABET[d]], ds + [d], bits - 5;
    }
  }

  method Base32Encode(data: seq<byte>) returns (out: string)
    ensures out == Encoded(data)
  {
    out := "";
    var buffer: nat, bits: nat := 0, 0;
    ghost var n: nat, ds: seq<nat> := 0, [];
    for i := 0 to |data|
      invariant bits < 5 && 5 * |ds| + bits == 8 * i
      invariant n == Num(data[..i], 256) && InStep(n, buffer, bits, ds, 32) && out == Text(ds)
    {
      var b := data[i];
      ByteIn(n, buffer, bits, ds, b);
      assert data[..i + 1] == data[..i] + [b];
      NumGrow(data[..i], b, 256);
      n, buffer := 256 * n + b, (256 * buffer + b) % W32;
      bits, out, ds := Drain(buffer, bits + 8, out, n, ds);
    }
    assert data[..|data|] == data;
    out, ds := Pad(buffer, bits, out, n, ds);
    EncodedBy(data, ds);
  }

  lemma ByteIn(n: nat, buffer: nat, bits: nat, ds: seq<nat>, b: byte)
    requires InStep(n, buffer, bits, ds, 32)
    ensures InStep(256 * n + b, (256 * buffer + b) % W32, bits + 8, ds, 32)
  {
    Pow2Of8();
    PullGroup(n, buffer, bits, ds, 32, 256, 8, b);
  }

  /** The last letter, zero bits below. */
  method Pad(buffer: nat, bits: nat, text: string, ghost n: nat, ghost given: seq<nat>)
    returns (out: string, ghost ds: seq<nat>)
    requires bits < 5 && InStep(n, buffer, bits, given, 32) && text == Text(given)
    ensures Below(ds, 32) && out == Text(ds)
    ensures bits == 0 ==> |ds| == |given| && Num(ds, 32) == n
    ensures bits > 0 ==> |ds| == |given| + 1 && Num(ds, 32) == n * Pow2(5 - bits)
  {
    if bits == 0 {
      return text, given;
    }
    var d := buffer * Pow2(5 - bits) % 32;
    LastGroup(n, buffer, bits, given);
    AlphabetIs(d);
    return text + [ALPHABET[d]], given + [d];
  }

  lemma EncodedBy(data: seq<byte>, ds: seq<nat>)
    requires Below(ds, 32) && |ds| == TextLength(|data|) && Num(ds, 32) == Padded(Num(data, 256), |data|)
    ensures ds == PaddedDigits(data)
  {
    DigitsAre(ds, Padded(Num(data, 256), |data|), TextLength(|data|));
  }

  lemma DigitsAre(ds: seq<nat>, x: nat, length: nat)
    requires Below(ds, 32) && |ds| == length && Num(ds, 32) == x
    ensures ToDigits(x, length, 32) == ds
  {
    DigitsOf(ds, 32);
  }

  lemma Pow2Of8()
    ensures Pow2(8) == 256
  {
    assert Pow2(4) == 16;
    Pow2Add(4, 4);
  }

  /** The bits left over, shifted up to a whole letter. */
  lemma LastGroup(n: nat, buffer: nat, bits: nat, ds: seq<nat>)
    requires 0 < bits < 5 && InStep(n, buffer, bits, ds, 32)
    ensures
      var d := buffer * Pow2(5 - bits) % 32;
      Num(ds + [d], 32) == n * Pow2(5 - bits) && Below(ds + [d], 32)
  {
    var p, k := Pow2(bits), Pow2(5 - bits);
    var d := buffer * k % 32;
    assert p * k == 32 by {
      Pow2Add(bits, 5 - bits);
      assert Pow2(5) == 32;
    }
    ScaledDigit(n, p, k);
    NumGrow(ds, d, 32);
  }

  lemma ScaledDigit(n: nat, p: nat, k: nat)
    requires p * k == 32 && p > 0 && k > 0
    ensures n % W32 * k % 32 == n * k % 32
    ensures 32 * (n / p) + n * k % 32 == n * k
  {
    var a, r := Euclid(n, p);
    ScaledLow(a, p, r, k);
    var c, t := Euclid(n, W32);
    ScaledWrap(c, t, k);
  }

  lemma ScaledLow(a: nat, p: nat, r: nat, k: nat)
    requires p * k == 32 && r < p && k > 0
    ensures (a * p + r) * k == 32 * a + r * k && r * k < 32 && (a * p + r) * k % 32 == r * k
  {
    MulAdd(a * p, r, k);
    MulAssoc(a, p, k);
    ProductBound(r + 1, k, p, k);
    MulAdd(r, 1, k);
    DivModUnique(32 * a + r * k, 32, a, r * k);
  }

  lemma ScaledWrap(c: nat, t: nat, k: nat)
    ensures (c * W32 + t) * k % 32 == t * k % 32
  {
    MulAdd(c * W32, t, k);
    MulAssoc(c, W32, k);
    MulAssoc(0x800_0000, 32, k);
    MulAssoc(c, 0x800_0000 * k, 32);
    assert c * W32 * k == c * (0x800_0000 * k) * 32;
    Quotient(c * (0x800_0000 * k), 32, t * k);
  }

  /** One letter's five bits in, a byte out when eight are there. */
  method Absorb(v: nat, buffer: nat, bits: nat, given: seq<byte>, ghost n: nat)
    returns (buffer': nat, bits': nat, out: seq<byte>)
    requires v < 32 && bits < 8 && InStep(n, buffer, bits, given, 256)
    ensures bits' < 8 && 8 * |out| + bits' == 8 * |given| + bits + 5
    ensures InStep(32 * n + v, buffer', bits', out, 256)
  {
    assert Pow2(5) == 32;
    PullGroup(n, buffer, bits, given, 256, 32, 5, v);
    buffer', bits', out := (32 * buffer + v) % W32, bits + 5, given;
    if bits' >= 8 {
      Pow2Of8();
      PushGroup(32 * n + v, buffer', bits', out, 256, 8);
      out := out + [buffer' / Pow2(bits' - 8) % 256];
      bits' := bits' - 8;
    }
  }

  /** The letter loop after i letters with values vs. */
  ghost predicate ReadTo(s: string, i: nat, vs: seq<nat>, buffer: nat, bits: nat, out: seq<byte>)
  {
    && i <= |s| && bits < 8 && 8 * |out| + bits == 5 * i
    && Values(s[..i]) == Some(vs) && InStep(Num(vs, 32), buffer, bits, out, 256)
  }

  lemma ReadNone(s: string)
    ensures ReadTo(s, 0, [], 0, 0, [])
  {
    assert s[..0] == [];
  }

  lemma ReadAll(s: string, vs: seq<nat>, buffer: nat, bits: nat, out: seq<byte>)
    requires ReadTo(s, |s|, vs, buffer, bits, out)
    ensures Values(s) == Some(vs) && bits < 8 && 8 * |out| + bits == 5 * |s|
      && InStep(Num(vs, 32), buffer, bits, out, 256)
  {
    assert s[..|s|] == s;
  }

  /** One letter of the loop. */
  method DecodeLetter(s: string, i: nat, v: nat, buffer: nat, bits: nat, given: seq<byte>, ghost vs: seq<nat>)
    returns (buffer': nat, bits': nat, out: seq<byte>)
    requires i < |s| && Rev(s[i]) == Some(v) && ReadTo(s, i, vs, buffer, bits, given)
    ensures ReadTo(s, i + 1, vs + [v], buffer', bits', out)
  {
    ValuesGrow(s, i, vs, v);
    NumGrow(vs, v, 32);
    buffer', bits', out := Absorb(v, buffer, bits, given, Num(vs, 32));
  }

  /** The letter loop: None at the first character outside the alphabet. */
  method DecodeLetters(s: string) returns (r: Option<seq<byte>>, buffer: nat, bits: nat, ghost vs: seq<nat>)
    ensures r == None ==> Values(s) == None
    ensures r.Some? ==> Values(s) == Some(vs) && bits < 8 && 8 * |r.value| + bits == 5 * |s|
    ensures r.Some? ==> InStep(Num(vs, 32), buffer, bits, r.value, 256)
  {
    var out: seq<byte> := [];
    buffer, bits, vs := 0, 0, [];
    ReadNone(s);
    for i := 0 to |s|
      invariant ReadTo(s, i, vs, buffer, bits, out)
    {
      var v := Rev(s[i]);
      if v == None {
        BadLetter(s, i);
        return None, buffer, bits, vs;
      }
      buffer, bits, out := DecodeLetter(s, i, v.value, buffer, bits, out, vs);
      vs := vs + [v.value];
    }
    ReadAll(s, vs, buffer, bits, out);
    r := Some(out);
  }

  method Base32Decode(s: string) returns (r: Option<seq<byte>>)
    ensures r == Decoded(s)
  {
    var out, buffer, bits;
    ghost var vs;
    out, buffer, bits, vs := DecodeLetters(s);
    if out == None {
      return None;
    }
    Spare(Num(vs, 32), bits);
    DecodedBy(s, vs, bits, out.value);
    if bits > 0 && buffer % Pow2(bits) != 0 {
      return None;
    }
    return out;
  }

  lemma DecodedBy(s: string, vs: seq<nat>, bits: nat, out: seq<byte>)
    requires Values(s) == Some(vs) && bits < 8 && 8 * |out| + bits == 5 * |s|
      && Num(out, 256) == Num(vs, 32) / Pow2(bits)
    ensures Decoded(s) == if Num(vs, 32) % Pow2(bits) != 0 then None else Some(out)
  {
    BitsLeft(|s|, |out|, bits);
    DigitsOf(out, 256);
  }

  lemma BitsLeft(length: nat, n: nat, bits: nat)
    requires 8 * n + bits == 5 * length && bits < 8
    ensures 5 * length % 8 == bits && 5 * length / 8 == n
  {
  }

  lemma ValuesGrow(s: string, i: nat, vs: seq<nat>, v: nat)
    requires i < |s| && Values(s[..i]) == Some(vs) && Rev(s[i]) == Some(v)
    ensures Values(s[..i + 1]) == Some(vs + [v])
  {
    assert s[..i + 1][..i] == s[..i];
  }

  lemma {:induction false} BadLetter(s: string, i: nat)
    requires i < |s| && Rev(s[i]) == None
    ensures Values(s) == None
    decreases |s|
  {
    if i < |s| - 1 {
      BadLetter(s[..|s| - 1], i);
    }
  }

  lemma Spare(n: nat, bits: nat)
    requires bits <= 8
    ensures n % W32 % Pow2(bits) == n % Pow2(bits)
    ensures bits == 0 ==> n % Pow2(bits) == 0
  {
    Pow2Of32();
    Pow2Add(32 - bits, bits);
    WrappedMod(n, Pow2(bits), Pow2(32 - bits));
  }

  lemma WrappedMod(n: nat, p: nat, q: nat)
    requires p > 0 && q > 0
    ensures n % (q * p) % p == n % p
  {
    var a, r := n / (q * p), n % (q * p);
    assert n == a * (q * p) + r;
    assert a * (q * p) == a * q * p;
    Quotient(a * q, p, r);
  }

  // ---------------------------------------------------------------- decoding undoes encoding, and accepts little else

  /** n bytes and r more bits make 5-bit groups exactly. */
  lemma Regroups(n: nat, length: nat, r: nat)
    requires 8 * n + r == 5 * length
    ensures Power(32, length) == Pow2(r) * Power(256, n)
  {
    Pow2Of8();
    assert Pow2(5) == 32;
    PowerIsPow2(length, 5);
    PowerIsPow2(n, 8);
    Pow2Add(r, 8 * n);
  }

  /** The padding of n bytes is less than a letter. */
  lemma PadRange(n: nat)
    ensures 0 <= 5 * TextLength(n) - 8 * n < 5
  {
  }

  lemma PaddedNumber(data: seq<byte>)
    ensures Num(PaddedDigits(data), 32) == Padded(Num(data, 256), |data|)
  {
    BytesBound(data);
    PaddedReads(Num(data, 256), |data|, PaddedDigits(data));
  }

  lemma BytesBound(data: seq<byte>)
    ensures Num(data, 256) < Power(256, |data|)
  {
    NumBound(data, 256);
  }

  lemma PaddedReads(x: nat, n: nat, ds: seq<nat>)
    requires x < Power(256, n) && ds == ToDigits(Padded(x, n), TextLength(n), 32)
    ensures Num(ds, 32) == Padded(x, n)
  {
    PaddedFits(x, n);
    AsDigits(Padded(x, n), TextLength(n));
  }

  lemma AsDigits(x: nat, length: nat)
    requires x < Power(32, length)
    ensures Num(ToDigits(x, length, 32), 32) == x
  {
    NumToDigits(x, length, 32);
  }

  lemma PaddedFits(x: nat, n: nat)
    requires x < Power(256, n)
    ensures Padded(x, n) < Power(32, TextLength(n))
  {
    PadRange(n);
    PadFits(x, n, TextLength(n), 5 * TextLength(n) - 8 * n);
  }

  lemma PadFits(x: nat, n: nat, length: nat, pad: nat)
    requires x < Power(256, n) && 8 * n + pad == 5 * length
    ensures x * Pow2(pad) < Power(32, length)
  {
    Regroups(n, length, pad);
    ScaleBelow(x, Power(256, n), Pow2(pad));
  }

  lemma ScaleBelow(x: nat, y: nat, m: nat)
    requires x < y && m >= 1
    ensures x * m < m * y
  {
    ProductBound(x + 1, m, y, m);
    MulAdd(x, 1, m);
  }

  lemma ExactQuotient(q: nat, d: nat)
    requires d > 0
    ensures q * d / d == q && q * d % d == 0
  {
    DivModUnique(q * d, d, q, 0);
  }

  lemma FiveMore(x: nat, pad: nat)
    ensures 32 * (x * Pow2(pad)) == x * Pow2(pad + 5)
  {
    var p := Pow2(pad);
    Pow2Add(pad, 5);
    assert Pow2(5) == 32;
    assert 32 * (x * p) == x * (p * 32);
  }

  /** Decoding undoes encoding on every byte string. */
  lemma DecodesBack(data: seq<byte>)
    ensures Decoded(Encoded(data)) == Some(data)
  {
    var ds := PaddedDigits(data);
    var pad := 5 * |ds| - 8 * |data|;
    PadRange(|data|);
    PaddedNumber(data);
    ValuesExact(Encoded(data), ds);
    ExactQuotient(Num(data, 256), Pow2(pad));
    DecodedBy(Encoded(data), ds, pad, data);
  }

  predicate RoomForOneMore(n: nat)
  {
    5 * TextLength(n) + 5 < 8 * n + 8
  }

  lemma DecodesPlusA(data: seq<byte>)
    requires RoomForOneMore(|data|)
    ensures Decoded(Encoded(data) + "a") == Some(data)
  {
    var ds := PaddedDigits(data);
    var pad := 5 * |ds| - 8 * |data|;
    PadRange(|data|);
    PaddedNumber(data);
    AppendA(ds, Num(data, 256), pad);
    ExactQuotient(Num(data, 256), Pow2(pad + 5));
    DecodedBy(Encoded(data) + "a", ds + [0], pad + 5, data);
  }

  lemma AppendA(ds: seq<nat>, x: nat, pad: nat)
    requires Below(ds, 32) && Num(ds, 32) == x * Pow2(pad)
    ensures Values(Text(ds) + "a") == Some(ds + [0]) && Num(ds + [0], 32) == x * Pow2(pad + 5)
  {
    TextGrow(ds, 0);
    ValuesExact(Text(ds) + "a", ds + [0]);
    NumGrow(ds, 0, 32);
    FiveMore(x, pad);
  }

  lemma DecodedNumber(s: string)
    requires Decoded(s).Some?
    ensures
      var data, r := Decoded(s).value, 5 * |s| % 8;
      8 * |data| + r == 5 * |s| && Num(Values(s).value, 32) == Num(data, 256) * Pow2(r)
  {
    var vs, r, n := Values(s).value, 5 * |s| % 8, 5 * |s| / 8;
    ValuesExact(s, vs);
    NumBound(vs, 32);
    WholeNumber(Num(vs, 32), n, |s|, r);
  }

  lemma WholeNumber(m: nat, n: nat, length: nat, r: nat)
    requires m < Power(32, length) && 8 * n + r == 5 * length && m % Pow2(r) == 0
    ensures m == Num(ToDigits(m / Pow2(r), n, 256), 256) * Pow2(r)
  {
    ModZero(m, Pow2(r));
    WholeBytes(m / Pow2(r), n, length, r);
  }

  lemma ModZero(m: nat, p: nat)
    requires p > 0 && m % p == 0
    ensures m == m / p * p
  {
  }

  lemma WholeBytes(q: nat, n: nat, length: nat, r: nat)
    requires q * Pow2(r) < Power(32, length) && 8 * n + r == 5 * length
    ensures q == Num(ToDigits(q, n, 256), 256)
  {
    Regroups(n, length, r);
    Smaller(q, Power(256, n), Pow2(r));
    NumToDigits(q, n, 256);
  }

  lemma Smaller(q: nat, t: nat, p: nat)
    requires q * p < p * t
    ensures q < t
  {
    if q >= t {
      ProductBound(t, p, q, p);
    }
  }

  lemma DecodedShort(s: string)
    requires Decoded(s).Some? && 5 * |s| % 8 < 5
    ensures s == Encoded(Decoded(s).value)
  {
    var data, vs := Decoded(s).value, Values(s).value;
    DecodedNumber(s);
    ValuesExact(s, vs);
    EncodedBy(data, vs);
  }

  lemma DecodedLong(s: string)
    requires Decoded(s).Some? && 5 * |s| % 8 >= 5
    ensures s == Encoded(Decoded(s).value) + "a"
  {
    var data, vs, r := Decoded(s).value, Values(s).value, 5 * |s| % 8;
    DecodedNumber(s);
    ValuesExact(s, vs);
    DropZero(vs, Num(data, 256), r);
    var front := vs[..|vs| - 1];
    assert vs == front + [0];
    EncodedBy(data, front);
    TextGrow(front, 0);
  }

  lemma DropZero(vs: seq<nat>, x: nat, r: nat)
    requires vs != [] && Below(vs, 32) && r >= 5 && Num(vs, 32) == x * Pow2(r)
    ensures vs[|vs| - 1] == 0 && Num(vs[..|vs| - 1], 32) == x * Pow2(r - 5)
  {
    FiveMore(x, r - 5);
    LastIsZero(x * Pow2(r - 5), Num(vs[..|vs| - 1], 32), vs[|vs| - 1]);
  }

  lemma LastIsZero(x: nat, front: nat, last: nat)
    requires last < 32 && 32 * x == 32 * front + last
    ensures last == 0 && x == front
  {
  }

  /** Exactly the canonical text, or that text and one more `a` where the padding leaves room, decodes to the data. */
  lemma DecodedExact(s: string, data: seq<byte>)
    ensures Decoded(s) == Some(data) <==> s == Encoded(data) || (s == Encoded(data) + "a" && RoomForOneMore(|data|))
  {
    DecodesBack(data);
    if RoomForOneMore(|data|) {
      DecodesPlusA(data);
    }
    if Decoded(s) == Some(data) {
      DecodedNumber(s);
      if 5 * |s| % 8 < 5 {
        DecodedShort(s);
      } else {
        DecodedLong(s);
      }
    }
  }
}
