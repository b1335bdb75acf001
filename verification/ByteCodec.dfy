/**
 Little-endian integers, fixed and length-prefixed byte strings, and the writer and reader over them
 (src/codec/bytes.cpp).
 */
module ByteCodec {
  import opened Options
  import opened WideArith
  import opened Sequences
  import Uleb128

  // ---------------------------------------------------------------- formats

  function LE(v: nat, n: nat): (s: seq<byte>)
    ensures |s| == n
  {
    if n == 0 then [] else [v % 256] + LE(v / 256, n - 1)
  }

  /** The number takes at most n bytes. */
  predicate Fits(v: nat, n: nat)
  {
    if n == 0 then v == 0 else Fits(v / 256, n - 1)
  }

  function FromLE(s: seq<byte>): nat
  {
    if s == [] then 0 else s[0] + 256 * FromLE(s[1..])
  }

  function Varbytes(b: seq<byte>): seq<byte>
  {
    Uleb128.Encode(|b|) + b
  }

  function TakeLE(s: seq<byte>, n: nat): Option<(nat, seq<byte>)>
  {
    if |s| < n then None else Some((FromLE(s[..n]), s[n..]))
  }

  function TakeFixed(s: seq<byte>, n: nat): Option<(seq<byte>, seq<byte>)>
  {
    if |s| < n then None else Some((s[..n], s[n..]))
  }

  function TakeVarbytes(s: seq<byte>): Option<(seq<byte>, seq<byte>)>
  {
    var length := Uleb128.Read(s);
    if length == None then None else TakeFixed(length.value.1, length.value.0)
  }

  // ---------------------------------------------------------------- each format reads back exactly what it writes

  lemma Pow256(n: nat)
    requires n > 0
    ensures Pow2(8 * n) == 256 * Pow2(8 * (n - 1))
  {
    Pow256At(8 * (n - 1), 8 * n);
  }

  lemma {:induction false} FitsMeans(v: nat, n: nat)
    ensures Fits(v, n) <==> v < Pow2(8 * n)
  {
    if n > 0 {
      Pow256(n);
      FitsMeans(v / 256, n - 1);
    }
  }

  lemma {:induction false} LEValue(v: nat, n: nat)
    requires Fits(v, n)
    ensures FromLE(LE(v, n)) == v
  {
    if n > 0 {
      LEValue(v / 256, n - 1);
    }
  }

  lemma {:induction false} FromLEBytes(s: seq<byte>)
    ensures LE(FromLE(s), |s|) == s && Fits(FromLE(s), |s|)
    decreases |s|
  {
    if s != [] {
      FromLEBytes(s[1..]);
      assert s == [s[0]] + s[1..];
    }
  }

  lemma TakeLEExact(s: seq<byte>, n: nat, v: nat, rest: seq<byte>)
    ensures TakeLE(s, n) == Some((v, rest)) <==> Fits(v, n) && s == LE(v, n) + rest
  {
    if Fits(v, n) && s == LE(v, n) + rest {
      LEValue(v, n);
      assert s[..n] == LE(v, n) && s[n..] == rest;
    }
    if |s| >= n {
      FromLEBytes(s[..n]);
      assert s == s[..n] + s[n..];
    }
  }

  lemma TakeFixedExact(s: seq<byte>, n: nat, b: seq<byte>, rest: seq<byte>)
    ensures TakeFixed(s, n) == Some((b, rest)) <==> |b| == n && s == b + rest
  {
    if |b| == n && s == b + rest {
      assert s[..n] == b && s[n..] == rest;
    }
    if |s| >= n {
      assert s == s[..n] + s[n..];
    }
  }

  lemma TakeVarbytesExact(s: seq<byte>, b: seq<byte>, rest: seq<byte>)
    ensures TakeVarbytes(s) == Some((b, rest)) <==> |b| < W64 && s == Varbytes(b) + rest
  {
    var length := Uleb128.Read(s);
    if |b| < W64 && s == Varbytes(b) + rest {
      assert s == Uleb128.Encode(|b|) + (b + rest);
      Uleb128.ReadExact(s, |b|, b + rest);
      TakeFixedExact(b + rest, |b|, b, rest);
    }
    if TakeVarbytes(s) == Some((b, rest)) {
      Uleb128.ReadExact(s, length.value.0, length.value.1);
      TakeFixedExact(length.value.1, length.value.0, b, rest);
      assert s == Varbytes(b) + rest;
    }
  }

  // ---------------------------------------------------------------- lists of one format

  function EncodeAll<T>(xs: seq<T>, enc: T -> seq<byte>): seq<byte>
  {
    if xs == [] then [] else EncodeAll(xs[..|xs| - 1], enc) + enc(xs[|xs| - 1])
  }

  function TakeAll<T>(s: seq<byte>, n: nat, take: seq<byte> -> Option<(T, seq<byte>)>): Option<(seq<T>, seq<byte>)>
  {
    if n == 0 then Some(([], s))
    else
      var front := TakeAll(s, n - 1, take);
      if front == None then None else
      var last := take(front.value.1);
      if last == None then None else Some((front.value.0 + [last.value.0], last.value.1))
  }

  /** Every encoding of an in-range value reads back. */
  ghost predicate ReadsBack<T(!new)>(enc: T -> seq<byte>, take: seq<byte> -> Option<(T, seq<byte>)>, ok: T -> bool)
  {
    forall x, rest :: ok(x) ==> take(enc(x) + rest) == Some((x, rest))
  }

  /** Everything read is the encoding of an in-range value. */
  ghost predicate Canonical<T(!new)>(enc: T -> seq<byte>, take: seq<byte> -> Option<(T, seq<byte>)>, ok: T -> bool)
  {
    forall s :: take(s).Some? ==> ok(take(s).value.0) && s == enc(take(s).value.0) + take(s).value.1
  }

  lemma {:induction false} AllReadBack<T(!new)>(xs: seq<T>, rest: seq<byte>, enc: T -> seq<byte>,
                                                take: seq<byte> -> Option<(T, seq<byte>)>, ok: T -> bool)
    requires ReadsBack(enc, take, ok) && forall x :: x in xs ==> ok(x)
    ensures TakeAll(EncodeAll(xs, enc) + rest, |xs|, take) == Some((xs, rest))
    decreases |xs|
  {
    if xs == [] {
      assert EncodeAll(xs, enc) + rest == rest;
    } else {
      var front, last := xs[..|xs| - 1], xs[|xs| - 1];
      assert EncodeAll(xs, enc) + rest == EncodeAll(front, enc) + (enc(last) + rest);
      AllReadBack(front, enc(last) + rest, enc, take, ok);
      assert xs == front + [last];
    }
  }

  lemma {:induction false} AllCanonical<T(!new)>(s: seq<byte>, n: nat, enc: T -> seq<byte>,
                                                 take: seq<byte> -> Option<(T, seq<byte>)>, ok: T -> bool)
    requires Canonical(enc, take, ok) && TakeAll(s, n, take).Some?
    ensures var (xs, rest) := TakeAll(s, n, take).value;
      |xs| == n && (forall x :: x in xs ==> ok(x)) && s == EncodeAll(xs, enc) + rest
    decreases n
  {
    if n > 0 {
      AllCanonical(s, n - 1, enc, take, ok);
      var (front, mid) := TakeAll(s, n - 1, take).value;
      var (last, rest) := take(mid).value;
      var xs := front + [last];
      assert xs[..n - 1] == front;
      assert EncodeAll(xs, enc) + rest == EncodeAll(front, enc) + (enc(last) + rest);
    }
  }

  lemma {:induction false} TakeAllStops<T>(s: seq<byte>, i: nat, n: nat, take: seq<byte> -> Option<(T, seq<byte>)>)
    requires i <= n && TakeAll(s, i, take) == None
    ensures TakeAll(s, n, take) == None
    decreases n - i
  {
    if i < n {
      TakeAllStops(s, i, n - 1, take);
    }
  }

  /** Items of at least one byte each leave a count no larger than the bytes that hold them. */
  lemma {:induction false} ItemsTakeRoom<T>(xs: seq<T>, enc: T -> seq<byte>)
    requires forall x :: x in xs ==> enc(x) != []
    ensures |EncodeAll(xs, enc)| >= |xs|
    decreases |xs|
  {
    if xs != [] {
      ItemsTakeRoom(xs[..|xs| - 1], enc);
    }
  }

  lemma Join3<T>(d: seq<T>, x: seq<T>, y: seq<T>, z: seq<T>)
    ensures d + x + y + z == d + (x + (y + z))
  {
  }

  lemma Join4<T>(a: seq<T>, b: seq<T>, c: seq<T>, d: seq<T>, e: seq<T>)
    ensures a + (b + (c + d)) + e == a + (b + (c + (d + e)))
  {
  }

  // ---------------------------------------------------------------- shifts

  lemma NestedDivision(v: nat, p: nat)
    requires p >= 1
    ensures v / 256 / p == v / (256 * p)
  {
    var q, r := v / 256, v % 256;
    var a, b := q / p, q % p;
    assert q == p * a + b;
    assert v == 256 * p * a + (256 * b + r);
    ProductBound(b + 1, 256, p, 256);
    DivModUnique(v, 256 * p, a, 256 * b + r);
  }

  lemma {:induction false} LEAt(v: nat, n: nat, i: nat)
    requires i < n
    ensures LE(v, n)[i] == v / Pow2(8 * i) % 256
  {
    if i > 0 {
      LEAt(v / 256, n - 1, i - 1);
      Pow256(i);
      NestedDivision(v, Pow2(8 * (i - 1)));
    }
  }

  lemma {:induction false} FromLEGrow(s: seq<byte>, b: byte)
    ensures FromLE(s + [b]) == FromLE(s) + b * Pow2(8 * |s|)
    decreases |s|
  {
    if s == [] {
      assert s + [b] == [b];
    } else {
      FromLEGrow(s[1..], b);
      assert (s + [b])[1..] == s[1..] + [b];
      Pow256(|s|);
      Shuffle(b, Pow2(8 * (|s| - 1)));
    }
  }

  lemma Shuffle(c: nat, p: nat)
    ensures 256 * (c * p) == c * (256 * p)
  {
  }

  // ---------------------------------------------------------------- the writer

  class ByteWriter {
    var data: seq<byte>

    constructor ()
      ensures data == []
    {
      data := [];
    }

    method PutU8(v: byte)
      modifies this
      ensures data == old(data) + LE(v, 1)
    {
      data := data + [v];
    }

    /** The shift loops of u16le, u32le and u64le. */
    method PutLE(v: nat, n: nat)
      modifies this
      ensures data == old(data) + LE(v, n)
    {
      for i := 0 to n
        invariant data == old(data) + LE(v, n)[..i]
      {
        LEAt(v, n, i);
        assert LE(v, n)[..i + 1] == LE(v, n)[..i] + [v / Pow2(8 * i) % 256];
        data := data + [v / Pow2(8 * i) % 256];
      }
      assert LE(v, n)[..n] == LE(v, n);
    }

    method PutBytes(b: seq<byte>)
      modifies this
      ensures data == old(data) + b
    {
      data := data + b;
    }

    method PutVarint(v: u64)
      modifies this
      ensures data == old(data) + Uleb128.Encode(v as int)
    {
      var enc := Uleb128.EncodeUleb128(v);
      data := data + enc;
    }

    method PutVarbytes(b: seq<byte>)
      requires |b| < W64
      modifies this
      ensures data == old(data) + Varbytes(b)
    {
      PutVarint(|b| as u64);
      PutBytes(b);
    }
  }

  // ---------------------------------------------------------------- the reader

  /** The shift loops of u16le, u32le and u64le on the reading side. */
  method JoinLE(bytes: seq<byte>, off: nat, n: nat) returns (v: nat)
    requires off + n <= |bytes|
    ensures v == FromLE(bytes[off..off + n])
  {
    v := 0;
    for i := 0 to n
      invariant v == FromLE(bytes[off..off + i])
    {
      FromLEGrow(bytes[off..off + i], bytes[off + i]);
      assert bytes[off..off + (i + 1)] == bytes[off..off + i] + [bytes[off + i]];
      v := v + bytes[off + i] * Pow2(8 * i);
    }
  }

  class ByteReader {
    const input: seq<byte>
    var off: nat

    ghost predicate Valid()
      reads this
    {
      off <= |input|
    }

    ghost function Rest(): seq<byte>
      requires Valid()
      reads this
    {
      input[off..]
    }

    constructor (bytes: seq<byte>)
      ensures Valid() && input == bytes && Rest() == bytes
    {
      input, off := bytes, 0;
    }

    /** u8, u16le, u32le and u64le */
    method GetLE(n: nat) returns (r: Option<nat>)
      requires Valid()
      modifies this
      ensures Valid()
      ensures r == None ==> TakeLE(old(Rest()), n) == None && Rest() == old(Rest())
      ensures r.Some? ==> TakeLE(old(Rest()), n) == Some((r.value, Rest()))
    {
      if off + n > |input| {
        return None;
      }
      var v := JoinLE(input, off, n);
      assert Rest()[..n] == input[off..off + n] && Rest()[n..] == input[off + n..];
      off := off + n;
      return Some(v);
    }

    method GetBytes(n: nat) returns (r: Option<seq<byte>>)
      requires Valid()
      modifies this
      ensures Valid()
      ensures r == None ==> TakeFixed(old(Rest()), n) == None && Rest() == old(Rest())
      ensures r.Some? ==> TakeFixed(old(Rest()), n) == Some((r.value, Rest()))
    {
      if n > |input| - off {
        return None;
      }
      assert Rest()[..n] == input[off..off + n] && Rest()[n..] == input[off + n..];
      r := Some(input[off..off + n]);
      off := off + n;
    }

    /** varint puts the offset back when it fails. */
    method GetVarint() returns (r: Option<u64>)
      requires Valid()
      modifies this
      ensures Valid()
      ensures r == None ==> Uleb128.Read(old(Rest())) == None && Rest() == old(Rest())
      ensures r.Some? ==> Uleb128.Read(old(Rest())) == Some((r.value as int, Rest()))
    {
      var before := off;
      r, off := Uleb128.DecodeUleb128(input, off, true);
      if r == None {
        off := before;
      }
    }

    method GetVarbytes() returns (r: Option<seq<byte>>)
      requires Valid()
      modifies this
      ensures Valid()
      ensures r == None ==> TakeVarbytes(old(Rest())) == None
      ensures r.Some? ==> TakeVarbytes(old(Rest())) == Some((r.value, Rest()))
    {
      var n := GetVarint();
      if n == None {
        return None;
      }
      r := GetBytes(n.value as nat);
    }

    method AtEnd() returns (yes: bool)
      requires Valid()
      ensures yes <==> Rest() == []
    {
      return off == |input|;
    }

    method Remaining() returns (n: nat)
      requires Valid()
      ensures n == |Rest()|
    {
      return |input| - off;
    }
  }
}
