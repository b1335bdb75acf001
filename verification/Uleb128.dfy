/**
 Minimal ULEB128 (src/codec/varint.cpp). Shifts and masks are written as powers of two; `|` of bit
 ranges that do not overlap is addition.
 */
module Uleb128 {
  import opened Options
  import opened WideArith
  import opened Sequences

  // ---------------------------------------------------------------- the code

  /** Seven bits at a time from the bottom, with the top bit set on every byte but the last. */
  function Encode(v: nat): (s: seq<byte>)
    ensures s != []
  {
    if v < 128 then [v] else [v % 128 + 128] + Encode(v / 128)
  }

  /** The number spelled by the low seven bits, least significant first. */
  function Value(s: seq<byte>): nat
  {
    if s == [] then 0 else s[0] % 128 + 128 * Value(s[1..])
  }

  /** Continuation bytes, then one final byte. */
  ghost predicate Terminated(s: seq<byte>)
  {
    s != [] && s[|s| - 1] < 128 && forall i :: 0 <= i < |s| - 1 ==> s[i] >= 128
  }

  /** The number of bytes up to and including the first final one from i on, 0 when there is none. */
  function CodeLength(s: seq<byte>, i: nat): (n: nat)
    requires i <= |s|
    ensures n <= |s| && (n == 0 || n > i)
    decreases |s| - i
  {
    if i == |s| then 0 else if s[i] < 128 then i + 1 else CodeLength(s, i + 1)
  }

  /** The decoder without its minimality check: at most 64 bits, so at most ten bytes. */
  function RawLength(s: seq<byte>): (n: nat)
    ensures n <= |s|
  {
    var n := CodeLength(s, 0);
    if n > 10 || (n == 10 && s[9] > 1) then 0 else n
  }

  /** The minimal decoder: the number whose code starts the bytes, and what follows it. */
  function Read(s: seq<byte>): Option<(nat, seq<byte>)>
  {
    var n := RawLength(s);
    if n == 0 || Encode(Value(s[..n])) != s[..n] then None else Some((Value(s[..n]), s[n..]))
  }

  lemma {:induction false} EncodeTerminated(v: nat)
    ensures Terminated(Encode(v)) && Value(Encode(v)) == v
  {
    if v >= 128 {
      EncodeTerminated(v / 128);
      assert Encode(v)[1..] == Encode(v / 128);
    }
  }

  /** A number below 2^(7n + k) takes at most n bytes and one more below 2^k. */
  lemma {:induction false} EncodeLength(v: nat, n: nat, k: nat)
    requires v < Pow2(7 * n + k) && 1 <= k <= 7
    ensures |Encode(v)| <= n + 1
    ensures |Encode(v)| == n + 1 ==> Encode(v)[n] < Pow2(k)
    decreases n
  {
    if n == 0 {
      Pow2Monotone(k, 7);
      Pow128At(0, 7);
    } else if v >= 128 {
      Pow128At(7 * (n - 1) + k, 7 * n + k);
      EncodeLength(v / 128, n - 1, k);
    }
  }

  lemma {:induction false} CodeLengthExact(s: seq<byte>, i: nat, n: nat)
    requires i < n <= |s| && s[n - 1] < 128 && forall j :: i <= j < n - 1 ==> s[j] >= 128
    ensures CodeLength(s, i) == n
    decreases n - i
  {
    if i < n - 1 {
      CodeLengthExact(s, i + 1, n);
    }
  }

  lemma {:induction false} ValueBound(s: seq<byte>)
    ensures Value(s) < Pow2(7 * |s|)
    decreases |s|
  {
    if s != [] {
      ValueBound(s[1..]);
      Pow2Add(7, 7 * (|s| - 1));
      assert Pow2(7) == 128;
    }
  }

  /**
   Reading succeeds with v exactly on the bytes that begin with the code of a 64-bit v, and consumes
   exactly that code, at most ten bytes.
   */
  lemma ReadExact(s: seq<byte>, v: nat, rest: seq<byte>)
    ensures Read(s) == Some((v, rest)) <==> v < W64 && s == Encode(v) + rest
    ensures v < W64 ==> |Encode(v)| <= 10
  {
    if v < W64 {
      Pow2Of64();
      EncodeLength(v, 9, 1);
      assert Pow2(1) == 2;
    }
    if v < W64 && s == Encode(v) + rest {
      ReadCode(s, v, rest);
    }
    if Read(s) == Some((v, rest)) {
      RawFits(s);
      assert s == s[..RawLength(s)] + s[RawLength(s)..];
    }
  }

  lemma ReadCode(s: seq<byte>, v: nat, rest: seq<byte>)
    requires s == Encode(v) + rest && |Encode(v)| <= 10 && (|Encode(v)| == 10 ==> Encode(v)[9] < 2)
    ensures Read(s) == Some((v, rest))
  {
    var n := |Encode(v)|;
    EncodeTerminated(v);
    assert s[..n] == Encode(v) && s[n..] == rest;
    assert forall j :: 0 <= j < n ==> s[j] == Encode(v)[j];
    CodeLengthExact(s, 0, n);
  }

  lemma RawFits(s: seq<byte>)
    ensures Value(s[..RawLength(s)]) < W64
  {
    var n := RawLength(s);
    Pow2Of64();
    if n < 10 {
      ValueBound(s[..n]);
      Pow2Monotone(7 * n, 64);
    } else {
      var front := s[..9];
      assert s[..10] == front + [s[9]];
      ValueGrow(front, s[9]);
      ValueBound(front);
      ChunkBound(s[9] % 128, 63, Value(front));
    }
  }

  /** Two terminated strings at the start of the same bytes are the same: the code is prefix-free. */
  lemma {:induction false} PrefixFree(a: seq<byte>, x: seq<byte>, b: seq<byte>, y: seq<byte>)
    requires Terminated(a) && Terminated(b) && a + x == b + y
    ensures a == b && x == y
  {
    var s := a + x;
    assert forall j :: 0 <= j < |a| ==> s[j] == a[j];
    assert forall j :: 0 <= j < |b| ==> s[j] == b[j];
    CodeLengthExact(s, 0, |a|);
    CodeLengthExact(s, 0, |b|);
    assert a == s[..|a|] && x == s[|a|..];
    assert b == s[..|b|] && y == s[|b|..];
  }

  lemma EncodeInjective(v: nat, x: seq<byte>, w: nat, y: seq<byte>)
    requires Encode(v) + x == Encode(w) + y
    ensures v == w && x == y
  {
    EncodeTerminated(v);
    EncodeTerminated(w);
    PrefixFree(Encode(v), x, Encode(w), y);
  }

  // ---------------------------------------------------------------- the loops

  lemma {:induction false} ValueGrow(s: seq<byte>, b: byte)
    ensures Value(s + [b]) == Value(s) + b % 128 * Pow2(7 * |s|)
    decreases |s|
  {
    if s == [] {
      assert s + [b] == [b];
    } else {
      ValueGrow(s[1..], b);
      assert (s + [b])[1..] == s[1..] + [b];
      Pow2Add(7, 7 * (|s| - 1));
      assert Pow2(7) == 128;
      Regroup(b % 128, Pow2(7 * (|s| - 1)));
    }
  }

  lemma Regroup(c: nat, p: nat)
    ensures 128 * (c * p) == c * (128 * p)
  {
  }

  lemma ChunkBound(c: nat, shift: nat, result: nat)
    requires c < 128 && result < Pow2(shift) && (shift <= 56 || (shift == 63 && c <= 1))
    ensures result + c * Pow2(shift) < W64
    ensures shift <= 56 ==> result + c * Pow2(shift) < Pow2(shift + 7)
  {
    var p := Pow2(shift);
    Pow2Of64();
    if shift <= 56 {
      Pow2Add(shift, 7);
      assert Pow2(7) == 128;
      Pow2Monotone(shift + 7, 64);
      ProductBound(c, p, 127, p);
    } else {
      ProductBound(c, p, 1, p);
    }
  }

  method EncodeUleb128(value: u64) returns (out: seq<byte>)
    ensures out == Encode(value as int)
  {
    var v := value;
    out := [];
    var more := true;
    while more
      invariant more ==> out + Encode(v as int) == Encode(value as int)
      invariant !more ==> out == Encode(value as int)
      decreases more, v
    {
      var low := (v % 128) as int;
      var rest := v / 128;
      if rest != 0 {
        assert out + ([low + 128] + Encode(rest as int)) == out + [low + 128] + Encode(rest as int);
      }
      out := out + [if rest != 0 then low + 128 else low];
      v := rest;
      more := rest != 0;
    }
  }

  /** The bytes from an offset on, none when it is past the end. */
  function From(bytes: seq<byte>, off: nat): seq<byte>
  {
    if off <= |bytes| then bytes[off..] else []
  }

  /** `result |= chunk << shift` */
  method AddChunk(result: u64, b: byte, shift: nat, ghost seen: seq<byte>) returns (r: u64)
    requires |seen| <= 9 && shift == 7 * |seen| && (|seen| == 9 ==> b % 128 <= 1)
    requires result as int == Value(seen) < Pow2(shift)
    ensures r as int == Value(seen + [b])
    ensures |seen| < 9 ==> Value(seen + [b]) < Pow2(shift + 7)
  {
    ChunkBound(b % 128, shift, result as int);
    ValueGrow(seen, b);
    r := (result as int + b % 128 * Pow2(shift)) as u64;
  }

  /** The byte loop of decode_uleb128. */
  method DecodeRaw(bytes: seq<byte>, off: nat) returns (r: Option<u64>, off': nat)
    ensures
      var s := From(bytes, off);
      var n := RawLength(s);
      && (r.Some? <==> n > 0)
      && (r.Some? ==> r.value as int == Value(s[..n]) && off' == off + n <= |bytes|)
  {
    ghost var s: seq<byte>, seen: seq<byte> := From(bytes, off), [];
    off' := off;
    var result: u64, shift: nat := 0, 0;
    while off' < |bytes| && shift <= 63
      invariant |seen| <= 10 && |seen| <= |s| && off' == off + |seen| && shift == 7 * |seen| && seen == s[..|seen|]
      invariant CodeLength(s, 0) == CodeLength(s, |seen|)
      invariant |seen| <= 9 ==> result as int == Value(seen) < Pow2(shift)
      decreases |bytes| - off'
    {
      var b := bytes[off'];
      assert b == s[|seen|];
      if shift == 63 && b % 128 > 1 {
        return None, off' + 1;
      }
      result := AddChunk(result, b, shift, seen);
      off' := off' + 1;
      seen := seen + [b];
      assert seen == s[..|seen|];
      if b < 128 {
        return Some(result), off';
      }
      shift := shift + 7;
    }
    return None, off';
  }

  method DecodeUleb128(bytes: seq<byte>, off: nat, minimal: bool) returns (r: Option<u64>, off': nat)
    ensures
      var s := From(bytes, off);
      var n := RawLength(s);
      && (r.Some? <==> n > 0 && (minimal ==> Encode(Value(s[..n])) == s[..n]))
      && (r.Some? ==> r.value as int == Value(s[..n]) && off' == off + n <= |bytes|)
  {
    r, off' := DecodeRaw(bytes, off);
    if r.Some? && minimal {
      var canonical := EncodeUleb128(r.value);
      assert bytes[off..off'] == bytes[off..][..off' - off];
      if canonical != bytes[off..off'] {
        r := None;
      }
    }
  }

  /** is_minimal_uleb128_encoding holds exactly on the image of the encoder. */
  method IsMinimalEncoding(enc: seq<byte>) returns (yes: bool)
    ensures yes <==> exists v :: 0 <= v < W64 && enc == Encode(v)
  {
    if enc == [] {
      return false;
    }
    var v, off := DecodeUleb128(enc, 0, false);
    assert From(enc, 0) == enc && enc[..|enc|] == enc;
    ImageOfEncoder(enc);
    if v == None || off != |enc| {
      return false;
    }
    var again := EncodeUleb128(v.value);
    return again == enc;
  }

  lemma ImageOfEncoder(enc: seq<byte>)
    ensures (exists v :: 0 <= v < W64 && enc == Encode(v)) <==>
      RawLength(enc) > 0 && RawLength(enc) == |enc| && enc == Encode(Value(enc))
  {
    if v :| 0 <= v < W64 && enc == Encode(v) {
      assert enc == Encode(v) + [];
      ReadExact(enc, v, []);
    }
    RawFits(enc);
    assert enc[..|enc|] == enc;
  }
}
