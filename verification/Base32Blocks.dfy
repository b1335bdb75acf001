/**
 The address text in blocks (src/common/address.cpp): five bytes make eight letters, whatever comes before or after.
 */
module Base32Blocks {
  import opened WideArith
  import opened Sequences
  import opened Numerals
  import opened Base32

  /** The eight five-bit groups of five bytes, from the top bit down. */
  function Eight(b: seq<byte>): (ds: seq<nat>)
    requires |b| == 5
    ensures |ds| == 8
  {
    [b[0] / 8, b[0] % 8 * 4 + b[1] / 64, b[1] / 2 % 32, b[1] % 2 * 16 + b[2] / 16,
     b[2] % 16 * 2 + b[3] / 128, b[3] / 4 % 32, b[3] % 4 * 8 + b[4] / 32, b[4] % 32]
  }

  lemma EightBelow(b: seq<byte>)
    requires |b| == 5
    ensures Below(Eight(b), 32)
  {
  }

  lemma {:induction false} NumConcat(x: seq<nat>, y: seq<nat>, base: nat)
    ensures Num(x + y, base) == Num(x, base) * Power(base, |y|) + Num(y, base)
    decreases |y|
  {
    if y == [] {
      assert x + y == x;
    } else {
      var front, d := y[..|y| - 1], y[|y| - 1];
      NumConcat(x, front, base);
      assert x + y == (x + front) + [d];
      NumGrow(x + front, d, base);
      Scaled(Num(x, base), Power(base, |front|), Num(front, base), base);
    }
  }

  lemma Scaled(p: nat, q: nat, r: nat, base: nat)
    ensures base * (p * q + r) == p * (base * q) + base * r
  {
  }

  lemma FourOf(a: nat, b: nat, c: nat, d: nat, base: nat)
    ensures Num([a, b, c, d], base) == base * (base * (base * a + b) + c) + d
  {
    NumGrow([], a, base);
    assert [] + [a] == [a];
    NumGrow([a], b, base);
    assert [a] + [b] == [a, b];
    NumGrow([a, b], c, base);
    assert [a, b] + [c] == [a, b, c];
    NumGrow([a, b, c], d, base);
    assert [a, b, c] + [d] == [a, b, c, d];
  }

  lemma BytesNumber(b: seq<nat>)
    requires |b| == 5
    ensures Num(b, 256) == 256 * (256 * (256 * (256 * b[0] + b[1]) + b[2]) + b[3]) + b[4]
  {
    FourOf(b[0], b[1], b[2], b[3], 256);
    NumGrow([b[0], b[1], b[2], b[3]], b[4], 256);
    assert b == [b[0], b[1], b[2], b[3]] + [b[4]];
  }

  lemma GroupsNumber(d: seq<nat>)
    requires |d| == 8
    ensures Num(d, 32) == 1_048_576 * (32 * (32 * (32 * d[0] + d[1]) + d[2]) + d[3])
                          + (32 * (32 * (32 * d[4] + d[5]) + d[6]) + d[7])
  {
    FourOf(d[0], d[1], d[2], d[3], 32);
    FourOf(d[4], d[5], d[6], d[7], 32);
    assert d == [d[0], d[1], d[2], d[3]] + [d[4], d[5], d[6], d[7]];
    NumConcat([d[0], d[1], d[2], d[3]], [d[4], d[5], d[6], d[7]], 32);
    assert Power(32, 2) == 1024 && Power(32, 3) == 32 * Power(32, 2) && Power(32, 4) == 32 * Power(32, 3);
  }

  /** The middle bytes are cut in three. */
  lemma Cut(x: nat, y: nat)
    ensures x == 64 * (x / 64) + 2 * (x / 2 % 32) + x % 2
    ensures y == 128 * (y / 128) + 4 * (y / 4 % 32) + y % 4
  {
    DivDiv(x, 2, 32);
    DivDiv(y, 4, 32);
  }

  lemma Regrouped(p0: nat, q0: nat, p1: nat, m1: nat, q1: nat, p2: nat, q2: nat, p3: nat, m3: nat, q3: nat, p4: nat,
                  q4: nat)
    ensures
      256 * (256 * (256 * (256 * (8 * p0 + q0) + (64 * p1 + 2 * m1 + q1)) + (16 * p2 + q2)) + (128 * p3 + 4 * m3 + q3))
        + (32 * p4 + q4)
      == 1_048_576 * (32 * (32 * (32 * p0 + (q0 * 4 + p1)) + m1) + (q1 * 16 + p2))
         + (32 * (32 * (32 * (q2 * 2 + p3) + m3) + (q3 * 8 + p4)) + q4)
  {
  }

  lemma SameNumber(b: seq<byte>)
    requires |b| == 5
    ensures Num(Eight(b), 32) == Num(b, 256)
  {
    var b0: nat, b1: nat, b2: nat, b3: nat, b4: nat := b[0], b[1], b[2], b[3], b[4];
    BytesNumber(b);
    GroupsNumber(Eight(b));
    Cut(b1, b3);
    Regrouped(b0 / 8, b0 % 8, b1 / 64, b1 / 2 % 32, b1 % 2, b2 / 16, b2 % 16, b3 / 128, b3 / 4 % 32, b3 % 4, b4 / 32,
      b4 % 32);
  }

  lemma SamePad(n: nat)
    ensures TextLength(n + 5) == TextLength(n) + 8
    ensures 5 * TextLength(n + 5) - 8 * (n + 5) == 5 * TextLength(n) - 8 * n >= 0
  {
  }

  lemma Assemble(total: nat, head: nat, span: nat, tail: nat, p: nat, rest: nat, q: nat)
    requires total == head * span + tail && span == q * p && tail == rest * q
    ensures total == (head * p + rest) * q
  {
    assert (head * p + rest) * q == head * p * q + rest * q && head * p * q == head * (q * p);
  }

  /** Five bytes make eight letters of the alphabet, and the rest is encoded as it would be alone. */
  lemma FiveBytes(b: seq<byte>, rest: seq<byte>)
    requires |b| == 5
    ensures Encoded(b + rest) == Text(Eight(b)) + Encoded(rest)
  {
    var ds, n := Eight(b) + PaddedDigits(rest), |rest|;
    SamePad(n);
    EightBelow(b);
    BlockNumber(b, rest);
    EncodedBy(b + rest, ds);
    TextJoins(Eight(b), PaddedDigits(rest));
  }

  lemma BlockNumber(b: seq<byte>, rest: seq<byte>)
    requires |b| == 5
    ensures Num(Eight(b) + PaddedDigits(rest), 32) == Padded(Num(b + rest, 256), |rest| + 5)
  {
    PadRange(|rest|);
    BlockPadded(b, rest, PaddedDigits(rest), 5 * TextLength(|rest|) - 8 * |rest|);
  }

  lemma BlockPadded(b: seq<byte>, rest: seq<byte>, tail: seq<nat>, pad: nat)
    requires |b| == 5 && tail == PaddedDigits(rest) && pad == 5 * TextLength(|rest|) - 8 * |rest|
    ensures Num(Eight(b) + tail, 32) == Padded(Num(b + rest, 256), |rest| + 5)
  {
    SameNumber(b);
    RestNumber(rest, tail, pad);
    Onto(Eight(b), b, rest, tail, pad);
    PaddedBlock(Num(b + rest, 256), |rest|, pad);
  }

  lemma RestNumber(rest: seq<byte>, tail: seq<nat>, pad: nat)
    requires tail == PaddedDigits(rest) && pad == 5 * TextLength(|rest|) - 8 * |rest|
    ensures Num(tail, 32) == Num(rest, 256) * Pow2(pad)
  {
    PaddedNumber(rest);
    PadIs(Num(rest, 256), |rest|, pad);
  }

  lemma PadIs(x: nat, n: nat, pad: nat)
    requires pad == 5 * TextLength(n) - 8 * n
    ensures Padded(x, n) == x * Pow2(pad)
  {
  }

  lemma PaddedBlock(x: nat, n: nat, pad: nat)
    requires pad == 5 * TextLength(n) - 8 * n
    ensures Padded(x, n + 5) == x * Pow2(pad)
  {
    SamePad(n);
  }

  /** The rest's letters span as many bits as its bytes and the padding, so the block stays whole above them. */
  lemma Onto(head: seq<nat>, b: seq<nat>, rest: seq<nat>, tail: seq<nat>, pad: nat)
    requires Num(head, 32) == Num(b, 256) && 8 * |rest| + pad == 5 * |tail|
    requires Num(tail, 32) == Num(rest, 256) * Pow2(pad)
    ensures Num(head + tail, 32) == Num(b + rest, 256) * Pow2(pad)
  {
    NumConcat(head, tail, 32);
    NumConcat(b, rest, 256);
    Regroups(|rest|, |tail|, pad);
    Assemble(Num(head + tail, 32), Num(b, 256), Power(32, |tail|), Num(tail, 32), Power(256, |rest|), Num(rest, 256),
      Pow2(pad));
  }

  lemma TextJoins(x: seq<nat>, y: seq<nat>)
    requires Below(x, 32) && Below(y, 32)
    ensures Below(x + y, 32) && Text(x + y) == Text(x) + Text(y)
  {
    assert Below(x + y, 32);
  }

  /** The alphabet: a to z, then 2 to 7. */
  lemma TextMeans(ds: seq<nat>, i: nat)
    requires Below(ds, 32) && i < |ds|
    ensures |Text(ds)| == |ds| && Text(ds)[i] == "abcdefghijklmnopqrstuvwxyz234567"[ds[i]]
  {
    AlphabetIs(ds[i]);
  }

  /** The eight letters of five bytes. */
  function Letters(b: seq<byte>): string
    requires |b| == 5
  {
    EightBelow(b);
    Text(Eight(b))
  }

  /** The k-th eight letters are those of the k-th five bytes. */
  lemma {:induction false} BlockAt(data: seq<byte>, k: nat)
    requires 5 * k + 5 <= |data|
    ensures 8 * k + 8 <= |Encoded(data)| && Encoded(data)[8 * k..8 * k + 8] == Letters(data[5 * k..5 * k + 5])
    decreases k
  {
    var b, rest := data[..5], data[5..];
    assert data == b + rest;
    FiveBytes(b, rest);
    if k > 0 {
      BlockAt(rest, k - 1);
      assert rest[5 * k - 5..5 * k] == data[5 * k..5 * k + 5];
      assert Encoded(data)[8 * k..8 * k + 8] == Encoded(rest)[8 * k - 8..8 * k];
    }
  }
}
