/**
 Epoch tickets (scripts/protocol_attack_sim.py): the least-hash search over nonces and the bonus a
 ticket earns for its leading zero bits. A hash is its big-endian number.
 */
module Tickets {
  import opened Options
  import opened WideArith
  import opened Sequences
  import opened Committee

  /** The number a big-endian byte string spells. */
  function Number(bytes: seq<byte>): nat
  {
    if bytes == [] then 0 else 256 * Number(bytes[..|bytes| - 1]) + bytes[|bytes| - 1]
  }

  function BitLength(n: nat): nat
  {
    if n == 0 then 0 else 1 + BitLength(n / 2)
  }

  // ---------------------------------------------------------------- bit lengths

  /** The bit length is where the number sits between two powers of two. */
  lemma {:induction false} BitLengthRange(n: nat)
    ensures n < Pow2(BitLength(n))
    ensures n > 0 ==> Pow2(BitLength(n) - 1) <= n
  {
    if n > 0 {
      BitLengthRange(n / 2);
    }
  }

  lemma BitLengthUnique(n: nat, k: nat)
    requires Pow2(k) <= n < Pow2(k + 1)
    ensures BitLength(n) == k + 1
  {
    BitLengthRange(n);
    if BitLength(n) <= k {
      Pow2Monotone(BitLength(n), k);
    }
    if BitLength(n) > k + 1 {
      Pow2Monotone(k + 1, BitLength(n) - 1);
    }
  }

  lemma {:induction false} BitLengthMonotone(a: nat, b: nat)
    requires a <= b
    ensures BitLength(a) <= BitLength(b)
  {
    if a > 0 {
      BitLengthMonotone(a / 2, b / 2);
    }
  }

  lemma AppendByte(x: nat, b: byte)
    requires x > 0
    ensures BitLength(256 * x + b) == BitLength(x) + 8
  {
    BitLengthRange(x);
    var k := BitLength(x) - 1;
    Pow256At(k, k + 8);
    Pow256At(k + 1, k + 9);
    BitLengthUnique(256 * x + b, k + 8);
  }

  lemma {:induction false} ZeroPrefix(bytes: seq<byte>, i: nat)
    requires i <= |bytes| && forall j :: 0 <= j < i ==> bytes[j] == 0
    ensures i == |bytes| ==> Number(bytes) == 0
    ensures i < |bytes| && bytes[i] != 0 ==>
      Number(bytes) > 0 && BitLength(Number(bytes)) == BitLength(bytes[i]) + 8 * (|bytes| - i - 1)
    decreases |bytes|
  {
    if bytes != [] {
      var front := bytes[..|bytes| - 1];
      if i == |bytes| {
        ZeroPrefix(front, i - 1);
      } else {
        ZeroPrefix(front, i);
        if i < |front| && bytes[i] != 0 {
          AppendByte(Number(front), bytes[|bytes| - 1]);
        }
      }
    }
  }

  lemma {:induction false} NumberBound(bytes: seq<byte>)
    ensures BitLength(Number(bytes)) <= 8 * |bytes|
    decreases |bytes|
  {
    if bytes != [] {
      var front, last := Number(bytes[..|bytes| - 1]), bytes[|bytes| - 1];
      NumberBound(bytes[..|bytes| - 1]);
      if front > 0 {
        AppendByte(front, last);
      } else {
        BitLengthMonotone(last, 255);
        assert Pow2(8) == 256;
        BitLengthUnique(255, 7);
      }
    }
  }

  // ---------------------------------------------------------------- counting zeros

  /** The scan of one nonzero byte from its top bit down. */
  method ByteZeros(b: byte) returns (zeros: nat)
    requires b != 0
    ensures zeros + BitLength(b) == 8
  {
    var bit: nat := 7;
    assert Pow2(8) == 256;
    while b / Pow2(bit) % 2 == 0
      invariant bit <= 7 && b < Pow2(bit + 1)
      decreases bit
    {
      SmallQuotient(b, Pow2(bit));
      bit := bit - 1;
    }
    SmallQuotient(b, Pow2(bit));
    BitLengthUnique(b, bit);
    zeros := 7 - bit;
  }

  lemma SmallQuotient(b: nat, p: nat)
    requires p >= 1 && b < 2 * p
    ensures b / p % 2 == 0 <==> b < p
  {
    if b >= p {
      assert b / p == 1 by { DivModUnique(b, p, 1, b - p); }
    }
  }

  /** leading_zero_bits */
  method LeadingZeroBits(hash: seq<byte>) returns (zeros: nat)
    ensures zeros + BitLength(Number(hash)) == 8 * |hash|
  {
    zeros := 0;
    for i := 0 to |hash|
      invariant zeros == 8 * i
      invariant forall j :: 0 <= j < i ==> hash[j] == 0
    {
      if hash[i] != 0 {
        var inByte := ByteZeros(hash[i]);
        ZeroPrefix(hash, i);
        return zeros + inByte;
      }
      zeros := zeros + 8;
    }
    ZeroPrefix(hash, |hash|);
  }

  /** A larger hash never has more leading zeros. */
  lemma ZerosAntitone(a: seq<byte>, b: seq<byte>)
    requires |a| == |b| && Number(a) <= Number(b)
    ensures 8 * |a| - BitLength(Number(a)) >= 8 * |b| - BitLength(Number(b)) >= 0
  {
    BitLengthMonotone(Number(a), Number(b));
    NumberBound(b);
  }

  // ---------------------------------------------------------------- the bonus

  /** ticket_pow_bonus_bps_from_zero_bits */
  function Bonus(zeros: nat, difficulty: nat, cap: nat): (r: nat)
    ensures r <= cap
  {
    if zeros < difficulty then 0 else Min(cap, 500 + 400 * Isqrt(zeros - difficulty + 1))
  }

  lemma RootMonotone(a: nat, ra: nat, b: nat, rb: nat)
    requires a <= b && IsRoot(a, ra) && IsRoot(b, rb)
    ensures ra <= rb
  {
    if ra > rb {
      ProductBound(rb + 1, rb + 1, ra, ra);
    }
  }

  lemma BonusMonotone(z: nat, z': nat, difficulty: nat, cap: nat)
    requires z <= z'
    ensures Bonus(z, difficulty, cap) <= Bonus(z', difficulty, cap)
  {
    if difficulty <= z {
      RootMonotone(z - difficulty + 1, Isqrt(z - difficulty + 1), z' - difficulty + 1, Isqrt(z' - difficulty + 1));
    }
  }

  /**
   What a bonus takes: nothing below the difficulty; the first step pays 900, and the k-th, which is 400k above 500,
   needs k * k - 1 zero bits beyond the difficulty. Nothing pays more than the cap.
   */
  lemma BonusSteps(zeros: nat, difficulty: nat, cap: nat, k: nat)
    requires k >= 1
    ensures zeros < difficulty ==> Bonus(zeros, difficulty, cap) == 0
    ensures 500 + 400 * k <= cap ==>
      (Bonus(zeros, difficulty, cap) >= 500 + 400 * k <==> zeros + 1 >= difficulty + k * k)
    ensures zeros + 1 >= difficulty + k * k && 500 + 400 * k >= cap ==> Bonus(zeros, difficulty, cap) == cap
    ensures difficulty + k * k <= zeros + 1 < difficulty + (k + 1) * (k + 1) && 500 + 400 * k <= cap ==>
      Bonus(zeros, difficulty, cap) == 500 + 400 * k
  {
    ProductBound(1, 1, k, k);
    if zeros >= difficulty {
      var x := zeros - difficulty + 1;
      RootReaches(x, Isqrt(x), k);
      if x < (k + 1) * (k + 1) && x >= k * k {
        RootUnique(x, k, Isqrt(x));
      }
    }
  }

  lemma RootReaches(x: nat, r: nat, k: nat)
    requires IsRoot(x, r)
    ensures r >= k <==> x >= k * k
  {
    if r >= k {
      ProductBound(k, k, r, r);
    } else {
      ProductBound(r + 1, r + 1, k, k);
    }
  }

  function ZeroBits(h: seq<byte>): nat
  {
    NumberBound(h);
    8 * |h| - BitLength(Number(h))
  }

  datatype Ticket = Ticket(hash: seq<byte>, nonce: nat, bonus: nat)

  /** The first nonce of least hash. */
  function LeastNonce(work: nat -> seq<byte>, limit: nat): (m: nat)
    requires limit > 0
    ensures m < limit
    decreases limit
  {
    if limit == 1 then 0
    else
      var m := LeastNonce(work, limit - 1);
      if Number(work(limit - 1)) < Number(work(m)) then limit - 1 else m
  }

  function TicketOf(work: nat -> seq<byte>, limit: nat, difficulty: nat, cap: nat): Ticket
    requires limit > 0
  {
    var m := LeastNonce(work, limit);
    Ticket(work(m), m, Bonus(ZeroBits(work(m)), difficulty, cap))
  }

  lemma {:induction false} LeastIsFirst(work: nat -> seq<byte>, limit: nat)
    requires limit > 0
    ensures
      var m := LeastNonce(work, limit);
      && (forall n :: 0 <= n < limit ==> Number(work(m)) <= Number(work(n)))
      && (forall n :: 0 <= n < m ==> Number(work(m)) < Number(work(n)))
  {
    if limit > 1 {
      LeastIsFirst(work, limit - 1);
    }
  }

  lemma LeastPaysMost(work: nat -> seq<byte>, limit: nat, difficulty: nat, cap: nat)
    requires limit > 0 && forall n :: |work(n)| == 32
    ensures forall n :: 0 <= n < limit ==>
      Bonus(ZeroBits(work(n)), difficulty, cap) <= TicketOf(work, limit, difficulty, cap).bonus
  {
    var hash := work(LeastNonce(work, limit));
    LeastIsFirst(work, limit);
    forall n | 0 <= n < limit
      ensures Bonus(ZeroBits(work(n)), difficulty, cap) <= Bonus(ZeroBits(hash), difficulty, cap)
    {
      ZerosAntitone(hash, work(n));
      BonusMonotone(ZeroBits(work(n)), ZeroBits(hash), difficulty, cap);
    }
  }

  /** The search loop. */
  method FirstLeast(work: nat -> seq<byte>, limit: nat) returns (found: Option<seq<byte>>, best: nat)
    ensures found == None <==> limit == 0
    ensures found.Some? ==> best == LeastNonce(work, limit) && found.value == work(best)
  {
    found, best := None, 0;
    for nonce := 0 to limit
      invariant found == None <==> nonce == 0
      invariant found.Some? ==> best == LeastNonce(work, nonce) && found.value == work(best)
    {
      var hash := work(nonce);
      if found == None || Number(hash) < Number(found.value) {
        found, best := Some(hash), nonce;
      }
    }
  }

  /**
   best_operator_ticket: the first nonce of least hash, which earns the largest bonus of all those
   tried. No nonce to try means no ticket.
   */
  method BestTicket(work: nat -> seq<byte>, limit: nat, difficulty: nat, cap: nat) returns (best: Option<Ticket>)
    requires forall n :: |work(n)| == 32
    ensures best == None <==> limit == 0
    ensures best.Some? ==> best.value.nonce < limit && best.value.hash == work(best.value.nonce)
    ensures best.Some? ==> forall n :: 0 <= n < limit ==> Number(best.value.hash) <= Number(work(n))
    ensures best.Some? ==> forall n :: 0 <= n < best.value.nonce ==> Number(best.value.hash) < Number(work(n))
    ensures best.Some? ==> forall n :: 0 <= n < limit ==> Bonus(ZeroBits(work(n)), difficulty, cap) <= best.value.bonus
    ensures best.Some? ==> best.value == TicketOf(work, limit, difficulty, cap)
  {
    var found, nonce := FirstLeast(work, limit);
    if found == None {
      return None;
    }
    var zeros := LeadingZeroBits(found.value);
    best := Some(Ticket(found.value, nonce, Bonus(zeros, difficulty, cap)));
    LeastIsFirst(work, limit);
    LeastPaysMost(work, limit, difficulty, cap);
  }
}
