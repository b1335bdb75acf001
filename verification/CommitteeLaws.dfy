/**
 What the ranking means (scripts/protocol_attack_sim.py, src/consensus/finalized_committee.cpp): a candidate's
 strength bounded by products instead of quotients and roots, what a better ticket is worth, and the comparator as
 one lexicographic order.
 */
module CommitteeLaws {
  import opened Options
  import opened WideArith
  import opened Committee
  import opened Sequences
  import Tickets

  // ---------------------------------------------------------------- strength

  /** Whole coins bonded, counted as one where there is less. */
  function Coins(c: Candidate): nat
  {
    if c.bonded < 100_000_000 then 1 else c.bonded / 100_000_000
  }

  /** The ticket bonus as far as the cap lets it count. */
  function Bounded(c: Candidate): nat
  {
    if c.bonusBps < c.bonusCapBps then c.bonusBps else c.bonusCapBps
  }

  /** A set weight stands; otherwise it is the floor root of the bond, and one for no bond. */
  lemma WeightMeans(c: Candidate)
    ensures c.weight != 0 ==> BaseWeight(c) == c.weight
    ensures c.weight == 0 && c.bonded == 0 ==> BaseWeight(c) == 1
    ensures c.weight == 0 && c.bonded > 0 ==> IsRoot(c.bonded, BaseWeight(c))
  {
    if c.bonded > 0 && Isqrt(c.bonded) == 0 {
      assert false;
    }
  }

  lemma Quotient(x: nat, d: nat)
    requires d >= 1
    ensures x / d * d <= x < (x / d + 1) * d
  {
    assert x == x / d * d + x % d;
    assert (x / d + 1) * d == x / d * d + d;
  }

  /**
   Each basis point of bonus costs one more than the root of the coins bonded: the bonus counted is the largest
   whose price the bounded bonus covers, and it comes on top of 10000 per unit of weight.
   */
  lemma StrengthMeans(c: Candidate, s: nat) returns (q: nat)
    requires IsRoot(Coins(c), s)
    ensures Strength(c) == BaseWeight(c) * (10_000 + q)
    ensures q * (1 + s) <= Bounded(c) < (q + 1) * (1 + s)
  {
    assert Max(1, c.bonded / BASE_UNITS_PER_COIN) == Coins(c);
    RootUnique(Coins(c), s, Isqrt(Coins(c)));
    q := AdjustedBonus(c);
    Quotient(Bounded(c), 1 + s);
    ProductBound(1, 10_000, BaseWeight(c), 10_000 + q);
  }

  /** On the node the same product, reduced to 64 bits, and one where nothing is left. */
  lemma NodeStrengthMeans(c: Candidate) returns (k: nat)
    ensures WrappedStrength(c) < W64
    ensures Strength(c) == WrappedStrength(c) + k * W64 || (WrappedStrength(c) == 1 && Strength(c) == k * W64)
  {
    var product := BaseWeight(c) * (10_000 + AdjustedBonus(c));
    ProductBound(1, 10_000, BaseWeight(c), 10_000 + AdjustedBonus(c));
    k := product / W64;
    assert product == k * W64 + product % W64;
  }

  /** A larger quotient needs a larger dividend; a dividend larger by the divisor has a larger quotient. */
  lemma QuotientLead(x: nat, qx: nat, y: nat, qy: nat, d: nat)
    requires qx * d <= x < (qx + 1) * d && qy * d <= y < (qy + 1) * d && x >= y + d
    ensures qx >= qy + 1
  {
    assert (qy + 1) * d == qy * d + d;
    if qx <= qy {
      ProductBound(qx + 1, d, qy + 1, d);
    }
  }

  /** Of two alike in weight and bond with equal prefixes, a ticket worth one more basis point ranks first. */
  lemma BonusLeadWins(a: Candidate, b: Candidate, hash: nat -> Hash, s: nat)
    requires a.weight == b.weight && a.bonded == b.bonded && IsRoot(Coins(a), s)
    requires Bounded(a) >= Bounded(b) + 1 + s
    requires Prefix64(hash(Id(a))) == Prefix64(hash(Id(b))) > 0
    ensures Compare(a, b, hash) < 0
  {
    BonusLeadCounts(a, b, s);
    StrongerWins(a, b, hash);
  }

  lemma BonusLeadCounts(a: Candidate, b: Candidate, s: nat)
    requires a.weight == b.weight && a.bonded == b.bonded && IsRoot(Coins(a), s)
    requires Bounded(a) >= Bounded(b) + 1 + s
    ensures Strength(a) > Strength(b)
  {
    var qa := StrengthMeans(a, s);
    var qb := StrengthMeans(b, s);
    QuotientLead(Bounded(a), qa, Bounded(b), qb, 1 + s);
    Heavier(BaseWeight(a), 10_000 + qb, 10_000 + qa, Strength(b), Strength(a));
  }

  lemma Heavier(w: nat, x: nat, y: nat, wx: nat, wy: nat)
    requires w >= 1 && x < y && wx == w * x && wy == w * y
    ensures wx < wy
  {
    Strictly(x, y, w);
  }

  lemma StrongerWins(a: Candidate, b: Candidate, hash: nat -> Hash)
    requires Strength(a) > Strength(b) && Prefix64(hash(Id(a))) == Prefix64(hash(Id(b))) > 0
    ensures Compare(a, b, hash) < 0
  {
    Strictly(Strength(b), Strength(a), Prefix64(hash(Id(a))));
  }

  // ---------------------------------------------------------------- the order

  /** The first place where they differ decides. */
  ghost predicate Before(x: seq<int>, y: seq<int>)
    requires |x| == |y|
  {
    exists i :: 0 <= i < |x| && x[i] < y[i] && forall j :: 0 <= j < i ==> x[j] == y[j]
  }

  /** What breaks a tie, most significant first: small comes first, and large weights and bonds are negated. */
  function Ties(c: Candidate, hash: nat -> Hash): (k: seq<int>)
    ensures |k| == 11
  {
    [hash(Id(c)), Id(c), c.pubkey, 0 - c.weight, 0 - c.capped, 0 - c.bonded, 0 - c.bonusBps, c.workHash, c.nonce,
     c.bonusCapBps, if c.selectionId.Some? then c.selectionId.value else -1]
  }

  lemma FirstDifference(x: seq<int>, y: seq<int>, i: nat)
    requires i < |x| == |y| && x[i] != y[i] && forall j :: 0 <= j < i ==> x[j] == y[j]
    ensures Before(x, y) <==> x[i] < y[i]
  {
    if Before(x, y) {
      var k :| 0 <= k < |x| && x[k] < y[k] && forall j :: 0 <= j < k ==> x[j] == y[j];
      assert !(k < i) && !(i < k);
    }
  }

  lemma NoDifference(x: seq<int>, y: seq<int>)
    requires |x| == |y| && forall j :: 0 <= j < |x| ==> x[j] == y[j]
    ensures !Before(x, y)
  {
  }

  lemma {:induction false} Agreement(x: seq<int>, y: seq<int>, n: nat) returns (i: nat)
    requires n <= |x| == |y|
    ensures i <= n && (forall j :: 0 <= j < i ==> x[j] == y[j]) && (i < n ==> x[i] != y[i])
    decreases n
  {
    if n == 0 {
      i := 0;
    } else {
      i := Agreement(x, y, n - 1);
      if i == n - 1 && x[i] == y[i] {
        i := n;
      }
    }
  }

  /** With equal ratios, the first of the tie keys that differs decides. */
  lemma TiesDecide(a: Candidate, b: Candidate, hash: nat -> Hash, strength: Candidate -> nat)
    requires Prefix64(hash(Id(a))) * strength(b) == Prefix64(hash(Id(b))) * strength(a)
    ensures CompareBy(a, b, hash, strength) < 0 <==> Before(Ties(a, hash), Ties(b, hash))
  {
    var x, y := Ties(a, hash), Ties(b, hash);
    var i := Agreement(x, y, 11);
    if i == 11 {
      NoDifference(x, y);
      assert x[0] == y[0] && x[1] == y[1] && x[2] == y[2] && x[3] == y[3] && x[4] == y[4] && x[5] == y[5];
      assert x[6] == y[6] && x[7] == y[7] && x[8] == y[8] && x[9] == y[9] && x[10] == y[10];
    } else {
      FirstDifference(x, y, i);
      assert i > 0 ==> x[0] == y[0];
      assert i > 1 ==> x[1] == y[1];
      assert i > 2 ==> x[2] == y[2];
      assert i > 3 ==> x[3] == y[3];
      assert i > 4 ==> x[4] == y[4];
      assert i > 5 ==> x[5] == y[5];
      assert i > 6 ==> x[6] == y[6];
      assert i > 7 ==> x[7] == y[7];
      assert i > 8 ==> x[8] == y[8];
      assert i > 9 ==> x[9] == y[9];
    }
  }

  /**
   The whole order: the smaller ratio of hash prefix to strength first, and between equal ratios the first of the tie
   keys that differs.
   */
  lemma RanksFirst(a: Candidate, b: Candidate, hash: nat -> Hash)
    ensures
      var pa, pb := Prefix64(hash(Id(a))), Prefix64(hash(Id(b)));
      Compare(a, b, hash) < 0 <==>
        || pa * Strength(b) < pb * Strength(a)
        || (pa * Strength(b) == pb * Strength(a) && Before(Ties(a, hash), Ties(b, hash)))
  {
    if Prefix64(hash(Id(a))) * Strength(b) == Prefix64(hash(Id(b))) * Strength(a) {
      TiesDecide(a, b, hash, Strength);
    }
  }

  // ---------------------------------------------------------------- the hash prefix

  lemma SplitStep(p: nat, q: nat, n: nat, b: byte)
    requires n < q
    ensures 256 * (p * q + n) + b == p * (256 * q) + (256 * n + b) && 256 * n + b < 256 * q
  {
  }

  lemma {:induction false} NumberSplits(x: seq<byte>, y: seq<byte>)
    ensures Tickets.Number(x + y) == Tickets.Number(x) * Pow2(8 * |y|) + Tickets.Number(y)
    ensures Tickets.Number(y) < Pow2(8 * |y|)
    decreases |y|
  {
    if y == [] {
      assert x + y == x;
    } else {
      var front := y[..|y| - 1];
      NumberSplits(x, front);
      assert (x + y)[..|x + y| - 1] == x + front;
      Pow256At(8 * |front|, 8 * |y|);
      SplitStep(Tickets.Number(x), Pow2(8 * |front|), Tickets.Number(front), y[|y| - 1]);
    }
  }

  /** The prefix that ranks is the number spelled by the first eight of the hash's 32 bytes. */
  lemma PrefixIsFirstBytes(bytes: seq<byte>)
    requires |bytes| == 32
    ensures
      var n := Tickets.Number(bytes);
      n <= 0xFFFF_FFFF_FFFF_FFFF_FFFF_FFFF_FFFF_FFFF_FFFF_FFFF_FFFF_FFFF_FFFF_FFFF_FFFF_FFFF
        && Prefix64(n) == Tickets.Number(bytes[..8])
  {
    var head, tail := bytes[..8], bytes[8..];
    assert bytes == head + tail && [] + bytes == bytes;
    NumberSplits(head, tail);
    NumberSplits([], bytes);
    WidePowers();
    DivModUnique(Tickets.Number(bytes), PREFIX_UNIT, Tickets.Number(head), Tickets.Number(tail));
  }

  lemma WidePowers()
    ensures Pow2(192) == PREFIX_UNIT
    ensures Pow2(256) == 0x1_0000_0000_0000_0000_0000_0000_0000_0000_0000_0000_0000_0000_0000_0000_0000_0000
  {
    Pow2Of64();
    Pow2Add(64, 64);
    Pow2Add(128, 64);
    Pow2Add(192, 64);
  }
}
