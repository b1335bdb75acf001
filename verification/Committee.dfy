/**
 Finalized-committee ranking (scripts/protocol_attack_sim.py, src/consensus/finalized_committee.cpp).
 32-byte keys and hashes are their big-endian numbers, so byte order is numeric order. The candidate
 hash under the epoch seed is a parameter.
 */
module Committee {
  import opened Options
  import opened WideArith
  import opened Sorting

  const BASE_UNITS_PER_COIN: nat := 100_000_000

  type Hash = h: nat | h < 0x1_0000_0000_0000_0000_0000_0000_0000_0000_0000_0000_0000_0000_0000_0000_0000_0000

  datatype Candidate = Candidate(
    pubkey: nat, selectionId: Option<nat>, bonded: nat, capped: nat, weight: nat,
    workHash: nat, nonce: nat, bonusBps: nat, bonusCapBps: nat)

  /** The selection id, or the public key where none is set. */
  function Id(c: Candidate): nat
  {
    if c.selectionId.Some? then c.selectionId.value else c.pubkey
  }

  function Isqrt(x: nat): (r: nat)
    ensures IsRoot(x, r)
  {
    if x == 0 then 0
    else
      var r := Isqrt(x - 1);
      assert (r + 2) * (r + 2) == (r + 1) * (r + 1) + 2 * r + 3;
      if (r + 1) * (r + 1) <= x then r + 1 else r
  }

  function Min(a: nat, b: nat): nat { if a < b then a else b }
  function Max(a: nat, b: nat): nat { if a < b then b else a }

  function EffectiveWeight(bonded: nat): (w: nat)
    ensures w >= 1
  {
    Max(1, Isqrt(bonded))
  }

  function BaseWeight(c: Candidate): (w: nat)
    ensures w >= 1
  {
    if c.weight != 0 then c.weight else EffectiveWeight(c.bonded)
  }

  function AdjustedBonus(c: Candidate): nat
  {
    Min(c.bonusBps, c.bonusCapBps) / (1 + Isqrt(Max(1, c.bonded / BASE_UNITS_PER_COIN)))
  }

  function Strength(c: Candidate): (s: nat)
    ensures s >= 1
  {
    Max(1, BaseWeight(c) * (10_000 + AdjustedBonus(c)))
  }

  /** The first eight bytes of a hash. */
  function Prefix64(h: Hash): (p: nat)
    ensures p < W64
  {
    h / 0x1_0000_0000_0000_0000_0000_0000_0000_0000_0000_0000_0000_0000
  }

  // ---------------------------------------------------------------- the comparator

  /** compare_ranked_candidates: hash prefix over strength, cross-multiplied, then the tie-break chain. */
  function Compare(a: Candidate, b: Candidate, hash: nat -> Hash): int
  {
    CompareBy(a, b, hash, Strength)
  }

  function CompareBy(a: Candidate, b: Candidate, hash: nat -> Hash, strength: Candidate -> nat): int
  {
    var ha, hb := hash(Id(a)), hash(Id(b));
    var lhs, rhs := Prefix64(ha) * strength(b), Prefix64(hb) * strength(a);
    if lhs != rhs then Sign(lhs - rhs)
    else if ha != hb then Sign(ha - hb)
    else
      var tie := TieBreak(a, b);
      if tie != 0 then tie else Sign(RawId(a) - RawId(b))
  }

  function TieBreak(a: Candidate, b: Candidate): int
  {
    if Id(a) != Id(b) then Sign(Id(a) - Id(b))
    else if a.pubkey != b.pubkey then Sign(a.pubkey - b.pubkey)
    else if a.weight != b.weight then Sign(b.weight - a.weight)
    else if a.capped != b.capped then Sign(b.capped - a.capped)
    else if a.bonded != b.bonded then Sign(b.bonded - a.bonded)
    else if a.bonusBps != b.bonusBps then Sign(b.bonusBps - a.bonusBps)
    else if a.workHash != b.workHash then Sign(a.workHash - b.workHash)
    else if a.nonce != b.nonce then Sign(a.nonce - b.nonce)
    else Sign(a.bonusCapBps - b.bonusCapBps)
  }

  /** The empty id sorts before every 32-byte one. */
  function RawId(c: Candidate): int
  {
    if c.selectionId.Some? then c.selectionId.value else -1
  }

  /** The candidate with its missing selection id filled in. */
  function Filled(c: Candidate): Candidate
  {
    c.(selectionId := Some(Id(c)))
  }

  lemma TieBreakOrder(a: Candidate, b: Candidate, c: Candidate)
    ensures TieBreak(a, b) == -TieBreak(b, a)
    ensures TieBreak(a, b) == 0 <==> Filled(a) == Filled(b)
    ensures TieBreak(a, b) <= 0 && TieBreak(b, c) <= 0 ==> TieBreak(a, c) <= 0
    ensures TieBreak(a, b) <= 0 && TieBreak(b, c) <= 0 && (TieBreak(a, b) < 0 || TieBreak(b, c) < 0) ==>
      TieBreak(a, c) < 0
  {
  }

  /** Ratios h/s compare transitively by cross products because every s is positive. */
  lemma CrossTransitive(h1: nat, s1: nat, h2: nat, s2: nat, h3: nat, s3: nat)
    requires s1 >= 1 && s2 >= 1 && s3 >= 1
    requires h1 * s2 <= h2 * s1 && h2 * s3 <= h3 * s2
    ensures h1 * s3 <= h3 * s1
    ensures h1 * s2 < h2 * s1 || h2 * s3 < h3 * s2 ==> h1 * s3 < h3 * s1
  {
    ProductBound(h1 * s2, s3, h2 * s1, s3);
    ProductBound(h2 * s3, s1, h3 * s2, s1);
    calc {
      h1 * s3 * s2;
      h1 * s2 * s3;
      <= h2 * s1 * s3;
      h2 * s3 * s1;
      <= h3 * s2 * s1;
      h3 * s1 * s2;
    }
    if h1 * s2 < h2 * s1 {
      Strictly(h1 * s2, h2 * s1, s3);
    }
    if h2 * s3 < h3 * s2 {
      Strictly(h2 * s3, h3 * s2, s1);
    }
    Cancel(h1 * s3, h3 * s1, s2);
  }

  lemma Strictly(x: nat, y: nat, m: nat)
    requires x < y && m >= 1
    ensures x * m < y * m
  {
    Separated(x, y, m);
  }

  lemma Cancel(x: nat, y: nat, m: nat)
    requires m >= 1
    ensures x * m <= y * m ==> x <= y
    ensures x * m < y * m ==> x < y
  {
    if x > y {
      Strictly(y, x, m);
    }
  }

  /** Antisymmetric, and 0 exactly on equal candidates. */
  lemma CompareAntisymmetric(a: Candidate, b: Candidate, hash: nat -> Hash)
    ensures Compare(a, b, hash) == -Compare(b, a, hash)
    ensures Compare(a, b, hash) == 0 <==> a == b
  {
    TieBreakOrder(a, b, a);
  }

  lemma CompareTransitive(a: Candidate, b: Candidate, c: Candidate, hash: nat -> Hash)
    requires Compare(a, b, hash) <= 0 && Compare(b, c, hash) <= 0
    ensures Compare(a, c, hash) <= 0
  {
    CrossTransitive(Prefix64(hash(Id(a))), Strength(a), Prefix64(hash(Id(b))), Strength(b),
                    Prefix64(hash(Id(c))), Strength(c));
    TieBreakOrder(a, b, c);
  }

  // ---------------------------------------------------------------- ranking and selection

  function RankLe(hash: nat -> Hash): (Candidate, Candidate) -> bool
  {
    (a, b) => Compare(a, b, hash) <= 0
  }

  /** The comparator is a total order on candidates, whatever the hash. */
  lemma RankIsTotal(hash: nat -> Hash)
    ensures TotalOrder(RankLe(hash))
  {
    var le := RankLe(hash);
    forall a, b
      ensures le(a, b) || le(b, a)
      ensures le(a, b) && le(b, a) ==> a == b
    {
      CompareAntisymmetric(a, b, hash);
    }
    forall a, b, c | le(a, b) && le(b, c)
      ensures le(a, c)
    {
      CompareTransitive(a, b, c, hash);
    }
  }

  /** rank_finalized_committee_candidates; by RankIsTotal and SortUnique any sort gives this list. */
  function Rank(cs: seq<Candidate>, hash: nat -> Hash): (r: seq<Candidate>)
    ensures |r| == |cs|
  {
    Sort(cs, RankLe(hash))
  }

  /** select_finalized_committee */
  function Select(cs: seq<Candidate>, hash: nat -> Hash, size: nat): (r: seq<Candidate>)
    ensures |r| == Min(size, |cs|)
  {
    Rank(cs, hash)[..Min(size, |cs|)]
  }

  /** Ranking and committee depend only on which candidates there are, not on their order. */
  lemma SelectIgnoresOrder(cs: seq<Candidate>, ds: seq<Candidate>, hash: nat -> Hash, size: nat)
    requires multiset(cs) == multiset(ds)
    ensures Rank(cs, hash) == Rank(ds, hash) && Select(cs, hash, size) == Select(ds, hash, size)
  {
    RankIsTotal(hash);
    SortUnique(cs, ds, RankLe(hash));
    SameMembers(cs, ds);
  }

  /** Every member ranks strictly before every candidate left out: the committee is exactly the least ones. */
  lemma CommitteeIsLeast(cs: seq<Candidate>, hash: nat -> Hash, size: nat)
    ensures forall m :: m in Select(cs, hash, size) ==> m in cs
    ensures forall m, o :: m in Select(cs, hash, size) && o in cs && o !in Select(cs, hash, size) ==>
      Compare(m, o, hash) < 0
  {
    RankIsTotal(hash);
    FirstAreLeast(cs, RankLe(hash), Min(size, |cs|));
    forall m, o | m in Select(cs, hash, size) && o in cs && o !in Select(cs, hash, size)
      ensures Compare(m, o, hash) < 0
    {
      assert RankLe(hash)(m, o) && m != o;
      CompareAntisymmetric(m, o, hash);
    }
  }

  // ---------------------------------------------------------------- how far a ticket can carry

  lemma StrengthBounds(c: Candidate)
    ensures 10_000 * BaseWeight(c) <= Strength(c) <= (10_000 + c.bonusCapBps / 2) * BaseWeight(c)
  {
    var w := BaseWeight(c);
    HalfBonus(c);
    ProductBound(w, 10_000 + AdjustedBonus(c), w, 10_000 + c.bonusCapBps / 2);
    ProductBound(w, 10_000, w, 10_000 + AdjustedBonus(c));
  }

  lemma HalfBonus(c: Candidate)
    ensures AdjustedBonus(c) <= c.bonusCapBps / 2
  {
    var coins := Max(1, c.bonded / BASE_UNITS_PER_COIN);
    var scale := 1 + Isqrt(coins);
    assert scale >= 2;
    QuotientBound(Min(c.bonusBps, c.bonusCapBps), scale, c.bonusCapBps);
  }

  lemma QuotientBound(x: nat, d: nat, cap: nat)
    requires x <= cap && d >= 2
    ensures x / d <= cap / 2
  {
    var q := x / d;
    ProductBound(q, 2, q, d);
    assert q * d <= x;
  }

  /** With a no larger hash prefix, a weight lead of the whole capped bonus outranks any ticket. */
  lemma WeightLeadWins(a: Candidate, b: Candidate, hash: nat -> Hash)
    requires 10_000 * BaseWeight(a) > (10_000 + b.bonusCapBps / 2) * BaseWeight(b)
    requires 0 < Prefix64(hash(Id(b))) && Prefix64(hash(Id(a))) <= Prefix64(hash(Id(b)))
    ensures Compare(a, b, hash) < 0
  {
    StrengthBounds(a);
    StrengthBounds(b);
    var pa, pb, sa, sb := Prefix64(hash(Id(a))), Prefix64(hash(Id(b))), Strength(a), Strength(b);
    ProductBound(pa, sb, pb, sb);
    Strictly(sb, sa, pb);
  }

  // ---------------------------------------------------------------- the node's comparator on machine words

  /** Every field fits the width the node gives it. */
  predicate Words(c: Candidate)
  {
    c.bonded < W64 && c.capped < W64 && c.weight < W64 && c.nonce < W64 && c.bonusBps < W32 && c.bonusCapBps < W32
  }

  /** candidate_strength, whose product wraps at 64 bits. */
  function WrappedStrength(c: Candidate): (s: nat)
    ensures 1 <= s < W64
  {
    Max(1, BaseWeight(c) * (10_000 + AdjustedBonus(c)) % W64)
  }

  predicate StrengthFits(c: Candidate)
  {
    BaseWeight(c) * (10_000 + AdjustedBonus(c)) < W64
  }

  lemma WrapsExactly(c: Candidate)
    ensures WrappedStrength(c) == Strength(c) <==> StrengthFits(c)
  {
  }

  /** Weights that come from a root of a 64-bit bond never wrap under any cap below 2^31 basis points. */
  lemma RootWeightsFit(c: Candidate)
    requires Words(c) && c.bonusCapBps < 0x8000_0000
    requires c.weight == 0 || c.weight == EffectiveWeight(c.capped)
    ensures StrengthFits(c)
  {
    var w := BaseWeight(c);
    var bond := if c.weight == 0 then c.bonded else c.capped;
    if Isqrt(bond) >= W32 {
      ProductBound(W32, W32, Isqrt(bond), Isqrt(bond));
      assert false;
    }
    HalfBonus(c);
    ProductBound(w, 10_000 + AdjustedBonus(c), W32 - 1, 0x4000_0000 + 10_000);
  }

  method CandidateWeight(c: Candidate) returns (w: u64)
    requires Words(c)
    ensures w as int == BaseWeight(c)
  {
    if c.weight != 0 {
      return c.weight as u64;
    }
    var root := IntegerSqrt(c.bonded as u64);
    RootUnique(c.bonded, root as int, Isqrt(c.bonded));
    w := if root > 1 then root else 1;
  }

  method CandidateBonus(c: Candidate) returns (bonus: u64)
    requires Words(c)
    ensures bonus as int == AdjustedBonus(c) < W32
  {
    var bounded: nat := Min(c.bonusBps, c.bonusCapBps);
    var coins := Max(1, c.bonded / BASE_UNITS_PER_COIN);
    var root := IntegerSqrt(coins as u64);
    RootUnique(coins, root as int, Isqrt(coins));
    RootBelow(coins, root as int);
    HalfBonus(c);
    bonus := bounded as u64 / (1 + root);
  }

  method CandidateStrength(c: Candidate) returns (s: u64)
    requires Words(c)
    ensures s as int == WrappedStrength(c)
  {
    var base := CandidateWeight(c);
    var bonus := CandidateBonus(c);
    var product := Wrap(base as int * (10_000 + bonus as int));
    s := if product > 1 then product else 1;
  }

  lemma RootBelow(x: nat, r: nat)
    requires IsRoot(x, r) && x < W64
    ensures r < W32
  {
    if r >= W32 {
      ProductBound(W32, W32, r, r);
      assert false;
    }
  }

  /** The node's selection id: the zero key stands for none, set or not. */
  function NodeId(c: Candidate): nat
  {
    if c.selectionId.Some? && c.selectionId.value != 0 then c.selectionId.value else c.pubkey
  }

  function NodeView(c: Candidate): Candidate
  {
    c.(selectionId := Some(NodeId(c)))
  }

  /** The node's order: its own ids, wrapped strengths, and no raw-id step at the end. */
  function NodeCompare(a: Candidate, b: Candidate, hash: nat -> Hash): int
  {
    CompareBy(NodeView(a), NodeView(b), hash, WrappedStrength)
  }

  method SelectionId(c: Candidate) returns (id: nat)
    ensures id == NodeId(c)
    ensures c.selectionId == None || c.selectionId == Some(0) ==> id == c.pubkey
    ensures c.selectionId != None && c.selectionId != Some(0) ==> c.selectionId == Some(id)
  {
    id := if c.selectionId.Some? then c.selectionId.value else 0;
    if id == 0 {
      id := c.pubkey;
    }
  }

  /** The tie-break chain on the node's ids. */
  method TieRanksBefore(a: Candidate, b: Candidate) returns (less: bool)
    ensures less <==> TieBreak(NodeView(a), NodeView(b)) < 0
  {
    var ia := SelectionId(a);
    var ib := SelectionId(b);
    if ia != ib { return ia < ib; }
    if a.pubkey != b.pubkey { return a.pubkey < b.pubkey; }
    if a.weight != b.weight { return a.weight > b.weight; }
    if a.capped != b.capped { return a.capped > b.capped; }
    if a.bonded != b.bonded { return a.bonded > b.bonded; }
    if a.bonusBps != b.bonusBps { return a.bonusBps > b.bonusBps; }
    if a.workHash != b.workHash { return a.workHash < b.workHash; }
    if a.nonce != b.nonce { return a.nonce < b.nonce; }
    return a.bonusCapBps < b.bonusCapBps;
  }

  /** The node's `less` */
  method RanksBefore(a: Candidate, b: Candidate, hash: nat -> Hash) returns (less: bool)
    requires Words(a) && Words(b)
    ensures less <==> NodeCompare(a, b, hash) < 0
  {
    var ia := SelectionId(a);
    var ib := SelectionId(b);
    var ha, hb := hash(ia), hash(ib);
    var sa := CandidateStrength(a);
    var sb := CandidateStrength(b);
    assert WrappedStrength(a) == WrappedStrength(NodeView(a)) && WrappedStrength(b) == WrappedStrength(NodeView(b));
    var cmp := CompareMulU64(Prefix64(ha) as u64, sb, Prefix64(hb) as u64, sa);
    if cmp != 0 {
      return cmp < 0;
    }
    if ha != hb {
      return ha < hb;
    }
    TieBreakOrder(NodeView(a), NodeView(b), NodeView(a));
    less := TieRanksBefore(a, b);
  }

  // ---------------------------------------------------------------- where the two orders agree

  /** The zero selection id of a candidate with a key: set for the simulator, unset for the node. */
  predicate ZeroId(c: Candidate)
  {
    c.selectionId == Some(0) && c.pubkey != 0
  }

  lemma SameIdExactly(c: Candidate)
    ensures NodeId(c) == Id(c) <==> !ZeroId(c)
  {
  }

  /** A fitting rival that does not differ from `a` only in how the same id is spelled. */
  predicate Rival(a: Candidate, b: Candidate)
  {
    Words(b) && StrengthFits(b) && !ZeroId(b) && (Filled(a) == Filled(b) ==> a == b)
  }

  lemma OrdersAgree(a: Candidate, b: Candidate, hash: nat -> Hash)
    requires StrengthFits(a) && !ZeroId(a) && Rival(a, b)
    ensures NodeCompare(a, b, hash) == Compare(a, b, hash)
  {
    WrapsExactly(a);
    WrapsExactly(b);
    assert NodeView(a) == Filled(a) && NodeView(b) == Filled(b);
    assert WrappedStrength(a) == WrappedStrength(Filled(a)) && WrappedStrength(b) == WrappedStrength(Filled(b));
    assert TieBreak(a, b) == TieBreak(Filled(a), Filled(b));
    TieBreakOrder(a, b, a);
  }

  const PREFIX_UNIT: nat := 0x1_0000_0000_0000_0000_0000_0000_0000_0000_0000_0000_0000_0000

  /** Some hash with the given prefix. */
  function WithPrefix(p: nat): (h: Hash)
    requires p < W64
    ensures Prefix64(h) == p
  {
    p * PREFIX_UNIT
  }

  /** A candidate of strength 10000. */
  function Weak(id: nat): (c: Candidate)
    requires id > 0
    ensures Words(c) && StrengthFits(c) && !ZeroId(c) && Id(c) == NodeId(c) == id
    ensures Strength(c) == WrappedStrength(c) == 10_000
  {
    Candidate(id, Some(id), 0, 0, 1, 0, 0, 0, 0)
  }

  function OtherId(a: Candidate): (id: nat)
    ensures 0 < id <= 3 && id != Id(a) && id != NodeId(a)
  {
    if 1 != Id(a) && 1 != NodeId(a) then 1 else if 2 != Id(a) && 2 != NodeId(a) then 2 else 3
  }

  function HashWith(id: nat, h: Hash, other: nat, g: Hash, rest: Hash): nat -> Hash
  {
    (i: nat) => if i == id then h else if i == other then g else rest
  }

  /** With different cross products the first step decides. */
  lemma FirstStep(a: Candidate, b: Candidate, hash: nat -> Hash, strength: Candidate -> nat, p: nat)
    requires Prefix64(hash(Id(a))) == p && Prefix64(hash(Id(b))) == 1 && strength(b) == 10_000
    ensures p * 10_000 < strength(a) ==> CompareBy(a, b, hash, strength) < 0
    ensures p * 10_000 > strength(a) ==> CompareBy(a, b, hash, strength) > 0
  {
    assert 1 * strength(a) == strength(a);
  }

  lemma Misplaced(a: Candidate, b: Candidate, hash: nat -> Hash, p: nat, q: nat)
    requires b.pubkey > 0 && b == Weak(b.pubkey) && Prefix64(hash(Id(b))) == 1
    requires Prefix64(hash(Id(a))) == p && Prefix64(hash(NodeId(a))) == q
    requires p * 10_000 < Strength(a) && q * 10_000 > WrappedStrength(a)
    ensures Compare(a, b, hash) < 0 < NodeCompare(a, b, hash)
  {
    FirstStep(a, b, hash, Strength, p);
    assert WrappedStrength(NodeView(a)) == WrappedStrength(a) && WrappedStrength(NodeView(b)) == WrappedStrength(b);
    FirstStep(NodeView(a), NodeView(b), hash, WrappedStrength, q);
  }

  lemma WrapLoses(c: Candidate)
    requires !StrengthFits(c)
    ensures Strength(c) >= WrappedStrength(c) + W64 - 1
  {
    var x := BaseWeight(c) * (10_000 + AdjustedBonus(c));
    assert x - x % W64 >= W64;
  }

  lemma NextTenThousand(w: nat) returns (p: nat)
    requires w < W64
    ensures p < W64 && w < p * 10_000 <= w + 10_000
  {
    p := w / 10_000 + 1;
  }

  /** Every candidate whose strength wraps is misplaced against some weak rival. */
  lemma WrapParts(a: Candidate) returns (b: Candidate, hash: nat -> Hash)
    requires !ZeroId(a) && !StrengthFits(a)
    ensures Rival(a, b) && Compare(a, b, hash) < 0 < NodeCompare(a, b, hash)
  {
    WrapLoses(a);
    var p := NextTenThousand(WrappedStrength(a));
    b, hash := Weak(OtherId(a)), HashWith(Id(a), WithPrefix(p), OtherId(a), WithPrefix(1), WithPrefix(0));
    Misplaced(a, b, hash, p, p);
  }

  /** Every candidate with a zero selection id is misplaced against some weak rival. */
  lemma ZeroIdParts(a: Candidate) returns (b: Candidate, hash: nat -> Hash)
    requires ZeroId(a)
    ensures Rival(a, b) && Compare(a, b, hash) < 0 < NodeCompare(a, b, hash)
  {
    b, hash := Weak(OtherId(a)), HashWith(0, WithPrefix(0), OtherId(a), WithPrefix(1), WithPrefix(W64 - 1));
    Misplaced(a, b, hash, 0, W64 - 1);
  }

  /** The node places a candidate as the simulator does, whoever the rival and whatever the hash, exactly on these. */
  lemma OrdersAgreeExactly(a: Candidate)
    ensures StrengthFits(a) && !ZeroId(a) <==>
      forall b: Candidate, hash: nat -> Hash :: Rival(a, b) ==> NodeCompare(a, b, hash) == Compare(a, b, hash)
  {
    if StrengthFits(a) && !ZeroId(a) {
      forall b: Candidate, hash: nat -> Hash | Rival(a, b)
        ensures NodeCompare(a, b, hash) == Compare(a, b, hash)
      {
        OrdersAgree(a, b, hash);
      }
    } else if ZeroId(a) {
      var b, hash := ZeroIdParts(a);
    } else {
      var b, hash := WrapParts(a);
    }
  }
}
