/** The Merkle root level loop (src/common/merkle.cpp). The pair hash is a parameter. */
module Merkle {
  import opened Options
  import opened WideArith

  // ---------------------------------------------------------------- the tree, from the root down

  function Width(n: nat, k: nat): nat
  {
    if k == 0 then n else (Width(n, k - 1) + 1) / 2
  }

  /** Node i at level k combines its children 2i and 2i + 1, or the last node twice at an odd end. */
  function Node<T>(leaves: seq<T>, k: nat, i: nat, hash: (T, T) -> T): T
    requires i < Width(|leaves|, k)
  {
    if k == 0 then leaves[i]
    else
      var last := Width(|leaves|, k - 1) - 1;
      hash(Node(leaves, k - 1, 2 * i, hash), Node(leaves, k - 1, if 2 * i + 1 < last then 2 * i + 1 else last, hash))
  }

  /** The number of levels above the leaves. */
  function Depth(n: nat): nat
  {
    if n <= 1 then 0 else 1 + Depth((n + 1) / 2)
  }

  lemma {:induction false} DepthIsOne(n: nat, k: nat)
    requires n >= 1 && k <= Depth(n)
    ensures Width(n, k) >= 1 && Depth(Width(n, k)) == Depth(n) - k
    ensures Width(n, k) == 1 <==> k == Depth(n)
    decreases k
  {
    if k > 0 {
      DepthIsOne(n, k - 1);
    }
  }

  function Root<T>(leaves: seq<T>, hash: (T, T) -> T): T
    requires leaves != []
  {
    DepthIsOne(|leaves|, Depth(|leaves|));
    Node(leaves, Depth(|leaves|), 0, hash)
  }

  // ---------------------------------------------------------------- the loop

  /** One level: the padded pairs hashed. */
  method NextLevel<T>(level: seq<T>, hash: (T, T) -> T) returns (next: seq<T>)
    requires |level| > 1
    ensures |next| == (|level| + 1) / 2
    ensures forall i :: 0 <= i < |next| ==>
              next[i] == hash(level[2 * i], level[if 2 * i + 1 < |level| - 1 then 2 * i + 1 else |level| - 1])
  {
    var padded := level;
    if |padded| % 2 == 1 {
      padded := padded + [padded[|padded| - 1]];
    }
    next := [];
    var i := 0;
    while i < |padded|
      invariant 0 <= i <= |padded| && i == 2 * |next|
      invariant forall j :: 0 <= j < |next| ==> next[j] == hash(padded[2 * j], padded[2 * j + 1])
    {
      next := next + [hash(padded[i], padded[i + 1])];
      i := i + 2;
    }
  }

  /** compute_merkle_root_from_leaves */
  method MerkleRoot<T>(leaves: seq<T>, hash: (T, T) -> T) returns (root: Option<T>)
    ensures leaves == [] <==> root == None
    ensures leaves != [] ==> root == Some(Root(leaves, hash))
  {
    if leaves == [] {
      return None;
    }
    var level := leaves;
    ghost var k := 0;
    while |level| > 1
      invariant k <= Depth(|leaves|) && |level| == Width(|leaves|, k) >= 1
      invariant forall i :: 0 <= i < |level| ==> level[i] == Node(leaves, k, i, hash)
      decreases |level|
    {
      DepthIsOne(|leaves|, k);
      level := NextLevel(level, hash);
      k := k + 1;
    }
    DepthIsOne(|leaves|, k);
    return Some(level[0]);
  }

  // ---------------------------------------------------------------- the root, split in halves

  /**
   The root of a tree of the given depth, from the leaves alone: the first 2^(depth - 1) leaves on the left and the
   rest on the right; a tree too small for a right half stands on both sides.
   */
  function Halved<T>(leaves: seq<T>, depth: nat, hash: (T, T) -> T): T
    requires 0 < |leaves| <= Pow2(depth)
  {
    if depth == 0 then leaves[0]
    else
      var half := Pow2(depth - 1);
      if |leaves| <= half then
        var both := Halved(leaves, depth - 1, hash);
        hash(both, both)
      else hash(Halved(leaves[..half], depth - 1, hash), Halved(leaves[half..], depth - 1, hash))
  }

  lemma Doubled(i: nat, p: nat)
    ensures 2 * i * p == i * (2 * p) && (2 * i + 1) * p == i * (2 * p) + p && (i + 1) * (2 * p) == i * (2 * p) + 2 * p
  {
  }

  /** Level k has a node for every 2^k leaves begun. */
  lemma {:induction false} WidthMeans(n: nat, k: nat, i: nat)
    ensures i < Width(n, k) <==> i * Pow2(k) < n
    decreases k
  {
    if k > 0 {
      WidthMeans(n, k - 1, 2 * i);
      Doubled(i, Pow2(k - 1));
    }
  }

  /** The leaves from lo on, at most `most` of them. */
  function Part<T>(leaves: seq<T>, lo: nat, most: nat): seq<T>
    requires lo <= |leaves|
  {
    leaves[lo..if lo + most < |leaves| then lo + most else |leaves|]
  }

  lemma HalvedStep<T>(leaves: seq<T>, lo: nat, depth: nat, hash: (T, T) -> T)
    requires depth > 0 && lo < |leaves|
    ensures
      var half := Pow2(depth - 1);
      && 0 < |Part(leaves, lo, Pow2(depth))| <= Pow2(depth) && 0 < |Part(leaves, lo, half)| <= half
      && (lo + half < |leaves| ==> 0 < |Part(leaves, lo + half, half)| <= half)
      && Halved(Part(leaves, lo, Pow2(depth)), depth, hash) ==
         var left := Halved(Part(leaves, lo, half), depth - 1, hash);
         hash(left, if lo + half < |leaves| then Halved(Part(leaves, lo + half, half), depth - 1, hash) else left)
  {
    var half, part := Pow2(depth - 1), Part(leaves, lo, Pow2(depth));
    if lo + half < |leaves| {
      assert part[..half] == Part(leaves, lo, half) && part[half..] == Part(leaves, lo + half, half);
    } else {
      assert part == Part(leaves, lo, half);
    }
  }

  lemma {:induction false} NodeIsHalved<T>(leaves: seq<T>, k: nat, i: nat, hash: (T, T) -> T, lo: nat)
    requires i < Width(|leaves|, k) && lo == i * Pow2(k)
    ensures lo < |leaves| && Node(leaves, k, i, hash) == Halved(Part(leaves, lo, Pow2(k)), k, hash)
    decreases k
  {
    WidthMeans(|leaves|, k, i);
    if k > 0 {
      var half := Pow2(k - 1);
      Doubled(i, half);
      WidthMeans(|leaves|, k - 1, 2 * i);
      WidthMeans(|leaves|, k - 1, 2 * i + 1);
      NodeIsHalved(leaves, k - 1, 2 * i, hash, lo);
      if lo + half < |leaves| {
        NodeIsHalved(leaves, k - 1, 2 * i + 1, hash, lo + half);
      }
      HalvedStep(leaves, lo, k, hash);
    }
  }

  /** The level loop's root is that of the leaves split in halves, left before right, all the way down. */
  lemma RootIsHalved<T>(leaves: seq<T>, hash: (T, T) -> T)
    requires leaves != []
    ensures |leaves| <= Pow2(Depth(|leaves|)) && Root(leaves, hash) == Halved(leaves, Depth(|leaves|), hash)
  {
    var d := Depth(|leaves|);
    DepthIsOne(|leaves|, d);
    WidthMeans(|leaves|, d, 1);
    NodeIsHalved(leaves, d, 0, hash, 0);
    assert Part(leaves, 0, Pow2(d)) == leaves;
  }

  // ---------------------------------------------------------------- the root commits to the leaves

  /** The two nodes that node i of level k is the hash of. */
  function Children<T>(leaves: seq<T>, k: nat, i: nat, hash: (T, T) -> T): (T, T)
    requires k > 0 && i < Width(|leaves|, k)
  {
    var last := Width(|leaves|, k - 1) - 1;
    (Node(leaves, k - 1, 2 * i, hash), Node(leaves, k - 1, if 2 * i + 1 < last then 2 * i + 1 else last, hash))
  }

  ghost predicate SameLevel<T>(a: seq<T>, b: seq<T>, k: nat, hash: (T, T) -> T)
    requires |a| == |b|
  {
    forall i :: 0 <= i < Width(|a|, k) ==> Node(a, k, i, hash) == Node(b, k, i, hash)
  }

  /** The same node in both trees, from different children: two pairs that collide under the hash. */
  ghost predicate CollidesAt<T>(a: seq<T>, b: seq<T>, k: nat, i: nat, hash: (T, T) -> T)
    requires |a| == |b|
  {
    && k > 0 && i < Width(|a|, k)
    && Children(a, k, i, hash) != Children(b, k, i, hash)
    && hash(Children(a, k, i, hash).0, Children(a, k, i, hash).1)
       == hash(Children(b, k, i, hash).0, Children(b, k, i, hash).1)
  }

  /** Equal nodes on one level over different nodes on the level below. */
  lemma LevelBelow<T>(a: seq<T>, b: seq<T>, k: nat, hash: (T, T) -> T) returns (i: nat)
    requires |a| == |b| && k > 0 && SameLevel(a, b, k, hash) && !SameLevel(a, b, k - 1, hash)
    ensures CollidesAt(a, b, k, i, hash)
  {
    var below := k - 1;
    var j :| 0 <= j < Width(|a|, below) && Node(a, below, j, hash) != Node(b, below, j, hash);
    i := j / 2;
    assert Node(a, k, i, hash) == Node(b, k, i, hash);
  }

  lemma {:induction false} LevelsBelow<T>(a: seq<T>, b: seq<T>, top: nat, hash: (T, T) -> T) returns (k: nat, i: nat)
    requires |a| == |b| && a != b && SameLevel(a, b, top, hash)
    ensures k <= top && CollidesAt(a, b, k, i, hash)
    decreases top
  {
    if top == 0 {
      assert forall j :: 0 <= j < |a| ==> Node(a, 0, j, hash) == a[j] && Node(b, 0, j, hash) == b[j];
      assert false;
    } else if SameLevel(a, b, top - 1, hash) {
      k, i := LevelsBelow(a, b, top - 1, hash);
    } else {
      k := top;
      i := LevelBelow(a, b, top, hash);
    }
  }

  /** Different leaf lists of equal length with one root give a collision of the hash, inside the two trees. */
  lemma RootBinds<T>(a: seq<T>, b: seq<T>, hash: (T, T) -> T) returns (k: nat, i: nat)
    requires a != [] && |a| == |b| && a != b && Root(a, hash) == Root(b, hash)
    ensures k <= Depth(|a|) && CollidesAt(a, b, k, i, hash)
  {
    DepthIsOne(|a|, Depth(|a|));
    k, i := LevelsBelow(a, b, Depth(|a|), hash);
  }

  // ---------------------------------------------------------------- and not to their number

  lemma {:induction false} SameAbove<T>(a: seq<T>, b: seq<T>, k: nat, hash: (T, T) -> T)
    requires k >= 1 && Width(|a|, 1) == Width(|b|, 1)
    requires forall i :: 0 <= i < Width(|a|, 1) ==> Node(a, 1, i, hash) == Node(b, 1, i, hash)
    ensures Width(|a|, k) == Width(|b|, k)
    ensures forall i :: 0 <= i < Width(|a|, k) ==> Node(a, k, i, hash) == Node(b, k, i, hash)
    decreases k
  {
    if k > 1 {
      SameAbove(a, b, k - 1, hash);
    }
  }

  /** The equal-length condition is needed: an odd list and the list with its last leaf repeated share a root. */
  lemma OddListsPad<T>(leaves: seq<T>, hash: (T, T) -> T)
    requires |leaves| % 2 == 1 && |leaves| > 1
    ensures Root(leaves + [leaves[|leaves| - 1]], hash) == Root(leaves, hash)
  {
    var padded := leaves + [leaves[|leaves| - 1]];
    forall i | 0 <= i < Width(|leaves|, 1)
      ensures Node(leaves, 1, i, hash) == Node(padded, 1, i, hash)
    {
      assert Width(|leaves|, 0) == |leaves|;
    }
    assert (|padded| + 1) / 2 == (|leaves| + 1) / 2;
    SameAbove(leaves, padded, Depth(|leaves|), hash);
    DepthIsOne(|leaves|, Depth(|leaves|));
  }

  /** A full binary tree of height k over copies of one value. */
  function Tower<T>(x: T, k: nat, hash: (T, T) -> T): T
  {
    if k == 0 then x else hash(Tower(x, k - 1, hash), Tower(x, k - 1, hash))
  }

  lemma {:induction false} TowerJoin<T>(x: T, j: nat, k: nat, hash: (T, T) -> T)
    ensures Tower(Tower(x, j, hash), k, hash) == Tower(x, j + k, hash)
    decreases k
  {
    if k > 0 {
      TowerJoin(x, j, k - 1, hash);
    }
  }

  lemma {:induction false} EqualLeaves<T>(leaves: seq<T>, x: T, k: nat, i: nat, hash: (T, T) -> T)
    requires (forall j :: 0 <= j < |leaves| ==> leaves[j] == x) && i < Width(|leaves|, k)
    ensures Node(leaves, k, i, hash) == Tower(x, k, hash)
    decreases k
  {
    if k > 0 {
      var last := Width(|leaves|, k - 1) - 1;
      EqualLeaves(leaves, x, k - 1, 2 * i, hash);
      EqualLeaves(leaves, x, k - 1, if 2 * i + 1 < last then 2 * i + 1 else last, hash);
    }
  }

  lemma EqualRoot<T>(n: nat, x: T, hash: (T, T) -> T)
    requires n > 0
    ensures Root(seq(n, _ => x), hash) == Tower(x, Depth(n), hash)
  {
    DepthIsOne(n, Depth(n));
    EqualLeaves(seq(n, _ => x), x, Depth(n), 0, hash);
  }

  /** Whatever the hash, every two lengths have lists that share a root. */
  lemma LengthsClash<T>(m: nat, n: nat, x: T, hash: (T, T) -> T) returns (a: seq<T>, b: seq<T>)
    requires m > 0 && n > 0
    ensures |a| == m && |b| == n && Root(a, hash) == Root(b, hash)
  {
    var top := if Depth(m) > Depth(n) then Depth(m) else Depth(n);
    var y, z := Tower(x, top - Depth(m), hash), Tower(x, top - Depth(n), hash);
    a, b := seq(m, _ => y), seq(n, _ => z);
    EqualRoot(m, y, hash);
    EqualRoot(n, z, hash);
    TowerJoin(x, top - Depth(m), Depth(m), hash);
    TowerJoin(x, top - Depth(n), Depth(n), hash);
  }

  /** Hashes as terms: the pair hash with no collisions at all. */
  datatype Term = Leaf(id: nat) | Pair(left: Term, right: Term)

  function PairHash(): (Term, Term) -> Term
  {
    (a: Term, b: Term) => Pair(a, b)
  }

  /** Even with a hash that never collides, the root determines the leaves exactly among lists of one length. */
  lemma RootBindsExactly(m: nat, n: nat)
    requires m > 0 && n > 0
    ensures m == n <==>
      forall a: seq<Term>, b: seq<Term> :: |a| == m && |b| == n && Root(a, PairHash()) == Root(b, PairHash()) ==> a == b
  {
    if m == n {
      forall a: seq<Term>, b: seq<Term> | |a| == m && |b| == n && Root(a, PairHash()) == Root(b, PairHash())
        ensures a == b
      {
        if a != b {
          var k, i := RootBinds(a, b, PairHash());
        }
      }
    } else {
      var a, b := LengthsClash(m, n, Leaf(0), PairHash());
    }
  }
}
