/** The voting committee's quorum arithmetic (consensus::quorum_threshold). */
module Quorum {

  /** Strictly more than two thirds. */
  function Threshold(members: nat): (q: nat)
    ensures 2 * members < 3 * q <= 2 * members + 3
  {
    2 * members / 3 + 1
  }

  lemma SubsetSize<T>(a: set<T>, b: set<T>)
    requires a <= b
    ensures |a| <= |b|
  {
    if a != b {
      assert b == a + (b - a);
    }
  }

  /** Fewer than a third faulty: every quorum holds a correct member. */
  lemma QuorumHasCorrectMember<T>(committee: set<T>, quorum: set<T>, faulty: set<T>) returns (n: T)
    requires quorum <= committee
    requires |quorum| >= Threshold(|committee|)
    requires 3 * |committee * faulty| < |committee|
    ensures n in quorum && n !in faulty
  {
    if quorum <= faulty {
      SubsetSize(quorum, committee * faulty);
      assert false;
    }
    n :| n in quorum && n !in faulty;
  }

  /** Fewer than a third faulty: two quorums share a correct member. */
  lemma QuorumsShareCorrectMember<T>(committee: set<T>, a: set<T>, b: set<T>, faulty: set<T>) returns (n: T)
    requires a <= committee && b <= committee
    requires |a| >= Threshold(|committee|) && |b| >= Threshold(|committee|)
    requires 3 * |committee * faulty| < |committee|
    ensures n in a && n in b && n !in faulty
  {
    assert |a + b| == |a| + |b| - |a * b|;
    SubsetSize(a + b, committee);
    if a * b <= faulty {
      SubsetSize(a * b, committee * faulty);
      assert false;
    }
    n :| n in a * b && n !in faulty;
  }
}
