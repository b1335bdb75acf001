/**
 Frontier transitions as a hash chain. A transition commits to its parent through
 prev_finalized_hash, so an idealised (collision-free) transition id is the chain itself.
 */
module Blocks {

  datatype Block = Genesis | Child(parent: Block, round: nat, payload: nat) {

    function Height(): (h: nat)
      ensures Genesis? <==> h == 0
    {
      if Genesis? then 0 else parent.Height() + 1
    }

    /** this is `other` or one of its ancestors. */
    predicate On(other: Block)
    {
      this == other || (other.Child? && On(other.parent))
    }
  }

  lemma {:induction false} OnTransitive(a: Block, b: Block, c: Block)
    requires a.On(b) && b.On(c)
    ensures a.On(c)
    decreases c
  {
    if b != c {
      OnTransitive(a, b, c.parent);
    }
  }

  lemma {:induction false} OnHeight(a: Block, b: Block)
    requires a.On(b)
    ensures a.Height() <= b.Height()
    ensures a.Height() == b.Height() ==> a == b
    decreases b
  {
    if a != b {
      OnHeight(a, b.parent);
    }
  }

  /** Two ancestors of one block are themselves on one chain. */
  lemma {:induction false} OnLinear(a: Block, b: Block, c: Block)
    requires a.On(c) && b.On(c) && a.Height() <= b.Height()
    ensures a.On(b)
    decreases c
  {
    if b != c {
      if a == c {
        OnHeight(b, c);
      } else {
        OnLinear(a, b, c.parent);
      }
    }
  }
}
