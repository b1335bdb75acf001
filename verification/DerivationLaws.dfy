/**
 What a seat of the derived committee is (scripts/protocol_attack_sim.py, derive_checkpoint_from_fixture), stated on
 the records alone: which validators take part, what an operator's bond adds up to, the cap on it, the weight, the
 representative and the ticket.
 */
module DerivationLaws {
  import opened Options
  import opened WideArith
  import opened Sequences
  import opened Committee
  import opened Hysteresis
  import opened Checkpoint
  import opened Derivation
  import Tickets

  // ---------------------------------------------------------------- who takes part

  /** The score and the root of what is retained reach the minimum together. */
  ghost predicate Reaches(score: int, retained: nat, min: int)
  {
    exists r: nat :: IsRoot(retained, r) && score + r >= min
  }

  ghost predicate Available(a: Availability, p: Params)
  {
    && a.active && a.bond >= p.availabilityMinBond
    && Reaches(a.serviceScore, if a.retained < 0 then 0 else a.retained, p.availabilityMinScore)
  }

  lemma ReachesMeans(score: int, retained: nat, min: int)
    ensures Reaches(score, retained, min) <==> score + Isqrt(retained) >= min
  {
    assert IsRoot(retained, Isqrt(retained));
    if Reaches(score, retained, min) {
      var r: nat :| IsRoot(retained, r) && score + r >= min;
      RootUnique(retained, r, Isqrt(retained));
    }
  }

  /** The record at `i` is the operator's last. */
  ghost predicate LastOf(av: seq<Availability>, i: int, op: nat)
  {
    0 <= i < |av| && av[i].operator == op && forall j :: i < j < |av| ==> av[j].operator != op
  }

  /** An active validator with a bond, large enough unless it is from genesis, whose operator is available. */
  ghost predicate TakesPart(v: Validator, mode: Mode, av: seq<Availability>, p: Params)
  {
    && v.active && v.hasBond && (v.genesis || p.minBond <= v.bonded)
    && (mode.Normal? ==> exists i :: LastOf(av, i, v.operator) && Available(av[i], p))
  }

  /** The bonds of the operator's validators that take part, added up. */
  ghost function BondOf(vs: seq<Validator>, op: nat, mode: Mode, av: seq<Availability>, p: Params): nat
  {
    if vs == [] then 0
    else
      var v := vs[|vs| - 1];
      BondOf(vs[..|vs| - 1], op, mode, av, p) + if v.operator == op && TakesPart(v, mode, av, p) then v.bonded else 0
  }

  lemma AvailableMeans(a: Availability, p: Params)
    ensures Eligible(a, p) <==> Available(a, p)
  {
    ReachesMeans(a.serviceScore, if a.retained < 0 then 0 else a.retained, p.availabilityMinScore);
  }

  lemma {:induction false} LookupIsLast(av: seq<Availability>, op: nat)
    ensures Lookup(av, op).Some? ==> exists i :: LastOf(av, i, op) && av[i] == Lookup(av, op).value
    ensures Lookup(av, op) == None ==> forall i :: !LastOf(av, i, op)
    decreases |av|
  {
    if av != [] {
      var front, n := av[..|av| - 1], |av| - 1;
      LookupIsLast(front, op);
      if av[n].operator == op {
        assert LastOf(av, n, op);
      } else if Lookup(front, op).Some? {
        var i :| LastOf(front, i, op) && front[i] == Lookup(front, op).value;
        assert LastOf(av, i, op);
      } else {
        forall i | LastOf(av, i, op)
          ensures false
        {
          assert LastOf(front, i, op);
        }
      }
    }
  }

  lemma LastIsOne(av: seq<Availability>, i: int, j: int, op: nat)
    requires LastOf(av, i, op) && LastOf(av, j, op)
    ensures i == j
  {
  }

  lemma TakesPartMeans(v: Validator, mode: Mode, av: seq<Availability>, p: Params)
    ensures Keeps(v, mode, av, p) <==> TakesPart(v, mode, av, p)
  {
    var op := v.operator;
    LookupIsLast(av, op);
    if Lookup(av, op).Some? {
      var i :| LastOf(av, i, op) && av[i] == Lookup(av, op).value;
      AvailableMeans(av[i], p);
      forall j | LastOf(av, j, op)
        ensures av[j] == av[i]
      {
        LastIsOne(av, i, j, op);
      }
    }
  }

  ghost function AvailableAt(av: seq<Availability>, p: Params): set<int>
  {
    set i | 0 <= i < |av| && Available(av[i], p)
  }

  lemma OneMoreRecord(av: seq<Availability>, a: Availability, p: Params)
    ensures AvailableAt(av + [a], p) == AvailableAt(av, p) + if Available(a, p) then {|av|} else {}
  {
    var more := av + [a];
    assert forall i :: 0 <= i < |av| ==> more[i] == av[i];
  }

  /** The operators counted are the records that are available, each counted once. */
  lemma {:induction false} CountMeans(av: seq<Availability>, p: Params)
    ensures CountEligible(av, p) == |set i | 0 <= i < |av| && Available(av[i], p)|
    decreases |av|
  {
    assert AvailableAt(av, p) == set i | 0 <= i < |av| && Available(av[i], p);
    if av != [] {
      var front, a := av[..|av| - 1], av[|av| - 1];
      assert av == front + [a];
      CountMeans(front, p);
      FilterGrow(front, a, EligibleUnder(p));
      AvailableMeans(a, p);
      OneMoreRecord(front, a, p);
    }
  }

  // ---------------------------------------------------------------- the bond of an operator

  lemma BondGrows(ks: seq<Validator>, v: Validator, op: nat)
    ensures Total(Group(ks + [v], op)) == Total(Group(ks, op)) + if v.operator == op then v.bonded else 0
  {
    GroupGrowAt(ks, v, op);
    SumGrow(Group(ks, op), v, Bonded);
  }

  /** The bonds of the operator's validators that pass, added up. */
  function SumWhere(vs: seq<Validator>, op: nat, f: Validator -> bool): nat
  {
    if vs == [] then 0
    else
      var v := vs[|vs| - 1];
      SumWhere(vs[..|vs| - 1], op, f) + if v.operator == op && f(v) then v.bonded else 0
  }

  lemma FilterLast(vs: seq<Validator>, f: Validator -> bool)
    requires vs != []
    ensures
      var v := vs[|vs| - 1];
      Filter(vs, f) == Filter(vs[..|vs| - 1], f) + if f(v) then [v] else []
  {
    assert vs == vs[..|vs| - 1] + [vs[|vs| - 1]];
    FilterGrow(vs[..|vs| - 1], vs[|vs| - 1], f);
  }

  lemma TotalStep(ks: seq<Validator>, more: seq<Validator>, v: Validator, takes: bool, op: nat)
    requires more == ks + if takes then [v] else []
    ensures Total(Group(more, op)) == Total(Group(ks, op)) + if v.operator == op && takes then v.bonded else 0
  {
    if takes {
      BondGrows(ks, v, op);
    } else {
      assert more == ks;
    }
  }

  lemma {:induction false} TotalWhere(vs: seq<Validator>, op: nat, f: Validator -> bool)
    ensures Total(Group(Filter(vs, f), op)) == SumWhere(vs, op, f)
    decreases |vs|
  {
    if vs != [] {
      var front, v := vs[..|vs| - 1], vs[|vs| - 1];
      TotalWhere(front, op, f);
      FilterLast(vs, f);
      TotalStep(Filter(front, f), Filter(vs, f), v, f(v), op);
    }
  }

  lemma {:induction false} BondOfWhere(vs: seq<Validator>, op: nat, mode: Mode, av: seq<Availability>, p: Params)
    ensures BondOf(vs, op, mode, av, p) == SumWhere(vs, op, KeptIn(mode, av, p))
    decreases |vs|
  {
    if vs != [] {
      BondOfWhere(vs[..|vs| - 1], op, mode, av, p);
      TakesPartMeans(vs[|vs| - 1], mode, av, p);
    }
  }

  lemma BondIsTotal(vs: seq<Validator>, op: nat, mode: Mode, av: seq<Availability>, p: Params)
    ensures Total(Group(Kept(vs, mode, av, p), op)) == BondOf(vs, op, mode, av, p)
  {
    TotalWhere(vs, op, KeptIn(mode, av, p));
    BondOfWhere(vs, op, mode, av, p);
  }

  lemma GroupMembers(vs: seq<Validator>, op: nat, mode: Mode, av: seq<Availability>, p: Params, v: Validator)
    ensures v in Group(Kept(vs, mode, av, p), op) <==> v in vs && v.operator == op && TakesPart(v, mode, av, p)
  {
    var ks := Kept(vs, mode, av, p);
    GroupIsFilter(ks, op);
    FilterMembers(ks, RunBy(op));
    FilterMembers(vs, KeptIn(mode, av, p));
    TakesPartMeans(v, mode, av, p);
  }

  // ---------------------------------------------------------------- a seat

  /** The seat's bond and weight: the operator's bonds, as far as the cap lets them count, and their root. */
  ghost predicate Weighed(c: Candidate, bond: nat, p: Params)
  {
    && c.bonded == bond && c.capped <= bond && c.capped <= p.bondMultiple * p.minBond
    && (c.capped == bond || c.capped == p.bondMultiple * p.minBond)
    && (if c.capped == 0 then c.weight == 1 else IsRoot(c.capped, c.weight))
  }

  /** The seat's key is the least of the operator's validators that take part. */
  ghost predicate Represents(c: Candidate, vs: seq<Validator>, op: nat, mode: Mode, av: seq<Availability>, p: Params)
  {
    && (exists v :: v in vs && v.operator == op && TakesPart(v, mode, av, p) && v.pubkey == c.pubkey)
    && (forall v :: v in vs && v.operator == op && TakesPart(v, mode, av, p) ==> c.pubkey <= v.pubkey)
  }

  lemma WeighedMeans(ks: seq<Validator>, op: nat, p: Params, ticket: nat -> TicketResult)
    requires op in Ops(ks)
    ensures Weighed(CandidateFor(ks, op, p, ticket), Total(Group(ks, op)), p)
  {
    var c := CandidateFor(ks, op, p, ticket);
    assert IsRoot(c.capped, Isqrt(c.capped));
  }

  lemma RepresentsMeans(vs: seq<Validator>, op: nat, mode: Mode, av: seq<Availability>, p: Params,
                        ticket: nat -> TicketResult)
    requires op in Ops(Kept(vs, mode, av, p))
    ensures Represents(CandidateFor(Kept(vs, mode, av, p), op, p, ticket), vs, op, mode, av, p)
  {
    var ks := Kept(vs, mode, av, p);
    var g := Group(ks, op);
    EmptyGroup(ks, op);
    LeastKeyIsLeast(g);
    forall v
      ensures v in g <==> v in vs && v.operator == op && TakesPart(v, mode, av, p)
    {
      GroupMembers(vs, op, mode, av, p, v);
    }
  }

  /** Every seat, on the records alone: whose it is, its bond, cap, weight and key, and the ticket it was given. */
  lemma SeatMeans(vs: seq<Validator>, av: seq<Availability>, previous: Mode, p: Params, ticket: nat -> TicketResult,
                  hash: nat -> Hash, c: Candidate)
    requires c in Derive(vs, av, previous, p, ticket, hash).committee
    ensures
      var mode, op := Derive(vs, av, previous, p, ticket, hash).mode, Id(c);
      && c.selectionId == Some(op) && Weighed(c, BondOf(vs, op, mode, av, p), p)
      && Represents(c, vs, op, mode, av, p)
      && ticket(op) == TicketResult(c.workHash, c.nonce, c.bonusBps) && c.bonusCapBps == p.bonusCapBps
  {
    var mode, op := Derive(vs, av, previous, p, ticket, hash).mode, Id(c);
    var ks := Kept(vs, mode, av, p);
    CommitteeShape(vs, av, previous, p, ticket, hash);
    WeighedMeans(ks, op, p, ticket);
    BondIsTotal(vs, op, mode, av, p);
    RepresentsMeans(vs, op, mode, av, p, ticket);
  }

  /** The ticket of an operator: the first of its least hashes among the nonces tried, with the bonus it earns. */
  lemma TicketMeans(work: (nat, nat) -> seq<byte>, limit: nat, p: Params, op: nat)
    requires limit > 0
    ensures
      var t := BestTickets(work, limit, p)(op);
      && t.nonce < limit && t.hash == Tickets.Number(work(op, t.nonce))
      && (forall n :: 0 <= n < limit ==> t.hash <= Tickets.Number(work(op, n)))
      && (forall n :: 0 <= n < t.nonce ==> t.hash < Tickets.Number(work(op, n)))
      && t.bonusBps == Tickets.Bonus(Tickets.ZeroBits(work(op, t.nonce)), p.difficulty, p.bonusCapBps)
  {
    var one := WorkOf(work, op);
    Tickets.LeastIsFirst(one, limit);
    assert forall n: nat :: one(n) == work(op, n);
  }

  /** There are as many seats as operators with a validator taking part, up to the committee size. */
  lemma SeatCount(vs: seq<Validator>, av: seq<Availability>, previous: Mode, p: Params, ticket: nat -> TicketResult,
                  hash: nat -> Hash)
    ensures
      var r := Derive(vs, av, previous, p, ticket, hash);
      var ops := set v | v in vs && TakesPart(v, r.mode, av, p) :: v.operator;
      |r.committee| == if p.committeeSize < |ops| then p.committeeSize else |ops|
  {
    var r := Derive(vs, av, previous, p, ticket, hash);
    var ops := set v | v in vs && TakesPart(v, r.mode, av, p) :: v.operator;
    CommitteeShape(vs, av, previous, p, ticket, hash);
    FilterMembers(vs, KeptIn(r.mode, av, p));
    forall v
      ensures Keeps(v, r.mode, av, p) <==> TakesPart(v, r.mode, av, p)
    {
      TakesPartMeans(v, r.mode, av, p);
    }
    assert Ops(Kept(vs, r.mode, av, p)) == ops;
  }

  /** Two operators whose bonds both reach the cap weigh the same, whatever they bonded. */
  lemma CapEqualsWeights(vs: seq<Validator>, av: seq<Availability>, previous: Mode, p: Params,
                         ticket: nat -> TicketResult, hash: nat -> Hash, c: Candidate, d: Candidate)
    requires
      var r := Derive(vs, av, previous, p, ticket, hash);
      c in r.committee && d in r.committee
        && BondOf(vs, Id(c), r.mode, av, p) >= p.bondMultiple * p.minBond
        && BondOf(vs, Id(d), r.mode, av, p) >= p.bondMultiple * p.minBond
    ensures c.weight == d.weight
  {
    SeatMeans(vs, av, previous, p, ticket, hash, c);
    SeatMeans(vs, av, previous, p, ticket, hash, d);
    if c.capped > 0 {
      RootUnique(c.capped, c.weight, d.weight);
    }
  }
}
