/**
 The whole checkpoint derivation: records in, mode and committee out
 (scripts/protocol_attack_sim.py, derive_checkpoint_from_fixture). The ticket hash of an operator and nonce
 and the candidate hash under the epoch seed are parameters.
 */
module Derivation {
  import opened Options
  import opened Sorting
  import opened Sequences
  import opened Committee
  import opened Hysteresis
  import opened Checkpoint
  import Tickets

  // ---------------------------------------------------------------- candidates

  function CandidateFor(ks: seq<Validator>, op: nat, p: Params, ticket: nat -> TicketResult): Candidate
    requires op in Ops(ks)
  {
    EmptyGroup(ks, op);
    FromGroup(Group(ks, op), op, p, ticket)
  }

  function FromGroup(g: seq<Validator>, op: nat, p: Params, ticket: nat -> TicketResult): Candidate
    requires g != []
  {
    var total := Total(g);
    var capped := Min(total, p.bondMultiple * p.minBond);
    Candidate(LeastKey(g), Some(op), total, capped, EffectiveWeight(capped),
              ticket(op).hash, ticket(op).nonce, ticket(op).bonusBps, p.bonusCapBps)
  }

  function CandidatesFor(ks: seq<Validator>, ops: seq<nat>, p: Params,
                         ticket: nat -> TicketResult): (cs: seq<Candidate>)
    requires forall op :: op in ops ==> op in Ops(ks)
    ensures |cs| == |ops|
  {
    if ops == [] then [] else [CandidateFor(ks, ops[0], p, ticket)] + CandidatesFor(ks, ops[1..], p, ticket)
  }

  lemma {:induction false} CandidateAt(ks: seq<Validator>, ops: seq<nat>, p: Params, ticket: nat -> TicketResult,
                                       i: nat)
    requires i < |ops| && forall op :: op in ops ==> op in Ops(ks)
    ensures CandidatesFor(ks, ops, p, ticket)[i] == CandidateFor(ks, ops[i], p, ticket)
  {
    if i > 0 {
      CandidateAt(ks, ops[1..], p, ticket, i - 1);
    }
  }

  ghost function Candidates(ks: seq<Validator>, p: Params, ticket: nat -> TicketResult): seq<Candidate>
  {
    CandidatesFor(ks, Ascending(Ops(ks)), p, ticket)
  }

  ghost function Derive(vs: seq<Validator>, av: seq<Availability>, previous: Mode, p: Params,
                        ticket: nat -> TicketResult, hash: nat -> Hash): Result
  {
    var eligible := CountEligible(av, p);
    var decided := DeriveMode(previous, eligible, p.minEligible);
    Result(eligible, decided.0, decided.1,
           Select(Candidates(Kept(vs, decided.0, av, p), p, ticket), hash, p.committeeSize))
  }

  // ---------------------------------------------------------------- the derivation as the simulator runs it

  method EligibleCount(av: seq<Availability>, p: Params) returns (count: nat)
    ensures count == CountEligible(av, p)
  {
    count := 0;
    ghost var done: seq<Availability> := [];
    for i := 0 to |av|
      invariant done == av[..i] && count == |Filter(done, EligibleUnder(p))|
    {
      FilterGrow(done, av[i], EligibleUnder(p));
      if Eligible(av[i], p) {
        count := count + 1;
      }
      done := done + [av[i]];
    }
    assert done == av;
  }

  method KeepValidators(vs: seq<Validator>, mode: Mode, av: seq<Availability>, p: Params) returns (ks: seq<Validator>)
    ensures ks == Kept(vs, mode, av, p)
  {
    ks := [];
    ghost var done: seq<Validator> := [];
    for i := 0 to |vs|
      invariant done == vs[..i] && ks == Kept(done, mode, av, p)
    {
      FilterGrow(done, vs[i], KeptIn(mode, av, p));
      if Keeps(vs[i], mode, av, p) {
        ks := ks + [vs[i]];
      }
      done := done + [vs[i]];
    }
    assert done == vs;
  }

  /** The ticket hash of each nonce of one operator. */
  function WorkOf(work: (nat, nat) -> seq<byte>, op: nat): nat -> seq<byte>
  {
    (n: nat) => work(op, n)
  }

  /** Each operator's best ticket. */
  function BestTickets(work: (nat, nat) -> seq<byte>, limit: nat, p: Params): nat -> TicketResult
    requires limit > 0
  {
    (op: nat) => Found(Tickets.TicketOf(WorkOf(work, op), limit, p.difficulty, p.bonusCapBps))
  }

  function Found(t: Tickets.Ticket): TicketResult
  {
    TicketResult(Tickets.Number(t.hash), t.nonce, t.bonus)
  }

  method SumBonds(g: seq<Validator>) returns (total: nat)
    ensures total == Total(g)
  {
    total := 0;
    ghost var done: seq<Validator> := [];
    for i := 0 to |g|
      invariant done == g[..i] && total == Total(done)
    {
      SumGrow(done, g[i], Bonded);
      total, done := total + g[i].bonded, done + [g[i]];
    }
    assert done == g;
  }

  method LeastPubkey(g: seq<Validator>) returns (key: nat)
    requires g != []
    ensures key == LeastKey(g)
  {
    key := g[0].pubkey;
    for i := 1 to |g|
      invariant key == LeastKey(g[..i])
    {
      assert g[..i + 1][..i] == g[..i];
      if g[i].pubkey < key {
        key := g[i].pubkey;
      }
    }
    assert g[..|g|] == g;
  }

  /** One operator: representative, bond, weight and the ticket search. */
  method BuildCandidate(g: seq<Validator>, op: nat, p: Params, work: (nat, nat) -> seq<byte>, limit: nat)
    returns (c: Candidate)
    requires g != [] && limit > 0 && forall o, n :: |work(o, n)| == 32
    ensures c == FromGroup(g, op, p, BestTickets(work, limit, p))
    ensures c.capped <= c.bonded && c.capped <= p.bondMultiple * p.minBond
    ensures c.capped == c.bonded || c.capped == p.bondMultiple * p.minBond
    ensures c.selectionId == Some(op) && c.nonce < limit && c.workHash == Tickets.Number(work(op, c.nonce))
  {
    var rep := LeastPubkey(g);
    var total := SumBonds(g);
    var capped := if total < p.bondMultiple * p.minBond then total else p.bondMultiple * p.minBond;
    var ticket := Tickets.BestTicket(WorkOf(work, op), limit, p.difficulty, p.bonusCapBps);
    var t := ticket.value;
    c := Candidate(rep, Some(op), total, capped, EffectiveWeight(capped),
                   Tickets.Number(t.hash), t.nonce, t.bonus, p.bonusCapBps);
  }

  /** The candidate list, one operator at a time. */
  method BuildCandidates(groups: map<nat, seq<Validator>>, ghost ks: seq<Validator>, ops: seq<nat>, p: Params,
                         work: (nat, nat) -> seq<byte>, limit: nat) returns (cs: seq<Candidate>)
    requires Grouped(groups, ks) && forall op :: op in ops ==> op in Ops(ks)
    requires limit > 0 && forall o, n :: |work(o, n)| == 32
    ensures cs == CandidatesFor(ks, ops, p, BestTickets(work, limit, p))
  {
    cs := [];
    for i := 0 to |ops|
      invariant |cs| == i
      invariant forall j :: 0 <= j < i ==> cs[j] == CandidatesFor(ks, ops, p, BestTickets(work, limit, p))[j]
    {
      CandidateAt(ks, ops, p, BestTickets(work, limit, p), i);
      EmptyGroup(ks, ops[i]);
      var c := BuildCandidate(groups[ops[i]], ops[i], p, work, limit);
      cs := cs + [c];
    }
  }

  method DeriveCheckpoint(vs: seq<Validator>, av: seq<Availability>, previous: Mode, p: Params,
                          work: (nat, nat) -> seq<byte>, limit: nat, hash: nat -> Hash) returns (r: Result)
    requires limit > 0 && forall o, n :: |work(o, n)| == 32
    ensures r == Derive(vs, av, previous, p, BestTickets(work, limit, p), hash)
  {
    var eligible := EligibleCount(av, p);
    var decided := DeriveMode(previous, eligible, p.minEligible);
    var ks := KeepValidators(vs, decided.0, av, p);
    var groups := GroupOperators(ks);
    var ops := SortKeys(groups.Keys);
    var cs := BuildCandidates(groups, ks, ops, p, work, limit);
    r := Result(eligible, decided.0, decided.1, Select(cs, hash, p.committeeSize));
  }

  // ---------------------------------------------------------------- one seat per operator

  ghost predicate DistinctIds(cs: seq<Candidate>)
  {
    forall i, j :: 0 <= i < j < |cs| ==> Id(cs[i]) != Id(cs[j])
  }

  lemma CandidateId(ks: seq<Validator>, op: nat, p: Params, ticket: nat -> TicketResult)
    requires op in Ops(ks)
    ensures Id(CandidateFor(ks, op, p, ticket)) == op
  {
  }

  lemma CandidateIds(ks: seq<Validator>, p: Params, ticket: nat -> TicketResult)
    ensures DistinctIds(Candidates(ks, p, ticket))
    ensures |Candidates(ks, p, ticket)| == |Ops(ks)|
    ensures forall c :: c in Candidates(ks, p, ticket) ==> Id(c) in Ops(ks) && c == CandidateFor(ks, Id(c), p, ticket)
  {
    var ops, cs := Ascending(Ops(ks)), Candidates(ks, p, ticket);
    AscendingSorted(Ops(ks));
    forall i | 0 <= i < |cs|
      ensures Id(cs[i]) == ops[i] && cs[i] == CandidateFor(ks, ops[i], p, ticket)
    {
      CandidateAt(ks, ops, p, ticket, i);
      CandidateId(ks, ops[i], p, ticket);
    }
    forall c | c in cs
      ensures Id(c) in Ops(ks) && c == CandidateFor(ks, Id(c), p, ticket)
    {
      var i :| 0 <= i < |cs| && cs[i] == c;
      assert ops[i] in ops;
    }
  }

  lemma DistinctAnyOrder(cs: seq<Candidate>, ds: seq<Candidate>)
    requires multiset(cs) == multiset(ds) && DistinctIds(cs)
    ensures DistinctIds(ds)
  {
    SameMembers(cs, ds);
    forall i, j | 0 <= i < j < |ds|
      ensures Id(ds[i]) != Id(ds[j])
    {
      assert ds[i] in cs && ds[j] in cs;
      if Id(ds[i]) == Id(ds[j]) {
        assert ds[i] == ds[j];
        TwiceIsTwo(ds, i, j);
        var a, b := TwoIsTwice(cs, ds[i]);
      }
    }
  }

  /**
   The committee has min(K, candidate operators) seats, one per operator, each seated by the
   operator's own group, and in NORMAL mode only operators whose availability record is eligible.
   */
  lemma CommitteeShape(vs: seq<Validator>, av: seq<Availability>, previous: Mode, p: Params,
                       ticket: nat -> TicketResult, hash: nat -> Hash)
    ensures
      var r := Derive(vs, av, previous, p, ticket, hash);
      var ks := Kept(vs, r.mode, av, p);
      && |r.committee| == Min(p.committeeSize, |Ops(ks)|)
      && DistinctIds(r.committee)
      && (forall c :: c in r.committee ==> Id(c) in Ops(ks) && c == CandidateFor(ks, Id(c), p, ticket))
      && (r.mode.Normal? ==> forall c :: c in r.committee ==>
            Lookup(av, Id(c)).Some? && Eligible(Lookup(av, Id(c)).value, p))
  {
    var r := Derive(vs, av, previous, p, ticket, hash);
    var ks := Kept(vs, r.mode, av, p);
    var cs := Candidates(ks, p, ticket);
    CandidateIds(ks, p, ticket);
    RankIsTotal(hash);
    SortSorts(cs, RankLe(hash));
    DistinctAnyOrder(cs, Rank(cs, hash));
    CommitteeIsLeast(cs, hash, p.committeeSize);
    if r.mode.Normal? {
      forall c | c in r.committee
        ensures Lookup(av, Id(c)).Some? && Eligible(Lookup(av, Id(c)).value, p)
      {
        KeptEligible(vs, r.mode, av, p, Id(c));
      }
    }
  }

  lemma KeptEligible(vs: seq<Validator>, mode: Mode, av: seq<Availability>, p: Params, op: nat)
    requires mode.Normal? && op in Ops(Kept(vs, mode, av, p))
    ensures Lookup(av, op).Some? && Eligible(Lookup(av, op).value, p)
  {
    FilterMembers(vs, KeptIn(mode, av, p));
  }

  // ---------------------------------------------------------------- only the record sets matter

  /** The operator has availability records of both kinds, so the last one listed decides. */
  ghost predicate Mixed(av: seq<Availability>, op: nat, p: Params)
  {
    exists a, b :: a in av && b in av && a.operator == op && b.operator == op && Eligible(a, p) && !Eligible(b, p)
  }

  /** No operator with a validator that could take part has records of both kinds. */
  ghost predicate Unmixed(vs: seq<Validator>, av: seq<Availability>, p: Params)
  {
    forall v :: v in vs && BaseEligible(v, p) ==> !Mixed(av, v.operator, p)
  }

  ghost function ModeOf(av: seq<Availability>, previous: Mode, p: Params): Mode
  {
    DeriveMode(previous, CountEligible(av, p), p.minEligible).0
  }

  lemma {:induction false} LookupMeans(av: seq<Availability>, op: nat)
    ensures Lookup(av, op).Some? ==> Lookup(av, op).value in av && Lookup(av, op).value.operator == op
    ensures Lookup(av, op) == None ==> forall a :: a in av ==> a.operator != op
    decreases |av|
  {
    if av != [] {
      LookupMeans(av[..|av| - 1], op);
      assert av == av[..|av| - 1] + [av[|av| - 1]];
    }
  }

  /** Whatever the order, an unmixed operator is eligible iff some record of it is. */
  lemma KeepsUnmixed(v: Validator, mode: Mode, av: seq<Availability>, p: Params)
    requires BaseEligible(v, p) ==> !Mixed(av, v.operator, p)
    ensures Keeps(v, mode, av, p) <==>
      BaseEligible(v, p) && (mode.Normal? ==> exists a :: a in av && a.operator == v.operator && Eligible(a, p))
  {
    LookupMeans(av, v.operator);
  }

  lemma MixedSame(av: seq<Availability>, av': seq<Availability>, op: nat, p: Params)
    requires forall a :: a in av <==> a in av'
    ensures Mixed(av, op, p) <==> Mixed(av', op, p)
  {
  }

  lemma KeptSame(vs: seq<Validator>, vs': seq<Validator>, mode: Mode, av: seq<Availability>, av': seq<Availability>,
                 p: Params)
    requires multiset(vs) == multiset(vs') && multiset(av) == multiset(av') && (mode.Normal? ==> Unmixed(vs, av, p))
    ensures multiset(Kept(vs, mode, av, p)) == multiset(Kept(vs', mode, av', p))
  {
    SameMembers(vs, vs');
    SameMembers(av, av');
    forall v | v in vs'
      ensures Keeps(v, mode, av, p) == Keeps(v, mode, av', p)
    {
      if mode.Normal? && BaseEligible(v, p) {
        MixedSame(av, av', v.operator, p);
        KeepsUnmixed(v, mode, av, p);
        KeepsUnmixed(v, mode, av', p);
      }
    }
    FilterAgree(vs', KeptIn(mode, av, p), KeptIn(mode, av', p));
    FilterSame(vs, vs', KeptIn(mode, av, p));
  }

  lemma LeastKeySame(g: seq<Validator>, h: seq<Validator>)
    requires g != [] && h != [] && forall v :: v in g <==> v in h
    ensures LeastKey(g) == LeastKey(h)
  {
    LeastKeyIsLeast(g);
    LeastKeyIsLeast(h);
  }

  lemma CandidateSame(ks: seq<Validator>, ks': seq<Validator>, op: nat, p: Params, ticket: nat -> TicketResult)
    requires multiset(ks) == multiset(ks') && op in Ops(ks) && op in Ops(ks')
    ensures CandidateFor(ks, op, p, ticket) == CandidateFor(ks', op, p, ticket)
  {
    var g, h := Group(ks, op), Group(ks', op);
    EmptyGroup(ks, op);
    EmptyGroup(ks', op);
    GroupIsFilter(ks, op);
    GroupIsFilter(ks', op);
    FilterSame(ks, ks', RunBy(op));
    SameMembers(g, h);
    SumSame(g, h, Bonded);
    LeastKeySame(g, h);
  }

  lemma {:induction false} CandidatesSame(ks: seq<Validator>, ks': seq<Validator>, ops: seq<nat>, p: Params,
                                          ticket: nat -> TicketResult)
    requires multiset(ks) == multiset(ks') && forall op :: op in ops ==> op in Ops(ks) && op in Ops(ks')
    ensures CandidatesFor(ks, ops, p, ticket) == CandidatesFor(ks', ops, p, ticket)
    decreases |ops|
  {
    if ops != [] {
      CandidateSame(ks, ks', ops[0], p, ticket);
      CandidatesSame(ks, ks', ops[1..], p, ticket);
    }
  }

  lemma CountSame(av: seq<Availability>, av': seq<Availability>, p: Params)
    requires multiset(av) == multiset(av')
    ensures CountEligible(av, p) == CountEligible(av', p)
  {
    FilterSame(av, av', EligibleUnder(p));
    SameMembers(Filter(av, EligibleUnder(p)), Filter(av', EligibleUnder(p)));
  }

  /** The derivation depends only on which records there are, not on how they are listed. */
  lemma RecordsOnly(vs: seq<Validator>, vs': seq<Validator>, av: seq<Availability>, av': seq<Availability>,
                    previous: Mode, p: Params, ticket: nat -> TicketResult, hash: nat -> Hash)
    requires multiset(vs) == multiset(vs') && multiset(av) == multiset(av')
    requires ModeOf(av, previous, p).Normal? ==> Unmixed(vs, av, p)
    ensures Derive(vs, av, previous, p, ticket, hash) == Derive(vs', av', previous, p, ticket, hash)
  {
    CountSame(av, av', p);
    var mode := ModeOf(av, previous, p);
    var ks, ks' := Kept(vs, mode, av, p), Kept(vs', mode, av', p);
    KeptSame(vs, vs', mode, av, av', p);
    SameMembers(ks, ks');
    assert Ops(ks) == Ops(ks');
    CandidatesSame(ks, ks', Ascending(Ops(ks)), p, ticket);
  }

  // ---------------------------------------------------------------- and where their order shows

  lemma MoveLast(av: seq<Availability>, x: Availability) returns (av': seq<Availability>)
    requires x in av
    ensures multiset(av') == multiset(av) && Lookup(av', x.operator) == Some(x)
  {
    var before, after := Around(av, x);
    av' := before + after + [x];
  }

  /** A hash under which the operator comes first. */
  function Favouring(op: nat): nat -> Hash
  {
    HashWith(op, WithPrefix(0), op, WithPrefix(0), WithPrefix(1))
  }

  lemma FavouredFirst(m: Candidate, c: Candidate, op: nat)
    requires Id(c) == op && Id(m) != op
    ensures Compare(m, c, Favouring(op)) > 0
  {
    assert Prefix64(Favouring(op)(Id(m))) == 1 && Prefix64(Favouring(op)(Id(c))) == 0;
    assert 1 * Strength(c) > 0 * Strength(m);
  }

  lemma {:induction false} IsCandidate(ks: seq<Validator>, op: nat, p: Params, ticket: nat -> TicketResult)
    requires op in Ops(ks)
    ensures CandidateFor(ks, op, p, ticket) in Candidates(ks, p, ticket)
  {
    var ops := Ascending(Ops(ks));
    var i :| 0 <= i < |ops| && ops[i] == op;
    CandidateAt(ks, ops, p, ticket, i);
  }

  lemma FavouredSeated(ks: seq<Validator>, op: nat, p: Params, ticket: nat -> TicketResult, size: nat)
    requires op in Ops(ks) && size > 0
    ensures CandidateFor(ks, op, p, ticket) in Select(Candidates(ks, p, ticket), Favouring(op), size)
  {
    var cs, c := Candidates(ks, p, ticket), CandidateFor(ks, op, p, ticket);
    var seats := Select(cs, Favouring(op), size);
    IsCandidate(ks, op, p, ticket);
    CommitteeIsLeast(cs, Favouring(op), size);
    if c !in seats {
      var m := seats[0];
      assert m in seats && m in cs;
      CandidateIds(ks, p, ticket);
      FavouredFirst(m, c, op);
    }
  }

  lemma ListedKept(vs: seq<Validator>, v: Validator, av: seq<Availability>, x: Availability, p: Params)
    requires v in vs && BaseEligible(v, p) && Lookup(av, v.operator) == Some(x)
    ensures v.operator in Ops(Kept(vs, Normal, av, p)) <==> Eligible(x, p)
  {
    FilterMembers(vs, KeptIn(Normal, av, p));
    if Eligible(x, p) {
      assert v in Kept(vs, Normal, av, p);
    }
  }

  /** In normal mode a mixed operator with a seat to win is seated or not, as its records are listed. */
  lemma MixedShows(vs: seq<Validator>, v: Validator, av: seq<Availability>, previous: Mode, p: Params,
                   ticket: nat -> TicketResult) returns (av1: seq<Availability>, av2: seq<Availability>)
    requires p.committeeSize > 0 && ModeOf(av, previous, p).Normal?
    requires v in vs && BaseEligible(v, p) && Mixed(av, v.operator, p)
    ensures multiset(av1) == multiset(av) == multiset(av2)
    ensures Derive(vs, av1, previous, p, ticket, Favouring(v.operator)) !=
      Derive(vs, av2, previous, p, ticket, Favouring(v.operator))
  {
    var op := v.operator;
    var a, b :| a in av && b in av && a.operator == op && b.operator == op && Eligible(a, p) && !Eligible(b, p);
    av1 := MoveLast(av, a);
    av2 := MoveLast(av, b);
    CountSame(av, av1, p);
    CountSame(av, av2, p);
    ListedKept(vs, v, av1, a, p);
    ListedKept(vs, v, av2, b, p);
    var ks1 := Kept(vs, Normal, av1, p);
    FavouredSeated(ks1, op, p, ticket, p.committeeSize);
    CandidateId(ks1, op, p, ticket);
    CommitteeShape(vs, av2, previous, p, ticket, Favouring(op));
  }

  ghost predicate OrderShows(vs: seq<Validator>, av: seq<Availability>, previous: Mode, p: Params,
                             ticket: nat -> TicketResult, av': seq<Availability>, hash: nat -> Hash)
  {
    && multiset(av) == multiset(av')
    && Derive(vs, av, previous, p, ticket, hash) != Derive(vs, av', previous, p, ticket, hash)
  }

  /**
   Listing the availability records in another order changes the result under some hash exactly when there
   is a seat, the mode is normal, and an operator of a base-eligible validator has records of both kinds.
   */
  lemma OrderShowsExactly(vs: seq<Validator>, av: seq<Availability>, previous: Mode, p: Params,
                          ticket: nat -> TicketResult)
    ensures p.committeeSize > 0 && ModeOf(av, previous, p).Normal? && !Unmixed(vs, av, p) <==>
      exists av': seq<Availability>, hash: nat -> Hash :: OrderShows(vs, av, previous, p, ticket, av', hash)
  {
    if p.committeeSize > 0 && ModeOf(av, previous, p).Normal? && !Unmixed(vs, av, p) {
      var v :| v in vs && BaseEligible(v, p) && Mixed(av, v.operator, p);
      var av1, av2 := MixedShows(vs, v, av, previous, p, ticket);
      assert OrderShows(vs, av, previous, p, ticket, av1, Favouring(v.operator)) ||
        OrderShows(vs, av, previous, p, ticket, av2, Favouring(v.operator));
    } else {
      forall av': seq<Availability>, hash: nat -> Hash
        ensures !OrderShows(vs, av, previous, p, ticket, av', hash)
      {
        if multiset(av) == multiset(av') {
          OrderHidden(vs, av, av', previous, p, ticket, hash);
        }
      }
    }
  }

  lemma OrderHidden(vs: seq<Validator>, av: seq<Availability>, av': seq<Availability>, previous: Mode, p: Params,
                    ticket: nat -> TicketResult, hash: nat -> Hash)
    requires multiset(av) == multiset(av')
    requires p.committeeSize == 0 || (ModeOf(av, previous, p).Normal? ==> Unmixed(vs, av, p))
    ensures Derive(vs, av, previous, p, ticket, hash) == Derive(vs, av', previous, p, ticket, hash)
  {
    if p.committeeSize > 0 {
      RecordsOnly(vs, vs, av, av', previous, p, ticket, hash);
    } else {
      CountSame(av, av', p);
      assert Derive(vs, av, previous, p, ticket, hash).committee == [];
      assert Derive(vs, av', previous, p, ticket, hash).committee == [];
    }
  }

  /** One validator whose operator has an eligible and an ineligible record: listed last, each decides. */
  lemma RelistedCommittee(ticket: nat -> TicketResult, hash: nat -> Hash)
    ensures
      var p := Params(0, 0, 1, 1, 0, 0, 0, 0);
      var vs := [Validator(5, 7, true, true, true, 0)];
      var up, down := Availability(7, true, 0, 0, 0), Availability(7, false, 0, 0, 0);
      && |Derive(vs, [down, up], Normal, p, ticket, hash).committee| == 1
      && |Derive(vs, [up, down], Normal, p, ticket, hash).committee| == 0
  {
    var p := Params(0, 0, 1, 1, 0, 0, 0, 0);
    var v := Validator(5, 7, true, true, true, 0);
    var up, down := Availability(7, true, 0, 0, 0), Availability(7, false, 0, 0, 0);
    CommitteeShape([v], [down, up], Normal, p, ticket, hash);
    CommitteeShape([v], [up, down], Normal, p, ticket, hash);
    OneValidator(v, [down, up], up, p);
    OneValidator(v, [up, down], down, p);
  }

  lemma OneValidator(v: Validator, av: seq<Availability>, x: Availability, p: Params)
    requires BaseEligible(v, p) && Lookup(av, v.operator) == Some(x)
    ensures |Ops(Kept([v], Normal, av, p))| == if Eligible(x, p) then 1 else 0
  {
    FilterMembers([v], KeptIn(Normal, av, p));
    assert Ops(Kept([v], Normal, av, p)) == if Eligible(x, p) then {v.operator} else {};
  }
}
