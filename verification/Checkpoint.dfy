/**
 Checkpoint committee derivation from validator and availability records, in the simulator's
 group-then-min form (scripts/protocol_attack_sim.py) and the exporter's streaming form
 (tools/checkpoint_fixture_export.cpp). Keys are 32-byte strings read as numbers; the all-zero key,
 which the streaming form uses as "not set yet", is 0.
 */
module Checkpoint {
  import opened Options
  import opened WideArith
  import opened Sequences
  import opened Committee
  import opened Hysteresis

  datatype Validator = Validator(pubkey: nat, operator: nat, active: bool, hasBond: bool, genesis: bool, bonded: nat)
  datatype Availability = Availability(operator: nat, active: bool, bond: nat, serviceScore: int, retained: int)
  datatype Params = Params(
    minBond: nat, minEligible: nat, committeeSize: nat, bondMultiple: nat, bonusCapBps: nat, difficulty: nat,
    availabilityMinBond: nat, availabilityMinScore: int)
  datatype TicketResult = TicketResult(hash: nat, nonce: nat, bonusBps: nat)
  datatype Result = Result(eligible: nat, mode: Mode, reason: Reason, committee: seq<Candidate>)

  // ---------------------------------------------------------------- which records take part

  /** availability_eligibility_from_fixture */
  predicate Eligible(a: Availability, p: Params)
  {
    a.active && a.bond >= p.availabilityMinBond
    && a.serviceScore + Isqrt(if a.retained > 0 then a.retained else 0) >= p.availabilityMinScore
  }

  predicate BaseEligible(v: Validator, p: Params)
  {
    v.active && v.hasBond && (v.genesis || v.bonded >= p.minBond)
  }

  /** The record a dictionary keyed by operator ends up holding: the last one. */
  function Lookup(av: seq<Availability>, op: nat): Option<Availability>
  {
    if av == [] then None
    else if av[|av| - 1].operator == op then Some(av[|av| - 1])
    else Lookup(av[..|av| - 1], op)
  }

  predicate Keeps(v: Validator, mode: Mode, av: seq<Availability>, p: Params)
  {
    BaseEligible(v, p) && (mode.Normal? ==> Lookup(av, v.operator).Some? && Eligible(Lookup(av, v.operator).value, p))
  }

  function KeptIn(mode: Mode, av: seq<Availability>, p: Params): Validator -> bool
  {
    v => Keeps(v, mode, av, p)
  }

  function EligibleUnder(p: Params): Availability -> bool
  {
    a => Eligible(a, p)
  }

  function Kept(vs: seq<Validator>, mode: Mode, av: seq<Availability>, p: Params): seq<Validator>
  {
    Filter(vs, KeptIn(mode, av, p))
  }

  function CountEligible(av: seq<Availability>, p: Params): nat
  {
    |Filter(av, EligibleUnder(p))|
  }

  // ---------------------------------------------------------------- an operator's bond and representative

  function Ops(ks: seq<Validator>): set<nat>
  {
    set v | v in ks :: v.operator
  }

  function RunBy(op: nat): Validator -> bool
  {
    (v: Validator) => v.operator == op
  }

  function Bonded(v: Validator): nat
  {
    v.bonded
  }

  /** The operator's validators, in order. */
  function Group(ks: seq<Validator>, op: nat): seq<Validator>
  {
    if ks == [] then []
    else Group(ks[..|ks| - 1], op) + if ks[|ks| - 1].operator == op then [ks[|ks| - 1]] else []
  }

  lemma {:induction false} GroupIsFilter(ks: seq<Validator>, op: nat)
    ensures Group(ks, op) == Filter(ks, RunBy(op))
    decreases |ks|
  {
    if ks != [] {
      GroupIsFilter(ks[..|ks| - 1], op);
    }
  }

  function Total(g: seq<Validator>): nat
  {
    Sum(g, Bonded)
  }

  function LeastKey(g: seq<Validator>): nat
    requires g != []
  {
    var v := g[|g| - 1];
    if |g| == 1 then v.pubkey else Min(LeastKey(g[..|g| - 1]), v.pubkey)
  }

  lemma {:induction false} LeastKeyIsLeast(g: seq<Validator>)
    requires g != []
    ensures exists v :: v in g && v.pubkey == LeastKey(g)
    ensures forall v :: v in g ==> LeastKey(g) <= v.pubkey
    decreases |g|
  {
    var front, v := g[..|g| - 1], g[|g| - 1];
    assert v in g && forall w :: w in g <==> w in front || w == v;
    if |g| > 1 {
      LeastKeyIsLeast(front);
    }
  }

  // ---------------------------------------------------------------- the two aggregation loops

  datatype Seed = Seed(first: nat, total: u64)

  /** One validator streamed into an operator's seed. */
  function Bump(seed: Seed, v: Validator): Seed
  {
    Seed(if seed.first == 0 || v.pubkey < seed.first then v.pubkey else seed.first, Wrap(seed.total as int + v.bonded))
  }

  function SeedOf(g: seq<Validator>): Seed
  {
    if g == [] then Seed(0, 0) else Bump(SeedOf(g[..|g| - 1]), g[|g| - 1])
  }

  /** The streamed total is the bond modulo 2^64. */
  lemma {:induction false} SeedTotal(g: seq<Validator>)
    ensures SeedOf(g).total as int == Total(g) % W64
    decreases |g|
  {
    if g != [] {
      SeedTotal(g[..|g| - 1]);
      AddWrap(Total(g[..|g| - 1]), g[|g| - 1].bonded);
    }
  }

  ghost predicate Seeded(m: map<nat, Seed>, ks: seq<Validator>)
  {
    m.Keys == Ops(ks) && forall op :: op in m ==> m[op] == SeedOf(Group(ks, op))
  }

  function SeedIn(m: map<nat, Seed>, op: nat): Seed
  {
    if op in m then m[op] else Seed(0, 0)
  }

  lemma SeedIs(m: map<nat, Seed>, ks: seq<Validator>, op: nat)
    requires Seeded(m, ks)
    ensures SeedIn(m, op) == SeedOf(Group(ks, op))
  {
    EmptyGroup(ks, op);
  }

  lemma SeedGrow(g: seq<Validator>, v: Validator)
    ensures SeedOf(g + [v]) == Bump(SeedOf(g), v)
  {
    assert (g + [v])[..|g|] == g;
  }

  lemma SeedStep(m: map<nat, Seed>, ks: seq<Validator>, v: Validator)
    requires Seeded(m, ks)
    ensures Seeded(m[v.operator := Bump(SeedIn(m, v.operator), v)], ks + [v])
  {
    var seed := Bump(SeedIn(m, v.operator), v);
    OpsGrow(ks, v);
    forall op | op in m[v.operator := seed]
      ensures m[v.operator := seed][op] == SeedOf(Group(ks + [v], op))
    {
      GroupGrowAt(ks, v, op);
      SeedIs(m, ks, op);
      SeedGrow(Group(ks, op), v);
    }
  }

  /** One validator: running 64-bit sum, running minimum with the zero-key sentinel. */
  method StreamOne(m: map<nat, Seed>, v: Validator) returns (m': map<nat, Seed>)
    ensures m' == m[v.operator := Bump(SeedIn(m, v.operator), v)]
  {
    var seed := if v.operator in m then m[v.operator] else Seed(0, 0);
    seed := seed.(total := Wrap(seed.total as int + v.bonded));
    if seed.first == 0 || v.pubkey < seed.first {
      seed := seed.(first := v.pubkey);
    }
    m' := m[v.operator := seed];
  }

  /** The streaming loop. */
  method StreamOperators(ks: seq<Validator>) returns (m: map<nat, Seed>)
    ensures m.Keys == Ops(ks) && forall op :: op in m ==> m[op] == SeedOf(Group(ks, op))
  {
    m := map[];
    ghost var done: seq<Validator> := [];
    for i := 0 to |ks|
      invariant done == ks[..i] && Seeded(m, done)
    {
      SeedStep(m, done, ks[i]);
      m := StreamOne(m, ks[i]);
      done := done + [ks[i]];
    }
    assert done == ks;
  }

  lemma GroupGrow(ks: seq<Validator>, v: Validator)
    ensures forall op :: Group(ks + [v], op) == if op == v.operator then Group(ks, op) + [v] else Group(ks, op)
  {
    forall op
      ensures Group(ks + [v], op) == if op == v.operator then Group(ks, op) + [v] else Group(ks, op)
    {
      GroupGrowAt(ks, v, op);
    }
  }

  lemma GroupGrowAt(ks: seq<Validator>, v: Validator, op: nat)
    ensures Group(ks + [v], op) == if op == v.operator then Group(ks, op) + [v] else Group(ks, op)
  {
    assert (ks + [v])[..|ks|] == ks;
  }

  lemma OpsGrow(ks: seq<Validator>, v: Validator)
    ensures Ops(ks + [v]) == Ops(ks) + {v.operator}
  {
    forall op
      ensures op in Ops(ks + [v]) <==> op in Ops(ks) || op == v.operator
    {
      if op == v.operator {
        assert v in ks + [v];
      }
      if op in Ops(ks) {
        var w :| w in ks && w.operator == op;
        assert w in ks + [v];
      }
    }
  }

  lemma EmptyGroup(ks: seq<Validator>, op: nat)
    ensures op in Ops(ks) <==> Group(ks, op) != []
  {
    var g := Group(ks, op);
    GroupIsFilter(ks, op);
    FilterMembers(ks, RunBy(op));
    if g != [] {
      assert g[0] in g;
    }
    if op in Ops(ks) {
      var v :| v in ks && v.operator == op;
      assert v in g;
    }
  }

  lemma AddWrap(a: nat, b: nat)
    ensures (a % W64 + b) % W64 == (a + b) % W64
  {
  }

  ghost predicate Grouped(m: map<nat, seq<Validator>>, ks: seq<Validator>)
  {
    m.Keys == Ops(ks) && forall op :: op in m ==> m[op] == Group(ks, op)
  }

  lemma GroupStep(m: map<nat, seq<Validator>>, ks: seq<Validator>, v: Validator, g: seq<Validator>)
    requires Grouped(m, ks) && g == if v.operator in m then m[v.operator] else []
    ensures Grouped(m[v.operator := g + [v]], ks + [v])
  {
    OpsGrow(ks, v);
    GroupGrow(ks, v);
    EmptyGroup(ks, v.operator);
  }

  /** The grouping loop of the simulator. */
  method GroupOperators(ks: seq<Validator>) returns (m: map<nat, seq<Validator>>)
    ensures Grouped(m, ks)
  {
    m := map[];
    ghost var done: seq<Validator> := [];
    for i := 0 to |ks|
      invariant done == ks[..i] && Grouped(m, done)
    {
      var v := ks[i];
      var g := if v.operator in m then m[v.operator] else [];
      GroupStep(m, done, v, g);
      m, done := m[v.operator := g + [v]], done + [v];
    }
    assert done == ks;
  }

  // ---------------------------------------------------------------- when the two forms agree

  ghost predicate ZeroOnlyLast(g: seq<Validator>)
    requires g != []
  {
    g[|g| - 1].pubkey == 0 || forall v :: v in g ==> v.pubkey != 0
  }

  /** The streaming minimum is right exactly when no zero key came before a real one. */
  lemma {:induction false} SeedKeyExact(g: seq<Validator>)
    requires g != []
    ensures SeedOf(g).first == LeastKey(g) <==> ZeroOnlyLast(g)
    ensures SeedOf(g).first >= LeastKey(g)
    ensures SeedOf(g).first == 0 <==> g[|g| - 1].pubkey == 0
    decreases |g|
  {
    if |g| > 1 {
      var front, last := g[..|g| - 1], g[|g| - 1];
      SeedKeyExact(front);
      LeastKeyIsLeast(g);
      assert front[|front| - 1] in front && last in g;
      assert forall v :: v in g <==> v in front || v == last;
    }
  }

  /**
   For one operator the two forms give the same (representative, bond) exactly when the bond fits 64
   bits and no zero key precedes a real one of the operator's.
   */
  lemma FormsAgree(ks: seq<Validator>, op: nat)
    requires op in Ops(ks)
    ensures Group(ks, op) != []
    ensures SeedOf(Group(ks, op)).first == LeastKey(Group(ks, op))
            && SeedOf(Group(ks, op)).total as int == Total(Group(ks, op)) <==>
      ZeroOnlyLast(Group(ks, op)) && Total(Group(ks, op)) < W64
  {
    EmptyGroup(ks, op);
    SeedKeyExact(Group(ks, op));
    SeedTotal(Group(ks, op));
  }

  /** For a registry ordered by key the running minimum is right iff a zero key stands alone. */
  lemma AscendingZero(g: seq<Validator>)
    requires g != [] && forall i, j :: 0 <= i < j < |g| ==> g[i].pubkey < g[j].pubkey
    ensures ZeroOnlyLast(g) <==> |g| == 1 || forall v :: v in g ==> v.pubkey != 0
  {
    assert g[|g| - 1] in g;
    if |g| == 1 {
      assert forall v :: v in g ==> v == g[0];
    } else {
      assert g[0].pubkey < g[|g| - 1].pubkey;
    }
  }
}
