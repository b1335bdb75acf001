/**
 The exporter's checkpoint derivation up to its operator inputs (tools/checkpoint_fixture_export.cpp):
 64-bit mode decision, streaming aggregation, and the drop of operators whose key was never set. It builds
 what the simulator builds exactly under the conditions of FormsAgreeExactly.
 */
module Export {
  import opened WideArith
  import opened Sequences
  import opened Hysteresis
  import opened Checkpoint
  import Derivation

  /** Mode, reason, and each operator's representative and bond. */
  datatype Inputs = Inputs(mode: Mode, reason: Reason, operators: map<nat, (nat, nat)>)

  function Representative(g: seq<Validator>): nat
  {
    if g == [] then 0 else LeastKey(g)
  }

  function Simulated(vs: seq<Validator>, av: seq<Availability>, previous: Mode, p: Params): Inputs
  {
    var decided := DeriveMode(previous, CountEligible(av, p), p.minEligible);
    Inputs(decided.0, decided.1, GroupedBonds(Kept(vs, decided.0, av, p)))
  }

  function GroupedBonds(ks: seq<Validator>): map<nat, (nat, nat)>
  {
    map op | op in Ops(ks) :: (Representative(Group(ks, op)), Total(Group(ks, op)))
  }

  /** The counts and minimum fit the exporter's 64-bit fields. */
  predicate Countable(av: seq<Availability>, p: Params)
  {
    CountEligible(av, p) < W64 && p.minEligible < W64
  }

  function Exported(vs: seq<Validator>, av: seq<Availability>, previous: Mode, p: Params): Inputs
    requires Countable(av, p)
  {
    var decided := NodeMode(previous, CountEligible(av, p) as u64, p.minEligible as u64);
    Inputs(decided.0, decided.1, StreamedBonds(Kept(vs, decided.0, av, p)))
  }

  function StreamedBonds(ks: seq<Validator>): map<nat, (nat, nat)>
  {
    map op | op in Ops(ks) && SeedOf(Group(ks, op)).first != 0 ::
      (SeedOf(Group(ks, op)).first, SeedOf(Group(ks, op)).total as int)
  }

  // ---------------------------------------------------------------- the derivation as the exporter runs it

  /** Operators whose key is still zero are skipped. */
  method DropUnset(m: map<nat, Seed>) returns (r: map<nat, (nat, nat)>)
    ensures r == map op | op in m && m[op].first != 0 :: (m[op].first, m[op].total as int)
  {
    var rest := m.Keys;
    r := map[];
    while rest != {}
      invariant rest <= m.Keys
      invariant forall op :: op in r <==> op in m && op !in rest && m[op].first != 0
      invariant forall op :: op in r ==> r[op] == (m[op].first, m[op].total as int)
      decreases |rest|
    {
      var op: nat :| op in rest;
      if m[op].first != 0 {
        r := r[op := (m[op].first, m[op].total as int)];
      }
      rest := rest - {op};
    }
  }

  method DeriveInputs(vs: seq<Validator>, av: seq<Availability>, previous: Mode, p: Params) returns (r: Inputs)
    requires Countable(av, p)
    ensures r == Exported(vs, av, previous, p)
  {
    var count := Derivation.EligibleCount(av, p);
    var mode, reason := DecideMode(previous, count as u64, p.minEligible as u64);
    var ks := Derivation.KeepValidators(vs, mode, av, p);
    var m := StreamOperators(ks);
    var operators := DropUnset(m);
    assert operators == StreamedBonds(ks);
    r := Inputs(mode, reason, operators);
  }

  // ---------------------------------------------------------------- when the two forms agree

  ghost predicate KeysSet(ks: seq<Validator>)
  {
    forall v :: v in ks ==> v.pubkey != 0
  }

  ghost predicate BondsFit(ks: seq<Validator>)
  {
    forall op :: op in Ops(ks) ==> Total(Group(ks, op)) < W64
  }

  /** One operator: kept by the exporter with the simulator's representative and bond. */
  lemma EntryAgrees(g: seq<Validator>)
    requires g != []
    ensures SeedOf(g).first != 0 && SeedOf(g).first == LeastKey(g) && SeedOf(g).total as int == Total(g) <==>
      KeysSet(g) && Total(g) < W64
  {
    SeedKeyExact(g);
    SeedTotal(g);
    LeastKeyIsLeast(g);
    assert g[|g| - 1] in g;
  }

  lemma GroupKeys(ks: seq<Validator>)
    ensures KeysSet(ks) <==> forall op :: op in Ops(ks) ==> KeysSet(Group(ks, op))
  {
    forall op
      ensures forall v :: v in Group(ks, op) <==> v in ks && v.operator == op
    {
      GroupIsFilter(ks, op);
      FilterMembers(ks, RunBy(op));
    }
    if forall op :: op in Ops(ks) ==> KeysSet(Group(ks, op)) {
      forall v | v in ks
        ensures v.pubkey != 0
      {
        assert v in Group(ks, v.operator) && v.operator in Ops(ks);
      }
    }
  }

  /** The exporter's entry of one operator is the simulator's. */
  ghost predicate SameEntry(ks: seq<Validator>, op: nat)
  {
    var seed := SeedOf(Group(ks, op));
    seed.first != 0 && seed.first == Representative(Group(ks, op)) && seed.total as int == Total(Group(ks, op))
  }

  lemma MapsAgree(ks: seq<Validator>)
    ensures StreamedBonds(ks) == GroupedBonds(ks) <==> forall op :: op in Ops(ks) ==> SameEntry(ks, op)
  {
    var s, g := StreamedBonds(ks), GroupedBonds(ks);
    if s == g {
      forall op | op in Ops(ks)
        ensures SameEntry(ks, op)
      {
        assert op in g && op in s && s[op] == g[op];
      }
    }
  }

  lemma BondsAgree(ks: seq<Validator>)
    ensures StreamedBonds(ks) == GroupedBonds(ks) <==> KeysSet(ks) && BondsFit(ks)
  {
    MapsAgree(ks);
    GroupKeys(ks);
    forall op | op in Ops(ks)
      ensures SameEntry(ks, op) <==> KeysSet(Group(ks, op)) && Total(Group(ks, op)) < W64
    {
      EmptyGroup(ks, op);
      EntryAgrees(Group(ks, op));
    }
  }

  /**
   The exporter builds the mode, reason and operators of the simulator exactly when the recovery threshold
   does not wrap, no validator the simulator keeps has the zero key, and every operator's bond fits 64 bits.
   */
  lemma FormsAgreeExactly(vs: seq<Validator>, av: seq<Availability>, previous: Mode, p: Params)
    requires Countable(av, p)
    ensures
      var ks := Kept(vs, Simulated(vs, av, previous, p).mode, av, p);
      Exported(vs, av, previous, p) == Simulated(vs, av, previous, p) <==>
        !ThresholdWraps(previous, CountEligible(av, p), p.minEligible) && KeysSet(ks) && BondsFit(ks)
  {
    ModesAgree(previous, CountEligible(av, p) as u64, p.minEligible as u64);
    BondsAgree(Kept(vs, Simulated(vs, av, previous, p).mode, av, p));
  }
}
