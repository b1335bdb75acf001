/**
 Choosing the inputs of a confidential transfer (apps/finalis-wallet/confidential_send.cpp): largest first, at
 most sixteen.
 */
module CoinSelection {
  import opened Options
  import opened WideArith
  import opened Sorting
  import opened Sequences

  const MAX_INPUTS: nat := 16

  /** A 64-bit amount. */
  type Units = x: int | 0 <= x < W64

  datatype OutPoint = OutPoint(txid: nat, index: nat)
  datatype Coin = Coin(point: OutPoint, amount: Units)

  /** A stored coin record; `readable` is whether its key material decodes. */
  datatype Record = Record(coin: Coin, spent: bool, readable: bool)

  datatype Error = ZeroAmount | Overflow | Short(covered: nat, needed: nat)
  datatype Outcome = Refused(error: Error) | Plan(inputs: seq<Coin>, inputTotal: nat, change: nat)

  predicate Usable(r: Record, reserved: set<OutPoint>)
  {
    !r.spent && r.readable && r.coin.point !in reserved
  }

  /** The unspent, readable, unreserved coins, in record order. */
  function Candidates(records: seq<Record>, reserved: set<OutPoint>): seq<Coin>
  {
    if records == [] then []
    else
      var last := records[|records| - 1];
      Candidates(records[..|records| - 1], reserved) + if Usable(last, reserved) then [last.coin] else []
  }

  function Amount(c: Coin): nat
  {
    c.amount
  }

  function Total(cs: seq<Coin>): nat
  {
    Sum(cs, Amount)
  }

  /** Larger amounts first, then by outpoint. */
  function Before(): (Coin, Coin) -> bool
  {
    (a: Coin, b: Coin) =>
      if a.amount != b.amount then a.amount > b.amount
      else if a.point.txid != b.point.txid then a.point.txid < b.point.txid
      else a.point.index <= b.point.index
  }

  lemma BeforeIsTotal()
    ensures TotalOrder(Before())
  {
  }

  /** A choice of coins from those on offer. */
  ghost predicate From(choice: seq<Coin>, coins: seq<Coin>)
  {
    multiset(choice) <= multiset(coins)
  }

  ghost function Offers(records: seq<Record>, reserved: set<OutPoint>, c: Coin): set<int>
  {
    set i | 0 <= i < |records| && records[i] == Record(c, false, true) && c.point !in reserved
  }

  ghost predicate OnOffer(r: Record, reserved: set<OutPoint>, c: Coin)
  {
    r == Record(c, false, true) && c.point !in reserved
  }

  lemma OneMoreRecord(records: seq<Record>, r: Record, reserved: set<OutPoint>, c: Coin)
    ensures |Offers(records + [r], reserved, c)| ==
      |Offers(records, reserved, c)| + if OnOffer(r, reserved, c) then 1 else 0
  {
    var was, n, all := Offers(records, reserved, c), |records|, records + [r];
    assert forall i :: 0 <= i < n ==> all[i] == records[i];
    assert Offers(all, reserved, c) == if OnOffer(r, reserved, c) then was + {n} else was;
  }

  lemma OneMoreCandidate(records: seq<Record>, r: Record, reserved: set<OutPoint>, c: Coin)
    ensures multiset(Candidates(records + [r], reserved))[c] ==
      multiset(Candidates(records, reserved))[c] + if OnOffer(r, reserved, c) then 1 else 0
  {
    assert (records + [r])[..|records|] == records;
  }

  /** A coin is on offer once for every record of it that is unspent and readable, unless it is reserved. */
  lemma {:induction false} CandidatesMean(records: seq<Record>, reserved: set<OutPoint>, c: Coin)
    ensures multiset(Candidates(records, reserved))[c] == |Offers(records, reserved, c)|
    decreases |records|
  {
    if records != [] {
      var front, r := records[..|records| - 1], records[|records| - 1];
      assert records == front + [r];
      CandidatesMean(front, reserved, c);
      OneMoreRecord(front, r, reserved, c);
      OneMoreCandidate(front, r, reserved, c);
    }
  }

  // ---------------------------------------------------------------- nothing beats the largest coins

  ghost predicate Descending(s: seq<Coin>)
  {
    forall i, j :: 0 <= i < j < |s| ==> s[i].amount >= s[j].amount
  }

  lemma LeaveHead(choice: multiset<Coin>, s: seq<Coin>, x: Coin)
    requires choice <= multiset(s) && s != [] && (x == s[0] || s[0] !in choice)
    ensures choice - multiset{x} <= multiset(s[1..])
  {
    assert s == [s[0]] + s[1..];
  }

  lemma HeadIsLargest(s: seq<Coin>, x: Coin)
    requires Descending(s) && x in s
    ensures x.amount <= s[0].amount
  {
    var i :| 0 <= i < |s| && s[i] == x;
  }

  lemma DropOne(choice: seq<Coin>, s: seq<Coin>) returns (x: Coin, rest: seq<Coin>)
    requires From(choice, s) && choice != [] && s != [] && Descending(s)
    ensures From(rest, s[1..]) && |rest| == |choice| - 1 && Total(choice) == Total(rest) + x.amount
      && x.amount <= s[0].amount
  {
    x := if s[0] in choice then s[0] else choice[0];
    assert x in multiset(choice);
    assert x in multiset(s);
    HeadIsLargest(s, x);
    var a, b := Around(choice, x);
    rest := a + b;
    SumMiddle(a, x, b, Amount);
    LeaveHead(multiset(choice), s, x);
  }

  /** Any k coins are worth at most the k largest. */
  lemma {:induction false} LargestCover(choice: seq<Coin>, s: seq<Coin>)
    requires From(choice, s) && Descending(s)
    ensures |choice| <= |s| && Total(choice) <= Total(s[..|choice|])
    decreases |s|
  {
    assert |choice| == |multiset(choice)| && |s| == |multiset(s)|;
    if choice != [] {
      assert choice[0] in multiset(choice);
      assert choice[0] in multiset(s);
      assert s != [];
      var x, rest := DropOne(choice, s);
      LargestCover(rest, s[1..]);
      var k := |rest|;
      assert s[..k + 1] == [s[0]] + s[1..][..k];
      SumSplit([s[0]], s[1..][..k], Amount);
    }
  }

  // ---------------------------------------------------------------- the selection

  /** How many of the sorted coins the loop takes. */
  ghost predicate Taken(s: seq<Coin>, k: nat, target: nat)
  {
    && k <= |s| && k <= MAX_INPUTS
    && (forall i :: 0 <= i < k ==> Total(s[..i]) < target)
    && (Total(s[..k]) >= target || k == MAX_INPUTS || k == |s|)
  }

  /** The coin that covers the target takes the running total past 64 bits. */
  ghost predicate Overshoots(s: seq<Coin>, target: nat)
  {
    exists k :: 0 <= k < |s| && k < MAX_INPUTS && Total(s[..k]) < target && Total(s[..k + 1]) >= W64
  }

  lemma {:induction false} PrefixTotal(s: seq<Coin>, i: nat, j: nat)
    requires i <= j <= |s|
    ensures Total(s[..i]) <= Total(s[..j])
    decreases j - i
  {
    if i < j {
      PrefixTotal(s, i, j - 1);
      assert s[..j] == s[..j - 1] + [s[j - 1]];
      SumGrow(s[..j - 1], s[j - 1], Amount);
    }
  }

  lemma OneMoreCoin(s: seq<Coin>, k: nat)
    requires k < |s|
    ensures Total(s[..k + 1]) == Total(s[..k]) + s[k].amount
  {
    assert s[..k + 1] == s[..k] + [s[k]];
    SumGrow(s[..k], s[k], Amount);
  }

  /** Two coins of 2^63 units and a target just short of their sum. */
  lemma SumsCanOvershoot()
    ensures exists s, target: nat :: Descending(s) && target < W64 && Overshoots(s, target)
  {
    var c, d := Coin(OutPoint(0, 0), 0x8000_0000_0000_0000), Coin(OutPoint(0, 1), 0x8000_0000_0000_0000);
    var s := [c, d];
    assert s[..0] == [] && s[..1] == [c];
    OneMoreCoin(s, 0);
    OneMoreCoin(s, 1);
    assert Overshoots(s, 0xFFFF_FFFF_FFFF_FFFF);
  }

  lemma NoOvershoot(s: seq<Coin>, k: nat, target: nat)
    requires Taken(s, k, target) && forall i :: 0 < i <= k ==> Total(s[..i]) < W64
    ensures !Overshoots(s, target)
  {
    forall j | k <= j < |s| && j < MAX_INPUTS
      ensures Total(s[..j]) >= target
    {
      PrefixTotal(s, k, j);
    }
  }

  /**
   The selection loop over the sorted candidates, with its 64-bit running total. When that wraps, the
   loop goes on past a covering prefix, or ends short of the target.
   */
  method Select(s: seq<Coin>, target: u64) returns (k: nat, total: u64)
    ensures k <= |s| && k <= MAX_INPUTS
    ensures !Overshoots(s, target as int) ==> Taken(s, k, target as int) && total as int == Total(s[..k])
    ensures Overshoots(s, target as int) && total >= target ==> exists i :: 0 <= i < k && Total(s[..i]) >= target as int
  {
    k, total := 0, 0;
    ghost var wrapped := false;
    while k < |s| && total < target && k < MAX_INPUTS
      invariant k <= |s| && k <= MAX_INPUTS
      invariant !wrapped ==> total as int == Total(s[..k]) && forall i :: 0 <= i < k ==> Total(s[..i]) < target as int
      invariant !wrapped ==> forall i :: 0 < i <= k ==> Total(s[..i]) < W64
      invariant wrapped ==> Overshoots(s, target as int) && Total(s[..k]) >= W64
      invariant wrapped ==> total < target || exists i :: 0 <= i < k && Total(s[..i]) >= target as int
    {
      OneMoreCoin(s, k);
      wrapped := wrapped || total as int + s[k].amount >= W64;
      total := Wrap(total as int + s[k].amount);
      k := k + 1;
    }
    if !wrapped {
      NoOvershoot(s, k, target as int);
    }
  }

  /** Some choice of at most sixteen coins covers the target. */
  ghost predicate Coverable(coins: seq<Coin>, target: nat)
  {
    exists choice :: From(choice, coins) && |choice| <= 16 && Total(choice) >= target
  }

  /** What a plan's inputs must be: a covering choice, smallest in number, whose change is below every coin in it. */
  ghost predicate Optimal(inputs: seq<Coin>, coins: seq<Coin>, target: nat)
  {
    && From(inputs, coins) && |inputs| <= 16 && Total(inputs) >= target
    && (forall choice :: From(choice, coins) && Total(choice) >= target ==> |choice| >= |inputs|)
    && (forall c :: c in inputs ==> Total(inputs) - target < c.amount)
  }

  lemma TakenIsOptimal(coins: seq<Coin>, s: seq<Coin>, k: nat, target: nat)
    requires multiset(s) == multiset(coins) && Descending(s) && Taken(s, k, target) && target > 0
    ensures Total(s[..k]) >= target ==> Optimal(s[..k], coins, target)
    ensures Coverable(coins, target) <==> Total(s[..k]) >= target
  {
    PrefixFrom(s, coins, k);
    forall choice | From(choice, coins) && Total(choice) >= target
      ensures Total(s[..k]) >= target ==> |choice| >= k
      ensures |choice| <= MAX_INPUTS ==> Total(s[..k]) >= target
    {
      LargestCover(choice, s);
      if |choice| <= k {
        PrefixTotal(s, |choice|, k);
      }
    }
    if Total(s[..k]) >= target {
      assert k > 0 by { assert s[..0] == []; }
      ChangeSmall(s, k, target);
    }
  }

  lemma PrefixFrom(s: seq<Coin>, coins: seq<Coin>, k: nat)
    requires multiset(s) == multiset(coins) && k <= |s|
    ensures From(s[..k], coins)
  {
    assert s == s[..k] + s[k..];
  }

  lemma ChangeSmall(s: seq<Coin>, k: nat, target: nat)
    requires Descending(s) && 0 < k <= |s| && Total(s[..k - 1]) < target
    ensures forall c :: c in s[..k] ==> Total(s[..k]) - target < c.amount
  {
    assert s[..k] == s[..k - 1] + [s[k - 1]];
    SumGrow(s[..k - 1], s[k - 1], Amount);
  }

  lemma SortedDescending(coins: seq<Coin>)
    ensures Descending(Sort(coins, Before())) && multiset(Sort(coins, Before())) == multiset(coins)
    ensures Sorted(Sort(coins, Before()), Before())
  {
    BeforeIsTotal();
    SortSorts(coins, Before());
  }

  method Collect(records: seq<Record>, reserved: set<OutPoint>) returns (coins: seq<Coin>)
    ensures coins == Candidates(records, reserved)
  {
    coins := [];
    for i := 0 to |records|
      invariant coins == Candidates(records[..i], reserved)
    {
      assert records[..i + 1][..i] == records[..i];
      if Usable(records[i], reserved) {
        coins := coins + [records[i].coin];
      }
    }
    assert records[..|records|] == records;
  }

  /** A covering prefix shorter than the chosen one: the choice is not the smallest. */
  lemma PastCover(coins: seq<Coin>, s: seq<Coin>, i: nat, k: nat, target: nat)
    requires multiset(s) == multiset(coins) && i < k <= |s| && Total(s[..i]) >= target
    ensures !Optimal(s[..k], coins, target)
  {
    PrefixFrom(s, coins, i);
    assert |s[..i]| < |s[..k]|;
  }

  lemma OvershootCovers(coins: seq<Coin>, s: seq<Coin>, target: nat)
    requires multiset(s) == multiset(coins) && Overshoots(s, target) && target < W64
    ensures Coverable(coins, target)
  {
    var k :| 0 <= k < |s| && k < MAX_INPUTS && Total(s[..k]) < target && Total(s[..k + 1]) >= W64;
    PrefixFrom(s, coins, k + 1);
  }

  /** The larger amount goes first; between equal amounts the smaller transaction id, then the smaller index. */
  ghost predicate GoesFirst(a: Coin, b: Coin)
  {
    || a.amount > b.amount
    || (a.amount == b.amount
        && (a.point.txid < b.point.txid || (a.point.txid == b.point.txid && a.point.index <= b.point.index)))
  }

  /** The inputs are in order, and every one goes before every coin left over. */
  ghost predicate FirstOnes(inputs: seq<Coin>, coins: seq<Coin>)
  {
    && (forall i, j :: 0 <= i < j < |inputs| ==> GoesFirst(inputs[i], inputs[j]))
    && forall i, o :: 0 <= i < |inputs| && o in multiset(coins) - multiset(inputs) ==> GoesFirst(inputs[i], o)
  }

  /** The most that sixteen coins are worth. */
  ghost predicate Most(total: nat, coins: seq<Coin>)
  {
    && (exists choice :: From(choice, coins) && |choice| <= 16 && Total(choice) == total)
    && forall choice :: From(choice, coins) && |choice| <= 16 ==> Total(choice) <= total
  }

  lemma PrefixGoesFirst(coins: seq<Coin>, s: seq<Coin>, k: nat)
    requires multiset(s) == multiset(coins) && Sorted(s, Before()) && k <= |s|
    ensures FirstOnes(s[..k], coins)
  {
    var inputs, left := s[..k], s[k..];
    assert s == inputs + left;
    assert multiset(coins) - multiset(inputs) == multiset(left);
    forall i, o | 0 <= i < |inputs| && o in multiset(left)
      ensures GoesFirst(inputs[i], o)
    {
      var j :| 0 <= j < |left| && left[j] == o;
      assert Before()(s[i], s[k + j]);
    }
    forall i, j | 0 <= i < j < |inputs|
      ensures GoesFirst(inputs[i], inputs[j])
    {
      assert Before()(s[i], s[j]);
    }
  }

  lemma ShortIsMost(coins: seq<Coin>, s: seq<Coin>, k: nat, target: nat)
    requires multiset(s) == multiset(coins) && Descending(s) && Taken(s, k, target) && Total(s[..k]) < target
    ensures Most(Total(s[..k]), coins)
  {
    PrefixFrom(s, coins, k);
    forall choice | From(choice, coins) && |choice| <= 16
      ensures Total(choice) <= Total(s[..k])
    {
      LargestCover(choice, s);
      PrefixTotal(s, |choice|, k);
    }
  }

  /** An optimal choice when there is one; after an overshoot a needlessly large one, or none although there is one. */
  ghost predicate Chosen(inputs: seq<Coin>, total: nat, coins: seq<Coin>, target: nat, over: bool)
  {
    if over then Coverable(coins, target) && (total >= target ==> !Optimal(inputs, coins, target))
    else
      && total == Total(inputs) && (total >= target <==> Coverable(coins, target))
      && (if total >= target then Optimal(inputs, coins, target) && FirstOnes(inputs, coins) else Most(total, coins))
  }

  /** Sorting and selecting: the chosen prefix and its total, right exactly when that does not overshoot. */
  method Choose(coins: seq<Coin>, target: u64) returns (inputs: seq<Coin>, total: u64)
    requires target > 0
    ensures Chosen(inputs, total as int, coins, target as int, Overshoots(Sort(coins, Before()), target as int))
  {
    var sorted := Sort(coins, Before());
    SortedDescending(coins);
    var k;
    k, total := Select(sorted, target);
    inputs := sorted[..k];
    if !Overshoots(sorted, target as int) {
      TakenIsOptimal(coins, sorted, k, target as int);
      PrefixGoesFirst(coins, sorted, k);
      if total < target {
        ShortIsMost(coins, sorted, k, target as int);
      }
    } else {
      OvershootCovers(coins, sorted, target as int);
      if total >= target {
        var i :| 0 <= i < k && Total(sorted[..i]) >= target as int;
        PastCover(coins, sorted, i, k, target as int);
      }
    }
  }

  /**
   What the plan promises: it succeeds exactly when some choice covers, with an optimal choice of the first coins
   and a balance; otherwise it says what was needed and how much sixteen coins are worth at most.
   */
  ghost predicate Planned(r: Outcome, coins: seq<Coin>, amount: nat, fee: nat)
  {
    && (r.Plan? <==> Coverable(coins, amount + fee))
    && (r.Plan? ==>
          && Optimal(r.inputs, coins, amount + fee) && FirstOnes(r.inputs, coins)
          && r.inputTotal == Total(r.inputs) == amount + r.change + fee)
    && (r.Refused? ==> r.error.Short? && r.error.needed == amount + fee && Most(r.error.covered, coins))
  }

  /**
   The coin selection and value balance of plan_confidential_transfer. The promise holds exactly when the
   running total of the sorted coins does not overshoot 64 bits.
   */
  method PlanTransfer(records: seq<Record>, reserved: set<OutPoint>, amount: u64, fee: u64) returns (r: Outcome)
    ensures r == Refused(ZeroAmount) <==> amount == 0
    ensures r == Refused(Overflow) <==> amount > 0 && amount as int + fee as int >= W64
    ensures amount > 0 && amount as int + fee as int < W64 ==>
      (Planned(r, Candidates(records, reserved), amount as int, fee as int) <==>
       !Overshoots(Sort(Candidates(records, reserved), Before()), amount as int + fee as int))
  {
    if amount == 0 {
      return Refused(ZeroAmount);
    }
    var target := AddChecked(amount, fee);
    if target == None {
      return Refused(Overflow);
    }
    var coins := Collect(records, reserved);
    r := PlanFor(coins, amount, fee, target.value);
  }

  /** `target < amount` after the wrapping sum means it overflowed. */
  method AddChecked(amount: u64, fee: u64) returns (r: Option<u64>)
    ensures r == None <==> amount as int + fee as int >= W64
    ensures r.Some? ==> r.value as int == amount as int + fee as int
  {
    var target := Wrap(amount as int + fee as int);
    r := if target < amount then None else Some(target);
  }

  function PlanOf(inputs: seq<Coin>, total: nat, target: nat): Outcome
  {
    if total < target then Refused(Short(total, target)) else Plan(inputs, total, total - target)
  }

  lemma PlannedExactly(inputs: seq<Coin>, total: nat, coins: seq<Coin>, amount: nat, fee: nat, over: bool)
    requires Chosen(inputs, total, coins, amount + fee, over)
    ensures Planned(PlanOf(inputs, total, amount + fee), coins, amount, fee) <==> !over
  {
  }

  method PlanFor(coins: seq<Coin>, amount: u64, fee: u64, target: u64) returns (r: Outcome)
    requires amount > 0 && target as int == amount as int + fee as int
    ensures r.Plan? || r.error.Short?
    ensures Planned(r, coins, amount as int, fee as int) <==> !Overshoots(Sort(coins, Before()), target as int)
  {
    var inputs, total := Choose(coins, target);
    PlannedExactly(inputs, total as int, coins, amount as int, fee as int,
      Overshoots(Sort(coins, Before()), target as int));
    if total < target {
      return Refused(Short(total as int, target as int));
    }
    return Plan(inputs, total as int, (total - target) as int);
  }
}
