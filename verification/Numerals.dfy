/** Digit strings in any base as numbers. */
module Numerals {
  import opened WideArith

  ghost predicate Below(ds: seq<nat>, base: nat)
  {
    forall i :: 0 <= i < |ds| ==> ds[i] < base
  }

  function Num(ds: seq<nat>, base: nat): nat
  {
    if ds == [] then 0 else base * Num(ds[..|ds| - 1], base) + ds[|ds| - 1]
  }

  lemma NumGrow(ds: seq<nat>, d: nat, base: nat)
    ensures Num(ds + [d], base) == base * Num(ds, base) + d
  {
    assert (ds + [d])[..|ds|] == ds;
  }

  /** The last `count` base-`base` digits of x. */
  function ToDigits(x: nat, count: nat, base: nat): (ds: seq<nat>)
    requires base > 0
    ensures |ds| == count
    decreases count
  {
    if count == 0 then [] else ToDigits(x / base, count - 1, base) + [x % base]
  }

  lemma {:induction false} ToDigitsBelow(x: nat, count: nat, base: nat)
    requires base > 0
    ensures Below(ToDigits(x, count, base), base)
    decreases count
  {
    if count > 0 {
      ToDigitsBelow(x / base, count - 1, base);
    }
  }

  /** A digit string is its length and its number. */
  lemma {:induction false} DigitsOf(ds: seq<nat>, base: nat)
    requires Below(ds, base) && base > 0
    ensures ToDigits(Num(ds, base), |ds|, base) == ds
    decreases |ds|
  {
    if ds != [] {
      var front, d := ds[..|ds| - 1], ds[|ds| - 1];
      DigitsOf(front, base);
      DivModUnique(Num(ds, base), base, Num(front, base), d);
      assert ds == front + [d];
    }
  }

  /** How many digit strings of a length there are. */
  function Power(base: nat, count: nat): nat
  {
    if count == 0 then 1 else base * Power(base, count - 1)
  }

  lemma {:induction false} NumBound(ds: seq<nat>, base: nat)
    requires Below(ds, base)
    ensures Num(ds, base) < Power(base, |ds|)
    decreases |ds|
  {
    if ds != [] {
      var front := ds[..|ds| - 1];
      NumBound(front, base);
      DigitBound(Num(front, base), Power(base, |front|), base, ds[|ds| - 1]);
    }
  }

  lemma DigitBound(n: nat, p: nat, base: nat, d: nat)
    requires n < p && d < base
    ensures base * n + d < base * p
  {
    ProductBound(n + 1, base, p, base);
    MulAdd(n, 1, base);
  }

  lemma {:induction false} NumToDigits(x: nat, count: nat, base: nat)
    requires base > 0 && x < Power(base, count)
    ensures Num(ToDigits(x, count, base), base) == x
    decreases count
  {
    if count > 0 {
      var q, r := Euclid(x, base);
      QuotientBelow(x, base, Power(base, count - 1));
      NumToDigits(q, count - 1, base);
      NumGrow(ToDigits(q, count - 1, base), r, base);
    }
  }

  lemma QuotientBelow(x: nat, d: nat, q: nat)
    requires d > 0 && x < d * q
    ensures x / d < q
  {
    if x / d >= q {
      ProductBound(q, d, x / d, d);
    }
  }

  lemma {:induction false} PowerIsPow2(count: nat, w: nat)
    ensures Power(Pow2(w), count) == Pow2(w * count)
    decreases count
  {
    if count > 0 {
      PowerIsPow2(count - 1, w);
      assert w * count == w + w * (count - 1);
      Pow2Add(w, w * (count - 1));
    }
  }
}
