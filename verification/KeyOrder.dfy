/**
 Byte-wise key order, zero-padded counters and record-class prefixes of the wallet store
 (apps/finalis-wallet/wallet_store.cpp).
 */
module KeyOrder {
  import opened WideArith
  import opened Sorting
  import opened Numerals
  import opened UtcText

  // ---------------------------------------------------------------- lexicographic order

  predicate LexLe(a: string, b: string)
  {
    if a == "" then true
    else if b == "" then false
    else if a[0] != b[0] then a[0] < b[0]
    else LexLe(a[1..], b[1..])
  }

  lemma {:induction false} LexTotal(a: string, b: string)
    ensures LexLe(a, b) || LexLe(b, a)
    ensures LexLe(a, b) && LexLe(b, a) ==> a == b
    decreases |a|
  {
    if a != "" && b != "" && a[0] == b[0] {
      LexTotal(a[1..], b[1..]);
      assert a == [a[0]] + a[1..] && b == [b[0]] + b[1..];
    }
  }

  lemma {:induction false} LexTransitive(a: string, b: string, c: string)
    requires LexLe(a, b) && LexLe(b, c)
    ensures LexLe(a, c)
    decreases |a|
  {
    if a != "" && b != "" && c != "" && a[0] == b[0] == c[0] {
      LexTransitive(a[1..], b[1..], c[1..]);
    }
  }

  function KeyLe(): (string, string) -> bool
  {
    (a, b) => LexLe(a, b)
  }

  lemma KeyOrderIsTotal()
    ensures TotalOrder(KeyLe())
  {
    var le := KeyLe();
    forall a, b
      ensures le(a, b) || le(b, a)
      ensures le(a, b) && le(b, a) ==> a == b
    {
      LexTotal(a, b);
    }
    forall a, b, c | le(a, b) && le(b, c)
      ensures le(a, c)
    {
      LexTransitive(a, b, c);
    }
  }

  lemma {:induction false} LexPrefix(p: string, a: string, b: string)
    ensures LexLe(p + a, p + b) <==> LexLe(a, b)
    decreases |p|
  {
    if p == "" {
      assert p + a == a && p + b == b;
    } else {
      LexPrefix(p[1..], a, b);
      assert (p + a)[1..] == p[1..] + a && (p + b)[1..] == p[1..] + b;
    }
  }

  lemma {:induction false} LexLast(a: string, x: char, b: string, y: char)
    requires |a| == |b|
    ensures a == b ==> (LexLe(a + [x], b + [y]) <==> x <= y)
    ensures a != b ==> (LexLe(a + [x], b + [y]) <==> LexLe(a, b))
    decreases |a|
  {
    if a != "" {
      assert (a + [x])[1..] == a[1..] + [x] && (b + [y])[1..] == b[1..] + [y];
      assert a == [a[0]] + a[1..] && b == [b[0]] + b[1..];
      if a[0] == b[0] {
        LexLast(a[1..], x, b[1..], y);
      }
    } else {
      assert a + [x] == [x] && b + [y] == [y];
    }
  }

  // ---------------------------------------------------------------- padded counters

  lemma {:induction false} FixedInjective(v: nat, u: nat, w: nat)
    requires v < Power(10, w) && u < Power(10, w) && Fixed(v, w) == Fixed(u, w)
    ensures v == u
  {
    DigitsExact(Fixed(v, w), v);
    DigitsExact(Fixed(u, w), u);
  }

  /** Zero-padded text orders as the numbers do. */
  lemma {:induction false} FixedOrder(v: nat, u: nat, w: nat)
    requires v < Power(10, w) && u < Power(10, w)
    ensures LexLe(Fixed(v, w), Fixed(u, w)) <==> v <= u
    decreases w
  {
    if w > 0 {
      QuotientBelow(v, 10, Power(10, w - 1));
      QuotientBelow(u, 10, Power(10, w - 1));
      FixedOrder(v / 10, u / 10, w - 1);
      LexLast(Fixed(v / 10, w - 1), Digit(v % 10), Fixed(u / 10, w - 1), Digit(u % 10));
      if Fixed(v / 10, w - 1) == Fixed(u / 10, w - 1) {
        FixedInjective(v / 10, u / 10, w - 1);
      }
    }
  }

  /** Twenty digits hold every 64-bit counter. */
  lemma TwentyDigits()
    ensures Power(10, 20) > W64
  {
    assert Power(10, 4) == 10_000;
    PowerAdd(10, 4, 4);
    PowerAdd(10, 8, 8);
    PowerAdd(10, 16, 4);
  }

  lemma {:induction false} PowerAdd(b: nat, m: nat, n: nat)
    ensures Power(b, m + n) == Power(b, m) * Power(b, n)
    decreases m
  {
    if m > 0 {
      PowerAdd(b, m - 1, n);
      assert b * (Power(b, m - 1) * Power(b, n)) == b * Power(b, m - 1) * Power(b, n);
    }
  }

  // ---------------------------------------------------------------- record classes

  /** Every key is a class name without a colon, a colon, and the rest. */
  function ClassPrefix(name: string): string
  {
    name + ":"
  }

  /** No class prefix starts a key of another class. */
  lemma ClassesApart(a: string, b: string, rest: string)
    requires ':' !in a && ':' !in b && ClassPrefix(a) <= ClassPrefix(b) + rest
    ensures a == b
  {
    var s := ClassPrefix(b) + rest;
    assert forall j :: 0 <= j < |a| ==> s[j] == a[j] && a[j] in a;
    assert forall j :: 0 <= j < |b| ==> s[j] == b[j] && b[j] in b;
    assert s[|a|] == ':' && s[|b|] == ':';
    assert a == s[..|a|] && b == s[..|b|];
  }

  function CounterKey(name: string, i: nat): string
  {
    ClassPrefix(name) + Fixed(i, 20)
  }

  function SeqKey(name: string): string
  {
    ClassPrefix(name) + "SEQ"
  }

  lemma CounterKeys(name: string, i: nat, j: nat)
    requires i < W64 && j < W64
    ensures LexLe(CounterKey(name, i), CounterKey(name, j)) <==> i <= j
    ensures CounterKey(name, i) == CounterKey(name, j) <==> i == j
    ensures CounterKey(name, i) != SeqKey(name)
  {
    TwentyDigits();
    LexPrefix(ClassPrefix(name), Fixed(i, 20), Fixed(j, 20));
    FixedOrder(i, j, 20);
    if CounterKey(name, i) == CounterKey(name, j) {
      LexPrefix(ClassPrefix(name), Fixed(j, 20), Fixed(i, 20));
      FixedOrder(j, i, 20);
      LexTotal(CounterKey(name, i), CounterKey(name, j));
    }
    assert |CounterKey(name, i)| == |name| + 21 && |SeqKey(name)| == |name| + 4;
  }
}
