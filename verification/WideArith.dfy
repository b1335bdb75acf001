/**
 128-bit arithmetic on 64-bit limbs (src/common/wide_arith.hpp) and the integer square root
 (src/consensus/monetary.cpp). Every 64-bit operation that can wrap is written modulo 2^64.
 */
module WideArith {

  const W32: nat := 0x1_0000_0000
  const W64: nat := 0x1_0000_0000_0000_0000

  newtype u64 = x: int | 0 <= x < 0x1_0000_0000_0000_0000

  datatype U128 = U128(hi: u64, lo: u64) {

    ghost function Value(): nat
    {
      hi as int * W64 + lo as int
    }
  }

  function Wrap(x: nat): u64
  {
    (x % W64) as u64
  }

  /** The four partial products recombine to the product. */
  lemma Recombine(a: nat, b: nat, ah: nat, al: nat, bh: nat, bl: nat)
    requires a == ah * W32 + al && b == bh * W32 + bl
    ensures a * b == al * bl + (al * bh + ah * bl) * W32 + ah * bh * W64
  {
    calc {
      a * b;
      (ah * W32 + al) * (bh * W32 + bl);
      ah * W32 * (bh * W32) + ah * W32 * bl + al * (bh * W32) + al * bl;
      { assert ah * W32 * (bh * W32) == ah * bh * W64; }
      al * bl + (al * bh + ah * bl) * W32 + ah * bh * W64;
    }
  }

  /** Carrying the middle products into the two words loses nothing. */
  lemma Carry(p0: nat, p1: nat, p2: nat, p3: nat, mid: nat)
    requires mid == p0 / W32 + p1 % W32 + p2 % W32
    ensures (p3 + p1 / W32 + p2 / W32 + mid / W32) * W64 + (p0 % W32 + mid % W32 * W32) ==
      p0 + (p1 + p2) * W32 + p3 * W64
  {
  }

  lemma MulAdd(a: nat, b: nat, c: nat)
    ensures (a + b) * c == a * c + b * c
  {
  }

  lemma ProductBound(x: nat, y: nat, m: nat, n: nat)
    requires x <= m && y <= n
    ensures x * y <= m * n
  {
    assert x * y <= x * n <= m * n;
  }

  lemma ShiftedWord(mid: nat)
    ensures mid * W32 % W64 == mid % W32 * W32
  {
    assert mid * W32 == mid / W32 * W64 + mid % W32 * W32;
  }

  /** mul_u64: schoolbook multiplication on 32-bit halves. No intermediate sum or product wraps. */
  method MulU64(a: u64, b: u64) returns (r: U128)
    ensures r.Value() == a as int * b as int
  {
    var aLo, aHi := a % 0x1_0000_0000, a / 0x1_0000_0000;
    var bLo, bHi := b % 0x1_0000_0000, b / 0x1_0000_0000;
    ProductBound(aLo as int, bLo as int, W32 - 1, W32 - 1);
    ProductBound(aLo as int, bHi as int, W32 - 1, W32 - 1);
    ProductBound(aHi as int, bLo as int, W32 - 1, W32 - 1);
    ProductBound(aHi as int, bHi as int, W32 - 1, W32 - 1);
    var p0, p1, p2, p3 := aLo * bLo, aLo * bHi, aHi * bLo, aHi * bHi;
    var mid := p0 / 0x1_0000_0000 + p1 % 0x1_0000_0000 + p2 % 0x1_0000_0000;
    Recombine(a as int, b as int, aHi as int, aLo as int, bHi as int, bLo as int);
    Carry(p0 as int, p1 as int, p2 as int, p3 as int, mid as int);
    ShiftedWord(mid as int);
    ProductBound(a as int, b as int, W64 - 1, W64 - 1);
    // p0's low half and the shifted middle share no bit, so `|` is `+`.
    var lo := p0 % 0x1_0000_0000 + Wrap(mid as int * W32);
    var hi := p3 + p1 / 0x1_0000_0000 + p2 / 0x1_0000_0000 + mid / 0x1_0000_0000;
    r := U128(hi, lo);
  }

  method Cmp(a: U128, b: U128) returns (c: int)
    ensures c == if a.Value() < b.Value() then -1 else if a.Value() > b.Value() then 1 else 0
  {
    if a.hi != b.hi {
      return if a.hi < b.hi then -1 else 1;
    }
    if a.lo != b.lo {
      return if a.lo < b.lo then -1 else 1;
    }
    return 0;
  }

  /** compare_mul_u64: the sign of a*b - c*d, with no overflow. */
  method CompareMulU64(a: u64, b: u64, c: u64, d: u64) returns (r: int)
    ensures r == Sign(a as int * b as int - c as int * d as int)
  {
    var x := MulU64(a, b);
    var y := MulU64(c, d);
    r := Cmp(x, y);
  }

  function Sign(x: int): (s: int)
    ensures (s == -1 <==> x < 0) && (s == 0 <==> x == 0) && (s == 1 <==> x > 0)
  {
    if x < 0 then -1 else if x == 0 then 0 else 1
  }

  // ---------------------------------------------------------------- division

  function Pow2(n: nat): (p: nat)
    ensures p >= 1
  {
    if n == 0 then 1 else 2 * Pow2(n - 1)
  }

  lemma {:induction false} Pow2Add(a: nat, b: nat)
    ensures Pow2(a + b) == Pow2(a) * Pow2(b)
  {
    if a > 0 {
      Pow2Add(a - 1, b);
      assert 2 * (Pow2(a - 1) * Pow2(b)) == 2 * Pow2(a - 1) * Pow2(b);
    }
  }

  lemma Pow16(m: nat)
    ensures Pow2(m + 4) == 16 * Pow2(m)
  {
    assert Pow2(m + 2) == 2 * Pow2(m + 1) == 4 * Pow2(m);
    assert Pow2(m + 4) == 2 * Pow2(m + 3) == 4 * Pow2(m + 2);
  }

  lemma Pow256At(m: nat, k: nat)
    requires k == m + 8
    ensures Pow2(k) == 256 * Pow2(m)
  {
    Pow16(m);
    Pow16(m + 4);
  }

  lemma Pow128At(m: nat, k: nat)
    requires k == m + 7
    ensures Pow2(k) == 128 * Pow2(m)
  {
    Pow16(m);
    assert Pow2(m + 7) == 2 * Pow2(m + 6) == 4 * Pow2(m + 5) == 8 * Pow2(m + 4);
  }

  lemma Pow2Of64()
    ensures Pow2(64) == W64
  {
    assert Pow2(4) == 16 by {
      assert Pow2(1) == 2 && Pow2(2) == 4 && Pow2(3) == 8;
    }
    Pow2Add(4, 4);
    assert Pow2(8) == 0x100;
    Pow2Add(8, 8);
    Pow2Add(16, 16);
    Pow2Add(32, 32);
  }

  lemma Separated(q: nat, s: nat, d: nat)
    requires q < s
    ensures q * d + d <= s * d
  {
    ProductBound(q + 1, d, s, d);
    assert (q + 1) * d == q * d + d;
  }

  lemma DivModUnique(x: nat, d: nat, q: nat, r: nat)
    requires d > 0 && x == q * d + r && r < d
    ensures x / d == q && x % d == r
  {
    var s := x / d;
    assert x == s * d + x % d;
    if q < s {
      Separated(q, s, d);
    } else if s < q {
      Separated(s, q, d);
    }
  }

  /** Bringing down one more bit. */
  lemma NextBit(x: nat, n: nat)
    requires n > 0
    ensures x / Pow2(n - 1) == 2 * (x / Pow2(n)) + x / Pow2(n - 1) % 2
  {
    var p := Pow2(n - 1);
    var y := x / p;
    assert x == y * p + x % p;
    assert y == 2 * (y / 2) + y % 2;
    assert y % 2 * p + x % p < 2 * p;
    calc {
      x;
      (2 * (y / 2) + y % 2) * p + x % p;
      y / 2 * (2 * p) + (y % 2 * p + x % p);
    }
    DivModUnique(x, 2 * p, y / 2, y % 2 * p + x % p);
  }

  /** One step of the long division on v = quot*d + rem. */
  lemma DivStep(v: nat, d: nat, quot: nat, rem: nat, bit: nat)
    requires d > 0 && v == quot * d + rem && rem < d && bit <= 1
    ensures 2 * rem + bit >= d ==> 2 * v + bit == (2 * quot + 1) * d + (2 * rem + bit - d) && 2 * rem + bit - d < d
    ensures 2 * rem + bit < d ==> 2 * v + bit == 2 * quot * d + (2 * rem + bit)
  {
    assert 2 * v + bit == 2 * (quot * d) + (2 * rem + bit);
    assert 2 * (quot * d) == 2 * quot * d;
    assert (2 * quot + 1) * d == 2 * quot * d + d;
  }

  lemma QuotientFits(v: nat, d: nat, quot: nat, rem: nat, head: nat, tail: nat, p: nat)
    requires d > 0 && v == quot * d + rem && v == head * p + tail && head < d && tail < p
    ensures quot < p
  {
    Separated(head, d, p);
    if quot >= p {
      ProductBound(p, d, quot, d);
    }
  }

  lemma TailBound(lo: nat, n: nat)
    requires lo < Pow2(64) && n <= 64
    ensures lo / Pow2(n) < Pow2(64 - n)
    decreases 64 - n
  {
    if n == 64 {
      DivModUnique(lo, Pow2(64), 0, lo);
    } else {
      TailBound(lo, n + 1);
      NextBit(lo, n + 1);
    }
  }

  lemma SplitHigh(h: nat, d: nat, m: nat, lo: nat, quot: nat, rem: nat)
    requires m * W64 + lo == quot * d + rem
    ensures (h * d + m) * W64 + lo == (h * W64 + quot) * d + rem
  {
    assert (h * d + m) * W64 == h * d * W64 + m * W64;
    assert (h * W64 + quot) * d == h * W64 * d + quot * d;
    assert h * d * W64 == h * W64 * d;
  }

  /** The low word of the quotient of the whole value. */
  lemma LowQuotient(hi: nat, lo: nat, d: nat, quot: nat, rem: nat)
    requires d > 0 && hi % d * W64 + lo == quot * d + rem && rem < d && quot < W64
    ensures (hi * W64 + lo) / d % W64 == quot
  {
    var h := hi / d;
    assert hi == h * d + hi % d;
    SplitHigh(h, d, hi % d, lo, quot, rem);
    DivModUnique(hi * W64 + lo, d, h * W64 + quot, rem);
    DivModUnique(h * W64 + quot, W64, h, quot);
  }

  /** rem and quot after one bit, on machine words: the shift may carry out, the subtraction may wrap. */
  method DivBit(rem: u64, quot: u64, divisor: u64, bit: u64) returns (rem': u64, quot': u64)
    requires rem < divisor && bit <= 1 && quot < 0x8000_0000_0000_0000
    ensures
      var x, d := 2 * rem as int + bit as int, divisor as int;
      if x >= d then rem' as int == x - d && quot' as int == 2 * quot as int + 1
      else rem' as int == x && quot' as int == 2 * quot as int
  {
    var carry := rem >= 0x8000_0000_0000_0000;
    var shifted := Wrap(2 * rem as int + bit as int);
    quot' := quot * 2;
    if carry || shifted >= divisor {
      rem' := Wrap(shifted as int + W64 - divisor as int);
      quot' := quot' + 1;
    } else {
      rem' := shifted;
    }
  }

  /** The value brought down so far, head * p + tail, is divided. */
  ghost predicate Divided(head: nat, p: nat, tail: nat, d: nat, quot: nat, rem: nat)
  {
    rem < d && head * p + tail == quot * d + rem
  }

  lemma DividedNext(head: nat, p: nat, tail: nat, d: nat, quot: nat, rem: nat, bit: nat, quot': nat, rem': nat)
    requires Divided(head, p, tail, d, quot, rem) && bit <= 1
    requires if 2 * rem + bit >= d then rem' == 2 * rem + bit - d && quot' == 2 * quot + 1
             else rem' == 2 * rem + bit && quot' == 2 * quot
    ensures Divided(head, 2 * p, 2 * tail + bit, d, quot', rem')
  {
    DivStep(head * p + tail, d, quot, rem, bit);
    assert head * (2 * p) == 2 * (head * p);
  }

  lemma DividedAll(hi: nat, lo: nat, d: nat, quot: nat, rem: nat)
    requires d > 0 && lo < W64 && Divided(hi % d, W64, lo, d, quot, rem)
    ensures (hi * W64 + lo) / d % W64 == quot
  {
    QuotientFits(hi % d * W64 + lo, d, quot, rem, hi % d, lo, W64);
    LowQuotient(hi, lo, d, quot, rem);
  }

  /** The bits of lo above the low n. */
  function Top(lo: nat, n: nat): nat
  {
    QuotientIsNat(lo, Pow2(n));
    lo / Pow2(n)
  }

  lemma {:induction false} Euclid(n: nat, d: nat) returns (q: nat, r: nat)
    requires d > 0
    ensures n == q * d + r && r < d && q == n / d && r == n % d
    decreases n
  {
    if n < d {
      q, r := 0, n;
    } else {
      var p, s := Euclid(n - d, d);
      q, r := p + 1, s;
      assert (p + 1) * d == p * d + d;
    }
    DivModUnique(n, d, q, r);
  }

  lemma QuotientIsNat(x: nat, d: nat)
    requires d > 0
    ensures x / d >= 0
  {
    var q, r := Euclid(x, d);
  }

  lemma TopFacts(lo: nat, n: nat)
    requires n <= 64 && lo < W64
    ensures Top(lo, n) < Pow2(64 - n)
    ensures n > 0 ==> Top(lo, n - 1) == 2 * Top(lo, n) + Top(lo, n - 1) % 2
    ensures n > 0 ==> Pow2(64 - n) <= 0x8000_0000_0000_0000
    ensures Pow2(64) == W64 && Top(lo, 0) == lo
  {
    Pow2Of64();
    TailBound(lo, n);
    if n > 0 {
      NextBit(lo, n);
      HalfOf64(64 - n);
    }
    assert Pow2(0) == 1;
  }

  /** div_u64: bit-by-bit long division; the high quotient word is dropped, the low one exact. */
  method DivU64(value: U128, divisor: u64) returns (quot: u64)
    requires divisor > 0
    ensures quot as int == value.Value() / divisor as int % W64
  {
    var hi: nat, lo: nat := value.hi as int, value.lo as int;
    ghost var d: nat := divisor as int;
    ghost var head: nat := hi % d;
    var rem := value.hi % divisor;
    quot := 0;
    TopFacts(lo, 64);
    assert head * 1 == head;
    var n: nat := 64;
    while n > 0
      invariant 0 <= n <= 64 && rem < divisor
      invariant Divided(head, Pow2(64 - n), Top(lo, n), d, quot as int, rem as int)
    {
      ghost var q, r: nat := quot as int, rem as int;
      ghost var p, tail := Pow2(64 - n), Top(lo, n);
      TopFacts(lo, n);
      QuotientFits(head * p + tail, d, q, r, head, tail, p);
      var bit := Top(lo, n - 1) % 2;
      rem, quot := DivBit(rem, quot, divisor, bit as u64);
      DividedNext(head, p, tail, d, q, r, bit, quot as int, rem as int);
      n := n - 1;
    }
    TopFacts(lo, 0);
    DividedAll(hi, lo, d, quot as int, rem as int);
  }

  lemma HalfOf64(k: nat)
    requires k < 64
    ensures Pow2(k) <= 0x8000_0000_0000_0000
  {
    Pow2Of64();
    Pow2Monotone(k, 63);
  }

  lemma Pow2Monotone(a: nat, b: nat)
    requires a <= b
    ensures Pow2(a) <= Pow2(b)
  {
    if a < b {
      Pow2Monotone(a, b - 1);
    }
  }

  // ---------------------------------------------------------------- square root

  lemma SquareMonotone(a: nat, b: nat)
    requires a <= b
    ensures a * a <= b * b
  {
    ProductBound(a, a, b, b);
  }

  lemma QuotientTest(mid: nat, value: nat)
    requires mid > 0
    ensures mid <= value / mid <==> mid * mid <= value
  {
    var q, r := value / mid, value % mid;
    assert value == q * mid + r;
    if mid <= q {
      ProductBound(mid, mid, q, mid);
    } else {
      assert (q + 1) * mid == q * mid + mid;
      ProductBound(q + 1, mid, mid, mid);
    }
  }

  /** r is the floor of the square root of x. */
  predicate IsRoot(x: nat, r: nat)
  {
    r * r <= x < (r + 1) * (r + 1)
  }

  method SquareFits(mid: u64, value: u64) returns (yes: bool)
    requires mid > 0
    ensures yes <==> mid as int * mid as int <= value as int
  {
    QuotientTest(mid as int, value as int);
    yes := mid <= value / mid;
  }

  /** integer_sqrt: binary search with a division in place of the square, so nothing overflows. */
  method IntegerSqrt(value: u64) returns (r: u64)
    ensures IsRoot(value as int, r as int)
  {
    var lo: u64 := 0;
    var hi: u64 := (if value < 0xFFFF_FFFF then value else 0xFFFF_FFFF) + 1;
    SquareMonotone(value as int, value as int);
    assert (value as int + 1) * (value as int + 1) > value as int;
    while lo + 1 < hi
      invariant 0 <= lo < hi <= 0x1_0000_0000
      invariant lo as int * lo as int <= value as int
      invariant (value as int) < hi as int * hi as int
      decreases hi - lo
    {
      var mid := lo + (hi - lo) / 2;
      var below := SquareFits(mid, value);
      if below {
        lo := mid;
      } else {
        hi := mid;
      }
    }
    r := lo;
  }

  lemma RootUnique(x: nat, r: nat, s: nat)
    requires IsRoot(x, r) && IsRoot(x, s)
    ensures r == s
  {
    if r < s {
      SquareMonotone(r + 1, s);
    } else if s < r {
      SquareMonotone(s + 1, r);
    }
  }
}
