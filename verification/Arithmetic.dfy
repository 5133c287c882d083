/** 64-bit division out of a 64-by-32-bit divide instruction (lib/arithmetic.c). */
module Arithmetic {
  import opened Wrappers

  const B31 := 0x8000_0000
  const B32 := 0x1_0000_0000
  const B63 := 0x8000_0000_0000_0000
  const B64 := 0x1_0000_0000_0000_0000

  type u32 = x: int | 0 <= x < 0x1_0000_0000
  type u64 = x: int | 0 <= x < 0x1_0000_0000_0000_0000
  type i32 = x: int | -0x8000_0000 <= x < 0x8000_0000
  type i64 = x: int | -0x8000_0000_0000_0000 <= x < 0x8000_0000_0000_0000

  /** Conversions to a C integer type, which keep the low bits. */
  function ToU32(x: int): u32 { x % B32 }
  function ToU64(x: int): u64 { x % B64 }
  function ToI32(x: int): i32 { if x % B32 < B31 then x % B32 else x % B32 - B32 }
  function ToI64(x: int): i64 { if x % B64 < B63 then x % B64 else x % B64 - B64 }

  function Pow2(n: nat): (r: nat)
    ensures r > 0
  {
    if n == 0 then 1 else 2 * Pow2(n - 1)
  }

  lemma Mono(a: int, b: int, c: nat)
    requires a <= b
    ensures a * c <= b * c
  {
  }

  lemma Assoc(a: int, b: int, c: int)
    ensures (a * b) * c == a * (b * c)
  {
  }

  lemma Distribute(a: int, b: int, c: int)
    ensures (a + b) * c == a * c + b * c
  {
  }

  lemma {:induction false} Pow2Sum(m: nat, n: nat)
    ensures Pow2(m + n) == Pow2(m) * Pow2(n)
  {
    if m > 0 {
      Pow2Sum(m - 1, n);
      Assoc(2, Pow2(m - 1), Pow2(n));
    }
  }

  // ---- division facts

  lemma Euclid(n: nat, d: nat)
    requires d > 0
    ensures 0 <= n / d && (n / d) * d <= n < (n / d) * d + d && n % d == n - (n / d) * d
  {
  }

  lemma RemainderBelow(n: nat, d: nat)
    requires d > 0
    ensures 0 <= n % d < d && n % d <= n
  {
    Euclid(n, d);
    Mono(0, n / d, d);
  }

  lemma Quotient(n: nat, d: nat, q: nat)
    requires d > 0 && q * d <= n < q * d + d
    ensures n / d == q
  {
    Euclid(n, d);
    SameQuotient(n, d, n / d, q);
  }

  lemma SameQuotient(n: nat, d: nat, k: nat, q: nat)
    requires d > 0 && q * d <= n < q * d + d && k * d <= n < k * d + d
    ensures k == q
  {
    if k < q {
      Mono(k + 1, q, d);
      Distribute(k, 1, d);
    } else if q < k {
      Mono(q + 1, k, d);
      Distribute(q, 1, d);
    }
  }

  lemma NestedBounds(n: nat, a: nat, b: nat, m: nat, q: nat)
    requires m * a <= n < m * a + a && q * b <= m < q * b + b
    ensures q * (a * b) <= n < q * (a * b) + a * b
  {
    Mono(q * b, m, a);
    Mono(m + 1, q * b + b, a);
    Distribute(m, 1, a);
    Distribute(q * b, b, a);
    Assoc(q, b, a);
  }

  /** floor(floor(n / a) / b) = floor(n / ab). */
  lemma QuotientOfQuotient(n: nat, a: nat, b: nat)
    requires a > 0 && b > 0
    ensures a * b > 0 && n / a / b == n / (a * b)
  {
    Euclid(n, a);
    Euclid(n / a, b);
    NestedBounds(n, a, b, n / a, n / a / b);
    Quotient(n, a * b, n / a / b);
  }

  lemma QuotientBelow(n: nat, d: nat, k: nat)
    requires d > 0 && n < k * d
    ensures n / d < k
  {
    Euclid(n, d);
    if n / d >= k {
      Mono(k, n / d, d);
    }
  }

  // ---- leading zeros

  /** x shifted left by n bits, none of them lost. */
  function Shl(x: nat, n: nat): nat {
    if n == 0 then x else 2 * Shl(x, n - 1)
  }

  lemma {:induction false} ShlIsProduct(x: nat, n: nat)
    ensures Shl(x, n) == x * Pow2(n)
  {
    if n > 0 {
      ShlIsProduct(x, n - 1);
      Assoc(2, x, Pow2(n - 1));
      Assoc(x, 2, Pow2(n - 1));
    }
  }

  /** x shifted left by n fills its highest bit. */
  predicate Normalised(x: nat, n: nat) {
    n <= 31 && B31 <= Shl(x, n) < B32
  }

  lemma Shl4(x: nat, m: nat)
    ensures Shl(x, m + 1) == 2 * Shl(x, m) && Shl(x, m + 2) == 4 * Shl(x, m) && Shl(x, m + 4) == 16 * Shl(x, m)
  {
    assert Shl(x, m + 2) == 2 * Shl(x, m + 1);
    assert Shl(x, m + 3) == 2 * Shl(x, m + 2);
  }

  lemma Shl16(x: nat, m: nat)
    ensures Shl(x, m + 8) == 256 * Shl(x, m) && Shl(x, m + 16) == 65536 * Shl(x, m)
  {
    Shl4(x, m);
    Shl4(x, m + 4);
    Shl4(x, m + 8);
    Shl4(x, m + 12);
  }

  /** One of the first four steps of nlz: a word with k leading zeros is shifted left by k, that is times f. */
  method ShiftUp(ghost x0: nat, n: nat, x: u32, k: nat, f: nat) returns (n': nat, x': u32)
    requires (k, f) in [(16, 65536), (8, 256), (4, 16), (2, 4)]
    requires x == Shl(x0, n) && x * (f * f) >= B32
    ensures x' == Shl(x0, n') && n' <= n + k && x' * f >= B32
  {
    n', x' := n, x;
    if x <= B32 / f - 1 {
      Shl4(x0, n);
      Shl16(x0, n);
      n', x' := n + k, ToU32(x * f);
    }
  }

  /** nlz: the number of leading zeros of a nonzero word. */
  method Nlz(x0: u32) returns (n: nat)
    requires x0 != 0
    ensures Normalised(x0, n)
  {
    var x: u32 := x0;
    n, x := ShiftUp(x0, 0, x, 16, 65536);
    n, x := ShiftUp(x0, n, x, 8, 256);
    n, x := ShiftUp(x0, n, x, 4, 16);
    n, x := ShiftUp(x0, n, x, 2, 4);
    if x <= 0x7FFF_FFFF {
      Shl4(x0, n);
      n := n + 1;
    }
  }

  // ---- unsigned division

  /** The divl instruction; None is the divide error. */
  function Divl(n: u64, d: u32): (q: Option<u32>)
    ensures q.None? <==> d == 0 || n >= d * B32
    ensures q.Some? ==> q.value == n / d
  {
    if d == 0 || n >= d * B32 then None else DivlFits(n, d); Some(n / d)
  }

  lemma DivlFits(n: u64, d: u32)
    requires d > 0 && n < d * B32
    ensures 0 <= n / d < B32
  {
    QuotientBelow(n, d, B32);
  }

  lemma TwoDigitsBounds(n1: nat, n0: nat, d: nat, k: nat, m: nat, t: nat)
    requires n0 < B32 && n1 == k * d + m && m < d && t * d <= B32 * m + n0 < t * d + d
    ensures (t + B32 * k) * d <= B32 * n1 + n0 < (t + B32 * k) * d + d
  {
    Distribute(t, B32 * k, d);
    Assoc(B32, k, d);
  }

  /** Long division by one 32-bit digit: two steps of base 2^32. */
  lemma TwoDigits(n: nat, d: nat, n1: nat, n0: nat)
    requires d > 0 && n == B32 * n1 + n0 && n0 < B32
    ensures B32 * (n1 % d) + n0 < d * B32 && (B32 * (n1 % d) + n0) / d + B32 * (n1 / d) == n / d
  {
    var k, m := n1 / d, n1 % d;
    var low := B32 * m + n0;
    Euclid(n1, d);
    Euclid(low, d);
    TwoDigitsBounds(n1, n0, d, k, m, low / d);
    Quotient(n, d, low / d + B32 * k);
  }

  lemma HighDigit(d: nat, d1: nat, p: nat, w: nat)
    requires w * p == B32 && d1 * B32 <= d < d1 * B32 + B32 && B31 <= d1 * p < B32
    ensures B31 * B32 <= d * p < B32 * B32
  {
    Mono(d1 * B32, d, p);
    assert (d1 * B32) * p == (d1 * p) * B32;
    if d1 >= w {
      Mono(w, d1, p);
    }
    Mono(d + 1, w * B32, p);
    assert (w * B32) * p == (w * p) * B32;
    Distribute(d, 1, p);
  }

  /** The divisor v that udiv64 uses for a d of more than 32 bits: its 32 highest significant bits. */
  lemma TopBits(d: nat, p: nat, w: nat, v: nat)
    requires p > 0 && w > 0 && w * p == B32 && B31 <= (d / B32) * p < B32 && v == d * p / B32
    ensures d * p < B64 && v * w <= d < v * w + w && B31 <= v < B32
  {
    HighDigit(d, d / B32, p, w);
    TopBitsBounds(d, p, w, v);
  }

  lemma TopBitsBounds(d: nat, p: nat, w: nat, v: nat)
    requires p > 0 && w > 0 && w * p == B32 && v == d * p / B32
    ensures v * w <= d < v * w + w
  {
    Euclid(d * p, B32);
    Assoc(v, w, p);
    Distribute(v * w, w, p);
    if v * w > d {
      Mono(d + 1, v * w, p);
      Distribute(d, 1, p);
    }
    if d >= v * w + w {
      Mono(v * w + w, d, p);
    }
  }

  lemma ScaledQuotient(n: nat, d: nat, w: nat, q: nat)
    requires n < B64 && B31 * w <= d && q * d <= n
    ensures q * w < 0x2_0000_0000
  {
    Mono(B31 * w, d, q);
    Assoc(B31, w, q);
  }

  /** The excess of a rounded-down divisor, over q + 2 steps, is at most one divisor: shifts of 31, 30 and less. */
  lemma SmallExcess2(d: nat, e: nat, q: nat)
    requires e % 2 == 0 && e >= B32 && e <= d < e + 2 && q * d < B64
    ensures (d - e) * (q + 2) <= d
  {
    if d > e && q + 2 > d {
      Mono(B32, q, d);
    }
    assert d > e ==> q + 2 <= d;
  }

  lemma SmallExcess4(d: nat, e: nat, q: nat)
    requires 4 * B31 <= e <= d < e + 4 && q < B31
    ensures (d - e) * (q + 2) <= d
  {
    Mono(d - e, 3, q + 2);
  }

  lemma SmallExcess8(d: nat, e: nat, w: nat, q: nat)
    requires 8 <= w <= B32 && B31 * w <= e <= d < e + w && q * w < 0x2_0000_0000
    ensures (d - e) * (q + 2) <= d
  {
    Mono(d - e, w, q + 2);
    Distribute(q, 2, w);
  }

  predicate Width(w: nat) {
    w == 2 || w == 4 || 8 <= w <= B32
  }

  lemma SmallExcess(n: nat, d: nat, e: nat, w: nat, q: nat)
    requires n < B64 && 0 < e <= d < e + w && B31 * w <= e && Width(w)
    requires (w == 2 ==> e % 2 == 0) && q * d <= n
    ensures (d - e) * (q + 2) <= d
  {
    ScaledQuotient(n, d, w, q);
    if w == 2 {
      SmallExcess2(d, e, q);
    } else if w == 4 {
      SmallExcess4(d, e, q);
    } else {
      SmallExcess8(d, e, w, q);
    }
  }

  lemma EstimateBelow(n: nat, d: nat, e: nat, q: nat)
    requires 0 < e <= d && n < q * d + d && (d - e) * (q + 2) <= d
    ensures n / e <= q + 1
  {
    Distribute(d - e, e, q + 2);
    Distribute(q, 2, d);
    assert e * (q + 2) == (q + 2) * e && d * (q + 2) == (q + 2) * d;
    QuotientBelow(n, e, q + 2);
  }

  lemma EstimateAbove(n: nat, d: nat, e: nat, q: nat)
    requires 0 < e <= d && q * d <= n
    ensures q <= n / e
  {
    if n / e < q {
      Euclid(n, e);
      Mono(n / e + 1, q, e);
      Distribute(n / e, 1, e);
      Mono(e, d, q);
    }
  }

  /** Rounding the divisor d down to e, a multiple of w, adds at most one to the quotient q. */
  lemma EstimateIsClose(n: nat, d: nat, e: nat, w: nat, q: nat)
    requires n < B64 && 0 < e <= d < e + w && B31 * w <= e && Width(w)
    requires (w == 2 ==> e % 2 == 0) && q * d <= n < q * d + d
    ensures q <= n / e <= q + 1
  {
    SmallExcess(n, d, e, w, q);
    EstimateBelow(n, d, e, q);
    EstimateAbove(n, d, e, q);
  }

  lemma WidthOf(s: nat)
    requires s <= 31
    ensures Pow2(32 - s) * Pow2(s) == B32 && Pow2(32 - s) == 2 * Pow2(31 - s) && Width(Pow2(32 - s))
  {
    Pow2Sum(32 - s, s);
    PowersTo32();
    if s < 30 {
      LargeWidth(s);
    } else {
      assert Pow2(1) == 2 && Pow2(2) == 4;
    }
  }

  lemma LargeWidth(s: nat)
    requires s < 30 && Pow2(32 - s) * Pow2(s) == B32
    ensures 8 <= Pow2(32 - s) <= B32
  {
    Pow2Sum(3, 29 - s);
    assert Pow2(3) == 8;
    Mono(1, Pow2(s), Pow2(32 - s));
  }

  lemma PowersTo32()
    ensures Pow2(32) == B32
  {
    assert Pow2(4) == 16;
    Pow2Sum(4, 4);
    Pow2Sum(8, 8);
    Pow2Sum(16, 16);
  }

  /** n / 2 / v / h, as computed, is the quotient by the rounded-down divisor. */
  lemma ThreeDivisions(n: nat, v: nat, h: nat)
    requires v > 0 && h > 0
    ensures v * (2 * h) > 0 && n / 2 / v / h == n / (v * (2 * h))
  {
    QuotientOfQuotient(n, 2, v);
    QuotientOfQuotient(n, 2 * v, h);
    Assoc(2, v, h);
    Assoc(v, 2, h);
  }

  /** What udiv64 computes for a d of more than 32 bits is the quotient or one more, and does not trap. */
  lemma LargeEstimate(n: nat, d: nat, s: nat, p: nat, h: nat, v: nat, q: nat)
    requires n < B64 && Normalised(d / B32, s) && p == Pow2(s) && h == Pow2(31 - s) && v == d * p / B32
    requires q * d <= n < q * d + d
    ensures d * p < B64 && 0 < v < B32 && n / 2 < v * B32 && q <= n / 2 / v / h <= q + 1
  {
    WidthOf(s);
    ShlIsProduct(d / B32, s);
    TopBits(d, p, 2 * h, v);
    ThreeDivisions(n, v, h);
    RoundedDown(d, v, 2 * h);
    EstimateIsClose(n, d, v * (2 * h), 2 * h, q);
  }

  lemma RoundedDown(d: nat, v: nat, w: nat)
    requires B31 <= v && Width(w) && v * w <= d < v * w + w
    ensures 0 < v * w && B31 * w <= v * w && (w == 2 ==> (v * w) % 2 == 0)
  {
    Mono(B31, v, w);
  }

  /** The final correction picks the quotient. */
  lemma Corrected(n: nat, d: nat, q: nat)
    requires 0 < d <= n && n / d <= q <= n / d + 1
    ensures 0 < q && 0 <= (q - 1) * d <= n && n / d == if n - (q - 1) * d < d then q - 1 else q
  {
    Euclid(n, d);
    Mono(q - 1, n / d, d);
    if q == n / d {
      Distribute(q, -1, d);
    }
    assert n / d > 0;
    Mono(0, q - 1, d);
  }

  /** The last line of udiv64, on an estimate that is at most one too large. */
  function Correct(n: u64, d: u64, q: u32): (r: u64)
    requires 0 < d <= n && n / d <= q <= n / d + 1
    ensures r == n / d
  {
    Corrected(n, d, q);
    var back := ToU64((q - 1) * d);
    if ToU64(n - back) < d then q - 1 else q
  }

  lemma QuotientAtMost(n: nat, d: nat)
    requires d > 0
    ensures 0 <= n / d <= n
  {
    Euclid(n, d);
    Mono(1, d, n / d);
  }

  /** The first case of udiv64, for a divisor of at most 32 bits. */
  method Udiv64Small(n: u64, d: u32) returns (r: Option<u64>)
    ensures r == if d == 0 then None else Some(n / d)
  {
    if d == 0 {
      return None;
    }
    var n1, n0 := n / B32, ToU32(n);
    TwoDigits(n, d, n1, n0);
    r := Some(SmallQuotient(n, d, n1, n0));
  }

  function SmallQuotient(n: u64, d: u32, n1: u32, n0: u32): (r: u64)
    requires d > 0 && B32 * (n1 % d) + n0 < d * B32 && (B32 * (n1 % d) + n0) / d + B32 * (n1 / d) == n / d
    ensures r == n / d
  {
    RemainderBelow(n1, d);
    QuotientAtMost(n, d);
    ToU64(Divl(B32 * (n1 % d) + n0, d).value + B32 * (n1 / d))
  }

  /** (d << s) >> 32, where p is 2^s. */
  function TopWord(d: u64, p: nat): (v: u32)
    requires d * p < B64
    ensures v == d * p / B32
  {
    ToU64(d * p) / B32
  }

  function Shifted(x: u32, h: nat): (r: u32)
    requires h > 0
    ensures r == x / h
  {
    QuotientAtMost(x, h);
    x / h
  }

  lemma EstimateFor(n: nat, d: nat, s: nat, p: nat, h: nat, v: nat)
    requires d > 0 && n < B64 && Normalised(d / B32, s) && p == Pow2(s) && h == Pow2(31 - s) && v == d * p / B32
    ensures d * p < B64 && 0 < v < B32 && n / 2 < v * B32 && n / d <= n / 2 / v / h <= n / d + 1
  {
    Euclid(n, d);
    LargeEstimate(n, d, s, p, h, v, n / d);
  }

  /** Divides half of n by the 32 highest significant bits of d. */
  method Estimate(n: u64, d: u64) returns (q: u32)
    requires d >= B32
    ensures n / d <= q <= n / d + 1
  {
    var s := Nlz(d / B32);
    var p, h := Pow2(s), Pow2(31 - s);
    EstimateFor(n, d, s, p, h, d * p / B32);
    q := Shifted(Divl(n / 2, TopWord(d, p)).value, h);
  }

  /** The second case of udiv64. */
  method Udiv64Large(n: u64, d: u64) returns (r: u64)
    requires d >= B32 && n >= d
    ensures r == n / d
  {
    var q := Estimate(n, d);
    r := Correct(n, d, q);
  }

  /** udiv64: the exact quotient; only a zero divisor traps. */
  method Udiv64(n: u64, d: u64) returns (r: Option<u64>)
    ensures r == if d == 0 then None else Some(n / d)
  {
    if d / B32 == 0 {
      r := Udiv64Small(n, d);
    } else if n < d {
      Quotient(n, d, 0);
      r := Some(0);
    } else {
      var q := Udiv64Large(n, d);
      r := Some(q);
    }
  }

  // ---- remainders and signed division

  /** umod64 returns 32 bits of the remainder. */
  method Umod64(n: u64, d: u64) returns (r: Option<u32>)
    ensures r == if d == 0 then None else Some(ToU32(n % d))
  {
    var q := Udiv64(n, d);
    if q.None? {
      return None;
    }
    r := Some(ToU32(BackOff(n, d, q.value)));
  }

  /** The remainder computed from the quotient, in 64 bits. */
  function BackOff(n: u64, d: u64, q: u64): (r: u64)
    requires d > 0 && q == n / d
    ensures r == n % d
  {
    Euclid(n, d);
    var back := d * q;
    ToU64(n - ToU64(back))
  }

  /** umod64 is right for every n exactly when d is at most 2^32. */
  lemma Umod64IsExact(d: u64)
    requires d > 0
    ensures (forall n: u64 :: ToU32(n % d) == n % d) <==> d <= B32
  {
    if d > B32 {
      var n: u64 := B32;
      Quotient(n, d, 0);
      Euclid(n, d);
      assert ToU32(n % d) != n % d;
    } else {
      forall n: u64 ensures ToU32(n % d) == n % d {
        RemainderBelow(n, d);
      }
    }
  }

  function Abs(x: int): nat {
    if x >= 0 then x else -x
  }

  /** Division that rounds toward zero, and its remainder. */
  function TruncDiv(n: int, d: int): int
    requires d != 0
  {
    if (n < 0) == (d < 0) then Abs(n) / Abs(d) else -(Abs(n) / Abs(d))
  }

  function TruncRem(n: int, d: int): (r: int)
    requires d != 0
    ensures r == if n >= 0 then Abs(n) % Abs(d) else -(Abs(n) % Abs(d))
  {
    RemainderOf(n, d);
    n - d * TruncDiv(n, d)
  }

  lemma RemainderOf(n: int, d: int)
    requires d != 0
    ensures n - d * TruncDiv(n, d) == if n >= 0 then Abs(n) % Abs(d) else -(Abs(n) % Abs(d))
  {
    Euclid(Abs(n), Abs(d));
    var q := Abs(n) / Abs(d);
    assert d * q == if d > 0 then Abs(d) * q else -(Abs(d) * q);
    assert d * -q == -(d * q);
  }

  /** The magnitude, computed by unsigned negation. */
  function Magnitude(x: i64): (r: u64)
    ensures r == Abs(x)
  {
    if x >= 0 then ToU64(x) else ToU64(0 - ToU64(x))
  }

  /** Negating after the cast, as C does, or before it. */
  lemma NegatedCast(q: nat)
    requires q <= B63
    ensures ToI64(0 - ToI64(q)) == ToI64(0 - q)
  {
  }

  /** sdiv64; the cast of the quotient keeps its low 64 bits. */
  method Sdiv64(n: i64, d: i64) returns (r: Option<i64>)
    ensures r == if d == 0 then None else Some(ToI64(TruncDiv(n, d)))
  {
    var q := Udiv64(Magnitude(n), Magnitude(d));
    if q.None? {
      return None;
    }
    QuotientAtMost(Abs(n), Abs(d));
    NegatedCast(q.value);
    r := Some(if (n < 0) == (d < 0) then ToI64(q.value) else ToI64(0 - ToI64(q.value)));
  }

  lemma CastIsExact(x: int)
    requires -B63 <= x <= B63
    ensures ToI64(x) == x <==> x != B63
  {
  }

  lemma LargestQuotient(n: nat, d: nat)
    requires n <= B63 && d > 0
    ensures 0 <= n / d <= B63 && (n / d == B63 <==> n == B63 && d == 1)
  {
    QuotientAtMost(n, d);
    if d >= 2 {
      QuotientAtMostHalf(n, d);
    }
  }

  /** sdiv64 truncates toward zero except for the one quotient that is not a 64-bit integer. */
  lemma Sdiv64IsExact(n: i64, d: i64)
    requires d != 0
    ensures ToI64(TruncDiv(n, d)) == TruncDiv(n, d) <==> !(n == -B63 && d == -1)
  {
    LargestQuotient(Abs(n), Abs(d));
    CastIsExact(TruncDiv(n, d));
  }

  lemma QuotientAtMostHalf(n: nat, d: nat)
    requires d >= 2
    ensures 2 * (n / d) <= n
  {
    Euclid(n, d);
    Mono(2, d, n / d);
  }

  /** smod64 returns 32 bits of the remainder. */
  method Smod64(n: i64, d: i64) returns (r: Option<i32>)
    ensures r == if d == 0 then None else Some(ToI32(TruncRem(n, d)))
  {
    var q := Sdiv64(n, d);
    if q.None? {
      return None;
    }
    r := Some(ToI32(ToI64(n - ToI64(d * q.value))));
    SameLowBits(n, d, q.value);
  }

  lemma SameLowBits(n: i64, d: i64, q: i64)
    requires d != 0 && q == ToI64(TruncDiv(n, d))
    ensures ToI32(ToI64(n - ToI64(d * q))) == ToI32(TruncRem(n, d))
  {
    Sdiv64IsExact(n, d);
    if !(n == -B63 && d == -1) {
      RemainderOf(n, d);
      RemainderBelow(Abs(n), Abs(d));
      CastIsExact(d * q);
      CastIsExact(TruncRem(n, d));
    }
  }

  lemma CastIsExact32(x: int)
    requires -B31 < x <= B31
    ensures ToI32(x) == x <==> x != B31
  {
  }

  lemma RemainderRange(n: int, d: int)
    requires d != 0
    ensures 0 - Abs(d) < TruncRem(n, d) < Abs(d)
  {
    RemainderBelow(Abs(n), Abs(d));
  }

  /** smod64 is right for every n exactly when d is at most 2^31 in magnitude. */
  lemma Smod64IsExact(d: i64)
    requires d != 0
    ensures (forall n: i64 :: ToI32(TruncRem(n, d)) == TruncRem(n, d)) <==> Abs(d) <= B31
  {
    if Abs(d) > B31 {
      var n: i64 := B31;
      Quotient(B31, Abs(d), 0);
      Euclid(B31, Abs(d));
      CastIsExact32(TruncRem(n, d));
    } else {
      forall n: i64 ensures ToI32(TruncRem(n, d)) == TruncRem(n, d) {
        RemainderRange(n, d);
        CastIsExact32(TruncRem(n, d));
      }
    }
  }
}
