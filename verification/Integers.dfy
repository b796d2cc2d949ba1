/** Rust's signed arithmetic: truncating division and remainder, and wrapping casts. */
module Integers {
  const I32_MAX := 0x7FFF_FFFF
  const I32_MIN := -0x8000_0000
  const I64_MAX := 0x7FFF_FFFF_FFFF_FFFF
  const U32_SIZE := 0x1_0000_0000

  predicate InI32(n: int)
  {
    I32_MIN <= n <= I32_MAX
  }

  function Abs(n: int): nat
  {
    if n < 0 then -n else n
  }

  /** Division rounding toward zero. */
  function TruncDiv(n: int, d: nat): int
    requires d > 0
  {
    if n >= 0 then n / d else -((-n) / d)
  }

  /** The remainder with the sign of the dividend. */
  function TruncRem(n: int, d: nat): int
    requires d > 0
  {
    if n >= 0 then n % d else -((-n) % d)
  }

  /** `n as i32`. */
  function AsI32(n: int): int
  {
    (n - I32_MIN) % U32_SIZE + I32_MIN
  }

  /** `fetch_add(1)` on a 32-bit counter. */
  function Increment(n: nat): nat
  {
    if n + 1 == U32_SIZE then 0 else n + 1
  }

  lemma {:induction false} CountUp(n: nat)
    ensures Increment(n % U32_SIZE) == (n + 1) % U32_SIZE
  {}

  lemma {:induction false} Divides(n: nat, d: nat)
    requires d > 0
    ensures d * (n / d) <= n < d * (n / d) + d
  {}

  lemma {:induction false} Scaled(d: nat, a: int, b: int)
    ensures a <= b ==> d * a <= d * b
  {
    if a <= b { assert d * b == d * a + d * (b - a); }
  }

  lemma {:induction false} DividesUniquely(n: nat, d: nat, q: nat)
    requires d > 0 && d * q <= n < d * q + d
    ensures n / d == q
  {
    Divides(n, d);
    Scaled(d, q + 1, n / d);
    Scaled(d, n / d + 1, q);
    assert d * (q + 1) == d * q + d && d * (n / d + 1) == d * (n / d) + d;
  }

  lemma {:induction false} DivAtMost(n: nat, d: nat, b: nat)
    requires d > 0 && n <= b * d
    ensures n / d <= b
  {
    Divides(n, d);
    Scaled(d, b + 1, n / d);
    assert d * (b + 1) == b * d + d;
  }

  lemma {:induction false} Squares(a: nat, b: nat)
    ensures a <= b ==> a * a <= b * b
  {
    Scaled(a, a, b);
    Scaled(b, a, b);
    assert a * b == b * a;
  }

  /** Truncation keeps magnitudes below a bound. */
  lemma {:induction false} TruncAtMost(n: int, d: nat, b: nat)
    requires d > 0 && Abs(n) <= b * d
    ensures Abs(TruncDiv(n, d)) <= b
  {
    DivAtMost(Abs(n), d, b);
  }

  /** Truncation is off by less than one unit. */
  lemma {:induction false} TruncError(n: int, d: nat)
    requires d > 0
    ensures Abs(d * TruncDiv(n, d) - n) < d
  {
    Divides(Abs(n), d);
    if n < 0 { assert d * TruncDiv(n, d) == 0 - d * (Abs(n) / d); }
  }

  lemma {:induction false} QuotientBelow(d: nat, gap: nat, k: nat)
    requires d > 0 && d * gap < k + d
    ensures gap <= k / d + 1
  {
    Divides(k, d);
    Scaled(d, k / d + 2, gap);
    assert d * (k / d + 2) == d * (k / d) + 2 * d;
  }

  lemma {:induction false} Distributes(a: int, b: int, c: int)
    ensures (a + b) * c == a * c + b * c
  {}

  lemma {:induction false} ScaledGap(d: nat, p: int, q: int)
    ensures d * Abs(p - q) == Abs(d * p - d * q)
  {
    assert d * p - d * q == d * (p - q);
  }

  /** `x` lies between zero and `n`, less than `d` short of it. */
  predicate Rounds(n: int, d: nat, x: int)
  {
    if n >= 0 then 0 <= x <= n < x + d else n <= x <= 0 && x < n + d
  }

  lemma {:induction false} RestOf(n: int, d: nat, q: nat)
    requires d * q <= Abs(n) < d * q + d
    ensures Rounds(n, d, d * if n >= 0 then q as int else 0 - q)
  {
    Scaled(d, 0, q);
    assert d * (0 - q) == 0 - d * q;
  }

  /** Truncation leaves a rest with the sign of the dividend. */
  lemma {:induction false} TruncRest(n: int, d: nat)
    requires d > 0
    ensures Rounds(n, d, d * TruncDiv(n, d))
  {
    Divides(Abs(n), d);
    RestOf(n, d, Abs(n) / d);
  }

  lemma {:induction false} MultiplesNear(a: int, b: int, d: nat, k: nat, x: int, y: int)
    requires Abs(a - b) <= k && Rounds(a, d, x) && Rounds(b, d, y)
    ensures Abs(x - y) < k + d
  {}

  lemma {:induction false} RoundsNear(a: int, b: int, d: nat, k: nat, p: int, q: int)
    requires d > 0 && Abs(a - b) <= k && Rounds(a, d, d * p) && Rounds(b, d, d * q)
    ensures Abs(p - q) <= k / d + 1
  {
    MultiplesNear(a, b, d, k, d * p, d * q);
    ScaledGap(d, p, q);
    QuotientBelow(d, Abs(p - q), k);
  }

  /** Numbers at most `k` apart have quotients at most `k / d + 1` apart. */
  lemma {:induction false} TruncNear(a: int, b: int, d: nat, k: nat)
    requires d > 0 && Abs(a - b) <= k
    ensures Abs(TruncDiv(a, d) - TruncDiv(b, d)) <= k / d + 1
  {
    TruncRest(a, d);
    TruncRest(b, d);
    RoundsNear(a, b, d, k, TruncDiv(a, d), TruncDiv(b, d));
  }
}
