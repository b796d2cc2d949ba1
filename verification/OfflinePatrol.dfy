/** Angles of the offline patrol: wrapping, a sine table and dead reckoning, all in integers. */
module PatrolAngles {
  import opened Integers

  const FULL_TURN := 36000
  const HALF_TURN := 18000

  /** The angle congruent to `n` in (-18000, 18000]. */
  function Wrapped(n: int): int
  {
    HALF_TURN - (HALF_TURN - n) % FULL_TURN
  }

  /** `Wrapped` is the only angle of that range congruent to `n`. */
  lemma {:induction false} WrappedIs(n: int, r: int, turns: int)
    requires -HALF_TURN < r <= HALF_TURN && r == n + FULL_TURN * turns
    ensures Wrapped(n) == r
  {
    assert HALF_TURN - n == (HALF_TURN - r) + FULL_TURN * turns;
    WholeTurns(HALF_TURN - r, turns);
  }

  lemma {:induction false} WholeTurns(n: int, turns: int)
    ensures (n + FULL_TURN * turns) % FULL_TURN == n % FULL_TURN
  {}

  lemma {:induction false} WrappedTurns(n: int) returns (turns: int)
    ensures -HALF_TURN < Wrapped(n) <= HALF_TURN && Wrapped(n) == n + FULL_TURN * turns
  {
    turns := (HALF_TURN - n) / FULL_TURN;
  }

  /** Wrapping a part first changes nothing. */
  lemma {:induction false} WrappedSum(a: int, b: int)
    ensures Wrapped(Wrapped(a) + b) == Wrapped(a + b)
  {
    var k := WrappedTurns(a);
    var l := WrappedTurns(Wrapped(a) + b);
    WrappedIs(a + b, Wrapped(Wrapped(a) + b), k + l);
  }

  /** The wrapped angle is its own within half a turn, and off by one turn within the next half. */
  lemma {:induction false} WrappedNear(n: int)
    requires -FULL_TURN < n <= FULL_TURN
    ensures Wrapped(n) == if n <= -HALF_TURN then n + FULL_TURN else if n <= HALF_TURN then n else n - FULL_TURN
  {
    WrappedIs(n, if n <= -HALF_TURN then n + FULL_TURN else if n <= HALF_TURN then n else n - FULL_TURN,
              if n <= -HALF_TURN then 1 else if n <= HALF_TURN then 0 else -1);
  }

  /** The documented range excludes 18000; the code returns it for exactly one residue. */
  lemma {:induction false} WrappedBelowIff(n: int)
    ensures Wrapped(n) < HALF_TURN <==> n % FULL_TURN != HALF_TURN
    ensures Wrapped(18000) == 18000
  {
    WrappedNear(18000);
  }

  /** `wrap_cdeg`: the result is half-open at the bottom, not at the top. */
  method WrapCdeg(angle: int) returns (r: int)
    ensures r == Wrapped(angle) && -HALF_TURN < r <= HALF_TURN
  {
    r := angle;
    ghost var turns := 0;
    while r > HALF_TURN
      invariant r == angle + FULL_TURN * turns && (r > -HALF_TURN || r == angle)
    {
      r := r - FULL_TURN;
      turns := turns - 1;
    }
    while r <= -HALF_TURN
      invariant r == angle + FULL_TURN * turns && r <= HALF_TURN
    {
      r := r + FULL_TURN;
      turns := turns + 1;
    }
    WrappedIs(angle, r, turns);
  }

  // ── Sine ───────────────────────────────────────────────────────────────

  const STEP := 15

  /** The sine of multiples of 15 degrees, times 1000. */
  function Table(i: nat): nat
  {
    if i == 0 then 0 else if i == 1 then 259 else if i == 2 then 500 else if i == 3 then 707
    else if i == 4 then 866 else if i == 5 then 966 else 1000
  }

  /** The first quadrant, linearly interpolated. */
  function Interpolated(deg: nat): nat
  {
    if deg / STEP >= 6 then Table(6)
    else
      var (a, b) := (Table(deg / STEP), Table(deg / STEP + 1));
      a + (b - a) * (deg % STEP) / STEP
  }

  /** The sine of 0 to 359 degrees. */
  function SinOf(deg: nat): int
  {
    if deg <= 90 then Interpolated(deg)
    else if deg <= 180 then Interpolated(180 - deg)
    else if deg <= 270 then 0 - Interpolated(deg - 180)
    else if deg <= 360 then 0 - Interpolated(360 - deg)
    else 0
  }

  function Normalised(deg: int): int
  {
    TruncRem(TruncRem(deg, 360) + 360, 360)
  }

  function Sin(deg: int): int
  {
    NormalisedIs(deg);
    SinOf(Normalised(deg))
  }

  function Cos(deg: int): int
  {
    Sin(90 - deg)
  }

  lemma {:induction false} NormalisedIs(deg: int)
    ensures Normalised(deg) == deg % 360
  {}

  lemma {:induction false} InterpolatedBetween(deg: nat)
    ensures Interpolated(deg) <= 1000
  {
    if deg / STEP < 6 {
      var (a, b) := (Table(deg / STEP), Table(deg / STEP + 1));
      Part(b - a, deg % STEP);
    }
  }

  lemma {:induction false} Part(rise: nat, frac: nat)
    requires frac < STEP
    ensures rise * frac / STEP <= rise
  {
    Scaled(rise, frac, STEP);
    DivAtMost(rise * frac, STEP, rise);
  }

  lemma {:induction false} SineBounded(deg: int)
    ensures Abs(Sin(deg)) <= 1000
  {
    var d := deg % 360;
    NormalisedIs(deg);
    InterpolatedBetween(d);
    InterpolatedBetween(Abs(180 - d));
    InterpolatedBetween(360 - d);
  }

  lemma {:induction false} SineOdd(deg: int)
    ensures Sin(-deg) == -Sin(deg)
  {
    NormalisedIs(deg);
    NormalisedIs(-deg);
    Opposite(deg);
    MirroredSine(deg % 360);
  }

  /** The sine repeats every 360 degrees, is odd and never exceeds 1000 in magnitude. */
  lemma {:induction false} SineLaws(deg: int)
    ensures Sin(deg + 360) == Sin(deg)
    ensures Sin(-deg) == -Sin(deg)
    ensures Abs(Sin(deg)) <= 1000
  {
    NormalisedIs(deg);
    NormalisedIs(deg + 360);
    Opposite(deg);
    SineOdd(deg);
    SineBounded(deg);
  }

  lemma {:induction false} Opposite(deg: int)
    ensures (deg + 360) % 360 == deg % 360
    ensures (-deg) % 360 == if deg % 360 == 0 then 0 else 360 - deg % 360
  {}

  lemma {:induction false} MirroredSine(d: nat)
    requires d < 360
    ensures SinOf(if d == 0 then 0 else 360 - d) == -SinOf(d)
  {
    assert Interpolated(0) == 0;
  }

  /** Between two entries of the table the sine rises by at most 18 a degree. */
  lemma {:induction false} RisesBy(rise: nat, frac: nat)
    requires rise <= 259 && frac < STEP
    ensures rise * frac / STEP <= rise * (frac + 1) / STEP <= rise * frac / STEP + 18
  {
    var (a, b) := (rise * frac, rise * (frac + 1));
    assert b == a + rise;
  }

  lemma {:induction false} InterpolatedStep(deg: nat)
    requires deg < 90
    ensures Interpolated(deg) <= Interpolated(deg + 1) <= Interpolated(deg) + 18
  {
    var (i, frac) := (deg / STEP, deg % STEP);
    var rise := Table(i + 1) - Table(i);
    RisesBy(rise, frac);
    NextDegree(deg);
    if frac + 1 == STEP { assert rise * STEP / STEP == rise; }
  }

  lemma {:induction false} NextDegree(deg: nat)
    ensures if deg % STEP + 1 == STEP then (deg + 1) / STEP == deg / STEP + 1 && (deg + 1) % STEP == 0
            else (deg + 1) / STEP == deg / STEP && (deg + 1) % STEP == deg % STEP + 1
  {}

  lemma {:induction false} SinOfStep(d: nat)
    requires d < 360
    ensures Abs(SinOf(d + 1) - SinOf(d)) <= 18
  {
    assert Interpolated(0) == 0;
    if d < 90 {
      InterpolatedStep(d);
    } else if d < 180 {
      InterpolatedStep(179 - d);
    } else if d < 270 {
      InterpolatedStep(d - 180);
    } else {
      InterpolatedStep(359 - d);
    }
  }

  lemma {:induction false} SineStep(deg: int)
    ensures Abs(Sin(deg + 1) - Sin(deg)) <= 18
  {
    NormalisedIs(deg);
    NormalisedIs(deg + 1);
    SinOfStep(deg % 360);
    assert SinOf(360) == 0 == SinOf(0);
    NextOnCircle(deg);
  }

  lemma {:induction false} NextOnCircle(deg: int)
    ensures (deg + 1) % 360 == if deg % 360 == 359 then 0 else deg % 360 + 1
  {}

  /** The sine moves by at most 18 thousandths a degree. */
  lemma {:induction false} SineSteps(deg: int, n: nat)
    ensures Abs(Sin(deg + n) - Sin(deg)) <= 18 * n
  {
    if n > 0 {
      SineSteps(deg, n - 1);
      SineStep(deg + n - 1);
    }
  }

  lemma {:induction false} CosineSteps(deg: int, n: nat)
    ensures Abs(Cos(deg + n) - Cos(deg)) <= 18 * n
  {
    SineSteps(90 - (deg + n), n);
    assert 90 - (deg + n) + n == 90 - deg;
  }

  /** The squared length of the unit vector the table gives is within two percent of a million. */
  predicate NearUnit(s: int, c: int)
  {
    980_000 <= s * s + c * c <= 1_000_237
  }

  /** `x` is `p / 15`, rounded down. */
  lemma {:induction false} FifteenthSquared(x: nat, p: nat)
    requires 15 * x <= p < 15 * x + 15 && p >= 14
    ensures (p - 14) * (p - 14) <= 225 * (x * x) <= p * p
  {
    Squares(15 * x, p);
    Squares(p - 14, 15 * x);
    assert 15 * x * (15 * x) == 225 * (x * x);
  }

  lemma {:induction false} BelowFifteen(f: nat)
    requires f <= 15
    ensures 15 * f - 56 <= f * f <= 15 * f
  {
    if f <= 7 {
      Product15(7 - f, 8 - f);
      assert (7 - f) * (8 - f) == 56 - 15 * f + f * f;
    } else {
      Product15(f - 7, f - 8);
      assert (f - 7) * (f - 8) == 56 - 15 * f + f * f;
    }
    Scaled(f, f, 15);
  }

  lemma {:induction false} Product15(a: nat, b: nat)
    ensures a * b >= 0
  {}

  lemma {:induction false} LessFourteen(p: int)
    ensures (p - 14) * (p - 14) == p * p - 28 * p + 196
  {}

  lemma {:induction false} Expanded(a: int, r: int, f: int)
    ensures (a + r * f) * (a + r * f) == a * a + 2 * (a * r) * f + r * r * (f * f)
  {}

  /** What is known of a coordinate with fifteenfold `p`, its square `pp` and the square `ss` of the rounded one. */
  predicate Rounded(p: int, pp: int, ss: int)
  {
    pp - 28 * p + 196 <= 225 * ss <= pp
  }

  lemma {:induction false} RoundedAt(x: nat, p: nat)
    requires 15 * x <= p < 15 * x + 15 && p >= 14
    ensures Rounded(p, p * p, x * x)
  {
    FifteenthSquared(x, p);
    LessFourteen(p);
  }

  lemma {:induction false} Sum0(f: nat, ff: int, p: int, q: int, pp: int, qq: int, ss: int, cc: int)
    requires f < 15 && 15 * f - 56 <= ff <= 15 * f && p == 0 + 259 * f && q == 15000 - 34 * f
    requires pp == 0 + 0 * f + 67081 * ff && qq == 225000000 - 1020000 * f + 1156 * ff
    requires (Rounded(p, pp, ss) || (f == 0 && ss == 0)) && Rounded(q, qq, cc)
    ensures 980_000 <= ss + cc <= 1_000_237
  {}

  lemma {:induction false} UnitFrom0(f: nat, s: nat, c: nat)
    requires f < 15 && s == 0 + 259 * f / 15 && c == 966 + 34 * (15 - f) / 15
    ensures NearUnit(s, c)
  {
    var (p, q) := (0 + 259 * f, 15000 - 34 * f);
    BelowFifteen(f);
    if f > 0 { RoundedAt(s, p); }
    RoundedAt(c, q);
    Expanded(0, 259, f);
    Expanded(15000, -34, f);
    Sum0(f, f * f, p, q, p * p, q * q, s * s, c * c);
  }

  lemma {:induction false} Sum15(f: nat, ff: int, p: int, q: int, pp: int, qq: int, ss: int, cc: int)
    requires f < 15 && 15 * f - 56 <= ff <= 15 * f && p == 3885 + 241 * f && q == 14490 - 100 * f
    requires pp == 15093225 + 1872570 * f + 58081 * ff && qq == 209960100 - 2898000 * f + 10000 * ff
    requires Rounded(p, pp, ss) && Rounded(q, qq, cc)
    ensures 980_000 <= ss + cc <= 1_000_237
  {}

  lemma {:induction false} UnitFrom15(f: nat, s: nat, c: nat)
    requires f < 15 && s == 259 + 241 * f / 15 && c == 866 + 100 * (15 - f) / 15
    ensures NearUnit(s, c)
  {
    var (p, q) := (3885 + 241 * f, 14490 - 100 * f);
    BelowFifteen(f);
    RoundedAt(s, p);
    RoundedAt(c, q);
    Expanded(3885, 241, f);
    Expanded(14490, -100, f);
    Sum15(f, f * f, p, q, p * p, q * q, s * s, c * c);
  }

  lemma {:induction false} Sum30(f: nat, ff: int, p: int, q: int, pp: int, qq: int, ss: int, cc: int)
    requires f < 15 && 15 * f - 56 <= ff <= 15 * f && p == 7500 + 207 * f && q == 12990 - 159 * f
    requires pp == 56250000 + 3105000 * f + 42849 * ff && qq == 168740100 - 4130820 * f + 25281 * ff
    requires Rounded(p, pp, ss) && Rounded(q, qq, cc)
    ensures 980_000 <= ss + cc <= 1_000_237
  {}

  lemma {:induction false} UnitFrom30(f: nat, s: nat, c: nat)
    requires f < 15 && s == 500 + 207 * f / 15 && c == 707 + 159 * (15 - f) / 15
    ensures NearUnit(s, c)
  {
    var (p, q) := (7500 + 207 * f, 12990 - 159 * f);
    BelowFifteen(f);
    RoundedAt(s, p);
    RoundedAt(c, q);
    Expanded(7500, 207, f);
    Expanded(12990, -159, f);
    Sum30(f, f * f, p, q, p * p, q * q, s * s, c * c);
  }

  /** The table between two entries, either end included. */
  lemma {:induction false} InterpolatedAt(i: nat, f: nat)
    requires i < 6 && f <= 15
    ensures Interpolated(15 * i + f) == Table(i) + (Table(i + 1) - Table(i)) * f / 15
  {
    if f == 15 {
      assert (15 * i + f) / 15 == i + 1 && (15 * i + f) % 15 == 0;
    } else {
      assert (15 * i + f) / 15 == i && (15 * i + f) % 15 == f;
    }
  }

  lemma {:induction false} UnitBlock(i: nat, f: nat)
    requires i < 3 && f < 15
    ensures NearUnit(Interpolated(15 * i + f), Interpolated(90 - (15 * i + f)))
  {
    var (s, c) := (Interpolated(15 * i + f), Interpolated(15 * (5 - i) + (15 - f)));
    InterpolatedAt(i, f);
    InterpolatedAt(5 - i, 15 - f);
    assert 15 * (5 - i) + (15 - f) == 90 - (15 * i + f);
    if i == 0 { UnitFrom0(f, s, c); } else if i == 1 { UnitFrom15(f, s, c); } else { UnitFrom30(f, s, c); }
  }

  lemma {:induction false} UnitQuadrant(d: nat)
    requires d <= 90
    ensures NearUnit(Interpolated(d), Interpolated(90 - d))
  {
    var e := if d < 45 then d else 90 - d;
    if d != 45 { UnitBlock(e / 15, e % 15); }
  }

  lemma {:induction false} QuarterBack(deg: int)
    ensures (90 - deg) % 360 == if deg % 360 <= 90 then 90 - deg % 360 else 450 - deg % 360
  {}

  lemma {:induction false} Folded(d: nat) returns (k: nat)
    requires d < 360
    ensures k <= 90 && Abs(SinOf(d)) == Interpolated(k)
    ensures Abs(SinOf(if d <= 90 then 90 - d else 450 - d)) == Interpolated(90 - k)
  {
    assert Interpolated(0) == 0;
    k := if d <= 90 then d else if d <= 180 then 180 - d else if d <= 270 then d - 180 else 360 - d;
  }

  lemma {:induction false} SignsDoNotMatter(s: int, c: int)
    requires NearUnit(Abs(s), Abs(c))
    ensures NearUnit(s, c)
  {
    assert Abs(s) * Abs(s) == s * s && Abs(c) * Abs(c) == c * c;
  }

  /** Sine and cosine keep within two percent of the unit circle, for every degree. */
  lemma {:induction false} UnitCircle(deg: int)
    ensures NearUnit(Sin(deg), Cos(deg))
  {
    NormalisedIs(deg);
    NormalisedIs(90 - deg);
    QuarterBack(deg);
    var k := Folded(deg % 360);
    UnitQuadrant(k);
    SignsDoNotMatter(Sin(deg), Cos(deg));
  }

  /** So a reckoned position, before rounding, keeps the distance driven from the origin, to about one percent. */
  lemma {:induction false} ReckonedRadius(dist: int, deg: int)
    ensures var (x, y) := (dist * Cos(deg), dist * Sin(deg));
            980_000 * (dist * dist) <= x * x + y * y <= 1_000_237 * (dist * dist)
  {
    var (s, c) := (Sin(deg), Cos(deg));
    UnitCircle(deg);
    Spread(dist, s, c);
    Scaled(dist * dist, 980_000, s * s + c * c);
    Scaled(dist * dist, s * s + c * c, 1_000_237);
  }

  lemma {:induction false} Spread(d: int, s: int, c: int)
    ensures d * d >= 0 && (d * c) * (d * c) + (d * s) * (d * s) == d * d * (s * s + c * c)
  {
    assert (d * c) * (d * c) == d * d * (c * c);
    assert (d * s) * (d * s) == d * d * (s * s);
  }

  /** A coordinate of `dist` at a bearing never exceeds the distance travelled. */
  lemma {:induction false} ReckoningWithinDistance(dist: int, deg: int)
    ensures Abs(TruncDiv(dist * Sin(deg), 1000)) <= Abs(dist)
    ensures Abs(TruncDiv(dist * Cos(deg), 1000)) <= Abs(dist)
  {
    SineLaws(deg);
    SineLaws(90 - deg);
    AtMostThousand(dist, Sin(deg));
    AtMostThousand(dist, Cos(deg));
  }

  lemma {:induction false} AtMostThousand(dist: int, s: int)
    requires Abs(s) <= 1000
    ensures Abs(TruncDiv(dist * s, 1000)) <= Abs(dist)
  {
    Scaled(Abs(dist), Abs(s), 1000);
    assert Abs(dist * s) == Abs(dist) * Abs(s);
    TruncAtMost(dist * s, 1000, Abs(dist));
  }

  // ── Arctangent ─────────────────────────────────────────────────────────

  /** Whole degrees from the nearer axis. */
  function Octant(small: nat, large: nat): nat
  {
    if large == 0 then 0
    else
      var d := 45 * small / (large + small / 4);
      if d < 45 then d else 45
  }

  function Atan2(y: int, x: int): int
  {
    if x == 0 && y == 0 then 0
    else
      var deg := if Abs(x) >= Abs(y) then Octant(Abs(y), Abs(x)) else 90 - Octant(Abs(x), Abs(y));
      var angle := deg * 100;
      if x >= 0 && y >= 0 then angle
      else if x < 0 && y >= 0 then HALF_TURN - angle
      else if x < 0 then angle - HALF_TURN
      else 0 - angle
  }

  /** The bearing is exact on the axes; on the diagonals it reads 36 degrees off the nearer axis instead of 45. */
  lemma {:induction false} Atan2OnRays(k: nat)
    requires k > 0
    ensures Atan2(0, k) == 0 && Atan2(k, 0) == 9000 && Atan2(0, -(k as int)) == 18000 && Atan2(-(k as int), 0) == -9000
    ensures Atan2(4 * k, 4 * k) == 3600 && Atan2(4 * k, -4 * (k as int)) == 14400
  {
    DividesUniquely(0, k, 0);
    DividesUniquely(180 * k, 5 * k, 36);
  }

  /** Cross products of two ratios `45 * s / d` with nearby parts. */
  lemma {:induction false} CrossBound(s: nat, l: nat, s': nat, l': nat, m: nat)
    requires s <= l && s' <= l' && Abs(s - s') <= m && Abs(l - l') <= m
    ensures var (d, d') := (l + s / 4, l' + s' / 4);
            4 * (s * d' - s' * d) <= 8 * m * d + (2 * m + 4) * d'
  {
    var (p, p') := (s / 4, s' / 4);
    assert s * (l' + p') - s' * (l + p) == s * (l' - l) + l * (s - s') + p' * (s - s') + s' * (p' - p);
    Product(s, l' - l, m);
    Product(l, s - s', m);
    Product(p', s - s', m);
    Product(s', p' - p, m / 4 + 1);
    CrossSum(s, l, s', l', m);
  }

  lemma {:induction false} CrossSum(s: nat, l: nat, s': nat, l': nat, m: nat)
    requires s <= l && s' <= l'
    ensures 4 * (s * m + l * m + s' / 4 * m + s' * (m / 4 + 1)) <= 8 * m * (l + s / 4) + (2 * m + 4) * (l' + s' / 4)
  {
    CrossLeft(s, l, m, s / 4);
    CrossRight(s', l', m, s' / 4, m / 4);
  }

  lemma {:induction false} CrossLeft(s: nat, l: nat, m: nat, r: nat)
    requires s <= l
    ensures 4 * (s * m + l * m) <= 8 * m * (l + r)
  {
    Scaled(m, s, l);
    Scaled(8 * m, l, l + r);
    assert s * m == m * s && l * m == m * l && 8 * m * l == 8 * (m * l);
  }

  lemma {:induction false} CrossRight(s: nat, l: nat, m: nat, r: nat, k: nat)
    requires s <= l && 4 * r <= s && 4 * k <= m
    ensures 4 * (r * m + s * (k + 1)) <= (2 * m + 4) * (l + r)
  {
    CrossFirst(m, r, l);
    CrossSecond(s, l, m, r, k);
    Distributes(m, m + 4, l + r);
  }

  lemma {:induction false} CrossFirst(m: nat, r: nat, l: nat)
    requires 4 * r <= l
    ensures 4 * (r * m) <= m * (l + r)
  {
    Scaled(m, 4 * r, l + r);
    assert 4 * (r * m) == m * (4 * r);
  }

  lemma {:induction false} CrossSecond(s: nat, l: nat, m: nat, r: nat, k: nat)
    requires s <= l && 4 * k <= m
    ensures 4 * (s * (k + 1)) <= (m + 4) * (l + r)
  {
    Scaled(s, 4 * (k + 1), m + 4);
    Scaled(m + 4, s, l + r);
    assert 4 * (s * (k + 1)) == s * (4 * (k + 1)) && s * (m + 4) == (m + 4) * s;
  }

  lemma {:induction false} Product(a: nat, x: int, m: nat)
    requires x <= m
    ensures a * x <= a * m
  {
    Scaled(a, x, m);
  }

  lemma {:induction false} CrossQuotient(a: nat, d: nat, q: nat, a': nat, d': nat, q': nat)
    requires d > 0 && d' > 0 && d * q <= a && a' < d' * q' + d'
    ensures d * d' * (q - q' - 1) < a * d' - a' * d
  {
    Scaled(d', d * q, a);
    Scaled(d, a' + 1, d' * (q' + 1));
    assert d' * (d * q) == d * d' * q && d * (d' * (q' + 1)) == d * d' * (q' + 1);
    assert d * d' * q - d * d' * (q' + 1) == d * d' * (q - q' - 1);
    assert d * (a' + 1) == a' * d + d;
  }

  lemma {:induction false} Weighted(a: nat, b: nat, d: nat, d': nat, far: nat)
    requires far <= d && far <= d'
    ensures far * (a * d + b * d') <= (a + b) * (d * d')
  {
    Scaled(a * d, far, d');
    Scaled(b * d', far, d);
    assert far * (a * d + b * d') == a * d * far + b * d' * far;
    assert a * d * d' == a * (d * d') && b * d' * d == b * (d * d');
    assert (a + b) * (d * d') == a * (d * d') + b * (d * d');
  }

  lemma {:induction false} Cancel(dd: nat, far: nat, x: int, cross: int, c: nat)
    requires dd > 0 && far > 0 && far * (4 * cross) <= c * dd && dd * x < 45 * cross
    ensures 4 * far * x < 45 * c
  {
    Scaled(far, dd * x + 1, 45 * cross);
    assert far * (dd * x + 1) == far * (dd * x) + far;
    assert 4 * (far * (45 * cross)) == 45 * (far * (4 * cross));
    Scaled(dd, 45 * c, 4 * far * x);
    assert dd * (4 * far * x) == 4 * (far * (dd * x));
    assert dd * (45 * c) == 45 * (c * dd);
  }

  lemma {:induction false} CrossSmall(d: nat, d': nat, cross: int, m: nat, far: nat)
    requires far <= d && far <= d' && 4 * cross <= 8 * m * d + (2 * m + 4) * d'
    ensures far * (4 * cross) <= (10 * m + 4) * (d * d')
  {
    Weighted(8 * m, 2 * m + 4, d, d', far);
    Scaled(far, 4 * cross, 8 * m * d + (2 * m + 4) * d');
  }

  /** Nearby ratios round to nearby degrees. */
  lemma {:induction false} NearQuotients(s: nat, d: nat, q: nat, s': nat, d': nat, q': nat, m: nat, far: nat)
    requires 0 < far <= d && far <= d' && d * q <= 45 * s && 45 * s' < d' * q' + d'
    requires 4 * (s * d' - s' * d) <= 8 * m * d + (2 * m + 4) * d'
    ensures 4 * far * (q - q' - 1) < 45 * (10 * m + 4)
  {
    var cross := s * d' - s' * d;
    CrossSmall(d, d', cross, m, far);
    CrossQuotient(45 * s, d, q, 45 * s', d', q');
    assert 45 * s * d' - 45 * s' * d == 45 * cross;
    assert d * d' > 0 by { Scaled(d, 1, d'); }
    Cancel(d * d', far, q - q' - 1, cross, 10 * m + 4);
  }

  lemma {:induction false} OctantQuotient(s: nat, l: nat) returns (q: nat)
    requires l > 0
    ensures (l + s / 4) * q <= 45 * s < (l + s / 4) * q + (l + s / 4)
    ensures Octant(s, l) == if q < 45 then q else 45
  {
    q := 45 * s / (l + s / 4);
    Divides(45 * s, l + s / 4);
  }

  lemma {:induction false} OctantsNear(s: nat, l: nat, s': nat, l': nat, m: nat, far: nat)
    requires 0 < far <= l && far <= l' && s <= l && s' <= l' && Abs(s - s') <= m && Abs(l - l') <= m
    ensures 2 * far * (Abs(Octant(s, l) as int - Octant(s', l') as int) - 1) < 45 * (5 * m + 2)
  {
    var q := OctantQuotient(s, l);
    var q' := OctantQuotient(s', l');
    CrossBound(s, l, s', l', m);
    NearQuotients(s, l + s / 4, q, s', l' + s' / 4, q', m, far);
    CrossBound(s', l', s, l, m);
    NearQuotients(s', l' + s' / 4, q', s, l + s / 4, q, m, far);
    Halved(far, q, q', Octant(s, l), Octant(s', l'), m);
  }

  lemma {:induction false} Halved(far: nat, q: int, q': int, o: int, o': int, m: nat)
    requires 4 * far * (q - q' - 1) < 45 * (10 * m + 4) && 4 * far * (q' - q - 1) < 45 * (10 * m + 4)
    requires o == (if q < 45 then q else 45) && o' == if q' < 45 then q' else 45
    ensures 2 * far * (Abs(o - o') - 1) < 45 * (5 * m + 2)
  {
    Scaled(2 * far, Abs(o - o') - 1, Abs(q - q') - 1);
    assert 4 * far * (q - q' - 1) == 2 * (2 * far * (q - q' - 1));
    assert 4 * far * (q' - q - 1) == 2 * (2 * far * (q' - q - 1));
  }

  lemma {:induction false} Atan2InRange(y: int, x: int)
    ensures -HALF_TURN <= Atan2(y, x) <= HALF_TURN
    ensures x >= 0 ==> -9000 <= Atan2(y, x) <= 9000
    ensures y > 0 ==> 0 <= Atan2(y, x)
    ensures y < 0 ==> Atan2(y, x) <= 0
  {}
}

/** The offline patrol: waypoints followed in a loop by odometry while the brain is out of reach. */
module OfflinePatrol {
  import opened Bytes
  import opened Integers
  import opened PatrolAngles

  const MAX_WAYPOINTS := 32
  const PATROL_SPEED := 25
  const TURN_SPEED := 20
  const REACH_MM := 500
  const TOLERANCE_CDEG := 2000
  const BATTERY_STOP_MV := 6400

  datatype Waypoint = Waypoint(x: int, y: int)

  datatype Sensors = Sensors(batteryMv: nat, headingCdeg: int, distMm: int)

  datatype State = State(waypoints: seq<Waypoint>, index: nat, active: bool, laps: nat)

  /** A motor command, or none when the layer does not speak. */
  datatype Command = Silent | Drive(left: int, right: int)

  const STOP := Drive(0, 0)

  const INITIAL := State([], 0, false, 0)

  predicate InI64(n: int)
  {
    -I64_MAX - 1 <= n <= I64_MAX
  }

  function HeadingDeg(s: Sensors): int
  {
    AsI32(TruncDiv(s.headingCdeg, 100))
  }

  function OdomX(s: Sensors): int
  {
    TruncDiv(s.distMm * Cos(HeadingDeg(s)), 1000)
  }

  function OdomY(s: Sensors): int
  {
    TruncDiv(s.distMm * Sin(HeadingDeg(s)), 1000)
  }

  function SquaredDistance(dx: int, dy: int): int
  {
    dx * dx + dy * dy
  }

  /** The checked arithmetic on the way to the squared distance does not overflow. */
  predicate Measurable(s: Sensors, w: Waypoint)
  {
    && InI32(90 - HeadingDeg(s))
    && InI64(s.distMm * Cos(HeadingDeg(s))) && InI64(s.distMm * Sin(HeadingDeg(s)))
    && var (dx, dy) := (w.x - OdomX(s), w.y - OdomY(s));
       InI64(dx * dx) && InI64(dy * dy) && InI64(SquaredDistance(dx, dy))
  }

  predicate Reached(s: Sensors, w: Waypoint)
  {
    SquaredDistance(w.x - OdomX(s), w.y - OdomY(s)) < REACH_MM * REACH_MM
  }

  /** The command toward a waypoint not yet reached. */
  function Steer(s: Sensors, w: Waypoint): Option<Command>
  {
    var err := Atan2(w.y - OdomY(s), w.x - OdomX(s)) - s.headingCdeg;
    if !InI64(err) then None
    else
      var e := Wrapped(err);
      Some(if Abs(e) <= TOLERANCE_CDEG then Drive(PATROL_SPEED, PATROL_SPEED)
           else if e > 0 then Drive(-TURN_SPEED, TURN_SPEED)
           else Drive(TURN_SPEED, -TURN_SPEED))
  }

  predicate Halted(st: State, s: Sensors)
  {
    st.waypoints == [] || 0 < s.batteryMv < BATTERY_STOP_MV
  }

  function Target(st: State): Waypoint
    requires st.waypoints != []
  {
    st.waypoints[st.index % |st.waypoints|]
  }

  function Arrived(st: State): State
    requires st.waypoints != []
  {
    var next := (st.index + 1) % |st.waypoints|;
    st.(index := next, laps := if next == 0 then Increment(st.laps) else st.laps)
  }

  /** One evaluation of the layer; `None` is a panic of the checked arithmetic. */
  function Patrol(st: State, s: Sensors): Option<(State, Command)>
  {
    if !st.active then Some((st, Silent))
    else if Halted(st, s) then Some((st, STOP))
    else if !Measurable(s, Target(st)) then None
    else if Reached(s, Target(st)) then Some((Arrived(st), STOP))
    else
      var c := Steer(s, Target(st));
      if c.None? then None else Some((st, c.value))
  }

  class OfflineLayer {
    const buffer: array<Waypoint>
    var count: nat
    var index: nat
    var active: bool
    var laps: nat

    ghost predicate Valid()
      reads this
    {
      buffer.Length == MAX_WAYPOINTS && count <= MAX_WAYPOINTS
    }

    ghost function Current(): State
      requires Valid()
      reads this, buffer
    {
      State(buffer[..count], index, active, laps)
    }

    constructor ()
      ensures Valid() && Current() == INITIAL && fresh(buffer)
    {
      buffer := new Waypoint[MAX_WAYPOINTS](_ => Waypoint(0, 0));
      count, index, active, laps := 0, 0, false, 0;
    }

    method AddWaypoint(x: int, y: int) returns (stored: bool)
      requires Valid()
      modifies this`count, buffer
      ensures Valid() && (stored <==> old(count) < MAX_WAYPOINTS)
      ensures Current() == Step(old(Current()), Add(x, y)).value
    {
      if count >= MAX_WAYPOINTS { return false; }
      buffer[count] := Waypoint(x, y);
      count := count + 1;
      return true;
    }

    method ClearWaypoints()
      requires Valid()
      modifies this
      ensures Valid() && Current() == Step(old(Current()), Clear).value
    {
      count := 0;
      index := 0;
    }

    method Activate()
      requires Valid()
      modifies this
      ensures Valid() && Current() == Step(old(Current()), Activating).value
    {
      if !active {
        active := true;
        index := 0;
        laps := 0;
      }
    }

    method Deactivate()
      requires Valid()
      modifies this
      ensures Valid() && Current() == Step(old(Current()), Deactivating).value
    {
      active := false;
    }

    /** On to the next waypoint, and one lap more at the end of the list. */
    method Arrive()
      requires Valid() && count > 0
      modifies this`index, this`laps
      ensures Current() == Arrived(old(Current()))
    {
      var next := (index + 1) % count;
      index := next;
      if next == 0 { laps := Increment(laps); }
    }

    method LayerPatrol(s: Sensors) returns (c: Option<Command>)
      requires Valid()
      modifies this`index, this`laps
      ensures Valid()
      ensures c.None? ==> Patrol(old(Current()), s) == None
      ensures c.Some? ==> Patrol(old(Current()), s) == Some((Current(), c.value))
    {
      if !active { return Some(Silent); }
      if count == 0 { return Some(STOP); }
      if s.batteryMv > 0 && s.batteryMv < BATTERY_STOP_MV { return Some(STOP); }
      var wp := buffer[index % count];
      if !Measurable(s, wp) { return None; }
      var dx, dy := wp.x - OdomX(s), wp.y - OdomY(s);
      var distSq := dx * dx + dy * dy;
      if distSq < REACH_MM * REACH_MM {
        Arrive();
        return Some(STOP);
      }
      c := Heading(s, dy, dx, wp);
    }
  }

  /** The turn-or-drive decision at the end of the layer. */
  method Heading(s: Sensors, dy: int, dx: int, ghost w: Waypoint) returns (c: Option<Command>)
    requires dy == w.y - OdomY(s) && dx == w.x - OdomX(s)
    ensures c == Steer(s, w)
  {
    var desired := Atan2(dy, dx);
    if !InI64(desired - s.headingCdeg) { return None; }
    var err := WrapCdeg(desired - s.headingCdeg);
    if Abs(err) > TOLERANCE_CDEG {
      if err > 0 { return Some(Drive(-TURN_SPEED, TURN_SPEED)); }
      return Some(Drive(TURN_SPEED, -TURN_SPEED));
    }
    return Some(Drive(PATROL_SPEED, PATROL_SPEED));
  }

  // ── What a turn does to the heading error ──────────────────────────────

  /** The readings after turning on the spot. The reckoned position turns with the heading. */
  function Turned(s: Sensors, angle: int): Sensors
  {
    s.(headingCdeg := s.headingCdeg + angle)
  }

  function Bearing(s: Sensors, w: Waypoint): int
  {
    Atan2(w.y - OdomY(s), w.x - OdomX(s))
  }

  /** The bearing of the waypoint relative to the heading, in (-18000, 18000]. */
  function HeadingError(s: Sensors, w: Waypoint): int
  {
    Wrapped(Bearing(s, w) - s.headingCdeg)
  }

  /** How far turning moves the bearing, because it moves the reckoned position. */
  function Drift(s: Sensors, w: Waypoint, angle: int): int
  {
    Wrapped(Bearing(Turned(s, angle), w) - Bearing(s, w))
  }

  /** Which way a command turns the robot: 1 counter-clockwise, -1 clockwise, 0 not at all. */
  function Turning(c: Command): int
  {
    if !c.Drive? || c.left == c.right then 0 else if c.right > c.left then 1 else -1
  }

  /** The command turns toward the waypoint, and not at all exactly within 20 degrees. */
  lemma {:induction false} SteersByError(s: Sensors, w: Waypoint)
    requires Steer(s, w).Some?
    ensures var (dir, e) := (Turning(Steer(s, w).value), HeadingError(s, w));
            && (dir == 0 <==> Abs(e) <= 2000)
            && (dir == 1 <==> e > 2000) && (dir == -1 <==> e < -2000)
            && Steer(s, w).value == if dir == 0 then Drive(25, 25) else Drive(-20 * dir, 20 * dir)
  {}

  lemma {:induction false} TurnedError(s: Sensors, w: Waypoint, angle: int)
    ensures HeadingError(Turned(s, angle), w) == Wrapped(HeadingError(s, w) - angle + Drift(s, w, angle))
  {
    var b, c, h := Bearing(s, w), Bearing(Turned(s, angle), w), s.headingCdeg;
    WrappedSum(c - b, HeadingError(s, w) - angle);
    WrappedSum(b - h, c - b - angle);
    assert c - b + (HeadingError(s, w) - angle) == HeadingError(s, w) + (c - b - angle);
    assert b - h + (c - b - angle) == c - (h + angle);
  }

  lemma {:induction false} TurnCloses(e: int, dir: int, t: int, drift: int)
    requires -HALF_TURN < e <= HALF_TURN && -HALF_TURN < drift <= HALF_TURN && 0 < t <= TOLERANCE_CDEG
    requires (dir == 1 && e > TOLERANCE_CDEG) || (dir == -1 && e < -TOLERANCE_CDEG)
    ensures var (a, d) := (Abs(e), dir * drift);
            Abs(Wrapped(e - dir * t + drift)) < a <==> t - 2 * a < d < t || d > FULL_TURN - 2 * a + t
    ensures Wrapped(e - dir * t + drift) == e - dir * t <==> drift == 0
  {
    if dir == 1 {
      assert dir * t == t && dir * drift == drift;
      WrappedNear(e - t + drift);
    } else {
      assert dir * t == -t && dir * drift == -drift;
      WrappedNear(e + t + drift);
    }
  }

  /**
    A turn command reduces the heading error if and only if the bearing moves less than the turn in
    its direction, and not so far back, or round, that the error is passed on the other side.
    */
  lemma {:induction false} TurnHelpsIff(s: Sensors, w: Waypoint, t: nat)
    requires Steer(s, w).Some? && Turning(Steer(s, w).value) != 0 && 0 < t <= TOLERANCE_CDEG
    ensures var dir := Turning(Steer(s, w).value);
            var (a, d) := (Abs(HeadingError(s, w)), dir * Drift(s, w, dir * t));
            && (Abs(HeadingError(Turned(s, dir * t), w)) < a <==> t - 2 * a < d < t || d > FULL_TURN - 2 * a + t)
            && (HeadingError(Turned(s, dir * t), w) == HeadingError(s, w) - dir * t <==> d == 0)
  {
    var dir := Turning(Steer(s, w).value);
    SteersByError(s, w);
    TurnedError(s, w, dir * t);
    var _ := WrappedTurns(Bearing(s, w) - s.headingCdeg);
    var _ := WrappedTurns(Bearing(Turned(s, dir * t), w) - Bearing(s, w));
    TurnCloses(HeadingError(s, w), dir, t, Drift(s, w, dir * t));
  }

  /** In particular it helps whenever the bearing moves less than the turn, either way. */
  lemma {:induction false} SmallDriftHelps(s: Sensors, w: Waypoint, t: nat)
    requires Steer(s, w).Some? && Turning(Steer(s, w).value) != 0 && 0 < t <= TOLERANCE_CDEG
    requires Abs(Drift(s, w, Turning(Steer(s, w).value) * t)) < t
    ensures Abs(HeadingError(Turned(s, Turning(Steer(s, w).value) * t), w)) < Abs(HeadingError(s, w))
  {
    SteersByError(s, w);
    TurnHelpsIff(s, w, t);
  }

  lemma {:induction false} ReckoningStands(s: Sensors, angle: int)
    requires s.distMm == 0 || HeadingDeg(Turned(s, angle)) == HeadingDeg(s)
    ensures OdomX(Turned(s, angle)) == OdomX(s) && OdomY(Turned(s, angle)) == OdomY(s)
  {
    if s.distMm == 0 {
      Nothing(Cos(HeadingDeg(s)));
      Nothing(Sin(HeadingDeg(s)));
      Nothing(Cos(HeadingDeg(Turned(s, angle))));
      Nothing(Sin(HeadingDeg(Turned(s, angle))));
    }
  }

  lemma {:induction false} Nothing(c: int)
    ensures TruncDiv(0 * c, 1000) == 0
  {}

  /** Without odometry distance, or within a whole degree, the reckoned position stands and the turn helps in full. */
  lemma {:induction false} StandingTurnHelps(s: Sensors, w: Waypoint, t: nat)
    requires Steer(s, w).Some? && Turning(Steer(s, w).value) != 0 && 0 < t <= TOLERANCE_CDEG
    requires var dir := Turning(Steer(s, w).value);
             s.distMm == 0 || HeadingDeg(Turned(s, dir * t)) == HeadingDeg(s)
    ensures var dir := Turning(Steer(s, w).value);
            HeadingError(Turned(s, dir * t), w) == HeadingError(s, w) - dir * t
  {
    var dir := Turning(Steer(s, w).value);
    ReckoningStands(s, dir * t);
    assert Drift(s, w, dir * t) == 0 by { WrappedNear(0); }
    TurnHelpsIff(s, w, t);
  }

  function MaxAbs(x: int, y: int): nat
  {
    if Abs(x) >= Abs(y) then Abs(x) else Abs(y)
  }

  function MinAbs(x: int, y: int): nat
  {
    if Abs(x) >= Abs(y) then Abs(y) else Abs(x)
  }

  predicate SameOctant(x: int, y: int, x': int, y': int)
  {
    (x >= 0 <==> x' >= 0) && (y >= 0 <==> y' >= 0) && (Abs(x) >= Abs(y) <==> Abs(x') >= Abs(y'))
  }

  lemma {:induction false} BearingGap(x: int, y: int, x': int, y': int)
    requires SameOctant(x, y, x', y') && 0 < MaxAbs(x, y) && 0 < MaxAbs(x', y')
    ensures Abs(Atan2(y, x) - Atan2(y', x'))
         == 100 * Abs(Octant(MinAbs(x, y), MaxAbs(x, y)) as int - Octant(MinAbs(x', y'), MaxAbs(x', y')) as int)
  {}

  lemma {:induction false} BearingsNear(x: int, y: int, x': int, y': int, m: nat, far: nat)
    requires SameOctant(x, y, x', y') && Abs(x - x') <= m && Abs(y - y') <= m
    requires 0 < far <= MaxAbs(x, y) && far <= MaxAbs(x', y')
    ensures 2 * far * (Abs(Atan2(y, x) - Atan2(y', x')) - 100) < 4500 * (5 * m + 2)
  {
    var (s, l, s', l') := (MinAbs(x, y), MaxAbs(x, y), MinAbs(x', y'), MaxAbs(x', y'));
    OctantsNear(s, l, s', l', m, far);
    BearingGap(x, y, x', y');
    Hundredfold(far, Abs(Octant(s, l) as int - Octant(s', l') as int));
  }

  lemma {:induction false} Hundredfold(far: nat, gap: nat)
    ensures 2 * far * (100 * gap - 100) == 100 * (2 * far * (gap - 1))
  {}

  /**
    Two offsets of the waypoint in the same octant, at most `m` apart in each coordinate and at least
    `far` long along the longer axis.
    */
  predicate FarOff(x: int, y: int, x': int, y': int, m: nat, far: nat)
  {
    && SameOctant(x, y, x', y') && Abs(x - x') <= m && Abs(y - y') <= m
    && 0 < far <= MaxAbs(x, y) && far <= MaxAbs(x', y')
  }

  lemma {:induction false} FarBearing(x: int, y: int, x': int, y': int, t: nat, m: nat, far: nat)
    requires FarOff(x, y, x', y', m, far)
    requires 4500 * (5 * m + 2) <= 2 * far * (t - 100) && t <= TOLERANCE_CDEG
    ensures Abs(Wrapped(Atan2(y', x') - Atan2(y, x))) < t
  {
    BearingsNear(x, y, x', y', m, far);
    GapBelow(far, Atan2(y, x), Atan2(y', x'), t, 4500 * (5 * m + 2));
  }

  /** Where the waypoint lies from the reckoned position. */
  function Offset(s: Sensors, w: Waypoint): (int, int)
  {
    (w.x - OdomX(s), w.y - OdomY(s))
  }

  lemma {:induction false} FarDrift(s: Sensors, w: Waypoint, angle: int, t: nat, o: (int, int), p: (int, int),
                                    m: nat, far: nat)
    requires o == Offset(s, w) && p == Offset(Turned(s, angle), w)
    requires FarOff(o.0, o.1, p.0, p.1, m, far) && 4500 * (5 * m + 2) <= 2 * far * (t - 100) && t <= TOLERANCE_CDEG
    ensures Abs(Drift(s, w, angle)) < t
  {
    FarBearing(o.0, o.1, p.0, p.1, t, m, far);
  }

  /** Headings below this do not overflow the 32-bit whole degrees. */
  const STEADY_CDEG := 200_000_000_000

  /** How far a turn by `t` moves the reckoned position at most, in each coordinate. */
  function Sway(dist: int, t: nat): nat
  {
    Abs(dist) * (18 * (t / 100 + 1)) / 1000 + 1
  }

  /** A turn by up to `t` moves the whole degrees of the heading by at most `t / 100 + 1`. */
  lemma {:induction false} DegreesTurned(s: Sensors, angle: int, t: nat)
    requires Abs(angle) <= t <= TOLERANCE_CDEG && Abs(s.headingCdeg) < STEADY_CDEG
    ensures Abs(HeadingDeg(Turned(s, angle)) - HeadingDeg(s)) <= t / 100 + 1
  {
    TruncNear(s.headingCdeg + angle, s.headingCdeg, 100, t);
    SmallCast(TruncDiv(s.headingCdeg, 100));
    SmallCast(TruncDiv(s.headingCdeg + angle, 100));
    TruncAtMost(s.headingCdeg, 100, STEADY_CDEG / 100);
    TruncAtMost(s.headingCdeg + angle, 100, STEADY_CDEG / 100 + 20);
  }

  lemma {:induction false} SmallCast(n: int)
    requires InI32(n)
    ensures AsI32(n) == n
  {}

  lemma {:induction false} SinesNear(a: int, b: int, n: nat)
    requires Abs(a - b) <= n
    ensures Abs(Sin(a) - Sin(b)) <= 18 * n && Abs(Cos(a) - Cos(b)) <= 18 * n
  {
    if a < b {
      SineSteps(a, b - a);
      CosineSteps(a, b - a);
      assert a + (b - a) == b;
    } else {
      SineSteps(b, a - b);
      CosineSteps(b, a - b);
      assert b + (a - b) == a;
    }
  }

  lemma {:induction false} ProductNear(dist: int, p: int, q: int, n: nat)
    requires Abs(p - q) <= n
    ensures Abs(TruncDiv(dist * p, 1000) - TruncDiv(dist * q, 1000)) <= Abs(dist) * n / 1000 + 1
  {
    Scaled(Abs(dist), Abs(p - q), n);
    assert dist * p - dist * q == dist * (p - q);
    assert Abs(dist * (p - q)) == Abs(dist) * Abs(p - q);
    TruncNear(dist * p, dist * q, 1000, Abs(dist) * n);
  }

  /** So the offset of the waypoint moves by no more than the sway. */
  lemma {:induction false} OffsetSways(s: Sensors, w: Waypoint, angle: int, t: nat)
    requires Abs(angle) <= t <= TOLERANCE_CDEG && Abs(s.headingCdeg) < STEADY_CDEG
    ensures var (o, p) := (Offset(s, w), Offset(Turned(s, angle), w));
            Abs(o.0 - p.0) <= Sway(s.distMm, t) && Abs(o.1 - p.1) <= Sway(s.distMm, t)
  {
    var (a, b) := (HeadingDeg(s), HeadingDeg(Turned(s, angle)));
    DegreesTurned(s, angle, t);
    SinesNear(a, b, t / 100 + 1);
    ProductNear(s.distMm, Cos(a), Cos(b), 18 * (t / 100 + 1));
    ProductNear(s.distMm, Sin(a), Sin(b), 18 * (t / 100 + 1));
  }

  /** The waypoint is clear of the axes and diagonals by the sway `m`, and far off compared with it. */
  predicate ClearAndFar(o: (int, int), m: nat, t: nat)
  {
    && Abs(o.0) > m && Abs(o.1) > m && Abs(Abs(o.0) - Abs(o.1)) > 2 * m
    && 4500 * (5 * m + 2) <= 2 * (MaxAbs(o.0, o.1) - m) * (t - 100)
  }

  lemma {:induction false} StaysFarOff(o: (int, int), p: (int, int), m: nat, t: nat)
    requires ClearAndFar(o, m, t) && Abs(o.0 - p.0) <= m && Abs(o.1 - p.1) <= m
    ensures FarOff(o.0, o.1, p.0, p.1, m, MaxAbs(o.0, o.1) - m)
  {}

  /**
    A waypoint far off compared with what the turn can move the reckoned position, and clear of the
    axes and diagonals by as much: then a turn of more than one degree reduces the error. The
    condition speaks of the distance driven, the turn and the waypoint only.
    */
  lemma {:induction false} FarTurnHelps(s: Sensors, w: Waypoint, t: nat)
    requires Steer(s, w).Some? && Turning(Steer(s, w).value) != 0 && 0 < t <= TOLERANCE_CDEG
    requires Abs(s.headingCdeg) < STEADY_CDEG && ClearAndFar(Offset(s, w), Sway(s.distMm, t), t)
    ensures Abs(HeadingError(Turned(s, Turning(Steer(s, w).value) * t), w)) < Abs(HeadingError(s, w))
  {
    var (angle, m) := (Turning(Steer(s, w).value) * t, Sway(s.distMm, t));
    var (o, p) := (Offset(s, w), Offset(Turned(s, angle), w));
    OffsetSways(s, w, angle, t);
    StaysFarOff(o, p, m, t);
    FarDrift(s, w, angle, t, o, p, m, MaxAbs(o.0, o.1) - m);
    SmallDriftHelps(s, w, t);
  }

  lemma {:induction false} GapBelow(far: nat, b: int, c: int, t: nat, k: nat)
    requires 2 * far * (Abs(b - c) - 100) < k <= 2 * far * (t - 100) && t <= TOLERANCE_CDEG
    ensures Abs(Wrapped(c - b)) < t
  {
    Scaled(2 * far, t - 100, Abs(b - c) - 100);
    WrappedNear(c - b);
  }

  /**
    Without such a condition the turn can hurt: ten metres out, with the waypoint 26 degrees to the
    left, turning 20 degrees left swings the reckoned position past it and leaves it 95 degrees to
    the right.
    */
  lemma {:induction false} TurningCanHurt()
    ensures var (s, w) := (Sensors(8000, 0, 10000), Waypoint(10500, 350));
            && Steer(s, w) == Some(Drive(-TURN_SPEED, TURN_SPEED)) && HeadingError(s, w) == 2600
            && Steer(Turned(s, 2000), w) == Some(Drive(TURN_SPEED, -TURN_SPEED))
            && HeadingError(Turned(s, 2000), w) == -9500
  {
    BeforeTurning();
    AfterTurning();
  }

  lemma {:induction false} SineOnAxes()
    ensures Sin(0) == 0 && Sin(90) == 1000
  {
    NormalisedIs(0);
    NormalisedIs(90);
  }

  lemma {:induction false} SineOfTurn()
    ensures Sin(20) == 339 && Sin(70) == 932
  {
    NormalisedIs(20);
    NormalisedIs(70);
  }

  lemma {:induction false} BeforeTurning()
    ensures var (s, w) := (Sensors(8000, 0, 10000), Waypoint(10500, 350));
            Steer(s, w) == Some(Drive(-TURN_SPEED, TURN_SPEED)) && HeadingError(s, w) == 2600
  {
    var s := Sensors(8000, 0, 10000);
    SineOnAxes();
    assert HeadingDeg(s) == 0;
    assert OdomX(s) == 10000 && OdomY(s) == 0;
    assert Atan2(350, 500) == 2600 by { DividesUniquely(45 * 350, 587, 26); }
    WrappedNear(2600);
  }

  lemma {:induction false} AfterTurning()
    ensures var (s, w) := (Sensors(8000, 2000, 10000), Waypoint(10500, 350));
            Steer(s, w) == Some(Drive(TURN_SPEED, -TURN_SPEED)) && HeadingError(s, w) == -9500
  {
    var s := Sensors(8000, 2000, 10000);
    SineOfTurn();
    assert HeadingDeg(s) == 20;
    assert OdomX(s) == 9320 && OdomY(s) == 3390;
    assert Atan2(-3040, 1180) == -7500 by { DividesUniquely(45 * 1180, 3335, 15); }
    WrappedNear(-9500);
  }

  // ── Runs ───────────────────────────────────────────────────────────────

  datatype Event =
    | Add(x: int, y: int)
    | Clear
    | Activating
    | Deactivating
    | Tick(sensors: Sensors)

  function Step(st: State, e: Event): (r: Option<State>)
    ensures !e.Tick? ==> r.Some?
  {
    match e
    case Add(x, y) =>
      Some(if |st.waypoints| < MAX_WAYPOINTS then st.(waypoints := st.waypoints + [Waypoint(x, y)]) else st)
    case Clear => Some(st.(waypoints := [], index := 0))
    case Activating => Some(if st.active then st else st.(active := true, index := 0, laps := 0))
    case Deactivating => Some(st.(active := false))
    case Tick(s) => if Patrol(st, s).None? then None else Some(Patrol(st, s).value.0)
  }

  function Run(st: State, es: seq<Event>): Option<State>
  {
    if es == [] then Some(st)
    else
      match Run(st, es[..|es| - 1])
      case None => None
      case Some(t) => Step(t, es[|es| - 1])
  }

  predicate Arrives(st: State, e: Event)
  {
    e.Tick? && st.active && !Halted(st, e.sensors)
    && Measurable(e.sensors, Target(st)) && Reached(e.sensors, Target(st))
  }

  predicate InRange(st: State)
  {
    && |st.waypoints| <= MAX_WAYPOINTS
    && (if st.waypoints == [] then st.index == 0 else st.index < |st.waypoints|)
  }

  lemma {:induction false} StepInRange(st: State, e: Event)
    requires InRange(st)
    ensures Step(st, e).Some? ==> InRange(Step(st, e).value)
  {}

  /** In every run the index stays below the number of waypoints whenever there are any. */
  lemma {:induction false} IndexInRange(es: seq<Event>)
    ensures Run(INITIAL, es).Some? ==> InRange(Run(INITIAL, es).value)
  {
    if es != [] {
      var front := es[..|es| - 1];
      IndexInRange(front);
      if Run(INITIAL, front).Some? { StepInRange(Run(INITIAL, front).value, es[|es| - 1]); }
    }
  }

  /** The waypoints added since the list was last cleared, the first 32 of them. */
  function Listed(es: seq<Event>): seq<Waypoint>
  {
    if es == [] then []
    else
      var (e, before) := (es[|es| - 1], Listed(es[..|es| - 1]));
      if e.Clear? then []
      else if e.Add? && |before| < 32 then before + [Waypoint(e.x, e.y)]
      else before
  }

  /** Whether the patrol was switched on or off last. */
  predicate SwitchedOn(es: seq<Event>)
  {
    es != [] &&
    if es[|es| - 1].Activating? then true
    else if es[|es| - 1].Deactivating? then false
    else SwitchedOn(es[..|es| - 1])
  }

  /** After every run the list is what was added since the last clear, and each real activation starts over. */
  lemma {:induction false} RemembersWaypoints(es: seq<Event>)
    requires Run(INITIAL, es).Some?
    ensures var st := Run(INITIAL, es).value;
            && st.waypoints == Listed(es) && (st.active <==> SwitchedOn(es))
            && (es != [] && es[|es| - 1].Activating? && !SwitchedOn(es[..|es| - 1]) ==> st.index == 0 && st.laps == 0)
            && (es != [] && es[|es| - 1].Clear? ==> st.index == 0)
  {
    if es != [] {
      RemembersWaypoints(es[..|es| - 1]);
      StepRemembers(Run(INITIAL, es[..|es| - 1]).value, es[|es| - 1]);
    }
  }

  lemma {:induction false} StepRemembers(st: State, e: Event)
    requires Step(st, e).Some?
    ensures var t := Step(st, e).value;
            && t.waypoints == (if e.Clear? then []
                               else if e.Add? && |st.waypoints| < 32 then st.waypoints + [Waypoint(e.x, e.y)]
                               else st.waypoints)
            && t.active == (if e.Activating? then true else if e.Deactivating? then false else st.active)
            && (e.Activating? && !st.active ==> t.index == 0 && t.laps == 0) && (e.Clear? ==> t.index == 0)
  {}

  /** The index changes only on an arrival, on activation or when the list is cleared. */
  lemma {:induction false} IndexChangesOnlyBy(st: State, e: Event)
    requires InRange(st) && Step(st, e).Some?
    ensures Step(st, e).value.index != st.index ==> Arrives(st, e) || (e.Activating? && !st.active) || e.Clear?
  {}

  /** Ticks and repeated activations: nothing that changes the list or ends the patrol. */
  predicate Steady(e: Event)
  {
    e.Tick? || e.Activating?
  }

  /** Arrivals on the way from `st`. */
  function Arrivals(st: State, es: seq<Event>): nat
  {
    if es == [] then 0
    else
      var before := Run(st, es[..|es| - 1]);
      Arrivals(st, es[..|es| - 1]) + if before.Some? && Arrives(before.value, es[|es| - 1]) then 1 else 0
  }

  /** Index and laps after `k` moves round a list of `n`. */
  function Round(k: nat, n: nat): (nat, nat)
  {
    if k == 0 then (0, 0)
    else
      var (i, laps) := Round(k - 1, n);
      if i + 1 == n then (0, Increment(laps)) else (i + 1, laps)
  }

  lemma {:induction false} RoundSplits(k: nat, n: nat) returns (q: nat)
    requires n > 0
    ensures Round(k, n).0 < n && k == n * q + Round(k, n).0 && Round(k, n).1 == q % U32_SIZE
  {
    if k == 0 {
      q := 0;
    } else {
      q := RoundSplits(k - 1, n);
      if Round(k - 1, n).0 + 1 == n {
        CountUp(q);
        assert n * (q + 1) == n * q + n;
        q := q + 1;
      }
    }
  }

  lemma {:induction false} RoundIsModular(k: nat, n: nat)
    requires n > 0
    ensures Round(k, n) == (k % n, (k / n) % U32_SIZE)
  {
    var q := RoundSplits(k, n);
    DividesUniquely(k, n, q);
    RemainderIs(k, n);
  }

  lemma {:induction false} RemainderIs(k: nat, n: nat)
    requires n > 0
    ensures k % n == k - n * (k / n)
  {}

  lemma {:induction false} NextIndex(i: nat, n: nat)
    requires i < n
    ensures (i + 1) % n == if i + 1 == n then 0 else i + 1
  {}

  /** A steady event moves a patrol of `n` waypoints on by one exactly when it arrives. */
  lemma {:induction false} SteadyStep(st: State, e: Event)
    requires st.active && st.waypoints != [] && Steady(e) && Step(st, e).Some?
    ensures Step(st, e).value == if Arrives(st, e) then Arrived(st) else st
  {}

  lemma {:induction false} ArrivedRound(t: State, k: nat)
    requires t.waypoints != [] && t.index < |t.waypoints| && Round(k, |t.waypoints|) == (t.index, t.laps)
    ensures var (i, laps) := Round(k + 1, |t.waypoints|);
            i < |t.waypoints| && Arrived(t) == t.(index := i, laps := laps)
  {
    NextIndex(t.index, |t.waypoints|);
  }

  lemma {:induction false} ArrivalsGoRound(st: State, es: seq<Event>)
    requires st.active && st.waypoints != [] && st.index == 0 && st.laps == 0
    requires forall i :: 0 <= i < |es| ==> Steady(es[i])
    requires Run(st, es).Some?
    ensures var (i, laps) := Round(Arrivals(st, es), |st.waypoints|);
            i < |st.waypoints| && Run(st, es).value == st.(index := i, laps := laps)
  {
    if es != [] {
      var front, e := es[..|es| - 1], es[|es| - 1];
      ArrivalsGoRound(st, front);
      var t := Run(st, front).value;
      assert Run(st, es) == Step(t, e);
      SteadyStep(t, e);
      ArrivedRound(t, Arrivals(st, front));
    }
  }

  /**
    For a fixed list of `n` waypoints, after `k` arrivals since activation the index is `k mod n` and
    the lap counter `k / n`, modulo 2^32.
    */
  lemma {:induction false} ArrivalsDetermineIndex(st: State, es: seq<Event>)
    requires st.active && st.waypoints != [] && st.index == 0 && st.laps == 0
    requires forall i :: 0 <= i < |es| ==> Steady(es[i])
    requires Run(st, es).Some?
    ensures var k, n := Arrivals(st, es), |st.waypoints|;
            Run(st, es).value == st.(index := k % n, laps := (k / n) % U32_SIZE)
  {
    ArrivalsGoRound(st, es);
    RoundIsModular(Arrivals(st, es), |st.waypoints|);
  }

  /** No command exceeds the patrol speed, and it is a stop exactly on arrival, low battery or no waypoints. */
  lemma {:induction false} CommandsAreSafe(st: State, s: Sensors)
    requires Patrol(st, s).Some?
    ensures var c := Patrol(st, s).value.1;
            && (c == Silent <==> !st.active)
            && (c.Drive? ==> Abs(c.left) <= 25 && Abs(c.right) <= 25)
            && (st.active && (st.waypoints == [] || 0 < s.batteryMv < 6400) ==> c == Drive(0, 0))
            && (st.active && st.waypoints != [] && Near(s, Target(st)) ==> c == Drive(0, 0))
            && (st.active && st.waypoints != [] && !(0 < s.batteryMv < 6400) && !Near(s, Target(st)) ==>
                  c != Drive(0, 0))
  {}

  /** The reckoned position is less than half a metre from the waypoint. */
  predicate Near(s: Sensors, w: Waypoint)
  {
    var (dx, dy) := (w.x - OdomX(s), w.y - OdomY(s));
    dx * dx + dy * dy < 500 * 500
  }
}
