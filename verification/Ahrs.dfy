/** Distances that shrink by a part of themselves at each step. */
module Decaying {

  /** What is left of `d` after `n` steps that take off `drop` each. */
  function Decay(drop: nat -> nat, d: nat, n: nat): (r: nat)
    ensures r <= d
  {
    if n == 0 then d else Less(drop, Decay(drop, d, n - 1))
  }

  function Less(drop: nat -> nat, left: nat): (r: nat)
    ensures r <= left
  {
    if drop(left) <= left then left - drop(left) else 0
  }

  function Power(j: nat): (p: nat)
    ensures p > 0
  {
    if j == 0 then 1 else 2 * Power(j - 1)
  }

  /** `base` times `Power(j)`. */
  function Level(base: nat, j: nat): nat
  {
    if j == 0 then base else 2 * Level(base, j - 1)
  }

  /** `n` times `p`. */
  function Sum(n: nat, p: nat): nat
  {
    if n == 0 then 0 else Sum(n - 1, p) + p
  }

  lemma {:induction false} SumDoubles(n: nat, p: nat)
    ensures Sum(n, 2 * p) == 2 * Sum(n, p)
  {
    if n > 0 { SumDoubles(n - 1, p); }
  }

  lemma {:induction false} SumOfOnes(n: nat)
    ensures Sum(n, 1) == n
  {
    if n > 0 { SumOfOnes(n - 1); }
  }

  lemma {:induction false} LevelIsSum(base: nat, j: nat)
    ensures Level(base, j) == Sum(base, Power(j))
  {
    if j == 0 {
      SumOfOnes(base);
    } else {
      LevelIsSum(base, j - 1);
      SumDoubles(base, Power(j - 1));
    }
  }

  /** From `base` on, each step takes at least a `base`th, rounded down to a power of two. */
  ghost predicate Drops(drop: nat -> nat, base: nat)
  {
    && (forall left: nat :: drop(left) <= left)
    && (forall left: nat, j: nat :: left >= Level(base, j) ==> drop(left) >= Power(j))
  }

  /** While at least `Level(base, j)` is left, each step takes at least `Power(j)`. */
  lemma {:induction false} DecaysBy(drop: nat -> nat, base: nat, d: nat, n: nat, j: nat)
    requires Drops(drop, base)
    ensures Decay(drop, d, n) < Level(base, j) || Decay(drop, d, n) + Sum(n, Power(j)) <= d
  {
    if n > 0 { DecaysBy(drop, base, d, n - 1, j); }
  }

  lemma {:induction false} DecayAdds(drop: nat -> nat, d: nat, m: nat, n: nat)
    ensures Decay(drop, d, m + n) == Decay(drop, Decay(drop, d, m), n)
  {
    if n > 0 { DecayAdds(drop, d, m, n - 1); }
  }

  lemma {:induction false} DecayMonotone(drop: nat -> nat, d: nat, m: nat, n: nat)
    requires m <= n
    ensures Decay(drop, d, n) <= Decay(drop, d, m)
  {
    DecayAdds(drop, d, m, n - m);
  }

  lemma {:induction false} Halves(drop: nat -> nat, base: nat, d: nat, j: nat)
    requires Drops(drop, base) && j > 0 && d < Level(base, j)
    ensures Decay(drop, d, base) < Level(base, j - 1)
  {
    DecaysBy(drop, base, d, base, j - 1);
    LevelIsSum(base, j - 1);
  }

  /** `base` steps halve the distance, down to `base`. */
  lemma {:induction false} HalvesIn(drop: nat -> nat, base: nat, d: nat, j: nat)
    requires Drops(drop, base) && d < Level(base, j)
    ensures Decay(drop, d, Sum(j, base)) < base
  {
    if j > 0 {
      Halves(drop, base, d, j);
      HalvesIn(drop, base, Decay(drop, d, base), j - 1);
      DecayAdds(drop, d, base, Sum(j - 1, base));
    }
  }

  lemma {:induction false} TwoMore(base: nat, j: nat)
    ensures Level(base, j + 2) == 4 * Level(base, j) && Sum(j + 2, base) == Sum(j, base) + 2 * base
  {
    assert Level(base, j + 1) == 2 * Level(base, j) && Sum(j + 1, base) == Sum(j, base) + base;
  }

  lemma {:induction false} TenLevels(base: nat)
    ensures Level(base, 10) == 1024 * base && Sum(10, base) == 10 * base
  {
    TwoMore(base, 0);
    TwoMore(base, 2);
    TwoMore(base, 4);
    TwoMore(base, 6);
    TwoMore(base, 8);
  }

  /** Ten times `base` steps bring anything below 1024 times `base` below `base`. */
  lemma {:induction false} SettlesIn(drop: nat -> nat, base: nat, d: nat, n: nat)
    requires Drops(drop, base) && d < 1024 * base && n >= 10 * base
    ensures Decay(drop, d, n) < base
  {
    TenLevels(base);
    HalvesIn(drop, base, d, 10);
    DecayMonotone(drop, d, 10 * base, n);
  }

  function ByTwenty(): nat -> nat
  {
    (x: nat) => x / 20
  }

  function ByFifty(): nat -> nat
  {
    (x: nat) => x / 50
  }

  lemma {:induction false} LevelIsMultiple(base: nat, j: nat)
    ensures base == 20 ==> Level(base, j) == 20 * Power(j)
    ensures base == 50 ==> Level(base, j) == 50 * Power(j)
  {
    if j > 0 { LevelIsMultiple(base, j - 1); }
  }

  lemma {:induction false} FractionsDrop()
    ensures Drops(ByTwenty(), 20) && Drops(ByFifty(), 50)
  {
    forall left: nat, j: nat | left >= Level(20, j) ensures ByTwenty()(left) >= Power(j) { LevelIsMultiple(20, j); }
    forall left: nat, j: nat | left >= Level(50, j) ensures ByFifty()(left) >= Power(j) { LevelIsMultiple(50, j); }
  }
}

/** Attitude estimation in integer arithmetic: accelerometer angles, complementary filter, yaw fused with GPS course. */
module Ahrs {
  import opened Bytes
  import opened Decaying
  import opened Integers

  const ALPHA := 980
  const YAW_ALPHA := 950
  const FULL_TURN := 36000
  const HALF_TURN := 18000

  // ── Square root and arctangent ─────────────────────────────────────────

  /** The floor of the square root. */
  ghost function Sqrt(n: nat): (r: nat)
    ensures r * r <= n < (r + 1) * (r + 1)
  {
    if n == 0 then 0
    else
      var r := Sqrt(n - 1);
      assert (r + 2) * (r + 2) == (r + 1) * (r + 1) + 2 * r + 3;
      if (r + 1) * (r + 1) <= n then r + 1 else r
  }

  lemma {:induction false} MeansCompare(x: nat, p: nat, t: nat)
    requires x + p <= t
    ensures 4 * (x * p) <= t * t
  {
    var s := x + p;
    Squares(s, t);
    assert s * s == (x - p) * (x - p) + 4 * (x * p);
    Squares(0, Abs(x - p));
    assert (x - p) * (x - p) == Abs(x - p) * Abs(x - p);
  }

  /** One Newton step towards the root. */
  function Newton(n: nat, x: nat): nat
    requires x > 0
  {
    (x + n / x) / 2
  }

  lemma {:induction false} Quotient(n: nat, x: nat)
    requires 0 < x <= n
    ensures 0 < n / x && x * (n / x) <= n < x * (n / x + 1)
  {
    Divides(n, x);
    Scaled(x, n / x, 0);
    assert x * (n / x + 1) == x * (n / x) + x;
  }

  lemma {:induction false} MeanSquared(x: nat, q: nat)
    ensures var y := (x + q) / 2; x * (q + 1) <= (y + 1) * (y + 1)
  {
    var z := (x + q) / 2 + 1;
    MeansCompare(x, q + 1, 2 * z);
    assert (2 * z) * (2 * z) == 4 * (z * z);
  }

  lemma {:induction false} NewtonBounds(n: nat, x: nat)
    requires 0 < x <= n
    ensures 0 < Newton(n, x)
    ensures n < (Newton(n, x) + 1) * (Newton(n, x) + 1)
    ensures Newton(n, x) >= x ==> x * x <= n
  {
    Quotient(n, x);
    MeanSquared(x, n / x);
    Scaled(x, x, n / x);
  }

  /** Newton's step stays above the root, and only the root itself is not improved on. */
  lemma {:induction false} NewtonStep(n: nat, x: nat)
    requires 0 < x <= n && Sqrt(n) <= x
    ensures 0 < Newton(n, x) && Sqrt(n) <= Newton(n, x)
    ensures Newton(n, x) >= x ==> x == Sqrt(n)
  {
    NewtonBounds(n, x);
    Squares(Newton(n, x) + 1, Sqrt(n));
    Squares(Sqrt(n) + 1, x);
  }

  /** No sum in the loop is larger than `n + 1`: below 2^64 - 1 nothing overflows. */
  lemma {:induction false} NewtonFits(n: nat, x: nat)
    requires 0 < x <= n
    ensures x + n / x <= n + 1
  {
    var q := n / x;
    Divides(n, x);
    Scaled(x, q, 0);
    assert (q - 1) * (x - 1) == x * q - q - x + 1;
    Scaled(x - 1, 0, q - 1);
  }

  lemma {:induction false} FirstGuess(n: nat)
    requires n > 0
    ensures Sqrt(n) <= n && Newton(n, n) == (n + 1) / 2
  {
    DividesUniquely(n, n, 1);
    Scaled(Sqrt(n), 1, Sqrt(n));
  }

  /** The Babylonian loop. */
  method Isqrt(n: nat) returns (r: nat)
    ensures r == Sqrt(n)
  {
    if n == 0 { return 0; }
    var x := n;
    var y := (x + 1) / 2;
    FirstGuess(n);
    while y < x
      invariant 0 < x <= n && Sqrt(n) <= x && y == Newton(n, x)
      decreases x
    {
      NewtonStep(n, x);
      x := y;
      y := Newton(n, x);
    }
    NewtonStep(n, x);
    r := x;
  }

  function Denominator(r: nat): (d: nat)
    ensures d >= 1000
  {
    1000 + 280 * (r * r / 1000) / 1000
  }

  /** The angle to the nearer axis for a ratio in thousandths, by the rational approximation. */
  function FromRatio(r: nat): (a: nat)
    requires r <= 1000
    ensures a <= 4500
  {
    RatioFits(r, Denominator(r));
    r * 4500 / Denominator(r)
  }

  lemma {:induction false} RatioFits(r: nat, d: nat)
    requires r <= 1000 <= d
    ensures r * 4500 / d <= 4500
  {
    DivAtMost(r * 4500, d, 4500);
  }

  function Octant(small: nat, large: nat): (a: nat)
    requires small <= large && large > 0
    ensures a <= 4500
  {
    DivAtMost(small * 1000, large, 1000);
    FromRatio(small * 1000 / large)
  }

  /** The angle within the first quadrant. */
  function Quadrant(absY: nat, absX: nat): (a: nat)
    requires absY > 0
    ensures a <= 9000
  {
    if absX >= absY then Octant(absY, absX) else 9000 - Octant(absX, absY)
  }

  /** The angle moved into the quadrant of the signs. */
  function Placed(y: int, x: int, angle: nat): (a: int)
    requires angle <= 9000
    ensures -HALF_TURN <= a <= HALF_TURN
    ensures x >= 0 ==> -9000 <= a <= 9000
  {
    if x >= 0 && y >= 0 then angle
    else if x < 0 && y >= 0 then HALF_TURN - angle
    else if x < 0 then -(HALF_TURN - angle)
    else 0 - angle
  }

  function Atan2(y: int, x: int): int
  {
    if x == 0 && y == 0 then 0 else Placed(y, x, Quadrant(if y == 0 then 1 else Abs(y), Abs(x)))
  }

  lemma {:induction false} Atan2InRange(y: int, x: int)
    ensures -HALF_TURN <= Atan2(y, x) <= HALF_TURN
    ensures x >= 0 ==> -9000 <= Atan2(y, x) <= 9000
  {}

  /** Mirror symmetry in both axes, and the quadrant of the result is that of the point. */
  lemma {:induction false} Atan2Symmetry(y: int, x: int)
    requires y > 0 && x > 0
    ensures 0 <= Atan2(y, x) <= 9000
    ensures Atan2(-y, x) == -Atan2(y, x)
    ensures Atan2(y, -x) == HALF_TURN - Atan2(y, x)
    ensures Atan2(-y, -x) == Atan2(y, x) - HALF_TURN
  {}

  /** Swapping the coordinates reflects the angle about the diagonal, except on it. */
  lemma {:induction false} Atan2Reflection(y: int, x: int)
    requires y > 0 && x > 0
    ensures Atan2(y, x) + Atan2(x, y) == 9000 <==> x != y
    ensures x == y ==> Atan2(y, x) + Atan2(x, y) == 7030
  {
    if x == y { DiagonalOctant(x); }
  }

  lemma {:induction false} SmallRatios()
    ensures FromRatio(0) == 0 && FromRatio(1) == 4
  {
    DividesUniquely(1 * 1, 1000, 0);
    DividesUniquely(4500, 1000, 4);
  }

  lemma {:induction false} FullRatio()
    ensures FromRatio(1000) == 3515
  {
    DividesUniquely(1000 * 1000, 1000, 1000);
    DividesUniquely(280 * 1000, 1000, 280);
    DividesUniquely(1000 * 4500, 1280, 3515);
  }

  lemma {:induction false} RatioPositive(r: nat)
    requires 1 <= r <= 1000
    ensures FromRatio(r) > 0
  {
    DenomAtMost(r);
    Divides(r * 4500, Denominator(r));
    Scaled(Denominator(r), FromRatio(r), 0);
  }

  lemma {:induction false} DiagonalOctant(x: nat)
    requires x > 0
    ensures Octant(x, x) == 3515
  {
    DividesUniquely(x * 1000, x, 1000);
    FullRatio();
  }

  /**
    On the x-axis the ordinate counts as one, so the angle is zero, or a straight angle, exactly
    beyond 1000: a level robot at one g reads 4, and next to the origin the error is 3515.
    */
  lemma {:induction false} Atan2OnAxis(x: int)
    requires x > 0
    ensures Atan2(0, x) == 0 <==> x > 1000
    ensures Atan2(0, -x) == HALF_TURN <==> x > 1000
    ensures Atan2(0, 1) == 3515 && Atan2(0, 1000) == 4
  {
    SmallRatios();
    FullRatio();
    if x > 1000 {
      DividesUniquely(1000, x, 0);
    } else {
      Permille(x);
      RatioPositive(1000 / x);
    }
  }

  lemma {:induction false} Permille(x: nat)
    requires 0 < x <= 1000
    ensures 1 <= 1000 / x <= 1000
  {
    Divides(1000, x);
    Scaled(x, 1000 / x, 0);
    DivAtMost(1000, x, 1000);
  }

  // ── Filter state ───────────────────────────────────────────────────────

  /** Accelerations in milli-g and rates in milli-degrees per second. */
  datatype Imu = Imu(ax: int, ay: int, az: int, gx: int, gy: int, gz: int)

  datatype State = State(roll: int, pitch: int, yaw: int, refPressure: nat, course: Option<nat>)

  datatype Attitude = Attitude(roll: int, pitch: int, yaw: int, altCm: int)

  const INITIAL := State(0, 0, 0, 101325, None)

  predicate Readable(imu: Imu)
  {
    InI32(imu.ax) && InI32(imu.ay) && InI32(imu.az) && InI32(imu.gx) && InI32(imu.gy) && InI32(imu.gz)
  }

  function SumOfSquares(imu: Imu): nat
  {
    imu.ay * imu.ay + imu.az * imu.az
  }

  function AccelRoll(imu: Imu): (a: int)
    ensures Abs(a) <= HALF_TURN
  {
    Atan2InRange(imu.ay, imu.az);
    Atan2(imu.ay, imu.az)
  }

  /** The magnitude is cast to 32 bits, so from 2^31 on it turns negative. */
  ghost function AccelPitch(imu: Imu): (a: int)
    ensures Abs(a) <= HALF_TURN
  {
    Atan2InRange(-imu.ax, AsI32(Sqrt(SumOfSquares(imu))));
    Atan2(-imu.ax, AsI32(Sqrt(SumOfSquares(imu))))
  }

  /** The rotation in centi-degrees during `dt` microseconds. */
  function GyroStep(rate: int, dt: nat): int
  {
    AsI32(TruncDiv(rate * dt, 10_000_000))
  }

  /** One axis of the complementary filter; `None` when a 32-bit operation overflows. */
  function Filter(angle: int, step: int, accel: int): Option<int>
  {
    var sum := ALPHA * (angle + step) + (1000 - ALPHA) * accel;
    if InI32(angle + step) && InI32(ALPHA * (angle + step)) && InI32(sum) then Some(TruncDiv(sum, 1000)) else None
  }

  /** An angle brought into one turn, as the code does it. */
  function Normalised(n: int): int
  {
    var r := TruncRem(n, FULL_TURN);
    if r < 0 then r + FULL_TURN else r
  }

  /** The signed error toward the course, brought into half a turn. */
  function CourseError(course: int, yaw: int): int
  {
    var err := course - yaw;
    var down := if err > HALF_TURN then err - FULL_TURN else err;
    if down < -HALF_TURN then down + FULL_TURN else down
  }

  function Fused(yaw: int, course: int): int
  {
    Normalised(yaw + TruncDiv((1000 - YAW_ALPHA) * CourseError(course, yaw), 1000))
  }

  function NextYaw(yaw: int, step: int, course: Option<nat>): Option<int>
  {
    if !InI32(yaw + step) then None
    else
      var turned := Normalised(yaw + step);
      Some(if course.Some? then Fused(turned, course.value) else turned)
  }

  function Altitude(refPressure: nat, pressure: nat): Option<int>
  {
    var dp := AsI32(refPressure) - AsI32(pressure);
    if InI32(dp) && InI32(dp * 83) then Some(TruncDiv(dp * 83, 10)) else None
  }

  /** `update`; `None` is a panic of the checked arithmetic. */
  ghost function Update(s: State, imu: Imu, pressure: nat, dt: nat): Option<(State, Attitude)>
  {
    if SumOfSquares(imu) > I64_MAX || imu.ax == I32_MIN then None
    else
      match (Filter(s.roll, GyroStep(imu.gx, dt), AccelRoll(imu)),
             Filter(s.pitch, GyroStep(imu.gy, dt), AccelPitch(imu)),
             NextYaw(s.yaw, GyroStep(imu.gz, dt), s.course),
             Altitude(s.refPressure, pressure))
      case (Some(roll), Some(pitch), Some(yaw), Some(alt)) =>
        Some((s.(roll := roll, pitch := pitch, yaw := yaw), Attitude(roll, pitch, yaw, alt)))
      case _ => None
  }

  /** `update_gps`: the course is taken up with a fix and above 1 m/s. */
  function UpdateGps(s: State, fix: nat, speed: nat, course: nat): State
  {
    if fix >= 1 && speed > 100 then s.(course := Some(course)) else s
  }

  class AhrsState {
    var roll: int
    var pitch: int
    var yaw: int
    var refPressure: nat
    var gpsYaw: nat
    var gpsYawValid: bool

    ghost function Current(): State
      reads this
    {
      State(roll, pitch, yaw, refPressure, if gpsYawValid then Some(gpsYaw) else None)
    }

    constructor ()
      ensures Current() == INITIAL
    {
      roll, pitch, yaw := 0, 0, 0;
      refPressure := 101325;
      gpsYaw, gpsYawValid := 0, false;
    }

    method SetRefPressure(pa: nat)
      modifies this
      ensures Current() == old(Current()).(refPressure := pa)
    {
      refPressure := pa;
    }

    method FeedGps(fix: nat, speed: nat, course: nat)
      modifies this
      ensures Current() == UpdateGps(old(Current()), fix, speed, course)
    {
      if fix >= 1 && speed > 100 {
        gpsYaw := course;
        gpsYawValid := true;
      }
    }

    /** After a panic (`None`) the kernel halts; nothing is promised of the fields then. */
    method RunUpdate(imu: Imu, pressure: nat, dt: nat) returns (att: Option<Attitude>)
      modifies this
      ensures att.None? <==> Update(old(Current()), imu, pressure, dt).None?
      ensures att.Some? ==> Update(old(Current()), imu, pressure, dt) == Some((Current(), att.value))
    {
      ghost var before := Current();
      if SumOfSquares(imu) > I64_MAX { return None; }
      var accelRoll := Atan2(imu.ay, imu.az);
      var mag := Isqrt(SumOfSquares(imu));
      if imu.ax == I32_MIN { return None; }
      var accelPitch := Atan2(-imu.ax, AsI32(mag));
      var dRoll, dPitch, dYaw := GyroStep(imu.gx, dt), GyroStep(imu.gy, dt), GyroStep(imu.gz, dt);
      var newRoll := Filter(roll, dRoll, accelRoll);
      if newRoll.None? { return None; }
      roll := newRoll.value;
      var newPitch := Filter(pitch, dPitch, accelPitch);
      if newPitch.None? { return None; }
      pitch := newPitch.value;
      if !InI32(yaw + dYaw) { return None; }
      var gyroYaw := Normalised(yaw + dYaw);
      if gpsYawValid {
        yaw := Fused(gyroYaw, gpsYaw);
      } else {
        yaw := gyroYaw;
      }
      var alt := Altitude(refPressure, pressure);
      if alt.None? { return None; }
      return Some(Attitude(roll, pitch, yaw, alt.value));
    }
  }

  // ── Roll and pitch stay bounded ────────────────────────────────────────

  /** Pitch from the accelerometer is within a right angle exactly when the squares stay below 2^62. */
  lemma {:induction false} AccelPitchBoundedIff(imu: Imu)
    requires Readable(imu) && SumOfSquares(imu) <= I64_MAX && imu.ax != I32_MIN
    ensures Abs(AccelPitch(imu)) <= 9000 <==> SumOfSquares(imu) < 0x4000_0000_0000_0000
  {
    var m := Sqrt(SumOfSquares(imu));
    if SumOfSquares(imu) < 0x4000_0000_0000_0000 {
      SqrtBelow(SumOfSquares(imu), 0x8000_0000);
      assert AsI32(m) == m;
      Atan2InRange(-imu.ax, m);
    } else {
      SqrtAtLeast(SumOfSquares(imu), 0x8000_0000);
      SqrtBelow(SumOfSquares(imu), 3037000500);
      assert AsI32(m) == m - U32_SIZE;
      LargeLeft(-imu.ax, m - U32_SIZE);
    }
  }

  /** The largest negative reading on one axis turns a level robot upside down. */
  lemma {:induction false} AccelPitchEscapes()
    ensures AccelPitch(Imu(0, I32_MIN, 0, 0, 0, 0)) == HALF_TURN
  {
    var imu := Imu(0, I32_MIN, 0, 0, 0, 0);
    SqrtAtLeast(SumOfSquares(imu), 0x8000_0000);
    SqrtBelow(SumOfSquares(imu), 0x8000_0001);
    assert AsI32(0x8000_0000) == I32_MIN;
    DividesUniquely(1000, 0x8000_0000, 0);
  }

  lemma {:induction false} SqrtBelow(n: nat, r: nat)
    requires n < r * r
    ensures Sqrt(n) < r
  {
    Squares(r, Sqrt(n));
  }

  lemma {:induction false} SqrtAtLeast(n: nat, r: nat)
    requires r * r <= n
    ensures r <= Sqrt(n)
  {
    Squares(Sqrt(n) + 1, r);
  }

  lemma {:induction false} LargeLeft(y: int, x: int)
    requires I32_MIN < y <= I32_MAX && x < -1257966796
    ensures Abs(Atan2(y, x)) > 9000
  {
    if Abs(y) > Abs(x) { SteepOctant(Abs(x), Abs(y)); }
  }

  lemma {:induction false} SteepOctant(small: nat, large: nat)
    requires 1257966796 < small < large <= I32_MAX
    ensures Octant(small, large) > 0
  {
    DivAtMost(small * 1000, large, 1000);
    Divides(small * 1000, large);
    RatioPositive(small * 1000 / large);
  }

  lemma {:induction false} DenomAtMost(r: nat)
    requires r <= 1000
    ensures Denominator(r) <= 1280
  {
    Squares(r, 1000);
    DivAtMost(r * r, 1000, 1000);
    DivAtMost(280 * (r * r / 1000), 1000, 280);
  }

  /** The filter keeps the bound `accel + 49 D`, and nothing overflows for `D` up to 43458. */
  lemma {:induction false} FilterKeepsBound(angle: int, step: int, accel: int, limit: nat, d: nat)
    requires Abs(step) <= d && Abs(accel) <= limit && Abs(angle) <= limit + 49 * d
    ensures Filter(angle, step, accel).Some? ==> Abs(Filter(angle, step, accel).value) <= limit + 49 * d
    ensures limit <= HALF_TURN && d <= 43458 ==> Filter(angle, step, accel).Some?
  {
    var sum := ALPHA * (angle + step) + (1000 - ALPHA) * accel;
    assert Abs(sum) <= (limit + 49 * d) * 1000;
    TruncAtMost(sum, 1000, limit + 49 * d);
  }

  ghost predicate SafeStep(angle: int, step: int, accel: int, d: nat)
  {
    Abs(step) <= d && Abs(accel) <= HALF_TURN && Abs(angle) <= HALF_TURN + 49 * d ==>
      Filter(angle, step, accel).Some?
  }

  /** That is the largest: within the bound no step overflows if and only if `D` is at most 43458. */
  lemma {:induction false} FilterSafeIff(d: nat)
    ensures (forall angle, step, accel :: SafeStep(angle, step, accel, d)) <==> d <= 43458
  {
    if d <= 43458 {
      forall angle, step, accel ensures SafeStep(angle, step, accel, d) {
        if Abs(step) <= d && Abs(accel) <= HALF_TURN && Abs(angle) <= HALF_TURN + 49 * d {
          FilterKeepsBound(angle, step, accel, HALF_TURN, d);
        }
      }
    } else {
      assert !SafeStep(HALF_TURN + 49 * 43459, 43459, HALF_TURN, d);
    }
  }

  /** Up to rounding, each update keeps 98 percent of the distance to the accelerometer angle. */
  lemma {:induction false} FilterContracts(angle: int, step: int, accel: int)
    requires Filter(angle, step, accel).Some?
    ensures Abs(1000 * (Filter(angle, step, accel).value - accel) - 980 * (angle + step - accel)) < 1000
  {
    TruncError(ALPHA * (angle + step) + (1000 - ALPHA) * accel, 1000);
  }

  /** Altitude is zero at the reference, turns sign with the pressures and is 8.3 cm per pascal, rounded to zero. */
  lemma {:induction false} AltitudeLaws(refPressure: nat, pressure: nat)
    requires refPressure <= I32_MAX && pressure <= I32_MAX && Altitude(refPressure, pressure).Some?
    ensures var alt := Altitude(refPressure, pressure).value;
            && Abs(10 * alt - 83 * (refPressure - pressure)) < 10
            && (refPressure >= pressure ==> alt >= 0)
            && Altitude(pressure, refPressure) == Some(-alt)
  {
    assert AsI32(refPressure) == refPressure && AsI32(pressure) == pressure;
    TruncError((refPressure - pressure) * 83, 10);
  }

  datatype Event =
    | Reference(pa: nat)
    | Gps(fix: nat, speed: nat, course: nat)
    | Reading(imu: Imu, pressure: nat, dt: nat)

  ghost function Step(s: State, e: Event): Option<State>
  {
    match e
    case Reference(pa) => Some(s.(refPressure := pa))
    case Gps(fix, speed, course) => Some(UpdateGps(s, fix, speed, course))
    case Reading(imu, pressure, dt) =>
      var u := Update(s, imu, pressure, dt);
      if u.None? then None else Some(u.value.0)
  }

  ghost function Run(s: State, es: seq<Event>): Option<State>
  {
    if es == [] then Some(s)
    else
      match Run(s, es[..|es| - 1])
      case None => None
      case Some(t) => Step(t, es[|es| - 1])
  }

  /** Every gyro step of a reading turns at most `d`, and its accelerations are far from the 32-bit limits. */
  ghost predicate Gentle(e: Event, d: nat)
  {
    e.Reading? ==>
      && Readable(e.imu) && e.imu.ax != I32_MIN && SumOfSquares(e.imu) < 0x4000_0000_0000_0000
      && Abs(GyroStep(e.imu.gx, e.dt)) <= d && Abs(GyroStep(e.imu.gy, e.dt)) <= d
  }

  ghost predicate Level(s: State, d: nat)
  {
    Abs(s.roll) <= HALF_TURN + 49 * d && Abs(s.pitch) <= 9000 + 49 * d
  }

  lemma {:induction false} GentleStep(s: State, e: Event, d: nat)
    requires Gentle(e, d) && Level(s, d)
    ensures Step(s, e).Some? ==> Level(Step(s, e).value, d)
    ensures d <= 43458 && e.Reading? && Step(s, e).None? ==>
              NextYaw(s.yaw, GyroStep(e.imu.gz, e.dt), s.course).None? || Altitude(s.refPressure, e.pressure).None?
  {
    if e.Reading? {
      var imu := e.imu;
      AccelPitchBoundedIff(imu);
      FilterKeepsBound(s.roll, GyroStep(imu.gx, e.dt), AccelRoll(imu), HALF_TURN, d);
      FilterKeepsBound(s.pitch, GyroStep(imu.gy, e.dt), AccelPitch(imu), 9000, d);
    }
  }

  /** Over every run of gentle readings `|roll| <= 18000 + 49 D` and `|pitch| <= 9000 + 49 D`. */
  lemma {:induction false} RunIsBounded(es: seq<Event>, d: nat)
    requires forall i :: 0 <= i < |es| ==> Gentle(es[i], d)
    ensures Run(INITIAL, es).Some? ==> Level(Run(INITIAL, es).value, d)
  {
    if es != [] {
      var front := es[..|es| - 1];
      RunIsBounded(front, d);
      if Run(INITIAL, front).Some? { GentleStep(Run(INITIAL, front).value, es[|es| - 1], d); }
    }
  }

  /** Pressures whose differences can be scaled, and yaw steps short of the 32-bit limit by a turn. */
  predicate Moderate(e: Event)
  {
    && (e.Reference? ==> e.pa <= 25_873_296)
    && (e.Reading? ==> e.pressure <= 25_873_296 && Abs(GyroStep(e.imu.gz, e.dt)) <= I32_MAX - FULL_TURN)
  }

  /** For gyro steps up to 43458 no arithmetic of any run overflows. */
  lemma {:induction false} RunNeverPanics(es: seq<Event>)
    requires forall i :: 0 <= i < |es| ==> Gentle(es[i], 43458) && Moderate(es[i])
    ensures Run(INITIAL, es).Some? && Run(INITIAL, es).value.refPressure <= 25_873_296
  {
    if es != [] {
      var front, e := es[..|es| - 1], es[|es| - 1];
      RunNeverPanics(front);
      RunIsBounded(front, 43458);
      YawInRange(front);
      var s := Run(INITIAL, front).value;
      GentleStep(s, e, 43458);
      if e.Reading? { ScalesAltitude(s.refPressure, e.pressure); }
    }
  }

  lemma {:induction false} ScalesAltitude(refPressure: nat, pressure: nat)
    requires refPressure <= 25_873_296 && pressure <= 25_873_296
    ensures Altitude(refPressure, pressure).Some?
  {
    assert AsI32(refPressure) == refPressure && AsI32(pressure) == pressure;
  }

  // ── What a run remembers ───────────────────────────────────────────────

  /** The course of the latest report with a fix and above 1 m/s. */
  function LatestCourse(es: seq<Event>): Option<nat>
  {
    if es == [] then None
    else
      var e := es[|es| - 1];
      if e.Gps? && e.fix >= 1 && e.speed > 100 then Some(e.course) else LatestCourse(es[..|es| - 1])
  }

  function LatestReference(es: seq<Event>): nat
  {
    if es == [] then INITIAL.refPressure
    else if es[|es| - 1].Reference? then es[|es| - 1].pa
    else LatestReference(es[..|es| - 1])
  }

  /** After every run the filter steers by the latest usable course and the latest reference pressure. */
  lemma {:induction false} RemembersLatest(es: seq<Event>)
    requires Run(INITIAL, es).Some?
    ensures Run(INITIAL, es).value.course == LatestCourse(es)
    ensures Run(INITIAL, es).value.refPressure == LatestReference(es)
  {
    if es != [] { RemembersLatest(es[..|es| - 1]); }
  }

  // ── Yaw ────────────────────────────────────────────────────────────────

  /** The two-step normalisation is the Euclidean remainder. */
  lemma {:induction false} NormalisedIsRemainder(n: int)
    ensures Normalised(n) == n % FULL_TURN
  {}

  /** Yaw stays within one turn over every run. */
  lemma {:induction false} YawInRange(es: seq<Event>)
    ensures Run(INITIAL, es).Some? ==> 0 <= Run(INITIAL, es).value.yaw < FULL_TURN
  {
    if es != [] {
      var front, e := es[..|es| - 1], es[|es| - 1];
      YawInRange(front);
      if e.Reading? && Run(INITIAL, front).Some? {
        var s := Run(INITIAL, front).value;
        NextYawInRange(s.yaw, GyroStep(e.imu.gz, e.dt), s.course);
      }
    }
  }

  lemma {:induction false} NextYawInRange(yaw: int, step: int, course: Option<nat>)
    ensures NextYaw(yaw, step, course).Some? ==> 0 <= NextYaw(yaw, step, course).value < FULL_TURN
  {
    NormalisedIsRemainder(yaw + step);
    if course.Some? {
      var turned := Normalised(yaw + step);
      NormalisedIsRemainder(turned + TruncDiv((1000 - YAW_ALPHA) * CourseError(course.value, turned), 1000));
    }
  }

  /** The distance between two headings along the shorter arc. */
  function CircularDistance(a: int, b: int): nat
    requires 0 <= a < FULL_TURN && 0 <= b < FULL_TURN
  {
    var d := Abs(a - b);
    if d <= HALF_TURN then d else FULL_TURN - d
  }

  lemma {:induction false} DistanceIs(a: int, b: int, err: int)
    requires 0 <= a < FULL_TURN && 0 <= b < FULL_TURN && Abs(err) <= HALF_TURN
    requires b - a - err == 0 || b - a - err == FULL_TURN || b - a - err == -FULL_TURN
    ensures CircularDistance(a, b) == Abs(err)
  {}

  /** Each fusion closes a twentieth of the circular distance, rounded down: it never increases it. */
  lemma {:induction false} FusionClosesIn(yaw: int, course: int)
    requires 0 <= yaw < FULL_TURN && 0 <= course < FULL_TURN
    ensures 0 <= Fused(yaw, course) < FULL_TURN
    ensures var d := CircularDistance(yaw, course);
            CircularDistance(Fused(yaw, course), course) == d - d / 20
  {
    var err := CourseError(course, yaw);
    DistanceIs(yaw, course, err);
    var step := TruncDiv((1000 - YAW_ALPHA) * err, 1000);
    Twentieth(Abs(err));
    NormalisedIsRemainder(yaw + step);
    OneTurn(yaw + step);
    DistanceIs(Fused(yaw, course), course, err - step);
  }

  lemma {:induction false} Twentieth(n: nat)
    ensures 50 * n / 1000 == n / 20 <= n
  {}

  lemma {:induction false} OneTurn(n: int)
    requires -FULL_TURN <= n < 2 * FULL_TURN
    ensures n % FULL_TURN == if n < 0 then n + FULL_TURN else if n < FULL_TURN then n else n - FULL_TURN
  {}

  /** Yaw after `n` updates with the gyro at rest and the course fixed. */
  function Settling(yaw: int, course: int, n: nat): int
  {
    if n == 0 then yaw else Fused(Normalised(Settling(yaw, course, n - 1)), course)
  }

  lemma {:induction false} WithinTurn(n: int)
    requires 0 <= n < FULL_TURN
    ensures Normalised(n) == n
  {}

  lemma {:induction false} SettleOnce(yaw: int, course: int)
    requires 0 <= yaw < FULL_TURN && 0 <= course < FULL_TURN
    ensures 0 <= Fused(Normalised(yaw), course) < FULL_TURN
    ensures var d := CircularDistance(yaw, course);
            CircularDistance(Fused(Normalised(yaw), course), course) == d - d / 20
  {
    WithinTurn(yaw);
    FusionClosesIn(yaw, course);
  }

  lemma {:induction false} SettledStep(prev: int, course: int, d: nat)
    requires 0 <= prev < FULL_TURN && 0 <= course < FULL_TURN && CircularDistance(prev, course) == d
    ensures var next := Fused(Normalised(prev), course);
            0 <= next < FULL_TURN && CircularDistance(next, course) == Less(ByTwenty(), d)
  {
    SettleOnce(prev, course);
  }

  lemma {:induction false} SettlingDistance(yaw: int, course: int, n: nat)
    requires 0 <= yaw < FULL_TURN && 0 <= course < FULL_TURN
    ensures 0 <= Settling(yaw, course, n) < FULL_TURN
    ensures CircularDistance(Settling(yaw, course, n), course) == Decay(ByTwenty(), CircularDistance(yaw, course), n)
  {
    if n > 0 {
      SettlingDistance(yaw, course, n - 1);
      SettledStep(Settling(yaw, course, n - 1), course, Decay(ByTwenty(), CircularDistance(yaw, course), n - 1));
    }
  }

  /** Readings with the yaw axis of the gyro at rest, and anything that leaves the course as it is. */
  predicate Resting(e: Event, course: nat)
  {
    match e
    case Reference(_) => true
    case Gps(fix, speed, c) => fix >= 1 && speed > 100 ==> c == course
    case Reading(imu, _, _) => imu.gz == 0
  }

  function Readings(es: seq<Event>): nat
  {
    if es == [] then 0 else Readings(es[..|es| - 1]) + if es[|es| - 1].Reading? then 1 else 0
  }

  lemma {:induction false} RestingRun(s: State, course: nat, es: seq<Event>)
    requires s.course == Some(course) && course < FULL_TURN && 0 <= s.yaw < FULL_TURN
    requires forall i :: 0 <= i < |es| ==> Resting(es[i], course)
    requires Run(s, es).Some?
    ensures Run(s, es).value.yaw == Settling(s.yaw, course, Readings(es))
    ensures Run(s, es).value.course == Some(course)
  {
    if es != [] {
      var front, e := es[..|es| - 1], es[|es| - 1];
      RestingRun(s, course, front);
      SettlingDistance(s.yaw, course, Readings(front));
      RestingStep(Run(s, front).value, course, e);
    }
  }

  lemma {:induction false} RestingStep(s: State, course: nat, e: Event)
    requires s.course == Some(course) && 0 <= s.yaw < FULL_TURN && Resting(e, course) && Step(s, e).Some?
    ensures Step(s, e).value.yaw == if e.Reading? then Fused(Normalised(s.yaw), course) else s.yaw
    ensures Step(s, e).value.course == Some(course)
  {
    if e.Reading? { AtRest(e.dt); }
  }

  lemma {:induction false} AtRest(dt: nat)
    ensures GyroStep(0, dt) == 0
  {}

  /**
    With the gyro at rest and a course that does not change, the distance to the course never grows,
    and from the 200th reading on the heading is within 20 centi-degrees of it.
    */
  lemma {:induction false} HeadingSettles(s: State, course: nat, es: seq<Event>)
    requires s.course == Some(course) && course < FULL_TURN && 0 <= s.yaw < FULL_TURN
    requires forall i :: 0 <= i < |es| ==> Resting(es[i], course)
    requires Run(s, es).Some?
    ensures var yaw := Run(s, es).value.yaw;
            && 0 <= yaw < FULL_TURN
            && CircularDistance(yaw, course) <= CircularDistance(s.yaw, course)
            && (Readings(es) >= 200 ==> CircularDistance(yaw, course) < 20)
  {
    RestingRun(s, course, es);
    SettlingDistance(s.yaw, course, Readings(es));
    SettlesIn200(CircularDistance(s.yaw, course), Readings(es));
  }

  lemma {:induction false} SettlesIn200(d: nat, n: nat)
    requires d <= HALF_TURN
    ensures n >= 200 ==> Decay(ByTwenty(), d, n) < 20
  {
    FractionsDrop();
    if n >= 200 { SettlesIn(ByTwenty(), 20, d, n); }
  }
}
