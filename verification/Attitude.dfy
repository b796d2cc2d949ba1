/**
  What the attitude filter makes of each sensor: which axis feeds which angle, in which direction, and
  where the angles settle.
  */
module Attitude {
  import opened Bytes
  import opened Decaying
  import opened Integers
  import opened Ahrs

  datatype Axis = Roll | Pitch | Yaw

  function Angle(s: State, axis: Axis): int
  {
    match axis
    case Roll => s.roll
    case Pitch => s.pitch
    case Yaw => s.yaw
  }

  /** The gyro axis that turns an angle. */
  function Rate(imu: Imu, axis: Axis): int
  {
    match axis
    case Roll => imu.gx
    case Pitch => imu.gy
    case Yaw => imu.gz
  }

  // ── Which reading moves which angle ────────────────────────────────────

  /**
    The readings agree in what the angle may depend on: the time step and its own gyro axis, for roll
    also the lateral and vertical acceleration, for pitch all three.
    */
  predicate SameFor(axis: Axis, a: Imu, b: Imu)
  {
    && Rate(a, axis) == Rate(b, axis)
    && (axis != Yaw ==> a.ay == b.ay && a.az == b.az)
    && (axis == Pitch ==> a.ax == b.ax)
  }

  predicate Alike(axis: Axis, e: Event, f: Event)
  {
    && (e.Reading? <==> f.Reading?)
    && (e.Reading? ==> e.dt == f.dt && SameFor(axis, e.imu, f.imu))
    && (axis == Yaw && !e.Reading? ==> e == f)
  }

  predicate AllAlike(axis: Axis, es: seq<Event>, fs: seq<Event>)
  {
    |es| == |fs| && forall i :: 0 <= i < |es| ==> Alike(axis, es[i], fs[i])
  }

  predicate Agree(axis: Axis, s: State, t: State)
  {
    Angle(s, axis) == Angle(t, axis) && (axis == Yaw ==> s.course == t.course)
  }

  lemma {:induction false} StepsAgree(axis: Axis, s: State, t: State, e: Event, f: Event)
    requires Agree(axis, s, t) && Alike(axis, e, f) && Step(s, e).Some? && Step(t, f).Some?
    ensures Agree(axis, Step(s, e).value, Step(t, f).value)
  {}

  /** Over every two runs: an angle depends on nothing but its own axis, its accelerations and, for yaw, the course. */
  lemma {:induction false} AxesApart(axis: Axis, s: State, t: State, es: seq<Event>, fs: seq<Event>)
    requires Agree(axis, s, t) && AllAlike(axis, es, fs) && Run(s, es).Some? && Run(t, fs).Some?
    ensures Agree(axis, Run(s, es).value, Run(t, fs).value)
  {
    if es != [] {
      var n := |es| - 1;
      AxesApart(axis, s, t, es[..n], fs[..n]);
      StepsAgree(axis, Run(s, es[..n]).value, Run(t, fs[..n]).value, es[n], fs[n]);
    }
  }

  // ── In which direction ─────────────────────────────────────────────────

  /** The step of the gyro, before the cast to 32 bits. */
  predicate Castable(rate: int, dt: nat)
  {
    InI32(TruncDiv(rate * dt, 10_000_000))
  }

  lemma {:induction false} StepMonotone(a: int, b: int, dt: nat)
    requires a <= b && Castable(a, dt) && Castable(b, dt)
    ensures GyroStep(a, dt) <= GyroStep(b, dt)
  {
    Scaled(dt, a, b);
    assert a * dt == dt * a && b * dt == dt * b;
    TruncMonotone(a * dt, b * dt);
  }

  lemma {:induction false} TruncMonotone(m: int, n: int)
    requires m <= n
    ensures TruncDiv(m, 10_000_000) <= TruncDiv(n, 10_000_000)
  {}

  lemma {:induction false} FilterMonotone(a: int, b: int, p: int, q: int, accel: int)
    requires a + p <= b + q && Filter(a, p, accel).Some? && Filter(b, q, accel).Some?
    ensures Filter(a, p, accel).value <= Filter(b, q, accel).value
  {}

  /** The readings differ at most in that the second turns faster about the axis. */
  predicate Faster(axis: Axis, e: Event, f: Event)
  {
    && (e.Reading? <==> f.Reading?)
    && (e.Reading? ==>
          && e.dt == f.dt && e.imu.ax == f.imu.ax && e.imu.ay == f.imu.ay && e.imu.az == f.imu.az
          && Rate(e.imu, axis) <= Rate(f.imu, axis)
          && Castable(Rate(e.imu, axis), e.dt) && Castable(Rate(f.imu, axis), f.dt))
  }

  lemma {:induction false} FasterStep(axis: Axis, s: State, t: State, e: Event, f: Event)
    requires axis != Yaw && Angle(s, axis) <= Angle(t, axis) && Faster(axis, e, f)
    requires Step(s, e).Some? && Step(t, f).Some?
    ensures Angle(Step(s, e).value, axis) <= Angle(Step(t, f).value, axis)
  {
    if e.Reading? {
      var (a, b) := (GyroStep(Rate(e.imu, axis), e.dt), GyroStep(Rate(f.imu, axis), f.dt));
      StepMonotone(Rate(e.imu, axis), Rate(f.imu, axis), e.dt);
      if axis == Roll {
        FilterMonotone(s.roll, t.roll, a, b, AccelRoll(e.imu));
      } else {
        FilterMonotone(s.pitch, t.pitch, a, b, AccelPitch(e.imu));
      }
    }
  }

  /** Over every two runs: turning faster about an axis never lowers its angle. */
  lemma {:induction false} FasterTurnsFurther(axis: Axis, s: State, t: State, es: seq<Event>, fs: seq<Event>)
    requires axis != Yaw && Angle(s, axis) <= Angle(t, axis) && |es| == |fs|
    requires forall i :: 0 <= i < |es| ==> Faster(axis, es[i], fs[i])
    requires Run(s, es).Some? && Run(t, fs).Some?
    ensures Angle(Run(s, es).value, axis) <= Angle(Run(t, fs).value, axis)
  {
    if es != [] {
      var n := |es| - 1;
      FasterTurnsFurther(axis, s, t, es[..n], fs[..n]);
      FasterStep(axis, Run(s, es[..n]).value, Run(t, fs[..n]).value, es[n], fs[n]);
    }
  }

  /** A robot on its side or on its nose reads a right angle, with the sign of the acceleration. */
  lemma {:induction false} FullTilt(a: int, imu: Imu)
    requires 0 < a <= I32_MAX
    ensures AccelRoll(imu.(ay := a, az := 0)) == 9000 && AccelRoll(imu.(ay := -a, az := 0)) == -9000
    ensures AccelPitch(imu.(ax := -a, ay := 0, az := 0)) == 9000
    ensures AccelPitch(imu.(ax := a, ay := 0, az := 0)) == -9000
  {
    assert 0 * 0 + 0 * 0 == 0;
    Flat(a);
  }

  lemma {:induction false} Flat(a: nat)
    requires a > 0
    ensures Sqrt(0) == 0 && Octant(0, a) == 0
  {
    DividesUniquely(0 * 1000, a, 0);
    SmallRatios();
  }

  /** A level robot at one g that turns at `(gx, gy, gz)`. */
  function Spinning(gx: int, gy: int, gz: int): Imu
  {
    Imu(0, 0, 1000, gx, gy, gz)
  }

  lemma {:induction false} LevelAngles(imu: Imu)
    requires imu.ax == imu.ay == 0 && imu.az == 1000
    ensures AccelRoll(imu) == 4 && AccelPitch(imu) == 4
  {
    SqrtAtLeast(1000 * 1000, 1000);
    SqrtBelow(1000 * 1000, 1001);
    assert AsI32(1000) == 1000;
    Atan2OnAxis(1000);
  }

  lemma {:induction false} UpdateOf(s: State, imu: Imu, pressure: nat, dt: nat, p: (int, int), d: (int, int, int),
                                    next: (int, int, int), alt: int)
    requires SumOfSquares(imu) <= I64_MAX && imu.ax != I32_MIN && p == (AccelRoll(imu), AccelPitch(imu))
    requires d == (GyroStep(imu.gx, dt), GyroStep(imu.gy, dt), GyroStep(imu.gz, dt))
    requires Filter(s.roll, d.0, p.0) == Some(next.0) && Filter(s.pitch, d.1, p.1) == Some(next.1)
    requires NextYaw(s.yaw, d.2, s.course) == Some(next.2) && Altitude(s.refPressure, pressure) == Some(alt)
    ensures Update(s, imu, pressure, dt)
         == Some((s.(roll := next.0, pitch := next.1, yaw := next.2), Attitude(next.0, next.1, next.2, alt)))
  {}

  lemma {:induction false} LevelValues()
    ensures GyroStep(1_000_000, 10_000) == 1000 && GyroStep(0, 10_000) == 0
    ensures Filter(0, 1000, 4) == Some(980) && Filter(0, 0, 4) == Some(0)
    ensures NextYaw(0, 1000, None) == Some(1000) && NextYaw(0, 0, None) == Some(0)
    ensures Altitude(101325, 101325) == Some(0)
  {}

  /** From level, ten degrees about one axis within a reading: that angle follows, to 98 percent, and no other. */
  lemma {:induction false} RollOnly()
    ensures Update(INITIAL, Spinning(1_000_000, 0, 0), 101325, 10_000)
         == Some((State(980, 0, 0, 101325, None), Attitude(980, 0, 0, 0)))
  {
    LevelAngles(Spinning(1_000_000, 0, 0));
    LevelValues();
    UpdateOf(INITIAL, Spinning(1_000_000, 0, 0), 101325, 10_000, (4, 4), (1000, 0, 0), (980, 0, 0), 0);
  }

  lemma {:induction false} PitchOnly()
    ensures Update(INITIAL, Spinning(0, 1_000_000, 0), 101325, 10_000)
         == Some((State(0, 980, 0, 101325, None), Attitude(0, 980, 0, 0)))
  {
    LevelAngles(Spinning(0, 1_000_000, 0));
    LevelValues();
    UpdateOf(INITIAL, Spinning(0, 1_000_000, 0), 101325, 10_000, (4, 4), (0, 1000, 0), (0, 980, 0), 0);
  }

  lemma {:induction false} YawOnly()
    ensures Update(INITIAL, Spinning(0, 0, 1_000_000), 101325, 10_000)
         == Some((State(0, 0, 1000, 101325, None), Attitude(0, 0, 1000, 0)))
  {
    LevelAngles(Spinning(0, 0, 1_000_000));
    LevelValues();
    UpdateOf(INITIAL, Spinning(0, 0, 1_000_000), 101325, 10_000, (4, 4), (0, 0, 1000), (0, 0, 1000), 0);
  }

  /** The rotations about the vertical axis, added up. */
  function TotalYaw(es: seq<Event>): int
  {
    if es == [] then 0
    else
      var e := es[|es| - 1];
      TotalYaw(es[..|es| - 1]) + if e.Reading? then GyroStep(e.imu.gz, e.dt) else 0
  }

  /** The event gives no course. */
  predicate Courseless(e: Event)
  {
    e.Gps? ==> e.fix == 0 || e.speed <= 100
  }

  lemma {:induction false} YawStep(s: State, e: Event)
    requires s.course == None && Courseless(e) && Step(s, e).Some?
    ensures var step := if e.Reading? then GyroStep(e.imu.gz, e.dt) else 0;
            Step(s, e).value.course == None
            && Step(s, e).value.yaw == if e.Reading? then (s.yaw + step) % 36000 else s.yaw
  {
    if e.Reading? { NormalisedIsRemainder(s.yaw + GyroStep(e.imu.gz, e.dt)); }
  }

  /** Without a course, yaw is the sum of the rotations about the vertical axis, within one turn. */
  lemma {:induction false} YawAddsUp(s: State, es: seq<Event>)
    requires s.course == None && 0 <= s.yaw < FULL_TURN && Run(s, es).Some?
    requires forall i :: 0 <= i < |es| ==> Courseless(es[i])
    ensures Run(s, es).value.course == None && Run(s, es).value.yaw == (s.yaw + TotalYaw(es)) % 36000
  {
    if es != [] {
      var front, e := es[..|es| - 1], es[|es| - 1];
      YawAddsUp(s, front);
      YawThen(Run(s, front).value, e, s.yaw + TotalYaw(front));
    }
  }

  lemma {:induction false} YawThen(t: State, e: Event, total: int)
    requires t.course == None && t.yaw == total % 36000 && Courseless(e) && Step(t, e).Some?
    ensures Step(t, e).value.course == None
    ensures Step(t, e).value.yaw == (total + if e.Reading? then GyroStep(e.imu.gz, e.dt) else 0) % 36000
  {
    YawStep(t, e);
    if e.Reading? { RemainderAdds(total, GyroStep(e.imu.gz, e.dt)); }
  }

  lemma {:induction false} RemainderAdds(a: int, b: int)
    ensures (a % 36000 + b) % 36000 == (a + b) % 36000
  {}

  // ── Where the angles settle ────────────────────────────────────────────

  /** Readings with these accelerations and roll and pitch axes of the gyro at rest. */
  predicate Still(e: Event, imu: Imu)
  {
    e.Reading? ==>
      e.imu.ax == imu.ax && e.imu.ay == imu.ay && e.imu.az == imu.az && e.imu.gx == 0 && e.imu.gy == 0
  }

  lemma {:induction false} FilterCloses(angle: int, accel: int)
    requires Filter(angle, 0, accel).Some?
    ensures Abs(Filter(angle, 0, accel).value - accel) <= Less(ByFifty(), Abs(angle - accel))
  {
    FilterContracts(angle, 0, accel);
  }

  lemma {:induction false} LessMonotone(a: nat, b: nat)
    requires a <= b
    ensures Less(ByFifty(), a) <= Less(ByFifty(), b)
  {}

  lemma {:induction false} ClosesIn(angle: int, accel: int, left: nat)
    requires Filter(angle, 0, accel).Some? && Abs(angle - accel) <= left
    ensures Abs(Filter(angle, 0, accel).value - accel) <= Less(ByFifty(), left)
  {
    FilterCloses(angle, accel);
    LessMonotone(Abs(angle - accel), left);
  }

  /** How far roll and pitch are from what the accelerometer says. */
  ghost predicate Within(s: State, imu: Imu, roll: nat, pitch: nat)
  {
    Abs(s.roll - AccelRoll(imu)) <= roll && Abs(s.pitch - AccelPitch(imu)) <= pitch
  }

  lemma {:induction false} StillStep(s: State, imu: Imu, e: Event, roll: nat, pitch: nat)
    requires Still(e, imu) && Within(s, imu, roll, pitch) && Step(s, e).Some?
    ensures e.Reading? ==> Within(Step(s, e).value, imu, Less(ByFifty(), roll), Less(ByFifty(), pitch))
    ensures !e.Reading? ==> Within(Step(s, e).value, imu, roll, pitch)
  {
    if e.Reading? {
      StillReading(s, imu, e);
      ClosesIn(s.roll, AccelRoll(imu), roll);
      ClosesIn(s.pitch, AccelPitch(imu), pitch);
    }
  }

  lemma {:induction false} StillReading(s: State, imu: Imu, e: Event)
    requires e.Reading? && Still(e, imu) && Step(s, e).Some?
    ensures Filter(s.roll, 0, AccelRoll(imu)) == Some(Step(s, e).value.roll)
    ensures Filter(s.pitch, 0, AccelPitch(imu)) == Some(Step(s, e).value.pitch)
  {
    AtRest(e.dt);
  }

  lemma {:induction false} StillRun(s: State, imu: Imu, es: seq<Event>, roll: nat, pitch: nat)
    requires forall i :: 0 <= i < |es| ==> Still(es[i], imu)
    requires Within(s, imu, roll, pitch) && Run(s, es).Some?
    ensures var n := Readings(es);
            Within(Run(s, es).value, imu, Decay(ByFifty(), roll, n), Decay(ByFifty(), pitch, n))
  {
    if es != [] {
      var front := es[..|es| - 1];
      StillRun(s, imu, front, roll, pitch);
      StillStep(Run(s, front).value, imu, es[|es| - 1], Decay(ByFifty(), roll, Readings(front)),
                Decay(ByFifty(), pitch, Readings(front)));
    }
  }

  /**
    With constant accelerations and the gyro at rest, roll and pitch never move away from the
    accelerometer angles, and from the 500th reading on they are within half a degree of them.
    */
  lemma {:induction false} AttitudeSettles(s: State, imu: Imu, es: seq<Event>)
    requires forall i :: 0 <= i < |es| ==> Still(es[i], imu)
    requires Abs(s.roll) <= HALF_TURN && Abs(s.pitch) <= HALF_TURN && Run(s, es).Some?
    ensures var t := Run(s, es).value;
            && Abs(t.roll - AccelRoll(imu)) <= Abs(s.roll - AccelRoll(imu))
            && Abs(t.pitch - AccelPitch(imu)) <= Abs(s.pitch - AccelPitch(imu))
            && (Readings(es) >= 500 ==> Abs(t.roll - AccelRoll(imu)) < 50 && Abs(t.pitch - AccelPitch(imu)) < 50)
  {
    var (roll, pitch) := (Abs(s.roll - AccelRoll(imu)), Abs(s.pitch - AccelPitch(imu)));
    StillRun(s, imu, es, roll, pitch);
    if Readings(es) >= 500 {
      FractionsDrop();
      SettlesIn(ByFifty(), 50, roll, Readings(es));
      SettlesIn(ByFifty(), 50, pitch, Readings(es));
    }
  }
}
