/** The per-motor arithmetic of the step generator (server/cdriver/space.cpp): the
    limiter `check_distance`, the interpolation of axis targets in `handle_motors`,
    the rounding of positions to steps in `do_steps`, and the packing of step counts
    into fragment data in `apply_tick`. */
module Limiter {
  import opened Numeric
  import opened Records

  /** `sqrt` of the C library, a parameter of the model: for a non-negative argument
      it returns the non-negative square root. */
  ghost predicate IsSqrt(sqrt: real -> real)
  {
    forall x: real :: 0.0 <= x ==> 0.0 <= sqrt(x) && sqrt(x) * sqrt(x) == x
  }

  /** The limits of a motor are sane when each is absent or non-negative. */
  predicate Sane(m: Motor)
  {
    (m.limitV.Bounded? ==> m.limitV.value >= 0.0) && (m.limitA.Bounded? ==> m.limitA.value >= 0.0)
  }

  /** NaN-propagating multiplication. */
  function Mul(a: Option<real>, b: Option<real>): (r: Option<real>)
    ensures r.Some? <==> a.Some? && b.Some?
  {
    if a.Some? && b.Some? then Some(a.value * b.value) else None
  }

  /** `a / b` where a zero divisor gives an infinity or NaN, which this model does not
      tell apart from NaN. */
  function Div(a: real, b: Option<real>): (r: Option<real>)
    ensures r.Some? <==> b.Some? && b.value != 0.0
  {
    if b.Some? && b.value != 0.0 then Some(a / b.value) else None
  }

  // check_distance

  /** The previous velocity, set to 0 when it points against the new direction. */
  function TurnAround(lastV: Option<real>, s: real): (r: Option<real>)
    ensures r.Some? <==> lastV.Some?
    ensures r.Some? && (s == 1.0 || s == -1.0) ==> r.value * s >= 0.0
  {
    if lastV.Some? && lastV.value * s < 0.0 then Some(0.0) else lastV
  }

  /* The limiter is written on the speed `w` along the direction `s` of the move:
     the distance it stands for is `s * w * dt`, and `fabs(distance / dt)` is `|w|`.
     Each clamp below sets the speed whose distance the source assigns. */

  /** Limit v: above the velocity limit the distance becomes `s * limit_v * dt`. */
  function LimitVelocity(w: real, limitV: Limit): real
  {
    if limitV.Bounded? && Abs(w) > limitV.value then limitV.value else w
  }

  /** Limit a+: when the speed exceeds the previous velocity by more than
      `limit_a * dt`, the distance becomes `(limit_a * dt * s + last_v) * dt`, which is
      the speed `limit_a * dt + last_v * s` along `s`. */
  function LimitAcceleration(w: real, s: real, dt: real, lastV: Option<real>, limitA: Limit): real
  {
    if limitA.Bounded? && lastV.Some? && Abs(w) - lastV.value * s > limitA.value * dt then
      limitA.value * dt + lastV.value * s
    else w
  }

  /** The distance left until the end position, in direction `s`; an unknown end
      position or steps-per-metre factor gives NaN. */
  function MaxDist(slot: MotorSlot, stepsPerM: Option<real>, s: real): (r: Option<real>)
    ensures r.Some? ==> slot.endpos.Some? && stepsPerM.Some? && stepsPerM.value != 0.0
  {
    var here := Div(slot.currentPos as real, stepsPerM);
    if slot.endpos.Some? && here.Some? then Some((slot.endpos.value - here.value) * s) else None
  }

  /** `limit_dist > max_dist` with `max_dist > 0`: stopping from `v` at the
      acceleration limit takes `v * v / 2 / limit_a`, which is infinite for a zero
      limit and moving motor, and never exceeds anything for an absent limit. */
  predicate Brakes(v: real, limitA: Limit, maxDist: Option<real>)
  {
    && maxDist.Some? && maxDist.value > 0.0 && limitA.Bounded?
    && ((limitA.value > 0.0 && v * v / 2.0 / limitA.value > maxDist.value) || (limitA.value == 0.0 && v != 0.0))
  }

  /** Limit a-: when the motor could not stop before its end position, the speed
      becomes the one from which it can, `sqrt(max_dist * 2 * limit_a)`. */
  function LimitDeceleration(w: real, limitA: Limit, maxDist: Option<real>, sqrt: real -> real): real
  {
    if Brakes(Abs(w), limitA, maxDist) then sqrt(BrakeSquare(maxDist, limitA)) else w
  }

  /** The square of the speed the deceleration stage sets, `max_dist * 2 * limit_a`. */
  function BrakeSquare(maxDist: Option<real>, limitA: Limit): real
  {
    if maxDist.Some? && limitA.Bounded? then maxDist.value * 2.0 * limitA.value else 0.0
  }

  /** `sqrt` returns the non-negative root of `x`, if `x` is non-negative. */
  predicate RootAt(sqrt: real -> real, x: real)
  {
    x >= 0.0 ==> sqrt(x) >= 0.0 && sqrt(x) * sqrt(x) == x
  }

  /** The speed `check_distance` permits for a requested non-zero distance `d`:
      velocity, then acceleration, then deceleration limited, in that order. */
  function PermittedSpeed(mtr: Motor, slot: MotorSlot, d: real, dt: real, sqrt: real -> real): real
    requires dt > 0.0
  {
    var s := Sign(d / dt) as real;
    var w1 := LimitVelocity(Abs(d / dt), mtr.limitV);
    var w2 := LimitAcceleration(w1, s, dt, TurnAround(slot.lastV, s), mtr.limitA);
    LimitDeceleration(w2, mtr.limitA, MaxDist(slot, mtr.stepsPerM, s), sqrt)
  }

  /** The distance covered in `dt` at speed `w` in the direction of `d`. */
  function Along(d: real, dt: real, w: real): real
    requires dt > 0.0
  {
    Sign(d / dt) as real * w * dt
  }

  /** The distance `check_distance` permits. */
  function Permitted(mtr: Motor, slot: MotorSlot, d: real, dt: real, sqrt: real -> real): real
    requires dt > 0.0
  {
    Along(d, dt, PermittedSpeed(mtr, slot, d, dt, sqrt))
  }

  /** The motor's new slot and the new slow-down factor. */
  datatype Checked = Checked(slot: MotorSlot, factor: real)

  /** `check_distance(mtr, distance, dt, factor)` on the motor's slot of the current
      fragment.  A NaN or zero distance is no move: the target distance becomes 0 and
      the factor stays.  Otherwise the slot records the requested distance and
      velocity and the turned-around previous velocity, and the factor is lowered to
      the ratio of permitted to requested distance if that is smaller. */
  function CheckDistance(mtr: Motor, slot: MotorSlot, distance: Option<real>, dt: real, factor: real,
                         sqrt: real -> real): (r: Checked)
    requires dt > 0.0
    ensures r.factor <= factor
    ensures r.slot.(targetDist := slot.targetDist, targetV := slot.targetV, lastV := slot.lastV) == slot
  {
    if distance.None? || distance.value == 0.0 then
      Checked(slot.(targetDist := Some(0.0)), factor)
    else
      var d := distance.value;
      var tv := d / dt;
      var f := Permitted(mtr, slot, d, dt, sqrt) / d;
      Checked(slot.(targetDist := Some(d), targetV := Some(tv), lastV := TurnAround(slot.lastV, Sign(tv) as real)),
              if f < factor then f else factor)
  }

  lemma MulNonneg(a: real, b: real)
    requires a >= 0.0 && b >= 0.0
    ensures a * b >= 0.0
  {
  }

  lemma MulPos(a: real, b: real)
    requires a > 0.0 && b > 0.0
    ensures a * b > 0.0
  {
  }

  /** `x / 2 / a > y` is `x > 2 * a * y` for a positive `a`. */
  lemma HalfOver(x: real, a: real, y: real)
    requires a > 0.0
    ensures x / 2.0 / a > y <==> x > 2.0 * a * y
  {
    var q := x / 2.0 / a;
    assert q * a == x / 2.0;
    if q > y {
      MulPos(q - y, a);
      assert (q - y) * a == q * a - y * a;
    } else {
      MulNonneg(y - q, a);
      assert (y - q) * a == y * a - q * a;
    }
  }

  /** Of two non-negative numbers the larger has the larger square. */
  lemma SquareMonotone(u: real, v: real)
    requires u >= 0.0 && v >= 0.0
    ensures v > u ==> u * u < v * v
  {
    if v > u {
      MulPos(v - u, v);
      MulNonneg(u, v - u);
      assert (v - u) * v == v * v - u * v;
      assert u * (v - u) == u * v - u * u;
    }
  }

  lemma RootFrom(sqrt: real -> real, x: real)
    requires IsSqrt(sqrt)
    ensures RootAt(sqrt, x)
  {
  }

  /** Each limiting stage keeps the speed non-negative and never raises it. */
  lemma VelocityStage(w: real, limitV: Limit)
    requires w >= 0.0 && (limitV.Bounded? ==> limitV.value >= 0.0)
    ensures 0.0 <= LimitVelocity(w, limitV) <= w
    ensures limitV.Bounded? ==> LimitVelocity(w, limitV) <= limitV.value
  {
  }

  lemma {:induction false} AccelerationStage(w: real, s: real, dt: real, lastV: Option<real>, limitA: Limit)
    requires w >= 0.0 && dt > 0.0 && (limitA.Bounded? ==> limitA.value >= 0.0)
    requires lastV.Some? ==> lastV.value * s >= 0.0
    ensures 0.0 <= LimitAcceleration(w, s, dt, lastV, limitA) <= w
    ensures limitA.Bounded? && lastV.Some? ==>
      LimitAcceleration(w, s, dt, lastV, limitA) - lastV.value * s <= limitA.value * dt
  {
    if limitA.Bounded? {
      MulNonneg(limitA.value, dt);
    }
  }

  /** Braking from speed `u` sets the speed `sqrt(max_dist * 2 * limit_a)`, which is
      no more than `u`. */
  lemma BrakeSpeed(u: real, a: real, md: real, r: real)
    requires u >= 0.0 && a >= 0.0 && md > 0.0
    requires (a > 0.0 && u * u / 2.0 / a > md) || (a == 0.0 && u != 0.0)
    requires r >= 0.0 && r * r == md * 2.0 * a
    ensures r <= u
  {
    if a > 0.0 {
      HalfOver(u * u, a, md);
    }
    SquareMonotone(u, r);
  }

  lemma {:induction false} DecelerationStage(w: real, limitA: Limit, maxDist: Option<real>, sqrt: real -> real)
    requires w >= 0.0 && (limitA.Bounded? ==> limitA.value >= 0.0)
    requires RootAt(sqrt, BrakeSquare(maxDist, limitA))
    ensures 0.0 <= LimitDeceleration(w, limitA, maxDist, sqrt) <= w
  {
    assert Abs(w) == w;
    if Brakes(w, limitA, maxDist) {
      var x := BrakeSquare(maxDist, limitA);
      assert LimitDeceleration(w, limitA, maxDist, sqrt) == sqrt(x);
      assert x == maxDist.value * 2.0 * limitA.value;
      MulNonneg(maxDist.value * 2.0, limitA.value);
      BrakeSpeed(w, limitA.value, maxDist.value, sqrt(x));
    }
  }

  /** After the deceleration stage the motor can stop within the distance left. */
  lemma {:induction false} DecelerationStops(w: real, limitA: Limit, maxDist: Option<real>, sqrt: real -> real)
    requires w >= 0.0 && RootAt(sqrt, BrakeSquare(maxDist, limitA))
    requires maxDist.Some? && maxDist.value > 0.0 && limitA.Bounded? && limitA.value > 0.0
    ensures LimitDeceleration(w, limitA, maxDist, sqrt) * LimitDeceleration(w, limitA, maxDist, sqrt)
      <= 2.0 * limitA.value * maxDist.value
  {
    assert Abs(w) == w;
    var x := BrakeSquare(maxDist, limitA);
    if Brakes(w, limitA, maxDist) {
      assert LimitDeceleration(w, limitA, maxDist, sqrt) == sqrt(x);
      MulNonneg(maxDist.value * 2.0, limitA.value);
    } else {
      assert LimitDeceleration(w, limitA, maxDist, sqrt) == w;
      HalfOver(w * w, limitA.value, maxDist.value);
    }
  }

  /** The three stages chained, on a non-negative speed with a previous velocity that
      does not point against the move. */
  lemma {:induction false} Stages(w0: real, s: real, dt: real, lastV: Option<real>, limitV: Limit, limitA: Limit,
                                  maxDist: Option<real>, sqrt: real -> real)
    requires w0 >= 0.0 && dt > 0.0 && RootAt(sqrt, BrakeSquare(maxDist, limitA))
    requires (limitV.Bounded? ==> limitV.value >= 0.0) && (limitA.Bounded? ==> limitA.value >= 0.0)
    requires lastV.Some? ==> lastV.value * s >= 0.0
    ensures var w := LimitDeceleration(LimitAcceleration(LimitVelocity(w0, limitV), s, dt, lastV, limitA),
                                       limitA, maxDist, sqrt);
      && 0.0 <= w <= w0
      && (limitV.Bounded? ==> w <= limitV.value)
      && (limitA.Bounded? && lastV.Some? ==> w - lastV.value * s <= limitA.value * dt)
      && (maxDist.Some? && maxDist.value > 0.0 && limitA.Bounded? && limitA.value > 0.0 ==>
            w * w <= 2.0 * limitA.value * maxDist.value)
  {
    var w1 := LimitVelocity(w0, limitV);
    var w2 := LimitAcceleration(w1, s, dt, lastV, limitA);
    VelocityStage(w0, limitV);
    AccelerationStage(w1, s, dt, lastV, limitA);
    DecelerationStage(w2, limitA, maxDist, sqrt);
    if maxDist.Some? && maxDist.value > 0.0 && limitA.Bounded? && limitA.value > 0.0 {
      DecelerationStops(w2, limitA, maxDist, sqrt);
    }
  }

  /** What `check_distance` permits, under sane limits: a speed no higher than
      requested and within the velocity limit. */
  lemma {:induction false} PermittedSpeedWithin(mtr: Motor, slot: MotorSlot, d: real, dt: real,
                                                sqrt: real -> real)
    requires dt > 0.0 && Sane(mtr) && IsSqrt(sqrt)
    ensures 0.0 <= PermittedSpeed(mtr, slot, d, dt, sqrt) <= Abs(d / dt)
    ensures mtr.limitV.Bounded? ==> PermittedSpeed(mtr, slot, d, dt, sqrt) <= mtr.limitV.value
  {
    var s := Sign(d / dt) as real;
    var maxDist := MaxDist(slot, mtr.stepsPerM, s);
    RootFrom(sqrt, BrakeSquare(maxDist, mtr.limitA));
    Stages(Abs(d / dt), s, dt, TurnAround(slot.lastV, s), mtr.limitV, mtr.limitA, maxDist, sqrt);
  }

  /** The permitted speed is within `limit_a * dt` of the (turned-around) previous
      velocity. */
  lemma {:induction false} PermittedAcceleration(mtr: Motor, slot: MotorSlot, d: real, dt: real,
                                                 sqrt: real -> real)
    requires dt > 0.0 && Sane(mtr) && IsSqrt(sqrt)
    ensures var s := Sign(d / dt) as real;
      var lastV := TurnAround(slot.lastV, s);
      mtr.limitA.Bounded? && lastV.Some? ==>
        PermittedSpeed(mtr, slot, d, dt, sqrt) - lastV.value * s <= mtr.limitA.value * dt
  {
    var s := Sign(d / dt) as real;
    var maxDist := MaxDist(slot, mtr.stepsPerM, s);
    RootFrom(sqrt, BrakeSquare(maxDist, mtr.limitA));
    Stages(Abs(d / dt), s, dt, TurnAround(slot.lastV, s), mtr.limitV, mtr.limitA, maxDist, sqrt);
  }

  /** From the permitted speed the motor can stop before its end position at the
      acceleration limit. */
  lemma {:induction false} PermittedBraking(mtr: Motor, slot: MotorSlot, d: real, dt: real, sqrt: real -> real)
    requires dt > 0.0 && Sane(mtr) && IsSqrt(sqrt)
    ensures var maxDist := MaxDist(slot, mtr.stepsPerM, Sign(d / dt) as real);
      var w := PermittedSpeed(mtr, slot, d, dt, sqrt);
      maxDist.Some? && maxDist.value > 0.0 && mtr.limitA.Bounded? && mtr.limitA.value > 0.0 ==>
        w * w <= 2.0 * mtr.limitA.value * maxDist.value
  {
    var s := Sign(d / dt) as real;
    var maxDist := MaxDist(slot, mtr.stepsPerM, s);
    var w1 := LimitVelocity(Abs(d / dt), mtr.limitV);
    VelocityStage(Abs(d / dt), mtr.limitV);
    AccelerationStage(w1, s, dt, TurnAround(slot.lastV, s), mtr.limitA);
    if maxDist.Some? && maxDist.value > 0.0 && mtr.limitA.Bounded? && mtr.limitA.value > 0.0 {
      RootFrom(sqrt, BrakeSquare(maxDist, mtr.limitA));
      DecelerationStops(LimitAcceleration(w1, s, dt, TurnAround(slot.lastV, s), mtr.limitA), mtr.limitA, maxDist, sqrt);
    }
  }

  /** A speed between 0 and the requested one stands for a distance in the requested
      direction that is the same fraction, between 0 and 1, of the requested one. */
  lemma DistanceFraction(d: real, dt: real, w: real)
    requires dt > 0.0 && d != 0.0 && 0.0 <= w <= Abs(d / dt)
    ensures 0.0 <= Along(d, dt, w) / d <= 1.0
  {
    var s := Sign(d / dt) as real;
    var v := Abs(d / dt);
    assert d / dt * dt == d;
    assert d == s * v * dt;
    assert v > 0.0;
    assert (s * w * dt) / d == w / v by {
      assert (w / v) * (s * v * dt) == s * w * dt;
    }
  }

  /** The permitted distance is a fraction between 0 and 1 of the requested one. */
  lemma PermittedFraction(mtr: Motor, slot: MotorSlot, d: real, dt: real, sqrt: real -> real)
    requires dt > 0.0 && d != 0.0 && Sane(mtr) && IsSqrt(sqrt)
    ensures 0.0 <= Permitted(mtr, slot, d, dt, sqrt) / d <= 1.0
  {
    PermittedSpeedWithin(mtr, slot, d, dt, sqrt);
    DistanceFraction(d, dt, PermittedSpeed(mtr, slot, d, dt, sqrt));
  }

  /** `check_distance` on a NaN or zero distance: target distance 0, factor and
      everything else unchanged. */
  lemma CheckNoMove(mtr: Motor, slot: MotorSlot, distance: Option<real>, dt: real, factor: real,
                    sqrt: real -> real)
    requires dt > 0.0 && (distance.None? || distance.value == 0.0)
    ensures CheckDistance(mtr, slot, distance, dt, factor, sqrt) == Checked(slot.(targetDist := Some(0.0)), factor)
  {
  }

  /** `check_distance` on a move: the factor becomes the smaller of itself and the
      permitted fraction of the move, which lies in [0, 1]; so a non-negative factor
      stays non-negative and never grows. */
  lemma CheckFactor(mtr: Motor, slot: MotorSlot, d: real, dt: real, factor: real, sqrt: real -> real)
    requires dt > 0.0 && d != 0.0 && Sane(mtr) && IsSqrt(sqrt)
    ensures var r := CheckDistance(mtr, slot, Some(d), dt, factor, sqrt);
      var frac := Permitted(mtr, slot, d, dt, sqrt) / d;
      && 0.0 <= frac <= 1.0
      && r.factor == (if frac < factor then frac else factor)
      && (factor >= 0.0 ==> 0.0 <= r.factor <= factor)
      && r.slot.targetDist == Some(d) && r.slot.targetV == Some(d / dt)
      && r.slot.lastV == TurnAround(slot.lastV, Sign(d / dt) as real)
  {
    PermittedFraction(mtr, slot, d, dt, sqrt);
  }

  // handle_motors: targets of the axes

  /** The main-phase blend `(f1 * (2 - u) + f2 * u) * u` of the fraction `u` of the
      main part that has passed. */
  function MainBlend(f1: real, f2: real, u: real): real
  {
    (f1 * (2.0 - u) + f2 * u) * u
  }

  /** The blend grows through the phase when `f1` and `f2` are non-negative. */
  lemma MainBlendMonotone(f1: real, f2: real, u: real, w: real)
    requires f1 >= 0.0 && f2 >= 0.0 && 0.0 <= u <= w <= 1.0
    ensures MainBlend(f1, f2, u) <= MainBlend(f1, f2, w)
  {
    var g := (w - u) * (2.0 - w - u);
    var h := (w - u) * (w + u);
    MulNonneg(w - u, 2.0 - w - u);
    MulNonneg(w - u, w + u);
    MulNonneg(f1, g);
    MulNonneg(f2, h);
    assert MainBlend(f1, f2, w) - MainBlend(f1, f2, u) == f1 * g + f2 * h;
  }

  /** The blend starts at 0, ends at `f1 + f2`, and with non-negative `f1`, `f2` it
      grows through the phase and stays between its end values. */
  lemma MainBlendShape(f1: real, f2: real, u: real, w: real)
    requires f1 >= 0.0 && f2 >= 0.0 && 0.0 <= u <= w <= 1.0
    ensures MainBlend(f1, f2, 0.0) == 0.0 && MainBlend(f1, f2, 1.0) == f1 + f2
    ensures MainBlend(f1, f2, u) <= MainBlend(f1, f2, w)
    ensures 0.0 <= MainBlend(f1, f2, u) <= f1 + f2
  {
    MainBlendMonotone(f1, f2, u, w);
    MainBlendMonotone(f1, f2, 0.0, u);
    MainBlendMonotone(f1, f2, u, 1.0);
  }

  /** The axis target in the main part: NaN for an axis that does not move (NaN or
      zero distance), otherwise `source + dist * current_f`. */
  function MainTarget(a: Axis, f: nat, currentF: Option<real>): Option<real>
    requires f < |a.settings|
  {
    var dist := a.settings[f].dist;
    if dist.None? || dist.value == 0.0 then None else Add(a.source, Mul(dist, currentF))
  }

  /** The connector's blend factors `fp * (2 - u) * u` and `fq * u * u`. */
  function ConnectorBlend(fp: real, fq: real, u: real): (real, real)
  {
    (fp * (2.0 - u) * u, fq * u * u)
  }

  /** The axis target in the connector: NaN when neither this segment nor the next
      moves the axis, otherwise `source + main_dist + dist * f2 + next_dist * f3`. */
  function ConnectorTarget(a: Axis, f: nat, blend: (real, real)): Option<real>
    requires f < |a.settings|
  {
    var slot := a.settings[f];
    if (slot.dist.None? || slot.dist.value == 0.0) && (slot.nextDist.None? || slot.nextDist.value == 0.0) then None
    else Add(Add(Add(a.source, slot.mainDist), Mul(slot.dist, Some(blend.0))), Mul(slot.nextDist, Some(blend.1)))
  }

  /** At the start of the connector the target is `source + main_dist`, and at its end
      the connector has added `dist * fp + next_dist * fq`. */
  lemma ConnectorEnds(fp: real, fq: real)
    ensures ConnectorBlend(fp, fq, 0.0) == (0.0, 0.0)
    ensures ConnectorBlend(fp, fq, 1.0) == (fp, fq)
  {
  }

  /** Where the main part ends and the connector starts the target is continuous
      exactly when `main_dist` is the distance the main part covered. */
  lemma {:induction false} PhaseBoundary(a: Axis, f: nat, f1: real, f2: real, fp: real, fq: real)
    requires f < |a.settings| && a.source.Some?
    requires a.settings[f].dist.Some? && a.settings[f].dist.value != 0.0
    requires a.settings[f].mainDist.Some? && a.settings[f].nextDist.Some?
    ensures MainTarget(a, f, Some(MainBlend(f1, f2, 1.0))) == ConnectorTarget(a, f, ConnectorBlend(fp, fq, 0.0))
      <==> a.settings[f].mainDist.value == a.settings[f].dist.value * (f1 + f2)
  {
    ConnectorEnds(fp, fq);
    assert MainBlend(f1, f2, 1.0) == f1 + f2;
  }

  /** `finish`: a segment's distance is committed to the source, the distance becomes
      NaN and the target the new source.  An axis with a NaN distance is left alone. */
  function Commit(a: Axis, f: nat): (r: Axis)
    requires f < |a.settings|
    ensures |r.settings| == |a.settings|
  {
    var slot := a.settings[f];
    if slot.dist.None? then a
    else
      var source := Add(a.source, slot.dist);
      a.(source := source, settings := a.settings[f := slot.(dist := None, target := source)])
  }

  /** Committing twice commits once: after the first the distance is NaN. */
  lemma CommitIdempotent(a: Axis, f: nat)
    requires f < |a.settings|
    ensures Commit(Commit(a, f), f) == Commit(a, f)
  {
  }

  /** A committed axis has no distance left in this fragment, and its target is its
      source; when the distance and source were numbers the source has moved by it. */
  lemma CommitMoves(a: Axis, f: nat)
    requires f < |a.settings| && a.settings[f].dist.Some? && a.source.Some?
    ensures Commit(a, f).settings[f].dist.None?
    ensures Commit(a, f).settings[f].target == Commit(a, f).source
    ensures Commit(a, f).source.Some? && Commit(a, f).source.value - a.source.value == a.settings[f].dist.value
  {
  }

  // do_steps

  /** The value an out-of-range float-to-int conversion gives on the x86 targets the
      driver runs on; the C++ standard leaves it undefined. */
  const NAN_INT: int := -0x8000_0000

  /** `int(x + (x > 0 ? .49 : -.49))` of a float that may be NaN. */
  function RoundOption(x: Option<real>): int
  {
    if x.Some? then RoundSteps(x.value) else NAN_INT
  }

  /** `(current_pos / steps_per_m + target_dist * factor) * steps_per_m`: where the
      motor should be, in steps, after moving the fraction `factor` of the distance. */
  function StepNum(slot: MotorSlot, stepsPerM: Option<real>, factor: real): Option<real>
  {
    Mul(Add(Div(slot.currentPos as real, stepsPerM), Scale(slot.targetDist, factor)), stepsPerM)
  }

  /** The test of `do_steps` for a motor: the rounded step target differs from the
      current position. */
  predicate HasSteps(slot: MotorSlot, stepsPerM: Option<real>, factor: real)
  {
    slot.currentPos != RoundOption(StepNum(slot, stepsPerM, factor))
  }

  /** The position `do_steps` moves a motor to: the target in metres, converted to
      steps, rounded by the sign of the target in metres. */
  function MoveRound(target: Option<real>, stepsPerM: Option<real>): int
  {
    var num := Mul(target, stepsPerM);
    if num.None? then NAN_INT
    else Trunc(num.value + (if target.value > 0.0 then 0.49 else -0.49))
  }

  /** The motor's slot after `do_steps` with a non-zero target distance: the new
      position and the velocity `target_v * factor`. */
  function StepMotor(slot: MotorSlot, stepsPerM: Option<real>, factor: real): MotorSlot
  {
    if IsZero(slot.targetDist) then slot
    else
      var target := Add(Div(slot.currentPos as real, stepsPerM), Scale(slot.targetDist, factor));
      slot.(currentPos := MoveRound(target, stepsPerM), lastV := Scale(slot.targetV, factor))
  }

  /** With positive steps per metre the move of `do_steps` goes exactly to the
      position its test compared with, so a motor that "has steps" moves and one
      that has none stays. */
  lemma StepAgreesWithTest(slot: MotorSlot, stepsPerM: Option<real>, factor: real)
    requires stepsPerM.Some? && stepsPerM.value > 0.0 && !IsZero(slot.targetDist)
    ensures StepMotor(slot, stepsPerM, factor).currentPos == RoundOption(StepNum(slot, stepsPerM, factor))
    ensures HasSteps(slot, stepsPerM, factor) <==> StepMotor(slot, stepsPerM, factor).currentPos != slot.currentPos
  {
    var target := Add(Div(slot.currentPos as real, stepsPerM), Scale(slot.targetDist, factor));
    if target.Some? {
      assert target.value > 0.0 <==> target.value * stepsPerM.value > 0.0 by {
        if target.value > 0.0 {
          assert target.value * stepsPerM.value > 0.0;
        } else {
          assert target.value * stepsPerM.value <= 0.0;
        }
      }
    }
  }

  /** The rounding of the driver leaves a whole number of steps as it is. */
  lemma RoundWhole(n: int)
    ensures RoundSteps(n as real) == n
  {
    var r := RoundSteps(n as real);
    assert -0.51 < r as real - n as real < 0.51;
  }

  /** A motor with a zero target distance and a known, non-zero steps-per-metre
      factor has no steps: its position rounds to itself. */
  lemma ZeroDistanceNoSteps(slot: MotorSlot, stepsPerM: Option<real>, factor: real)
    requires IsZero(slot.targetDist) && stepsPerM.Some? && stepsPerM.value != 0.0
    ensures !HasSteps(slot, stepsPerM, factor)
  {
    var n := slot.currentPos;
    var k := stepsPerM.value;
    var here := Add(Div(n as real, stepsPerM), Scale(slot.targetDist, factor));
    assert here.Some? && here.value == n as real / k;
    var num := Mul(here, stepsPerM);
    assert num.value == n as real / k * k == n as real;
    RoundWhole(n);
  }

  /** `current += (target - current) * factor`: the axis moves the fraction `factor`
      towards its target (NaN when either is NaN). */
  function AdvanceAxis(a: Axis, f: nat, factor: real): Axis
    requires f < |a.settings|
  {
    a.(current := Add(a.current, Scale(Sub(a.settings[f].target, a.current), factor)))
  }

  /** With factor 1 the axis reaches its target; with factor 0 it stays. */
  lemma AdvanceAxisEnds(a: Axis, f: nat)
    requires f < |a.settings| && a.current.Some? && a.settings[f].target.Some?
    ensures AdvanceAxis(a, f, 1.0).current == a.settings[f].target
    ensures AdvanceAxis(a, f, 0.0).current == a.current
  {
  }

  // apply_tick

  /** The step count of a motor for one tick: `(current_pos - hwcurrent_pos) * dir`,
      at most 15. */
  function TickValue(slot: MotorSlot): (v: int)
    ensures v <= 15
  {
    var value := (slot.currentPos - slot.hwcurrentPos) * slot.dir;
    if value > 15 then 15 else value
  }

  /** `byte |= value << shift` on an 8-bit `char`: the low 8 bits of the shifted value
      are OR-ed in. */
  function OrShifted(b: bv8, value: int, shift: nat): bv8
    requires shift <= 4
  {
    b | (((value % 0x100) as bv8) << shift)
  }

  /** The 4-bit group `k` of a byte. */
  function NibbleOf(b: bv8, k: nat): bv8
    requires k < 2
  {
    (b >> (4 * k)) & 0xf
  }

  /** The motor's slot after packing its step count of tick `pos`: the count is
      OR-ed into byte `pos >> 1` at nibble `pos & 1`, and the hardware position
      advances by `dir * value`. */
  function PackSlot(slot: MotorSlot, pos: nat): (r: MotorSlot)
    requires pos / 2 < |slot.data|
    ensures |r.data| == |slot.data|
  {
    var value := TickValue(slot);
    slot.(data := slot.data[pos / 2 := OrShifted(slot.data[pos / 2], value, 4 * (pos % 2))],
          hwcurrentPos := slot.hwcurrentPos + slot.dir * value)
  }

  lemma OrNibble(b: bv8, v: bv8, k: nat)
    requires k < 2 && v <= 15 && NibbleOf(b, k) == 0
    ensures NibbleOf(b | (v << (4 * k)), k) == v
    ensures NibbleOf(b | (v << (4 * k)), 1 - k) == NibbleOf(b, 1 - k)
  {
    if k == 0 {
    } else {
    }
  }

  /** OR-ing a count of 0 to 15 into an empty nibble stores exactly that count there
      and leaves the other nibble alone. */
  lemma OrIntoEmptyNibble(b: bv8, value: int, k: nat)
    requires k < 2 && 0 <= value <= 15 && NibbleOf(b, k) == 0
    ensures NibbleOf(OrShifted(b, value, 4 * k), k) == value as bv8
    ensures NibbleOf(OrShifted(b, value, 4 * k), 1 - k) == NibbleOf(b, 1 - k)
  {
    assert value % 0x100 == value;
    OrNibble(b, value as bv8, k);
  }

  /** The direction points from the hardware position towards the computed one (or is
      0), as `reset_dirs` and `buffer_refill` set it. */
  predicate DirAgrees(slot: MotorSlot)
  {
    || (slot.dir == 1 && slot.currentPos >= slot.hwcurrentPos)
    || (slot.dir == -1 && slot.currentPos <= slot.hwcurrentPos)
    || slot.dir == 0
  }

  /** When the direction agrees, the step count of a tick is 0 to 15, never more
      than the gap between the positions. */
  lemma TickWithinGap(slot: MotorSlot)
    requires DirAgrees(slot)
    ensures 0 <= TickValue(slot) <= 15
    ensures slot.dir != 0 ==> TickValue(slot) <= Abs((slot.currentPos - slot.hwcurrentPos) as real).Floor
  {
    var gap := slot.currentPos - slot.hwcurrentPos;
    if slot.dir == 1 {
      assert gap * slot.dir == gap;
    } else if slot.dir == -1 {
      assert gap * slot.dir == -gap;
    }
  }

  /** When the direction agrees, a tick packs a count of 0 to 15 that is read back
      from its nibble and leaves every other byte alone. */
  lemma {:induction false} PackReadsBack(slot: MotorSlot, pos: nat)
    requires pos / 2 < |slot.data| && DirAgrees(slot)
    requires NibbleOf(slot.data[pos / 2], pos % 2) == 0
    ensures NibbleOf(PackSlot(slot, pos).data[pos / 2], pos % 2) == TickValue(slot) as bv8
    ensures forall i :: 0 <= i < |slot.data| && i != pos / 2 ==> PackSlot(slot, pos).data[i] == slot.data[i]
  {
    TickWithinGap(slot);
    OrIntoEmptyNibble(slot.data[pos / 2], TickValue(slot), pos % 2);
  }

  /** When the direction agrees, the hardware position moves up to 15 steps towards
      the computed position without passing it, so the direction still agrees. */
  lemma {:induction false} PackTracks(slot: MotorSlot, pos: nat)
    requires pos / 2 < |slot.data| && DirAgrees(slot)
    ensures DirAgrees(PackSlot(slot, pos))
    ensures var gap := slot.currentPos - slot.hwcurrentPos;
      var gap' := PackSlot(slot, pos).currentPos - PackSlot(slot, pos).hwcurrentPos;
      slot.dir != 0 ==> Abs(gap' as real) == (if Abs(gap as real) > 15.0 then Abs(gap as real) - 15.0 else 0.0)
  {
    var gap := slot.currentPos - slot.hwcurrentPos;
    var v := TickValue(slot);
    if slot.dir == 1 {
      assert gap * slot.dir == gap;
      assert v == if gap > 15 then 15 else gap;
    } else if slot.dir == -1 {
      assert gap * slot.dir == -gap;
      assert v == if -gap > 15 then 15 else -gap;
    }
  }
}
