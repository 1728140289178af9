/** Resizing a space (`Space::setup_nums`, `Space::cancel_update`),
    server/cdriver/space.cpp.

    The source keeps pointer arrays of axes and motors and reallocates them; here a
    space holds its axes and motors as sequences, and an entry that is kept is the
    same value as before. */
module Topology {
  import opened Numeric
  import opened Records

  /** An axis as `setup_nums` creates it: source, current and park position NaN,
      offset 0, park order 0, no speed limit, unbounded range, and a NaN history. */
  function NewAxis(fragments: nat): (a: Axis)
    ensures AxisOk(a, fragments)
    ensures a.source.None? && a.current.None? && a.park == NaN && a.offset == Some(0.0)
    ensures a.maxV == PosInf && a.min == NegInf && a.max == PosInf && a.parkOrder == 0
    ensures forall f :: 0 <= f < fragments ==> a.settings[f] == AxisSlot(None, None, None, None)
  {
    Axis(None, None, Some(0.0), NaN, 0, PosInf, NegInf, PosInf, seq(fragments, _ => NewAxisSlot()))
  }

  /** A motor as `setup_nums` creates it: unconfigured pins, NaN steps per metre and
      home position, one step per tick at most, no velocity or acceleration limit,
      and every history slot with direction 0, zeroed data and position 0. */
  function NewMotor(fragments: nat, bytes: nat): (m: Motor)
    ensures MotorOk(m, fragments, bytes)
    ensures m.stepsPerM.None? && m.homePos == NaN && m.maxSteps == 1 && m.homeOrder == 0
    ensures m.limitV == Unlimited && m.limitA == Unlimited && m.senseState == 0 && m.sensePos.None?
    ensures forall f :: 0 <= f < fragments ==>
      && m.settings[f].dir == 0 && m.settings[f].currentPos == 0 && m.settings[f].hwcurrentPos == 0
      && (forall i :: 0 <= i < bytes ==> m.settings[f].data[i] == 0)
      && m.settings[f].lastV.None? && m.settings[f].targetV.None?
      && m.settings[f].targetDist.None? && m.settings[f].endpos.None?
  {
    Motor(Pins(UNSET_PIN, UNSET_PIN, UNSET_PIN, UNSET_PIN, UNSET_PIN, UNSET_PIN), 0, None, None, 1,
          Unlimited, Unlimited, NaN, 0, seq(fragments, _ => NewMotorSlot(bytes)))
  }

  /** Allocates a new axis and fills its history slot by slot. */
  method CreateAxis(fragments: nat) returns (a: Axis)
    ensures a == NewAxis(fragments)
  {
    var history: seq<AxisSlot> := [];
    for f := 0 to fragments
      invariant history == seq(f, _ => NewAxisSlot())
    {
      history := history + [AxisSlot(None, None, None, None)];
    }
    a := Axis(None, None, Some(0.0), NaN, 0, PosInf, NegInf, PosInf, history);
  }

  /** Allocates a new motor and fills its history slot by slot. */
  method CreateMotor(fragments: nat, bytes: nat) returns (m: Motor)
    ensures m == NewMotor(fragments, bytes)
  {
    var history: seq<MotorSlot> := [];
    for f := 0 to fragments
      invariant history == seq(f, _ => NewMotorSlot(bytes))
    {
      history := history + [MotorSlot(0, seq(bytes, _ => 0), None, None, None, 0, 0, None)];
    }
    m := Motor(Pins(UNSET_PIN, UNSET_PIN, UNSET_PIN, UNSET_PIN, UNSET_PIN, UNSET_PIN), 0, None, None, 1,
               Unlimited, Unlimited, NaN, 0, history);
  }

  /** `setup_nums` for one list: keeps the first `min(old, n)` entries and appends
      created ones up to `n`.  Trailing entries are dropped (freed, in the source). */
  method Resize<T>(entries: seq<T>, n: nat, created: T) returns (r: seq<T>)
    ensures |r| == n
    ensures forall i :: 0 <= i < Min(|entries|, n) ==> r[i] == entries[i]
    ensures forall i :: |entries| <= i < n ==> r[i] == created
  {
    r := [];
    var k := 0;
    while k < Min(|entries|, n)
      invariant k <= Min(|entries|, n) && r == entries[..k]
    {
      r := r + [entries[k]];
      k := k + 1;
    }
    k := |entries|;
    while k < n
      invariant |entries| <= k
      invariant k <= n ==> |r| == k
      invariant k > n ==> k == |entries| && |r| == n
      invariant forall i :: 0 <= i < Min(|entries|, n) ==> r[i] == entries[i]
      invariant forall i :: |entries| <= i < |r| ==> r[i] == created
    {
      r := r + [created];
      k := k + 1;
    }
  }

  /** `Space::setup_nums(na, nm)`.  With unchanged counts nothing happens.  Otherwise
      the space ends with `na` axes and `nm` motors: the common prefix is kept, new
      entries get the defaults of `NewAxis` and `NewMotor`, and `motorsChanged` reports
      whether `arch_motors_change` is called, which is when the motor count changed.
      The source reports success in every case. */
  method SetupNums(sp: Space, na: nat, nm: nat, fragments: nat, bytes: nat)
    returns (ok: bool, r: Space, motorsChanged: bool)
    requires SpaceOk(sp, fragments, bytes)
    ensures ok
    ensures na == |sp.axis| && nm == |sp.motor| ==> r == sp && !motorsChanged
    ensures |r.axis| == na && |r.motor| == nm
    ensures r.spaceType == sp.spaceType && r.id == sp.id && r.maxDeviation == sp.maxDeviation
    ensures forall a :: 0 <= a < Min(|sp.axis|, na) ==> r.axis[a] == sp.axis[a]
    ensures forall a :: |sp.axis| <= a < na ==> r.axis[a] == NewAxis(fragments)
    ensures forall m :: 0 <= m < Min(|sp.motor|, nm) ==> r.motor[m] == sp.motor[m]
    ensures forall m :: |sp.motor| <= m < nm ==> r.motor[m] == NewMotor(fragments, bytes)
    ensures motorsChanged <==> nm != |sp.motor|
    ensures SpaceOk(r, fragments, bytes)
  {
    ok, r, motorsChanged := true, sp, false;
    if na == |sp.axis| && nm == |sp.motor| {
      return;
    }
    if na != |sp.axis| {
      var created := CreateAxis(fragments);
      var axes := Resize(sp.axis, na, created);
      r := r.(axis := axes);
    }
    if nm != |sp.motor| {
      var created := CreateMotor(fragments, bytes);
      var motors := Resize(sp.motor, nm, created);
      r := r.(motor := motors);
      motorsChanged := true;
    }
  }

  /** `Space::cancel_update`: after a failed update the space falls back to the
      default type and to as many axes as motors, `min(na, nm)` of each, keeping the
      entries it already had. */
  method CancelUpdate(sp: Space, defaultType: int, fragments: nat, bytes: nat) returns (r: Space)
    requires SpaceOk(sp, fragments, bytes)
    ensures r.spaceType == defaultType && r.id == sp.id && r.maxDeviation == sp.maxDeviation
    ensures |r.axis| == |r.motor| == Min(|sp.axis|, |sp.motor|)
    ensures r.axis == sp.axis[..|r.axis|] && r.motor == sp.motor[..|r.motor|]
    ensures SpaceOk(r, fragments, bytes)
  {
    var typed := sp.(spaceType := defaultType);
    var n := Min(|sp.axis|, |sp.motor|);
    var ok, changed;
    ok, r, changed := SetupNums(typed, n, n, fragments, bytes);
  }
}
