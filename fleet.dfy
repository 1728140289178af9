/** The loops of the step generator (server/cdriver/space.cpp) that walk over every
    space and every motor or axis in it, stated on values: each function gives the
    spaces as one pass of the loop leaves them.  The driver's methods are proved to
    produce exactly these values. */
module Fleet {
  import opened Numeric
  import opened Records
  import opened Limiter

  /** The motor with its history slot of fragment `f` replaced. */
  function WithSlot(mtr: Motor, f: nat, slot: MotorSlot): Motor
  {
    if f < |mtr.settings| then mtr.(settings := mtr.settings[f := slot]) else mtr
  }

  /** The axis with its history slot of fragment `f` replaced. */
  function WithAxisSlot(a: Axis, f: nat, slot: AxisSlot): Axis
  {
    if f < |a.settings| then a.(settings := a.settings[f := slot]) else a
  }

  /** Two spaces of the same shape: as many axes and motors, as many history slots,
      and as many bytes of step data in each motor slot. */
  predicate SameShape(a: Space, b: Space)
  {
    && |a.axis| == |b.axis| && |a.motor| == |b.motor|
    && (forall i :: 0 <= i < |a.axis| ==> |a.axis[i].settings| == |b.axis[i].settings|)
    && (forall m :: 0 <= m < |a.motor| ==> |a.motor[m].settings| == |b.motor[m].settings|)
    && (forall m, f :: 0 <= m < |a.motor| && 0 <= f < |a.motor[m].settings| ==>
          |a.motor[m].settings[f].data| == |b.motor[m].settings[f].data|)
  }

  predicate SameShapes(a: seq<Space>, b: seq<Space>)
  {
    |a| == |b| && forall s :: 0 <= s < |a| ==> SameShape(a[s], b[s])
  }

  /** The number of axes and motors of each space. */
  function Counts(spaces: seq<Space>): seq<(nat, nat)>
  {
    seq(|spaces|, s requires 0 <= s < |spaces| => (|spaces[s].axis|, |spaces[s].motor|))
  }

  lemma ShapeCounts(a: seq<Space>, b: seq<Space>)
    requires SameShapes(a, b)
    ensures Counts(a) == Counts(b)
  {
  }

  /** Whatever keeps the shape keeps every slot and every byte buffer in place. */
  lemma ShapeKeepsOk(a: seq<Space>, b: seq<Space>, fragments: nat, bytes: nat)
    requires SpacesOk(a, fragments, bytes) && SameShapes(a, b)
    ensures SpacesOk(b, fragments, bytes)
  {
    forall s | 0 <= s < |b|
      ensures SpaceOk(b[s], fragments, bytes)
    {
      assert SpaceOk(a[s], fragments, bytes) && SameShape(a[s], b[s]);
      forall m | 0 <= m < |b[s].motor|
        ensures MotorOk(b[s].motor[m], fragments, bytes)
      {
        assert MotorOk(a[s].motor[m], fragments, bytes);
      }
      forall i | 0 <= i < |b[s].axis|
        ensures AxisOk(b[s].axis[i], fragments)
      {
        assert AxisOk(a[s].axis[i], fragments);
      }
    }
  }

  /** A replaced slot with the same amount of step data keeps the motor's shape. */
  lemma WithSlotShape(sp: Space, m: nat, f: nat, slot: MotorSlot)
    requires m < |sp.motor| && f < |sp.motor[m].settings|
    requires |slot.data| == |sp.motor[m].settings[f].data|
    ensures SameShape(sp, sp.(motor := sp.motor[m := WithSlot(sp.motor[m], f, slot)]))
  {
  }

  lemma WithAxisSlotShape(sp: Space, i: nat, f: nat, slot: AxisSlot)
    requires i < |sp.axis|
    ensures SameShape(sp, sp.(axis := sp.axis[i := WithAxisSlot(sp.axis[i], f, slot)]))
  {
  }

  lemma SameShapeTrans(a: Space, b: Space, c: Space)
    requires SameShape(a, b) && SameShape(b, c)
    ensures SameShape(a, c)
  {
  }

  // reset_dirs

  /** A motor slot as `reset_dirs` leaves it: while moving, a motor whose computed
      position differs from the sent one gets the direction towards it; every other
      motor gets direction 0.  Nothing else in the slot changes. */
  function DirSlot(slot: MotorSlot, moving: bool): (r: MotorSlot)
    ensures r == slot.(dir := r.dir)
    ensures r.dir != 0 <==> moving && slot.currentPos != slot.hwcurrentPos
    ensures DirAgrees(r)
  {
    if moving && slot.currentPos != slot.hwcurrentPos then
      slot.(dir := if slot.currentPos < slot.hwcurrentPos then -1 else 1)
    else slot.(dir := 0)
  }

  function ResetMotor(mtr: Motor, f: nat, moving: bool): Motor
  {
    if f < |mtr.settings| then WithSlot(mtr, f, DirSlot(mtr.settings[f], moving)) else mtr
  }

  function ResetMotors(ms: seq<Motor>, f: nat, moving: bool): (r: seq<Motor>)
    ensures |r| == |ms|
  {
    seq(|ms|, m requires 0 <= m < |ms| => ResetMotor(ms[m], f, moving))
  }

  function ResetSpace(sp: Space, f: nat, moving: bool): (r: Space)
    ensures SameShape(sp, r)
  {
    sp.(motor := ResetMotors(sp.motor, f, moving))
  }

  /** The spaces after `reset_dirs(f)`. */
  function ResetAll(spaces: seq<Space>, f: nat, moving: bool): (r: seq<Space>)
    ensures SameShapes(spaces, r)
  {
    seq(|spaces|, s requires 0 <= s < |spaces| => ResetSpace(spaces[s], f, moving))
  }

  /** A motor that `reset_dirs` counts as active in fragment `f`. */
  predicate ActiveSlot(mtr: Motor, f: nat, moving: bool)
  {
    moving && f < |mtr.settings| && mtr.settings[f].currentPos != mtr.settings[f].hwcurrentPos
  }

  function CountActive(ms: seq<Motor>, f: nat, moving: bool): nat
  {
    if ms == [] then 0
    else CountActive(ms[..|ms| - 1], f, moving) + (if ActiveSlot(ms[|ms| - 1], f, moving) then 1 else 0)
  }

  /** Counting one more motor adds one exactly when that motor is active. */
  lemma CountActiveStep(ms: seq<Motor>, m: nat, f: nat, moving: bool)
    requires m < |ms|
    ensures CountActive(ms[..m + 1], f, moving) == CountActive(ms[..m], f, moving) + if ActiveSlot(ms[m], f, moving) then 1 else 0
  {
    assert ms[..m + 1][..m] == ms[..m];
  }

  /** The number of active motors in all spaces, which `reset_dirs` stores as the
      fragment's `num_active_motors`. */
  function ActiveAll(spaces: seq<Space>, f: nat, moving: bool): nat
  {
    if spaces == [] then 0
    else ActiveAll(spaces[..|spaces| - 1], f, moving) + CountActive(spaces[|spaces| - 1].motor, f, moving)
  }

  /** Counting one more space adds its active motors. */
  lemma ActiveAllStep(spaces: seq<Space>, s: nat, f: nat, moving: bool)
    requires s < |spaces|
    ensures ActiveAll(spaces[..s + 1], f, moving) == ActiveAll(spaces[..s], f, moving) + CountActive(spaces[s].motor, f, moving)
  {
    assert spaces[..s + 1][..s] == spaces[..s];
  }

  /** A motor with a direction in fragment `f`, that is one that will step. */
  predicate Stepping(mtr: Motor, f: nat)
  {
    f < |mtr.settings| && mtr.settings[f].dir != 0
  }

  function CountStepping(ms: seq<Motor>, f: nat): nat
  {
    if ms == [] then 0
    else CountStepping(ms[..|ms| - 1], f) + (if Stepping(ms[|ms| - 1], f) then 1 else 0)
  }

  function SteppingAll(spaces: seq<Space>, f: nat): nat
  {
    if spaces == [] then 0
    else SteppingAll(spaces[..|spaces| - 1], f) + CountStepping(spaces[|spaces| - 1].motor, f)
  }

  lemma {:induction false} ResetCountsMotors(ms: seq<Motor>, f: nat, moving: bool)
    ensures CountStepping(ResetMotors(ms, f, moving), f) == CountActive(ms, f, moving)
  {
    if ms != [] {
      var n := |ms| - 1;
      assert ResetMotors(ms, f, moving)[..n] == ResetMotors(ms[..n], f, moving);
      ResetCountsMotors(ms[..n], f, moving);
    }
  }

  /** After `reset_dirs` the fragment's `num_active_motors` is exactly the number of
      motors that have a direction. */
  lemma {:induction false} ResetCounts(spaces: seq<Space>, f: nat, moving: bool)
    ensures SteppingAll(ResetAll(spaces, f, moving), f) == ActiveAll(spaces, f, moving)
  {
    if spaces != [] {
      var n := |spaces| - 1;
      var r := ResetAll(spaces, f, moving);
      assert r[..n] == ResetAll(spaces[..n], f, moving) by {
        forall i | 0 <= i < n
          ensures r[..n][i] == ResetAll(spaces[..n], f, moving)[i]
        {
          assert spaces[..n][i] == spaces[i];
        }
      }
      assert r[n].motor == ResetMotors(spaces[n].motor, f, moving);
      ResetCounts(spaces[..n], f, moving);
      ResetCountsMotors(spaces[n].motor, f, moving);
      assert SteppingAll(r, f) == SteppingAll(r[..n], f) + CountStepping(r[n].motor, f);
    }
  }

  // copy_fragment_settings

  /** Motor slot `dst` takes every field of slot `src` except the step data, which
      stays that of `dst`. */
  function CopyMotor(mtr: Motor, src: nat, dst: nat): Motor
  {
    if src < |mtr.settings| && dst < |mtr.settings| then
      WithSlot(mtr, dst, mtr.settings[src].(data := mtr.settings[dst].data))
    else mtr
  }

  function CopyAxis(a: Axis, src: nat, dst: nat): Axis
  {
    if src < |a.settings| then WithAxisSlot(a, dst, a.settings[src]) else a
  }

  function CopySpace(sp: Space, src: nat, dst: nat): (r: Space)
    ensures SameShape(sp, r)
  {
    sp.(motor := seq(|sp.motor|, m requires 0 <= m < |sp.motor| => CopyMotor(sp.motor[m], src, dst)),
        axis := seq(|sp.axis|, i requires 0 <= i < |sp.axis| => CopyAxis(sp.axis[i], src, dst)))
  }

  /** The spaces after `copy_fragment_settings(src, dst)`. */
  function CopyAll(spaces: seq<Space>, src: nat, dst: nat): (r: seq<Space>)
    ensures SameShapes(spaces, r)
  {
    seq(|spaces|, s requires 0 <= s < |spaces| => CopySpace(spaces[s], src, dst))
  }

  /** Copying makes every motor and axis slot `dst` a copy of slot `src` (the motor's
      step data aside) and leaves every other slot, `src` among them, as it was. */
  lemma CopyCopies(spaces: seq<Space>, src: nat, dst: nat, s: nat)
    requires s < |spaces|
    ensures forall m, f ::
      0 <= m < |spaces[s].motor| && src < |spaces[s].motor[m].settings| && 0 <= f < |spaces[s].motor[m].settings|
      ==> CopyAll(spaces, src, dst)[s].motor[m].settings[f] ==
            if f == dst then spaces[s].motor[m].settings[src].(data := spaces[s].motor[m].settings[dst].data)
            else spaces[s].motor[m].settings[f]
    ensures forall i, f ::
      0 <= i < |spaces[s].axis| && src < |spaces[s].axis[i].settings| && 0 <= f < |spaces[s].axis[i].settings|
      ==> CopyAll(spaces, src, dst)[s].axis[i].settings[f] ==
            if f == dst then spaces[s].axis[i].settings[src] else spaces[s].axis[i].settings[f]
  {
  }

  /** Restoring right after storing changes nothing: copying `dst` back onto `src`
      after copying `src` to `dst` leaves what the first copy left. */
  lemma {:induction false} CopyBack(spaces: seq<Space>, src: nat, dst: nat)
    ensures CopyAll(CopyAll(spaces, src, dst), dst, src) == CopyAll(spaces, src, dst)
  {
    var once := CopyAll(spaces, src, dst);
    forall s | 0 <= s < |spaces|
      ensures CopySpace(once[s], dst, src) == once[s]
    {
      var sp := once[s];
      forall m | 0 <= m < |sp.motor|
        ensures CopyMotor(sp.motor[m], dst, src) == sp.motor[m]
      {
        var mtr := spaces[s].motor[m];
        if src < |mtr.settings| && dst < |mtr.settings| {
          assert sp.motor[m].settings == mtr.settings[dst := mtr.settings[src].(data := mtr.settings[dst].data)];
          assert sp.motor[m].settings[src := sp.motor[m].settings[dst].(data := sp.motor[m].settings[src].data)]
            == sp.motor[m].settings;
        }
      }
      forall i | 0 <= i < |sp.axis|
        ensures CopyAxis(sp.axis[i], dst, src) == sp.axis[i]
      {
        var a := spaces[s].axis[i];
        if src < |a.settings| && dst < |a.settings| {
          assert sp.axis[i].settings == a.settings[dst := a.settings[src]];
          assert sp.axis[i].settings[src := sp.axis[i].settings[dst]] == sp.axis[i].settings;
        }
      }
      assert sp.motor == seq(|sp.motor|, m requires 0 <= m < |sp.motor| => CopyMotor(sp.motor[m], dst, src));
      assert sp.axis == seq(|sp.axis|, i requires 0 <= i < |sp.axis| => CopyAxis(sp.axis[i], dst, src));
    }
  }

  // send_fragment: clearing the step data of the new fragment

  function ClearMotor(mtr: Motor, f: nat): Motor
  {
    if f < |mtr.settings| then
      WithSlot(mtr, f, mtr.settings[f].(data := seq(|mtr.settings[f].data|, _ => 0)))
    else mtr
  }

  function ClearSpace(sp: Space, f: nat): (r: Space)
    ensures SameShape(sp, r)
  {
    sp.(motor := seq(|sp.motor|, m requires 0 <= m < |sp.motor| => ClearMotor(sp.motor[m], f)))
  }

  /** The spaces after the step data of fragment `f` is zeroed in every motor. */
  function ClearAll(spaces: seq<Space>, f: nat): (r: seq<Space>)
    ensures SameShapes(spaces, r)
  {
    seq(|spaces|, s requires 0 <= s < |spaces| => ClearSpace(spaces[s], f))
  }

  /** After clearing, every nibble of every motor's data in the fragment is empty, so
      the next ticks can be OR-ed in. */
  lemma ClearEmpties(spaces: seq<Space>, f: nat, s: nat, m: nat, k: nat)
    requires s < |spaces| && m < |spaces[s].motor| && f < |spaces[s].motor[m].settings|
    requires k / 2 < |spaces[s].motor[m].settings[f].data|
    ensures NibbleOf(ClearAll(spaces, f)[s].motor[m].settings[f].data[k / 2], k % 2) == 0
  {
  }

  // apply_tick

  function PackMotor(mtr: Motor, f: nat, pos: nat): Motor
  {
    if f < |mtr.settings| && pos / 2 < |mtr.settings[f].data| then WithSlot(mtr, f, PackSlot(mtr.settings[f], pos))
    else mtr
  }

  function PackSpace(sp: Space, f: nat, pos: nat): (r: Space)
    ensures SameShape(sp, r)
  {
    sp.(motor := seq(|sp.motor|, m requires 0 <= m < |sp.motor| => PackMotor(sp.motor[m], f, pos)))
  }

  /** The spaces after the packing loop of `apply_tick` at position `pos`: at the
      first position of a fragment only the first space is packed. */
  function PackAll(spaces: seq<Space>, f: nat, pos: nat): (r: seq<Space>)
    ensures SameShapes(spaces, r)
  {
    seq(|spaces|, s requires 0 <= s < |spaces| => if s == 0 || pos > 0 then PackSpace(spaces[s], f, pos) else spaces[s])
  }

  // do_steps

  /** The test of `do_steps`: some motor of some space has steps to take. */
  predicate AnySteps(spaces: seq<Space>, f: nat, factor: real)
  {
    exists s, m :: 0 <= s < |spaces| && 0 <= m < |spaces[s].motor| && MotorHasSteps(spaces[s].motor[m], f, factor)
  }

  predicate MotorHasSteps(mtr: Motor, f: nat, factor: real)
  {
    f < |mtr.settings| && HasSteps(mtr.settings[f], mtr.stepsPerM, factor)
  }

  function StepMotorAt(mtr: Motor, f: nat, factor: real): Motor
  {
    if f < |mtr.settings| then WithSlot(mtr, f, StepMotor(mtr.settings[f], mtr.stepsPerM, factor)) else mtr
  }

  function StepSpace(sp: Space, f: nat, factor: real): (r: Space)
    ensures SameShape(sp, r)
  {
    sp.(motor := seq(|sp.motor|, m requires 0 <= m < |sp.motor| => StepMotorAt(sp.motor[m], f, factor)))
  }

  /** The spaces after the motor loop of `do_steps`. */
  function StepAll(spaces: seq<Space>, f: nat, factor: real): (r: seq<Space>)
    ensures SameShapes(spaces, r)
  {
    seq(|spaces|, s requires 0 <= s < |spaces| => StepSpace(spaces[s], f, factor))
  }

  function AdvanceAt(a: Axis, f: nat, factor: real): Axis
  {
    if f < |a.settings| then AdvanceAxis(a, f, factor) else a
  }

  function AdvanceSpace(sp: Space, f: nat, factor: real): (r: Space)
    ensures SameShape(sp, r)
  {
    sp.(axis := seq(|sp.axis|, i requires 0 <= i < |sp.axis| => AdvanceAt(sp.axis[i], f, factor)))
  }

  /** The spaces after the axis loop of `do_steps`. */
  function AdvanceAll(spaces: seq<Space>, f: nat, factor: real): (r: seq<Space>)
    ensures SameShapes(spaces, r)
  {
    seq(|spaces|, s requires 0 <= s < |spaces| => AdvanceSpace(spaces[s], f, factor))
  }

  /** Without steps to take no motor moves: if no motor has steps, the motor loop
      of `do_steps` (when it runs, with positive steps per metre) leaves every
      position where it was. */
  lemma {:induction false} NoStepsNoMoves(spaces: seq<Space>, f: nat, factor: real, s: nat, m: nat)
    requires !AnySteps(spaces, f, factor)
    requires s < |spaces| && m < |spaces[s].motor| && f < |spaces[s].motor[m].settings|
    requires spaces[s].motor[m].stepsPerM.Some? && spaces[s].motor[m].stepsPerM.value > 0.0
    ensures StepAll(spaces, f, factor)[s].motor[m].settings[f].currentPos == spaces[s].motor[m].settings[f].currentPos
  {
    var mtr := spaces[s].motor[m];
    assert !MotorHasSteps(mtr, f, factor);
    if !IsZero(mtr.settings[f].targetDist) {
      StepAgreesWithTest(mtr.settings[f], mtr.stepsPerM, factor);
    }
  }

  // handle_motors: finishing a segment

  function CommitAt(a: Axis, f: nat): Axis
  {
    if f < |a.settings| then Commit(a, f) else a
  }

  /** A space after the commit loop of the finishing step. */
  function CommitSpace(sp: Space, f: nat): (r: Space)
    ensures SameShape(sp, r)
  {
    sp.(axis := seq(|sp.axis|, i requires 0 <= i < |sp.axis| => CommitAt(sp.axis[i], f)))
  }

  function StopMotor(mtr: Motor, f: nat): Motor
  {
    if f < |mtr.settings| then WithSlot(mtr, f, mtr.settings[f].(lastV := Some(0.0))) else mtr
  }

  function StopSpace(sp: Space, f: nat): (r: Space)
    ensures SameShape(sp, r)
  {
    sp.(motor := seq(|sp.motor|, m requires 0 <= m < |sp.motor| => StopMotor(sp.motor[m], f)))
  }

  /** The spaces after a finished move sets every motor's previous velocity to 0. */
  function StopAll(spaces: seq<Space>, f: nat): (r: seq<Space>)
    ensures SameShapes(spaces, r)
  {
    seq(|spaces|, s requires 0 <= s < |spaces| => StopSpace(spaces[s], f))
  }

  // handle_motors: targets of the main part and the connector

  function MainAxis(a: Axis, f: nat, currentF: Option<real>): Axis
  {
    if f < |a.settings| then WithAxisSlot(a, f, a.settings[f].(target := MainTarget(a, f, currentF))) else a
  }

  /** A space after the target loop of the main part. */
  function MainSpace(sp: Space, f: nat, currentF: Option<real>): (r: Space)
    ensures SameShape(sp, r)
  {
    sp.(axis := seq(|sp.axis|, i requires 0 <= i < |sp.axis| => MainAxis(sp.axis[i], f, currentF)))
  }

  function ConnectorAxis(a: Axis, f: nat, blend: (real, real)): Axis
  {
    if f < |a.settings| then WithAxisSlot(a, f, a.settings[f].(target := ConnectorTarget(a, f, blend))) else a
  }

  /** A space after the target loop of the connector. */
  function ConnectorSpace(sp: Space, f: nat, blend: (real, real)): (r: Space)
    ensures SameShape(sp, r)
  {
    sp.(axis := seq(|sp.axis|, i requires 0 <= i < |sp.axis| => ConnectorAxis(sp.axis[i], f, blend)))
  }

  // move_axes

  /** The motor target `xyz2motors` gives for motor `m`; a missing entry is NaN. */
  function TargetOf(targets: seq<Option<real>>, m: nat): Option<real>
  {
    if m < |targets| then targets[m] else None
  }

  /** `check_distance` on one motor of `move_axes`: the distance is the motor's
      target less its current position in metres. */
  function CheckMotor(mtr: Motor, target: Option<real>, f: nat, dt: real, factor: real, sqrt: real -> real): (Motor, real)
    requires dt > 0.0
  {
    if f < |mtr.settings| then
      var slot := mtr.settings[f];
      var c := CheckDistance(mtr, slot, Sub(target, Div(slot.currentPos as real, mtr.stepsPerM)), dt, factor, sqrt);
      (WithSlot(mtr, f, c.slot), c.factor)
    else (mtr, factor)
  }

  /** The motors after `move_axes` checked them in order, and the factor it leaves. */
  function CheckMotors(ms: seq<Motor>, targets: seq<Option<real>>, f: nat, dt: real, factor: real,
                       sqrt: real -> real): (r: (seq<Motor>, real))
    requires dt > 0.0
    ensures |r.0| == |ms|
    decreases |ms|
  {
    if ms == [] then ([], factor)
    else
      var n := |ms| - 1;
      var prefix := CheckMotors(ms[..n], targets, f, dt, factor, sqrt);
      var last := CheckMotor(ms[n], TargetOf(targets, n), f, dt, prefix.1, sqrt);
      (prefix.0 + [last.0], last.1)
  }

  predicate AllSane(ms: seq<Motor>)
  {
    forall m :: 0 <= m < |ms| ==> Sane(ms[m])
  }

  /** `check_distance` keeps the shape of the motor. */
  lemma CheckMotorShape(mtr: Motor, target: Option<real>, f: nat, dt: real, factor: real, sqrt: real -> real)
    requires dt > 0.0
    ensures var r := CheckMotor(mtr, target, f, dt, factor, sqrt).0;
      |r.settings| == |mtr.settings| &&
      forall g :: 0 <= g < |mtr.settings| ==> |r.settings[g].data| == |mtr.settings[g].data|
  {
  }

  lemma {:induction false} CheckMotorsShape(ms: seq<Motor>, targets: seq<Option<real>>, f: nat, dt: real,
                                            factor: real, sqrt: real -> real)
    requires dt > 0.0
    ensures var r := CheckMotors(ms, targets, f, dt, factor, sqrt).0;
      forall m :: 0 <= m < |ms| ==>
        && |r[m].settings| == |ms[m].settings|
        && forall g :: 0 <= g < |ms[m].settings| ==> |r[m].settings[g].data| == |ms[m].settings[g].data|
  {
    if ms != [] {
      var n := |ms| - 1;
      var prefix := CheckMotors(ms[..n], targets, f, dt, factor, sqrt);
      CheckMotorsShape(ms[..n], targets, f, dt, factor, sqrt);
      CheckMotorShape(ms[n], TargetOf(targets, n), f, dt, prefix.1, sqrt);
    }
  }

  /** The slow-down factor `move_axes` leaves never exceeds the one it was given and,
      from a non-negative start, never drops below 0: with sane limits every motor's
      permitted fraction of its move lies in [0, 1]. */
  lemma {:induction false} CheckMotorsFactor(ms: seq<Motor>, targets: seq<Option<real>>, f: nat, dt: real,
                                             factor: real, sqrt: real -> real)
    requires dt > 0.0 && AllSane(ms) && IsSqrt(sqrt)
    ensures CheckMotors(ms, targets, f, dt, factor, sqrt).1 <= factor
    ensures factor >= 0.0 ==> CheckMotors(ms, targets, f, dt, factor, sqrt).1 >= 0.0
  {
    if ms != [] {
      var n := |ms| - 1;
      var prefix := CheckMotors(ms[..n], targets, f, dt, factor, sqrt);
      CheckMotorsFactor(ms[..n], targets, f, dt, factor, sqrt);
      var mtr := ms[n];
      if f < |mtr.settings| {
        var slot := mtr.settings[f];
        var d := Sub(TargetOf(targets, n), Div(slot.currentPos as real, mtr.stepsPerM));
        if d.Some? && d.value != 0.0 {
          CheckFactor(mtr, slot, d.value, dt, prefix.1, sqrt);
        }
      }
    }
  }

  /** The kinematics of the space types (`xyz2motors`), asked for a space and the
      current fragment: the axis targets of that fragment as it leaves them (it may
      move a target it cannot reach), the motor targets, and whether it succeeded. */
  type Kinematics = (Space, nat) -> (seq<Option<real>>, seq<Option<real>>, bool)

  /** Axis `y` is axis `x` with at most the target of fragment `f` changed. */
  predicate OnlyTargetMoved(x: Axis, y: Axis, f: nat)
  {
    && y == x.(settings := y.settings) && |y.settings| == |x.settings|
    && (forall g :: 0 <= g < |x.settings| && g != f ==> y.settings[g] == x.settings[g])
    && (f < |x.settings| ==> y.settings[f] == x.settings[f].(target := y.settings[f].target))
  }

  /** The space with the axis targets of fragment `f` the kinematics left: axis `a`
      gets `moved[a]`; an axis past the end of `moved` keeps its target. */
  function WithTargets(sp: Space, f: nat, moved: seq<Option<real>>): (r: Space)
    ensures SameShape(sp, r) && r.motor == sp.motor
    ensures r == sp.(axis := r.axis) && |r.axis| == |sp.axis|
    ensures forall a :: 0 <= a < |sp.axis| ==> OnlyTargetMoved(sp.axis[a], r.axis[a], f)
    ensures forall a :: 0 <= a < |sp.axis| && a < |moved| && f < |sp.axis[a].settings| ==>
      r.axis[a].settings[f].target == moved[a]
  {
    sp.(axis := seq(|sp.axis|, a requires 0 <= a < |sp.axis| =>
      if a < |moved| then WithAxisSlot(sp.axis[a], f, if f < |sp.axis[a].settings| then
        sp.axis[a].settings[f].(target := moved[a]) else NewAxisSlot()) else sp.axis[a]))
  }

  /** `xyz2motors` asked for the space, and asked again on the space it left when
      its first answer is not ok: the space as the kinematics left it and the motor
      targets of the last answer.  Only axis targets of fragment `f` can change. */
  function AskKinematics(kinematics: Kinematics, sp: Space, f: nat): (r: (Space, seq<Option<real>>))
    ensures SameShape(sp, r.0) && r.0.motor == sp.motor
    ensures r.0 == sp.(axis := r.0.axis) && |r.0.axis| == |sp.axis|
    ensures forall a :: 0 <= a < |sp.axis| ==> OnlyTargetMoved(sp.axis[a], r.0.axis[a], f)
  {
    var first := kinematics(sp, f);
    var moved := WithTargets(sp, f, first.0);
    if first.2 then (moved, first.1)
    else
      var second := kinematics(moved, f);
      var again := WithTargets(moved, f, second.0);
      assert forall a :: 0 <= a < |sp.axis| ==> OnlyTargetMoved(sp.axis[a], again.axis[a], f) by {
        forall a | 0 <= a < |sp.axis|
          ensures OnlyTargetMoved(sp.axis[a], again.axis[a], f)
        {
          assert OnlyTargetMoved(sp.axis[a], moved.axis[a], f);
          assert OnlyTargetMoved(moved.axis[a], again.axis[a], f);
        }
      }
      (again, second.1)
  }

  // handle_motors: the space loops

  /** The spaces after the commit loop of every space. */
  function CommitAll(spaces: seq<Space>, f: nat): (r: seq<Space>)
    ensures SameShapes(spaces, r)
  {
    seq(|spaces|, s requires 0 <= s < |spaces| => CommitSpace(spaces[s], f))
  }

  /** The spaces after the main part set every axis target. */
  function MainAll(spaces: seq<Space>, f: nat, currentF: Option<real>): (r: seq<Space>)
    ensures SameShapes(spaces, r)
  {
    seq(|spaces|, s requires 0 <= s < |spaces| => MainSpace(spaces[s], f, currentF))
  }

  /** The spaces after the connector set every axis target. */
  function ConnectorAll(spaces: seq<Space>, f: nat, blend: (real, real)): (r: seq<Space>)
    ensures SameShapes(spaces, r)
  {
    seq(|spaces|, s requires 0 <= s < |spaces| => ConnectorSpace(spaces[s], f, blend))
  }

  /** `move_axes` on one space: its motors checked against the targets its kinematics
      gives, and the factor it leaves. */
  function MoveSpace(sp: Space, f: nat, dt: real, factor: real, kinematics: Kinematics,
                     sqrt: real -> real): (Space, real)
    requires dt > 0.0
  {
    var k := AskKinematics(kinematics, sp, f);
    var c := CheckMotors(sp.motor, k.1, f, dt, factor, sqrt);
    (k.0.(motor := c.0), c.1)
  }

  /** `move_axes` on every space in turn, the factor passed from one to the next. */
  function MoveAll(spaces: seq<Space>, f: nat, dt: real, factor: real, kinematics: Kinematics,
                   sqrt: real -> real): (r: (seq<Space>, real))
    requires dt > 0.0
    ensures |r.0| == |spaces|
    decreases |spaces|
  {
    if spaces == [] then ([], factor)
    else
      var n := |spaces| - 1;
      var prefix := MoveAll(spaces[..n], f, dt, factor, kinematics, sqrt);
      var last := MoveSpace(spaces[n], f, dt, prefix.1, kinematics, sqrt);
      (prefix.0 + [last.0], last.1)
  }

  /** One more space: `move_axes` on it starts from the factor the others left. */
  lemma MoveAllSnoc(xs: seq<Space>, x: Space, f: nat, dt: real, factor: real,
                    kinematics: Kinematics, sqrt: real -> real)
    requires dt > 0.0
    ensures var prefix := MoveAll(xs, f, dt, factor, kinematics, sqrt);
      var last := MoveSpace(x, f, dt, prefix.1, kinematics, sqrt);
      MoveAll(xs + [x], f, dt, factor, kinematics, sqrt) == (prefix.0 + [last.0], last.1)
  {
    assert (xs + [x])[..|xs|] == xs;
  }

  /** The loop step of `handle_motors` over the spaces: the spaces moved so far and
      the next one moved from the factor they left are the first `s + 1` moved. */
  lemma MovePrefixStep(prepared: seq<Space>, s: nat, done: seq<Space>, factor: real, moved: (Space, real),
                       f: nat, dt: real, start: real, kinematics: Kinematics, sqrt: real -> real)
    requires dt > 0.0 && s < |prepared|
    requires (done, factor) == MoveAll(prepared[..s], f, dt, start, kinematics, sqrt)
    requires moved == MoveSpace(prepared[s], f, dt, factor, kinematics, sqrt)
    ensures (done + [moved.0], moved.1) == MoveAll(prepared[..s + 1], f, dt, start, kinematics, sqrt)
  {
    MoveAllSnoc(prepared[..s], prepared[s], f, dt, start, kinematics, sqrt);
    assert prepared[..s + 1] == prepared[..s] + [prepared[s]];
  }

  /** `move_axes` keeps the shape of the spaces. */
  lemma {:induction false} MoveAllShape(spaces: seq<Space>, f: nat, dt: real, factor: real,
                                        kinematics: Kinematics, sqrt: real -> real)
    requires dt > 0.0
    ensures SameShapes(spaces, MoveAll(spaces, f, dt, factor, kinematics, sqrt).0)
  {
    if spaces != [] {
      var n := |spaces| - 1;
      var prefix := MoveAll(spaces[..n], f, dt, factor, kinematics, sqrt);
      MoveAllShape(spaces[..n], f, dt, factor, kinematics, sqrt);
      CheckMotorsShape(spaces[n].motor, AskKinematics(kinematics, spaces[n], f).1, f, dt, prefix.1, sqrt);
    }
  }

  /** Every motor of every space has sane limits. */
  predicate SpacesSane(spaces: seq<Space>)
  {
    forall s :: 0 <= s < |spaces| ==> AllSane(spaces[s].motor)
  }

  /** The factor after all spaces never exceeds the one the move started with and,
      from a non-negative start, stays non-negative. */
  lemma {:induction false} MoveAllFactor(spaces: seq<Space>, f: nat, dt: real, factor: real,
                                         kinematics: Kinematics, sqrt: real -> real)
    requires dt > 0.0 && SpacesSane(spaces) && IsSqrt(sqrt)
    ensures MoveAll(spaces, f, dt, factor, kinematics, sqrt).1 <= factor
    ensures factor >= 0.0 ==> MoveAll(spaces, f, dt, factor, kinematics, sqrt).1 >= 0.0
  {
    if spaces != [] {
      var n := |spaces| - 1;
      var prefix := MoveAll(spaces[..n], f, dt, factor, kinematics, sqrt);
      MoveAllFactor(spaces[..n], f, dt, factor, kinematics, sqrt);
      assert AllSane(spaces[n].motor);
      CheckMotorsFactor(spaces[n].motor, AskKinematics(kinematics, spaces[n], f).1, f, dt, prefix.1, sqrt);
    }
  }

  // move_to_current

  /** The axis as `move_to_current` leaves it: no distance left in any part of the
      segment. */
  function HoldAxis(a: Axis, f: nat): Axis
  {
    if f < |a.settings| then
      WithAxisSlot(a, f, a.settings[f].(dist := Some(0.0), nextDist := Some(0.0), mainDist := Some(0.0)))
    else a
  }

  /** A space after `move_to_current`: the first `min(axes, motors)` axes hold still
      and their motors have previous velocity 0. */
  function HoldSpace(sp: Space, f: nat): (r: Space)
    ensures SameShape(sp, r)
  {
    var n := Min(|sp.axis|, |sp.motor|);
    sp.(axis := seq(|sp.axis|, i requires 0 <= i < |sp.axis| => if i < n then HoldAxis(sp.axis[i], f) else sp.axis[i]),
        motor := seq(|sp.motor|, m requires 0 <= m < |sp.motor| => if m < n then StopMotor(sp.motor[m], f) else sp.motor[m]))
  }
}
