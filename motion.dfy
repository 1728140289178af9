/** The fragment buffer and the move scheduler of the step generator
    (server/cdriver/space.cpp).

    The driver keeps the spaces with their per-fragment history, the global settings
    of every fragment, the fragment being filled and the position in it, the number
    of free fragments of the hardware buffer, and the flags of the scheduler.  Each
    tick packs one step count per motor into the fragment; full fragments, and the
    fragment in which a motor changes direction, are sent to the hardware. */
module Motion {
  import opened Numeric
  import opened Records
  import opened Limiter
  import opened Fleet
  import Persist
  import Layout

  /** The calls into the hardware layer: `arch_send_fragment(f)` and
      `arch_start_move()`. */
  datatype Event = FragmentSent(fragment: nat) | MoveStarted

  function Max(a: int, b: int): (r: int)
    ensures r >= a && r >= b && (r == a || r == b)
  {
    if a < b then b else a
  }

  /** The motor loop of `reset_dirs` over one space: the space with every motor's
      direction for fragment `f` set, and the number of motors made active. */
  method ResetSpaceDirs(sp: Space, f: nat, moving: bool) returns (r: Space, active: nat)
    requires forall m :: 0 <= m < |sp.motor| ==> f < |sp.motor[m].settings|
    ensures r == ResetSpace(sp, f, moving)
    ensures active == CountActive(sp.motor, f, moving)
  {
    var motors := sp.motor;
    active := 0;
    var m := 0;
    while m < |motors|
      invariant m <= |motors| == |sp.motor|
      invariant forall j :: 0 <= j < m ==> motors[j] == ResetMotor(sp.motor[j], f, moving)
      invariant forall j :: m <= j < |motors| ==> motors[j] == sp.motor[j]
      invariant active == CountActive(sp.motor[..m], f, moving)
    {
      var mtr, counted := ResetMotorDir(motors[m], f, moving);
      CountActiveStep(sp.motor, m, f, moving);
      if counted {
        active := active + 1;
      }
      motors := motors[m := mtr];
      m := m + 1;
    }
    assert sp.motor[..m] == sp.motor;
    assert motors == ResetMotors(sp.motor, f, moving);
    r := sp.(motor := motors);
  }

  /** The space loop of `reset_dirs`: every space with its motors' directions for
      fragment `f` set, and the number of motors made active, which the source
      accumulates in the fragment's `num_active_motors`. */
  method ResetSpacesDirs(spaces: seq<Space>, f: nat, moving: bool) returns (r: seq<Space>, active: nat)
    requires forall s, m :: 0 <= s < |spaces| && 0 <= m < |spaces[s].motor| ==> f < |spaces[s].motor[m].settings|
    ensures r == ResetAll(spaces, f, moving)
    ensures active == ActiveAll(spaces, f, moving)
  {
    r := spaces;
    active := 0;
    var s := 0;
    while s < |r|
      invariant s <= |r| == |spaces|
      invariant forall i :: 0 <= i < s ==> r[i] == ResetSpace(spaces[i], f, moving)
      invariant forall i :: s <= i < |r| ==> r[i] == spaces[i]
      invariant active == ActiveAll(spaces[..s], f, moving)
    {
      var sp, n := ResetSpaceDirs(r[s], f, moving);
      ActiveAllStep(spaces, s, f, moving);
      active := active + n;
      r := r[s := sp];
      s := s + 1;
    }
    assert spaces[..s] == spaces;
  }

  /** One motor of `reset_dirs`: a motor of a move whose computed position differs
      from the sent one gets the direction towards it and is counted as active;
      any other gets direction 0. */
  method ResetMotorDir(mtr: Motor, f: nat, moving: bool) returns (r: Motor, counted: bool)
    requires f < |mtr.settings|
    ensures r == WithSlot(mtr, f, DirSlot(mtr.settings[f], moving))
    ensures counted <==> moving && mtr.settings[f].currentPos != mtr.settings[f].hwcurrentPos
  {
    var slot := mtr.settings[f];
    if moving && slot.currentPos != slot.hwcurrentPos {
      counted := true;
      slot := slot.(dir := if slot.currentPos < slot.hwcurrentPos then -1 else 1);
    } else {
      counted := false;
      slot := slot.(dir := 0);
    }
    r := mtr.(settings := mtr.settings[f := slot]);
  }

  /** The loops of `copy_fragment_settings` over one space. */
  method CopySpaceSlots(sp: Space, src: nat, dst: nat) returns (r: Space)
    requires forall m :: 0 <= m < |sp.motor| ==> src < |sp.motor[m].settings| && dst < |sp.motor[m].settings|
    requires forall i :: 0 <= i < |sp.axis| ==> src < |sp.axis[i].settings|
    ensures r == CopySpace(sp, src, dst)
  {
    var motors := sp.motor;
    var m := 0;
    while m < |motors|
      invariant m <= |motors| == |sp.motor|
      invariant forall j :: 0 <= j < m ==> motors[j] == CopyMotor(sp.motor[j], src, dst)
      invariant forall j :: m <= j < |motors| ==> motors[j] == sp.motor[j]
    {
      var mtr := motors[m];
      motors := motors[m := WithSlot(mtr, dst, mtr.settings[src].(data := mtr.settings[dst].data))];
      m := m + 1;
    }
    var axes := sp.axis;
    var i := 0;
    while i < |axes|
      invariant i <= |axes| == |sp.axis|
      invariant forall j :: 0 <= j < i ==> axes[j] == CopyAxis(sp.axis[j], src, dst)
      invariant forall j :: i <= j < |axes| ==> axes[j] == sp.axis[j]
    {
      var a := axes[i];
      axes := axes[i := WithAxisSlot(a, dst, a.settings[src])];
      i := i + 1;
    }
    r := sp.(motor := motors, axis := axes);
  }

  /** The `memset` loop of `send_fragment` over one space: every motor's step data
      of fragment `f` zeroed. */
  method ClearSpaceData(sp: Space, f: nat, bytes: nat) returns (r: Space)
    requires forall m :: 0 <= m < |sp.motor| ==> f < |sp.motor[m].settings| && |sp.motor[m].settings[f].data| == bytes
    ensures r == ClearSpace(sp, f)
  {
    var motors := sp.motor;
    var m := 0;
    while m < |motors|
      invariant m <= |motors| == |sp.motor|
      invariant forall j :: 0 <= j < m ==> motors[j] == ClearMotor(sp.motor[j], f)
      invariant forall j :: m <= j < |motors| ==> motors[j] == sp.motor[j]
    {
      var mtr := motors[m];
      motors := motors[m := WithSlot(mtr, f, mtr.settings[f].(data := seq(bytes, _ => 0)))];
      m := m + 1;
    }
    r := sp.(motor := motors);
  }

  /** The motor loop of `apply_tick` over one space. */
  method PackSpaceMotors(sp: Space, f: nat, pos: nat) returns (r: Space)
    requires forall m :: 0 <= m < |sp.motor| ==> f < |sp.motor[m].settings| && pos / 2 < |sp.motor[m].settings[f].data|
    ensures r == PackSpace(sp, f, pos)
  {
    var motors := sp.motor;
    var m := 0;
    while m < |motors|
      invariant m <= |motors| == |sp.motor|
      invariant forall j :: 0 <= j < m ==> motors[j] == PackMotor(sp.motor[j], f, pos)
      invariant forall j :: m <= j < |motors| ==> motors[j] == sp.motor[j]
    {
      var mtr := motors[m];
      var slot := PackTick(mtr.settings[f], pos);
      motors := motors[m := WithSlot(mtr, f, slot)];
      m := m + 1;
    }
    r := sp.(motor := motors);
  }

  /** One motor of the packing loop of `apply_tick`: its step count, at most 15, is
      OR-ed into the nibble of tick `pos` and the hardware position follows it. */
  method PackTick(slot: MotorSlot, pos: nat) returns (r: MotorSlot)
    requires pos / 2 < |slot.data|
    ensures r == PackSlot(slot, pos)
  {
    var value := (slot.currentPos - slot.hwcurrentPos) * slot.dir;
    if value > 15 {
      value := 15;
    }
    r := slot.(data := slot.data[pos / 2 := OrShifted(slot.data[pos / 2], value, 4 * (pos % 2))]);
    r := r.(hwcurrentPos := r.hwcurrentPos + r.dir * value);
  }

  /** The test loop of `do_steps`: whether some motor of some space has steps. */
  method FindSteps(spaces: seq<Space>, f: nat, factor: real) returns (haveSteps: bool)
    ensures haveSteps == AnySteps(spaces, f, factor)
  {
    haveSteps := false;
    var s := 0;
    while !haveSteps && s < |spaces|
      invariant s <= |spaces|
      invariant !haveSteps ==> forall i, m :: 0 <= i < s && 0 <= m < |spaces[i].motor| ==> !MotorHasSteps(spaces[i].motor[m], f, factor)
      invariant haveSteps ==> AnySteps(spaces, f, factor)
    {
      var m := 0;
      while m < |spaces[s].motor|
        invariant m <= |spaces[s].motor|
        invariant forall j :: 0 <= j < m ==> !MotorHasSteps(spaces[s].motor[j], f, factor)
      {
        var mtr := spaces[s].motor[m];
        if f < |mtr.settings| && mtr.settings[f].currentPos != RoundOption(StepNum(mtr.settings[f], mtr.stepsPerM, factor)) {
          haveSteps := true;
          break;
        }
        m := m + 1;
      }
      s := s + 1;
    }
  }

  /** The motor loop of `do_steps` over one space. */
  method StepSpaceMotors(sp: Space, f: nat, factor: real) returns (r: Space)
    requires forall m :: 0 <= m < |sp.motor| ==> f < |sp.motor[m].settings|
    ensures r == StepSpace(sp, f, factor)
  {
    var motors := sp.motor;
    var m := 0;
    while m < |motors|
      invariant m <= |motors| == |sp.motor|
      invariant forall j :: 0 <= j < m ==> motors[j] == StepMotorAt(sp.motor[j], f, factor)
      invariant forall j :: m <= j < |motors| ==> motors[j] == sp.motor[j]
    {
      var mtr := motors[m];
      var slot := mtr.settings[f];
      if !IsZero(slot.targetDist) {
        var target := Add(Div(slot.currentPos as real, mtr.stepsPerM), Scale(slot.targetDist, factor));
        slot := slot.(currentPos := MoveRound(target, mtr.stepsPerM));
        slot := slot.(lastV := Scale(slot.targetV, factor));
        motors := motors[m := WithSlot(mtr, f, slot)];
      }
      m := m + 1;
    }
    r := sp.(motor := motors);
  }

  /** The axis loop of `do_steps` over one space. */
  method AdvanceSpaceAxes(sp: Space, f: nat, factor: real) returns (r: Space)
    requires forall i :: 0 <= i < |sp.axis| ==> f < |sp.axis[i].settings|
    ensures r == AdvanceSpace(sp, f, factor)
  {
    var axes := sp.axis;
    var i := 0;
    while i < |axes|
      invariant i <= |axes| == |sp.axis|
      invariant forall j :: 0 <= j < i ==> axes[j] == AdvanceAt(sp.axis[j], f, factor)
      invariant forall j :: i <= j < |axes| ==> axes[j] == sp.axis[j]
    {
      var a := axes[i];
      axes := axes[i := a.(current := Add(a.current, Scale(Sub(a.settings[f].target, a.current), factor)))];
      i := i + 1;
    }
    r := sp.(axis := axes);
  }

  /** The commit loop of a finishing segment over one space. */
  method CommitSpaceAxes(sp: Space, f: nat) returns (r: Space)
    requires forall i :: 0 <= i < |sp.axis| ==> f < |sp.axis[i].settings|
    ensures r == CommitSpace(sp, f)
  {
    var axes := sp.axis;
    var i := 0;
    while i < |axes|
      invariant i <= |axes| == |sp.axis|
      invariant forall j :: 0 <= j < i ==> axes[j] == CommitAt(sp.axis[j], f)
      invariant forall j :: i <= j < |axes| ==> axes[j] == sp.axis[j]
    {
      var a := axes[i];
      var slot := a.settings[f];
      if slot.dist.Some? {
        var source := Add(a.source, slot.dist);
        axes := axes[i := a.(source := source, settings := a.settings[f := slot.(dist := None, target := source)])];
      }
      i := i + 1;
    }
    r := sp.(axis := axes);
  }

  /** The target loop of the main part over one space. */
  method MainSpaceAxes(sp: Space, f: nat, currentF: Option<real>) returns (r: Space)
    requires forall i :: 0 <= i < |sp.axis| ==> f < |sp.axis[i].settings|
    ensures r == MainSpace(sp, f, currentF)
  {
    var axes := sp.axis;
    var i := 0;
    while i < |axes|
      invariant i <= |axes| == |sp.axis|
      invariant forall j :: 0 <= j < i ==> axes[j] == MainAxis(sp.axis[j], f, currentF)
      invariant forall j :: i <= j < |axes| ==> axes[j] == sp.axis[j]
    {
      var a := axes[i];
      var dist := a.settings[f].dist;
      if dist.None? || dist.value == 0.0 {
        axes := axes[i := WithAxisSlot(a, f, a.settings[f].(target := None))];
      } else {
        axes := axes[i := WithAxisSlot(a, f, a.settings[f].(target := Add(a.source, Mul(dist, currentF))))];
      }
      i := i + 1;
    }
    r := sp.(axis := axes);
  }

  /** The target loop of the connector over one space. */
  method ConnectorSpaceAxes(sp: Space, f: nat, blend: (real, real)) returns (r: Space)
    requires forall i :: 0 <= i < |sp.axis| ==> f < |sp.axis[i].settings|
    ensures r == ConnectorSpace(sp, f, blend)
  {
    var axes := sp.axis;
    var i := 0;
    while i < |axes|
      invariant i <= |axes| == |sp.axis|
      invariant forall j :: 0 <= j < i ==> axes[j] == ConnectorAxis(sp.axis[j], f, blend)
      invariant forall j :: i <= j < |axes| ==> axes[j] == sp.axis[j]
    {
      var a := axes[i];
      var slot := a.settings[f];
      if (slot.dist.None? || slot.dist.value == 0.0) && (slot.nextDist.None? || slot.nextDist.value == 0.0) {
        axes := axes[i := WithAxisSlot(a, f, slot.(target := None))];
      } else {
        var target := Add(Add(Add(a.source, slot.mainDist), Mul(slot.dist, Some(blend.0))), Mul(slot.nextDist, Some(blend.1)));
        axes := axes[i := WithAxisSlot(a, f, slot.(target := target))];
      }
      i := i + 1;
    }
    r := sp.(axis := axes);
  }

  /** The motor loop of `move_axes`: `check_distance` on every motor in turn. */
  method CheckSpaceMotors(ms: seq<Motor>, targets: seq<Option<real>>, f: nat, dt: real, factor: real,
                          sqrt: real -> real) returns (r: seq<Motor>, factor': real)
    requires dt > 0.0
    ensures (r, factor') == CheckMotors(ms, targets, f, dt, factor, sqrt)
  {
    r := [];
    factor' := factor;
    var m := 0;
    while m < |ms|
      invariant m <= |ms|
      invariant (r, factor') == CheckMotors(ms[..m], targets, f, dt, factor, sqrt)
    {
      var c := CheckMotor(ms[m], TargetOf(targets, m), f, dt, factor', sqrt);
      assert ms[..m + 1][..m] == ms[..m];
      r := r + [c.0];
      factor' := c.1;
      m := m + 1;
    }
    assert ms[..m] == ms;
  }

  /** The loop that sets every motor's previous velocity to 0 after a finished move,
      over one space. */
  method StopSpaceMotors(sp: Space, f: nat) returns (r: Space)
    requires forall m :: 0 <= m < |sp.motor| ==> f < |sp.motor[m].settings|
    ensures r == StopSpace(sp, f)
  {
    var motors := sp.motor;
    var m := 0;
    while m < |motors|
      invariant m <= |motors| == |sp.motor|
      invariant forall j :: 0 <= j < m ==> motors[j] == StopMotor(sp.motor[j], f)
      invariant forall j :: m <= j < |motors| ==> motors[j] == sp.motor[j]
    {
      var mtr := motors[m];
      motors := motors[m := WithSlot(mtr, f, mtr.settings[f].(lastV := Some(0.0)))];
      m := m + 1;
    }
    r := sp.(motor := motors);
  }

  /** The loop of `move_to_current` over space `sp`: for the first `min(axes, motors)`
      indices the axis keeps no distance and the motor has previous velocity 0. */
  method HoldSpaceSlots(sp: Space, f: nat) returns (r: Space)
    requires forall i :: 0 <= i < |sp.axis| ==> f < |sp.axis[i].settings|
    requires forall m :: 0 <= m < |sp.motor| ==> f < |sp.motor[m].settings|
    ensures r == HoldSpace(sp, f)
  {
    var axes, motors := sp.axis, sp.motor;
    var n := Min(|axes|, |motors|);
    var i := 0;
    while i < n
      invariant i <= n && |axes| == |sp.axis| && |motors| == |sp.motor|
      invariant forall j :: 0 <= j < |axes| ==> axes[j] == if j < i then HoldAxis(sp.axis[j], f) else sp.axis[j]
      invariant forall j :: 0 <= j < |motors| ==> motors[j] == if j < i then StopMotor(sp.motor[j], f) else sp.motor[j]
    {
      var a := axes[i];
      axes := axes[i := WithAxisSlot(a, f, a.settings[f].(dist := Some(0.0), nextDist := Some(0.0), mainDist := Some(0.0)))];
      var mtr := motors[i];
      motors := motors[i := WithSlot(mtr, f, mtr.settings[f].(lastV := Some(0.0)))];
      i := i + 1;
    }
    r := sp.(axis := axes, motor := motors);
  }

  /** `(current_time - last_time) / 1e6`: the time in seconds since the last step. */
  function Elapsed(currentTime: int, lastTime: int): (r: real)
    ensures currentTime > lastTime ==> r > 0.0
  {
    (currentTime - lastTime) as real / 1000000.0
  }

  /** The settings `move_to_current` gives the current fragment: a segment without
      main part or connector (`t0 = tp = 0`), at full speed, with no callbacks and
      every clock at 0. */
  function Held(fr: Fragment): (r: Fragment)
    ensures r.t0 + r.tp == 0.0 && r.lastTime <= r.hwtime && r.cbs == 0
    ensures r.fmain == 1.0 && r.f0 == 0.0 && r.fp == 0.0 && r.fq == 0.0
    ensures r.hwtime == 0 && r.startTime == 0.0 && r.lastTime == 0 && r.lastCurrentTime == 0
    ensures r.(f0 := fr.f0, fmain := fr.fmain, fp := fr.fp, fq := fr.fq, t0 := fr.t0, tp := fr.tp, cbs := fr.cbs,
               hwtime := fr.hwtime, startTime := fr.startTime, lastTime := fr.lastTime,
               lastCurrentTime := fr.lastCurrentTime) == fr
  {
    fr.(f0 := 0.0, fmain := 1.0, fp := 0.0, fq := 0.0, t0 := 0.0, tp := 0.0, cbs := 0, hwtime := 0,
        startTime := 0.0, lastTime := 0, lastCurrentTime := 0)
  }

  /** The share of the time since the previous call that a slowed-down move lost,
      99% of it: how far `do_steps` moves the start time on for a factor below 1.
      The time of the call is the clock of the fragment, in microseconds. */
  function Lag(currentTime: int, lastCurrentTime: int, factor: real): (r: real)
    ensures 0.0 < factor < 1.0 && lastCurrentTime <= currentTime ==> 0.0 <= r
    ensures factor == 1.0 ==> r == 0.0
  {
    (currentTime - lastCurrentTime) as real * ((1.0 - factor) * 0.99)
  }

  /** `t / (t0 + tp) >= done_factor` in floating point: with a zero duration the
      ratio is an infinity of the sign of `t` (or NaN for `t == 0`), so only a positive
      `t` passes. */
  predicate Reached(t: real, duration: real, doneFactor: real)
  {
    if duration == 0.0 then t > 0.0 else t / duration >= doneFactor
  }

  /** `offset != old_offset` on floats: a NaN compares unequal to everything, itself
      included. */
  predicate OffsetChanged(before: Option<real>, after: Option<real>)
  {
    before.None? || after.None? || before.value != after.value
  }

  /** The axis as `Space::load_axis` leaves it before `move_to_current`: its fields
      read from the medium at `addr` and, when the offset changed, its current and
      source positions shifted with the offset, so that they keep their place
      relative to it.  A NaN offset on either side makes both positions NaN. */
  function LoadedAxis(ax: Axis, mem: Persist.Memory, addr: int): (r: Axis)
    ensures Layout.AxisConfigOf(r) == Layout.DecodeAxis(mem, addr) && r.settings == ax.settings
    ensures !OffsetChanged(ax.offset, r.offset) ==> r.current == ax.current && r.source == ax.source
    ensures ax.offset.None? || r.offset.None? ==> r.current.None? && r.source.None?
    ensures ax.offset.Some? && r.offset.Some? ==>
      && (r.current.Some? <==> ax.current.Some?) && (r.source.Some? <==> ax.source.Some?)
      && (r.current.Some? ==> r.current.value - r.offset.value == ax.current.value - ax.offset.value)
      && (r.source.Some? ==> r.source.value - r.offset.value == ax.source.value - ax.offset.value)
  {
    var c := Layout.DecodeAxis(mem, addr);
    var read := ax.(offset := c.offset, park := c.park, parkOrder := c.parkOrder, maxV := c.maxV,
                    min := c.min, max := c.max);
    if OffsetChanged(ax.offset, c.offset) then
      var shift := Sub(c.offset, ax.offset);
      read.(current := Add(ax.current, shift), source := Add(ax.source, shift))
    else read
  }

  /** A motor whose direction points away from where it has to go: the fragment has
      to be sent before the motor can step the other way. */
  predicate Reverses(slot: MotorSlot)
  {
    (slot.dir < 0 && slot.currentPos > slot.hwcurrentPos) || (slot.dir > 0 && slot.currentPos < slot.hwcurrentPos)
  }

  /** A motor away from its position that has no direction yet: the scan of
      `buffer_refill` gives it one and counts it as active. */
  predicate Activates(slot: MotorSlot)
  {
    slot.currentPos != slot.hwcurrentPos && slot.dir == 0
  }

  /** A motor slot the scan of `buffer_refill` has passed without sending: it has a
      direction if it is away from its position and, when the fragment holds samples,
      that direction agrees with where it has to go. */
  predicate Settled(slot: MotorSlot, samples: bool)
  {
    !Activates(slot) && (samples ==> DirAgrees(slot))
  }

  /** A motor slot as the scan of `buffer_refill` leaves it when it does not send the
      fragment. */
  function ScannedSlot(slot: MotorSlot): (r: MotorSlot)
    ensures r == slot.(dir := r.dir)
    ensures r.dir != slot.dir <==> Activates(slot)
    ensures !Activates(r)
    ensures Activates(slot) ==> DirAgrees(r) && !Reverses(r)
  {
    if Activates(slot) then slot.(dir := if slot.currentPos < slot.hwcurrentPos then -1 else 1) else slot
  }

  /** The spaces after the scan of `buffer_refill` has looked at motor `m` of space
      `s` and not sent the fragment `f`: only that motor's slot of `f` can change. */
  function ScannedSpaces(sp: seq<Space>, s: nat, m: nat, f: nat): (r: seq<Space>)
    requires s < |sp| && m < |sp[s].motor| && f < |sp[s].motor[m].settings|
    ensures SameShapes(sp, r)
    ensures r[s].motor[m].settings[f] == ScannedSlot(sp[s].motor[m].settings[f])
    ensures forall g :: 0 <= g < |r[s].motor[m].settings| && g != f ==>
      r[s].motor[m].settings[g] == sp[s].motor[m].settings[g]
    ensures r[s].motor[m] == sp[s].motor[m].(settings := r[s].motor[m].settings)
    ensures forall j :: 0 <= j < |r[s].motor| && j != m ==> r[s].motor[j] == sp[s].motor[j]
    ensures r[s] == sp[s].(motor := r[s].motor)
    ensures forall i :: 0 <= i < |r| && i != s ==> r[i] == sp[i]
  {
    var mtr := sp[s].motor[m];
    WithSlotShape(sp[s], m, f, ScannedSlot(mtr.settings[f]));
    sp[s := sp[s].(motor := sp[s].motor[m := WithSlot(mtr, f, ScannedSlot(mtr.settings[f]))])]
  }

  class Driver {
    /** FRAGMENTS_PER_BUFFER, BYTES_PER_FRAGMENT, MIN_BUFFER_FILL, hwtime_step and
        done_factor. */
    const fragments: nat
    const bytes: nat
    const minBufferFill: int
    const hwtimeStep: int
    const doneFactor: real
    /** The kinematics of the space types (`xyz2motors`) and the square root. */
    const xyz2motors: Kinematics
    const sqrt: real -> real
    /** The global settings of every fragment. */
    const settings: array<Fragment>

    var spaces: seq<Space>
    var currentFragment: nat
    var currentFragmentPos: nat
    var freeFragments: int
    var moving: bool
    var refilling: bool
    var stopping: bool
    var aborting: bool
    var motorsBusy: bool
    var cbsAfterCurrentMove: int
    /** The callbacks of each segment `next_move` has queued, in order. */
    var queue: seq<nat>
    var events: seq<Event>

    /** The buffer holds one settings record per fragment, every axis and motor one
        history slot per fragment, the position in the fragment stays within its
        samples, the callbacks held back for the end of the move are not negative, and
        no fragment's last step time is ahead of its clock. */
    predicate Valid()
      reads this, settings
    {
      && settings.Length == fragments && fragments > 0 && bytes > 0 && hwtimeStep > 0
      && currentFragment < fragments
      && currentFragmentPos <= 2 * bytes && cbsAfterCurrentMove >= 0
      && SpacesOk(spaces, fragments, bytes)
      && (forall f :: 0 <= f < fragments ==> settings[f].lastTime <= settings[f].hwtime)
    }

    constructor (fragments: nat, bytes: nat, minBufferFill: int, hwtimeStep: int, doneFactor: real,
                 xyz2motors: Kinematics, sqrt: real -> real, spaces: seq<Space>)
      requires fragments > 0 && bytes > 0 && hwtimeStep > 0 && SpacesOk(spaces, fragments, bytes)
      ensures Valid() && fresh(settings)
      ensures this.spaces == spaces && currentFragment == 0 && currentFragmentPos == 0
      ensures freeFragments == fragments && !moving && !refilling && !stopping && !aborting
      ensures queue == [] && events == []
    {
      this.fragments := fragments;
      this.bytes := bytes;
      this.minBufferFill := minBufferFill;
      this.hwtimeStep := hwtimeStep;
      this.doneFactor := doneFactor;
      this.xyz2motors := xyz2motors;
      this.sqrt := sqrt;
      this.settings := new Fragment[fragments](_ => Fragment(0.0, 0.0, 0.0, 0.0, 0.0, 0.0, 0.0, 0.0, 0, 0, 0, 0, 0.0, 0, 0));
      this.spaces := spaces;
      currentFragment, currentFragmentPos, freeFragments := 0, 0, fragments;
      moving, refilling, stopping, aborting, motorsBusy := false, false, false, false, false;
      cbsAfterCurrentMove := 0;
      queue, events := [], [];
    }

    /** `reset_dirs(fragment)`: every motor gets its direction for the fragment, and
        the fragment records how many motors are active. */
    method ResetDirs(fragment: nat)
      requires Valid() && fragment < fragments
      modifies this`spaces, settings
      ensures Valid()
      ensures spaces == ResetAll(old(spaces), fragment, moving)
      ensures settings[fragment] == old(settings[fragment]).(numActiveMotors := ActiveAll(old(spaces), fragment, moving))
      ensures forall g :: 0 <= g < settings.Length && g != fragment ==> settings[g] == old(settings[g])
    {
      assert SpacesOk(spaces, fragments, bytes);
      var sps, active := ResetSpacesDirs(spaces, fragment, moving);
      settings[fragment] := settings[fragment].(numActiveMotors := active);
      ghost var spaces0 := spaces;
      spaces := sps;
      ShapeKeepsOk(spaces0, spaces, fragments, bytes);
    }

    /** `copy_fragment_settings(src, dst)`: the settings, motor slots (without their
        step data) and axis slots of fragment `dst` become those of `src`. */
    method CopyFragmentSettings(src: nat, dst: nat)
      requires Valid() && src < fragments && dst < fragments
      modifies this`spaces, settings
      ensures Valid()
      ensures settings[..] == old(settings[..])[dst := old(settings[src])]
      ensures spaces == CopyAll(old(spaces), src, dst)
    {
      ghost var spaces0 := spaces;
      settings[dst] := settings[src];
      assert settings[..] == old(settings[..])[dst := old(settings[src])];
      var sps := spaces;
      var s := 0;
      while s < |sps|
        invariant s <= |sps| == |spaces0|
        invariant settings[..] == old(settings[..])[dst := old(settings[src])] && spaces == spaces0
        invariant forall i :: 0 <= i < s ==> sps[i] == CopySpace(spaces0[i], src, dst)
        invariant forall i :: s <= i < |sps| ==> sps[i] == spaces0[i]
      {
        assert SpaceOk(spaces0[s], fragments, bytes);
        var sp := CopySpaceSlots(sps[s], src, dst);
        sps := sps[s := sp];
        s := s + 1;
      }
      spaces := sps;
      ShapeKeepsOk(spaces0, spaces, fragments, bytes);
    }

    /** `set_current_fragment(fragment)`: a fragment still being filled while no move
        is computed is sent first; then the current fragment's state is copied to
        `fragment`, which becomes current, empty and without callbacks, and its
        directions are reset.  The contract states the new state when nothing is sent
        first. */
    method SetCurrentFragment(fragment: nat)
      requires Valid() && fragment < fragments
      modifies this`spaces, this`currentFragment, this`currentFragmentPos, this`freeFragments, this`events, settings
      decreases if currentFragmentPos > 0 then 6 else 2
      ensures Valid() && currentFragment == fragment && currentFragmentPos == 0
      ensures Counts(spaces) == Counts(old(spaces))
      ensures freeFragments <= old(freeFragments)
      ensures old(moving || currentFragmentPos == 0) ==>
        && freeFragments == old(freeFragments) && events == old(events)
        && spaces == ResetAll(CopyAll(old(spaces), old(currentFragment), fragment), fragment, moving)
        && settings[..] == old(settings[..])[fragment := old(settings[currentFragment]).(
             fragmentLength := 0, cbs := 0,
             numActiveMotors := ActiveAll(CopyAll(old(spaces), old(currentFragment), fragment), fragment, moving))]
    {
      if !moving && currentFragmentPos > 0 {
        SendFragment();
      }
      MakeCurrent(fragment);
    }

    /** The part of `set_current_fragment` after the pending fragment is sent. */
    method MakeCurrent(fragment: nat)
      requires Valid() && fragment < fragments
      modifies this`spaces, this`currentFragment, this`currentFragmentPos, settings
      ensures Valid() && currentFragment == fragment && currentFragmentPos == 0
      ensures Counts(spaces) == Counts(old(spaces))
      ensures var copied := CopyAll(old(spaces), old(currentFragment), fragment);
        && spaces == ResetAll(copied, fragment, moving)
        && settings[..] == old(settings[..])[fragment := old(settings[currentFragment]).(
             fragmentLength := 0, cbs := 0, numActiveMotors := ActiveAll(copied, fragment, moving))]
    {
      ghost var spaces0 := spaces;
      CopyFragmentSettings(currentFragment, fragment);
      ghost var copied := settings[..];
      ghost var copiedSpaces := spaces;
      ShapeCounts(spaces0, copiedSpaces);
      settings[fragment] := settings[fragment].(fragmentLength := 0, cbs := 0);
      assert settings[..] == copied[fragment := settings[fragment]];
      currentFragment := fragment;
      currentFragmentPos := 0;
      ResetDirs(currentFragment);
      ShapeCounts(copiedSpaces, spaces);
    }

    /** `send_fragment()`: nothing happens to an empty fragment.  Otherwise the
        fragment's length is recorded, one free fragment is used up and the fragment
        is handed to the hardware; unless stopping, the next fragment (modulo the
        buffer size) becomes current with its step data zeroed. */
    method SendFragment()
      requires Valid()
      modifies this`spaces, this`currentFragment, this`currentFragmentPos, this`freeFragments, this`events, settings
      decreases if currentFragmentPos > 0 then 4 else 0
      ensures Valid() && Counts(spaces) == Counts(old(spaces))
      ensures old(currentFragmentPos) == 0 ==>
        && spaces == old(spaces) && settings[..] == old(settings[..]) && freeFragments == old(freeFragments)
        && currentFragment == old(currentFragment) && currentFragmentPos == 0 && events == old(events)
      ensures old(currentFragmentPos) > 0 ==>
        && freeFragments == old(freeFragments) - 1 && events == old(events) + [FragmentSent(old(currentFragment))]
      ensures old(currentFragmentPos) > 0 && stopping ==>
        && spaces == old(spaces) && currentFragment == old(currentFragment)
        && currentFragmentPos == old(currentFragmentPos)
        && settings[..] == old(settings[..])[currentFragment := old(settings[currentFragment]).(
             fragmentLength := old(currentFragmentPos))]
      ensures old(currentFragmentPos) > 0 && !stopping ==>
        var next := (old(currentFragment) + 1) % fragments;
        var copied := CopyAll(old(spaces), old(currentFragment), next);
        && currentFragment == next && currentFragmentPos == 0
        && spaces == ClearAll(ResetAll(copied, next, moving), next)
        && settings[..] == old(settings[..])
             [old(currentFragment) := old(settings[currentFragment]).(fragmentLength := old(currentFragmentPos))]
             [next := old(settings[currentFragment]).(fragmentLength := 0, cbs := 0,
                                                     numActiveMotors := ActiveAll(copied, next, moving))]
    {
      if currentFragmentPos == 0 {
        return;
      }
      RecordFragment();
      if stopping {
        return;
      }
      ghost var recorded := settings[currentFragment];
      assert recorded.(fragmentLength := 0, cbs := 0) == old(settings[currentFragment]).(fragmentLength := 0, cbs := 0);
      PrepareNext();
    }

    /** The preparation of a new fragment in `send_fragment`: the next fragment
        (modulo the buffer size) becomes current, empty and a copy of the one sent,
        and its step data are zeroed. */
    method PrepareNext()
      requires Valid()
      modifies this`spaces, this`currentFragment, this`currentFragmentPos, this`freeFragments, this`events, settings
      decreases 3
      ensures Valid() && Counts(spaces) == Counts(old(spaces))
      ensures var next := (old(currentFragment) + 1) % fragments;
        var copied := CopyAll(old(spaces), old(currentFragment), next);
        && currentFragment == next && currentFragmentPos == 0
        && freeFragments == old(freeFragments) && events == old(events)
        && spaces == ClearAll(ResetAll(copied, next, moving), next)
        && settings[..] == old(settings[..])[next := old(settings[currentFragment]).(
             fragmentLength := 0, cbs := 0, numActiveMotors := ActiveAll(copied, next, moving))]
    {
      currentFragmentPos := 0;
      SetCurrentFragment((currentFragment + 1) % fragments);
      ghost var reset := spaces;
      ClearFragment();
      ShapeCounts(reset, spaces);
    }

    /** The bookkeeping of `send_fragment` for a non-empty fragment: its length is
        recorded, a free fragment is used up and the fragment goes to the hardware. */
    method RecordFragment()
      requires Valid() && currentFragmentPos > 0
      modifies this`freeFragments, this`events, settings
      ensures Valid() && freeFragments == old(freeFragments) - 1
      ensures events == old(events) + [FragmentSent(currentFragment)]
      ensures settings[..] == old(settings[..])[currentFragment := old(settings[currentFragment]).(
        fragmentLength := currentFragmentPos)]
    {
      settings[currentFragment] := settings[currentFragment].(fragmentLength := currentFragmentPos);
      freeFragments := freeFragments - 1;
      events := events + [FragmentSent(currentFragment)];
    }

    /** The `memset` of `send_fragment`: the step data of the current fragment is
        zeroed in every motor. */
    method ClearFragment()
      requires Valid()
      modifies this`spaces
      ensures Valid() && spaces == ClearAll(old(spaces), currentFragment)
    {
      ghost var spaces0 := spaces;
      var sps := spaces;
      var s := 0;
      while s < |sps|
        invariant s <= |sps| == |spaces0|
        invariant forall i :: 0 <= i < s ==> sps[i] == ClearSpace(spaces0[i], currentFragment)
        invariant forall i :: s <= i < |sps| ==> sps[i] == spaces0[i]
      {
        assert SpaceOk(spaces0[s], fragments, bytes);
        var sp := ClearSpaceData(sps[s], currentFragment, bytes);
        sps := sps[s := sp];
        s := s + 1;
      }
      spaces := sps;
      ShapeKeepsOk(spaces0, spaces, fragments, bytes);
    }

    /** The packing loop of `apply_tick` and its clock step: one step count per motor is
        packed at the current position (only the first space's at position 0), the
        position advances and the fragment's clock moves on by `hwtime_step`. */
    method Tick()
      requires Valid() && currentFragmentPos < 2 * bytes
      modifies this`spaces, this`currentFragmentPos, settings
      ensures Valid()
      ensures spaces == PackAll(old(spaces), currentFragment, old(currentFragmentPos))
      ensures currentFragmentPos == old(currentFragmentPos) + 1
      ensures settings[..] == old(settings[..])[currentFragment :=
        old(settings[currentFragment]).(hwtime := old(settings[currentFragment].hwtime) + hwtimeStep)]
    {
      ghost var spaces0 := spaces;
      var sps := spaces;
      var s := 0;
      while (s == 0 || currentFragmentPos > 0) && s < |sps|
        invariant s <= |sps| == |spaces0| && unchanged(this) && unchanged(settings)
        invariant currentFragmentPos == 0 ==> s <= 1
        invariant forall i :: 0 <= i < s ==> sps[i] == PackSpace(spaces0[i], currentFragment, currentFragmentPos)
        invariant forall i :: s <= i < |sps| ==> sps[i] == spaces0[i]
      {
        assert SpaceOk(spaces0[s], fragments, bytes);
        var sp := PackSpaceMotors(sps[s], currentFragment, currentFragmentPos);
        sps := sps[s := sp];
        s := s + 1;
      }
      assert sps == PackAll(spaces0, currentFragment, currentFragmentPos);
      spaces := sps;
      ShapeKeepsOk(spaces0, spaces, fragments, bytes);
      currentFragmentPos := currentFragmentPos + 1;
      settings[currentFragment] := settings[currentFragment].(hwtime := settings[currentFragment].hwtime + hwtimeStep);
    }

    /** `move_axes(s, current_time, factor)`: the motor targets of space `s` come from
        its kinematics, which is asked again on the targets it moved when its first
        answer is not ok, and every motor is checked against its target over the time
        since the last step.  Of the axes only targets of the current fragment move. */
    method MoveAxes(s: nat, currentTime: int, factor: real) returns (factor': real)
      requires Valid() && s < |spaces| && settings[currentFragment].lastTime < currentTime
      modifies this`spaces
      ensures Valid() && |spaces| == |old(spaces)|
      ensures var dt := Elapsed(currentTime, settings[currentFragment].lastTime);
        (spaces[s], factor') == MoveSpace(old(spaces)[s], currentFragment, dt, factor, xyz2motors, sqrt)
      ensures |spaces[s].axis| == |old(spaces)[s].axis|
      ensures forall a :: 0 <= a < |spaces[s].axis| ==>
        OnlyTargetMoved(old(spaces)[s].axis[a], spaces[s].axis[a], currentFragment)
      ensures forall i :: 0 <= i < |spaces| && i != s ==> spaces[i] == old(spaces)[i]
    {
      var dt := Elapsed(currentTime, settings[currentFragment].lastTime);
      var first := xyz2motors(spaces[s], currentFragment);
      var sp := WithTargets(spaces[s], currentFragment, first.0);
      var targets := first.1;
      if !first.2 {
        var second := xyz2motors(sp, currentFragment);
        sp := WithTargets(sp, currentFragment, second.0);
        targets := second.1;
      }
      assert (sp, targets) == AskKinematics(xyz2motors, spaces[s], currentFragment);
      var motors;
      motors, factor' := CheckSpaceMotors(sp.motor, targets, currentFragment, dt, factor, sqrt);
      CheckMotorsShape(sp.motor, targets, currentFragment, dt, factor, sqrt);
      ghost var spaces0 := spaces;
      spaces := spaces[s := sp.(motor := motors)];
      assert SameShape(spaces0[s], spaces[s]);
      ShapeKeepsOk(spaces0, spaces, fragments, bytes);
    }

    /** One round of the loops of `handle_motors` that set axis targets: space `s`
        becomes `sp`, the space with its targets set, and moves its axes.  The spaces
        before it have moved already, in the order the factor passes through them. */
    method MoveNext(ghost prepared: seq<Space>, s: nat, sp: Space, currentTime: int, factor: real)
      returns (factor': real)
      requires Valid() && s < |spaces| == |prepared| && sp == prepared[s] && SameShape(spaces[s], sp)
      requires settings[currentFragment].lastTime < currentTime
      requires var dt := Elapsed(currentTime, settings[currentFragment].lastTime);
        (spaces[..s], factor) == MoveAll(prepared[..s], currentFragment, dt, 1.0, xyz2motors, sqrt)
      modifies this`spaces
      ensures Valid() && |spaces| == |old(spaces)|
      ensures forall i :: s < i < |spaces| ==> spaces[i] == old(spaces)[i]
      ensures var dt := Elapsed(currentTime, settings[currentFragment].lastTime);
        (spaces[..s + 1], factor') == MoveAll(prepared[..s + 1], currentFragment, dt, 1.0, xyz2motors, sqrt)
    {
      ghost var before := spaces;
      spaces := spaces[s := sp];
      ShapeKeepsOk(before, spaces, fragments, bytes);
      factor' := MoveAxes(s, currentTime, factor);
      ghost var dt := Elapsed(currentTime, settings[currentFragment].lastTime);
      MovePrefixStep(prepared, s, before[..s], factor, (spaces[s], factor'), currentFragment, dt, 1.0, xyz2motors, sqrt);
      assert spaces[..s + 1] == before[..s] + [spaces[s]];
    }

    /** The finishing loop of `handle_motors`: every space commits its segment and
        then moves its axes. */
    method CommitAndMove(currentTime: int) returns (factor: real)
      requires Valid() && settings[currentFragment].lastTime < currentTime
      modifies this`spaces
      ensures Valid()
      ensures var dt := Elapsed(currentTime, settings[currentFragment].lastTime);
        (spaces, factor) == MoveAll(CommitAll(old(spaces), currentFragment), currentFragment, dt, 1.0, xyz2motors, sqrt)
    {
      ghost var prepared := CommitAll(spaces, currentFragment);
      ghost var dt := Elapsed(currentTime, settings[currentFragment].lastTime);
      ghost var spaces0 := spaces;
      factor := 1.0;
      var s := 0;
      while s < |spaces|
        invariant Valid() && s <= |spaces| == |prepared| == |spaces0|
        invariant forall i :: s <= i < |spaces| ==> spaces[i] == spaces0[i]
        invariant (spaces[..s], factor) == MoveAll(prepared[..s], currentFragment, dt, 1.0, xyz2motors, sqrt)
      {
        assert SpaceOk(spaces[s], fragments, bytes) && spaces[s] == spaces0[s];
        assert prepared[s] == CommitSpace(spaces0[s], currentFragment) && SameShape(spaces0[s], prepared[s]);
        var sp := CommitSpaceAxes(spaces[s], currentFragment);
        factor := MoveNext(prepared, s, sp, currentTime, factor);
        s := s + 1;
      }
      assert spaces[..s] == spaces && prepared[..s] == prepared;
    }

    /** The main-part loop of `handle_motors`: every space sets its axis targets at
        the blend `current_f` and then moves its axes. */
    method MainAndMove(currentTime: int, currentF: Option<real>) returns (factor: real)
      requires Valid() && settings[currentFragment].lastTime < currentTime
      modifies this`spaces
      ensures Valid()
      ensures var dt := Elapsed(currentTime, settings[currentFragment].lastTime);
        (spaces, factor) == MoveAll(MainAll(old(spaces), currentFragment, currentF), currentFragment, dt, 1.0, xyz2motors, sqrt)
    {
      ghost var prepared := MainAll(spaces, currentFragment, currentF);
      ghost var dt := Elapsed(currentTime, settings[currentFragment].lastTime);
      ghost var spaces0 := spaces;
      factor := 1.0;
      var s := 0;
      while s < |spaces|
        invariant Valid() && s <= |spaces| == |prepared| == |spaces0|
        invariant forall i :: s <= i < |spaces| ==> spaces[i] == spaces0[i]
        invariant (spaces[..s], factor) == MoveAll(prepared[..s], currentFragment, dt, 1.0, xyz2motors, sqrt)
      {
        assert SpaceOk(spaces[s], fragments, bytes) && spaces[s] == spaces0[s];
        assert prepared[s] == MainSpace(spaces0[s], currentFragment, currentF) && SameShape(spaces0[s], prepared[s]);
        var sp := MainSpaceAxes(spaces[s], currentFragment, currentF);
        factor := MoveNext(prepared, s, sp, currentTime, factor);
        s := s + 1;
      }
      assert spaces[..s] == spaces && prepared[..s] == prepared;
    }

    /** The connector loop of `handle_motors`: every space sets its axis targets at
        the connector's blend and then moves its axes. */
    method ConnectorAndMove(currentTime: int, blend: (real, real)) returns (factor: real)
      requires Valid() && settings[currentFragment].lastTime < currentTime
      modifies this`spaces
      ensures Valid()
      ensures var dt := Elapsed(currentTime, settings[currentFragment].lastTime);
        (spaces, factor) == MoveAll(ConnectorAll(old(spaces), currentFragment, blend), currentFragment, dt, 1.0, xyz2motors, sqrt)
    {
      ghost var prepared := ConnectorAll(spaces, currentFragment, blend);
      ghost var dt := Elapsed(currentTime, settings[currentFragment].lastTime);
      ghost var spaces0 := spaces;
      factor := 1.0;
      var s := 0;
      while s < |spaces|
        invariant Valid() && s <= |spaces| == |prepared| == |spaces0|
        invariant forall i :: s <= i < |spaces| ==> spaces[i] == spaces0[i]
        invariant (spaces[..s], factor) == MoveAll(prepared[..s], currentFragment, dt, 1.0, xyz2motors, sqrt)
      {
        assert SpaceOk(spaces[s], fragments, bytes) && spaces[s] == spaces0[s];
        assert prepared[s] == ConnectorSpace(spaces0[s], currentFragment, blend) && SameShape(spaces0[s], prepared[s]);
        var sp := ConnectorSpaceAxes(spaces[s], currentFragment, blend);
        factor := MoveNext(prepared, s, sp, currentTime, factor);
        s := s + 1;
      }
      assert spaces[..s] == spaces && prepared[..s] == prepared;
    }

    /** `do_steps(factor, current_time)`: a factor of 0 or less ends the move.
        Otherwise the time of the call is recorded; if no motor has steps to take
        nothing else happens.  If some motor has, a factor below 1 moves the start
        time on by 99% of the lost share of the time since the previous call, the
        last step time becomes the current time, every motor with a distance moves
        the fraction `factor` of it and every axis the fraction `factor` towards its
        target. */
    method DoSteps(factor: real, currentTime: int)
      requires Valid() && currentTime <= settings[currentFragment].hwtime
      modifies this`spaces, this`moving, settings
      ensures Valid()
      ensures factor <= 0.0 ==>
        !moving && spaces == old(spaces) && settings[..] == old(settings[..])
      ensures factor > 0.0 && !AnySteps(old(spaces), currentFragment, factor) ==>
        && moving == old(moving) && spaces == old(spaces)
        && settings[..] == old(settings[..])[currentFragment := old(settings[currentFragment]).(lastCurrentTime := currentTime)]
      ensures factor > 0.0 && AnySteps(old(spaces), currentFragment, factor) ==>
        var before := old(settings[currentFragment]);
        && moving == old(moving)
        && spaces == AdvanceAll(StepAll(old(spaces), currentFragment, factor), currentFragment, factor)
        && settings[..] == old(settings[..])[currentFragment := before.(
             lastCurrentTime := currentTime, lastTime := currentTime,
             startTime := if factor < 1.0 then before.startTime + Lag(currentTime, before.lastCurrentTime, factor)
                          else before.startTime)]
    {
      if factor <= 0.0 {
        moving := false;
        return;
      }
      var haveSteps := FindSteps(spaces, currentFragment, factor);
      StepTimes(factor, currentTime, haveSteps);
      if !haveSteps {
        return;
      }
      StepMotors(factor);
      AdvanceAxes(factor);
    }

    /** The clock bookkeeping of `do_steps` for a positive factor: the time of the call
        is recorded, and when some motor has steps to take, a factor below 1 moves
        the start time on by `Lag`, and the last step time becomes the current time. */
    method StepTimes(factor: real, currentTime: int, haveSteps: bool)
      requires Valid() && currentTime <= settings[currentFragment].hwtime && factor > 0.0
      modifies settings
      ensures Valid()
      ensures var before := old(settings[currentFragment]);
        var after := if !haveSteps then before.(lastCurrentTime := currentTime)
          else before.(lastCurrentTime := currentTime, lastTime := currentTime,
                       startTime := if factor < 1.0 then before.startTime + Lag(currentTime, before.lastCurrentTime, factor)
                                    else before.startTime);
        settings[..] == old(settings[..])[currentFragment := after]
    {
      var fragment := settings[currentFragment];
      var theLastTime := fragment.lastCurrentTime;
      fragment := fragment.(lastCurrentTime := currentTime);
      if haveSteps {
        if factor > 0.0 && factor < 1.0 {
          fragment := fragment.(startTime := fragment.startTime + Lag(currentTime, theLastTime, factor));
        }
        fragment := fragment.(lastTime := currentTime);
      }
      settings[currentFragment] := fragment;
      assert settings[..] == old(settings[..])[currentFragment := fragment];
    }

    /** The motor loop of `do_steps`. */
    method StepMotors(factor: real)
      requires Valid()
      modifies this`spaces
      ensures Valid() && spaces == StepAll(old(spaces), currentFragment, factor)
    {
      ghost var spaces0 := spaces;
      var sps := spaces;
      var s := 0;
      while s < |sps|
        invariant s <= |sps| == |spaces0|
        invariant forall i :: 0 <= i < s ==> sps[i] == StepSpace(spaces0[i], currentFragment, factor)
        invariant forall i :: s <= i < |sps| ==> sps[i] == spaces0[i]
      {
        assert SpaceOk(spaces0[s], fragments, bytes);
        var sp := StepSpaceMotors(sps[s], currentFragment, factor);
        sps := sps[s := sp];
        s := s + 1;
      }
      spaces := sps;
      ShapeKeepsOk(spaces0, spaces, fragments, bytes);
    }

    /** The axis loop of `do_steps`. */
    method AdvanceAxes(factor: real)
      requires Valid()
      modifies this`spaces
      ensures Valid() && spaces == AdvanceAll(old(spaces), currentFragment, factor)
    {
      ghost var spaces0 := spaces;
      var sps := spaces;
      var s := 0;
      while s < |sps|
        invariant s <= |sps| == |spaces0|
        invariant forall i :: 0 <= i < s ==> sps[i] == AdvanceSpace(spaces0[i], currentFragment, factor)
        invariant forall i :: s <= i < |sps| ==> sps[i] == spaces0[i]
      {
        assert SpaceOk(spaces0[s], fragments, bytes);
        var sp := AdvanceSpaceAxes(sps[s], currentFragment, factor);
        sps := sps[s := sp];
        s := s + 1;
      }
      spaces := sps;
      ShapeKeepsOk(spaces0, spaces, fragments, bytes);
    }

    /** The loop of a finished move that sets every motor's previous velocity in the
        current fragment to 0. */
    method StopMotors()
      requires Valid()
      modifies this`spaces
      ensures Valid() && spaces == StopAll(old(spaces), currentFragment)
    {
      ghost var spaces0 := spaces;
      var sps := spaces;
      var s := 0;
      while s < |sps|
        invariant s <= |sps| == |spaces0|
        invariant forall i :: 0 <= i < s ==> sps[i] == StopSpace(spaces0[i], currentFragment)
        invariant forall i :: s <= i < |sps| ==> sps[i] == spaces0[i]
      {
        assert SpaceOk(spaces0[s], fragments, bytes);
        var sp := StopSpaceMotors(sps[s], currentFragment);
        sps := sps[s := sp];
        s := s + 1;
      }
      spaces := sps;
      ShapeKeepsOk(spaces0, spaces, fragments, bytes);
    }

    /** `next_move()`: the next queued segment, if any, starts the move again, and its
        callbacks are returned; with nothing queued no move starts and there are none. */
    method NextMove() returns (cbs: nat)
      modifies this`queue, this`moving
      ensures old(queue) == [] ==> cbs == 0 && queue == [] && moving == old(moving)
      ensures old(queue) != [] ==> moving && cbs == old(queue)[0] && queue == old(queue)[1..]
    {
      if queue == [] {
        return 0;
      }
      cbs := queue[0];
      queue := queue[1..];
      moving := true;
    }

    /** One motor of the scan of `buffer_refill`: a motor that is at its position is
        skipped; a motor without a direction gets one and counts as active; a motor
        that reverses while the fragment holds samples makes the fragment be sent.
        The result says whether it was sent. */
    method ScanMotor(s: nat, m: nat) returns (sent: bool)
      requires Valid() && !stopping && s < |spaces| && m < |spaces[s].motor|
      requires currentFragment < |spaces[s].motor[m].settings|
      modifies this`spaces, this`currentFragment, this`currentFragmentPos, this`freeFragments, this`events, settings
      ensures Valid() && Counts(spaces) == Counts(old(spaces))
      ensures sent <==> old(currentFragmentPos) > 0 && Reverses(old(spaces[s].motor[m].settings[currentFragment]))
      ensures sent ==>
        && freeFragments == old(freeFragments) - 1 && currentFragmentPos == 0
        && events == old(events) + [FragmentSent(old(currentFragment))]
      ensures !sent ==>
        && currentFragment == old(currentFragment) && currentFragmentPos == old(currentFragmentPos)
        && freeFragments == old(freeFragments) && events == old(events)
        && |spaces| == |old(spaces)| && |spaces[s].motor| == |old(spaces[s].motor)|
        && currentFragment < |spaces[s].motor[m].settings|
        && (forall i :: 0 <= i < |spaces| && i != s ==> spaces[i] == old(spaces[i]))
        && (forall j :: 0 <= j < |spaces[s].motor| && j != m ==> spaces[s].motor[j] == old(spaces[s].motor[j]))
        && Settled(spaces[s].motor[m].settings[currentFragment], old(currentFragmentPos) > 0)
      ensures !sent ==>
        && spaces == ScannedSpaces(old(spaces), s, m, currentFragment)
        && settings[..] == if Activates(old(spaces[s].motor[m].settings[currentFragment]))
             then old(settings[..])[currentFragment := old(settings[currentFragment]).(
               numActiveMotors := old(settings[currentFragment].numActiveMotors) + 1)]
             else old(settings[..])
    {
      assert SpaceOk(spaces[s], fragments, bytes) && MotorOk(spaces[s].motor[m], fragments, bytes);
      var slot := spaces[s].motor[m].settings[currentFragment];
      // The source first skips a motor at its position, then gives a direction to a
      // motor without one; a reversing motor is neither, so it may be tested first.
      if currentFragmentPos > 0 && Reverses(slot) {
        SendFragment();
        return true;
      }
      ghost var before := spaces;
      spaces := ScannedSpaces(spaces, s, m, currentFragment);
      ShapeKeepsOk(before, spaces, fragments, bytes);
      ShapeCounts(before, spaces);
      if Activates(slot) {
        settings[currentFragment] := settings[currentFragment].(numActiveMotors := settings[currentFragment].numActiveMotors + 1);
      }
      return false;
    }

    /** The scan at the head of each round of `buffer_refill`: every motor of every
        space in turn, until a reversal sends the fragment (the rest of that space is
        then skipped).  If that send leaves no free fragment the refill is over, which
        the result reports.  Without a send every motor away from its position has a
        direction, and with samples in the fragment every direction agrees with where
        its motor has to go. */
    method ScanDirections() returns (exhausted: bool)
      requires Valid() && !stopping
      modifies this`spaces, this`currentFragment, this`currentFragmentPos, this`freeFragments, this`events, settings
      ensures Valid() && Counts(spaces) == Counts(old(spaces))
      ensures freeFragments == old(freeFragments) || freeFragments == old(freeFragments) - 1
      ensures exhausted <==> freeFragments != old(freeFragments) && freeFragments <= 0
      ensures freeFragments == old(freeFragments) ==>
        && currentFragment == old(currentFragment) && currentFragmentPos == old(currentFragmentPos)
        && events == old(events)
      ensures freeFragments == old(freeFragments) ==>
        forall i, j :: 0 <= i < |spaces| && 0 <= j < |spaces[i].motor| ==>
          Settled(spaces[i].motor[j].settings[currentFragment], old(currentFragmentPos) > 0)
      ensures freeFragments != old(freeFragments) ==>
        && currentFragmentPos == 0
        && events == old(events) + [FragmentSent(old(currentFragment))]
                     + (if freeFragments <= Max(0, fragments - minBufferFill) then [MoveStarted] else [])
    {
      ghost var sentSoFar := false;
      var s := 0;
      while s < |spaces| && !stopping
        invariant Valid() && Counts(spaces) == Counts(old(spaces)) && s <= |spaces| == |old(spaces)|
        invariant !sentSoFar ==>
          && currentFragment == old(currentFragment) && currentFragmentPos == old(currentFragmentPos)
          && freeFragments == old(freeFragments) && events == old(events)
        invariant !sentSoFar ==>
          forall i, j :: 0 <= i < s && 0 <= j < |spaces[i].motor| ==>
            Settled(spaces[i].motor[j].settings[currentFragment], old(currentFragmentPos) > 0)
        invariant sentSoFar ==>
          && freeFragments == old(freeFragments) - 1 && freeFragments > 0 && currentFragmentPos == 0
          && events == old(events) + [FragmentSent(old(currentFragment))]
                       + (if freeFragments <= Max(0, fragments - minBufferFill) then [MoveStarted] else [])
      {
        var m := 0;
        while m < |spaces[s].motor| && !stopping
          invariant Valid() && Counts(spaces) == Counts(old(spaces)) && s < |spaces| == |old(spaces)|
          invariant m <= |spaces[s].motor|
          invariant !sentSoFar ==>
            && currentFragment == old(currentFragment) && currentFragmentPos == old(currentFragmentPos)
            && freeFragments == old(freeFragments) && events == old(events)
          invariant !sentSoFar ==>
            && (forall i, j :: 0 <= i < s && 0 <= j < |spaces[i].motor| ==>
                  Settled(spaces[i].motor[j].settings[currentFragment], old(currentFragmentPos) > 0))
            && (forall j :: 0 <= j < m ==> Settled(spaces[s].motor[j].settings[currentFragment], old(currentFragmentPos) > 0))
          invariant sentSoFar ==>
            && freeFragments == old(freeFragments) - 1 && freeFragments > 0 && currentFragmentPos == 0
            && events == old(events) + [FragmentSent(old(currentFragment))]
                         + (if freeFragments <= Max(0, fragments - minBufferFill) then [MoveStarted] else [])
          decreases |spaces[s].motor| - m
        {
          assert SpaceOk(spaces[s], fragments, bytes) && MotorOk(spaces[s].motor[m], fragments, bytes);
          var sent := ScanMotor(s, m);
          if sent {
            if freeFragments <= Max(0, fragments - minBufferFill) && !stopping {
              events := events + [MoveStarted];
            }
            if freeFragments <= 0 && !stopping {
              return true;
            }
            sentSoFar := true;
            break;
          }
          m := m + 1;
        }
        s := s + 1;
      }
      return false;
    }

    /** The end of a finished segment in `handle_motors`.  The callbacks owed so far
        are taken in an 8-bit counter (`had_cbs`, so modulo 256) together with those
        `next_move` returns.  If a next segment starts they are added to the current
        fragment (unless aborting) and nothing else happens.  Otherwise they are kept
        for later; then a factor of 1 (nothing held the motors back) ends the move: the
        buffer is refilled, every motor's previous velocity becomes 0 and the callbacks
        are added to the fragment then current (unless aborting).  A smaller factor
        keeps the move going. */
    method EndMove(factor: real)
      requires Valid() && (refilling || stopping || currentFragmentPos < 2 * bytes)
      modifies this`spaces, this`currentFragment, this`currentFragmentPos, this`freeFragments, this`moving, this`refilling,
               this`cbsAfterCurrentMove, this`queue, this`events, settings
      decreases if refilling then 6 else 30
      ensures Valid() && refilling == old(refilling)
      ensures old(refilling) ==>
        && currentFragment == old(currentFragment) && currentFragmentPos == old(currentFragmentPos)
        && freeFragments == old(freeFragments) && events == old(events)
      ensures var had := (old(cbsAfterCurrentMove) % 256 + (if old(queue) == [] then 0 else old(queue)[0])) % 256;
        old(queue) != [] ==>
          && moving && queue == old(queue)[1..] && cbsAfterCurrentMove == 0 && spaces == old(spaces)
          && settings[..] == old(settings[..])[currentFragment := old(settings[currentFragment]).(
               cbs := old(settings[currentFragment].cbs) + if !aborting && had > 0 then had else 0)]
      ensures old(queue) == [] && factor != 1.0 ==>
        && moving && queue == [] && cbsAfterCurrentMove == old(cbsAfterCurrentMove) % 256
        && spaces == old(spaces) && settings[..] == old(settings[..])
      ensures old(queue) == [] && factor == 1.0 ==> !moving && queue == [] && cbsAfterCurrentMove == 0
      ensures var had := old(cbsAfterCurrentMove) % 256;
        old(queue) == [] && factor == 1.0 && old(refilling) ==>
          && spaces == StopAll(old(spaces), currentFragment)
          && settings[..] == old(settings[..])[currentFragment := old(settings[currentFragment]).(
               cbs := old(settings[currentFragment].cbs) + if !aborting && had > 0 then had else 0)]
    {
      moving := false;
      var had := cbsAfterCurrentMove % 256;
      cbsAfterCurrentMove := 0;
      var next := NextMove();
      had := (had + next) % 256;
      if moving {
        AddCallbacks(had);
        return;
      }
      cbsAfterCurrentMove := cbsAfterCurrentMove + had;
      if factor == 1.0 {
        CompleteMove();
      } else {
        moving := true;
      }
    }

    /** The callbacks `n` of a finished segment are added to the current fragment,
        unless aborting or there are none. */
    method AddCallbacks(n: int)
      requires Valid()
      modifies settings
      ensures Valid()
      ensures settings[..] == old(settings[..])[currentFragment := old(settings[currentFragment]).(
        cbs := old(settings[currentFragment].cbs) + if !aborting && n > 0 then n else 0)]
    {
      if !aborting && n > 0 {
        settings[currentFragment] := settings[currentFragment].(cbs := settings[currentFragment].cbs + n);
      }
    }

    /** The end of the last queued segment: the buffer is refilled with what is left,
        every motor's previous velocity becomes 0 and the pending callbacks go to the
        current fragment. */
    method CompleteMove()
      requires Valid() && !moving && (refilling || stopping || currentFragmentPos < 2 * bytes)
      modifies this`spaces, this`currentFragment, this`currentFragmentPos, this`freeFragments, this`moving, this`refilling,
               this`cbsAfterCurrentMove, this`queue, this`events, settings
      decreases if refilling then 5 else 25
      ensures Valid() && refilling == old(refilling) && !moving && queue == old(queue) && cbsAfterCurrentMove == 0
      ensures old(refilling) ==>
        && currentFragment == old(currentFragment) && currentFragmentPos == old(currentFragmentPos)
        && freeFragments == old(freeFragments) && events == old(events)
        && spaces == StopAll(old(spaces), currentFragment)
        && settings[..] == old(settings[..])[currentFragment := old(settings[currentFragment]).(
             cbs := old(settings[currentFragment].cbs) + if !aborting && old(cbsAfterCurrentMove) > 0
                                                          then old(cbsAfterCurrentMove) else 0)]
    {
      BufferRefill();
      StopMotors();
      if cbsAfterCurrentMove > 0 {
        AddCallbacks(cbsAfterCurrentMove);
        cbsAfterCurrentMove := 0;
      }
    }

    /** The finishing branch of `handle_motors`: every space commits its segment and
        moves its axes, the motors step, and if, with the start time as the steps left
        it, the share `done_factor` of the segment's duration has passed, the segment
        ends. */
    method Finish(currentTime: int)
      requires Valid() && moving
      requires settings[currentFragment].lastTime < currentTime <= settings[currentFragment].hwtime
      requires refilling || stopping || currentFragmentPos < 2 * bytes
      modifies this`spaces, this`currentFragment, this`currentFragmentPos, this`freeFragments, this`moving, this`refilling,
               this`cbsAfterCurrentMove, this`queue, this`events, settings
      decreases if refilling then 8 else 40
      ensures Valid() && refilling == old(refilling)
      ensures old(refilling) ==>
        && currentFragment == old(currentFragment) && currentFragmentPos == old(currentFragmentPos)
        && freeFragments == old(freeFragments) && events == old(events)
    {
      var factor := CommitAndMove(currentTime);
      StepAndEnd(factor, currentTime);
    }

    /** The rest of `Finish`: the motors step by `factor`, and the segment ends once,
        with the start time as the steps left it, the share `done_factor` of its
        duration has passed. */
    method StepAndEnd(factor: real, currentTime: int)
      requires Valid() && currentTime <= settings[currentFragment].hwtime
      requires refilling || stopping || currentFragmentPos < 2 * bytes
      modifies this`spaces, this`currentFragment, this`currentFragmentPos, this`freeFragments, this`moving, this`refilling,
               this`cbsAfterCurrentMove, this`queue, this`events, settings
      decreases if refilling then 7 else 35
      ensures Valid() && refilling == old(refilling)
      ensures old(refilling) ==>
        && currentFragment == old(currentFragment) && currentFragmentPos == old(currentFragmentPos)
        && freeFragments == old(freeFragments) && events == old(events)
    {
      DoSteps(factor, currentTime);
      var t := (currentTime as real - settings[currentFragment].startTime) / 1000000.0;
      if Reached(t, settings[currentFragment].t0 + settings[currentFragment].tp, doneFactor) {
        EndMove(factor);
      }
    }

    /** `handle_motors(current_time)`: nothing happens unless a move is in progress.
        With `t` the seconds since the segment started, a segment whose main part and
        connector have both passed is finished; within the main part (`t < t0`) every
        axis target follows the main blend at `t / t0`, within the connector the
        connector's blend at `(t - t0) / tp`; either way the motors then step. */
    method HandleMotors(currentTime: int)
      requires Valid()
      requires moving ==> settings[currentFragment].lastTime < currentTime <= settings[currentFragment].hwtime
      requires refilling || stopping || currentFragmentPos < 2 * bytes
      modifies this`spaces, this`currentFragment, this`currentFragmentPos, this`freeFragments, this`moving, this`refilling,
               this`cbsAfterCurrentMove, this`queue, this`events, settings
      decreases if refilling then 9 else 50
      ensures Valid() && refilling == old(refilling)
      ensures old(refilling) ==>
        && currentFragment == old(currentFragment) && currentFragmentPos == old(currentFragmentPos)
        && freeFragments == old(freeFragments) && events == old(events)
      ensures !old(moving) ==>
        && !moving && spaces == old(spaces) && settings[..] == old(settings[..])
        && currentFragment == old(currentFragment) && currentFragmentPos == old(currentFragmentPos)
        && freeFragments == old(freeFragments) && events == old(events) && queue == old(queue)
        && cbsAfterCurrentMove == old(cbsAfterCurrentMove)
    {
      if !moving {
        return;
      }
      var t := (currentTime as real - settings[currentFragment].startTime) / 1000000.0;
      var t0 := settings[currentFragment].t0;
      var tp := settings[currentFragment].tp;
      if t >= t0 + tp {
        Finish(currentTime);
        return;
      }
      var factor;
      if t < t0 {
        var currentF := if t0 == 0.0 then None
                        else Some(MainBlend(settings[currentFragment].f1, settings[currentFragment].f2, t / t0));
        factor := MainAndMove(currentTime, currentF);
      } else {
        var blend := ConnectorBlend(settings[currentFragment].fp, settings[currentFragment].fq, (t - t0) / tp);
        factor := ConnectorAndMove(currentTime, blend);
      }
      DoSteps(factor, currentTime);
    }

    /** `apply_tick()`: one tick is packed into the fragment, the fragment's clock moves
        on, and the motors are handled at the new clock value. */
    method ApplyTick()
      requires Valid() && currentFragmentPos < 2 * bytes
      requires refilling || stopping || currentFragmentPos + 1 < 2 * bytes
      modifies this`spaces, this`currentFragment, this`currentFragmentPos, this`freeFragments, this`moving, this`refilling,
               this`cbsAfterCurrentMove, this`queue, this`events, settings
      decreases if refilling then 10 else 60
      ensures Valid() && refilling == old(refilling)
      ensures old(refilling) ==>
        && currentFragment == old(currentFragment) && currentFragmentPos == old(currentFragmentPos) + 1
        && freeFragments == old(freeFragments) && events == old(events)
    {
      Tick();
      HandleMotors(settings[currentFragment].hwtime);
    }

    /** `move_to_current(s)`: unless a move is in progress or the motors are idle, the
        current fragment starts a segment of zero duration from where the motors
        are (space `s` holds still) and the buffer is refilled. */
    method MoveToCurrent(s: nat)
      requires Valid() && s < |spaces|
      modifies this`spaces, this`currentFragment, this`currentFragmentPos, this`freeFragments, this`moving, this`refilling,
               this`cbsAfterCurrentMove, this`queue, this`events, settings
      ensures Valid() && refilling == old(refilling)
      ensures old(moving) || !motorsBusy ==>
        && spaces == old(spaces) && settings[..] == old(settings[..]) && moving == old(moving)
        && currentFragment == old(currentFragment) && currentFragmentPos == old(currentFragmentPos)
        && freeFragments == old(freeFragments) && queue == old(queue)
        && cbsAfterCurrentMove == old(cbsAfterCurrentMove) && events == old(events)
      ensures !old(moving) && motorsBusy && (old(refilling) || stopping) ==>
        && moving && currentFragmentPos == 0 && cbsAfterCurrentMove == 0
        && currentFragment == old(currentFragment) && freeFragments == old(freeFragments)
        && queue == old(queue) && events == old(events)
        && spaces == old(spaces)[s := HoldSpace(old(spaces)[s], currentFragment)]
        && settings[..] == old(settings[..])[currentFragment := Held(old(settings[currentFragment]))]
      ensures !old(moving) && motorsBusy && !old(refilling) && !stopping ==>
        && (!moving ==> currentFragmentPos == 0)
        && (freeFragments < fragments ==> |events| > 0 && events[|events| - 1] == MoveStarted)
        && (old(freeFragments) >= 1 ==> freeFragments >= 0)
    {
      if moving || !motorsBusy {
        return;
      }
      HoldCurrent(s);
      BufferRefill();
    }

    /** `Space::load_axis(a, addr)` on space `s`: the axis is read from the medium as
        `LoadedAxis` says and, when its offset changed, `move_to_current` runs on the
        space.  The cursor advances by 21. */
    method LoadAxis(s: nat, a: nat, mem: Persist.Memory, addr: int) returns (next: int)
      requires Valid() && s < |spaces| && a < |spaces[s].axis|
      modifies this`spaces, this`currentFragment, this`currentFragmentPos, this`freeFragments, this`moving, this`refilling,
               this`cbsAfterCurrentMove, this`queue, this`events, settings
      ensures next == addr + 21
      ensures Valid() && refilling == old(refilling)
      ensures var sp := old(spaces)[s];
        var loaded := old(spaces)[s := sp.(axis := sp.axis[a := LoadedAxis(sp.axis[a], mem, addr)])];
        var changed := OffsetChanged(sp.axis[a].offset, Layout.DecodeAxis(mem, addr).offset);
        && (!changed || old(moving) || !motorsBusy ==>
              && spaces == loaded && settings[..] == old(settings[..]) && moving == old(moving)
              && currentFragment == old(currentFragment) && currentFragmentPos == old(currentFragmentPos)
              && freeFragments == old(freeFragments) && queue == old(queue)
              && cbsAfterCurrentMove == old(cbsAfterCurrentMove) && events == old(events))
        && (changed && !old(moving) && motorsBusy && (old(refilling) || stopping) ==>
              && moving && currentFragmentPos == 0 && cbsAfterCurrentMove == 0
              && spaces == loaded[s := HoldSpace(loaded[s], currentFragment)]
              && settings[..] == old(settings[..])[currentFragment := Held(old(settings[currentFragment]))])
        && (changed && !old(moving) && motorsBusy && !old(refilling) && !stopping ==>
              (freeFragments < fragments ==> |events| > 0 && events[|events| - 1] == MoveStarted))
    {
      var ax := LoadedAxis(spaces[s].axis[a], mem, addr);
      var changed := OffsetChanged(spaces[s].axis[a].offset, ax.offset);
      ghost var spaces0 := spaces;
      spaces := spaces[s := spaces[s].(axis := spaces[s].axis[a := ax])];
      assert SameShape(spaces0[s], spaces[s]);
      assert SameShapes(spaces0, spaces);
      ShapeKeepsOk(spaces0, spaces, fragments, bytes);
      if changed {
        MoveToCurrent(s);
      }
      next := addr + 21;
    }

    /** The part of `move_to_current` before the refill. */
    method HoldCurrent(s: nat)
      requires Valid() && s < |spaces|
      modifies this`spaces, this`currentFragmentPos, this`moving, this`cbsAfterCurrentMove, settings
      ensures Valid() && moving && currentFragmentPos == 0 && cbsAfterCurrentMove == 0
      ensures spaces == old(spaces)[s := HoldSpace(old(spaces)[s], currentFragment)]
      ensures settings[..] == old(settings[..])[currentFragment := Held(old(settings[currentFragment]))]
    {
      settings[currentFragment] := Held(settings[currentFragment]);
      assert settings[..] == old(settings[..])[currentFragment := Held(old(settings[currentFragment]))];
      cbsAfterCurrentMove := 0;
      currentFragmentPos := 0;
      moving := true;
      assert SpaceOk(spaces[s], fragments, bytes);
      var sp := HoldSpaceSlots(spaces[s], currentFragment);
      ghost var spaces0 := spaces;
      spaces := spaces[s := sp];
      ShapeKeepsOk(spaces0, spaces, fragments, bytes);
    }

    /** One round of the loop of `buffer_refill`: the scan of directions, a tick, and
        the send of a full fragment or, once the move has ended, of any samples.  A
        round uses up a free fragment or adds a sample to the current one. */
    method RefillRound()
      requires Valid() && refilling && !stopping && moving && freeFragments > 1 && currentFragmentPos < 2 * bytes
      modifies this`spaces, this`currentFragment, this`currentFragmentPos, this`freeFragments, this`moving, this`refilling,
               this`cbsAfterCurrentMove, this`queue, this`events, settings
      decreases 15
      ensures Valid() && refilling && currentFragmentPos < 2 * bytes
      ensures freeFragments >= 0 && (!moving && currentFragmentPos > 0 ==> freeFragments >= 1)
      ensures freeFragments < old(freeFragments)
        || (freeFragments == old(freeFragments) && currentFragmentPos > old(currentFragmentPos))
    {
      var exhausted := ScanDirections();
      if exhausted {
        // A round starts with at least two free fragments and a scan sends at most
        // one fragment, so the scan never uses up the last free fragment.
        assert false;
      }
      ApplyTick();
      if (!moving && currentFragmentPos > 0) || currentFragmentPos >= 2 * bytes {
        if freeFragments <= Max(0, fragments - minBufferFill) && !stopping {
          events := events + [MoveStarted];
        }
        SendFragment();
      }
    }

    /** `buffer_refill()`: unless already refilling or stopping, ticks are computed and
        packed while a move is in progress and more than one fragment is free.  Each
        round first scans the directions (a reversal sends the fragment), then
        applies a tick; a full fragment, or any
        samples once the move has ended, is sent, with the hardware told to start when
        few enough fragments are free.  After the rounds, a fragment left over from an
        ended move is sent and, if any fragment is in use, the hardware is told to
        start.  A refill already running, or stopping, changes nothing. */
    method BufferRefill()
      requires Valid() && (refilling || stopping || currentFragmentPos < 2 * bytes)
      modifies this`spaces, this`currentFragment, this`currentFragmentPos, this`freeFragments, this`moving, this`refilling,
               this`cbsAfterCurrentMove, this`queue, this`events, settings
      decreases if refilling || stopping then 0 else 20
      ensures Valid() && refilling == old(refilling)
      ensures old(refilling) || stopping ==>
        && spaces == old(spaces) && settings[..] == old(settings[..])
        && currentFragment == old(currentFragment) && currentFragmentPos == old(currentFragmentPos)
        && freeFragments == old(freeFragments) && moving == old(moving) && queue == old(queue)
        && cbsAfterCurrentMove == old(cbsAfterCurrentMove) && events == old(events)
      ensures !old(moving) ==> !moving && queue == old(queue)
      ensures !old(refilling) && !stopping ==>
        && (!moving ==> currentFragmentPos == 0)
        && (freeFragments < fragments ==> |events| > 0 && events[|events| - 1] == MoveStarted)
        && (old(freeFragments) >= 1 ==> freeFragments >= 0)
    {
      if refilling || stopping {
        return;
      }
      refilling := true;
      while moving && !stopping && freeFragments > 1
        invariant Valid() && refilling && !stopping && currentFragmentPos < 2 * bytes
        invariant old(freeFragments) >= 1 ==>
          freeFragments >= 0 && (!moving && currentFragmentPos > 0 ==> freeFragments >= 1)
        invariant !old(moving) ==> !moving && queue == old(queue)
        decreases freeFragments, 2 * bytes - currentFragmentPos
      {
        RefillRound();
      }
      refilling := false;
      if !moving {
        SendFragment();
      }
      if freeFragments < fragments {
        events := events + [MoveStarted];
      }
    }
  }
}
