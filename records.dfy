/** The records of the host-side step generator (server/cdriver/space.cpp): spaces
    with their axes and motors, each axis and motor carrying one history slot per
    fragment of the ring buffer, and the per-fragment global settings. */
module Records {
  import opened Numeric

  /** One fragment's state of an axis (`Axis_History`). */
  datatype AxisSlot = AxisSlot(dist: Option<real>, nextDist: Option<real>, mainDist: Option<real>,
                               target: Option<real>)

  /** A motor's step direction: `reset_dirs`, `buffer_refill` and the copy between
      fragments only ever store -1, 0 or 1 in it. */
  type Direction = d: int | -1 <= d <= 1

  /** One fragment's state of a motor (`Motor_History`): the step direction, the packed
      step counts of the fragment, velocities and distances of the current tick, and
      the position in steps as computed (`currentPos`) and as sent (`hwcurrentPos`). */
  datatype MotorSlot = MotorSlot(dir: Direction, data: seq<bv8>, lastV: Option<real>, targetV: Option<real>,
                                 targetDist: Option<real>, currentPos: int, hwcurrentPos: int,
                                 endpos: Option<real>)

  datatype Axis = Axis(source: Option<real>, current: Option<real>, offset: Option<real>,
                       park: Float, parkOrder: int, maxV: Float, min: Float, max: Float,
                       settings: seq<AxisSlot>)

  /** The six pins of a motor, as their 16-bit codes. */
  datatype Pins = Pins(step: int, dir: int, enable: int, limitMin: int, limitMax: int, sense: int)

  datatype Motor = Motor(pins: Pins, senseState: int, sensePos: Option<real>, stepsPerM: Option<real>,
                         maxSteps: int, limitV: Limit, limitA: Limit, homePos: Float, homeOrder: int,
                         settings: seq<MotorSlot>)

  /** A space: its type, id and maximum deviation, and its axes and motors; the
      number of axes and motors is the length of these sequences. */
  datatype Space = Space(spaceType: int, id: int, maxDeviation: real, axis: seq<Axis>, motor: seq<Motor>)

  /** The global settings of one fragment (`settings[fragment]`): the timing of the
      current segment, the fragment's length and active motors, callbacks due, and
      the clock values in microseconds. */
  datatype Fragment = Fragment(t0: real, tp: real, f0: real, f1: real, f2: real, fp: real, fq: real,
                               fmain: real, fragmentLength: int, numActiveMotors: int, cbs: int,
                               hwtime: int, startTime: real, lastTime: int, lastCurrentTime: int)

  /** The code a pin has before it is configured.  `Pin_t::init` is not part of this
      model; an unconfigured pin is taken to be code 0. */
  const UNSET_PIN: int := 0

  /** The history slot of a freshly created axis: every distance and the target NaN. */
  function NewAxisSlot(): AxisSlot
  {
    AxisSlot(None, None, None, None)
  }

  /** The history slot of a freshly created motor: no direction, zeroed step data,
      position 0, and NaN velocities, distance and end position. */
  function NewMotorSlot(bytes: nat): (slot: MotorSlot)
    ensures |slot.data| == bytes && forall i :: 0 <= i < bytes ==> slot.data[i] == 0
  {
    MotorSlot(0, seq(bytes, _ => 0), None, None, None, 0, 0, None)
  }

  predicate AxisOk(a: Axis, fragments: nat)
  {
    |a.settings| == fragments
  }

  predicate MotorOk(m: Motor, fragments: nat, bytes: nat)
  {
    |m.settings| == fragments && forall f :: 0 <= f < fragments ==> |m.settings[f].data| == bytes
  }

  /** Every axis and motor of the space has one slot per fragment, and every motor
      slot holds `bytes` bytes of step data. */
  predicate SpaceOk(sp: Space, fragments: nat, bytes: nat)
  {
    && (forall a :: 0 <= a < |sp.axis| ==> AxisOk(sp.axis[a], fragments))
    && (forall m :: 0 <= m < |sp.motor| ==> MotorOk(sp.motor[m], fragments, bytes))
  }

  predicate SpacesOk(spaces: seq<Space>, fragments: nat, bytes: nat)
  {
    forall s :: 0 <= s < |spaces| ==> SpaceOk(spaces[s], fragments, bytes)
  }
}
