/** Number representations shared by the host driver and the firmware settings.

    The driver computes in single-precision floats and uses NaN as the marker for
    "no value" (an axis that does not take part in a move, a position that is not
    known).  Here a float that may be NaN is an `Option<real>`; a float that is only
    stored and loaded is a `Float`, which keeps NaN and the two infinities apart. */
module Numeric {

  /** `None` stands for a NaN float. */
  datatype Option<+T> = None | Some(value: T)

  /** A velocity or acceleration limit of a motor.  INFINITY and NaN both mean that
      no comparison with the limit is ever true, so both are `Unlimited`. */
  datatype Limit = Unlimited | Bounded(value: real)

  /** A float as it is persisted: NaN, a finite value or an infinity. */
  datatype Float = NaN | Finite(value: real) | PosInf | NegInf

  /** NaN-propagating addition. */
  function Add(a: Option<real>, b: Option<real>): (r: Option<real>)
    ensures r.Some? <==> a.Some? && b.Some?
    ensures r.Some? ==> r.value - b.value == a.value
  {
    if a.Some? && b.Some? then Some(a.value + b.value) else None
  }

  /** NaN-propagating subtraction. */
  function Sub(a: Option<real>, b: Option<real>): (r: Option<real>)
    ensures r.Some? <==> a.Some? && b.Some?
    ensures r.Some? ==> r.value + b.value == a.value
  {
    if a.Some? && b.Some? then Some(a.value - b.value) else None
  }

  /** NaN-propagating scaling by a real. */
  function Scale(a: Option<real>, k: real): (r: Option<real>)
    ensures r.Some? <==> a.Some?
  {
    if a.Some? then Some(a.value * k) else None
  }

  /** The float comparison `a != b`, which is true whenever either side is NaN. */
  predicate Differs(a: Option<real>, b: Option<real>)
  {
    a.None? || b.None? || a.value != b.value
  }

  /** `x == 0` on a float that may be NaN; NaN is never 0. */
  predicate IsZero(a: Option<real>)
  {
    a.Some? && a.value == 0.0
  }

  /** C's conversion of a float to an integer: truncation toward zero. */
  function Trunc(x: real): (r: int)
    ensures 0.0 <= x ==> 0 <= r && r as real <= x < r as real + 1.0
    ensures x < 0.0 ==> r <= 0 && r as real - 1.0 < x <= r as real
  {
    if x >= 0.0 then x.Floor else -((-x).Floor)
  }

  /** `int(x + (x > 0 ? .49 : -.49))`, the rounding the driver applies to a motor
      position in steps.  The result is within about half a step of `x` and keeps
      its sign. */
  function RoundSteps(x: real): (r: int)
    ensures 0.0 < x ==> 0 <= r && -0.51 < r as real - x <= 0.49
    ensures x <= 0.0 ==> r <= 0 && -0.49 <= r as real - x < 0.51
  {
    if x > 0.0 then Trunc(x + 0.49) else Trunc(x - 0.49)
  }

  /** The sign the driver takes for a velocity: `v < 0 ? -1 : 1`. */
  function Sign(x: real): (s: int)
    ensures s == -1 || s == 1
    ensures s as real * x >= 0.0
  {
    if x < 0.0 then -1 else 1
  }

  function Abs(x: real): (r: real)
    ensures r >= 0.0 && (r == x || r == -x)
  {
    if x < 0.0 then -x else x
  }

  function Min(a: int, b: int): (r: int)
    ensures r <= a && r <= b && (r == a || r == b)
  {
    if a < b then a else b
  }

  /** Float conversions used by the persisted layouts.  A value that the model keeps
      as `Option<real>` is stored as NaN or a finite float; reading back an infinity
      into such a field yields NaN. */
  function FromOption(a: Option<real>): Float
  {
    if a.Some? then Finite(a.value) else NaN
  }

  function ToOption(f: Float): (r: Option<real>)
    ensures r.Some? <==> f.Finite?
  {
    if f.Finite? then Some(f.value) else None
  }

  /** A limit is stored as INFINITY when it is unlimited. */
  function FromLimit(l: Limit): Float
  {
    if l.Bounded? then Finite(l.value) else PosInf
  }

  /** Reading a limit back: NaN and INFINITY clamp nothing; negative infinity is
      outside the model and is read as unlimited too. */
  function ToLimit(f: Float): (l: Limit)
    ensures l.Bounded? <==> f.Finite?
  {
    if f.Finite? then Bounded(f.value) else Unlimited
  }

  lemma OptionRoundTrip(a: Option<real>)
    ensures ToOption(FromOption(a)) == a
  {
  }

  lemma LimitRoundTrip(l: Limit)
    ensures ToLimit(FromLimit(l)) == l
  {
  }
}
