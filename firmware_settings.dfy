/** The firmware's persisted settings (firmware/settings.cpp): the build limits it
    reports, and the variables it saves and loads through a cursor, with the range
    checks applied after loading. */
module FirmwareSettings {
  import opened Numeric
  import opened Persist

  /** MAXAXES, MAXEXTRUDERS and MAXTEMPS of the firmware build. */
  datatype Constants = Constants(maxAxes: int, maxExtruders: int, maxTemps: int)

  /** The variables as they are stored: counts and pin as 8-bit values, the room
      temperature in kelvin, the two limits as 32-bit values. */
  datatype Stored = Stored(numAxes: int, numExtruders: int, numTemps: int, ledPin: int,
                           roomT: Float, motorLimit: int, tempLimit: int)

  /** 0 degrees Celsius in kelvin; the medium holds the room temperature in Celsius. */
  const KELVIN: real := 273.15

  /** `x + d` on a float: NaN and the infinities are left as they are. */
  function Shift(f: Float, d: real): (r: Float)
    ensures r.Finite? <==> f.Finite?
    ensures !f.Finite? ==> r == f
    ensures r.Finite? ==> r.value - d == f.value
  {
    if f.Finite? then Finite(f.value + d) else f
  }

  /** The values fit the widths they are written with. */
  predicate InRange(s: Stored)
  {
    && 0 <= s.numAxes < 0x100 && 0 <= s.numExtruders < 0x100 && 0 <= s.numTemps < 0x100
    && 0 <= s.ledPin < 0x100
    && 0 <= s.motorLimit < 0x1_0000_0000 && 0 <= s.tempLimit < 0x1_0000_0000
  }

  /** What `Constants::save` writes, in order. */
  function ConstantsLayout(k: Constants): seq<Cell>
  {
    [U8(k.maxAxes % 0x100), U8(k.maxExtruders % 0x100), U8(k.maxTemps % 0x100)]
  }

  /** What `Variables::save` writes, in order: three counts and the LED pin as bytes,
      the room temperature in Celsius as a float, then the two limits as 32-bit
      values. */
  function Layout(s: Stored): seq<Cell>
  {
    [U8(s.numAxes % 0x100), U8(s.numExtruders % 0x100), U8(s.numTemps % 0x100),
     U8(s.ledPin % 0x100), F32(Shift(s.roomT, -KELVIN)),
     U32(s.motorLimit % 0x1_0000_0000), U32(s.tempLimit % 0x1_0000_0000)]
  }

  /** The values `Variables::load` reads from `addr` on, before its range checks:
      bytes at offsets 0 to 3, the float at 4 (converted back to kelvin), the 32-bit
      values at 8 and 12. */
  function Decode(mem: Memory, addr: int): (s: Stored)
    ensures InRange(s)
  {
    Stored(Read8(mem, addr), Read8(mem, addr + 1), Read8(mem, addr + 2), Read8(mem, addr + 3),
           Shift(ReadFloat(mem, addr + 4), KELVIN), Read32(mem, addr + 8), Read32(mem, addr + 12))
  }

  /** The range checks of `Variables::load`: a count above its build limit means the
      medium was never written, and the count falls back to its default (3 axes, 1
      extruder, 1 temperature).  Everything else is kept. */
  function Checked(s: Stored, k: Constants): (r: Stored)
    ensures s.numAxes <= k.maxAxes ==> r.numAxes == s.numAxes
    ensures s.numAxes > k.maxAxes ==> r.numAxes == 3
    ensures s.numExtruders <= k.maxExtruders ==> r.numExtruders == s.numExtruders
    ensures s.numExtruders > k.maxExtruders ==> r.numExtruders == 1
    ensures s.numTemps <= k.maxTemps ==> r.numTemps == s.numTemps
    ensures s.numTemps > k.maxTemps ==> r.numTemps == 1
    ensures r.(numAxes := s.numAxes, numExtruders := s.numExtruders, numTemps := s.numTemps) == s
  {
    s.(numAxes := if s.numAxes > k.maxAxes then 3 else s.numAxes,
       numExtruders := if s.numExtruders > k.maxExtruders then 1 else s.numExtruders,
       numTemps := if s.numTemps > k.maxTemps then 1 else s.numTemps)
  }

  /** `Constants::save`: the three build limits, one byte each. */
  method SaveConstants(k: Constants, mem: Memory, addr: int) returns (mem': Memory, next: int)
    ensures mem' == Place(mem, addr, ConstantsLayout(k))
    ensures next == addr + 3
  {
    ghost var written: seq<Cell> := [];
    mem', next := mem, addr;
    mem', next := Write8(mem', next, k.maxAxes);
    PlaceSnoc(mem, addr, written, U8(k.maxAxes % 0x100));
    written := written + [U8(k.maxAxes % 0x100)];
    mem', next := Write8(mem', next, k.maxExtruders);
    PlaceSnoc(mem, addr, written, U8(k.maxExtruders % 0x100));
    written := written + [U8(k.maxExtruders % 0x100)];
    mem', next := Write8(mem', next, k.maxTemps);
    PlaceSnoc(mem, addr, written, U8(k.maxTemps % 0x100));
    written := written + [U8(k.maxTemps % 0x100)];
    assert written == ConstantsLayout(k);
  }

  /** The three build limits read back from where `SaveConstants` put them are the
      limits themselves, in the order MAXAXES, MAXEXTRUDERS, MAXTEMPS. */
  lemma ConstantsReadBack(mem: Memory, addr: int, k: Constants)
    requires 0 <= k.maxAxes < 0x100 && 0 <= k.maxExtruders < 0x100 && 0 <= k.maxTemps < 0x100
    ensures Read8(Place(mem, addr, ConstantsLayout(k)), addr) == k.maxAxes
    ensures Read8(Place(mem, addr, ConstantsLayout(k)), addr + 1) == k.maxExtruders
    ensures Read8(Place(mem, addr, ConstantsLayout(k)), addr + 2) == k.maxTemps
  {
    var cells := ConstantsLayout(k);
    assert Span(cells[..0]) == 0;
    SpanPrefix(cells, 0);
    SpanPrefix(cells, 1);
    PlaceFinds(mem, addr, cells, 0);
    PlaceFinds(mem, addr, cells, 1);
    PlaceFinds(mem, addr, cells, 2);
  }

  /** Decoding what `Layout` wrote gives back values that fit their widths unchanged. */
  lemma DecodeLayout(mem: Memory, addr: int, s: Stored)
    requires InRange(s)
    ensures Decode(Place(mem, addr, Layout(s)), addr) == s
  {
    var cells := Layout(s);
    var m := Place(mem, addr, cells);
    assert Span(cells[..0]) == 0;
    SpanPrefix(cells, 0);
    SpanPrefix(cells, 1);
    SpanPrefix(cells, 2);
    SpanPrefix(cells, 3);
    SpanPrefix(cells, 4);
    SpanPrefix(cells, 5);
    PlaceFinds(mem, addr, cells, 0);
    PlaceFinds(mem, addr, cells, 1);
    PlaceFinds(mem, addr, cells, 2);
    PlaceFinds(mem, addr, cells, 3);
    PlaceFinds(mem, addr, cells, 4);
    PlaceFinds(mem, addr, cells, 5);
    PlaceFinds(mem, addr, cells, 6);
  }

  /** Saving and loading again restores every variable that passes the range checks;
      loaded counts never exceed their limits when the defaults fit the build. */
  lemma SaveThenLoad(mem: Memory, addr: int, s: Stored, k: Constants)
    requires InRange(s)
    requires s.numAxes <= k.maxAxes && s.numExtruders <= k.maxExtruders && s.numTemps <= k.maxTemps
    ensures Checked(Decode(Place(mem, addr, Layout(s)), addr), k) == s
  {
    DecodeLayout(mem, addr, s);
  }

  /** Whatever the medium holds, the loaded counts are within the build limits,
      provided the defaults themselves are. */
  lemma LoadedWithinLimits(mem: Memory, addr: int, k: Constants)
    requires k.maxAxes >= 3 && k.maxExtruders >= 1 && k.maxTemps >= 1
    ensures Checked(Decode(mem, addr), k).numAxes <= k.maxAxes
    ensures Checked(Decode(mem, addr), k).numExtruders <= k.maxExtruders
    ensures Checked(Decode(mem, addr), k).numTemps <= k.maxTemps
  {
  }

  /** A never-written (erased) medium loads the defaults: every byte reads 0xff,
      which exceeds any limit below 255. */
  lemma ErasedLoadsDefaults(addr: int, k: Constants)
    requires k.maxAxes < 0xff && k.maxExtruders < 0xff && k.maxTemps < 0xff
    ensures Checked(Decode(map[], addr), k).numAxes == 3
    ensures Checked(Decode(map[], addr), k).numExtruders == 1
    ensures Checked(Decode(map[], addr), k).numTemps == 1
    ensures Checked(Decode(map[], addr), k).roomT == NaN
  {
  }

  /** The firmware's variables, updated in place by `Load`. */
  class Variables {
    var numAxes: int
    var numExtruders: int
    var numTemps: int
    var ledPin: int
    var roomT: Float
    var motorLimit: int
    var tempLimit: int

    function Snapshot(): Stored
      reads this
    {
      Stored(numAxes, numExtruders, numTemps, ledPin, roomT, motorLimit, tempLimit)
    }

    /** `Variables::load`: reads the fields in the order `Save` writes them, then
        replaces counts above their limits by the defaults. */
    method Load(mem: Memory, addr: int, k: Constants) returns (next: int)
      modifies this
      ensures Snapshot() == Checked(Decode(mem, addr), k)
      ensures next == addr + 16
    {
      next := addr;
      numAxes := Read8(mem, next);
      next := next + 1;
      numExtruders := Read8(mem, next);
      next := next + 1;
      numTemps := Read8(mem, next);
      next := next + 1;
      ledPin := Read8(mem, next);
      next := next + 1;
      roomT := Shift(ReadFloat(mem, next), KELVIN);
      next := next + 4;
      motorLimit := Read32(mem, next);
      next := next + 4;
      tempLimit := Read32(mem, next);
      next := next + 4;
      if numAxes > k.maxAxes {
        numAxes := 3;
      }
      if numExtruders > k.maxExtruders {
        numExtruders := 1;
      }
      if numTemps > k.maxTemps {
        numTemps := 1;
      }
    }

    /** `Variables::save`: writes the fields one after another; the variables
        themselves do not change. */
    method Save(mem: Memory, addr: int) returns (mem': Memory, next: int)
      ensures mem' == Place(mem, addr, Layout(Snapshot()))
      ensures next == addr + 16
    {
      ghost var written: seq<Cell> := [];
      mem', next := mem, addr;
      mem', next := Write8(mem', next, numAxes);
      PlaceSnoc(mem, addr, written, U8(numAxes % 0x100));
      written := written + [U8(numAxes % 0x100)];
      mem', next := Write8(mem', next, numExtruders);
      PlaceSnoc(mem, addr, written, U8(numExtruders % 0x100));
      written := written + [U8(numExtruders % 0x100)];
      mem', next := Write8(mem', next, numTemps);
      PlaceSnoc(mem, addr, written, U8(numTemps % 0x100));
      written := written + [U8(numTemps % 0x100)];
      mem', next := Write8(mem', next, ledPin);
      PlaceSnoc(mem, addr, written, U8(ledPin % 0x100));
      written := written + [U8(ledPin % 0x100)];
      mem', next := WriteFloat(mem', next, Shift(roomT, -KELVIN));
      PlaceSnoc(mem, addr, written, F32(Shift(roomT, -KELVIN)));
      written := written + [F32(Shift(roomT, -KELVIN))];
      mem', next := Write32(mem', next, motorLimit);
      PlaceSnoc(mem, addr, written, U32(motorLimit % 0x1_0000_0000));
      written := written + [U32(motorLimit % 0x1_0000_0000)];
      mem', next := Write32(mem', next, tempLimit);
      PlaceSnoc(mem, addr, written, U32(tempLimit % 0x1_0000_0000));
      written := written + [U32(tempLimit % 0x1_0000_0000)];
      assert written == Layout(Snapshot());
    }
  }
}
