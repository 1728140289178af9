/** The persisted configuration of axes and motors (`Space::save_axis`,
    `Space::load_axis`, `Space::save_motor`, and the reads of `Space::load_motor`),
    server/cdriver/space.cpp.  Both directions use the same field order, so what is
    saved loads back unchanged. */
module Layout {
  import opened Numeric
  import opened Persist
  import opened Records

  /** The fields of an axis that are saved and loaded. */
  datatype AxisConfig = AxisConfig(offset: Option<real>, park: Float, parkOrder: int, maxV: Float,
                                   min: Float, max: Float)

  /** The fields of a motor that are saved and loaded. */
  datatype MotorConfig = MotorConfig(pins: Pins, stepsPerM: Option<real>, maxSteps: int, homePos: Float,
                                     limitV: Limit, limitA: Limit, homeOrder: int)

  function AxisConfigOf(a: Axis): AxisConfig
  {
    AxisConfig(a.offset, a.park, a.parkOrder, a.maxV, a.min, a.max)
  }

  function MotorConfigOf(m: Motor): MotorConfig
  {
    MotorConfig(m.pins, m.stepsPerM, m.maxSteps, m.homePos, m.limitV, m.limitA, m.homeOrder)
  }

  /** What `save_axis` writes, in order: offset and park position as floats, the park
      order as a byte, then the speed limit and the range as floats. */
  function AxisLayout(c: AxisConfig): seq<Cell>
  {
    [F32(FromOption(c.offset)), F32(c.park), U8(c.parkOrder % 0x100), F32(c.maxV), F32(c.min), F32(c.max)]
  }

  /** The six pin codes as `save_motor` writes them, as 16-bit values. */
  function PinsLayout(p: Pins): seq<Cell>
  {
    [U16(p.step % 0x1_0000), U16(p.dir % 0x1_0000), U16(p.enable % 0x1_0000),
     U16(p.limitMin % 0x1_0000), U16(p.limitMax % 0x1_0000), U16(p.sense % 0x1_0000)]
  }

  /** The rest of what `save_motor` writes: steps per metre, the step limit as a
      byte, home position, velocity and acceleration limits as floats, and the homing
      order as a byte. */
  function MotorTail(c: MotorConfig): seq<Cell>
  {
    [F32(FromOption(c.stepsPerM)), U8(c.maxSteps % 0x100), F32(c.homePos),
     F32(FromLimit(c.limitV)), F32(FromLimit(c.limitA)), U8(c.homeOrder % 0x100)]
  }

  /** What `save_motor` writes, in order: the pins, then the other fields. */
  function MotorLayout(c: MotorConfig): seq<Cell>
  {
    PinsLayout(c.pins) + MotorTail(c)
  }

  /** The values `load_axis` reads from `addr` on, at the offsets `save_axis` uses. */
  function DecodeAxis(mem: Memory, addr: int): AxisConfig
  {
    AxisConfig(ToOption(ReadFloat(mem, addr)), ReadFloat(mem, addr + 4), Read8(mem, addr + 8),
               ReadFloat(mem, addr + 9), ReadFloat(mem, addr + 13), ReadFloat(mem, addr + 17))
  }

  /** The pin codes `load_motor` reads from `addr` on. */
  function DecodePins(mem: Memory, addr: int): Pins
  {
    Pins(Read16(mem, addr), Read16(mem, addr + 2), Read16(mem, addr + 4),
         Read16(mem, addr + 6), Read16(mem, addr + 8), Read16(mem, addr + 10))
  }

  /** The values `load_motor` reads from `addr` on, at the offsets `save_motor` uses. */
  function DecodeMotor(mem: Memory, addr: int): MotorConfig
  {
    MotorConfig(DecodePins(mem, addr), ToOption(ReadFloat(mem, addr + 12)), Read8(mem, addr + 16),
                ReadFloat(mem, addr + 17), ToLimit(ReadFloat(mem, addr + 21)),
                ToLimit(ReadFloat(mem, addr + 25)), Read8(mem, addr + 29))
  }

  /** Values that fit the widths they are written with.  A stored offset or steps per
      metre is NaN or finite. */
  predicate AxisConfigFits(c: AxisConfig)
  {
    0 <= c.parkOrder < 0x100
  }

  predicate MotorConfigFits(c: MotorConfig)
  {
    && 0 <= c.pins.step < 0x1_0000 && 0 <= c.pins.dir < 0x1_0000 && 0 <= c.pins.enable < 0x1_0000
    && 0 <= c.pins.limitMin < 0x1_0000 && 0 <= c.pins.limitMax < 0x1_0000 && 0 <= c.pins.sense < 0x1_0000
    && 0 <= c.maxSteps < 0x100 && 0 <= c.homeOrder < 0x100
  }

  /** `save_axis`: writes the fields one after another and advances the cursor by 21. */
  method SaveAxis(a: Axis, mem: Memory, addr: int) returns (mem': Memory, next: int)
    ensures mem' == Place(mem, addr, AxisLayout(AxisConfigOf(a)))
    ensures next == addr + 21
  {
    ghost var written: seq<Cell> := [];
    mem', next := mem, addr;
    mem', next := WriteFloat(mem', next, FromOption(a.offset));
    PlaceSnoc(mem, addr, written, F32(FromOption(a.offset)));
    written := written + [F32(FromOption(a.offset))];
    mem', next := WriteFloat(mem', next, a.park);
    PlaceSnoc(mem, addr, written, F32(a.park));
    written := written + [F32(a.park)];
    mem', next := Write8(mem', next, a.parkOrder);
    PlaceSnoc(mem, addr, written, U8(a.parkOrder % 0x100));
    written := written + [U8(a.parkOrder % 0x100)];
    mem', next := WriteFloat(mem', next, a.maxV);
    PlaceSnoc(mem, addr, written, F32(a.maxV));
    written := written + [F32(a.maxV)];
    mem', next := WriteFloat(mem', next, a.min);
    PlaceSnoc(mem, addr, written, F32(a.min));
    written := written + [F32(a.min)];
    mem', next := WriteFloat(mem', next, a.max);
    PlaceSnoc(mem, addr, written, F32(a.max));
    written := written + [F32(a.max)];
    assert written == AxisLayout(AxisConfigOf(a));
  }

  /** The first six writes of `save_motor`: the pin codes. */
  method SavePins(p: Pins, mem: Memory, addr: int) returns (mem': Memory, next: int)
    ensures mem' == Place(mem, addr, PinsLayout(p))
    ensures next == addr + 12
  {
    ghost var start, at := mem, addr;
    ghost var written: seq<Cell> := [];
    mem', next := mem, addr;
    mem', next := Write16(mem', next, p.step);
    PlaceSnoc(start, at, written, U16(p.step % 0x1_0000));
    written := written + [U16(p.step % 0x1_0000)];
    mem', next := Write16(mem', next, p.dir);
    PlaceSnoc(start, at, written, U16(p.dir % 0x1_0000));
    written := written + [U16(p.dir % 0x1_0000)];
    mem', next := Write16(mem', next, p.enable);
    PlaceSnoc(start, at, written, U16(p.enable % 0x1_0000));
    written := written + [U16(p.enable % 0x1_0000)];
    mem', next := Write16(mem', next, p.limitMin);
    PlaceSnoc(start, at, written, U16(p.limitMin % 0x1_0000));
    written := written + [U16(p.limitMin % 0x1_0000)];
    mem', next := Write16(mem', next, p.limitMax);
    PlaceSnoc(start, at, written, U16(p.limitMax % 0x1_0000));
    written := written + [U16(p.limitMax % 0x1_0000)];
    mem', next := Write16(mem', next, p.sense);
    PlaceSnoc(start, at, written, U16(p.sense % 0x1_0000));
    written := written + [U16(p.sense % 0x1_0000)];
    assert written == PinsLayout(p);
  }

  /** `save_motor`: writes the pins and then the other fields one after another, and
      advances the cursor by 30. */
  method SaveMotor(m: Motor, mem: Memory, addr: int) returns (mem': Memory, next: int)
    ensures mem' == Place(mem, addr, MotorLayout(MotorConfigOf(m)))
    ensures next == addr + 30
  {
    mem', next := SavePins(m.pins, mem, addr);
    ghost var start, at := mem', next;
    ghost var written: seq<Cell> := [];
    mem', next := WriteFloat(mem', next, FromOption(m.stepsPerM));
    PlaceSnoc(start, at, written, F32(FromOption(m.stepsPerM)));
    written := written + [F32(FromOption(m.stepsPerM))];
    mem', next := Write8(mem', next, m.maxSteps);
    PlaceSnoc(start, at, written, U8(m.maxSteps % 0x100));
    written := written + [U8(m.maxSteps % 0x100)];
    mem', next := WriteFloat(mem', next, m.homePos);
    PlaceSnoc(start, at, written, F32(m.homePos));
    written := written + [F32(m.homePos)];
    mem', next := WriteFloat(mem', next, FromLimit(m.limitV));
    PlaceSnoc(start, at, written, F32(FromLimit(m.limitV)));
    written := written + [F32(FromLimit(m.limitV))];
    mem', next := WriteFloat(mem', next, FromLimit(m.limitA));
    PlaceSnoc(start, at, written, F32(FromLimit(m.limitA)));
    written := written + [F32(FromLimit(m.limitA))];
    mem', next := Write8(mem', next, m.homeOrder);
    PlaceSnoc(start, at, written, U8(m.homeOrder % 0x100));
    written := written + [U8(m.homeOrder % 0x100)];
    assert written == MotorTail(MotorConfigOf(m));
    PlaceAppend(mem, addr, PinsLayout(m.pins), MotorTail(MotorConfigOf(m)));
    PinsSpan(m.pins);
  }

  /** The offsets of a layout's values are the running sums of their widths. */
  lemma {:induction false} Offsets(cells: seq<Cell>, n: nat)
    requires n <= |cells|
    ensures Span(cells[..n]) == if n == 0 then 0 else Span(cells[..n - 1]) + Width(cells[n - 1])
  {
    if n == 0 {
      assert cells[..0] == [];
    } else {
      SpanPrefix(cells, n - 1);
    }
  }

  /** What `save_axis` wrote, `load_axis` reads back. */
  lemma AxisRoundTrip(mem: Memory, addr: int, c: AxisConfig)
    requires AxisConfigFits(c)
    ensures DecodeAxis(Place(mem, addr, AxisLayout(c)), addr) == c
  {
    var cells := AxisLayout(c);
    Offsets(cells, 0);
    Offsets(cells, 1);
    Offsets(cells, 2);
    Offsets(cells, 3);
    Offsets(cells, 4);
    Offsets(cells, 5);
    PlaceFinds(mem, addr, cells, 0);
    PlaceFinds(mem, addr, cells, 1);
    PlaceFinds(mem, addr, cells, 2);
    PlaceFinds(mem, addr, cells, 3);
    PlaceFinds(mem, addr, cells, 4);
    PlaceFinds(mem, addr, cells, 5);
    OptionRoundTrip(c.offset);
  }

  /** The pin codes `save_motor` wrote are read back unchanged. */
  lemma PinsRoundTrip(mem: Memory, addr: int, p: Pins)
    requires 0 <= p.step < 0x1_0000 && 0 <= p.dir < 0x1_0000 && 0 <= p.enable < 0x1_0000
    requires 0 <= p.limitMin < 0x1_0000 && 0 <= p.limitMax < 0x1_0000 && 0 <= p.sense < 0x1_0000
    ensures DecodePins(Place(mem, addr, PinsLayout(p)), addr) == p
  {
    var cells := PinsLayout(p);
    Offsets(cells, 0);
    Offsets(cells, 1);
    Offsets(cells, 2);
    Offsets(cells, 3);
    Offsets(cells, 4);
    Offsets(cells, 5);
    Offsets(cells, 6);
    PlaceFinds(mem, addr, cells, 0);
    PlaceFinds(mem, addr, cells, 1);
    PlaceFinds(mem, addr, cells, 2);
    PlaceFinds(mem, addr, cells, 3);
    PlaceFinds(mem, addr, cells, 4);
    PlaceFinds(mem, addr, cells, 5);
  }

  /** The pins take 12 bytes. */
  lemma PinsSpan(p: Pins)
    ensures Span(PinsLayout(p)) == 12
  {
    var cells := PinsLayout(p);
    Offsets(cells, 0);
    Offsets(cells, 1);
    Offsets(cells, 2);
    Offsets(cells, 3);
    Offsets(cells, 4);
    Offsets(cells, 5);
    Offsets(cells, 6);
    assert cells[..6] == cells;
  }

  /** The fields after the pins are read back unchanged from 12 bytes on. */
  lemma TailRoundTrip(mem: Memory, addr: int, c: MotorConfig)
    requires 0 <= c.maxSteps < 0x100 && 0 <= c.homeOrder < 0x100
    ensures DecodeMotor(Place(mem, addr + 12, MotorTail(c)), addr).(pins := c.pins) == c
  {
    var cells := MotorTail(c);
    Offsets(cells, 0);
    Offsets(cells, 1);
    Offsets(cells, 2);
    Offsets(cells, 3);
    Offsets(cells, 4);
    Offsets(cells, 5);
    PlaceFinds(mem, addr + 12, cells, 0);
    PlaceFinds(mem, addr + 12, cells, 1);
    PlaceFinds(mem, addr + 12, cells, 2);
    PlaceFinds(mem, addr + 12, cells, 3);
    PlaceFinds(mem, addr + 12, cells, 4);
    PlaceFinds(mem, addr + 12, cells, 5);
    OptionRoundTrip(c.stepsPerM);
    LimitRoundTrip(c.limitV);
    LimitRoundTrip(c.limitA);
  }

  /** Writing from 12 bytes on leaves the pin codes in front of it as they were. */
  lemma TailKeepsPins(mem: Memory, addr: int, cells: seq<Cell>)
    ensures DecodePins(Place(mem, addr + 12, cells), addr) == DecodePins(mem, addr)
  {
    PlaceKeepsBelow(mem, addr + 12, cells, addr);
    PlaceKeepsBelow(mem, addr + 12, cells, addr + 2);
    PlaceKeepsBelow(mem, addr + 12, cells, addr + 4);
    PlaceKeepsBelow(mem, addr + 12, cells, addr + 6);
    PlaceKeepsBelow(mem, addr + 12, cells, addr + 8);
    PlaceKeepsBelow(mem, addr + 12, cells, addr + 10);
  }

  /** What `save_motor` wrote, `load_motor` reads back, field by field. */
  lemma MotorRoundTrip(mem: Memory, addr: int, c: MotorConfig)
    requires MotorConfigFits(c)
    ensures DecodeMotor(Place(mem, addr, MotorLayout(c)), addr) == c
  {
    var pinned := Place(mem, addr, PinsLayout(c.pins));
    PinsRoundTrip(mem, addr, c.pins);
    PinsSpan(c.pins);
    PlaceAppend(mem, addr, PinsLayout(c.pins), MotorTail(c));
    TailKeepsPins(pinned, addr, MotorTail(c));
    TailRoundTrip(pinned, addr, c);
  }

  // savesize_std

  /** What is saved of a space besides its type byte and the data of its type: the
      maximum deviation as a float (`save_info`), then every axis as `save_axis`
      writes it, then every motor as `save_motor` writes it. */
  function StdLayout(sp: Space): seq<Cell>
  {
    [F32(Finite(sp.maxDeviation))] + AxesLayout(sp.axis) + MotorsLayout(sp.motor)
  }

  function AxesLayout(axes: seq<Axis>): seq<Cell>
  {
    if axes == [] then [] else AxesLayout(axes[..|axes| - 1]) + AxisLayout(AxisConfigOf(axes[|axes| - 1]))
  }

  function MotorsLayout(motors: seq<Motor>): seq<Cell>
  {
    if motors == [] then []
    else MotorsLayout(motors[..|motors| - 1]) + MotorLayout(MotorConfigOf(motors[|motors| - 1]))
  }

  /** `Space::savesize_std` as written: per motor six 16-bit pins, six floats and two
      bytes, and four bytes each for one float and for three floats per axis and
      per motor. */
  function SaveSizeStd(sp: Space): int
  {
    (2 * 6 + 4 * 6 + 1 * 2) * |sp.motor| + 4 * (1 + 3 * |sp.axis| + 3 * |sp.motor|)
  }

  /** The size of the standard data as the saves write it: 4 bytes for the maximum
      deviation, 21 per axis and 30 per motor. */
  function SaveSizeSaved(sp: Space): nat
  {
    4 + 21 * |sp.axis| + 30 * |sp.motor|
  }

  /** An axis takes 21 bytes and a motor 30. */
  lemma AxisSpan(c: AxisConfig)
    ensures Span(AxisLayout(c)) == 21
  {
    SpanSix(AxisLayout(c));
  }

  lemma MotorSpan(c: MotorConfig)
    ensures Span(MotorLayout(c)) == 30
  {
    SpanSix(PinsLayout(c.pins));
    SpanSix(MotorTail(c));
    PlaceAppend(map[], 0, PinsLayout(c.pins), MotorTail(c));
  }

  /** Six values take the sum of their widths. */
  lemma SpanSix(cells: seq<Cell>)
    requires |cells| == 6
    ensures Span(cells) == Width(cells[0]) + Width(cells[1]) + Width(cells[2]) + Width(cells[3])
                           + Width(cells[4]) + Width(cells[5])
  {
    var rest := cells[1..];
    assert Span(rest) == Width(cells[1]) + Span(rest[1..]);
    assert Span(rest[1..]) == Width(cells[2]) + Span(rest[1..][1..]);
    assert Span(rest[1..][1..]) == Width(cells[3]) + Span(rest[1..][1..][1..]);
    assert Span(rest[1..][1..][1..]) == Width(cells[4]) + Span(rest[1..][1..][1..][1..]);
    assert Span(rest[1..][1..][1..][1..]) == Width(cells[5]) + Span(rest[1..][1..][1..][1..][1..]);
    assert rest[1..][1..][1..][1..][1..] == [];
  }

  lemma {:induction false} AxesSpan(axes: seq<Axis>)
    ensures Span(AxesLayout(axes)) == 21 * |axes|
  {
    if axes != [] {
      var n := |axes| - 1;
      AxesSpan(axes[..n]);
      AxisSpan(AxisConfigOf(axes[n]));
      PlaceAppend(map[], 0, AxesLayout(axes[..n]), AxisLayout(AxisConfigOf(axes[n])));
    }
  }

  lemma {:induction false} MotorsSpan(motors: seq<Motor>)
    ensures Span(MotorsLayout(motors)) == 30 * |motors|
  {
    if motors != [] {
      var n := |motors| - 1;
      MotorsSpan(motors[..n]);
      MotorSpan(MotorConfigOf(motors[n]));
      PlaceAppend(map[], 0, MotorsLayout(motors[..n]), MotorLayout(MotorConfigOf(motors[n])));
    }
  }

  /** The corrected size counts exactly the bytes the saves write. */
  lemma SaveSizeSavedCounts(sp: Space)
    ensures Span(StdLayout(sp)) == SaveSizeSaved(sp)
  {
    var head: seq<Cell> := [F32(Finite(sp.maxDeviation))];
    assert head[1..] == [];
    AxesSpan(sp.axis);
    MotorsSpan(sp.motor);
    PlaceAppend(map[], 0, head, AxesLayout(sp.axis));
    PlaceAppend(map[], 0, head + AxesLayout(sp.axis), MotorsLayout(sp.motor));
  }

  /** `savesize_std` as written counts 12 bytes per axis where 21 are written and 50
      per motor where 30 are: it is short of the bytes written exactly when a space
      has more than 20/9 axes per motor. */
  lemma SaveSizeStdMiscounts(sp: Space)
    ensures SaveSizeStd(sp) - Span(StdLayout(sp)) == 20 * |sp.motor| - 9 * |sp.axis|
    ensures SaveSizeStd(sp) < Span(StdLayout(sp)) <==> 9 * |sp.axis| > 20 * |sp.motor|
  {
    SaveSizeSavedCounts(sp);
  }

  /** A space with three axes and one motor writes 97 bytes of standard data, and
      `savesize_std` reserves 90 for them. */
  lemma ThreeAxesOneMotorShort(sp: Space)
    requires |sp.axis| == 3 && |sp.motor| == 1
    ensures SaveSizeStd(sp) == 90 && Span(StdLayout(sp)) == 97
  {
    SaveSizeSavedCounts(sp);
  }
}
