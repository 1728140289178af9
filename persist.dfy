/** The persisted-settings medium seen through `read_8/16/32/float` and
    `write_8/16/32/float`: a cursor `addr` into an address space that each access
    advances by the width of the value (1, 2, 4 and 4 bytes).  The medium is a map
    from the address where a value starts to the value stored there. */
module Persist {
  import opened Numeric

  datatype Cell = U8(b: int) | U16(w: int) | U32(d: int) | F32(f: Float)

  /** Bytes a value occupies, by which the cursor advances. */
  function Width(c: Cell): (n: nat)
    ensures 1 <= n <= 4
  {
    match c
    case U8(_) => 1
    case U16(_) => 2
    case U32(_) => 4
    case F32(_) => 4
  }

  type Memory = map<int, Cell>

  /** Total width of a sequence of values written one after another. */
  function Span(cells: seq<Cell>): (n: nat)
    ensures n >= |cells|
  {
    if cells == [] then 0 else Width(cells[0]) + Span(cells[1..])
  }

  /** The medium after writing `cells` one after another from `addr` on. */
  function Place(mem: Memory, addr: int, cells: seq<Cell>): Memory
    decreases |cells|
  {
    if cells == [] then mem else Place(mem[addr := cells[0]], addr + Width(cells[0]), cells[1..])
  }

  /** Writes: each stores the value truncated to its width and advances the cursor. */
  method Write8(mem: Memory, addr: int, v: int) returns (mem': Memory, next: int)
    ensures mem' == mem[addr := U8(v % 0x100)] && next == addr + 1
  {
    mem' := mem[addr := U8(v % 0x100)];
    next := addr + 1;
  }

  method Write16(mem: Memory, addr: int, v: int) returns (mem': Memory, next: int)
    ensures mem' == mem[addr := U16(v % 0x1_0000)] && next == addr + 2
  {
    mem' := mem[addr := U16(v % 0x1_0000)];
    next := addr + 2;
  }

  method Write32(mem: Memory, addr: int, v: int) returns (mem': Memory, next: int)
    ensures mem' == mem[addr := U32(v % 0x1_0000_0000)] && next == addr + 4
  {
    mem' := mem[addr := U32(v % 0x1_0000_0000)];
    next := addr + 4;
  }

  method WriteFloat(mem: Memory, addr: int, f: Float) returns (mem': Memory, next: int)
    ensures mem' == mem[addr := F32(f)] && next == addr + 4
  {
    mem' := mem[addr := F32(f)];
    next := addr + 4;
  }

  /** Reads.  Where nothing of the right width was written the medium is erased and
      every bit reads as 1: 0xff, 0xffff, 0xffffffff, and a NaN float. */
  function Read8(mem: Memory, addr: int): (r: int)
    ensures 0 <= r < 0x100
  {
    if addr in mem && mem[addr].U8? then mem[addr].b % 0x100 else 0xff
  }

  function Read16(mem: Memory, addr: int): (r: int)
    ensures 0 <= r < 0x1_0000
  {
    if addr in mem && mem[addr].U16? then mem[addr].w % 0x1_0000 else 0xffff
  }

  function Read32(mem: Memory, addr: int): (r: int)
    ensures 0 <= r < 0x1_0000_0000
  {
    if addr in mem && mem[addr].U32? then mem[addr].d % 0x1_0000_0000 else 0xffff_ffff
  }

  function ReadFloat(mem: Memory, addr: int): Float
  {
    if addr in mem && mem[addr].F32? then mem[addr].f else NaN
  }

  /** Writing from `addr` on leaves every address below `addr` as it was. */
  lemma {:induction false} PlaceKeepsBelow(mem: Memory, addr: int, cells: seq<Cell>, k: int)
    requires k < addr
    decreases |cells|
    ensures k in Place(mem, addr, cells) <==> k in mem
    ensures k in mem ==> Place(mem, addr, cells)[k] == mem[k]
  {
    if cells != [] {
      PlaceKeepsBelow(mem[addr := cells[0]], addr + Width(cells[0]), cells[1..], k);
    }
  }

  /** The `i`-th value written is found at its offset: the sum of the widths of the
      values before it. */
  lemma {:induction false} PlaceFinds(mem: Memory, addr: int, cells: seq<Cell>, i: nat)
    requires i < |cells|
    decreases |cells|
    ensures addr + Span(cells[..i]) in Place(mem, addr, cells)
    ensures Place(mem, addr, cells)[addr + Span(cells[..i])] == cells[i]
  {
    if i == 0 {
      assert cells[..0] == [];
      PlaceKeepsBelow(mem[addr := cells[0]], addr + Width(cells[0]), cells[1..], addr);
    } else {
      PlaceFinds(mem[addr := cells[0]], addr + Width(cells[0]), cells[1..], i - 1);
      assert cells[..i][1..] == cells[1..][..i - 1];
    }
  }

  /** Writing one more value extends the medium by that value at the end of what was
      written before. */
  lemma {:induction false} PlaceSnoc(mem: Memory, addr: int, cells: seq<Cell>, c: Cell)
    decreases |cells|
    ensures Place(mem, addr, cells + [c]) == Place(mem, addr, cells)[addr + Span(cells) := c]
    ensures Span(cells + [c]) == Span(cells) + Width(c)
  {
    if cells == [] {
      assert [c][1..] == [];
    } else {
      assert (cells + [c])[1..] == cells[1..] + [c];
      PlaceSnoc(mem[addr := cells[0]], addr + Width(cells[0]), cells[1..], c);
    }
  }

  /** The offset of the value after the `i`-th is the `i`-th's offset plus its width. */
  lemma SpanPrefix(cells: seq<Cell>, i: nat)
    requires i < |cells|
    ensures Span(cells[..i + 1]) == Span(cells[..i]) + Width(cells[i])
  {
    assert cells[..i + 1] == cells[..i] + [cells[i]];
    PlaceSnoc(map[], 0, cells[..i], cells[i]);
  }

  /** Writing two runs of values one after the other is writing their concatenation. */
  lemma {:induction false} PlaceAppend(mem: Memory, addr: int, a: seq<Cell>, b: seq<Cell>)
    decreases |a|
    ensures Place(mem, addr, a + b) == Place(Place(mem, addr, a), addr + Span(a), b)
    ensures Span(a + b) == Span(a) + Span(b)
  {
    if a == [] {
      assert a + b == b;
    } else {
      assert (a + b)[1..] == a[1..] + b;
      PlaceAppend(mem[addr := a[0]], addr + Width(a[0]), a[1..], b);
    }
  }
}
