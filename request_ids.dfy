/** Request identifiers of the web server (server/server.py, `nextid`).

    The server keeps a 32-bit counter, starting at a random value.  Each request adds
    an odd constant to it, keeps the low 32 bits, and turns the new value into eight
    code bytes, one per 4-bit group, lowest group first, through a 16-entry table. */
module RequestIds {

  /** 2^32: the counter keeps the low 32 bits. */
  const PERIOD: int := 0x1_0000_0000

  /** The step added per identifier; it is odd, so the counter passes through all
      2^32 values before it repeats. */
  const STEP: int := 0x2345_6789

  /** STEP * STEP_INVERSE == 1 + STEP_QUOTIENT * 2^32: STEP is invertible modulo 2^32. */
  const STEP_INVERSE: int := 0x9f5d_3eb9
  const STEP_QUOTIENT: int := 368374825

  /** `id_map`: the code byte for each 4-bit value. */
  const ID_MAP: seq<bv8> := [0x40, 0xe1, 0xd2, 0x73, 0x74, 0xd5, 0xe6, 0x47,
                             0xf8, 0x59, 0x6a, 0xcb, 0xcc, 0x6d, 0x5e, 0xff]

  /** `(x >> (4 * c)) & 0xf` for a non-negative `x`. */
  function Nibble(x: nat, c: nat): (r: nat)
    ensures r < 16
  {
    if c == 0 then x % 16 else Nibble(x / 16, c - 1)
  }

  function Pow16(n: nat): (p: nat)
    ensures p >= 1
  {
    if n == 0 then 1 else 16 * Pow16(n - 1)
  }

  /** The identifier for counter value `x`: byte `c` codes nibble `c`. */
  function IdBytes(x: nat): (id: seq<bv8>)
    ensures |id| == 8
    ensures forall c :: 0 <= c < 8 ==> id[c] == ID_MAP[Nibble(x, c)]
  {
    seq(8, c requires 0 <= c < 8 => ID_MAP[Nibble(x, c)])
  }

  /** The 16 codes are pairwise distinct. */
  lemma CodesDistinct(u: nat, v: nat)
    requires u < 16 && v < 16 && ID_MAP[u] == ID_MAP[v]
    ensures u == v
  {
  }

  /** Two numbers below 16^n with the same `n` low nibbles are equal. */
  lemma {:induction false} NibblesDetermine(x: nat, y: nat, n: nat)
    requires x < Pow16(n) && y < Pow16(n)
    requires forall c :: 0 <= c < n ==> Nibble(x, c) == Nibble(y, c)
    ensures x == y
  {
    if n > 0 {
      assert Nibble(x, 0) == Nibble(y, 0);
      forall c | 0 <= c < n - 1
        ensures Nibble(x / 16, c) == Nibble(y / 16, c)
      {
        assert Nibble(x, c + 1) == Nibble(y, c + 1);
      }
      NibblesDetermine(x / 16, y / 16, n - 1);
    }
  }

  /** Different 32-bit counter values give different identifiers. */
  lemma IdBytesInjective(x: nat, y: nat)
    requires x < PERIOD && y < PERIOD
    requires IdBytes(x) == IdBytes(y)
    ensures x == y
  {
    forall c | 0 <= c < 8
      ensures Nibble(x, c) == Nibble(y, c)
    {
      assert IdBytes(x)[c] == IdBytes(y)[c];
      CodesDistinct(Nibble(x, c), Nibble(y, c));
    }
    assert Pow16(8) == PERIOD;
    NibblesDetermine(x, y, 8);
  }

  /** One step of the counter. */
  function Advance(x: int): (r: nat)
    ensures r < PERIOD
  {
    (x + STEP) % PERIOD
  }

  /** The counter after `k` identifiers were taken from `x0`. */
  function After(x0: nat, k: nat): (r: nat)
    ensures r < PERIOD || (k == 0 && r == x0)
  {
    if k == 0 then x0 else Advance(After(x0, k - 1))
  }

  /** Remainders modulo 2^32 are unique. */
  lemma ModUnique(z: int, k: int, r: int)
    requires z == PERIOD * k + r && 0 <= r < PERIOD
    ensures z % PERIOD == r
  {
  }

  /** Equal remainders mean the difference is a multiple of 2^32. */
  lemma ModDifference(a: int, b: int)
    ensures a % PERIOD == b % PERIOD ==> (b - a) % PERIOD == 0
  {
    if a % PERIOD == b % PERIOD {
      ModUnique(b - a, b / PERIOD - a / PERIOD, 0);
    }
  }

  /** After `k` steps the counter has moved by `k * STEP` modulo 2^32. */
  lemma {:induction false} AfterClosedForm(x0: nat, k: nat)
    requires x0 < PERIOD
    ensures After(x0, k) == (x0 + k * STEP) % PERIOD
  {
    if k > 0 {
      AfterClosedForm(x0, k - 1);
      var a := x0 + (k - 1) * STEP;
      assert a + STEP == x0 + k * STEP;
      ModUnique(a % PERIOD + STEP, (a + STEP) / PERIOD - a / PERIOD, (a + STEP) % PERIOD);
    }
  }

  /** A positive difference below 2^32 times STEP is never a multiple of 2^32. */
  lemma StepNotPeriodic(d: int)
    requires 0 < d < PERIOD
    ensures (d * STEP) % PERIOD != 0
  {
    var q := (d * STEP) / PERIOD;
    var r := (d * STEP) % PERIOD;
    assert d * STEP == PERIOD * q + r;
    assert STEP * STEP_INVERSE == 1 + STEP_QUOTIENT * PERIOD;
    calc {
      d + PERIOD * (d * STEP_QUOTIENT);
      d * (STEP * STEP_INVERSE);
      (d * STEP) * STEP_INVERSE;
      PERIOD * (q * STEP_INVERSE) + r * STEP_INVERSE;
    }
    var k := q * STEP_INVERSE - d * STEP_QUOTIENT;
    assert d == PERIOD * k + r * STEP_INVERSE;
    assert k <= 0 || PERIOD * k >= PERIOD;
  }

  /** No counter value, and hence no identifier, repeats within 2^32 requests:
      the odd step visits every 32-bit value once before it comes back. */
  lemma {:induction false} NoRepeatWithinPeriod(x0: nat, i: nat, j: nat)
    requires x0 < PERIOD
    requires i < j < i + PERIOD
    ensures After(x0, i) != After(x0, j)
    ensures IdBytes(After(x0, i)) != IdBytes(After(x0, j))
  {
    AfterClosedForm(x0, i);
    AfterClosedForm(x0, j);
    var a := x0 + i * STEP;
    var b := x0 + j * STEP;
    assert b - a == (j - i) * STEP;
    StepNotPeriodic(j - i);
    ModDifference(a, b);
    if IdBytes(After(x0, i)) == IdBytes(After(x0, j)) {
      IdBytesInjective(After(x0, i), After(x0, j));
    }
  }

  /** After exactly 2^32 requests the counter is back where it started. */
  lemma FullPeriod(x0: nat)
    requires x0 < PERIOD
    ensures After(x0, PERIOD) == x0
  {
    AfterClosedForm(x0, PERIOD);
    ModUnique(x0 + PERIOD * STEP, STEP, x0);
  }

  /** The server's `last_id`, updated in place by `NextId`. */
  class IdSource {
    var lastId: nat

    predicate Valid()
      reads this
    {
      lastId < PERIOD
    }

    /** The counter starts at a random 32-bit value, which is a parameter here. */
    constructor (seed: nat)
      requires seed < PERIOD
      ensures Valid() && lastId == seed
    {
      lastId := seed;
    }

    /** `nextid`: advance the counter by STEP modulo 2^32 and code the new value. */
    method NextId() returns (id: seq<bv8>)
      requires Valid()
      modifies this
      ensures Valid()
      ensures lastId == Advance(old(lastId))
      ensures id == IdBytes(lastId)
    {
      lastId := (lastId + STEP) % PERIOD;
      id := IdBytes(lastId);
    }
  }
}
