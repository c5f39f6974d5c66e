/** The CRC-16 and CRC-32 of the SIR and FIR framers (AppleSCCIrDA.cpp): the bit-at-a-time
    definition, the table-driven loops that compute it, and what their acceptance tests mean.
    Both CRCs are one recurrence over a 32-bit register; the 16-bit one never leaves the low
    half of it (CrcStays, in module CrcCheck). */
module Crc {

  type byte = bv8
  type word = bv32

  const POLYNOMIAL16: word := 0x8408
  const POLYNOMIAL32: word := 0xedb88320
  const INITIAL16: word := 0xffff
  const GOOD16: word := 0xf0b8
  const INITIAL32: word := 0xffffffff
  const VALID32: word := 0xdebb20e3

  // ---------- the bit-at-a-time definition ----------

  function BitStep(p: word, v: word): word {
    if v & 1 == 1 then (v >> 1) ^ p else v >> 1
  }

  function Shifts(p: word, v: word, n: nat): word {
    if n == 0 then v else BitStep(p, Shifts(p, v, n - 1))
  }

  function Mix(r: word, b: byte): word {
    r ^ (b as word)
  }

  /** One data byte: XOR it into the low end of the register, then shift eight times. */
  function Byte(p: word, r: word, b: byte): word {
    Shifts(p, Mix(r, b), 8)
  }

  function Register(p: word, r: word, s: seq<byte>): word {
    if s == [] then r else Byte(p, Register(p, r, s[..|s| - 1]), s[|s| - 1])
  }

  lemma {:induction false} CrcConcat(p: word, r: word, a: seq<byte>, b: seq<byte>)
    ensures Register(p, r, a + b) == Register(p, Register(p, r, a), b)
  {
    if b == [] {
      assert a + b == a;
    } else {
      CrcConcat(p, r, a, b[..|b| - 1]);
      assert (a + b)[..|a + b| - 1] == a + b[..|b| - 1];
    }
  }

  // ---------- shifting is linear over XOR ----------

  // The sum of two registers, as a relation: it keeps the solver from looking inside.
  ghost predicate Sum(z: word, x: word, y: word) {
    z == x ^ y
  }

  lemma HalfOfSum(z: word, x: word, y: word)
    requires Sum(z, x, y)
    ensures z >> 1 == (x >> 1) ^ (y >> 1)
    ensures z & 1 == 1 <==> ((x & 1 == 1) != (y & 1 == 1))
  {}

  // If a = x + p and c = x + y, then adding p to c is adding a to y.
  lemma SumOneOdd(a: word, x: word, p: word, c: word, y: word, d: word)
    requires Sum(a, x, p) && Sum(c, x, y) && Sum(d, c, p)
    ensures Sum(d, a, y)
  {}

  lemma SumBothOdd(a: word, x: word, b: word, y: word, p: word, c: word)
    requires Sum(a, x, p) && Sum(b, y, p) && Sum(c, x, y)
    ensures Sum(c, a, b)
  {}

  lemma SumCommutes(c: word, x: word, y: word)
    requires Sum(c, x, y)
    ensures Sum(c, y, x)
  {}

  ghost predicate StepIs(p: word, x: word, half: word, odd: bool) {
    if odd then Sum(BitStep(p, x), half, p) else BitStep(p, x) == half
  }

  lemma StepOf(p: word, x: word, half: word)
    requires half == x >> 1
    ensures StepIs(p, x, half, x & 1 == 1)
  {}

  lemma StepHalves(p: word, z: word, x: word, y: word) returns (zh: word, xh: word, yh: word, xo: bool, yo: bool)
    requires Sum(z, x, y)
    ensures Sum(zh, xh, yh) && StepIs(p, x, xh, xo) && StepIs(p, y, yh, yo) && StepIs(p, z, zh, xo != yo)
  {
    HalfOfSum(z, x, y);
    zh, xh, yh := z >> 1, x >> 1, y >> 1;
    xo, yo := x & 1 == 1, y & 1 == 1;
    StepOf(p, x, xh);
    StepOf(p, y, yh);
    StepOf(p, z, zh);
  }

  lemma BitStepLinear(p: word, z: word, x: word, y: word)
    requires Sum(z, x, y)
    ensures Sum(BitStep(p, z), BitStep(p, x), BitStep(p, y))
  {
    var zh, xh, yh, xo, yo := StepHalves(p, z, x, y);
    SumCommutes(zh, xh, yh);
    var a, b, c := BitStep(p, x), BitStep(p, y), BitStep(p, z);
    if xo && yo {
      SumBothOdd(a, xh, b, yh, p, zh);
    } else if xo {
      SumOneOdd(a, xh, p, zh, yh, c);
    } else if yo {
      SumOneOdd(b, yh, p, zh, xh, c);
      SumCommutes(c, b, xh);
    }
  }

  lemma {:induction false} ShiftsLinear(p: word, z: word, x: word, y: word, n: nat)
    requires Sum(z, x, y)
    ensures Sum(Shifts(p, z, n), Shifts(p, x, n), Shifts(p, y, n))
  {
    if n > 0 {
      ShiftsLinear(p, z, x, y, n - 1);
      BitStepLinear(p, Shifts(p, z, n - 1), Shifts(p, x, n - 1), Shifts(p, y, n - 1));
    }
  }

  lemma {:induction false} ShiftsAdd(p: word, x: word, m: nat, n: nat)
    ensures Shifts(p, Shifts(p, x, m), n) == Shifts(p, x, m + n)
  {
    if n > 0 {
      ShiftsAdd(p, x, m, n - 1);
    }
  }

  lemma ClearStep(p: word, x: word, y: word)
    requires x & 1 == 0 && y == x >> 1
    ensures BitStep(p, x) == y
  {}

  lemma FourHalves(x: word, x1: word, x2: word, x3: word, y: word)
    requires x & 0xf == 0 && y == x >> 4
    requires x1 == x >> 1 && x2 == x1 >> 1 && x3 == x2 >> 1
    ensures x & 1 == 0 && x1 & 1 == 0 && x2 & 1 == 0 && x3 & 1 == 0 && x3 >> 1 == y
  {}

  lemma FourShiftsOfClear(p: word, x: word, y: word)
    requires x & 0xf == 0 && y == x >> 4
    ensures Shifts(p, x, 4) == y
  {
    var x1 := x >> 1;
    var x2 := x1 >> 1;
    var x3 := x2 >> 1;
    FourHalves(x, x1, x2, x3, y);
    ClearStep(p, x, x1);
    ClearStep(p, x1, x2);
    ClearStep(p, x2, x3);
    ClearStep(p, x3, y);
    assert Shifts(p, x, 1) == x1;
    assert Shifts(p, x, 2) == x2;
    assert Shifts(p, x, 3) == x3;
  }

  lemma TwoNibbles(x: word, m: word, y: word)
    requires x & 0xff == 0 && m == x >> 4 && y == x >> 8
    ensures x & 0xf == 0 && m & 0xf == 0 && y == m >> 4
  {}

  /** Eight shifts only move a register down when its low byte is clear. */
  lemma EightShiftsOfClear(p: word, x: word, y: word)
    requires x & 0xff == 0 && y == x >> 8
    ensures Shifts(p, x, 8) == y
  {
    var m := x >> 4;
    TwoNibbles(x, m, y);
    FourShiftsOfClear(p, x, m);
    FourShiftsOfClear(p, m, y);
    ShiftsAdd(p, x, 4, 4);
  }

  // ---------- the table form ----------

  ghost predicate IsTable(p: word, t: seq<word>) {
    |t| == 256 && forall i :: 0 <= i < 256 ==> t[i] == Shifts(p, i as word, 8)
  }

  function LowByte(x: word): (i: int)
    ensures 0 <= i < 256
  {
    (x & 0xff) as int
  }

  function TableByte(t: seq<word>, r: word, b: byte): word
    requires |t| == 256
  {
    (r >> 8) ^ t[LowByte(Mix(r, b))]
  }

  lemma TableByteIsSum(t: seq<word>, r: word, b: byte, q: word, e: word, s: word)
    requires |t| == 256 && q == r >> 8 && e == t[LowByte(Mix(r, b))] && Sum(s, q, e)
    ensures TableByte(t, r, b) == s
  {}

  lemma FromInt(x: word)
    ensures (x as int) as word == x
  {}

  lemma SplitBytes(x: word, hi: word, lo: word)
    requires hi == x & 0xffffff00 && lo == x & 0xff
    ensures Sum(x, hi, lo) && hi & 0xff == 0 && hi >> 8 == x >> 8
  {}

  lemma MixKeepsHighBytes(r: word, b: byte)
    ensures Mix(r, b) >> 8 == r >> 8
  {}

  lemma TableEntry(p: word, t: seq<word>, x: word, lo: word)
    requires IsTable(p, t) && lo == x & 0xff
    ensures t[LowByte(x)] == Shifts(p, lo, 8)
  {
    FromInt(lo);
  }

  lemma HighPlusLow(p: word, x: word, hi: word, lo: word, q: word)
    requires hi == x & 0xffffff00 && lo == x & 0xff && q == x >> 8
    ensures Sum(Shifts(p, x, 8), q, Shifts(p, lo, 8))
  {
    SplitBytes(x, hi, lo);
    ShiftsLinear(p, x, hi, lo, 8);
    EightShiftsOfClear(p, hi, q);
  }

  /** One table look-up is eight shifts: the low byte goes through the table, the high bytes
      only move down, and the two add up because shifting is linear. */
  lemma TableByteIsEightShifts(p: word, t: seq<word>, r: word, b: byte)
    requires IsTable(p, t)
    ensures TableByte(t, r, b) == Byte(p, r, b)
  {
    var x := Mix(r, b);
    var hi, lo, q := x & 0xffffff00, x & 0xff, r >> 8;
    MixKeepsHighBytes(r, b);
    TableEntry(p, t, x, lo);
    var e := t[LowByte(x)];
    HighPlusLow(p, x, hi, lo, q);
    TableByteIsSum(t, r, b, q, e, Byte(p, r, b));
  }

  method GenCrcTable(p: word, table: array<word>)
    requires table.Length == 256
    modifies table
    ensures IsTable(p, table[..])
  {
    for i := 0 to 256
      invariant forall c :: 0 <= c < i ==> table[c] == Shifts(p, c as word, 8)
    {
      var b := i as word;
      var accum := b;
      for j := 0 to 8
        invariant accum == Shifts(p, b, j)
      {
        accum := if accum & 1 == 1 then (accum >> 1) ^ p else accum >> 1;
      }
      table[i] := accum;
    }
  }

  method UpdateCrc(p: word, table: array<word>, start: word, buf: seq<byte>) returns (crc: word)
    requires IsTable(p, table[..])
    ensures crc == Register(p, start, buf)
  {
    crc := start;
    for j := 0 to |buf|
      invariant crc == Register(p, start, buf[..j])
    {
      TableByteIsEightShifts(p, table[..], crc, buf[j]);
      crc := (crc >> 8) ^ table[LowByte(Mix(crc, buf[j]))];
      assert buf[..j + 1][..j] == buf[..j];
    }
    assert buf[..|buf|] == buf;
  }
}
