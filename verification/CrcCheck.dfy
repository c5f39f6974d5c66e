/** The acceptance tests check_crc16 and check_crc32: what a buffer that passes must look like. */
module CrcCheck {
  import opened Crc

  // ---------- the register update is a bijection ----------

  ghost predicate IsRegister(p: word, x: word) {
    (p == POLYNOMIAL16 && x <= 0xffff) || p == POLYNOMIAL32
  }

  lemma BitStepInjective16(x: word, y: word)
    requires x <= 0xffff && y <= 0xffff
    requires BitStep(POLYNOMIAL16, x) == BitStep(POLYNOMIAL16, y)
    ensures x == y
  {}

  lemma BitStepInjective32(x: word, y: word)
    requires BitStep(POLYNOMIAL32, x) == BitStep(POLYNOMIAL32, y)
    ensures x == y
  {}

  lemma {:induction false} ShiftsStay(p: word, x: word, n: nat)
    requires IsRegister(p, x)
    ensures IsRegister(p, Shifts(p, x, n))
  {
    if n > 0 {
      ShiftsStay(p, x, n - 1);
    }
  }

  lemma {:induction false} ShiftsInjective(p: word, x: word, y: word, n: nat)
    requires IsRegister(p, x) && IsRegister(p, y)
    requires Shifts(p, x, n) == Shifts(p, y, n)
    ensures x == y
  {
    if n > 0 {
      ShiftsStay(p, x, n - 1);
      ShiftsStay(p, y, n - 1);
      if p == POLYNOMIAL16 {
        BitStepInjective16(Shifts(p, x, n - 1), Shifts(p, y, n - 1));
      } else {
        BitStepInjective32(Shifts(p, x, n - 1), Shifts(p, y, n - 1));
      }
      ShiftsInjective(p, x, y, n - 1);
    }
  }

  lemma MixStays(p: word, r: word, b: byte)
    requires IsRegister(p, r)
    ensures IsRegister(p, Mix(r, b))
  {}

  /** A 16-bit register stays a 16-bit register. */
  lemma {:induction false} CrcStays(p: word, r: word, s: seq<byte>)
    requires IsRegister(p, r)
    ensures IsRegister(p, Register(p, r, s))
  {
    if s != [] {
      CrcStays(p, r, s[..|s| - 1]);
      var r' := Register(p, r, s[..|s| - 1]);
      MixStays(p, r', s[|s| - 1]);
      ShiftsStay(p, Mix(r', s[|s| - 1]), 8);
    }
  }

  /** Running the same bytes from two different registers never brings them together. */
  lemma {:induction false} CrcInjective(p: word, x: word, y: word, s: seq<byte>)
    requires IsRegister(p, x) && IsRegister(p, y)
    requires Register(p, x, s) == Register(p, y, s)
    ensures x == y
  {
    if s != [] {
      var n := |s| - 1;
      var x', y' := Register(p, x, s[..n]), Register(p, y, s[..n]);
      CrcStays(p, x, s[..n]);
      CrcStays(p, y, s[..n]);
      MixStays(p, x', s[n]);
      MixStays(p, y', s[n]);
      ShiftsInjective(p, Mix(x', s[n]), Mix(y', s[n]), 8);
      MixInjective(x', y', s[n]);
      CrcInjective(p, x, y, s[..n]);
    }
  }

  lemma MixInjective(x: word, y: word, b: byte)
    requires Mix(x, b) == Mix(y, b)
    ensures x == y
  {}

  // ---------- up to four trailing bytes act like one word ----------

  function Place(b: byte, k: nat): word
    requires k < 4
  {
    match k
    case 0 => b as word
    case 1 => (b as word) << 8
    case 2 => (b as word) << 16
    case 3 => (b as word) << 24
  }

  function Packed(r: word, s: seq<byte>): word
    requires |s| <= 4
  {
    if s == [] then r else Packed(r, s[..|s| - 1]) ^ Place(s[|s| - 1], |s| - 1)
  }

  lemma PlaceFacts(b: byte, k: nat, y: word)
    requires 0 < k < 4 && y == Place(b, k - 1)
    ensures Place(b, k) & 0xff == 0 && Place(b, k) >> 8 == y
  {}

  lemma PlaceDown(p: word, b: byte, k: nat, x: word, y: word)
    requires 0 < k < 4 && x == Place(b, k) && y == Place(b, k - 1)
    ensures Shifts(p, x, 8 * k) == Shifts(p, y, 8 * (k - 1))
  {
    PlaceFacts(b, k, y);
    EightShiftsOfClear(p, x, y);
    ShiftsAdd(p, x, 8, 8 * (k - 1));
  }

  lemma {:induction false} PlaceShifts(p: word, b: byte, k: nat)
    requires k < 4
    ensures Shifts(p, Place(b, k), 8 * k) == b as word
  {
    if k > 0 {
      PlaceDown(p, b, k, Place(b, k), Place(b, k - 1));
      PlaceShifts(p, b, k - 1);
    }
  }

  lemma MixIsSum(r: word, b: byte, s: word)
    requires Sum(s, r, b as word)
    ensures Mix(r, b) == s
  {}

  lemma OneMoreByte(p: word, v: word, w: word, b: byte, k: nat)
    requires k < 4 && Sum(w, v, Place(b, k))
    ensures Byte(p, Shifts(p, v, 8 * k), b) == Shifts(p, w, 8 * k + 8)
  {
    PlaceShifts(p, b, k);
    ShiftsLinear(p, w, v, Place(b, k), 8 * k);
    MixIsSum(Shifts(p, v, 8 * k), b, Shifts(p, w, 8 * k));
    ShiftsAdd(p, w, 8 * k, 8);
  }

  lemma {:induction false} TrailingWord(p: word, r: word, s: seq<byte>)
    requires |s| <= 4
    ensures Register(p, r, s) == Shifts(p, Packed(r, s), 8 * |s|)
  {
    if s != [] {
      var k := |s| - 1;
      TrailingWord(p, r, s[..k]);
      PackedGrows(r, s);
      OneMoreByte(p, Packed(r, s[..k]), Packed(r, s), s[k], k);
    }
  }

  lemma PackedGrows(r: word, s: seq<byte>)
    requires 0 < |s| <= 4
    ensures Sum(Packed(r, s), Packed(r, s[..|s| - 1]), Place(s[|s| - 1], |s| - 1))
  {}

  lemma PackedTwo(r: word, b0: byte, b1: byte)
    ensures Sum(Packed(r, [b0]), r, Place(b0, 0))
    ensures Sum(Packed(r, [b0, b1]), Packed(r, [b0]), Place(b1, 1))
  {
    assert [b0, b1][..1] == [b0];
    assert [b0][..0] == [];
    PackedGrows(r, [b0]);
    PackedGrows(r, [b0, b1]);
  }

  // ---------- the two good residues ----------

  lemma FourShifts(p: word, v: word, v1: word, v2: word, v3: word, v4: word)
    requires BitStep(p, v) == v1 && BitStep(p, v1) == v2 && BitStep(p, v2) == v3 && BitStep(p, v3) == v4
    ensures Shifts(p, v, 4) == v4
  {
    assert Shifts(p, v, 1) == v1;
    assert Shifts(p, v, 2) == v2;
    assert Shifts(p, v, 3) == v3;
  }

  lemma GoodResidue16()
    ensures Shifts(POLYNOMIAL16, 0xffff, 16) == GOOD16
  {
    var p := POLYNOMIAL16;
    FourShifts(p, 0xffff, 0xfbf7, 0xf9f3, 0xf8f1, 0xf870);
    FourShifts(p, 0xf870, 0x7c38, 0x3e1c, 0x1f0e, 0xf87);
    FourShifts(p, 0xf87, 0x83cb, 0xc5ed, 0xe6fe, 0x737f);
    FourShifts(p, 0x737f, 0xbdb7, 0xdad3, 0xe961, 0xf0b8);
    ShiftsAdd(p, 0xffff, 4, 4);
    ShiftsAdd(p, 0xffff, 8, 4);
    ShiftsAdd(p, 0xffff, 12, 4);
  }

  lemma GoodResidue32()
    ensures Shifts(POLYNOMIAL32, INITIAL32, 8) == 0x2dfd1072
    ensures Shifts(POLYNOMIAL32, INITIAL32, 16) == 0xbe26ed00
    ensures Shifts(POLYNOMIAL32, INITIAL32, 24) == 0x00be26ed
    ensures Shifts(POLYNOMIAL32, INITIAL32, 32) == VALID32
  {
    var p := POLYNOMIAL32;
    FourShifts(p, 0xffffffff, 0x92477cdf, 0xa49b3d4f, 0xbff51d87, 0xb2420de3);
    FourShifts(p, 0xb2420de3, 0xb49985d1, 0xb7f441c8, 0x5bfa20e4, 0x2dfd1072);
    FourShifts(p, 0x2dfd1072, 0x16fe8839, 0xe6c7c73c, 0x7363e39e, 0x39b1f1cf);
    FourShifts(p, 0x39b1f1cf, 0xf1607bc7, 0x9508bec3, 0xa73cdc41, 0xbe26ed00);
    EightShiftsOfClear(p, 0xbe26ed00, 0x00be26ed);
    FourShifts(p, 0x00be26ed, 0xede79056, 0x76f3c82b, 0xd6c16735, 0x86d830ba);
    FourShifts(p, 0x86d830ba, 0x436c185d, 0xcc0e8f0e, 0x66074787, 0xdebb20e3);
    ShiftsAdd(p, 0xffffffff, 4, 4);
    ShiftsAdd(p, 0xffffffff, 8, 4);
    ShiftsAdd(p, 0xffffffff, 12, 4);
    ShiftsAdd(p, 0xffffffff, 16, 8);
    ShiftsAdd(p, 0xffffffff, 24, 4);
    ShiftsAdd(p, 0xffffffff, 28, 4);
  }

  // ---------- check_crc16 ----------

  function LowByteOf(c: word): byte {
    (c & 0xff) as byte
  }

  function Complement16(c: word): (r: word)
    ensures r <= 0xffff
  {
    !c & 0xffff
  }

  /** The two check bytes a sender appends for a register r, least significant first. */
  function CheckBytes16(r: word): seq<byte> {
    var c := Complement16(r);
    [LowByteOf(c), LowByteOf(c >> 8)]
  }

  function Fcs16(payload: seq<byte>): seq<byte> {
    CheckBytes16(Register(POLYNOMIAL16, INITIAL16, payload))
  }

  /** The buffer is some payload followed by the check bytes of that payload. */
  ghost predicate EndsInFcs16(buf: seq<byte>) {
    |buf| >= 2 && buf[|buf| - 2..] == Fcs16(buf[..|buf| - 2])
  }

  predicate MatchesLowFirst(c: word, b0: byte, b1: byte)
    requires c <= 0xffff
    ensures MatchesLowFirst(c, b0, b1) <==> LowByteOf(c) == b0 && LowByteOf(c >> 8) == b1
  {
    (c & 0xff) == (b0 as word) && (c >> 8) == (b1 as word)
  }

  method CheckCrc16(table: array<word>, buf: seq<byte>) returns (good: bool)
    requires IsTable(POLYNOMIAL16, table[..])
    ensures good <==> EndsInFcs16(buf)
  {
    if |buf| < 2 {
      return false;
    }
    var n := |buf| - 2;
    var crc := UpdateCrc(POLYNOMIAL16, table, INITIAL16, buf[..n]);
    crc := Complement16(crc);
    good := MatchesLowFirst(crc, buf[n], buf[n + 1]);
    assert buf[n..] == [buf[n], buf[n + 1]];
  }

  lemma ComplementBits16(r: word, b0: byte, b1: byte, m: word, w: word)
    requires r <= 0xffff
    requires Sum(m, r, Place(b0, 0)) && Sum(w, m, Place(b1, 1))
    ensures w <= 0xffff
    ensures w == 0xffff <==> MatchesLowFirst(Complement16(r), b0, b1)
  {}

  lemma TwoCheckBytes16(r: word, b0: byte, b1: byte)
    requires r <= 0xffff
    ensures Register(POLYNOMIAL16, r, [b0, b1]) == GOOD16 <==> CheckBytes16(r) == [b0, b1]
  {
    var w := Packed(r, [b0, b1]);
    TrailingWord(POLYNOMIAL16, r, [b0, b1]);
    GoodResidue16();
    PackedTwo(r, b0, b1);
    ComplementBits16(r, b0, b1, Packed(r, [b0]), w);
    if Shifts(POLYNOMIAL16, w, 16) == GOOD16 {
      ShiftsInjective(POLYNOMIAL16, w, 0xffff, 16);
    }
  }

  lemma Tail16(r: word, tail: seq<byte>)
    requires r <= 0xffff && |tail| == 2
    ensures tail == CheckBytes16(r) <==> Register(POLYNOMIAL16, r, tail) == GOOD16
  {
    assert tail == [tail[0], tail[1]];
    TwoCheckBytes16(r, tail[0], tail[1]);
  }

  lemma RegisterOverTail(p: word, r: word, buf: seq<byte>, n: nat)
    requires n <= |buf|
    ensures Register(p, r, buf) == Register(p, Register(p, r, buf[..n]), buf[n..])
  {
    assert buf == buf[..n] + buf[n..];
    CrcConcat(p, r, buf[..n], buf[n..]);
  }

  /** check_crc16 accepts exactly the buffers that leave the register at the good FCS. */
  lemma Residue16(buf: seq<byte>)
    requires |buf| >= 2
    ensures EndsInFcs16(buf) <==> Register(POLYNOMIAL16, INITIAL16, buf) == GOOD16
  {
    var n := |buf| - 2;
    RegisterOverTail(POLYNOMIAL16, INITIAL16, buf, n);
    CrcStays(POLYNOMIAL16, INITIAL16, buf[..n]);
    Tail16(Register(POLYNOMIAL16, INITIAL16, buf[..n]), buf[n..]);
  }

  // ---------- the start value ----------

  function Inverted(b: byte): byte {
    !b
  }

  function InvertFirst(s: seq<byte>, n: nat): seq<byte>
    requires n <= |s|
  {
    seq(n, i requires 0 <= i < n => Inverted(s[i])) + s[n..]
  }

  lemma StartBits16(b0: byte, b1: byte, m: word, w: word, m': word, w': word)
    requires Sum(m, 0xffff, Place(b0, 0)) && Sum(w, m, Place(b1, 1))
    requires Sum(m', 0, Place(Inverted(b0), 0)) && Sum(w', m', Place(Inverted(b1), 1))
    ensures w == w'
  {}

  lemma StartOfTwo(b0: byte, b1: byte)
    ensures Register(POLYNOMIAL16, 0xffff, [b0, b1]) == Register(POLYNOMIAL16, 0, [Inverted(b0), Inverted(b1)])
  {
    var c0, c1 := Inverted(b0), Inverted(b1);
    TrailingWord(POLYNOMIAL16, 0xffff, [b0, b1]);
    TrailingWord(POLYNOMIAL16, 0, [c0, c1]);
    PackedTwo(0xffff, b0, b1);
    PackedTwo(0, c0, c1);
    StartBits16(b0, b1, Packed(0xffff, [b0]), Packed(0xffff, [b0, b1]), Packed(0, [c0]), Packed(0, [c0, c1]));
  }

  lemma SameTail(p: word, x: word, y: word, s: seq<byte>, n: nat)
    requires n <= |s| && Register(p, x, s[..n]) == Register(p, y, InvertFirst(s, n)[..n])
    ensures Register(p, x, s) == Register(p, y, InvertFirst(s, n))
  {
    RegisterOverTail(p, x, s, n);
    RegisterOverTail(p, y, InvertFirst(s, n), n);
    assert InvertFirst(s, n)[n..] == s[n..];
  }

  /** The check bytes are those of a register that starts clear, over the same bytes with the first
      two inverted: this is what starting with all ones means. */
  lemma Fcs16StartsWithOnes(s: seq<byte>)
    requires |s| >= 2
    ensures Fcs16(s) == CheckBytes16(Register(POLYNOMIAL16, 0, InvertFirst(s, 2)))
  {
    assert s[..2] == [s[0], s[1]] && InvertFirst(s, 2)[..2] == [Inverted(s[0]), Inverted(s[1])];
    StartOfTwo(s[0], s[1]);
    SameTail(POLYNOMIAL16, 0xffff, 0, s, 2);
  }

  lemma CheckBytesInjective16(x: word, y: word)
    requires x <= 0xffff && y <= 0xffff && CheckBytes16(x) == CheckBytes16(y)
    ensures x == y
  {
    var b := CheckBytes16(x);
    Tail16(x, b);
    Tail16(y, b);
    CrcInjective(POLYNOMIAL16, x, y, b);
  }

  lemma ZeroMovesOnes16()
    ensures Register(POLYNOMIAL16, 0xffff, [0]) == 0x0f87
  {
    TrailingWord(POLYNOMIAL16, 0xffff, [0]);
    PackedGrows(0xffff, [0]);
    assert Packed(0xffff, [0][..0]) == 0xffff;
    SumWithClear(Packed(0xffff, [0]), 0xffff);
    GoodResidue16();
    var p := POLYNOMIAL16;
    FourShifts(p, 0xffff, 0xfbf7, 0xf9f3, 0xf8f1, 0xf870);
    FourShifts(p, 0xf870, 0x7c38, 0x3e1c, 0x1f0e, 0xf87);
    ShiftsAdd(p, 0xffff, 4, 4);
  }

  lemma SumWithClear(w: word, v: word)
    requires Sum(w, v, Place(0, 0))
    ensures w == v
  {}

  /** A zero byte in front of a payload always changes its check bytes. */
  lemma LeadingZeroShows16(s: seq<byte>)
    ensures Fcs16([0] + s) != Fcs16(s)
  {
    var p := POLYNOMIAL16;
    CrcConcat(p, 0xffff, [0], s);
    ZeroMovesOnes16();
    CrcStays(p, 0xffff, s);
    CrcStays(p, 0x0f87, s);
    if Fcs16([0] + s) == Fcs16(s) {
      CheckBytesInjective16(Register(p, 0xffff, s), Register(p, 0x0f87, s));
      CrcInjective(p, 0xffff, 0x0f87, s);
    }
  }

  // ---------- check_crc32 ----------

  function Drop(v: word, k: nat): word {
    if k == 0 then v else High(Drop(v, k - 1))
  }

  function High(v: word): word {
    v >> 8
  }

  function ByteAt(v: word, k: nat): byte {
    LowByteOf(Drop(v, k))
  }

  function CheckBytes32(r: word): seq<byte> {
    [ByteAt(!r, 0), ByteAt(!r, 1), ByteAt(!r, 2), ByteAt(!r, 3)]
  }

  function Fcs32(payload: seq<byte>): seq<byte> {
    CheckBytes32(Register(POLYNOMIAL32, INITIAL32, payload))
  }

  ghost predicate EndsInFcs32(buf: seq<byte>) {
    |buf| >= 4 && buf[|buf| - 4..] == Fcs32(buf[..|buf| - 4])
  }

  method CheckCrc32(table: array<word>, buf: seq<byte>) returns (good: bool)
    requires IsTable(POLYNOMIAL32, table[..])
    ensures good <==> EndsInFcs32(buf)
  {
    var crc := UpdateCrc(POLYNOMIAL32, table, INITIAL32, buf);
    Residue32(buf);
    good := crc == VALID32;
  }

  ghost predicate Sum8(c: byte, a: byte, b: byte) {
    c == a ^ b
  }

  lemma HighBytesOfSum(w: word, v: word, x: word)
    requires Sum(w, v, x)
    ensures Sum(High(w), High(v), High(x))
  {}

  lemma LowByteOfSum(w: word, v: word, x: word)
    requires Sum(w, v, x)
    ensures Sum8(LowByteOf(w), LowByteOf(v), LowByteOf(x))
  {}

  lemma {:induction false} DropOfSum(w: word, v: word, x: word, j: nat)
    requires Sum(w, v, x)
    ensures Sum(Drop(w, j), Drop(v, j), Drop(x, j))
  {
    if j > 0 {
      DropOfSum(w, v, x, j - 1);
      HighBytesOfSum(Drop(w, j - 1), Drop(v, j - 1), Drop(x, j - 1));
    }
  }

  lemma ByteOfSum(w: word, v: word, x: word, j: nat)
    requires Sum(w, v, x)
    ensures Sum8(ByteAt(w, j), ByteAt(v, j), ByteAt(x, j))
  {
    DropOfSum(w, v, x, j);
    LowByteOfSum(Drop(w, j), Drop(v, j), Drop(x, j));
  }

  lemma ByteOfPlace(b: byte, k: nat, j: nat)
    requires k < 4 && j < 4
    ensures ByteAt(Place(b, k), j) == if j == k then b else 0
  {
    var x := Place(b, k);
    var x1 := High(x);
    var x2 := High(x1);
    var x3 := High(x2);
    assert Drop(x, 0) == x;
    assert Drop(x, 1) == x1;
    assert Drop(x, 2) == x2;
    assert Drop(x, 3) == x3;
    BytesOfPlace(b, k, x, x1, x2, x3);
  }

  lemma BytesOfPlace(b: byte, k: nat, x: word, x1: word, x2: word, x3: word)
    requires k < 4 && x == Place(b, k) && x1 == High(x) && x2 == High(x1) && x3 == High(x2)
    ensures LowByteOf(x) == (if k == 0 then b else 0) && LowByteOf(x1) == (if k == 1 then b else 0)
    ensures LowByteOf(x2) == (if k == 2 then b else 0) && LowByteOf(x3) == (if k == 3 then b else 0)
  {}

  // Byte j of the register after packing in s: the packed byte added, or left alone.
  lemma {:induction false} ByteOfPacked(r: word, s: seq<byte>, j: nat)
    requires |s| <= 4 && j < 4
    ensures Sum8(ByteAt(Packed(r, s), j), ByteAt(r, j), if j < |s| then s[j] else 0)
  {
    if s != [] {
      var k := |s| - 1;
      ByteOfPacked(r, s[..k], j);
      PackedGrows(r, s);
      ByteOfSum(Packed(r, s), Packed(r, s[..k]), Place(s[k], k), j);
      ByteOfPlace(s[k], k, j);
      OneOfThemZero(ByteAt(Packed(r, s), j), ByteAt(Packed(r, s[..k]), j), ByteAt(r, j),
        ByteAt(Place(s[k], k), j), if j < k then s[j] else 0);
    }
  }

  lemma OneOfThemZero(c: byte, m: byte, a: byte, x: byte, y: byte)
    requires Sum8(c, m, x) && Sum8(m, a, y)
    ensures x == 0 ==> Sum8(c, a, y)
    ensures y == 0 ==> Sum8(c, a, x)
  {}

  ghost predicate LowOnes(c: word) {
    c & 0xff == 0xff
  }

  lemma AllOnesBits(w: word, w1: word, w2: word, w3: word)
    requires w1 == High(w) && w2 == High(w1) && w3 == High(w2)
    ensures w == INITIAL32 <==> LowOnes(w) && LowOnes(w1) && LowOnes(w2) && LowOnes(w3)
  {}

  lemma LowByteOnes(c: word)
    ensures LowByteOf(c) == 0xff <==> LowOnes(c)
  {}

  lemma AllOnes(w: word)
    ensures w == INITIAL32
       <==> ByteAt(w, 0) == 0xff && ByteAt(w, 1) == 0xff && ByteAt(w, 2) == 0xff && ByteAt(w, 3) == 0xff
  {
    assert Drop(w, 0) == w;
    AllOnesDown(w, Drop(w, 1), Drop(w, 2), Drop(w, 3));
  }

  lemma AllOnesDown(w: word, w1: word, w2: word, w3: word)
    requires w1 == High(w) && w2 == High(w1) && w3 == High(w2)
    ensures w == INITIAL32
       <==> LowByteOf(w) == 0xff && LowByteOf(w1) == 0xff && LowByteOf(w2) == 0xff && LowByteOf(w3) == 0xff
  {
    LowByteOnes(w);
    LowByteOnes(w1);
    LowByteOnes(w2);
    LowByteOnes(w3);
    AllOnesBits(w, w1, w2, w3);
  }

  lemma ComplementIsSum(r: word)
    ensures Sum(!r, r, INITIAL32)
  {}

  lemma ComplementOfByte(a: byte, b: byte, c: byte, d: byte)
    requires Sum8(c, a, 0xff) && Sum8(d, a, b)
    ensures d == 0xff <==> c == b
  {}

  lemma FourCheckBytes32(r: word, b: seq<byte>)
    requires |b| == 4
    ensures Register(POLYNOMIAL32, r, b) == VALID32 <==> CheckBytes32(r) == b
  {
    var w := Packed(r, b);
    TrailingWord(POLYNOMIAL32, r, b);
    AllOnesIsValid32(w);
    AllOnes(w);
    AllOnes(INITIAL32);
    ComplementIsSum(r);
    forall j: nat | j < 4
      ensures ByteAt(w, j) == 0xff <==> ByteAt(!r, j) == b[j]
    {
      ByteOfPacked(r, b, j);
      ByteOfSum(!r, r, INITIAL32, j);
      ComplementOfByte(ByteAt(r, j), b[j], ByteAt(!r, j), ByteAt(w, j));
    }
  }

  lemma AllOnesIsValid32(w: word)
    ensures Shifts(POLYNOMIAL32, w, 32) == VALID32 <==> w == INITIAL32
  {
    GoodResidue32();
    if Shifts(POLYNOMIAL32, w, 32) == VALID32 {
      ShiftsInjective(POLYNOMIAL32, w, INITIAL32, 32);
    }
  }

  /** No buffer shorter than the check bytes themselves reaches the valid residue. */
  lemma TooShort32(s: seq<byte>)
    requires |s| < 4
    ensures Register(POLYNOMIAL32, INITIAL32, s) != VALID32
  {
    var p, k, w := POLYNOMIAL32, 8 * |s|, Packed(INITIAL32, s);
    TrailingWord(p, INITIAL32, s);
    GoodResidue32();
    ByteOfPacked(INITIAL32, s, 3);
    ShiftsAdd(p, INITIAL32, 32 - k, k);
    if Shifts(p, w, k) == VALID32 {
      ShiftsInjective(p, w, Shifts(p, INITIAL32, 32 - k), k);
    }
  }

  /** check_crc32 compares only the final register, yet it accepts exactly the buffers that
      end in the complemented CRC of the rest. */
  lemma Residue32(buf: seq<byte>)
    ensures EndsInFcs32(buf) <==> Register(POLYNOMIAL32, INITIAL32, buf) == VALID32
  {
    if |buf| < 4 {
      TooShort32(buf);
    } else {
      var n := |buf| - 4;
      RegisterOverTail(POLYNOMIAL32, INITIAL32, buf, n);
      FourCheckBytes32(Register(POLYNOMIAL32, INITIAL32, buf[..n]), buf[n..]);
    }
  }

  // ---------- its start value ----------

  lemma SameBytes(x: word, y: word)
    requires forall j: nat :: j < 4 ==> ByteAt(x, j) == ByteAt(y, j)
    ensures x == y
  {
    var w := !x ^ y;
    ComplementIsSum(x);
    AllOnes(INITIAL32);
    forall j: nat | j < 4
      ensures ByteAt(w, j) == 0xff
    {
      ByteOfSum(!x, x, INITIAL32, j);
      ByteOfSum(w, !x, y, j);
      ComplementOfSame(ByteAt(x, j), ByteAt(!x, j), ByteAt(w, j));
    }
    AllOnes(w);
    OnesAreComplement(x, y, w);
  }

  lemma ComplementOfSame(a: byte, c: byte, d: byte)
    requires Sum8(c, a, 0xff) && Sum8(d, c, a)
    ensures d == 0xff
  {}

  lemma OnesAreComplement(x: word, y: word, w: word)
    requires w == !x ^ y && w == INITIAL32
    ensures x == y
  {}

  lemma InvertedByte(b: byte, c: byte, d: byte)
    requires Sum8(c, 0xff, b) && Sum8(d, 0, Inverted(b))
    ensures c == d
  {}

  lemma ClearBytes(j: nat)
    requires j < 4
    ensures ByteAt(0, j) == 0
  {
    assert Drop(0, 0) == 0 && Drop(0, 1) == 0 && Drop(0, 2) == 0 && Drop(0, 3) == 0;
  }

  lemma StartByte(s: seq<byte>, t: seq<byte>, j: nat)
    requires |s| == |t| == 4 && j < 4 && t[j] == Inverted(s[j])
    ensures ByteAt(Packed(0xffffffff, s), j) == ByteAt(Packed(0, t), j)
  {
    AllOnes(0xffffffff);
    ByteOfPacked(0xffffffff, s, j);
    ByteOfPacked(0, t, j);
    ClearBytes(j);
    InvertedByte(s[j], ByteAt(Packed(0xffffffff, s), j), ByteAt(Packed(0, t), j));
  }

  lemma SameStart(s: seq<byte>, t: seq<byte>)
    requires |s| == |t| == 4 && forall j :: 0 <= j < 4 ==> t[j] == Inverted(s[j])
    ensures Packed(0xffffffff, s) == Packed(0, t)
  {
    forall j: nat | j < 4
      ensures ByteAt(Packed(0xffffffff, s), j) == ByteAt(Packed(0, t), j)
    {
      StartByte(s, t, j);
    }
    SameBytes(Packed(0xffffffff, s), Packed(0, t));
  }

  lemma StartOfFour(s: seq<byte>)
    requires |s| == 4
    ensures Register(POLYNOMIAL32, 0xffffffff, s) == Register(POLYNOMIAL32, 0, InvertFirst(s, 4))
  {
    var t := InvertFirst(s, 4);
    TrailingWord(POLYNOMIAL32, 0xffffffff, s);
    TrailingWord(POLYNOMIAL32, 0, t);
    SameStart(s, t);
  }

  /** The same for the longer check: a clear start over the first four bytes inverted. */
  lemma Fcs32StartsWithOnes(s: seq<byte>)
    requires |s| >= 4
    ensures Fcs32(s) == CheckBytes32(Register(POLYNOMIAL32, 0, InvertFirst(s, 4)))
  {
    StartOfFour(s[..4]);
    assert InvertFirst(s, 4)[..4] == InvertFirst(s[..4], 4);
    SameTail(POLYNOMIAL32, 0xffffffff, 0, s, 4);
  }

  /** A zero byte in front of a payload always changes its check bytes. */
  lemma LeadingZeroShows32(s: seq<byte>)
    ensures Fcs32([0] + s) != Fcs32(s)
  {
    var p, z := POLYNOMIAL32, Register(POLYNOMIAL32, 0xffffffff, [0]);
    CrcConcat(p, 0xffffffff, [0], s);
    TrailingWord(p, 0xffffffff, [0]);
    PackedGrows(0xffffffff, [0]);
    assert Packed(0xffffffff, [0][..0]) == 0xffffffff;
    SumWithClear(Packed(0xffffffff, [0]), 0xffffffff);
    GoodResidue32();
    if Fcs32([0] + s) == Fcs32(s) {
      var x, y, b := Register(p, 0xffffffff, s), Register(p, z, s), Fcs32(s);
      FourCheckBytes32(x, b);
      FourCheckBytes32(y, b);
      CrcInjective(p, x, y, b);
      CrcInjective(p, 0xffffffff, z, s);
    }
  }
}
