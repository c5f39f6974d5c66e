/** Which transmission errors check_crc16 cannot miss. The byte-wise register is first shown to
    be a bit-serial one; over bits, a difference between two buffers evolves on its own. */
module CrcErrors {
  import opened Crc
  import opened CrcCheck

  const P: word := POLYNOMIAL16

  // ---------- buffers as bit strings, least significant bit of each byte first ----------

  function Rest(b: byte, n: nat): word {
    if n == 0 then b as word else Half(Rest(b, n - 1))
  }

  function Half(v: word): word {
    v >> 1
  }

  function Bit(v: word): word {
    v & 1
  }

  function BitAt(b: byte, n: nat): bool {
    Bit(Rest(b, n)) == 1
  }

  function ByteBits(b: byte): seq<bool> {
    seq(8, n requires n >= 0 => BitAt(b, n))
  }

  function Bits(s: seq<byte>): (bits: seq<bool>)
    ensures |bits| == 8 * |s|
  {
    if s == [] then [] else Bits(s[..|s| - 1]) + ByteBits(s[|s| - 1])
  }

  // ---------- the bit-serial register ----------

  function Flip(r: word, bit: bool): word {
    if bit then r ^ 1 else r
  }

  function Serial(r: word, bits: seq<bool>): word {
    if bits == [] then r else BitStep(P, Flip(Serial(r, bits[..|bits| - 1]), bits[|bits| - 1]))
  }

  lemma {:induction false} SerialConcat(r: word, a: seq<bool>, b: seq<bool>)
    ensures Serial(r, a + b) == Serial(Serial(r, a), b)
  {
    if b == [] {
      assert a + b == a;
    } else {
      SerialConcat(r, a, b[..|b| - 1]);
      assert (a + b)[..|a + b| - 1] == a + b[..|b| - 1];
    }
  }

  // Splitting off the low bit of what is left of a byte.
  lemma SplitLowBit(s: word, v: word, rest: word, c: word, bit: bool)
    requires Sum(s, v, rest) && bit == (Bit(rest) == 1) && c == rest & 0xfffffffe
    ensures Sum(s, Flip(v, bit), c) && c & 1 == 0 && Half(rest) == c >> 1
  {}

  // One step of both registers, while rest of the byte has not gone into the serial one yet.
  lemma SerialStep(s: word, v: word, rest: word, half: word, bit: bool)
    requires Sum(s, v, rest) && bit == (Bit(rest) == 1) && half == Half(rest)
    ensures Sum(BitStep(P, s), BitStep(P, Flip(v, bit)), half)
  {
    var c, f := rest & 0xfffffffe, Flip(v, bit);
    SplitLowBit(s, v, rest, c, bit);
    BitStepLinear(P, s, f, c);
    ClearStep(P, c, half);
  }

  lemma {:induction false} SerialByte(r: word, b: byte, n: nat)
    requires n <= 8
    ensures Sum(Shifts(P, Mix(r, b), n), Serial(r, ByteBits(b)[..n]), Rest(b, n))
  {
    if n > 0 {
      SerialByte(r, b, n - 1);
      var bits := ByteBits(b)[..n];
      assert bits[..n - 1] == ByteBits(b)[..n - 1];
      SerialStep(Shifts(P, Mix(r, b), n - 1), Serial(r, bits[..n - 1]), Rest(b, n - 1), Rest(b, n), bits[n - 1]);
    }
  }

  lemma NothingLeft(b: byte)
    ensures Rest(b, 8) == 0
  {
    var x := b as word;
    assert Rest(b, 1) == Half(x);
    assert Rest(b, 2) == Half(Half(x));
    assert Rest(b, 4) == Half(Half(Half(Half(x))));
    assert Rest(b, 6) == Half(Half(Rest(b, 4)));
    assert Rest(b, 8) == Half(Half(Rest(b, 6)));
    HalvesOfByte(x);
  }

  lemma HalvesOfByte(x: word)
    requires x <= 0xff
    ensures Half(Half(Half(Half(Half(Half(Half(Half(x)))))))) == 0
  {}

  lemma SumWithZero(z: word, x: word)
    requires Sum(z, x, 0)
    ensures z == x
  {}

  /** The byte-wise CRC is the bit-serial one. */
  lemma {:induction false} SerialIsRegister(r: word, s: seq<byte>)
    ensures Serial(r, Bits(s)) == Register(P, r, s)
  {
    if s != [] {
      var n := |s| - 1;
      var r' := Register(P, r, s[..n]);
      SerialIsRegister(r, s[..n]);
      SerialConcat(r, Bits(s[..n]), ByteBits(s[n]));
      SerialByte(r', s[n], 8);
      NothingLeft(s[n]);
      assert ByteBits(s[n])[..8] == ByteBits(s[n]);
      SumWithZero(Byte(P, r', s[n]), Serial(r', ByteBits(s[n])));
    }
  }

  // ---------- the difference of two runs ----------

  function Differences(a: seq<bool>, b: seq<bool>): (e: seq<bool>)
    requires |a| == |b|
    ensures |e| == |a|
  {
    seq(|a|, i requires 0 <= i < |a| => a[i] != b[i])
  }

  lemma FlipOfSum(z: word, x: word, y: word, a: bool, b: bool)
    requires Sum(z, x, y)
    ensures Sum(Flip(z, a != b), Flip(x, a), Flip(y, b))
  {
    FlipIsSum(x);
    FlipIsSum(y);
    FlipIsSum(z);
    var x', y', z' := Flip(x, true), Flip(y, true), Flip(z, true);
    if a && b {
      SumBothOdd(x', x, y', y, 1, z);
    } else if a {
      SumOneOdd(x', x, 1, z, y, z');
    } else if b {
      SumCommutes(z, x, y);
      SumOneOdd(y', y, 1, z, x, z');
      SumCommutes(z', y', x);
    }
  }

  lemma FlipIsSum(x: word)
    ensures Sum(Flip(x, true), x, 1)
  {}

  lemma SerialStepLinear(z: word, x: word, y: word, a: bool, b: bool, e: bool)
    requires Sum(z, x, y) && e == (a != b)
    ensures Sum(BitStep(P, Flip(z, e)), BitStep(P, Flip(x, a)), BitStep(P, Flip(y, b)))
  {
    FlipOfSum(z, x, y, a, b);
    BitStepLinear(P, Flip(z, e), Flip(x, a), Flip(y, b));
  }

  lemma {:induction false} SerialLinear(z: word, x: word, y: word, a: seq<bool>, b: seq<bool>)
    requires |a| == |b| && Sum(z, x, y)
    ensures Sum(Serial(z, Differences(a, b)), Serial(x, a), Serial(y, b))
  {
    if a != [] {
      var n := |a| - 1;
      var e := Differences(a, b);
      SerialLinear(z, x, y, a[..n], b[..n]);
      assert e[..n] == Differences(a[..n], b[..n]);
      SerialStepLinear(Serial(z, e[..n]), Serial(x, a[..n]), Serial(y, b[..n]), a[n], b[n], e[n]);
    }
  }

  lemma SumOfEqual(z: word, x: word)
    requires Sum(z, x, x)
    ensures z == 0
  {}

  lemma SumOfSelf(x: word)
    ensures Sum(0, x, x)
  {}

  /** Two accepted buffers of one length differ by a bit string that leaves register 0 at 0. */
  lemma AcceptedDifference(a: seq<byte>, b: seq<byte>)
    requires |a| == |b|
    requires EndsInFcs16(a) && EndsInFcs16(b)
    ensures Serial(0, Differences(Bits(a), Bits(b))) == 0
  {
    Residue16(a);
    Residue16(b);
    SerialIsRegister(INITIAL16, a);
    SerialIsRegister(INITIAL16, b);
    SumOfSelf(INITIAL16);
    SerialLinear(0, INITIAL16, INITIAL16, Bits(a), Bits(b));
    SumOfEqual(Serial(0, Differences(Bits(a), Bits(b))), GOOD16);
  }

  // ---------- bursts of up to sixteen bits ----------

  // 2 to the m.
  function Limit(m: nat): word
    requires m <= 16
  {
    match m
    case 0 => 0x1
    case 1 => 0x2
    case 2 => 0x4
    case 3 => 0x8
    case 4 => 0x10
    case 5 => 0x20
    case 6 => 0x40
    case 7 => 0x80
    case 8 => 0x100
    case 9 => 0x200
    case 10 => 0x400
    case 11 => 0x800
    case 12 => 0x1000
    case 13 => 0x2000
    case 14 => 0x4000
    case 15 => 0x8000
    case _ => 0x10000
  }

  ghost predicate Under(v: word, l: word) {
    v < l
  }

  ghost predicate Doubles(l: word, l2: word) {
    1 <= l <= 0x8000 && l2 == l << 1
  }

  ghost predicate Low16(v: word) {
    v <= 0xffff
  }

  lemma LimitDoubles(m: nat)
    requires m <= 15
    ensures Doubles(Limit(m), Limit(m + 1))
  {}

  lemma StepBelow(v: word, l: word, l2: word)
    requires Low16(v) && Doubles(l, l2) && Under(BitStep(P, v), l)
    ensures Under(v, l2)
  {}

  lemma FlipBelow(v: word, w: word, bit: bool, l: word, l2: word)
    requires Doubles(l, l2) && w == Flip(v, bit) && Under(w, l2)
    ensures Under(v, l2)
  {}

  lemma FlipStays(v: word, bit: bool)
    requires Low16(v)
    ensures Low16(Flip(v, bit))
  {}

  lemma {:induction false} SerialStays(r: word, e: seq<bool>)
    requires Low16(r)
    ensures Low16(Serial(r, e))
  {
    if e != [] {
      SerialStays(r, e[..|e| - 1]);
      FlipStays(Serial(r, e[..|e| - 1]), e[|e| - 1]);
      StepStays(Flip(Serial(r, e[..|e| - 1]), e[|e| - 1]));
    }
  }

  lemma StepStays(v: word)
    requires Low16(v)
    ensures Low16(BitStep(P, v))
  {}

  lemma StepBack(v: word, bit: bool, l: word, l2: word)
    requires Low16(v) && Doubles(l, l2) && Under(BitStep(P, Flip(v, bit)), l)
    ensures Under(v, l2)
  {
    FlipStays(v, bit);
    StepBelow(Flip(v, bit), l, l2);
    FlipBelow(v, Flip(v, bit), bit, l, l2);
  }

  // Run backwards: a register that ends small was not much larger a few bits earlier, as the
  // top bit of the polynomial would still be visible.
  lemma {:induction false} WasBelow(r: word, e: seq<bool>, m: nat)
    requires Low16(r) && m + |e| <= 16 && Under(Serial(r, e), Limit(m))
    ensures Under(r, Limit(m + |e|))
  {
    if e != [] {
      SerialStays(r, e[..|e| - 1]);
      LimitDoubles(m);
      StepBack(Serial(r, e[..|e| - 1]), e[|e| - 1], Limit(m), Limit(m + 1));
      WasBelow(r, e[..|e| - 1], m + 1);
    }
  }

  lemma FirstFlip()
    ensures BitStep(P, Flip(0, true)) == 0x8408 && BitStep(P, Flip(0, false)) == 0
  {}

  /** Sixteen bits or fewer that leave register 0 at 0 are all zero. */
  lemma {:induction false} ShortStringVisible(e: seq<bool>, k: nat)
    requires |e| <= 16 && k <= |e| && Serial(0, e) == 0
    ensures Serial(0, e[..k]) == 0 && forall i :: 0 <= i < k ==> !e[i]
  {
    if k > 0 {
      ShortStringVisible(e, k - 1);
      assert e[..k][..k - 1] == e[..k - 1];
      FirstFlip();
      assert e == e[..k] + e[k..];
      SerialConcat(0, e[..k], e[k..]);
      if e[k - 1] {
        WasBelow(Serial(0, e[..k]), e[k..], 0);
        LimitDoubles(|e| - k);
        assert false;
      }
    }
  }

  ghost predicate QuietOutside(e: seq<bool>, lo: nat, hi: nat) {
    forall i :: 0 <= i < |e| && !(lo <= i < hi) ==> !e[i]
  }

  lemma {:induction false} QuietKeepsZero(e: seq<bool>)
    requires QuietOutside(e, 0, 0)
    ensures Serial(0, e) == 0
  {
    if e != [] {
      QuietKeepsZero(e[..|e| - 1]);
      FirstFlip();
    }
  }

  lemma {:induction false} QuietIsShifts(r: word, e: seq<bool>)
    requires QuietOutside(e, 0, 0)
    ensures Serial(r, e) == Shifts(P, r, |e|)
  {
    if e != [] {
      QuietIsShifts(r, e[..|e| - 1]);
    }
  }

  // Quiet stretches around the window contribute nothing to a zero register.
  lemma QuietEnds(e: seq<bool>, lo: nat, hi: nat)
    requires lo <= hi <= |e| && QuietOutside(e, lo, hi) && Serial(0, e) == 0
    ensures Serial(0, e[lo..hi]) == 0
  {
    var d := Serial(0, e[lo..hi]);
    assert e[..hi] == e[..lo] + e[lo..hi];
    assert e == e[..hi] + e[hi..];
    SerialConcat(0, e[..hi], e[hi..]);
    SerialConcat(0, e[..lo], e[lo..hi]);
    QuietKeepsZero(e[..lo]);
    QuietIsShifts(d, e[hi..]);
    QuietIsShifts(0, e[hi..]);
    QuietKeepsZero(e[hi..]);
    SerialStays(0, e[lo..hi]);
    ShiftsInjective(P, d, 0, |e[hi..]|);
  }

  /** A non-zero difference confined to sixteen consecutive bits shows in the register. */
  lemma BurstVisible(e: seq<bool>, lo: nat)
    requires QuietOutside(e, lo, lo + 16) && Serial(0, e) == 0
    ensures forall i :: 0 <= i < |e| ==> !e[i]
  {
    var from := if lo <= |e| then lo else |e|;
    var to := if lo + 16 <= |e| then lo + 16 else |e|;
    QuietEnds(e, from, to);
    ShortStringVisible(e[from..to], to - from);
    assert forall i :: from <= i < to ==> e[i] == e[from..to][i - from];
  }

  // ---------- where a byte lies among the bits ----------

  /** Bit k of byte i is bit 8 i + k of the string. */
  lemma {:induction false} BitOfByte(s: seq<byte>, i: nat, k: nat)
    requires i < |s| && k < 8
    ensures Bits(s)[8 * i + k] == BitAt(s[i], k)
  {
    if i < |s| - 1 {
      BitOfByte(s[..|s| - 1], i, k);
    }
  }

  lemma HalfAndBit(v: word, w: word)
    requires Half(v) == Half(w) && Bit(v) == Bit(w)
    ensures v == w
  {}

  lemma SingleBit(v: word)
    ensures Bit(v) == 0 || Bit(v) == 1
  {}

  lemma {:induction false} SameRest(b: byte, c: byte, n: nat)
    requires n <= 8 && forall k :: 0 <= k < 8 ==> BitAt(b, k) == BitAt(c, k)
    ensures Rest(b, n) == Rest(c, n)
    decreases 8 - n
  {
    if n == 8 {
      NothingLeft(b);
      NothingLeft(c);
    } else {
      SameRest(b, c, n + 1);
      assert BitAt(b, n) == BitAt(c, n);
      SingleBit(Rest(b, n));
      SingleBit(Rest(c, n));
      HalfAndBit(Rest(b, n), Rest(c, n));
    }
  }

  lemma SameWord(b: byte, c: byte)
    requires b as word == c as word
    ensures b == c
  {}

  /** Bytes with the same bits are the same, and so are buffers. */
  lemma SameBits(b: byte, c: byte)
    requires forall k :: 0 <= k < 8 ==> BitAt(b, k) == BitAt(c, k)
    ensures b == c
  {
    SameRest(b, c, 0);
    SameWord(b, c);
  }

  lemma BitsInjective(a: seq<byte>, b: seq<byte>)
    requires |a| == |b| && Bits(a) == Bits(b)
    ensures a == b
  {
    forall i | 0 <= i < |a|
      ensures a[i] == b[i]
    {
      forall k | 0 <= k < 8
        ensures BitAt(a[i], k) == BitAt(b[i], k)
      {
        BitOfByte(a, i, k);
        BitOfByte(b, i, k);
      }
      SameBits(a[i], b[i]);
    }
  }

  /** A burst: two different buffers of one length whose bits differ only inside a window of sixteen
      consecutive bits, wherever it lies. check_crc16 cannot accept both. */
  lemma BurstDetected(a: seq<byte>, b: seq<byte>, lo: nat)
    requires |a| == |b| && a != b
    requires QuietOutside(Differences(Bits(a), Bits(b)), lo, lo + 16)
    ensures !(EndsInFcs16(a) && EndsInFcs16(b))
  {
    if EndsInFcs16(a) && EndsInFcs16(b) {
      BurstAccepted(a, b, lo);
      BitsInjective(a, b);
    }
  }

  /** In bytes: of two different buffers that agree everywhere but in two neighbouring bytes, check
      bytes included, at most one is accepted. */
  lemma NeighboursDetected(a: seq<byte>, b: seq<byte>, i: nat)
    requires |a| == |b| && a != b
    requires forall j :: 0 <= j < |a| && j != i && j != i + 1 ==> a[j] == b[j]
    ensures !(EndsInFcs16(a) && EndsInFcs16(b))
  {
    var e := Differences(Bits(a), Bits(b));
    forall n | 0 <= n < |e| && !(8 * i <= n < 8 * i + 16)
      ensures !e[n]
    {
      BitOfByte(a, n / 8, n % 8);
      BitOfByte(b, n / 8, n % 8);
      assert 8 * (n / 8) + n % 8 == n;
    }
    BurstDetected(a, b, 8 * i);
  }

  lemma BurstAccepted(a: seq<byte>, b: seq<byte>, lo: nat)
    requires |a| == |b| && EndsInFcs16(a) && EndsInFcs16(b)
    requires QuietOutside(Differences(Bits(a), Bits(b)), lo, lo + 16)
    ensures Bits(a) == Bits(b)
  {
    var e := Differences(Bits(a), Bits(b));
    AcceptedDifference(a, b);
    BurstVisible(e, lo);
    assert forall i :: 0 <= i < |e| ==> e[i] == (Bits(a)[i] != Bits(b)[i]);
  }

  // ---------- odd numbers of errors ----------

  function Halved(v: word, k: nat): word {
    if k == 0 then v else Half(Halved(v, k - 1))
  }

  predicate LowBitSet(v: word) {
    v & 1 == 1
  }

  // Whether an odd number of the low n bits is set.
  predicate Odd(v: word, n: nat) {
    n > 0 && LowBitSet(Halved(v, n - 1)) != Odd(v, n - 1)
  }

  lemma HalvesSum(z: word, x: word, y: word)
    requires Sum(z, x, y)
    ensures Sum(Half(z), Half(x), Half(y))
  {}

  lemma LowBitsSum(z: word, x: word, y: word)
    requires Sum(z, x, y)
    ensures LowBitSet(z) <==> LowBitSet(x) != LowBitSet(y)
  {}

  lemma {:induction false} HalvedSum(z: word, x: word, y: word, k: nat)
    requires Sum(z, x, y)
    ensures Sum(Halved(z, k), Halved(x, k), Halved(y, k))
  {
    if k > 0 {
      HalvedSum(z, x, y, k - 1);
      HalvesSum(Halved(z, k - 1), Halved(x, k - 1), Halved(y, k - 1));
    }
  }

  lemma LowBitsOfHalved(z: word, x: word, y: word, k: nat)
    requires Sum(z, x, y)
    ensures LowBitSet(Halved(z, k)) <==> LowBitSet(Halved(x, k)) != LowBitSet(Halved(y, k))
  {
    HalvedSum(z, x, y, k);
    LowBitsSum(Halved(z, k), Halved(x, k), Halved(y, k));
  }

  lemma {:induction false} OddLinear(z: word, x: word, y: word, n: nat)
    requires Sum(z, x, y)
    ensures Odd(z, n) == (Odd(x, n) != Odd(y, n))
  {
    if n > 0 {
      OddLinear(z, x, y, n - 1);
      LowBitsOfHalved(z, x, y, n - 1);
    }
  }

  lemma {:induction false} HalvedHalf(v: word, h: word, k: nat)
    requires h == Half(v)
    ensures Halved(h, k) == Halved(v, k + 1)
  {
    if k > 0 {
      HalvedHalf(v, h, k - 1);
    }
  }

  lemma {:induction false} OddOfHalf(v: word, h: word, n: nat)
    requires h == Half(v)
    ensures Odd(v, n + 1) == (LowBitSet(v) != Odd(h, n))
  {
    if n > 0 {
      OddOfHalf(v, h, n - 1);
      HalvedHalf(v, h, n - 1);
    }
  }

  lemma {:induction false} HalvedZero(k: nat)
    ensures Halved(0, k) == 0
  {
    if k > 0 {
      HalvedZero(k - 1);
    }
  }

  lemma {:induction false} OddOfZero(n: nat)
    ensures !Odd(0, n)
  {
    if n > 0 {
      OddOfZero(n - 1);
      HalvedZero(n - 1);
    }
  }

  lemma SixteenHalves(v: word)
    requires Low16(v)
    ensures Halved(v, 16) == 0
  {
    var v4 := Half(Half(Half(Half(v))));
    var v8 := Half(Half(Half(Half(v4))));
    assert Halved(v, 1) == Half(v);
    assert Halved(v, 3) == Half(Half(Half(v)));
    assert Halved(v, 4) == v4;
    assert Halved(v, 6) == Half(Half(v4));
    assert Halved(v, 8) == v8;
    assert Halved(v, 10) == Half(Half(v8));
    var v12 := Half(Half(Half(Half(v8))));
    assert Halved(v, 12) == v12;
    assert Halved(v, 14) == Half(Half(v12));
    assert Halved(v, 16) == Half(Half(Half(Half(v12))));
  }

  lemma OddOfOne(n: nat)
    ensures Odd(1, n + 1)
  {
    assert Half(1) == 0;
    OddOfHalf(1, 0, n);
    OddOfZero(n);
  }

  // The polynomial has three bits: 3, 10 and 15.
  lemma OddPolynomial()
    ensures Odd(P, 16)
  {
    OddOfOne(0);
    OddOfHalf(0x2, 0x1, 1);
    OddOfHalf(0x4, 0x2, 2);
    OddOfHalf(0x8, 0x4, 3);
    OddOfHalf(0x10, 0x8, 4);
    OddOfHalf(0x21, 0x10, 5);
    OddOfHalf(0x42, 0x21, 6);
    OddOfHalf(0x84, 0x42, 7);
    OddOfHalf(0x108, 0x84, 8);
    OddOfHalf(0x210, 0x108, 9);
    OddOfHalf(0x420, 0x210, 10);
    OddOfHalf(0x840, 0x420, 11);
    OddOfHalf(0x1081, 0x840, 12);
    OddOfHalf(0x2102, 0x1081, 13);
    OddOfHalf(0x4204, 0x2102, 14);
    OddOfHalf(0x8408, 0x4204, 15);
  }

  // Bit 15 of a halved 16-bit register is clear.
  lemma OddOfHalfRegister(v: word, h: word)
    requires Low16(v) && h == Half(v)
    ensures Odd(v, 16) == (LowBitSet(v) != Odd(h, 16))
  {
    OddOfHalf(v, h, 15);
    HalvedHalf(v, h, 15);
    SixteenHalves(v);
  }

  // A shift moves one bit out exactly when the polynomial, with its three bits, comes in.
  lemma StepKeepsParity(v: word)
    requires Low16(v)
    ensures Odd(BitStep(P, v), 16) == Odd(v, 16)
  {
    var h := Half(v);
    OddOfHalfRegister(v, h);
    StepOf(P, v, h);
    if LowBitSet(v) {
      OddPolynomial();
      OddLinear(BitStep(P, v), h, P, 16);
    }
  }

  lemma FlipChangesParity(v: word, bit: bool)
    ensures Odd(Flip(v, bit), 16) == (Odd(v, 16) != bit)
  {
    if bit {
      FlipIsSum(v);
      OddLinear(Flip(v, true), v, 1, 16);
      OddOfOne(15);
    }
  }

  function Count(e: seq<bool>): nat {
    if e == [] then 0 else Count(e[..|e| - 1]) + if e[|e| - 1] then 1 else 0
  }

  lemma {:induction false} SerialParity(e: seq<bool>)
    ensures Odd(Serial(0, e), 16) <==> Count(e) % 2 == 1
  {
    OddOfZero(16);
    if e != [] {
      var v, bit := Serial(0, e[..|e| - 1]), e[|e| - 1];
      SerialParity(e[..|e| - 1]);
      SerialStays(0, e[..|e| - 1]);
      FlipStays(v, bit);
      StepKeepsParity(Flip(v, bit));
      FlipChangesParity(v, bit);
    }
  }

  lemma SilentIsEven(e: seq<bool>)
    requires Serial(0, e) == 0
    ensures Count(e) % 2 == 0
  {
    SerialParity(e);
    OddOfZero(16);
  }

  /** Two accepted buffers of one length differ in an even number of bits: an odd number of
      flipped bits is never missed, however they are scattered. */
  lemma OddErrorsDetected(a: seq<byte>, b: seq<byte>)
    requires |a| == |b| && Count(Differences(Bits(a), Bits(b))) % 2 == 1
    ensures !(EndsInFcs16(a) && EndsInFcs16(b))
  {
    if EndsInFcs16(a) && EndsInFcs16(b) {
      AcceptedDifference(a, b);
      SilentIsEven(Differences(Bits(a), Bits(b)));
    }
  }
}
