/** The mode byte in front of every USB write of AppleUSBIrDA.cpp: the BOF code and the baud code,
    sent only when it differs from the one sent last; zero means no change. */
module ModeByte {

  type byte = bv8

  // ---------- the byte ----------

  function Combined(bofs: byte, baud: byte): byte {
    (bofs << 4) | baud
  }

  predicate IsCode(bofs: byte, baud: byte) {
    1 <= bofs <= 8 && baud <= 9
  }

  function HighNibble(mode: byte): byte {
    mode >> 4
  }

  function LowNibble(mode: byte): byte {
    mode & 0x0f
  }

  /** The two codes do not get into each other's way, and the byte is never mistaken for "no change". */
  lemma CombinedApart(bofs: byte, baud: byte)
    requires IsCode(bofs, baud)
    ensures HighNibble(Combined(bofs, baud)) == bofs && LowNibble(Combined(bofs, baud)) == baud
    ensures Combined(bofs, baud) != 0
  {}

  // ---------- sender and device ----------

  // What the driver believes it has sent last, and the mode the device is really in.
  datatype Link = Link(last: byte, device: byte)

  datatype Transfer = Transfer(mode: byte, delivered: bool)

  function Header(last: byte, mode: byte): byte {
    if mode != last then mode else 0
  }

  // The device keeps the last header that arrived and was not zero.
  function Step(l: Link, t: Transfer): Link {
    var h := Header(l.last, t.mode);
    Link(t.mode, if t.delivered && h != 0 then h else l.device)
  }

  function Run(l: Link, ts: seq<Transfer>): Link {
    if ts == [] then l else Step(Run(l, ts[..|ts| - 1]), ts[|ts| - 1])
  }

  predicate NoneZero(ts: seq<Transfer>) {
    forall t :: t in ts ==> t.mode != 0
  }

  // Where the stretch of equal modes at the end begins.
  function LastChange(ts: seq<Transfer>): (k: nat)
    requires ts != []
    ensures k < |ts| && ts[k].mode == ts[|ts| - 1].mode
  {
    var n := |ts| - 1;
    if n == 0 || ts[n - 1].mode != ts[n].mode then n else LastChange(ts[..n])
  }

  lemma {:induction false} RunLast(l: Link, ts: seq<Transfer>)
    ensures ts != [] ==> Run(l, ts).last == ts[|ts| - 1].mode
  {}

  /** Exactly when the device is in the mode the driver thinks it is in: the write that announced
      the mode arrived, or the device was in that mode before. An announcement that is lost is not
      repeated until the mode changes again. */
  lemma {:induction false} InSyncExactly(l: Link, ts: seq<Transfer>)
    requires ts != [] && NoneZero(ts) && l.last == 0
    ensures var k, mode := LastChange(ts), ts[|ts| - 1].mode;
      Run(l, ts).device == mode <==> ts[k].delivered || Run(l, ts[..k]).device == mode
  {
    var n := |ts| - 1;
    var init := ts[..n];
    assert ts[n] in ts;
    RunLast(l, init);
    if n > 0 && ts[n - 1].mode == ts[n].mode {
      assert forall t :: t in init ==> t in ts;
      InSyncExactly(l, init);
      var k := LastChange(init);
      assert init[..k] == ts[..k] && init[k] == ts[k];
    }
  }

  /** Nothing is lost by sending changes only: as long as writes arrive, the device is in the
      driver's mode at every one of them, whatever mode it was in to begin with. */
  lemma {:induction false} AlwaysInSync(device: byte, ts: seq<Transfer>, i: nat)
    requires NoneZero(ts) && i < |ts| && forall t :: t in ts ==> t.delivered
    ensures Run(Link(0, device), ts[..i + 1]).device == ts[i].mode
  {
    var l, some := Link(0, device), ts[..i + 1];
    assert forall t :: t in some ==> t in ts;
    InSyncExactly(l, some);
    assert some[LastChange(some)] in ts;
  }

  /** A lost announcement: the device stays in its old mode although the next write arrives. */
  lemma LostChange()
    ensures var ts := [Transfer(0x12, true), Transfer(0x16, false), Transfer(0x16, true)];
      Run(Link(0, 0), ts).device == 0x12 && Run(Link(0, 0), ts).last == 0x16
  {
    var t0, t1, t2 := Transfer(0x12, true), Transfer(0x16, false), Transfer(0x16, true);
    assert [t0, t1, t2][..2] == [t0, t1];
    assert [t0, t1][..1] == [t0];
    assert [t0][..0] == [];
    assert Run(Link(0, 0), [t0]) == Link(0x12, 0x12);
    assert Run(Link(0, 0), [t0, t1]) == Link(0x16, 0x12);
  }

  // ---------- the driver ----------

  // A signed 16-bit integer.
  function Wrap16(n: int): int {
    (n + 0x8000) % 0x10000 - 0x8000
  }

  const COUNTS: seq<int> := [0, 1, 2, 3, 6, 12, 24, 48, -1]
  const CODES: seq<byte> := [8, 7, 6, 5, 4, 3, 2, 1, 1]

  // What a BOF code means to the device.
  function CountOf(code: byte): int {
    match code
    case 8 => 0
    case 7 => 1
    case 6 => 2
    case 5 => 3
    case 4 => 6
    case 3 => 12
    case 2 => 24
    case _ => 48
  }

  // No code stands for a smaller count that is big enough.
  ghost predicate IsLeast(count: int, wanted: int) {
    count >= wanted && forall code: byte :: 1 <= code <= 8 && CountOf(code) >= wanted ==> count <= CountOf(code)
  }

  // The count wanted at 115200 bits a second.
  function Adjusted(count: int, baud: nat): int
    requires baud > 0
  {
    if baud < 115200 then Wrap16(count * (115200 / baud)) else count
  }

  function BaudCode(rate: nat): byte {
    if rate == 2400 then 1
    else if rate == 9600 then 2
    else if rate == 19200 then 3
    else if rate == 38400 then 4
    else if rate == 57600 then 5
    else if rate == 115200 then 6
    else if rate == 576000 then 7
    else if rate == 1152000 then 8
    else if rate == 4000000 then 9
    else 0
  }

  /** The supported rates, slowest first, have the codes 1 to 9; no other rate has a code. */
  const RATES: seq<nat> := [2400, 9600, 19200, 38400, 57600, 115200, 576000, 1152000, 4000000]

  lemma RatesInOrder(i: nat, rate: nat)
    requires i < |RATES|
    ensures |RATES| == 9 && BaudCode(RATES[i]) as nat == i + 1 && (i > 0 ==> RATES[i - 1] < RATES[i])
    ensures rate !in RATES <==> BaudCode(rate) == 0
  {
    assert RATES[0] == 2400 && RATES[1] == 9600 && RATES[2] == 19200 && RATES[3] == 38400 && RATES[4] == 57600;
    assert RATES[5] == 115200 && RATES[6] == 576000 && RATES[7] == 1152000 && RATES[8] == 4000000;
  }

  /** A faster rate has a greater code. */
  lemma FasterIsGreater(a: nat, b: nat)
    requires BaudCode(a) != 0 && BaudCode(b) != 0
    ensures a < b <==> BaudCode(a) < BaudCode(b)
  {}

  /** A greater BOF code stands for fewer BOFs, from 48 down to none. */
  lemma GreaterIsFewer(a: byte, b: byte)
    requires 1 <= a <= 8 && 1 <= b <= 8
    ensures a < b <==> CountOf(a) > CountOf(b)
    ensures 0 <= CountOf(a) <= 48 && CountOf(1) == 48 && CountOf(8) == 0
  {}

  /** BOFs are counted at 115200 bits a second: at a slower rate that divides it, the count wanted takes
      as long there as the one asked for does at that rate; at that rate and above it stays. */
  lemma SameDuration(count: int, baud: nat)
    requires baud > 0
    ensures baud >= 115200 ==> Adjusted(count, baud) == count
    ensures 115200 % baud == 0 && -0x8000 <= count * (115200 / baud) < 0x8000 ==>
      Adjusted(count, baud) * baud == count * 115200
  {
    if baud < 115200 && 115200 % baud == 0 {
      var q := 115200 / baud;
      assert q * baud == 115200;
      assert count * q * baud == count * (q * baud);
    } else if 115200 % baud == 0 {
      assert baud == 115200;
    }
  }

  /** The adjusted count is cut to 16 bits. */
  lemma CutTo16(n: int)
    ensures -0x8000 <= Wrap16(n) < 0x8000 && (Wrap16(n) - n) % 0x10000 == 0
  {
    assert n + 0x8000 == (n + 0x8000) / 0x10000 * 0x10000 + (n + 0x8000) % 0x10000;
  }

  class IrdaUsb {
    const fPipeOutBuffer: array<byte>
    var fCount: nat
    var fBaudCode: byte
    var fBofsCode: byte
    var fLastChangeByte: byte
    var fCurrentBaud: nat
    // The mode the device is in, and every write since IrDA was started.
    ghost var before: byte
    ghost var device: byte
    ghost var transfers: seq<Transfer>

    /** The mode the driver wants the device to be in. */
    function Mode(): byte
      reads this
    {
      Combined(fBofsCode, fBaudCode)
    }

    ghost predicate Valid()
      reads this
    {
      && IsCode(fBofsCode, fBaudCode) && fPipeOutBuffer.Length > 0
      && NoneZero(transfers) && Link(fLastChangeByte, device) == Run(Link(0, before), transfers)
    }

    constructor (size: nat, ghost device: byte)
      requires size > 0
      ensures fPipeOutBuffer.Length == size && fresh(fPipeOutBuffer) && this.device == device
      ensures fCount == 0 && fBaudCode == fBofsCode == fLastChangeByte == 0 && fCurrentBaud == 0
    {
      fPipeOutBuffer := new byte[size];
      fCount, fBaudCode, fBofsCode, fLastChangeByte, fCurrentBaud := 0, 0, 0, 0, 0;
      before, this.device, transfers := device, device, [];
    }

    // startIrDA, as far as the mode is concerned: nothing is known of the device.
    method StartIrDA()
      requires fPipeOutBuffer.Length > 0
      modifies this
      ensures Valid() && transfers == [] && fLastChangeByte == 0 && fCurrentBaud == 9600
      ensures fBaudCode == BaudCode(9600) && fBofsCode == 1
    {
      fBaudCode, fLastChangeByte, fCurrentBaud := 2, 0, 9600;
      before, transfers := device, [];
      var _ := SetBofCount(10);
    }

    /** Takes the first supported count that is big enough; when none is, the code for 48 is used,
        and the reply is -1. */
    method SetBofCount(count: int) returns (used: int)
      requires fCurrentBaud > 0
      modifies `fBofsCode
      ensures 1 <= fBofsCode <= 8
      ensures var wanted := Adjusted(count, fCurrentBaud);
        if wanted > 48 then used == -1 && fBofsCode == 1 else used == CountOf(fBofsCode) && IsLeast(used, wanted)
    {
      var wanted := Adjusted(count, fCurrentBaud);
      var i := 0;
      while i < 9
        invariant 0 <= i < 9 && (i > 0 ==> COUNTS[i - 1] < wanted)
        decreases 9 - i
      {
        if COUNTS[i] >= wanted || COUNTS[i] < 0 {
          fBofsCode := CODES[i];
          return COUNTS[i];
        }
        i := i + 1;
      }
    }

    // bcopy into the output buffer.
    method Copy(source: seq<byte>, at: nat)
      requires at + |source| <= fPipeOutBuffer.Length
      modifies fPipeOutBuffer
      ensures fPipeOutBuffer[at..at + |source|] == source
      ensures fPipeOutBuffer[..at] == old(fPipeOutBuffer[..at])
    {
      forall i | 0 <= i < |source| {
        fPipeOutBuffer[at + i] := source[i];
      }
    }

    method FillBuffer(header: byte, control: seq<byte>, data: seq<byte>)
      requires fPipeOutBuffer.Length > |control| + |data|
      modifies `fCount, fPipeOutBuffer
      ensures fCount == 1 + |control| + |data| && fPipeOutBuffer[0] == header
      ensures control != [] || data == [] ==> fPipeOutBuffer[1..fCount] == control + data
      ensures control == [] ==> fPipeOutBuffer[1..] == old(fPipeOutBuffer[1..])
    {
      fPipeOutBuffer[0] := header;
      if |control| != 0 {
        Copy(control, 1);
        assert fPipeOutBuffer[..1][0] == header;
        if |data| != 0 {
          ghost var sofar := fPipeOutBuffer[..|control| + 1];
          Copy(data, |control| + 1);
          assert fPipeOutBuffer[..|control| + 1] == sofar;
          assert fPipeOutBuffer[1..|control| + 1] == sofar[1..];
        }
      }
      fCount := |control| + |data| + 1;
    }

    // What becomes of a write is up to the bus.
    method Write(ghost mode: byte) returns (delivered: bool)
      requires fPipeOutBuffer.Length > 0
      modifies `device, `transfers
      ensures transfers == old(transfers) + [Transfer(mode, delivered)]
      ensures device == if delivered && fPipeOutBuffer[0] != 0 then fPipeOutBuffer[0] else old(device)
    {
      delivered := *;
      transfers := transfers + [Transfer(mode, delivered)];
      if delivered && fPipeOutBuffer[0] != 0 {
        device := fPipeOutBuffer[0];
      }
    }

    lemma RunMore(t: Transfer)
      ensures Run(Link(0, before), transfers + [t]) == Step(Run(Link(0, before), transfers), t)
    {
      assert (transfers + [t])[..|transfers|] == transfers;
    }

    // The buffer is ready: remember the mode as sent, and write.
    method Send() returns (delivered: bool)
      requires Valid() && fPipeOutBuffer[0] == Header(fLastChangeByte, Mode())
      modifies `fLastChangeByte, `device, `transfers
      ensures Valid() && transfers == old(transfers) + [Transfer(Mode(), delivered)] && fLastChangeByte == Mode()
    {
      CombinedApart(fBofsCode, fBaudCode);
      RunMore(Transfer(Mode(), true));
      RunMore(Transfer(Mode(), false));
      fLastChangeByte := Mode();
      delivered := Write(Mode());
    }

    /** StartTransmit: the mode byte, then the control and data bytes. Data without control bytes
        are counted, but what is sent in their place is whatever the buffer held. */
    method StartTransmit(control: seq<byte>, data: seq<byte>) returns (delivered: bool)
      requires Valid() && fPipeOutBuffer.Length > |control| + |data|
      modifies `fCount, `fLastChangeByte, `device, `transfers, fPipeOutBuffer
      ensures Valid() && transfers == old(transfers) + [Transfer(Mode(), delivered)]
      ensures fLastChangeByte == Mode()
      ensures fCount == 1 + |control| + |data|
      ensures fPipeOutBuffer[0] == Header(old(fLastChangeByte), Mode())
      ensures control != [] || data == [] ==> fPipeOutBuffer[1..fCount] == control + data
      ensures control == [] ==> fPipeOutBuffer[1..] == old(fPipeOutBuffer[1..])
    {
      var changeByte := Mode();
      FillBuffer(if changeByte != fLastChangeByte then changeByte else 0, control, data);
      delivered := Send();
    }

    // An unsupported rate gets code zero; the mode byte is sent at once, alone.
    method SetSpeed(rate: nat) returns (code: byte)
      requires Valid()
      modifies `fBaudCode, `fCurrentBaud, `fCount, `fLastChangeByte, `device, `transfers, fPipeOutBuffer
      ensures Valid() && code == fBaudCode == BaudCode(rate) && fCurrentBaud == rate && fCount == 1
      ensures |transfers| == |old(transfers)| + 1 && old(transfers) <= transfers && transfers[|transfers| - 1].mode == Mode()
    {
      fCurrentBaud := rate;
      fBaudCode := BaudCode(rate);
      var _ := StartTransmit([], []);
      code := fBaudCode;
    }

    /** From startIrDA on, at every write: while none has been lost, the device is in the driver's
        mode. */
    lemma InSync()
      requires Valid() && transfers != [] && forall t :: t in transfers ==> t.delivered
      ensures device == fLastChangeByte
    {
      AlwaysInSync(before, transfers, |transfers| - 1);
      assert transfers[..|transfers|] == transfers;
      RunLast(Link(0, before), transfers);
    }
  }
}
