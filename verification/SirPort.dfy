/** The SIR half of the driver object (AppleSCCIrDA.cpp): the transmit buffer is filled in place
    and the input parser works through its fields, both proved against module SirFrame. */
module SirPort {
  import opened Crc
  import opened CrcCheck
  import opened Sequences
  import opened SirFrame

  function Payloads(events: seq<Event>): seq<seq<byte>> {
    if events == [] then []
    else
      match events[|events| - 1]
      case Delivered(payload) => Payloads(events[..|events| - 1]) + [payload]
      case CrcError => Payloads(events[..|events| - 1])
  }

  // fICRCError is an unsigned 32-bit counter.
  function Counted(start: word, events: seq<Event>): word {
    if events == [] then start
    else
      match events[|events| - 1]
      case Delivered(_) => Counted(start, events[..|events| - 1])
      case CrcError => Counted(start, events[..|events| - 1]) + 1
  }

  /** The parser never holds more than capacity bytes anywhere along the input. */
  ghost predicate Fits(p: Parser, input: seq<byte>, capacity: nat) {
    forall i :: 0 <= i <= |input| ==> |Parse(p, input[..i]).parser.held| <= capacity
  }

  lemma OneEvent(start: word, e: Event)
    ensures Payloads([e]) == if e.Delivered? then [e.payload] else []
    ensures Counted(start, [e]) == if e.Delivered? then start else start + 1
  {
    assert [e][..0] == [];
  }

  lemma Judged(start: word, held: seq<byte>)
    ensures |held| <= 2 ==> Payloads(Verdict(held)) == [] && Counted(start, Verdict(held)) == start
    ensures |held| > 2 && EndsInFcs16(held) ==>
      Payloads(Verdict(held)) == [held[..|held| - 2]] && Counted(start, Verdict(held)) == start
    ensures |held| > 2 && !EndsInFcs16(held) ==>
      Payloads(Verdict(held)) == [] && Counted(start, Verdict(held)) == start + 1
  {
    if |held| > 2 {
      OneEvent(start, Verdict(held)[0]);
    }
  }

  lemma {:induction false} EventsConcat(start: word, a: seq<Event>, b: seq<Event>)
    ensures Payloads(a + b) == Payloads(a) + Payloads(b)
    ensures Counted(start, a + b) == Counted(Counted(start, a), b)
  {
    if b == [] {
      assert a + b == a;
    } else {
      EventsConcat(start, a, b[..|b| - 1]);
      assert (a + b)[..|a + b| - 1] == a + b[..|b| - 1];
    }
  }

  lemma {:induction false} StuffConcat(a: seq<byte>, b: seq<byte>)
    ensures StuffAll(a + b) == StuffAll(a) + StuffAll(b)
  {
    if b == [] {
      assert a + b == a;
    } else {
      var init, last := b[..|b| - 1], b[|b| - 1];
      StuffConcat(a, init);
      StuffConcatStep(a, init, last);
      assert b == init + [last];
    }
  }

  lemma StuffConcatStep(a: seq<byte>, init: seq<byte>, last: byte)
    requires StuffAll(a + init) == StuffAll(a) + StuffAll(init)
    ensures StuffAll(a + (init + [last])) == StuffAll(a) + StuffAll(init + [last])
  {
    var x, y, z := StuffAll(a), StuffAll(init), Stuff(last);
    var whole, tail := StuffAll(a + (init + [last])), StuffAll(init + [last]);
    assert whole == (x + y) + z by {
      assert a + (init + [last]) == (a + init) + [last];
      StuffAppend(a + init, last);
    }
    assert tail == y + z by {
      StuffAppend(init, last);
    }
    Associates(x, y, z);
  }

  lemma StuffAppend(s: seq<byte>, b: byte)
    ensures StuffAll(s + [b]) == StuffAll(s) + Stuff(b)
  {
    assert (s + [b])[..|s|] == s;
  }

  lemma StuffOneMore(src: seq<byte>, i: nat)
    requires i < |src|
    ensures StuffAll(src[..i + 1]) == StuffAll(src[..i]) + Stuff(src[i])
    ensures |StuffAll(src[..i + 1])| <= |StuffAll(src)|
  {
    assert src[..i + 1][..i] == src[..i];
    assert src == src[..i + 1] + src[i + 1..];
    StuffConcat(src[..i + 1], src[i + 1..]);
  }

  lemma StuffTwo(lo: byte, hi: byte)
    ensures StuffAll([lo, hi]) == Stuff(lo) + Stuff(hi)
  {
    assert [lo, hi][..1] == [lo];
    assert [lo][..0] == [];
    assert StuffAll([lo]) == [] + Stuff(lo) == Stuff(lo);
  }

  lemma FrameInFour(bofs: nat, control: seq<byte>, data: seq<byte>)
    ensures Frame(bofs, control + data)
         == Xbofs(bofs) + [BOF] + StuffAll(control) + StuffAll(data) + StuffAll(Fcs16(control + data)) + [EOF]
  {
    var payload := control + data;
    StuffConcat(control, data);
    StuffConcat(payload, Fcs16(payload));
    Associates(Xbofs(bofs) + [BOF], StuffAll(payload), StuffAll(Fcs16(payload)));
    Associates(Xbofs(bofs) + [BOF], StuffAll(control), StuffAll(data));
  }

  lemma {:induction false} HoldsAtMost(p: Parser, input: seq<byte>)
    ensures |Parse(p, input).parser.held| <= |p.held| + |input|
  {
    if input != [] {
      HoldsAtMost(p, input[..|input| - 1]);
    }
  }

  /** A chunk no longer than the room left in the buffer can always be parsed. */
  lemma ShortInputFits(p: Parser, input: seq<byte>, capacity: nat)
    requires |p.held| + |input| <= capacity
    ensures Fits(p, input, capacity)
  {
    forall i | 0 <= i <= |input|
      ensures |Parse(p, input[..i]).parser.held| <= capacity
    {
      HoldsAtMost(p, input[..i]);
    }
  }

  class SirPort {
    const crc16Table: array<word>
    const fInUseBuffer: array<byte>
    var fDataLength: nat
    var fParseState: ParseState
    var fICRCError: word
    var fBofsCode: nat
    // Whether the IrDA object exists, and what it was handed by ReadComplete.
    var fIrDA: bool
    var readCompletes: seq<seq<byte>>

    ghost predicate Valid()
      reads this, crc16Table
    {
      && IsTable(POLYNOMIAL16, crc16Table[..])
      && fDataLength <= fInUseBuffer.Length
      && fBofsCode <= 255
    }

    ghost function Abs(): Parser
      reads this, fInUseBuffer
      requires fDataLength <= fInUseBuffer.Length
    {
      Parser(fParseState, fInUseBuffer[..fDataLength])
    }

    constructor (bofs: nat, capacity: nat)
      requires bofs <= 255
      ensures Valid() && fresh(crc16Table) && fresh(fInUseBuffer) && fInUseBuffer.Length == capacity
      ensures Abs() == RESET && fBofsCode == bofs && fICRCError == 0 && !fIrDA && readCompletes == []
    {
      crc16Table := new word[256];
      fInUseBuffer := new byte[capacity];
      fDataLength, fParseState, fICRCError, fBofsCode, fIrDA, readCompletes := 0, Idle, 0, bofs, false, [];
      new;
      GenCrcTable(POLYNOMIAL16, crc16Table);
    }

    // ---------- input ----------

    method ParseInputReset()
      requires Valid()
      modifies this`fParseState, this`fDataLength
      ensures Valid() && Abs() == RESET
    {
      fParseState := Idle;
      fDataLength := 0;
    }

    method Hold(b: byte)
      requires Valid() && fDataLength < fInUseBuffer.Length
      modifies this`fDataLength, this`fParseState, fInUseBuffer
      ensures Valid() && Abs() == Parser(Data, old(Abs()).held + [b])
    {
      fInUseBuffer[fDataLength] := b;
      fDataLength := fDataLength + 1;
      fParseState := Data;
    }

    // Enough for a CRC is held: hand over what is before it, or count an error.
    method JudgeFrame()
      requires Valid() && fDataLength > 2
      modifies this`fDataLength, this`fICRCError, this`readCompletes
      ensures Valid()
      ensures var held := old(Abs()).held;
        if EndsInFcs16(held) then
          && fICRCError == old(fICRCError)
          && readCompletes == old(readCompletes) + if fIrDA then [held[..|held| - 2]] else []
        else fICRCError == old(fICRCError) + 1 && readCompletes == old(readCompletes)
    {
      ghost var held := Abs().held;
      var good := CheckCrc16(crc16Table, fInUseBuffer[..fDataLength]);
      if good {
        fDataLength := fDataLength - 2;
        if fIrDA {
          assert fInUseBuffer[..fDataLength] == held[..|held| - 2];
          readCompletes := readCompletes + [fInUseBuffer[..fDataLength]];
        }
      } else {
        fICRCError := fICRCError + 1;
      }
    }

    // The EOF of a frame: check the CRC, hand the payload over or count an error, start afresh.
    method EndFrame()
      requires Valid()
      modifies this`fDataLength, this`fParseState, this`fICRCError, this`readCompletes
      ensures Valid() && Abs() == RESET
      ensures fICRCError == Counted(old(fICRCError), Verdict(old(Abs()).held))
      ensures readCompletes == old(readCompletes) + if fIrDA then Payloads(Verdict(old(Abs()).held)) else []
    {
      Judged(fICRCError, Abs().held);
      if fDataLength > 2 {
        JudgeFrame();
      }
      fParseState := Idle;
      fDataLength := 0;
    }

    // One turn of the loop in parseInputSIR.
    method ParseByte(b: byte)
      requires Valid() && |Step(Abs(), b).parser.held| <= fInUseBuffer.Length
      modifies this`fDataLength, this`fParseState, this`fICRCError, this`readCompletes, fInUseBuffer
      ensures Valid() && Abs() == Step(old(Abs()), b).parser
      ensures fICRCError == Counted(old(fICRCError), Step(old(Abs()), b).events)
      ensures readCompletes == old(readCompletes) + if fIrDA then Payloads(Step(old(Abs()), b).events) else []
    {
      match fParseState {
        case Idle =>
          if b == 0xc0 {
            fParseState := SeenBof;
          }
        case SeenBof =>
          if b == 0xc0 {
          } else if b == 0xc1 {
            ParseInputReset();
          } else if b == 0x7d {
            fParseState := Pad;
          } else {
            Hold(b);
          }
        case Data =>
          if b == 0xc0 {
            ParseInputReset();
          } else if b == 0xc1 {
            EndFrame();
          } else if b == 0x7d {
            fParseState := Pad;
          } else {
            Hold(b);
          }
        case Pad =>
          Hold(b ^ 0x20);
      }
    }

    // The port has done what the parser function says of the input so far.
    ghost predicate Follows(p: Parser, errors: word, got: seq<seq<byte>>, input: seq<byte>)
      reads this, crc16Table, fInUseBuffer
    {
      && Valid() && Abs() == Parse(p, input).parser
      && fICRCError == Counted(errors, Parse(p, input).events)
      && readCompletes == got + if fIrDA then Payloads(Parse(p, input).events) else []
    }

    method FollowByte(ghost p: Parser, ghost errors: word, ghost got: seq<seq<byte>>, ghost input: seq<byte>, b: byte)
      requires Follows(p, errors, got, input) && |Parse(p, input + [b]).parser.held| <= fInUseBuffer.Length
      modifies this`fDataLength, this`fParseState, this`fICRCError, this`readCompletes, fInUseBuffer
      ensures Follows(p, errors, got, input + [b])
    {
      ghost var now := Parse(p, input).parser;
      ParseConcat(p, input, [b]);
      ParseOne(now, b);
      EventsConcat(errors, Parse(p, input).events, Step(now, b).events);
      Associates(got, Payloads(Parse(p, input).events), Payloads(Step(now, b).events));
      ParseByte(b);
    }

    method ParseInputSIR(data: seq<byte>)
      requires Valid() && Fits(Abs(), data, fInUseBuffer.Length)
      modifies this`fDataLength, this`fParseState, this`fICRCError, this`readCompletes, fInUseBuffer
      ensures Follows(old(Abs()), old(fICRCError), old(readCompletes), data)
    {
      ghost var p, errors, got := Abs(), fICRCError, readCompletes;
      for i := 0 to |data|
        invariant Follows(p, errors, got, data[..i])
      {
        assert data[..i] + [data[i]] == data[..i + 1];
        FollowByte(p, errors, got, data[..i], data[i]);
      }
      assert data[..|data|] == data;
    }

    // ---------- output ----------

    method SIRStuff(b: byte, out: array<byte>, dest: nat, length: nat) returns (dest': nat, length': nat)
      requires dest + |Stuff(b)| <= out.Length
      modifies out
      ensures dest' == dest + |Stuff(b)| && length' == length + |Stuff(b)|
      ensures out[..dest'] == old(out[..dest]) + Stuff(b)
      ensures forall j :: dest' <= j < out.Length ==> out[j] == old(out[j])
    {
      if b == 0xc0 || b == 0xc1 || b == 0x7d {
        out[dest] := 0x7d;
        out[dest + 1] := b ^ 0x20;
        dest', length' := dest + 2, length + 2;
      } else {
        out[dest] := b;
        dest', length' := dest + 1, length + 1;
      }
    }

    // The stuffing loop, once for the control bytes and once for the data bytes.
    method StuffBytes(src: seq<byte>, out: array<byte>, dest: nat, length: nat) returns (dest': nat, length': nat)
      requires dest + |StuffAll(src)| <= out.Length
      modifies out
      ensures dest' == dest + |StuffAll(src)| && length' == length + |StuffAll(src)|
      ensures out[..dest'] == old(out[..dest]) + StuffAll(src)
      ensures forall j :: dest' <= j < out.Length ==> out[j] == old(out[j])
    {
      dest', length' := dest, length;
      for i := 0 to |src|
        invariant dest' == dest + |StuffAll(src[..i])| <= out.Length && length' == length + |StuffAll(src[..i])|
        invariant out[..dest'] == old(out[..dest]) + StuffAll(src[..i])
        invariant forall j :: dest' <= j < out.Length ==> out[j] == old(out[j])
      {
        StuffOneMore(src, i);
        dest', length' := SIRStuff(src[i], out, dest', length');
      }
      assert src[..|src|] == src;
    }

    // The padding and the BOF.
    method StartFrame(out: array<byte>) returns (dest: nat, length: nat)
      requires out.Length > fBofsCode
      modifies out
      ensures dest == length == fBofsCode + 1
      ensures out[..dest] == Xbofs(fBofsCode) + [BOF]
      ensures forall j :: dest <= j < out.Length ==> out[j] == old(out[j])
    {
      for i := 0 to fBofsCode
        invariant out[..i] == Xbofs(i)
        invariant forall j :: i <= j < out.Length ==> out[j] == old(out[j])
      {
        out[i] := 0xff;
        assert out[..i + 1] == Xbofs(i) + [XBOF];
      }
      dest := fBofsCode;
      out[dest] := 0xc0;
      dest, length := dest + 1, fBofsCode + 1;
    }

    // The CRC runs over the control bytes and then on over the data bytes.
    method ComputeFcs(control: seq<byte>, data: seq<byte>) returns (lo: byte, hi: byte)
      requires Valid()
      ensures [lo, hi] == Fcs16(control + data)
    {
      var crc := UpdateCrc(POLYNOMIAL16, crc16Table, 0xffff, control);
      crc := UpdateCrc(POLYNOMIAL16, crc16Table, crc, data);
      CrcConcat(POLYNOMIAL16, INITIAL16, control, data);
      crc := Complement16(crc);
      lo, hi := LowByteOf(crc), LowByteOf(crc >> 8);
    }

    method StuffFcs(control: seq<byte>, data: seq<byte>, out: array<byte>, dest: nat, length: nat)
      returns (dest': nat, length': nat)
      requires Valid() && dest + |StuffAll(Fcs16(control + data))| <= out.Length
      modifies out
      ensures dest' == dest + |StuffAll(Fcs16(control + data))|
      ensures length' == length + |StuffAll(Fcs16(control + data))|
      ensures out[..dest'] == old(out[..dest]) + StuffAll(Fcs16(control + data))
      ensures forall j :: dest' <= j < out.Length ==> out[j] == old(out[j])
    {
      var lo, hi := ComputeFcs(control, data);
      StuffTwo(lo, hi);
      dest', length' := SIRStuff(lo, out, dest, length);
      dest', length' := SIRStuff(hi, out, dest', length');
    }

    /** Fills the transmit buffer with exactly one frame and returns its length. */
    method PrepareBufferForTransmit(out: array<byte>, control: seq<byte>, data: seq<byte>) returns (length: nat)
      requires Valid() && out.Length >= |Frame(fBofsCode, control + data)|
      modifies out
      ensures length == |Frame(fBofsCode, control + data)|
      ensures out[..length] == Frame(fBofsCode, control + data)
      ensures forall j :: length <= j < out.Length ==> out[j] == old(out[j])
    {
      FrameInFour(fBofsCode, control, data);
      var dest;
      dest, length := StartFrame(out);
      dest, length := StuffBytes(control, out, dest, length);
      dest, length := StuffBytes(data, out, dest, length);
      dest, length := StuffFcs(control, data, out, dest, length);
      out[dest] := 0xc1;
      length := length + 1;
    }

    /** StartTransmit gives up any packet being received, and hands one frame to the transmitter,
        unless there is nothing to send. */
    method StartTransmit(out: array<byte>, control: seq<byte>, data: seq<byte>) returns (ok: bool, length: nat)
      requires Valid() && (control + data != [] ==> out.Length >= |Frame(fBofsCode, control + data)|)
      modifies this`fParseState, this`fDataLength, out
      ensures Valid() && Abs() == RESET
      ensures ok <==> control + data != []
      ensures ok ==> length == |Frame(fBofsCode, control + data)| && out[..length] == Frame(fBofsCode, control + data)
      ensures !ok ==> length == 0 && out[..] == old(out[..])
    {
      ParseInputReset();
      length := 0;
      ok := |control| + |data| > 0;
      if ok {
        length := PrepareBufferForTransmit(out, control, data);
      }
    }
  }
}
