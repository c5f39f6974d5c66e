/** IrLAP asynchronous (SIR) framing, AppleSCCIrDA.cpp: what a frame is, what the four-state
    input parser does with a byte stream, and how the two fit together. */
module SirFrame {
  import opened Crc
  import opened CrcCheck
  import opened Sequences

  const BOF: byte := 0xc0
  const EOF: byte := 0xc1
  const ESCAPE: byte := 0x7d
  const XBOF: byte := 0xff

  // ---------- the sender's side ----------

  predicate IsSpecial(b: byte) {
    b == BOF || b == EOF || b == ESCAPE
  }

  function Stuff(b: byte): (s: seq<byte>)
    ensures 1 <= |s| <= 2
  {
    if IsSpecial(b) then [ESCAPE, b ^ 0x20] else [b]
  }

  function StuffAll(s: seq<byte>): (t: seq<byte>)
    ensures |s| <= |t| <= 2 * |s|
  {
    if s == [] then [] else StuffAll(s[..|s| - 1]) + Stuff(s[|s| - 1])
  }

  function Xbofs(n: nat): seq<byte> {
    seq(n, _ => XBOF)
  }

  /** What goes between the BOF and the EOF: the payload and its check bytes, stuffed. */
  function Body(payload: seq<byte>): seq<byte> {
    StuffAll(payload + Fcs16(payload))
  }

  function Frame(bofs: nat, payload: seq<byte>): seq<byte> {
    Xbofs(bofs) + [BOF] + Body(payload) + [EOF]
  }

  // A stretch of sent bytes together with the payload it is meant to carry.
  datatype Sent = Sent(bytes: seq<byte>, payload: seq<byte>)

  ghost predicate IsFrame(f: Sent) {
    f.payload != [] && exists bofs: nat :: f.bytes == Frame(bofs, f.payload)
  }

  function OnTheWire(fs: seq<Sent>): seq<byte> {
    if fs == [] then [] else OnTheWire(fs[..|fs| - 1]) + fs[|fs| - 1].bytes
  }

  // ---------- the receiver's side ----------

  datatype ParseState = Idle | SeenBof | Data | Pad

  datatype Parser = Parser(state: ParseState, held: seq<byte>)

  datatype Event = Delivered(payload: seq<byte>) | CrcError

  datatype Outcome = Outcome(parser: Parser, events: seq<Event>)

  const RESET := Parser(Idle, [])

  // What the EOF of a frame with these unstuffed bytes amounts to.
  ghost function Verdict(held: seq<byte>): seq<Event> {
    if |held| <= 2 then []
    else if EndsInFcs16(held) then [Delivered(held[..|held| - 2])]
    else [CrcError]
  }

  ghost function Step(p: Parser, b: byte): Outcome {
    match p.state
    case Idle =>
      if b == BOF then Outcome(p.(state := SeenBof), []) else Outcome(p, [])
    case SeenBof =>
      if b == BOF then Outcome(p, [])
      else if b == EOF then Outcome(RESET, [])
      else if b == ESCAPE then Outcome(p.(state := Pad), [])
      else Outcome(Parser(Data, p.held + [b]), [])
    case Data =>
      if b == BOF then Outcome(RESET, [])
      else if b == EOF then Outcome(RESET, Verdict(p.held))
      else if b == ESCAPE then Outcome(p.(state := Pad), [])
      else Outcome(Parser(Data, p.held + [b]), [])
    case Pad =>
      Outcome(Parser(Data, p.held + [b ^ 0x20]), [])
  }

  ghost function Parse(p: Parser, input: seq<byte>): Outcome {
    if input == [] then Outcome(p, [])
    else
      var before := Parse(p, input[..|input| - 1]);
      var last := Step(before.parser, input[|input| - 1]);
      Outcome(last.parser, before.events + last.events)
  }

  lemma ParseMore(p: Parser, s: seq<byte>, b: byte)
    ensures Parse(p, s + [b]).parser == Step(Parse(p, s).parser, b).parser
    ensures Parse(p, s + [b]).events == Parse(p, s).events + Step(Parse(p, s).parser, b).events
  {
    assert (s + [b])[..|s|] == s;
  }

  /** How the input is cut into chunks makes no difference. */
  lemma {:induction false} ParseConcat(p: Parser, a: seq<byte>, b: seq<byte>)
    ensures Parse(p, a + b).parser == Parse(Parse(p, a).parser, b).parser
    ensures Parse(p, a + b).events == Parse(p, a).events + Parse(Parse(p, a).parser, b).events
  {
    if b == [] {
      assert a + b == a;
    } else {
      var init, last := b[..|b| - 1], b[|b| - 1];
      ParseConcat(p, a, init);
      LastApart(b);
      Associates(a, init, [last]);
      ParseMore(p, a + init, last);
    }
  }

  lemma ParseOne(p: Parser, b: byte)
    ensures Parse(p, [b]) == Step(p, b)
  {
    assert [b][..0] == [];
    assert Parse(p, [b][..0]) == Outcome(p, []);
    assert [] + Step(p, b).events == Step(p, b).events;
  }

  // ---------- stuffing ----------

  lemma EscapedIsPlain(b: byte)
    requires IsSpecial(b)
    ensures !IsSpecial(b ^ 0x20) && (b ^ 0x20) ^ 0x20 == b
  {}

  /** The bytes on the wire, as numbers: three of them are escaped, nothing else is. */
  lemma WireBytes(b: byte)
    ensures Stuff(0xc0) == [0x7d, 0xe0] && Stuff(0xc1) == [0x7d, 0xe1] && Stuff(0x7d) == [0x7d, 0x5d]
    ensures b != 0xc0 && b != 0xc1 && b != 0x7d ==> Stuff(b) == [b]
  {}

  /** A frame is any number of 0xff, a 0xc0, a body without 0xc0 and 0xc1, and a 0xc1. */
  lemma FrameOnTheWire(bofs: nat, payload: seq<byte>)
    ensures var f := Frame(bofs, payload);
      && |f| >= bofs + 4 && (forall i :: 0 <= i < bofs ==> f[i] == 0xff)
      && f[bofs] == 0xc0 && f[|f| - 1] == 0xc1
      && (forall i :: bofs < i < |f| - 1 ==> f[i] != 0xc0 && f[i] != 0xc1)
  {
    var f, body := Frame(bofs, payload), Body(payload);
    NoDelimiterInside(payload + Fcs16(payload));
    forall i | bofs < i < |f| - 1
      ensures f[i] != 0xc0 && f[i] != 0xc1
    {
      assert f[i] == body[i - bofs - 1];
    }
  }

  /** The delimiters never occur inside a stuffed body. */
  lemma {:induction false} NoDelimiterInside(s: seq<byte>)
    ensures BOF !in StuffAll(s) && EOF !in StuffAll(s)
  {
    if s != [] {
      NoDelimiterInside(s[..|s| - 1]);
      if IsSpecial(s[|s| - 1]) {
        EscapedIsPlain(s[|s| - 1]);
      }
    }
  }

  lemma FrameLength(bofs: nat, payload: seq<byte>)
    ensures |Frame(bofs, payload)| <= bofs + 2 * |payload| + 6
    ensures bofs + 2 * |payload| <= 4130 ==> |Frame(bofs, payload)| <= 4136
  {}

  // Reading one stuffed byte while inside a frame.
  lemma ReadStuffed(p: Parser, b: byte)
    requires p.state == SeenBof || p.state == Data
    ensures Parse(p, Stuff(b)) == Outcome(Parser(Data, p.held + [b]), [])
  {
    if IsSpecial(b) {
      EscapedIsPlain(b);
      assert Stuff(b) == [ESCAPE] + [b ^ 0x20];
      ParseConcat(p, [ESCAPE], [b ^ 0x20]);
      ParseOne(p, ESCAPE);
      ParseOne(p.(state := Pad), b ^ 0x20);
    } else {
      ParseOne(p, b);
    }
  }

  function AfterBody(p: Parser, s: seq<byte>): Parser {
    if s == [] then p else Parser(Data, p.held + s)
  }

  lemma AfterOneMore(p: Parser, s: seq<byte>)
    requires s != []
    ensures AfterBody(p, s) == Parser(Data, AfterBody(p, s[..|s| - 1]).held + [s[|s| - 1]])
  {
    assert p.held + s == (p.held + s[..|s| - 1]) + [s[|s| - 1]];
  }

  /** Inside a frame the parser undoes the stuffing and reports nothing. */
  lemma {:induction false} ReadBody(p: Parser, s: seq<byte>)
    requires p.state == SeenBof || p.state == Data
    ensures Parse(p, StuffAll(s)) == Outcome(AfterBody(p, s), [])
  {
    if s != [] {
      var init, b := s[..|s| - 1], s[|s| - 1];
      ReadBody(p, init);
      ReadStuffed(AfterBody(p, init), b);
      AfterOneMore(p, s);
      ParseThen(p, StuffAll(init), Stuff(b), AfterBody(p, init), AfterBody(p, s));
    }
  }

  lemma ParseThen(p: Parser, a: seq<byte>, b: seq<byte>, q: Parser, r: Parser)
    requires Parse(p, a) == Outcome(q, []) && Parse(q, b) == Outcome(r, [])
    ensures Parse(p, a + b) == Outcome(r, [])
  {
    ParseConcat(p, a, b);
  }

  // ---------- one frame, from every state ----------

  // Between frames: bytes without a BOF are ignored.
  lemma {:induction false} IdleIgnores(p: Parser, s: seq<byte>)
    requires p.state == Idle && BOF !in s
    ensures Parse(p, s) == Outcome(p, [])
  {
    if s != [] {
      IdleIgnores(p, s[..|s| - 1]);
    }
  }

  lemma ReadEof(p: Parser, body: seq<byte>, held: seq<byte>)
    requires Parse(p, body) == Outcome(Parser(Data, held), [])
    ensures Parse(p, body + [EOF]) == Outcome(RESET, Verdict(held))
  {
    ParseConcat(p, body, [EOF]);
    ParseOne(Parser(Data, held), EOF);
    assert [] + Verdict(held) == Verdict(held);
  }

  // The end of a body that was read into a parser.
  lemma ReadBodyAndEof(p: Parser, payload: seq<byte>)
    requires p.state == SeenBof || p.state == Data
    ensures Parse(p, Body(payload) + [EOF]) == Outcome(RESET, Verdict(p.held + payload + Fcs16(payload)))
  {
    var s := payload + Fcs16(payload);
    ReadBody(p, s);
    Associates(p.held, payload, Fcs16(payload));
    ReadEof(p, Body(payload), p.held + s);
  }

  lemma VerdictOfPayload(payload: seq<byte>)
    requires payload != []
    ensures Verdict(payload + Fcs16(payload)) == [Delivered(payload)]
  {
    var held := payload + Fcs16(payload);
    assert held[..|held| - 2] == payload && held[|held| - 2..] == Fcs16(payload);
  }

  /** Round trip: from Idle, a frame delivers its payload once, and nothing else. */
  lemma RoundTrip(bofs: nat, payload: seq<byte>)
    requires payload != []
    ensures Parse(RESET, Frame(bofs, payload)) == Outcome(RESET, [Delivered(payload)])
  {
    IdleIgnores(RESET, Xbofs(bofs));
    ParseConcat(RESET, Xbofs(bofs), [BOF]);
    ParseOne(RESET, BOF);
    var tail := Body(payload) + [EOF];
    assert Frame(bofs, payload) == (Xbofs(bofs) + [BOF]) + tail;
    ParseConcat(RESET, Xbofs(bofs) + [BOF], tail);
    ReadBodyAndEof(Parser(SeenBof, []), payload);
    VerdictOfPayload(payload);
    assert [] + payload + Fcs16(payload) == payload + Fcs16(payload);
  }

  // ---------- reachable parsers ----------

  /** Outside a frame nothing is held; inside one, something is (an escape may still be open). */
  ghost predicate Tidy(p: Parser) {
    match p.state
    case Idle => p.held == []
    case SeenBof => p.held == []
    case Data => p.held != []
    case Pad => true
  }

  lemma {:induction false} ParseKeepsTidy(p: Parser, input: seq<byte>)
    requires Tidy(p)
    ensures Tidy(Parse(p, input).parser)
  {
    if input != [] {
      ParseKeepsTidy(p, input[..|input| - 1]);
    }
  }

  // ---------- self-synchronisation ----------

  lemma {:induction false} StuffXbofs(n: nat)
    ensures StuffAll(Xbofs(n)) == Xbofs(n)
  {
    if n > 0 {
      StuffXbofs(n - 1);
      assert Xbofs(n) == Xbofs(n - 1) + [XBOF];
      assert (Xbofs(n - 1) + [XBOF])[..n - 1] == Xbofs(n - 1);
      assert StuffAll(Xbofs(n - 1) + [XBOF]) == StuffAll(Xbofs(n - 1)) + Stuff(XBOF);
    }
  }

  // A BOF inside a frame abandons it, and the rest of the new frame is then ignored.
  lemma BofAbandons(p: Parser, payload: seq<byte>)
    requires p.state == Data
    ensures Parse(p, [BOF] + (Body(payload) + [EOF])) == Outcome(RESET, [])
  {
    ParseOne(p, BOF);
    NoDelimiterInside(payload + Fcs16(payload));
    IdleIgnores(RESET, Body(payload) + [EOF]);
    ParseThen(p, [BOF], Body(payload) + [EOF], RESET, RESET);
  }

  // What the first frame after an interruption is reported as.
  ghost function FirstReport(p: Parser, bofs: nat, payload: seq<byte>): seq<Event> {
    match p.state
    case Idle => [Delivered(payload)]
    case SeenBof => if bofs == 0 then [Delivered(payload)] else []
    case Data => []
    case Pad => if bofs == 0 then Verdict(p.held + [BOF ^ 0x20] + payload + Fcs16(payload)) else []
  }

  lemma FrameShape(bofs: nat, payload: seq<byte>)
    ensures Frame(bofs, payload) == Xbofs(bofs) + ([BOF] + (Body(payload) + [EOF]))
    ensures bofs > 0 ==> Xbofs(bofs) == [XBOF] + Xbofs(bofs - 1)
  {}

  lemma FirstFrameInside(p: Parser, bofs: nat, payload: seq<byte>)
    requires p.state == Data
    ensures Parse(p, Frame(bofs, payload)) == Outcome(RESET, [])
  {
    FrameShape(bofs, payload);
    StuffXbofs(bofs);
    ReadBody(p, Xbofs(bofs));
    var q := AfterBody(p, Xbofs(bofs));
    BofAbandons(q, payload);
    ParseThen(p, Xbofs(bofs), [BOF] + (Body(payload) + [EOF]), q, RESET);
  }

  lemma FramePeel(bofs: nat, payload: seq<byte>)
    requires bofs > 0
    ensures Frame(bofs, payload) == [XBOF] + Frame(bofs - 1, payload)
  {
    var tail := [BOF] + (Body(payload) + [EOF]);
    FrameShape(bofs, payload);
    FrameShape(bofs - 1, payload);
    Associates([XBOF], Xbofs(bofs - 1), tail);
  }

  // One byte that leads into the data of a frame swallows the first padding byte.
  lemma FirstFrameSwallowed(p: Parser, q: Parser, bofs: nat, payload: seq<byte>)
    requires bofs > 0 && q.state == Data && Step(p, XBOF) == Outcome(q, [])
    ensures Parse(p, Frame(bofs, payload)) == Outcome(RESET, [])
  {
    FramePeel(bofs, payload);
    ParseOne(p, XBOF);
    FirstFrameInside(q, bofs - 1, payload);
    ParseThen(p, [XBOF], Frame(bofs - 1, payload), q, RESET);
  }

  // Without padding the BOF itself is the first byte; q is where it leads.
  lemma FirstFrameUnpadded(p: Parser, q: Parser, payload: seq<byte>)
    requires Step(p, BOF) == Outcome(q, []) && (q.state == SeenBof || q.state == Data)
    ensures Parse(p, Frame(0, payload)) == Outcome(RESET, Verdict(q.held + payload + Fcs16(payload)))
  {
    FrameShape(0, payload);
    ParseOne(p, BOF);
    assert Frame(0, payload) == [BOF] + (Body(payload) + [EOF]);
    ParseConcat(p, [BOF], Body(payload) + [EOF]);
    ReadBodyAndEof(q, payload);
    var v := Verdict(q.held + payload + Fcs16(payload));
    assert [] + v == v;
  }

  /** From any reachable state one well-formed frame brings the parser back to Idle with nothing
      held, and this is exactly what it reports about that frame. */
  lemma FirstFrame(p: Parser, bofs: nat, payload: seq<byte>)
    requires Tidy(p) && payload != []
    ensures Parse(p, Frame(bofs, payload)) == Outcome(RESET, FirstReport(p, bofs, payload))
    ensures |FirstReport(p, bofs, payload)| <= 1
  {
    VerdictOfPayload(payload);
    assert [] + payload + Fcs16(payload) == payload + Fcs16(payload);
    match p.state
    case Idle =>
      RoundTrip(bofs, payload);
    case SeenBof =>
      if bofs == 0 {
        FirstFrameUnpadded(p, p, payload);
      } else {
        FirstFrameSwallowed(p, Parser(Data, [XBOF]), bofs, payload);
      }
    case Data =>
      FirstFrameInside(p, bofs, payload);
    case Pad =>
      if bofs == 0 {
        FirstFrameUnpadded(p, Parser(Data, p.held + [BOF ^ 0x20]), payload);
      } else {
        FirstFrameSwallowed(p, Parser(Data, p.held + [XBOF ^ 0x20]), bofs, payload);
      }
  }

  function AllDelivered(fs: seq<Sent>): seq<Event> {
    if fs == [] then [] else AllDelivered(fs[..|fs| - 1]) + [Delivered(fs[|fs| - 1].payload)]
  }

  ghost predicate ArrivesFromIdle(f: Sent) {
    Parse(RESET, f.bytes) == Outcome(RESET, [Delivered(f.payload)])
  }

  lemma FrameArrives(f: Sent)
    requires IsFrame(f)
    ensures ArrivesFromIdle(f)
  {
    var bofs: nat :| f.bytes == Frame(bofs, f.payload);
    RoundTrip(bofs, f.payload);
  }

  lemma OneFrameBehind(p: Parser, a: seq<byte>, w: seq<byte>, e: seq<Event>, d: seq<Event>, f: Sent)
    requires Parse(p, a + w) == Outcome(RESET, e + d) && ArrivesFromIdle(f)
    ensures Parse(p, a + (w + f.bytes)) == Outcome(RESET, e + (d + [Delivered(f.payload)]))
  {
    ParseConcat(p, a + w, f.bytes);
    Associates(a, w, f.bytes);
    Associates(e, d, [Delivered(f.payload)]);
  }

  // More frames behind input that left the parser reset.
  lemma {:induction false} FramesBehind(p: Parser, a: seq<byte>, e: seq<Event>, fs: seq<Sent>)
    requires Parse(p, a) == Outcome(RESET, e)
    requires forall f :: f in fs ==> ArrivesFromIdle(f)
    ensures Parse(p, a + OnTheWire(fs)) == Outcome(RESET, e + AllDelivered(fs))
  {
    if fs == [] {
      assert a + [] == a && e + [] == e;
    } else {
      var init, f := fs[..|fs| - 1], fs[|fs| - 1];
      FramesBehind(p, a, e, init);
      OneFrameBehind(p, a, OnTheWire(init), e, AllDelivered(init), f);
    }
  }

  /** After any garbage, in any state, a sequence of frames loses at most its first one: every
      later payload is delivered, intact and in order, and at most one report precedes them. */
  lemma SelfSynchronises(p: Parser, garbage: seq<byte>, bofs: nat, payload: seq<byte>, later: seq<Sent>)
    requires Tidy(p) && payload != []
    requires forall f :: f in later ==> IsFrame(f)
    ensures |FirstReport(Parse(p, garbage).parser, bofs, payload)| <= 1
    ensures Parse(p, garbage + Frame(bofs, payload) + OnTheWire(later))
         == Outcome(RESET, Parse(p, garbage).events
                         + FirstReport(Parse(p, garbage).parser, bofs, payload)
                         + AllDelivered(later))
  {
    var q, e := Parse(p, garbage).parser, Parse(p, garbage).events;
    ParseKeepsTidy(p, garbage);
    FirstFrame(q, bofs, payload);
    ParseConcat(p, garbage, Frame(bofs, payload));
    forall f | f in later
      ensures ArrivesFromIdle(f)
    {
      FrameArrives(f);
    }
    FramesBehind(p, garbage + Frame(bofs, payload), e + FirstReport(q, bofs, payload), later);
  }

  // ---------- soundness for arbitrary streams ----------

  datatype Decoded = Clean(bytes: seq<byte>) | OpenEscape(bytes: seq<byte>) | Broken

  // The unstuffing of a stretch of bytes that ought to hold no bare delimiter.
  function Unstuff(body: seq<byte>): Decoded {
    if body == [] then Clean([])
    else
      var b := body[|body| - 1];
      match Unstuff(body[..|body| - 1])
      case Broken => Broken
      case OpenEscape(s) => Clean(s + [b ^ 0x20])
      case Clean(s) =>
        if b == ESCAPE then OpenEscape(s)
        else if IsSpecial(b) then Broken
        else Clean(s + [b])
  }

  lemma UnstuffOne(t: seq<byte>, s: seq<byte>, b: byte)
    requires Unstuff(t) == Clean(s)
    ensures !IsSpecial(b) ==> Unstuff(t + [b]) == Clean(s + [b])
    ensures Unstuff(t + [ESCAPE]) == OpenEscape(s)
  {
    assert (t + [b])[..|t|] == t && (t + [ESCAPE])[..|t|] == t;
  }

  lemma UnstuffEscaped(t: seq<byte>, s: seq<byte>, b: byte)
    requires Unstuff(t) == OpenEscape(s)
    ensures Unstuff(t + [b]) == Clean(s + [b ^ 0x20])
  {
    assert (t + [b])[..|t|] == t;
  }

  lemma UnstuffOneStuffed(t: seq<byte>, s: seq<byte>, b: byte)
    requires Unstuff(t) == Clean(s)
    ensures Unstuff(t + Stuff(b)) == Clean(s + [b])
  {
    UnstuffOne(t, s, b);
    if IsSpecial(b) {
      EscapedIsPlain(b);
      UnstuffEscaped(t + [ESCAPE], s, b ^ 0x20);
      Associates(t, [ESCAPE], [b ^ 0x20]);
      assert [ESCAPE] + [b ^ 0x20] == Stuff(b);
    }
  }

  /** Unstuffing inverts stuffing. */
  lemma {:induction false} UnstuffStuffed(s: seq<byte>)
    ensures Unstuff(StuffAll(s)) == Clean(s)
  {
    if s != [] {
      UnstuffStuffed(s[..|s| - 1]);
      UnstuffOneStuffed(StuffAll(s[..|s| - 1]), s[..|s| - 1], s[|s| - 1]);
      LastApart(s);
    }
  }

  // What the parser holds is the unstuffing of everything since some BOF at position i.
  ghost predicate HoldsSince(p: Parser, input: seq<byte>, i: nat) {
    && i < |input| && input[i] == BOF
    && Unstuff(input[i + 1..]) == if p.state == Pad then OpenEscape(p.held) else Clean(p.held)
  }

  // Where the parser last saw a frame open, if it is inside one.
  ghost function OpenedAt(input: seq<byte>): int {
    if input == [] then -1
    else
      var before := Parse(RESET, input[..|input| - 1]).parser;
      if before.state == Idle || (before.state == SeenBof && input[|input| - 1] == BOF) then |input| - 1
      else OpenedAt(input[..|input| - 1])
  }

  // One more byte inside the same frame.
  lemma HoldsMore(p: Parser, init: seq<byte>, b: byte, i: nat)
    requires HoldsSince(p, init, i) && Tidy(p) && p.state != Idle && !(p.state == SeenBof && b == BOF)
    requires Step(p, b).parser.state != Idle
    ensures HoldsSince(Step(p, b).parser, init + [b], i)
  {
    var t := init[i + 1..];
    assert (init + [b])[i + 1..] == t + [b];
    assert (t + [b])[..|t|] == t;
  }

  lemma {:induction false} InsideIsOpen(input: seq<byte>)
    requires Parse(RESET, input).parser.state != Idle
    ensures OpenedAt(input) >= 0 && HoldsSince(Parse(RESET, input).parser, input, OpenedAt(input))
  {
    var init, b := input[..|input| - 1], input[|input| - 1];
    var before := Parse(RESET, init).parser;
    ParseKeepsTidy(RESET, init);
    if before.state == Idle || (before.state == SeenBof && b == BOF) {
      assert input[|input|..] == [];
    } else {
      InsideIsOpen(init);
      LastApart(input);
      HoldsMore(before, init, b, OpenedAt(init));
    }
  }

  // The bytes between the delimiters at i and j unstuff to held.
  ghost predicate Delimits(input: seq<byte>, i: int, j: int, held: seq<byte>) {
    && 0 <= i < j < |input| && input[i] == BOF && input[j] == EOF
    && Unstuff(input[i + 1..j]) == Clean(held)
  }

  ghost predicate Explains(input: seq<byte>, i: int, j: int, e: Event) {
    match e
    case Delivered(payload) => payload != [] && Delimits(input, i, j, payload + Fcs16(payload))
    case CrcError => exists held :: |held| > 2 && !EndsInFcs16(held) && Delimits(input, i, j, held)
  }

  lemma DelimitsMore(input: seq<byte>, more: byte, i: int, j: int, held: seq<byte>)
    requires Delimits(input, i, j, held)
    ensures Delimits(input + [more], i, j, held)
  {
    assert (input + [more])[i + 1..j] == input[i + 1..j];
  }

  lemma ExplainsMore(input: seq<byte>, more: byte, i: int, j: int, e: Event)
    requires Explains(input, i, j, e)
    ensures Explains(input + [more], i, j, e)
  {
    match e
    case Delivered(payload) =>
      DelimitsMore(input, more, i, j, payload + Fcs16(payload));
    case CrcError =>
      var held :| |held| > 2 && !EndsInFcs16(held) && Delimits(input, i, j, held);
      DelimitsMore(input, more, i, j, held);
  }

  // The stretch of input behind each report.
  datatype Span = Span(start: int, end: int)

  ghost function Spans(input: seq<byte>): seq<Span> {
    if input == [] then []
    else
      var init := input[..|input| - 1];
      var last := Step(Parse(RESET, init).parser, input[|input| - 1]);
      if last.events == [] then Spans(init) else Spans(init) + [Span(OpenedAt(init), |input| - 1)]
  }

  ghost predicate Justifies(input: seq<byte>, spans: seq<Span>, events: seq<Event>) {
    && |spans| == |events|
    && (forall k :: 0 <= k < |spans| ==> Explains(input, spans[k].start, spans[k].end, events[k]))
    && (forall k, l :: 0 <= k < l < |spans| ==> spans[k].end < spans[l].start)
  }

  lemma JustifiesMore(input: seq<byte>, more: byte, spans: seq<Span>, events: seq<Event>)
    requires Justifies(input, spans, events)
    ensures Justifies(input + [more], spans, events)
  {
    forall k | 0 <= k < |spans|
      ensures Explains(input + [more], spans[k].start, spans[k].end, events[k])
    {
      ExplainsMore(input, more, spans[k].start, spans[k].end, events[k]);
    }
  }

  // A frame is opened only after everything reported so far.
  lemma {:induction false} OpenedAfterSpans(input: seq<byte>)
    requires Parse(RESET, input).parser.state != Idle
    ensures forall k :: 0 <= k < |Spans(input)| ==> Spans(input)[k].end < OpenedAt(input)
  {
    SpansEnd(input);
    if input != [] {
      var init := input[..|input| - 1];
      SpansEnd(init);
      if Parse(RESET, init).parser.state != Idle {
        OpenedAfterSpans(init);
      }
    }
  }

  lemma {:induction false} SpansEnd(input: seq<byte>)
    ensures forall k :: 0 <= k < |Spans(input)| ==> Spans(input)[k].end < |input|
  {
    if input != [] {
      SpansEnd(input[..|input| - 1]);
    }
  }

  // The report made by the last byte, an EOF, is about the frame that was open.
  lemma LastReport(init: seq<byte>, b: byte)
    requires Step(Parse(RESET, init).parser, b).events != []
    ensures |Step(Parse(RESET, init).parser, b).events| == 1
    ensures Parse(RESET, init).parser.state == Data
    ensures Explains(init + [b], OpenedAt(init), |init|, Step(Parse(RESET, init).parser, b).events[0])
  {
    var p := Parse(RESET, init).parser;
    InsideIsOpen(init);
    var i := OpenedAt(init);
    var held := p.held;
    assert (init + [b])[i + 1..|init|] == init[i + 1..];
    assert Delimits(init + [b], i, |init|, held);
    if EndsInFcs16(held) {
      assert held == held[..|held| - 2] + Fcs16(held[..|held| - 2]);
    }
  }

  /** Soundness on any stream: every delivery and every CRC error is about its own delimited
      stretch of the input, in order and without overlap; a delivered payload is not empty, and
      the stretch unstuffs to that payload followed by its check bytes. */
  lemma {:induction false} ReportsAreJustified(input: seq<byte>)
    ensures Justifies(input, Spans(input), Parse(RESET, input).events)
  {
    if input != [] {
      var init, b := input[..|input| - 1], input[|input| - 1];
      assert input == init + [b];
      ReportsAreJustified(init);
      JustifiesMore(init, b, Spans(init), Parse(RESET, init).events);
      if Step(Parse(RESET, init).parser, b).events != [] {
        LastReport(init, b);
        OpenedAfterSpans(init);
      }
    }
  }

  lemma {:induction false} ReadsWhatUnstuffs(body: seq<byte>)
    ensures var p := Parser(SeenBof, []);
      match Unstuff(body)
      case Clean(s) => Parse(p, body) == Outcome(AfterBody(p, s), [])
      case OpenEscape(s) => Parse(p, body) == Outcome(Parser(Pad, s), [])
      case Broken => true
  {
    if body != [] {
      ReadsWhatUnstuffs(body[..|body| - 1]);
    }
  }

  /** Completeness: any stretch between delimiters that unstuffs, however it was produced, gets
      the verdict its bytes deserve when it is read from Idle. */
  lemma DelimitedIsJudged(body: seq<byte>, held: seq<byte>)
    requires Unstuff(body) == Clean(held)
    ensures Parse(RESET, [BOF] + body + [EOF]) == Outcome(RESET, Verdict(held))
  {
    var p := Parser(SeenBof, []);
    ReadsWhatUnstuffs(body);
    ParseOne(RESET, BOF);
    ParseThen(RESET, [BOF], body, p, AfterBody(p, held));
    ParseConcat(RESET, [BOF] + body, [EOF]);
    ParseOne(AfterBody(p, held), EOF);
    assert [] + held == held;
    assert [] + Verdict(held) == Verdict(held);
  }
}
