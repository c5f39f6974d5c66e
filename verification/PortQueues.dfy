/** How the queues and the state word of a serial port hang together: CheckQueues, Add_RXBytes,
    dequeueData, enqueueData and SetUpTransmit of AppleSCCIrDA.cpp, on top of the ring queue and the
    watch protocol. What other threads do between two lock holds is a parameter of every step. */
module PortQueues {
  import opened RingQueue
  import opened Sequences
  import opened PortWatch

  // The four state bits that describe one queue, and its water marks.
  datatype Marks = Marks(full: Bits, empty: Bits, low: Bits, high: Bits)

  datatype Levels = Levels(lowWater: nat, highWater: nat)

  // What the four bits say.
  datatype Gauge = Gauge(full: bool, empty: bool, low: bool, high: bool)

  // The constants of a port.
  datatype Wiring = Wiring(layout: Layout, rxMarks: Marks, txMarks: Marks, rxLevels: Levels, txLevels: Levels,
    txBusy: Bits)

  // What CheckQueues reads before it works out the new state, one lock hold each.
  datatype Sample = Sample(state: Bits, txUsed: nat, txFree: nat, rxUsed: nat, rxFree: nat)

  // ---------- the queue bits ----------

  function Put(s: Bits, b: Bits, on: bool): Bits {
    if on then s | b else s & !b
  }

  function Fill(s: Bits, m: Marks, used: nat, free: nat): Bits {
    if free == 0 then Put(Put(s, m.full, true), m.empty, false)
    else if used == 0 then Put(Put(s, m.full, false), m.empty, true)
    else Put(Put(s, m.full, false), m.empty, false)
  }

  // What CheckQueues makes of the state word for one queue.
  function Show(s: Bits, m: Marks, l: Levels, used: nat, free: nat): Bits {
    Put(Put(Fill(s, m, used, free), m.low, used < l.lowWater), m.high, used > l.highWater)
  }

  // The state word CheckQueues works out.
  function WorkedOut(w: Wiring, a: Sample): Bits {
    Show(Show(a.state, w.txMarks, w.txLevels, a.txUsed, a.txFree), w.rxMarks, w.rxLevels, a.rxUsed, a.rxFree)
  }

  function Read(s: Bits, m: Marks): Gauge {
    Gauge(Has(s, m.full), Has(s, m.empty), Has(s, m.low), Has(s, m.high))
  }

  /** What the bits of a queue should say. */
  function Measure(l: Levels, used: nat, free: nat): Gauge {
    Gauge(free == 0, used == 0 && free != 0, used < l.lowWater, used > l.highWater)
  }

  ghost predicate IsShown(s: Bits, m: Marks, l: Levels, used: nat, free: nat) {
    Read(s, m) == Measure(l, used, free)
  }

  ghost predicate Apart(a: Bits, b: Bits) {
    a & b == 0
  }

  // s and t agree on the bits of c.
  ghost predicate Agree(s: Bits, t: Bits, c: Bits) {
    s & c == t & c
  }

  ghost predicate Distinct(m: Marks) {
    && Apart(m.full, m.empty) && Apart(m.full, m.low) && Apart(m.full, m.high)
    && Apart(m.empty, m.low) && Apart(m.empty, m.high) && Apart(m.low, m.high)
  }

  ghost predicate Present(m: Marks) {
    m.full != 0 && m.empty != 0 && m.low != 0 && m.high != 0
  }

  ghost predicate SingleBits(m: Marks) {
    IsBit(m.full) && IsBit(m.empty) && IsBit(m.low) && IsBit(m.high)
  }

  ghost predicate Outside(m: Marks, c: Bits) {
    Apart(m.full, c) && Apart(m.empty, c) && Apart(m.low, c) && Apart(m.high, c)
  }

  // Bits of no queue.
  ghost predicate Elsewhere(w: Wiring, c: Bits) {
    Outside(w.rxMarks, c) && Outside(w.txMarks, c)
  }

  // What the constants of IOKit are like: every queue bit is one bit and they all differ, and none
  // is a bit of the port itself.
  ghost predicate Apt(w: Wiring) {
    && Distinct(w.rxMarks) && Distinct(w.txMarks) && SingleBits(w.rxMarks) && SingleBits(w.txMarks)
    && Outside(w.rxMarks, w.txMarks.full) && Outside(w.rxMarks, w.txMarks.empty)
    && Outside(w.rxMarks, w.txMarks.low) && Outside(w.rxMarks, w.txMarks.high)
    && Elsewhere(w, w.layout.silent) && Elsewhere(w, w.layout.active) && Elsewhere(w, w.txBusy) && IsBit(w.txBusy)
    && Elsewhere(w, w.layout.acquired) && IsBit(w.layout.acquired) && IsBit(w.layout.active)
    && !NamesPort(w.layout, w.rxMarks.empty) && !NamesPort(w.layout, w.txMarks.low)
  }

  lemma PutShows(s: Bits, b: Bits, on: bool)
    requires b != 0
    ensures Has(Put(s, b, on), b) <==> on
  {}

  lemma PutElsewhere(s: Bits, b: Bits, on: bool, c: Bits)
    requires Apart(b, c)
    ensures Agree(Put(s, b, on), s, c)
  {}

  lemma AgreeHas(s: Bits, t: Bits, c: Bits)
    requires Agree(s, t, c)
    ensures Has(s, c) <==> Has(t, c)
  {}

  lemma ApartCommutes(a: Bits, b: Bits)
    requires Apart(a, b)
    ensures Apart(b, a)
  {}

  lemma AgreeChain(s: Bits, t: Bits, u: Bits, c: Bits)
    requires Agree(t, s, c) && Agree(u, t, c)
    ensures Agree(u, s, c)
  {}

  lemma FillIsTwoPuts(s: Bits, m: Marks, used: nat, free: nat, t: Bits)
    requires t == Put(s, m.full, free == 0)
    ensures Fill(s, m, used, free) == Put(t, m.empty, used == 0 && free != 0)
  {}

  lemma ShowIsFourPuts(s: Bits, m: Marks, l: Levels, used: nat, free: nat) returns (s1: Bits, s2: Bits, s3: Bits)
    ensures s1 == Put(s, m.full, free == 0)
    ensures s2 == Put(s1, m.empty, used == 0 && free != 0)
    ensures s3 == Put(s2, m.low, used < l.lowWater)
    ensures Show(s, m, l, used, free) == Put(s3, m.high, used > l.highWater)
  {
    s1 := Put(s, m.full, free == 0);
    s2 := Fill(s, m, used, free);
    s3 := Put(s2, m.low, used < l.lowWater);
    FillIsTwoPuts(s, m, used, free, s1);
  }

  lemma FourPuts(m: Marks, isFull: bool, isEmpty: bool, isLow: bool, isHigh: bool, c: Bits,
      s: Bits, s1: Bits, s2: Bits, s3: Bits, s4: Bits)
    requires Outside(m, c)
    requires s1 == Put(s, m.full, isFull) && s2 == Put(s1, m.empty, isEmpty)
    requires s3 == Put(s2, m.low, isLow) && s4 == Put(s3, m.high, isHigh)
    ensures Agree(s4, s, c)
  {
    PutElsewhere(s, m.full, isFull, c);
    PutElsewhere(s1, m.empty, isEmpty, c);
    PutElsewhere(s2, m.low, isLow, c);
    PutElsewhere(s3, m.high, isHigh, c);
    AgreeChain(s, s1, s2, c);
    AgreeChain(s, s2, s3, c);
    AgreeChain(s, s3, s4, c);
  }

  /** Looking at one queue changes no bit but the four of that queue. */
  lemma ShowElsewhere(s: Bits, m: Marks, l: Levels, used: nat, free: nat, c: Bits)
    requires Outside(m, c)
    ensures Agree(Show(s, m, l, used, free), s, c)
  {
    var s1, s2, s3 := ShowIsFourPuts(s, m, l, used, free);
    FourPuts(m, free == 0, used == 0 && free != 0, used < l.lowWater, used > l.highWater, c,
      s, s1, s2, s3, Show(s, m, l, used, free));
  }

  lemma Kept(s: Bits, t: Bits, b: Bits, on: bool, c: Bits)
    requires t == Put(s, b, on) && (Apart(b, c) || Apart(c, b))
    ensures Has(t, c) <==> Has(s, c)
  {
    if !Apart(b, c) {
      ApartCommutes(c, b);
    }
    PutElsewhere(s, b, on, c);
    AgreeHas(t, s, c);
  }

  lemma FourPutsRead(m: Marks, isFull: bool, isEmpty: bool, isLow: bool, isHigh: bool,
      s: Bits, s1: Bits, s2: Bits, s3: Bits, s4: Bits)
    requires Distinct(m) && Present(m)
    requires s1 == Put(s, m.full, isFull) && s2 == Put(s1, m.empty, isEmpty)
    requires s3 == Put(s2, m.low, isLow) && s4 == Put(s3, m.high, isHigh)
    ensures Read(s4, m) == Gauge(isFull, isEmpty, isLow, isHigh)
  {
    PutShows(s, m.full, isFull);
    PutShows(s1, m.empty, isEmpty);
    PutShows(s2, m.low, isLow);
    PutShows(s3, m.high, isHigh);
    Kept(s1, s2, m.empty, isEmpty, m.full);
    Kept(s2, s3, m.low, isLow, m.full);
    Kept(s2, s3, m.low, isLow, m.empty);
    Kept(s3, s4, m.high, isHigh, m.full);
    Kept(s3, s4, m.high, isHigh, m.empty);
    Kept(s3, s4, m.high, isHigh, m.low);
  }

  /** After CheckQueues has looked at a queue, its four bits say exactly how full it is. */
  lemma ShowIsShown(s: Bits, m: Marks, l: Levels, used: nat, free: nat)
    requires Distinct(m) && Present(m)
    ensures IsShown(Show(s, m, l, used, free), m, l, used, free)
  {
    var s1, s2, s3 := ShowIsFourPuts(s, m, l, used, free);
    FourPutsRead(m, free == 0, used == 0 && free != 0, used < l.lowWater, used > l.highWater,
      s, s1, s2, s3, Show(s, m, l, used, free));
  }

  lemma StillRead(s: Bits, m: Marks, l: Levels, used: nat, free: nat, other: Marks)
    requires Outside(m, other.full) && Outside(m, other.empty) && Outside(m, other.low) && Outside(m, other.high)
    ensures Read(Show(s, m, l, used, free), other) == Read(s, other)
  {
    var t := Show(s, m, l, used, free);
    StillHas(s, m, l, used, free, other.full);
    StillHas(s, m, l, used, free, other.empty);
    StillHas(s, m, l, used, free, other.low);
    StillHas(s, m, l, used, free, other.high);
  }

  lemma StillHas(s: Bits, m: Marks, l: Levels, used: nat, free: nat, c: Bits)
    requires Outside(m, c)
    ensures Has(Show(s, m, l, used, free), c) == Has(s, c)
  {
    ShowElsewhere(s, m, l, used, free, c);
    AgreeHas(Show(s, m, l, used, free), s, c);
  }

  /** The word CheckQueues works out shows what was sampled of both queues. */
  lemma WorkedOutShows(w: Wiring, a: Sample)
    requires Apt(w)
    ensures IsShown(WorkedOut(w, a), w.txMarks, w.txLevels, a.txUsed, a.txFree)
    ensures IsShown(WorkedOut(w, a), w.rxMarks, w.rxLevels, a.rxUsed, a.rxFree)
  {
    var t := Show(a.state, w.txMarks, w.txLevels, a.txUsed, a.txFree);
    ShowIsShown(a.state, w.txMarks, w.txLevels, a.txUsed, a.txFree);
    ShowIsShown(t, w.rxMarks, w.rxLevels, a.rxUsed, a.rxFree);
    StillRead(t, w.rxMarks, w.rxLevels, a.rxUsed, a.rxFree, w.txMarks);
  }

  lemma WorkedOutElsewhere(w: Wiring, a: Sample, c: Bits)
    requires Elsewhere(w, c)
    ensures Agree(WorkedOut(w, a), a.state, c)
  {
    var t := Show(a.state, w.txMarks, w.txLevels, a.txUsed, a.txFree);
    ShowElsewhere(a.state, w.txMarks, w.txLevels, a.txUsed, a.txFree, c);
    ShowElsewhere(t, w.rxMarks, w.rxLevels, a.rxUsed, a.rxFree, c);
    AgreeChain(a.state, t, WorkedOut(w, a), c);
  }

  // ---------- CheckQueues under interleaving ----------

  // CheckQueues works out the queue bits q from what it samples, reads the state again (s1) for the
  // mask of differences, and applies q under that mask to whatever the state is by then (s2).
  function Difference(a: Bits, b: Bits): Bits {
    a ^ b
  }

  function AfterCheckQueues(q: Bits, s1: Bits, s2: Bits): Bits {
    ChangedState(s2, q, Difference(q, s1))
  }

  /** With nobody in between, the state becomes the one that was worked out. */
  lemma UndisturbedCheckQueues(q: Bits, s: Bits)
    ensures AfterCheckQueues(q, s, s) == q
  {}

  // The bits of c in which s0 differs both from s1 and from s2.
  function BothDiffer(s0: Bits, s1: Bits, s2: Bits, c: Bits): Bits {
    ((s0 ^ s1) & (s0 ^ s2)) & c
  }

  lemma OutsideQueueBits(q: Bits, s0: Bits, s1: Bits, s2: Bits, c: Bits)
    requires Agree(q, s0, c)
    ensures Agree(AfterCheckQueues(q, s1, s2), s2, c) <==> BothDiffer(s0, s1, s2, c) == 0
  {
    SameDifferences(q, s0, s1, s2, c);
    AppliedUnder(q, s1, s2, AfterCheckQueues(q, s1, s2), c);
  }

  lemma AppliedUnder(q: Bits, s1: Bits, s2: Bits, f: Bits, c: Bits)
    requires f == AfterCheckQueues(q, s1, s2)
    ensures Agree(f, s2, c) <==> BothDiffer(q, s1, s2, c) == 0
  {
    Applied(q, s1, s2, f);
    var x := f ^ s2;
    assert BothDiffer(q, s1, s2, c) == x & c;
    AgreeIsNoDifference(f, s2, x, c);
  }

  lemma AgreeIsNoDifference(a: Bits, b: Bits, x: Bits, c: Bits)
    requires x == a ^ b
    ensures Agree(a, b, c) <==> x & c == 0
  {
    var p, r, y := a & c, b & c, x & c;
    MaskedXor(a, b, x, c, p, r, y);
    XorIsZero(p, r);
  }

  lemma Applied(q: Bits, s1: Bits, s2: Bits, f: Bits)
    requires f == AfterCheckQueues(q, s1, s2)
    ensures f ^ s2 == (q ^ s1) & (q ^ s2)
  {}

  lemma SameDifferences(q: Bits, s0: Bits, s1: Bits, s2: Bits, c: Bits)
    requires Agree(q, s0, c)
    ensures BothDiffer(q, s1, s2, c) == BothDiffer(s0, s1, s2, c)
  {}

  lemma MaskedXor(a: Bits, b: Bits, x: Bits, c: Bits, p: Bits, r: Bits, y: Bits)
    requires x == a ^ b && p == a & c && r == b & c && y == x & c
    ensures y == p ^ r
  {}

  lemma XorIsZero(a: Bits, b: Bits)
    ensures a ^ b == 0 <==> a == b
  {}

  /** Exactly when CheckQueues leaves the other bits c of the state word as it found them: no such
      bit may differ from the first reading both at the second reading and at the end. In other
      words, it undoes every change another thread makes between the two readings, unless that
      change is taken back in time. */
  lemma CheckQueuesKeepsOtherBits(w: Wiring, a: Sample, s1: Bits, s2: Bits, c: Bits)
    requires Elsewhere(w, c)
    ensures Agree(AfterCheckQueues(WorkedOut(w, a), s1, s2), s2, c) <==> BothDiffer(a.state, s1, s2, c) == 0
  {
    WorkedOutElsewhere(w, a, c);
    OutsideQueueBits(WorkedOut(w, a), a.state, s1, s2, c);
  }

  // What becomes of all other bits of a state that was s0, s1 and s2 at the three lock holds.
  ghost predicate OthersDecided(w: Wiring, s0: Bits, s1: Bits, s2: Bits, f: Bits) {
    forall c :: Elsewhere(w, c) ==> (Agree(f, s2, c) <==> BothDiffer(s0, s1, s2, c) == 0)
  }

  lemma OtherBitsAfter(w: Wiring, a: Sample, s1: Bits, s2: Bits)
    ensures OthersDecided(w, a.state, s1, s2, AfterCheckQueues(WorkedOut(w, a), s1, s2))
  {
    forall c | Elsewhere(w, c)
      ensures Agree(AfterCheckQueues(WorkedOut(w, a), s1, s2), s2, c) <==> BothDiffer(a.state, s1, s2, c) == 0
    {
      CheckQueuesKeepsOtherBits(w, a, s1, s2, c);
    }
  }

  /** It does go wrong: a port acquired between the two readings is no longer acquired afterwards. */
  lemma CheckQueuesUndoesAcquire(w: Wiring, a: Sample, s1: Bits)
    requires Apt(w)
    requires !Has(a.state, w.layout.acquired) && Has(s1, w.layout.acquired)
    ensures !Has(AfterCheckQueues(WorkedOut(w, a), s1, s1), w.layout.acquired)
  {
    WorkedOutElsewhere(w, a, w.layout.acquired);
    AgreeHas(WorkedOut(w, a), a.state, w.layout.acquired);
    AppliedBit(WorkedOut(w, a), s1, s1, w.layout.acquired);
  }

  // Where the computed word and the second reading agree, nothing is applied.
  lemma NothingApplied(x: Bits, y: Bits, c: Bits)
    requires x & c == 0
    ensures (x & y) & c == 0
  {}

  lemma AgreeingPart(q: Bits, s1: Bits, s2: Bits, c: Bits)
    requires Agree(q, s1, c)
    ensures Agree(AfterCheckQueues(q, s1, s2), s2, c)
  {
    var x := q ^ s1;
    AgreeIsNoDifference(q, s1, x, c);
    NothingApplied(x, q ^ s2, c);
    AppliedUnder(q, s1, s2, AfterCheckQueues(q, s1, s2), c);
  }

  // Where they are opposite, the computed word is applied.
  lemma Chosen(q: Bits, s2: Bits, x: Bits, b: Bits, f: Bits)
    requires f == ChangedState(s2, q, x) && HasAll(x, b)
    ensures Agree(f, q, b)
  {}

  lemma XorInside(a: Bits, c: Bits, b: Bits)
    requires a & b == b && c & b == 0
    ensures (a ^ c) & b == b && (c ^ a) & b == b
  {}

  lemma Opposite(q: Bits, s1: Bits, x: Bits, b: Bits)
    requires x == Difference(q, s1)
    requires (HasAll(q, b) && !Has(s1, b)) || (!Has(q, b) && HasAll(s1, b))
    ensures HasAll(x, b)
  {
    if HasAll(q, b) && !Has(s1, b) {
      XorInside(q, s1, b);
    } else {
      XorInside(s1, q, b);
    }
  }

  lemma OppositePart(q: Bits, s1: Bits, s2: Bits, b: Bits, x: Bits, f: Bits)
    requires x == Difference(q, s1) && f == ChangedState(s2, q, x)
    requires (HasAll(q, b) && !Has(s1, b)) || (!Has(q, b) && HasAll(s1, b))
    ensures Has(f, b) == Has(q, b)
  {
    Opposite(q, s1, x, b);
    Chosen(q, s2, x, b, f);
    AgreeHas(f, q, b);
  }

  // Worked out one way, read a second time, and found at the end.
  predicate Settles(sampled: bool, second: bool, present: bool) {
    if sampled != second then sampled else present
  }

  function Settle(sampled: Gauge, second: Gauge, present: Gauge): Gauge {
    Gauge(Settles(sampled.full, second.full, present.full), Settles(sampled.empty, second.empty, present.empty),
          Settles(sampled.low, second.low, present.low), Settles(sampled.high, second.high, present.high))
  }

  // What becomes of the bits of b, where they are alike in each of the words.
  ghost predicate Comes(f: Bits, q: Bits, s1: Bits, s2: Bits, b: Bits) {
    Has(f, b) == Settles(Has(q, b), Has(s1, b), Has(s2, b))
  }

  ghost predicate Uniform(s: Bits, b: Bits) {
    Has(s, b) ==> HasAll(s, b)
  }

  lemma BothAreAll(q: Bits, s1: Bits, b: Bits)
    requires HasAll(q, b) && HasAll(s1, b)
    ensures Agree(q, s1, b)
  {}

  lemma NeitherHas(q: Bits, s1: Bits, b: Bits)
    requires !Has(q, b) && !Has(s1, b)
    ensures Agree(q, s1, b)
  {}

  lemma AppliedAlike(q: Bits, s1: Bits, s2: Bits, b: Bits)
    requires Has(q, b) == Has(s1, b) && Uniform(q, b) && Uniform(s1, b)
    ensures Has(AfterCheckQueues(q, s1, s2), b) == Has(s2, b)
  {
    if Has(q, b) {
      BothAreAll(q, s1, b);
    } else {
      NeitherHas(q, s1, b);
    }
    AgreeingPart(q, s1, s2, b);
    AgreeHas(AfterCheckQueues(q, s1, s2), s2, b);
  }

  lemma AppliedUniform(q: Bits, s1: Bits, s2: Bits, b: Bits)
    requires Uniform(q, b) && Uniform(s1, b)
    ensures Comes(AfterCheckQueues(q, s1, s2), q, s1, s2, b)
  {
    if Has(q, b) == Has(s1, b) {
      AppliedAlike(q, s1, s2, b);
    } else {
      OppositePart(q, s1, s2, b, Difference(q, s1), AfterCheckQueues(q, s1, s2));
    }
  }

  lemma BitIsUniform(s: Bits, b: Bits)
    requires IsBit(b)
    ensures Uniform(s, b)
  {
    WholeBit(b, s);
  }

  /** What becomes of one bit: the computed value where it differs from the second reading, and
      otherwise whatever it is by then. */
  lemma AppliedBit(q: Bits, s1: Bits, s2: Bits, b: Bits)
    requires IsBit(b)
    ensures Comes(AfterCheckQueues(q, s1, s2), q, s1, s2, b)
  {
    BitIsUniform(q, b);
    BitIsUniform(s1, b);
    AppliedUniform(q, s1, s2, b);
  }

  lemma AppliedGauge(q: Bits, s1: Bits, s2: Bits, m: Marks)
    requires SingleBits(m)
    ensures Read(AfterCheckQueues(q, s1, s2), m) == Settle(Read(q, m), Read(s1, m), Read(s2, m))
  {
    AppliedBit(q, s1, s2, m.full);
    AppliedBit(q, s1, s2, m.empty);
    AppliedBit(q, s1, s2, m.low);
    AppliedBit(q, s1, s2, m.high);
    BitByBit(AfterCheckQueues(q, s1, s2), q, s1, s2, m);
  }

  lemma BitByBit(f: Bits, q: Bits, s1: Bits, s2: Bits, m: Marks)
    requires Comes(f, q, s1, s2, m.full) && Comes(f, q, s1, s2, m.empty)
    requires Comes(f, q, s1, s2, m.low) && Comes(f, q, s1, s2, m.high)
    ensures Read(f, m) == Settle(Read(q, m), Read(s1, m), Read(s2, m))
  {}

  /** What the bits of both queues say after CheckQueues, whatever other threads did meanwhile: they
      are right exactly when this is the measure of the queue by then. */
  lemma QueueBitsAfter(w: Wiring, a: Sample, s1: Bits, s2: Bits)
    requires Apt(w)
    ensures var f := AfterCheckQueues(WorkedOut(w, a), s1, s2);
      && Read(f, w.rxMarks)
           == Settle(Measure(w.rxLevels, a.rxUsed, a.rxFree), Read(s1, w.rxMarks), Read(s2, w.rxMarks))
      && Read(f, w.txMarks)
           == Settle(Measure(w.txLevels, a.txUsed, a.txFree), Read(s1, w.txMarks), Read(s2, w.txMarks))
  {
    WorkedOutShows(w, a);
    AppliedGauge(WorkedOut(w, a), s1, s2, w.rxMarks);
    AppliedGauge(WorkedOut(w, a), s1, s2, w.txMarks);
  }

  lemma SettledWhenCalm(sampled: Gauge, second: Gauge)
    ensures Settle(sampled, second, second) == sampled
  {}

  /** If the bits of a queue are the same at the second reading and at the end, they are right
      exactly when the level is where it was when it was sampled, on the same side of every mark. */
  lemma RightIfLevelStays(w: Wiring, a: Sample, s1: Bits, s2: Bits, used: nat, free: nat)
    requires Apt(w) && Read(s1, w.rxMarks) == Read(s2, w.rxMarks)
    ensures IsShown(AfterCheckQueues(WorkedOut(w, a), s1, s2), w.rxMarks, w.rxLevels, used, free)
      <==> Measure(w.rxLevels, a.rxUsed, a.rxFree) == Measure(w.rxLevels, used, free)
  {
    QueueBitsAfter(w, a, s1, s2);
    SettledWhenCalm(Measure(w.rxLevels, a.rxUsed, a.rxFree), Read(s1, w.rxMarks));
  }

  /** It does go wrong: bytes that arrive, and are shown, between the sample and the second reading
      are hidden again. */
  lemma ArrivalIsHidden(w: Wiring, a: Sample, s: Bits, used: nat, free: nat)
    requires Apt(w) && a.rxUsed == 0 && a.rxFree > 0 && used > 0
    requires IsShown(s, w.rxMarks, w.rxLevels, used, free)
    ensures Has(AfterCheckQueues(WorkedOut(w, a), s, s), w.rxMarks.empty)
    ensures !IsShown(AfterCheckQueues(WorkedOut(w, a), s, s), w.rxMarks, w.rxLevels, used, free)
  {
    QueueBitsAfter(w, a, s, s);
  }

  lemma AgreeRead(s: Bits, t: Bits, m: Marks)
    requires Agree(s, t, m.full) && Agree(s, t, m.empty) && Agree(s, t, m.low) && Agree(s, t, m.high)
    ensures Read(s, m) == Read(t, m)
  {
    AgreeHas(s, t, m.full);
    AgreeHas(s, t, m.empty);
    AgreeHas(s, t, m.low);
    AgreeHas(s, t, m.high);
  }

  lemma ChangedElsewhere(s: Bits, state: Bits, mask: Bits, c: Bits)
    requires Apart(c, mask)
    ensures Agree(ChangedState(s, state, mask), s, c)
  {}

  lemma ChangeKeepsGauge(s: Bits, state: Bits, mask: Bits, m: Marks)
    requires Outside(m, mask)
    ensures Read(ChangedState(s, state, mask), m) == Read(s, m)
  {
    ChangedElsewhere(s, state, mask, m.full);
    ChangedElsewhere(s, state, mask, m.empty);
    ChangedElsewhere(s, state, mask, m.low);
    ChangedElsewhere(s, state, mask, m.high);
    AgreeRead(ChangedState(s, state, mask), s, m);
  }

  lemma JoinElsewhere(s: Bits, b: Bits, c: Bits)
    requires Apart(c, b)
    ensures Agree(Join(s, b), s, c)
  {}

  lemma JoinKeeps(s: Bits, b: Bits, c: Bits)
    requires Has(s, c)
    ensures Has(Join(s, b), c)
  {}

  lemma JoinKeepsGauge(s: Bits, b: Bits, m: Marks)
    requires Outside(m, b)
    ensures Read(Join(s, b), m) == Read(s, m)
  {
    JoinElsewhere(s, b, m.full);
    JoinElsewhere(s, b, m.empty);
    JoinElsewhere(s, b, m.low);
    JoinElsewhere(s, b, m.high);
    AgreeRead(Join(s, b), s, m);
  }

  // ---------- sleepers ----------

  lemma LowBitFound(w: Want, s: Bits, e: Bits)
    requires IsBit(e) && Has(w.mask, e) && !Has(w.state, e) && !Has(s, e)
    ensures Satisfied(w, s)
  {}

  lemma HighBitFound(w: Want, s: Bits, e: Bits)
    requires IsBit(e) && Has(w.mask, e) && Has(w.state, e) && Has(s, e)
    ensures Satisfied(w, s)
  {}

  // The bit an unwoken sleeper wants to go off is still on; the one it wants to come on is off.
  lemma StillOn(layout: Layout, p: Port, e: Bits, t: ThreadId)
    requires Sound(layout, p) && IsBit(e) && t in p.sleepers && !p.sleepers[t].woken
    requires Has(p.sleepers[t].want.mask, e) && !Has(p.sleepers[t].want.state, e)
    ensures Has(p.state, e)
  {
    if !Has(p.state, e) {
      LowBitFound(p.sleepers[t].want, p.state, e);
    }
  }

  lemma StillOff(layout: Layout, p: Port, e: Bits, t: ThreadId)
    requires Sound(layout, p) && IsBit(e) && t in p.sleepers && !p.sleepers[t].woken
    requires Has(p.sleepers[t].want.mask, e) && Has(p.sleepers[t].want.state, e)
    ensures !Has(p.state, e)
  {
    if Has(p.state, e) {
      HighBitFound(p.sleepers[t].want, p.state, e);
    }
  }

  /** While the state word shows how full a queue is, nobody waiting for it to stop being empty is
      left asleep when it has bytes in it. */
  lemma ReaderIsWoken(layout: Layout, p: Port, m: Marks, l: Levels, used: nat, free: nat, t: ThreadId)
    requires Sound(layout, p) && IsShown(p.state, m, l, used, free) && used > 0
    requires IsBit(m.empty) && t in p.sleepers
    requires Has(p.sleepers[t].want.mask, m.empty) && !Has(p.sleepers[t].want.state, m.empty)
    ensures p.sleepers[t].woken
  {
    assert !Has(p.state, m.empty);
    LowBitFound(p.sleepers[t].want, p.state, m.empty);
  }

  /** Nor is anybody waiting for it to fall below its low-water mark, once it is. */
  lemma WriterIsWoken(layout: Layout, p: Port, m: Marks, l: Levels, used: nat, free: nat, t: ThreadId)
    requires Sound(layout, p) && IsShown(p.state, m, l, used, free) && used < l.lowWater
    requires IsBit(m.low) && t in p.sleepers
    requires Has(p.sleepers[t].want.mask, m.low) && Has(p.sleepers[t].want.state, m.low)
    ensures p.sleepers[t].woken
  {
    assert Has(p.state, m.low);
    HighBitFound(p.sleepers[t].want, p.state, m.low);
  }

  // The requests of the two: for the bit to go off, and for it to come on.
  lemma ReadersWant(w: Wiring)
    requires Apt(w)
    ensures Has(Wanted(w.layout, 0, w.rxMarks.empty).mask, w.rxMarks.empty)
    ensures !Has(Wanted(w.layout, 0, w.rxMarks.empty).state, w.rxMarks.empty)
  {
    WantedOff(w.layout.active, w.rxMarks.empty);
  }

  lemma WantedOff(active: Bits, b: Bits)
    requires b != 0
    ensures Has(b | active, b) && !Has(0 & !active, b)
  {}

  lemma WritersWant(w: Wiring)
    requires Apt(w)
    ensures Has(Wanted(w.layout, w.txMarks.low, w.txMarks.low).mask, w.txMarks.low)
    ensures Has(Wanted(w.layout, w.txMarks.low, w.txMarks.low).state, w.txMarks.low)
  {
    WantedOn(w.layout.active, w.txMarks.low);
  }

  lemma WantedOn(active: Bits, b: Bits)
    requires b != 0 && Apart(b, active)
    ensures Has(b | active, b) && Has(b & !active, b)
  {}

  // A reader who finds the bit on in an active port goes to sleep.
  lemma ReaderBlocks(w: Wiring, s: Bits)
    requires Apt(w) && Has(s, w.layout.active) && Has(s, w.rxMarks.empty)
    ensures TurnOutcome(w.layout, s, Wanted(w.layout, 0, w.rxMarks.empty)) == Blocked
  {
    ReplyMeans(w.layout, s, 0, w.rxMarks.empty);
    WholeBit(w.rxMarks.empty, s);
    NoMatch(s, w.rxMarks.empty);
  }

  lemma NoMatch(s: Bits, b: Bits)
    requires HasAll(s, b)
    ensures !Matches(0, b, s)
  {}

  // ---------- what other threads do ----------

  // Between two lock holds: bytes are received, bytes are handed to IrDA, bits are changed.
  datatype Disturbance = Disturbance(arrived: seq<byte>, drained: nat, changes: seq<BitChange>)

  datatype BitChange = BitChange(state: Bits, mask: Bits)

  function ChangedBy(p: Port, changes: seq<BitChange>): Port {
    if changes == [] then p
    else
      var last := changes[|changes| - 1];
      AfterChange(ChangedBy(p, changes[..|changes| - 1]), last.state, last.mask)
  }

  lemma ChangedByMore(p: Port, changes: seq<BitChange>, i: nat)
    requires i < |changes|
    ensures ChangedBy(p, changes[..i + 1]) == AfterChange(ChangedBy(p, changes[..i]), changes[i].state, changes[i].mask)
  {
    assert changes[..i + 1][..i] == changes[..i];
  }

  // What a disturbance leaves of so many bytes to transmit, and makes of so many received.
  function TxLeft(n: nat, d: Disturbance): nat {
    n - Min(d.drained, n)
  }

  function RxFilled(n: nat, capacity: nat, d: Disturbance): nat
    requires n <= capacity
  {
    n + Min(|d.arrived|, capacity - n)
  }

  const NOTHING := Disturbance([], 0, [])

  // Inside one run of CheckQueues: after each of its readings.
  datatype Gaps = Gaps(state: Disturbance, txUsed: Disturbance, txFree: Disturbance, rxUsed: Disturbance,
    rxFree: Disturbance, second: Disturbance)

  const QUIET := Gaps(NOTHING, NOTHING, NOTHING, NOTHING, NOTHING, NOTHING)

  ghost predicate HarmlessChanges(w: Wiring, changes: seq<BitChange>) {
    forall i :: 0 <= i < |changes| ==> Elsewhere(w, changes[i].mask)
  }

  // Both queues and their bits are left alone.
  ghost predicate Harmless(w: Wiring, d: Disturbance) {
    d.arrived == [] && d.drained == 0 && HarmlessChanges(w, d.changes)
  }

  ghost predicate Calm(w: Wiring, g: Gaps) {
    && Harmless(w, g.state) && Harmless(w, g.txUsed) && Harmless(w, g.txFree)
    && Harmless(w, g.rxUsed) && Harmless(w, g.rxFree) && Harmless(w, g.second)
  }

  lemma QuietIsCalm(w: Wiring)
    ensures Calm(w, QUIET)
  {
    assert Harmless(w, NOTHING);
  }

  // What IrDA answers a transmission: its room, whether there is memory for the block, and how much
  // of the block it takes.
  datatype Irda = Irda(room: nat, memory: bool, written: nat)

  // What happens while a thread sleeps. Go lets it run, if it is woken.
  datatype Move =
    | Others(d: Disturbance)
    | Arrive(data: seq<byte>, gaps: Gaps)
    | Transmit(irda: Irda, gaps: Gaps)
    | Go
    | Interruption

  ghost predicate CalmMove(w: Wiring, move: Move) {
    match move
    case Others(d) => Harmless(w, d)
    case Arrive(_, gaps) => Calm(w, gaps)
    case Transmit(_, gaps) => Calm(w, gaps)
    case Go => true
    case Interruption => true
  }

  ghost predicate CalmMoves(w: Wiring, moves: seq<Move>) {
    forall i :: 0 <= i < |moves| ==> CalmMove(w, moves[i])
  }

  ghost predicate Interrupts(moves: seq<Move>) {
    exists i :: 0 <= i < |moves| && moves[i].Interruption?
  }

  // One pass through the loop of a reader: what happens if it sleeps, and during its own CheckQueues.
  datatype Pass = Pass(asleep: seq<Move>, own: Gaps)

  ghost predicate CalmPasses(w: Wiring, passes: seq<Pass>) {
    forall i :: 0 <= i < |passes| ==> Calm(w, passes[i].own) && CalmMoves(w, passes[i].asleep)
  }

  // The same for a writer, who also starts the transmitter.
  datatype TxPass = TxPass(asleep: seq<Move>, own: Gaps, irda: Irda, after: Gaps)

  // What a watcher is told, in its own terms.
  ghost predicate ToldRightly(w: Wiring, wanted: Bits, mask: Bits, s: Bits, outcome: Outcome) {
    match outcome
    case Blocked => true
    case GivesUp(reply) => reply == Interrupted
    case Returned(reply, state) =>
      state == s && reply == (if Has(s, w.layout.active) then Success else IOError)
      && (reply == Success ==> Matches(wanted, mask, s))
  }

  lemma TurnTells(w: Wiring, s: Bits, wanted: Bits, mask: Bits)
    requires IsBit(w.layout.active) && !NamesPort(w.layout, mask)
    ensures ToldRightly(w, wanted, mask, s, TurnOutcome(w.layout, s, Wanted(w.layout, wanted, mask)))
  {
    ReplyMeans(w.layout, s, wanted, mask);
  }

  lemma MatchIsOff(s: Bits, b: Bits)
    requires IsBit(b) && Matches(0, b, s)
    ensures !Has(s, b)
  {
    WholeBit(b, s);
    if Has(s, b) {
      NoMatch(s, b);
    }
  }

  // A request for this bit to come on.
  ghost predicate WantsOn(w: Want, b: Bits) {
    Has(w.mask, b) && Has(w.state, b)
  }

  // Sleeping threads only ever get woken.
  ghost predicate SameWaits(a: map<ThreadId, Sleeper>, b: map<ThreadId, Sleeper>) {
    a.Keys == b.Keys && forall t :: t in a ==> a[t].want == b[t].want && (a[t].woken ==> b[t].woken)
  }

  datatype DequeueStatus =
    Done | BadArgument | NotOpen | NotAcquired | WatchFailed(reply: Reply) | StillAsleep | Running

  datatype EnqueueStatus = Enqueued | Offline | NotActive | Unacquired | Unslept(reply: Reply) | Waiting | Retrying

  function Without(s: Bits, b: Bits): Bits {
    s & !b
  }

  lemma SetBit(s: Bits, b: Bits, t: Bits)
    requires t == ChangedState(s, b, b)
    ensures t == s | b
  {}

  lemma ClearBit(t: Bits, b: Bits, u: Bits)
    requires u == ChangedState(t, 0, b)
    ensures u == t & !b
  {}

  lemma SetAndClear(s: Bits, b: Bits, t: Bits, u: Bits)
    requires t == s | b && u == t & !b
    ensures u == Without(s, b)
  {}

  lemma SetBitIsOn(s: Bits, b: Bits)
    requires b != 0
    ensures Has(ChangedState(s, b, b), b)
  {}

  lemma BusyAndBack(s: Bits, busy: Bits, t: Bits, u: Bits)
    requires t == ChangedState(s, busy, busy) && u == ChangedState(t, 0, busy)
    ensures u == Without(s, busy)
  {
    SetBit(s, busy, t);
    ClearBit(t, busy, u);
    SetAndClear(s, busy, t, u);
  }

  lemma WithoutKeepsGauge(s: Bits, b: Bits, m: Marks)
    requires Outside(m, b)
    ensures Read(Without(s, b), m) == Read(s, m)
  {
    WithoutIsChange(s, b);
    ChangeKeepsGauge(s, 0, b, m);
  }

  lemma WithoutIsChange(s: Bits, b: Bits)
    ensures Without(s, b) == ChangedState(s, 0, b)
  {}

  lemma Extends(taken: seq<byte>, first: seq<byte>, data: seq<byte>, more: seq<byte>)
    requires first <= data
    ensures (taken + data[|first|..]) + more == taken + (data + more)[|first|..]
  {}

  lemma SameTail(a: seq<byte>, b: seq<byte>, tail: seq<byte>)
    requires a + tail == b + tail
    ensures a == b
  {
    assert |a| == |b|;
    assert (a + tail)[..|a|] == a && (b + tail)[..|b|] == b;
  }

  class SerialPort {
    const wiring: Wiring
    const port: WatchedPort
    const rx: CirQueue
    const tx: CirQueue
    // Whether the IrDA object exists, and the credit returned to it so far.
    var fIrDA: bool
    var creditReturned: nat
    // The largest block handed to IrDA at once, and everything handed to it so far.
    const maxBlock: nat
    var areTransmitting: bool
    ghost var handed: seq<byte>
    // Everything that was ever queued on the receive side, and everything that was taken out.
    ghost var rxArrived: seq<byte>
    ghost var rxTaken: seq<byte>
    // How many watches have ended in anything but success.
    ghost var failed: nat

    ghost predicate Valid()
      reads this, port, rx, rx.buffer, tx, tx.buffer
    {
      && rx != tx && rx.buffer != tx.buffer && rx.Valid() && tx.Valid()
      && port.layout == wiring.layout && Apt(wiring) && Sound(wiring.layout, port.Abs())
      && rxArrived == rxTaken + rx.Contents()
    }

    ghost function RxMeasure(): Gauge
      reads this, rx, rx.buffer
      requires rx.Valid()
    {
      Measure(wiring.rxLevels, |rx.Contents()|, rx.Capacity() - |rx.Contents()|)
    }

    ghost function TxMeasure(): Gauge
      reads this, tx, tx.buffer
      requires tx.Valid()
    {
      Measure(wiring.txLevels, |tx.Contents()|, tx.Capacity() - |tx.Contents()|)
    }

    /** The bits of the state word say how full the queue is. */
    ghost predicate RxShown()
      reads this, port, rx, rx.buffer
      requires rx.Valid()
    {
      Read(port.state, wiring.rxMarks) == RxMeasure()
    }

    ghost predicate TxShown()
      reads this, port, tx, tx.buffer
      requires tx.Valid()
    {
      Read(port.state, wiring.txMarks) == TxMeasure()
    }

    /** Everything queued for IrDA, handed over or not. */
    ghost function Outgoing(): seq<byte>
      reads this, tx
    {
      handed + tx.Contents()
    }

    constructor (wiring: Wiring, state: Bits, size: nat, maxBlock: nat)
      requires size > 0 && Apt(wiring)
      ensures failed == 0 && Valid() && this.wiring == wiring && this.maxBlock == maxBlock
      ensures port.Abs() == Port(state, 0, map[])
      ensures rx.Contents() == [] && tx.Contents() == [] && creditReturned == 0 && handed == [] && rxArrived == []
    {
      this.wiring := wiring;
      port := new WatchedPort(wiring.layout, state);
      rx := new CirQueue(size);
      tx := new CirQueue(size);
      this.maxBlock := maxBlock;
      fIrDA, creditReturned, areTransmitting, handed, rxArrived, rxTaken := false, 0, false, [], [], [];
      failed := 0;
    }

    // ---------- other threads ----------

    // Other threads only add to what has arrived, move what is outgoing, and wake who sleeps.
    twostate predicate OthersMoved()
      reads this, port, rx, tx
    {
      && old(rxArrived) <= rxArrived && Outgoing() == old(Outgoing()) && old(handed) <= handed
      && SameWaits(old(port.sleepers), port.sleepers)
    }

    twostate predicate QueuesKept()
      reads this, port, rx, tx
    {
      && rx.Contents() == old(rx.Contents()) && tx.Contents() == old(tx.Contents())
      && Read(port.state, wiring.rxMarks) == old(Read(port.state, wiring.rxMarks))
      && Read(port.state, wiring.txMarks) == old(Read(port.state, wiring.txMarks))
    }

    method ChangeOne(change: BitChange)
      requires Valid()
      modifies port
      ensures Valid() && SameWaits(old(port.sleepers), port.sleepers)
      ensures port.Abs() == AfterChange(old(port.Abs()), change.state, change.mask)
      ensures Elsewhere(wiring, change.mask) ==> QueuesKept()
    {
      if Elsewhere(wiring, change.mask) {
        ChangeKeepsGauge(port.state, change.state, change.mask, wiring.rxMarks);
        ChangeKeepsGauge(port.state, change.state, change.mask, wiring.txMarks);
      }
      port.ChangeState(change.state, change.mask);
    }

    method ChangeAll(changes: seq<BitChange>)
      requires Valid()
      modifies port
      ensures Valid() && SameWaits(old(port.sleepers), port.sleepers)
      ensures HarmlessChanges(wiring, changes) ==> QueuesKept()
      ensures port.Abs() == ChangedBy(old(port.Abs()), changes)
    {
      for i := 0 to |changes|
        invariant Valid() && SameWaits(old(port.sleepers), port.sleepers)
        invariant HarmlessChanges(wiring, changes) ==> QueuesKept()
        invariant port.Abs() == ChangedBy(old(port.Abs()), changes[..i])
      {
        ChangedByMore(old(port.Abs()), changes, i);
        ChangeOne(changes[i]);
      }
      assert changes[..|changes|] == changes;
    }

    // The way a byte gets into the receive queue; what does not fit is dropped.
    method QueueRx(data: seq<byte>)
      requires Valid()
      modifies `rxArrived, rx, rx.buffer
      ensures Valid() && rx.Contents() == old(rx.Contents()) + data[..Min(|data|, rx.Capacity() - |old(rx.Contents())|)]
      ensures old(rxArrived) <= rxArrived
    {
      ghost var queued := rx.Contents();
      var n := rx.AddToQueue(data);
      Associates(rxTaken, queued, data[..n]);
      rxArrived := rxArrived + data[..n];
    }

    // The way a byte gets out of the transmit queue.
    method Release(n: nat) returns (block: seq<byte>)
      requires Valid()
      modifies `handed, tx
      ensures Valid() && Outgoing() == old(Outgoing()) && handed == old(handed) + block
      ensures block + tx.Contents() == old(tx.Contents()) && |block| == Min(n, |old(tx.Contents())|)
    {
      ghost var queued := tx.Contents();
      block := tx.RemoveFromQueue(n);
      Associates(handed, block, tx.Contents());
      handed := handed + block;
    }

    method Disturb(d: Disturbance)
      requires Valid()
      modifies `handed, `rxArrived, rx, rx.buffer, tx, port
      ensures Valid() && OthersMoved()
      ensures Harmless(wiring, d) ==> QueuesKept()
      ensures port.Abs() == ChangedBy(old(port.Abs()), d.changes)
      ensures |tx.Contents()| == TxLeft(|old(tx.Contents())|, d)
      ensures |rx.Contents()| == RxFilled(|old(rx.Contents())|, rx.Capacity(), d)
    {
      QueueRx(d.arrived);
      var _ := Release(d.drained);
      ChangeAll(d.changes);
    }

    // ---------- CheckQueues ----------

    // The readings of the transmit queue, and what happens after the state and each of them was read.
    method SampleTx(g: Gaps) returns (used: nat, free: nat)
      requires Valid()
      modifies `handed, `rxArrived, rx, rx.buffer, tx, port
      ensures Valid() && OthersMoved() && (Calm(wiring, g) ==> QueuesKept())
      ensures g == QUIET ==> port.state == old(port.state)
      ensures used == TxLeft(|old(tx.Contents())|, g.state)
      ensures tx.Capacity() - free == TxLeft(used, g.txUsed)
      ensures |tx.Contents()| == TxLeft(TxLeft(used, g.txUsed), g.txFree)
      ensures var r := RxFilled(|old(rx.Contents())|, rx.Capacity(), g.state);
        |rx.Contents()| == RxFilled(RxFilled(r, rx.Capacity(), g.txUsed), rx.Capacity(), g.txFree)
    {
      Disturb(g.state);
      used := tx.UsedSpaceInQueue();
      Disturb(g.txUsed);
      free := tx.FreeSpaceInQueue();
      Disturb(g.txFree);
    }

    // The same for the receive queue.
    method SampleRx(g: Gaps) returns (used: nat, free: nat)
      requires Valid()
      modifies `handed, `rxArrived, rx, rx.buffer, tx, port
      ensures Valid() && OthersMoved() && (Calm(wiring, g) ==> QueuesKept())
      ensures g == QUIET ==> port.state == old(port.state)
      ensures used == |old(rx.Contents())|
      ensures rx.Capacity() - free == RxFilled(used, rx.Capacity(), g.rxUsed)
      ensures |rx.Contents()| == RxFilled(RxFilled(used, rx.Capacity(), g.rxUsed), rx.Capacity(), g.rxFree)
    {
      used := rx.UsedSpaceInQueue();
      Disturb(g.rxUsed);
      free := rx.FreeSpaceInQueue();
      Disturb(g.rxFree);
    }

    // The readings, and what is made of them: each level is that of its own moment.
    method WorkOutQueues(g: Gaps) returns (q: Bits, ghost a: Sample)
      requires Valid()
      modifies `handed, `rxArrived, rx, rx.buffer, tx, port
      ensures Valid() && OthersMoved() && q == WorkedOut(wiring, a) && a.state == old(port.state)
      ensures Calm(wiring, g) ==> QueuesKept() && AllSampled(a)
      ensures g == QUIET ==> port.state == old(port.state)
      ensures a.txUsed == TxLeft(|old(tx.Contents())|, g.state) && tx.Capacity() - a.txFree == TxLeft(a.txUsed, g.txUsed)
      ensures var r := RxFilled(|old(rx.Contents())|, rx.Capacity(), g.state);
        a.rxUsed == RxFilled(RxFilled(r, rx.Capacity(), g.txUsed), rx.Capacity(), g.txFree)
      ensures a.rxUsed <= rx.Capacity() && rx.Capacity() - a.rxFree == RxFilled(a.rxUsed, rx.Capacity(), g.rxUsed)
    {
      var state := port.state;
      var txUsed, txFree := SampleTx(g);
      var rxUsed, rxFree := SampleRx(g);
      a := Sample(state, txUsed, txFree, rxUsed, rxFree);
      q := Show(Show(state, wiring.txMarks, wiring.txLevels, txUsed, txFree),
                wiring.rxMarks, wiring.rxLevels, rxUsed, rxFree);
    }

    // The sample is what the queues hold.
    ghost predicate AllSampled(a: Sample)
      reads this, rx, tx
    {
      && a.rxUsed == |rx.Contents()| && a.rxFree == rx.Capacity() - |rx.Contents()|
      && a.txUsed == |tx.Contents()| && a.txFree == tx.Capacity() - |tx.Contents()|
    }

    // The second reading and the change.
    method ApplyQueues(q: Bits, gap: Disturbance) returns (ghost second: Bits, ghost present: Bits)
      requires Valid()
      modifies `handed, `rxArrived, rx, rx.buffer, tx, port
      ensures Valid() && OthersMoved()
      ensures second == old(port.state) && port.state == AfterCheckQueues(q, second, present)
      ensures Harmless(wiring, gap) ==> rx.Contents() == old(rx.Contents()) && tx.Contents() == old(tx.Contents())
      ensures Harmless(wiring, gap) ==> Read(present, wiring.rxMarks) == Read(second, wiring.rxMarks)
      ensures Harmless(wiring, gap) ==> Read(present, wiring.txMarks) == Read(second, wiring.txMarks)
      ensures present == ChangedBy(old(port.Abs()), gap.changes).state && (gap == NOTHING ==> present == second)
    {
      second := port.state;
      var delta := Difference(q, port.state);
      Disturb(gap);
      present := port.state;
      port.ChangeState(q, delta);
    }

    // What the bits come to, given what was sampled and what they were at the second reading and at
    // the end.
    ghost function RxOutcome(a: Sample, second: Bits, present: Bits): Gauge {
      Settle(Measure(wiring.rxLevels, a.rxUsed, a.rxFree), Read(second, wiring.rxMarks), Read(present, wiring.rxMarks))
    }

    ghost function TxOutcome(a: Sample, second: Bits, present: Bits): Gauge {
      Settle(Measure(wiring.txLevels, a.txUsed, a.txFree), Read(second, wiring.txMarks), Read(present, wiring.txMarks))
    }

    /** One run of CheckQueues, whatever other threads do meanwhile: exactly when it shows each queue
        rightly, and exactly when it leaves other bits alone. It does both when nobody touches the
        queues and their bits in the meantime. */
    method CheckQueues(g: Gaps) returns (ghost a: Sample, ghost second: Bits, ghost present: Bits)
      requires Valid()
      modifies `handed, `rxArrived, rx, rx.buffer, tx, port
      ensures Valid() && OthersMoved() && a.state == old(port.state)
      ensures RxShown() <==> RxOutcome(a, second, present) == RxMeasure()
      ensures TxShown() <==> TxOutcome(a, second, present) == TxMeasure()
      ensures OthersDecided(wiring, old(port.state), second, present, port.state)
      ensures Calm(wiring, g) ==> RxShown() && TxShown()
      ensures Calm(wiring, g) ==> rx.Contents() == old(rx.Contents()) && tx.Contents() == old(tx.Contents())
      ensures g == QUIET ==> second == present == old(port.state)
    {
      var q;
      q, a := WorkOutQueues(g);
      second, present := ApplyQueues(q, g.second);
      QueueBitsAfter(wiring, a, second, present);
      OtherBitsAfter(wiring, a, second, present);
      SettledWhenCalm(Measure(wiring.rxLevels, a.rxUsed, a.rxFree), Read(second, wiring.rxMarks));
      SettledWhenCalm(Measure(wiring.txLevels, a.txUsed, a.txFree), Read(second, wiring.txMarks));
    }

    // Add_RXBytes: what does not fit is dropped.
    method AddRxBytes(data: seq<byte>, g: Gaps)
      requires Valid()
      modifies `handed, `rxArrived, rx, rx.buffer, tx, port
      ensures Valid() && OthersMoved()
      ensures old(rxArrived) + data[..Min(|data|, rx.Capacity() - |old(rx.Contents())|)] <= rxArrived
      ensures Calm(wiring, g) ==> RxShown() && TxShown()
      ensures Calm(wiring, g) ==>
        rx.Contents() == old(rx.Contents()) + data[..Min(|data|, rx.Capacity() - |old(rx.Contents())|)]
      ensures g == QUIET ==>
        OthersDecided(wiring, old(port.state), old(port.state), old(port.state), port.state)
    {
      QueueRx(data);
      var _, _, _ := CheckQueues(g);
    }

    // ---------- the transmit side ----------

    // Whoever waits for the busy bit to come on is woken.
    ghost predicate BusySeen()
      reads this, port
    {
      forall t :: t in port.sleepers && WantsOn(port.sleepers[t].want, wiring.txBusy) ==> port.sleepers[t].woken
    }

    method StartBusy()
      requires Valid()
      modifies `areTransmitting, port
      ensures Valid() && SameWaits(old(port.sleepers), port.sleepers) && areTransmitting && BusySeen()
      ensures port.state == ChangedState(old(port.state), wiring.txBusy, wiring.txBusy)
    {
      areTransmitting := true;
      SetBitIsOn(port.state, wiring.txBusy);
      port.ChangeState(wiring.txBusy, wiring.txBusy);
      forall t | t in port.sleepers && WantsOn(port.sleepers[t].want, wiring.txBusy)
        ensures port.sleepers[t].woken
      {
        if !port.sleepers[t].woken {
          StillOff(wiring.layout, port.Abs(), wiring.txBusy, t);
        }
      }
    }

    method EndBusy()
      requires Valid()
      modifies `areTransmitting, port
      ensures Valid() && SameWaits(old(port.sleepers), port.sleepers) && !areTransmitting
      ensures old(BusySeen()) ==> BusySeen()
      ensures port.state == ChangedState(old(port.state), 0, wiring.txBusy)
    {
      port.ChangeState(0, wiring.txBusy);
      areTransmitting := false;
    }

    // The busy bit is on while IrDA takes the block, and nobody else transmits.
    method BlinkBusy()
      requires Valid()
      modifies `areTransmitting, port
      ensures Valid() && SameWaits(old(port.sleepers), port.sleepers) && !areTransmitting && BusySeen()
      ensures port.state == Without(old(port.state), wiring.txBusy)
    {
      StartBusy();
      ghost var busy := port.state;
      EndBusy();
      BusyAndBack(old(port.state), wiring.txBusy, busy, port.state);
    }

    // The bytes IrDA has room for are taken out of the queue and handed over in one block.
    method HandOver(room: nat) returns (block: seq<byte>)
      requires Valid()
      modifies `areTransmitting, `handed, tx, port
      ensures Valid() && OthersMoved() && handed == old(handed) + block && block + tx.Contents() == old(tx.Contents())
      ensures |block| == Min(Min(room, maxBlock), |old(tx.Contents())|) && !areTransmitting && BusySeen()
      ensures port.state == Without(old(port.state), wiring.txBusy)
    {
      block := Release(Min(room, maxBlock));
      BlinkBusy();
    }

    // Whether SetUpTransmit gets as far as handing over a block, and how long that is.
    ghost predicate Starts(irda: Irda)
      reads this, tx
    {
      !areTransmitting && tx.Contents() != [] && irda.room > 0 && irda.memory
    }

    ghost function Block(irda: Irda): nat
      reads this, tx
    {
      Min(Min(irda.room, maxBlock), |tx.Contents()|)
    }

    // A block is handed over; if IrDA takes all of it, the new levels are shown.
    method SendBlock(irda: Irda, g: Gaps) returns (ok: bool)
      requires Valid() && Starts(irda)
      modifies `areTransmitting, `handed, `rxArrived, rx, rx.buffer, tx, port
      ensures Valid() && OthersMoved() && !areTransmitting && BusySeen()
      ensures ok <==> irda.written == old(Block(irda))
      ensures old(handed) + old(tx.Contents())[..old(Block(irda))] <= handed
      ensures !ok || Calm(wiring, g) ==> tx.Contents() == old(tx.Contents())[old(Block(irda))..]
      ensures !ok ==> port.state == Without(old(port.state), wiring.txBusy) && rx.Contents() == old(rx.Contents())
      ensures ok && Calm(wiring, g) ==> RxShown() && TxShown()
    {
      var block := HandOver(irda.room);
      ok := irda.written == |block|;
      if ok {
        var _, _, _ := CheckQueues(g);
      }
    }

    /** SetUpTransmit hands queued bytes to IrDA in order; it succeeds exactly when there is nothing
        to send or IrDA takes the whole block. If IrDA takes less, nothing shows the new level: the
        bits are right only if it is on the same side of every mark as before. */
    method SetUpTransmit(irda: Irda, g: Gaps) returns (ok: bool)
      requires Valid() && fIrDA
      modifies `areTransmitting, `handed, `rxArrived, rx, rx.buffer, tx, port
      ensures Valid() && OthersMoved() && areTransmitting == old(areTransmitting)
      ensures ok == (!old(areTransmitting)
                      && (old(tx.Contents()) == [] || (old(Starts(irda)) && irda.written == old(Block(irda)))))
      ensures !old(Starts(irda)) ==> port.Abs() == old(port.Abs()) && tx.Contents() == old(tx.Contents())
      ensures old(Starts(irda)) ==> old(handed) + old(tx.Contents())[..old(Block(irda))] <= handed && BusySeen()
      ensures old(Starts(irda)) && (!ok || Calm(wiring, g)) ==> tx.Contents() == old(tx.Contents())[old(Block(irda))..]
      ensures old(Starts(irda)) && !ok ==> port.state == Without(old(port.state), wiring.txBusy)
      ensures old(Starts(irda)) && !ok && old(TxShown()) ==> (TxShown() <==> TxMeasure() == old(TxMeasure()))
      ensures old(Starts(irda)) && ok && Calm(wiring, g) ==> RxShown() && TxShown()
      ensures Calm(wiring, g) && old(RxShown()) ==> RxShown()
    {
      if areTransmitting {
        return false;
      }
      if tx.inQueue > 0 {
        if irda.room == 0 || !irda.memory {
          return false;
        }
        WithoutKeepsGauge(port.state, wiring.txBusy, wiring.rxMarks);
        WithoutKeepsGauge(port.state, wiring.txBusy, wiring.txMarks);
        ok := SendBlock(irda, g);
        return;
      }
      ok := true;
    }

    // ---------- sleeping ----------

    // The sleeping thread t itself runs: if it is woken, or because it is interrupted.
    method RunSelf(t: ThreadId, interrupted: bool) returns (outcome: Outcome)
      requires Valid() && t in port.sleepers
      modifies port
      ensures Valid() && port.state == old(port.state)
      ensures outcome.Blocked? ==> t in port.sleepers && port.sleepers[t].want == old(port.sleepers[t].want)
      ensures !outcome.Blocked? ==>
        t !in port.sleepers && Told(outcome, port.state, old(port.sleepers[t].want))
      ensures interrupted <==> outcome == GivesUp(Interrupted)
      ensures outcome.Blocked? ==> !port.sleepers[t].woken
    {
      if interrupted {
        outcome := port.ResumeInterrupted(t);
      } else if port.sleepers[t].woken {
        outcome := port.Resume(t);
      } else {
        outcome := Blocked;
      }
    }

    // Another thread runs.
    method RunOther(move: Move)
      requires Valid()
      modifies `areTransmitting, `handed, `rxArrived, rx, rx.buffer, tx, port
      ensures Valid() && OthersMoved()
      ensures CalmMove(wiring, move) && old(RxShown()) ==> RxShown()
      ensures move.Arrive? ==>
        old(rxArrived) + move.data[..Min(|move.data|, rx.Capacity() - |old(rx.Contents())|)] <= rxArrived
      ensures move.Transmit? && fIrDA && old(Starts(move.irda)) ==>
        old(handed) + old(tx.Contents())[..old(Block(move.irda))] <= handed
      ensures move.Others? ==> port.Abs() == ChangedBy(old(port.Abs()), move.d.changes)
    {
      match move {
        case Others(d) => Disturb(d);
        case Arrive(data, gaps) => AddRxBytes(data, gaps);
        case Transmit(irda, gaps) =>
          if fIrDA {
            var _ := SetUpTransmit(irda, gaps);
          }
        case _ =>
      }
    }

    // The reply is that of an interrupted thread, or of a turn of the wait loop at state s.
    ghost predicate Told(outcome: Outcome, s: Bits, want: Want) {
      outcome == GivesUp(Interrupted) || (outcome.Returned? && outcome == TurnOutcome(wiring.layout, s, want))
    }

    // Asleep after these moves: none was an interruption, and if the thread had its turn last, nobody
    // has woken it since.
    ghost predicate AsleepAfter(t: ThreadId, moves: seq<Move>)
      reads port
    {
      && t in port.sleepers && !Interrupts(moves)
      && (moves != [] && moves[|moves| - 1].Go? ==> !port.sleepers[t].woken)
    }

    // One move: the thread's own, or that of another.
    method Happen(t: ThreadId, move: Move) returns (outcome: Outcome)
      requires Valid() && t in port.sleepers
      modifies `areTransmitting, `handed, `rxArrived, rx, rx.buffer, tx, port
      ensures Valid() && old(rxArrived) <= rxArrived && Outgoing() == old(Outgoing()) && old(handed) <= handed
      ensures outcome.Blocked? ==> t in port.sleepers && port.sleepers[t].want == old(port.sleepers[t].want)
      ensures outcome.Blocked? ==> !move.Interruption? && (move.Go? ==> !port.sleepers[t].woken)
      ensures !outcome.Blocked? ==> t !in port.sleepers && Told(outcome, port.state, old(port.sleepers[t].want))
      ensures CalmMove(wiring, move) && old(RxShown()) ==> RxShown()
      ensures outcome.GivesUp? ==> move.Interruption?
      ensures move.Arrive? ==>
        old(rxArrived) + move.data[..Min(|move.data|, rx.Capacity() - |old(rx.Contents())|)] <= rxArrived
      ensures move.Transmit? && fIrDA && old(Starts(move.irda)) ==>
        old(handed) + old(tx.Contents())[..old(Block(move.irda))] <= handed
      ensures move.Others? ==> port.Abs() == ChangedBy(old(port.Abs()), move.d.changes)
    {
      if move.Go? || move.Interruption? {
        outcome := RunSelf(t, move.Interruption?);
      } else {
        RunOther(move);
        outcome := Blocked;
      }
    }

    method Sleep(t: ThreadId, moves: seq<Move>) returns (outcome: Outcome)
      requires Valid() && t in port.sleepers
      modifies `areTransmitting, `handed, `rxArrived, rx, rx.buffer, tx, port
      ensures Valid() && old(rxArrived) <= rxArrived && Outgoing() == old(Outgoing()) && old(handed) <= handed
      ensures outcome.Blocked? ==> t in port.sleepers && port.sleepers[t].want == old(port.sleepers[t].want)
      ensures outcome.Blocked? ==> AsleepAfter(t, moves)
      ensures !outcome.Blocked? ==> t !in port.sleepers && Told(outcome, port.state, old(port.sleepers[t].want))
      ensures CalmMoves(wiring, moves) && old(RxShown()) ==> RxShown()
      ensures outcome.GivesUp? ==> Interrupts(moves)
    {
      for i := 0 to |moves|
        invariant Valid() && old(rxArrived) <= rxArrived && Outgoing() == old(Outgoing()) && old(handed) <= handed
        invariant t in port.sleepers && port.sleepers[t].want == old(port.sleepers[t].want)
        invariant CalmMoves(wiring, moves) && old(RxShown()) ==> RxShown()
        invariant forall k :: 0 <= k < i ==> !moves[k].Interruption?
        invariant i > 0 && moves[i - 1].Go? ==> !port.sleepers[t].woken
      {
        outcome := Happen(t, moves[i]);
        if !outcome.Blocked? {
          return;
        }
      }
      outcome := Blocked;
    }

    // The way into the wait loop.
    method StartWatching(t: ThreadId, wanted: Bits, mask: Bits) returns (outcome: Outcome)
      requires Valid() && t !in port.sleepers
      modifies port
      ensures Valid() && port.state == Join(old(port.state), wiring.layout.silent)
      ensures port.Left(t, Wanted(wiring.layout, wanted, mask), outcome)
      ensures !outcome.Blocked? ==> Told(outcome, port.state, Wanted(wiring.layout, wanted, mask))
      ensures !outcome.GivesUp?
    {
      outcome := port.PrivateWatchState(t, wanted, mask);
    }

    lemma SilentKeepsShown(before: Bits)
      requires Apt(wiring) && port.state == Join(before, wiring.layout.silent)
      ensures Read(port.state, wiring.rxMarks) == Read(before, wiring.rxMarks)
    {
      JoinKeepsGauge(before, wiring.layout.silent, wiring.rxMarks);
    }

    method StartRead(t: ThreadId, wanted: Bits, mask: Bits) returns (outcome: Outcome)
      requires Valid() && t !in port.sleepers
      modifies port
      ensures Valid() && Read(port.state, wiring.rxMarks) == old(Read(port.state, wiring.rxMarks))
      ensures port.Left(t, Wanted(wiring.layout, wanted, mask), outcome)
      ensures !outcome.Blocked? ==> Told(outcome, port.state, Wanted(wiring.layout, wanted, mask))
      ensures !outcome.GivesUp?
    {
      outcome := StartWatching(t, wanted, mask);
      SilentKeepsShown(old(port.state));
    }

    method StartShown(t: ThreadId, wanted: Bits, mask: Bits) returns (outcome: Outcome)
      requires Valid() && t !in port.sleepers
      modifies port
      ensures Valid() && (old(RxShown()) ==> RxShown())
      ensures if outcome.Blocked? then t in port.sleepers && port.sleepers[t].want == Wanted(wiring.layout, wanted, mask)
        else t !in port.sleepers && Told(outcome, port.state, Wanted(wiring.layout, wanted, mask)) && !outcome.GivesUp?
    {
      outcome := StartRead(t, wanted, mask);
    }

    // watchState, once the port is known to be acquired.
    method Watch(t: ThreadId, wanted: Bits, mask: Bits, moves: seq<Move>) returns (outcome: Outcome)
      requires Valid() && t !in port.sleepers && Has(port.state, wiring.layout.acquired)
      modifies `areTransmitting, `handed, `rxArrived, rx, rx.buffer, tx, port
      ensures Valid() && old(rxArrived) <= rxArrived && Outgoing() == old(Outgoing()) && old(handed) <= handed
      ensures outcome.Blocked? ==> t in port.sleepers && port.sleepers[t].want == Wanted(wiring.layout, wanted, mask)
      ensures !outcome.Blocked? ==> t !in port.sleepers
      ensures !outcome.Blocked? ==> Told(outcome, port.state, Wanted(wiring.layout, wanted, mask))
      ensures CalmMoves(wiring, moves) && old(RxShown()) ==> RxShown()
      ensures outcome.Blocked? ==> AsleepAfter(t, moves)
      ensures outcome.GivesUp? ==> Interrupts(moves)
    {
      outcome := StartShown(t, wanted, mask);
      if outcome.Blocked? {
        outcome := Sleep(t, moves);
      }
    }

    ghost method Count(outcome: Outcome)
      modifies `failed
      ensures failed == old(failed) + if outcome.Blocked? || outcome.reply == Success then 0 else 1
    {
      if !outcome.Blocked? && outcome.reply != Success {
        failed := failed + 1;
      }
    }

    lemma ToldIsRight(wanted: Bits, mask: Bits, s: Bits, outcome: Outcome)
      requires Apt(wiring) && !NamesPort(wiring.layout, mask) && Told(outcome, s, Wanted(wiring.layout, wanted, mask))
      ensures ToldRightly(wiring, wanted, mask, s, outcome)
    {
      TurnTells(wiring, s, wanted, mask);
    }

    // ---------- reading ----------

    // One removal of dequeueData: take bytes, return the credit for them, show the new level.
    method TakeRx(maxSize: nat, g: Gaps) returns (taken: seq<byte>)
      requires Valid()
      modifies `creditReturned, `rxTaken, `handed, `rxArrived, rx, rx.buffer, tx, port
      ensures Valid() && OthersMoved() && |taken| == Min(maxSize, |old(rx.Contents())|)
      ensures rxTaken == old(rxTaken) + taken
      ensures creditReturned == old(creditReturned) + if fIrDA then |taken| else 0
      ensures Calm(wiring, g) ==> RxShown() && (|taken| == maxSize || rx.Contents() == [])
    {
      ghost var queued := rx.Contents();
      taken := rx.RemoveFromQueue(maxSize);
      Associates(rxTaken, taken, rx.Contents());
      rxTaken := rxTaken + taken;
      if fIrDA {
        creditReturned := creditReturned + |taken|;
      }
      var _, _, _ := CheckQueues(g);
    }

    /** A reader left asleep, unless it is about to test again, has an empty queue exactly when the
        empty bit is right. */
    ghost predicate ReaderAsleep(t: ThreadId)
      reads this, port, rx, rx.buffer
      requires rx.Valid()
    {
      t in port.sleepers &&
      (!port.sleepers[t].woken ==>
         (rx.Contents() == [] <==> Read(port.state, wiring.rxMarks).empty == RxMeasure().empty))
    }

    lemma SleepsRightly(t: ThreadId)
      requires Valid() && t in port.sleepers && port.sleepers[t].want == Wanted(wiring.layout, 0, wiring.rxMarks.empty)
      ensures ReaderAsleep(t)
    {
      if !port.sleepers[t].woken {
        ReadersWant(wiring);
        StillOn(wiring.layout, port.Abs(), wiring.rxMarks.empty, t);
      }
    }

    lemma ReaderIsTold(outcome: Outcome, s: Bits)
      requires Apt(wiring) && Told(outcome, s, Wanted(wiring.layout, 0, wiring.rxMarks.empty))
      ensures outcome.reply in {Success, IOError, Interrupted}
      ensures outcome.reply == IOError ==> !Has(s, wiring.layout.active)
      ensures outcome.reply == Success ==> !Has(s, wiring.rxMarks.empty)
    {
      ToldIsRight(0, wiring.rxMarks.empty, s, outcome);
      if outcome.reply == Success {
        MatchIsOff(s, wiring.rxMarks.empty);
      }
    }

    // The sleep of a reader.
    method WatchRx(t: ThreadId, moves: seq<Move>) returns (outcome: Outcome)
      requires Valid() && t !in port.sleepers && Has(port.state, wiring.layout.acquired)
      modifies `failed, `areTransmitting, `handed, `rxArrived, rx, rx.buffer, tx, port
      ensures Valid() && old(rxArrived) <= rxArrived && Outgoing() == old(Outgoing())
      ensures outcome.Blocked? ==> ReaderAsleep(t)
      ensures !outcome.Blocked? ==> t !in port.sleepers && outcome.reply in {Success, IOError, Interrupted}
      ensures !outcome.Blocked? && outcome.reply == IOError ==> !Has(port.state, wiring.layout.active)
      ensures CalmMoves(wiring, moves) && old(RxShown()) ==> RxShown()
      ensures !outcome.Blocked? && outcome.reply == Success && RxShown() ==> rx.Contents() != []
      ensures outcome.Blocked? ==> AsleepAfter(t, moves)
      ensures !outcome.Blocked? && outcome.reply == Interrupted ==> Interrupts(moves)
      ensures failed == old(failed) + if outcome.Blocked? || outcome.reply == Success then 0 else 1
    {
      outcome := Watch(t, 0, wiring.rxMarks.empty, moves);
      Count(outcome);
      if outcome.Blocked? {
        SleepsRightly(t);
      } else {
        ReaderIsTold(outcome, port.state);
      }
    }

    // One pass of the loop of dequeueData.
    method ReadPass(t: ThreadId, maxSize: nat, pass: Pass) returns (outcome: Outcome, more: seq<byte>)
      requires Valid() && t !in port.sleepers && Has(port.state, wiring.layout.acquired)
      modifies `failed, `creditReturned, `rxTaken, `areTransmitting, `handed, `rxArrived, rx, rx.buffer, tx, port
      ensures Valid() && old(rxArrived) <= rxArrived && Outgoing() == old(Outgoing())
      ensures rxTaken == old(rxTaken) + more && |more| <= maxSize
      ensures creditReturned == old(creditReturned) + if fIrDA then |more| else 0
      ensures outcome.Blocked? || outcome.reply != Success ==> more == []
      ensures outcome.Blocked? ==> ReaderAsleep(t)
      ensures !outcome.Blocked? ==> t !in port.sleepers && outcome.reply in {Success, IOError, Interrupted}
      ensures !outcome.Blocked? && outcome.reply == IOError ==> !Has(port.state, wiring.layout.active)
      ensures CalmMoves(wiring, pass.asleep) && Calm(wiring, pass.own) && old(RxShown()) ==> RxShown()
      ensures CalmMoves(wiring, pass.asleep) && old(RxShown()) && maxSize > 0 ==>
        (!outcome.Blocked? && outcome.reply == Success ==> more != [])
      ensures Calm(wiring, pass.own) && !outcome.Blocked? && outcome.reply == Success ==>
        |more| == maxSize || rx.Contents() == []
      ensures outcome.Blocked? ==> AsleepAfter(t, pass.asleep)
      ensures !outcome.Blocked? && outcome.reply == Interrupted ==> Interrupts(pass.asleep)
      ensures failed == old(failed) + if outcome.Blocked? || outcome.reply == Success then 0 else 1
    {
      more := [];
      outcome := WatchRx(t, pass.asleep);
      if !outcome.Blocked? && outcome.reply == Success {
        more := TakeRx(maxSize, pass.own);
      }
    }

    // Where a pass of the loop of dequeueData has left the reader.
    ghost predicate ReadEnds(t: ThreadId, status: DequeueStatus, moves: seq<Move>)
      reads this, port, rx, rx.buffer
      requires rx.Valid()
    {
      match status
      case Running => t !in port.sleepers
      case StillAsleep => ReaderAsleep(t) && AsleepAfter(t, moves)
      case NotAcquired => t !in port.sleepers && !Has(port.state, wiring.layout.acquired)
      case WatchFailed(reply) =>
        t !in port.sleepers && reply in {IOError, Interrupted}
        && (reply == IOError ==> !Has(port.state, wiring.layout.active)) && (reply == Interrupted ==> Interrupts(moves))
      case _ => false
    }

    // One pass, with watchState's own test in front.
    method ReadStep(t: ThreadId, maxSize: nat, pass: Pass) returns (status: DequeueStatus, more: seq<byte>)
      requires Valid() && t !in port.sleepers
      modifies `failed, `creditReturned, `rxTaken, `areTransmitting, `handed, `rxArrived, rx, rx.buffer, tx, port
      ensures Valid() && old(rxArrived) <= rxArrived && Outgoing() == old(Outgoing())
      ensures rxTaken == old(rxTaken) + more && |more| <= maxSize
      ensures creditReturned == old(creditReturned) + if fIrDA then |more| else 0
      ensures ReadEnds(t, status, pass.asleep) && (status != Running ==> more == [])
      ensures failed == old(failed) + if status.WatchFailed? then 1 else 0
      ensures CalmMoves(wiring, pass.asleep) && Calm(wiring, pass.own) && old(RxShown()) ==> RxShown()
      ensures CalmMoves(wiring, pass.asleep) && old(RxShown()) && maxSize > 0 && status == Running ==> more != []
      ensures Calm(wiring, pass.own) && status == Running ==> |more| == maxSize || rx.Contents() == []
      ensures status == NotAcquired <==> !Has(old(port.state), wiring.layout.acquired)
    {
      if !Has(port.state, wiring.layout.acquired) {
        return NotAcquired, [];
      }
      var outcome;
      outcome, more := ReadPass(t, maxSize, pass);
      status := if outcome.Blocked? then StillAsleep
        else if outcome.reply == Success then Running
        else WatchFailed(outcome.reply);
    }

    // The loop of dequeueData; first is what was taken out on entry.
    method WaitForMore(t: ThreadId, size: nat, min: nat, passes: seq<Pass>, first: seq<byte>)
      returns (status: DequeueStatus, data: seq<byte>, ghost at: nat)
      requires Valid() && t !in port.sleepers && |first| <= size && min <= size
      modifies `failed, `creditReturned, `rxTaken, `areTransmitting, `handed, `rxArrived, rx, rx.buffer, tx, port
      ensures Valid() && first <= data && |data| <= size && at <= |passes|
      ensures rxTaken == old(rxTaken) + data[|first|..] && old(rxArrived) <= rxArrived && Outgoing() == old(Outgoing())
      ensures creditReturned == old(creditReturned) + if fIrDA then |data| - |first| else 0
      ensures status == Done <==> |data| >= min
      ensures if status in {Done, Running} then t !in port.sleepers
        else at < |passes| && ReadEnds(t, status, passes[at].asleep)
      ensures status == Running ==> at == |passes|
      ensures failed == old(failed) + if status.WatchFailed? then 1 else 0
      ensures CalmPasses(wiring, passes) && old(RxShown()) ==> RxShown() && at <= |data|
      ensures CalmPasses(wiring, passes) && (|first| == size || old(rx.Contents()) == []) && status in {Done, Running} ==>
        |data| == size || rx.Contents() == []
    {
      data, at := first, 0;
      ghost var calm := CalmPasses(wiring, passes) && RxShown();
      var i := 0;
      while min > 0 && |data| < min
        invariant Valid() && t !in port.sleepers && i == at <= |passes| && first <= data && |data| <= size
        invariant rxTaken == old(rxTaken) + data[|first|..]
        invariant old(rxArrived) <= rxArrived && Outgoing() == old(Outgoing())
        invariant creditReturned == old(creditReturned) + if fIrDA then |data| - |first| else 0
        invariant failed == old(failed)
        invariant calm ==> RxShown() && i <= |data|
        invariant CalmPasses(wiring, passes) && (|first| == size || old(rx.Contents()) == []) ==>
          |data| == size || rx.Contents() == []
        decreases |passes| - i
      {
        if i == |passes| {
          return Running, data, at;
        }
        var more;
        status, more := ReadStep(t, size - |data|, passes[i]);
        Extends(old(rxTaken), first, data, more);
        data := data + more;
        if status != Running {
          return;
        }
        i, at := i + 1, at + 1;
      }
      status := Done;
    }

    /** The bytes handed out are the next ones of what arrived, in order and without a gap; a call
        that succeeds returns between min and size of them; and the credit returned is for exactly
        the bytes removed. A reader left asleep sleeps on an empty queue exactly when the empty bit
        is right, and it is if nobody else touches the queue bits while it runs CheckQueues; then
        every pass of the loop brings it at least one byte. */
    method DequeueData(t: ThreadId, size: nat, min: nat, first: Gaps, passes: seq<Pass>)
      returns (status: DequeueStatus, data: seq<byte>, ghost at: nat)
      requires Valid() && t !in port.sleepers
      modifies `failed, `creditReturned, `rxTaken, `areTransmitting, `handed, `rxArrived, rx, rx.buffer, tx, port
      ensures Valid() && |data| <= size
      ensures status == BadArgument <==> min > size
      ensures status == NotOpen <==> min <= size && !Has(old(port.state), wiring.layout.active)
      ensures rxTaken == old(rxTaken) + data && old(rxArrived) <= rxArrived && Outgoing() == old(Outgoing())
      ensures creditReturned == old(creditReturned) + if fIrDA then |data| else 0
      ensures if status in {BadArgument, NotOpen} then data == [] else |data| >= Min(size, |old(rx.Contents())|)
      ensures status !in {BadArgument, NotOpen} ==> (status == Done <==> |data| >= min)
      ensures if status in {Done, Running, BadArgument, NotOpen} then t !in port.sleepers
        else at < |passes| && ReadEnds(t, status, passes[at].asleep)
      ensures failed == old(failed) + if status.WatchFailed? then 1 else 0
      ensures Calm(wiring, first) && CalmPasses(wiring, passes) && status !in {BadArgument, NotOpen} ==>
        RxShown() && (status == Running ==> |passes| <= |data|)
        && (status in {Done, Running} ==> |data| == size || rx.Contents() == [])
    {
      data, at := [], 0;
      if min > size {
        return BadArgument, data, at;
      }
      if !Has(port.state, wiring.layout.active) {
        return NotOpen, data, at;
      }
      data := TakeRx(size, first);
      status, data, at := WaitForMore(t, size, min, passes, data);
    }

    // A reader that comes to watch now goes to sleep, for the queue is shown as empty.
    ghost predicate WouldBlock(state: Bits) {
      var s := Join(state, wiring.layout.silent);
      Has(state, wiring.layout.acquired) && Read(s, wiring.rxMarks).empty
      && TurnOutcome(wiring.layout, s, Wanted(wiring.layout, 0, wiring.rxMarks.empty)) == Blocked
    }

    lemma HiddenInActivePort(a: Sample)
      requires Apt(wiring) && a.rxUsed == 0 && a.rxFree > 0
      requires Has(a.state, wiring.layout.active) && Has(a.state, wiring.layout.acquired)
      ensures WouldBlock(WorkedOut(wiring, a))
    {
      var q := WorkedOut(wiring, a);
      WorkedOutShows(wiring, a);
      WorkedOutElsewhere(wiring, a, wiring.layout.active);
      WorkedOutElsewhere(wiring, a, wiring.layout.acquired);
      AgreeHas(q, a.state, wiring.layout.active);
      AgreeHas(q, a.state, wiring.layout.acquired);
      JoinKeepsGauge(q, wiring.layout.silent, wiring.rxMarks);
      JoinKeeps(q, wiring.layout.silent, wiring.layout.active);
      ReaderBlocks(wiring, Join(q, wiring.layout.silent));
    }

    // The first half of CheckQueues, of a reader who has found the queue empty.
    method SampleEmpty() returns (q: Bits)
      requires Valid() && rx.Contents() == []
      requires Has(port.state, wiring.layout.active) && Has(port.state, wiring.layout.acquired)
      modifies `handed, `rxArrived, rx, rx.buffer, tx, port
      ensures Valid() && OthersMoved() && rx.Contents() == [] && WouldBlock(q)
    {
      ghost var a;
      QuietIsCalm(wiring);
      q, a := WorkOutQueues(QUIET);
      HiddenInActivePort(a);
    }

    // The second half.
    method ApplyStale(q: Bits)
      requires Valid()
      modifies `handed, `rxArrived, rx, rx.buffer, tx, port
      ensures Valid() && OthersMoved() && port.state == q && rx.Contents() == old(rx.Contents())
    {
      var second, _ := ApplyQueues(q, NOTHING);
      UndisturbedCheckQueues(q, second);
    }

    // One whole Add_RXBytes of another thread between the two.
    method HideByte(b: byte)
      requires Valid() && rx.Contents() == []
      requires Has(port.state, wiring.layout.active) && Has(port.state, wiring.layout.acquired)
      modifies `handed, `rxArrived, rx, rx.buffer, tx, port
      ensures Valid() && OthersMoved() && rx.Contents() == [b] && WouldBlock(port.state)
    {
      var q := SampleEmpty();
      AddRxBytes([b], QUIET);
      assert [b][..1] == [b];
      ApplyStale(q);
    }

    /** It does go wrong: after that the reader falls asleep, unwoken, on a queue with a byte in it. */
    method SleepsOnByte(t: ThreadId, b: byte) returns (outcome: Outcome)
      requires Valid() && t !in port.sleepers && rx.Contents() == []
      requires Has(port.state, wiring.layout.active) && Has(port.state, wiring.layout.acquired)
      modifies `handed, `rxArrived, rx, rx.buffer, tx, port
      ensures Valid() && rx.Contents() == [b] && outcome == Blocked && !RxShown()
      ensures t in port.sleepers && !port.sleepers[t].woken
      ensures port.sleepers[t].want == Wanted(wiring.layout, 0, wiring.rxMarks.empty)
    {
      HideByte(b);
      outcome := port.PrivateWatchState(t, 0, wiring.rxMarks.empty);
    }

    // ---------- writing ----------

    // How many of so many queued bytes IrDA is given at once.
    function BlockOf(irda: Irda, queued: nat): nat {
      Min(Min(irda.room, maxBlock), queued)
    }

    // Nothing keeps this thread from transmitting.
    ghost predicate Free(irda: Irda)
      reads this
    {
      !areTransmitting && irda.room > 0 && irda.memory
    }

    // Nobody interferes, and IrDA takes what it is given, if anything.
    ghost predicate Smooth(pass: TxPass, queued: nat)
      reads this
    {
      && Calm(wiring, pass.own) && Calm(wiring, pass.after)
      && (Free(pass.irda) && queued > 0 ==> pass.irda.written == BlockOf(pass.irda, queued))
    }

    // One pass of enqueueData: queue what fits, show the levels, start the transmitter.
    method QueueTx(data: seq<byte>, pass: TxPass) returns (count: nat)
      requires Valid() && fIrDA
      modifies `areTransmitting, `handed, `rxArrived, rx, rx.buffer, tx, tx.buffer, port
      ensures Valid() && count == Min(|data|, tx.Capacity() - |old(tx.Contents())|)
      ensures Outgoing() == old(Outgoing()) + data[..count] && old(rxArrived) <= rxArrived && old(handed) <= handed
      ensures SameWaits(old(port.sleepers), port.sleepers)
      ensures var queued := old(tx.Contents()) + data[..count];
        && (Calm(wiring, pass.own) && old(Free(pass.irda)) ==>
              old(handed) + queued[..BlockOf(pass.irda, |queued|)] <= handed)
        && (old(Smooth(pass, |queued|)) ==> TxShown() && RxShown())
    {
      count := AddToTx(data, pass.own);
      var _ := SetUpTransmit(pass.irda, pass.after);
    }

    // The first half of it.
    method AddToTx(data: seq<byte>, g: Gaps) returns (count: nat)
      requires Valid()
      modifies `handed, `rxArrived, rx, rx.buffer, tx, tx.buffer, port
      ensures Valid() && count == Min(|data|, tx.Capacity() - |old(tx.Contents())|)
      ensures Outgoing() == old(Outgoing()) + data[..count] && old(rxArrived) <= rxArrived && old(handed) <= handed
      ensures SameWaits(old(port.sleepers), port.sleepers)
      ensures Calm(wiring, g) ==>
        tx.Contents() == old(tx.Contents()) + data[..count] && handed == old(handed) && TxShown() && RxShown()
    {
      ghost var queued := tx.Contents();
      count := tx.AddToQueue(data);
      Associates(handed, queued, data[..count]);
      ghost var now := tx.Contents();
      var _, _, _ := CheckQueues(g);
      if Calm(wiring, g) {
        SameTail(old(handed), handed, now);
      }
    }

    /** A writer left asleep, unless it is about to test again, has a queue that is not low exactly
        when the low-water bit is right. */
    ghost predicate WriterAsleep(t: ThreadId)
      reads this, port, tx, tx.buffer
      requires tx.Valid()
    {
      t in port.sleepers &&
      (!port.sleepers[t].woken ==>
         (|tx.Contents()| >= wiring.txLevels.lowWater <==> Read(port.state, wiring.txMarks).low == TxMeasure().low))
    }

    lemma WaitsRightly(t: ThreadId)
      requires Valid() && t in port.sleepers
      requires port.sleepers[t].want == Wanted(wiring.layout, wiring.txMarks.low, wiring.txMarks.low)
      ensures WriterAsleep(t)
    {
      if !port.sleepers[t].woken {
        WritersWant(wiring);
        StillOff(wiring.layout, port.Abs(), wiring.txMarks.low, t);
      }
    }

    method WatchTx(t: ThreadId, moves: seq<Move>) returns (outcome: Outcome)
      requires Valid() && t !in port.sleepers && Has(port.state, wiring.layout.acquired)
      modifies `failed, `areTransmitting, `handed, `rxArrived, rx, rx.buffer, tx, port
      ensures Valid() && old(rxArrived) <= rxArrived && Outgoing() == old(Outgoing()) && old(handed) <= handed
      ensures if outcome.Blocked? then WriterAsleep(t) else t !in port.sleepers
      ensures !outcome.Blocked? ==> outcome.reply in {Success, IOError, Interrupted}
      ensures !outcome.Blocked? && outcome.reply == IOError ==> !Has(port.state, wiring.layout.active)
      ensures outcome.Blocked? ==> AsleepAfter(t, moves)
      ensures !outcome.Blocked? && outcome.reply == Interrupted ==> Interrupts(moves)
      ensures failed == old(failed) + if outcome.Blocked? || outcome.reply == Success then 0 else 1
    {
      outcome := Watch(t, wiring.txMarks.low, wiring.txMarks.low, moves);
      Count(outcome);
      if outcome.Blocked? {
        WaitsRightly(t);
      } else {
        ToldIsRight(wiring.txMarks.low, wiring.txMarks.low, port.state, outcome);
      }
    }

    // One pass of the loop of enqueueData.
    method WritePass(t: ThreadId, data: seq<byte>, pass: TxPass) returns (outcome: Outcome, count: nat)
      requires Valid() && fIrDA && t !in port.sleepers && Has(port.state, wiring.layout.acquired)
      modifies `failed, `areTransmitting, `handed, `rxArrived, rx, rx.buffer, tx, tx.buffer, port
      ensures Valid() && count <= |data|
      ensures Outgoing() == old(Outgoing()) + data[..count] && old(rxArrived) <= rxArrived && old(handed) <= handed
      ensures if outcome.Blocked? || outcome.reply != Success then count == 0
        else count >= Min(|data|, tx.Capacity() - |old(tx.Contents())|)
      ensures if outcome.Blocked? then WriterAsleep(t) else t !in port.sleepers
      ensures !outcome.Blocked? ==> outcome.reply in {Success, IOError, Interrupted}
      ensures !outcome.Blocked? && outcome.reply == IOError ==> !Has(port.state, wiring.layout.active)
      ensures outcome.Blocked? ==> AsleepAfter(t, pass.asleep)
      ensures !outcome.Blocked? && outcome.reply == Interrupted ==> Interrupts(pass.asleep)
      ensures failed == old(failed) + if outcome.Blocked? || outcome.reply == Success then 0 else 1
    {
      count := 0;
      outcome := WatchTx(t, pass.asleep);
      if !outcome.Blocked? && outcome.reply == Success {
        count := QueueTx(data, pass);
      }
    }

    /** enqueueData: what counts as enqueued follows what went before, in order and without a gap,
        and a caller that sleeps is told of success only when all of it is. The transmitter is
        started: unless something keeps it from that, as much of the queue as IrDA takes at once is
        handed over in the first pass. */
    method EnqueueData(t: ThreadId, data: seq<byte>, terminated: bool, sleep: bool, first: TxPass, passes: seq<TxPass>)
      returns (status: EnqueueStatus, count: nat, ghost at: nat)
      requires Valid() && (!terminated ==> fIrDA) && t !in port.sleepers
      modifies `failed, `areTransmitting, `handed, `rxArrived, rx, rx.buffer, tx, tx.buffer, port
      ensures Valid() && count <= |data|
      ensures Outgoing() == old(Outgoing()) + data[..count] && old(rxArrived) <= rxArrived && old(handed) <= handed
      ensures status !in {Offline, NotActive} && Calm(wiring, first.own) && old(Free(first.irda)) ==>
        var queued := old(tx.Contents()) + data[..Min(|data|, tx.Capacity() - |old(tx.Contents())|)];
        old(handed) + queued[..BlockOf(first.irda, |queued|)] <= handed
      ensures status == Enqueued && !sleep && old(Smooth(first, |tx.Contents()| + Min(|data|, tx.Capacity() - |tx.Contents()|)))
        ==> TxShown() && RxShown()
      ensures status == Offline <==> terminated
      ensures status == NotActive <==> !terminated && !Has(old(port.state), wiring.layout.active)
      ensures if status in {Offline, NotActive} then count == 0
        else count >= Min(|data|, tx.Capacity() - |old(tx.Contents())|)
      ensures status == Enqueued ==>
        count == if sleep then |data| else Min(|data|, tx.Capacity() - |old(tx.Contents())|)
      ensures status in {Waiting, Unacquired, Retrying} || status.Unslept? ==> sleep && count < |data|
      ensures if status in {Enqueued, Retrying, Offline, NotActive} then t !in port.sleepers
        else at < |passes| && WriteEnds(t, status, passes[at].asleep)
      ensures failed == old(failed) + if status.Unslept? then 1 else 0
    {
      count, at := 0, 0;
      if terminated {
        return Offline, count, at;
      }
      if !Has(port.state, wiring.layout.active) {
        return NotActive, count, at;
      }
      count := QueueTx(data, first);
      if sleep {
        status, count, at := WaitToQueue(t, data, passes, count, old(Outgoing()));
      } else {
        status := Enqueued;
      }
    }

    // Where a pass of the loop of enqueueData has left the writer.
    ghost predicate WriteEnds(t: ThreadId, status: EnqueueStatus, moves: seq<Move>)
      reads this, port, tx, tx.buffer
      requires tx.Valid()
    {
      match status
      case Retrying => t !in port.sleepers
      case Waiting => WriterAsleep(t) && AsleepAfter(t, moves)
      case Unacquired => t !in port.sleepers && !Has(port.state, wiring.layout.acquired)
      case Unslept(reply) =>
        t !in port.sleepers && reply in {IOError, Interrupted}
        && (reply == IOError ==> !Has(port.state, wiring.layout.active)) && (reply == Interrupted ==> Interrupts(moves))
      case _ => false
    }

    // One pass, with watchState's own test in front.
    method WriteStep(t: ThreadId, data: seq<byte>, pass: TxPass) returns (status: EnqueueStatus, count: nat)
      requires Valid() && fIrDA && t !in port.sleepers
      modifies `failed, `areTransmitting, `handed, `rxArrived, rx, rx.buffer, tx, tx.buffer, port
      ensures Valid() && count <= |data|
      ensures Outgoing() == old(Outgoing()) + data[..count] && old(rxArrived) <= rxArrived && old(handed) <= handed
      ensures WriteEnds(t, status, pass.asleep)
      ensures if status == Retrying then count >= Min(|data|, tx.Capacity() - |old(tx.Contents())|) else count == 0
      ensures failed == old(failed) + if status.Unslept? then 1 else 0
      ensures status == Unacquired <==> !Has(old(port.state), wiring.layout.acquired)
    {
      if !Has(port.state, wiring.layout.acquired) {
        return Unacquired, 0;
      }
      var outcome;
      outcome, count := WritePass(t, data, pass);
      status := if outcome.Blocked? then Waiting
        else if outcome.reply == Success then Retrying
        else Unslept(outcome.reply);
    }

    // The loop of enqueueData; first is the number of bytes already queued, behind those of before.
    method WaitToQueue(t: ThreadId, data: seq<byte>, passes: seq<TxPass>, first: nat, ghost before: seq<byte>)
      returns (status: EnqueueStatus, count: nat, ghost at: nat)
      requires Valid() && fIrDA && t !in port.sleepers && first <= |data| && Outgoing() == before + data[..first]
      modifies `failed, `areTransmitting, `handed, `rxArrived, rx, rx.buffer, tx, tx.buffer, port
      ensures Valid() && first <= count <= |data| && at <= |passes|
      ensures Outgoing() == before + data[..count] && old(rxArrived) <= rxArrived && old(handed) <= handed
      ensures status == Enqueued <==> count == |data|
      ensures if status in {Enqueued, Retrying} then t !in port.sleepers
        else at < |passes| && WriteEnds(t, status, passes[at].asleep)
      ensures status == Retrying ==> at == |passes|
      ensures failed == old(failed) + if status.Unslept? then 1 else 0
    {
      count, at := first, 0;
      var i := 0;
      while count < |data|
        invariant Valid() && t !in port.sleepers && first <= count <= |data| && i == at <= |passes|
        invariant Outgoing() == before + data[..count] && old(rxArrived) <= rxArrived && old(handed) <= handed
        invariant failed == old(failed)
        decreases |passes| - i
      {
        if i == |passes| {
          return Retrying, count, at;
        }
        var more;
        status, more := WriteStep(t, data[count..], passes[i]);
        assert data[..count] + data[count..][..more] == data[..count + more];
        Associates(before, data[..count], data[count..][..more]);
        count := count + more;
        if status != Retrying {
          return;
        }
        i, at := i + 1, at + 1;
      }
      status := Enqueued;
    }
  }

  // Some assignment of bits to their meanings.
  const SOME_WIRING := Wiring(Layout(0x80000000, 0x40000000, 0x40), Marks(1, 2, 4, 8), Marks(16, 32, 128, 256),
    Levels(4, 12), Levels(4, 12), 512)

  lemma SomeWiringIsApt()
    ensures Apt(SOME_WIRING)
  {}

  /** And there is a port at which it goes wrong. */
  method SomePort() returns (p: SerialPort)
    ensures fresh(p) && p.Valid() && p.rx.Contents() == [] && 0 !in p.port.sleepers
    ensures Has(p.port.state, p.wiring.layout.active) && Has(p.port.state, p.wiring.layout.acquired)
  {
    SomeWiringIsApt();
    p := new SerialPort(SOME_WIRING, 0xc0000000, 16, 8);
  }
}
