/** The hand-made condition variable of the serial ports: changeState and privateWatchState of
    AppleSCCIrDA.cpp, and setStateGated and watchStateGated of AppleUSBFTDI.c.

    Many threads share one state word and one mask of interesting bits. One step is one stretch
    with the lock held; a thread registers on the wait queue before it lets the lock go. */
module PortWatch {

  type Bits = bv32
  type ThreadId = nat

  // What a thread inside the wait loop is waiting for. automatic means that it did not ask about
  // the active bit itself, and is to be told when the port goes inactive.
  datatype Want = Want(state: Bits, mask: Bits, automatic: bool)

  datatype Sleeper = Sleeper(want: Want, woken: bool)

  datatype Port = Port(state: Bits, watchMask: Bits, sleepers: map<ThreadId, Sleeper>)

  // The bits of the state word the protocol itself knows about. silent holds those that entering
  // the wait loop switches on without telling anyone: 0x40 in AppleSCCIrDA, none in AppleUSBFTDI.
  datatype Layout = Layout(acquired: Bits, active: Bits, silent: Bits)

  datatype Reply = Success | IOError | Interrupted | DriverGone

  // The result of one lock-held stretch of a watching thread: it sleeps on; or it is answered, and
  // its state word is what the port has; or it gives up, and its state word stays as it is.
  datatype Outcome = Blocked | Returned(reply: Reply, state: Bits) | GivesUp(reply: Reply)

  // ---------- the steps ----------

  // The interesting bits that already have their wanted value.
  function Found(w: Want, state: Bits): Bits {
    (w.state ^ !state) & w.mask
  }

  predicate FoundAny(w: Want, state: Bits, bits: Bits) {
    Found(w, state) & bits != 0
  }

  predicate Satisfied(w: Want, state: Bits) {
    Found(w, state) != 0
  }

  function WakeAll(sleepers: map<ThreadId, Sleeper>): map<ThreadId, Sleeper> {
    map t | t in sleepers :: sleepers[t].(woken := true)
  }

  function ChangedState(current: Bits, state: Bits, mask: Bits): Bits {
    (current & !mask) | (state & mask)
  }

  predicate Touches(a: Bits, b: Bits, watchMask: Bits) {
    (a ^ b) & watchMask != 0
  }

  function Join(a: Bits, b: Bits): Bits {
    a | b
  }

  function AfterChange(p: Port, state: Bits, mask: Bits): Port {
    var next := ChangedState(p.state, state, mask);
    Port(next, p.watchMask, if Touches(next, p.state, p.watchMask) then WakeAll(p.sleepers) else p.sleepers)
  }

  // A thread on its way out cannot undo its part of the mask: it clears all of it and makes every
  // sleeper register again.
  function Leave(p: Port, t: ThreadId): Port {
    Port(p.state, 0, WakeAll(p.sleepers - {t}))
  }

  function Block(p: Port, t: ThreadId, w: Want): Port {
    Port(p.state, Join(p.watchMask, w.mask), p.sleepers[t := Sleeper(w, false)])
  }

  // One turn of the wait loop, from its test to either end.
  function Turn(p: Port, t: ThreadId, w: Want): Port {
    if Satisfied(w, p.state) then Leave(p, t) else Block(p, t, w)
  }

  function TurnOutcome(layout: Layout, state: Bits, w: Want): Outcome {
    if !Satisfied(w, state) then Blocked
    else if w.automatic && FoundAny(w, state, layout.active) then Returned(IOError, state)
    else Returned(Success, state)
  }

  /** What a caller's state and mask become on entry. */
  function Wanted(layout: Layout, state: Bits, mask: Bits): Want {
    if NamesPort(layout, mask) then Want(state, mask, false)
    else Want(state & !layout.active, mask | layout.active, true)
  }

  predicate NamesPort(layout: Layout, mask: Bits) {
    mask & (layout.acquired | layout.active) != 0
  }

  function Begin(layout: Layout, p: Port, t: ThreadId, w: Want): Port {
    Turn(p.(state := Join(p.state, layout.silent)), t, w)
  }

  datatype Event =
    | Change(state: Bits, mask: Bits)
    | Enter(t: ThreadId, want: Want)
    | Restart(t: ThreadId)
    | Interrupt(t: ThreadId)
    | Abandon(t: ThreadId)
    | ClearSleepers

  // A driver that goes away empties the mask and wakes everyone (clearSleepingThreads).
  function ClearAll(p: Port): Port {
    if p.sleepers == map[] then p else Port(p.state, 0, WakeAll(p.sleepers))
  }

  // Which events can happen: a thread enters once and resumes only when woken, to test again or, if
  // the driver is gone by then, to leave at once. An interrupt takes it off the wait queue at any
  // time; until it has the lock, another thread's wakeup may still pass it.
  ghost predicate Enabled(p: Port, e: Event) {
    match e
    case Change(_, _) => true
    case Enter(t, _) => t !in p.sleepers
    case Restart(t) => t in p.sleepers && p.sleepers[t].woken
    case Interrupt(t) => t in p.sleepers
    case Abandon(t) => t in p.sleepers && p.sleepers[t].woken
    case ClearSleepers => true
  }

  ghost function Apply(layout: Layout, p: Port, e: Event): Port
    requires Enabled(p, e)
  {
    match e
    case Change(state, mask) => AfterChange(p, state, mask)
    case Enter(t, w) => Begin(layout, p, t, w)
    case Restart(t) => Turn(p, t, p.sleepers[t].want)
    case Interrupt(t) => Leave(p, t)
    case Abandon(t) => Leave(p, t)
    case ClearSleepers => ClearAll(p)
  }

  // ---------- no lost wakeup ----------

  ghost predicate Covered(mask: Bits, watchMask: Bits) {
    mask & !watchMask == 0
  }

  ghost predicate AsksFor(w: Want, bits: Bits) {
    w.state & w.mask & bits != 0
  }

  // A sleeper nobody has woken is registered in the mask, and what it waits for is not there.
  ghost predicate RightlyAsleep(p: Port, s: Sleeper) {
    !s.woken ==> Covered(s.want.mask, p.watchMask) && !Satisfied(s.want, p.state)
  }

  /** Nobody asleep has missed anything; and nobody who ever slept waits for a silent bit to come
      on, for such a thread finds it on entry. */
  ghost predicate Sound(layout: Layout, p: Port) {
    forall t :: t in p.sleepers ==>
      RightlyAsleep(p, p.sleepers[t]) && !AsksFor(p.sleepers[t].want, layout.silent)
  }

  lemma UnwatchedChange(w: Want, old_: Bits, new_: Bits, watchMask: Bits)
    requires Covered(w.mask, watchMask) && !Touches(new_, old_, watchMask)
    ensures Satisfied(w, new_) == Satisfied(w, old_)
  {}

  lemma JoinCovers(mask: Bits, watchMask: Bits, more: Bits)
    ensures Covered(more, Join(watchMask, more))
    ensures Covered(mask, watchMask) ==> Covered(mask, Join(watchMask, more))
  {}

  lemma SilentChange(w: Want, state: Bits, silent: Bits)
    requires !AsksFor(w, silent) && !Satisfied(w, state)
    ensures !Satisfied(w, Join(state, silent))
  {}

  lemma SilentIsFound(w: Want, state: Bits, silent: Bits)
    requires !Satisfied(w, Join(state, silent))
    ensures !AsksFor(w, silent)
  {}

  /** Every step of every thread keeps the invariant. */
  lemma ApplyKeepsSound(layout: Layout, p: Port, e: Event)
    requires Enabled(p, e) && Sound(layout, p)
    ensures Sound(layout, Apply(layout, p, e))
  {
    match e
    case Change(state, mask) =>
      ChangeKeepsSound(layout, p, state, mask);
    case Enter(t, w) =>
      var q := p.(state := Join(p.state, layout.silent));
      SilentKeepsSound(layout, p);
      if !Satisfied(w, q.state) {
        SilentIsFound(w, p.state, layout.silent);
        BlockKeepsSound(layout, q, t, w);
      }
    case Restart(t) =>
      if !Satisfied(p.sleepers[t].want, p.state) {
        BlockKeepsSound(layout, p, t, p.sleepers[t].want);
      }
    case Interrupt(t) =>
    case Abandon(t) =>
    case ClearSleepers =>
  }

  lemma ChangeKeepsSound(layout: Layout, p: Port, state: Bits, mask: Bits)
    requires Sound(layout, p)
    ensures Sound(layout, AfterChange(p, state, mask))
  {
    var next := ChangedState(p.state, state, mask);
    if !Touches(next, p.state, p.watchMask) {
      forall t | t in p.sleepers && !p.sleepers[t].woken
        ensures !Satisfied(p.sleepers[t].want, next)
      {
        UnwatchedChange(p.sleepers[t].want, p.state, next, p.watchMask);
      }
    }
  }

  lemma SilentKeepsSound(layout: Layout, p: Port)
    requires Sound(layout, p)
    ensures Sound(layout, p.(state := Join(p.state, layout.silent)))
  {
    forall t | t in p.sleepers && !p.sleepers[t].woken
      ensures !Satisfied(p.sleepers[t].want, Join(p.state, layout.silent))
    {
      SilentChange(p.sleepers[t].want, p.state, layout.silent);
    }
  }

  lemma BlockKeepsSound(layout: Layout, p: Port, t: ThreadId, w: Want)
    requires Sound(layout, p) && !Satisfied(w, p.state) && !AsksFor(w, layout.silent)
    ensures Sound(layout, Block(p, t, w))
  {
    JoinCovers(w.mask, p.watchMask, w.mask);
    forall u | u in p.sleepers && !p.sleepers[u].woken
      ensures Covered(p.sleepers[u].want.mask, Join(p.watchMask, w.mask))
    {
      JoinCovers(p.sleepers[u].want.mask, p.watchMask, w.mask);
    }
  }

  // ---------- whole runs ----------

  // Events that cannot happen are passed over.
  ghost function Run(layout: Layout, p: Port, es: seq<Event>): Port {
    if es == [] then p
    else
      var q, e := Run(layout, p, es[..|es| - 1]), es[|es| - 1];
      if Enabled(q, e) then Apply(layout, q, e) else q
  }

  ghost predicate CanRun(layout: Layout, p: Port, es: seq<Event>) {
    forall i :: 0 <= i < |es| ==> Enabled(Run(layout, p, es[..i]), es[i])
  }

  lemma {:induction false} RunKeepsSound(layout: Layout, p: Port, es: seq<Event>)
    requires Sound(layout, p)
    ensures Sound(layout, Run(layout, p, es))
  {
    if es != [] {
      RunKeepsSound(layout, p, es[..|es| - 1]);
      var q, e := Run(layout, p, es[..|es| - 1]), es[|es| - 1];
      if Enabled(q, e) {
        ApplyKeepsSound(layout, q, e);
      }
    }
  }

  /** No lost wakeup: whatever the threads did since the port was created, a thread in the wait
      loop that is not on its way to test the state again is registered in the mask, and none of
      its bits has the wanted value. */
  lemma NoLostWakeup(layout: Layout, state: Bits, es: seq<Event>)
    ensures var p := Run(layout, Port(state, 0, map[]), es);
      forall t :: t in p.sleepers && !p.sleepers[t].woken ==>
        Covered(p.sleepers[t].want.mask, p.watchMask) && !Satisfied(p.sleepers[t].want, p.state)
  {
    RunKeepsSound(layout, Port(state, 0, map[]), es);
  }

  // ---------- wakeup storms end ----------

  function Woken(p: Port): set<ThreadId> {
    set t | t in p.sleepers && p.sleepers[t].woken
  }

  function Unrest(p: Port): nat {
    |p.sleepers| * (|p.sleepers| + 1) + |Woken(p)|
  }

  lemma WokenBounded(p: Port)
    ensures |Woken(p)| <= |p.sleepers|
  {
    Smaller(Woken(p), p.sleepers.Keys);
  }

  lemma {:induction false} Smaller(a: set<ThreadId>, b: set<ThreadId>)
    requires a <= b
    ensures |a| <= |b|
  {
    if a != {} {
      var x :| x in a;
      Smaller(a - {x}, b - {x});
    }
  }

  // A woken thread either goes back to sleep, one fewer awake, or leaves and wakes the rest.
  lemma RestartCalms(layout: Layout, p: Port, t: ThreadId)
    requires Enabled(p, Restart(t))
    ensures Unrest(Apply(layout, p, Restart(t))) < Unrest(p)
  {
    var q, w, n := Apply(layout, p, Restart(t)), p.sleepers[t].want, |p.sleepers|;
    if !Satisfied(w, p.state) {
      assert q.sleepers.Keys == p.sleepers.Keys;
      assert Woken(q) == Woken(p) - {t};
    } else {
      assert q.sleepers.Keys == p.sleepers.Keys - {t};
      assert t in Woken(p);
      WokenBounded(q);
      assert |q.sleepers| == n - 1;
      assert Unrest(q) <= (n - 1) * n + (n - 1);
      assert (n - 1) * n + (n - 1) < n * (n + 1);
    }
  }

  ghost predicate OnlyRestarts(es: seq<Event>) {
    forall e :: e in es ==> e.Restart?
  }

  lemma {:induction false} StormCalms(layout: Layout, p: Port, es: seq<Event>)
    requires CanRun(layout, p, es) && OnlyRestarts(es)
    ensures Unrest(Run(layout, p, es)) + |es| <= Unrest(p)
  {
    if es != [] {
      var init, e := es[..|es| - 1], es[|es| - 1];
      assert forall i :: 0 <= i < |init| ==> init[..i] == es[..i] && init[i] == es[i];
      StormCalms(layout, p, init);
      assert e in es;
      RestartCalms(layout, Run(layout, p, init), e.t);
    }
  }

  /** A wakeup storm is bounded: with n threads in the wait loop, and nothing else happening, they
      resume at most n * (n + 2) times altogether before all are asleep for good or gone. */
  lemma StormEnds(layout: Layout, p: Port, es: seq<Event>)
    requires CanRun(layout, p, es) && OnlyRestarts(es)
    ensures |es| <= |p.sleepers| * (|p.sleepers| + 2)
  {
    StormCalms(layout, p, es);
    WokenBounded(p);
    assert |p.sleepers| * (|p.sleepers| + 1) + |p.sleepers| == |p.sleepers| * (|p.sleepers| + 2);
  }

  /** Once calm, nobody sleeps through what they wait for. */
  lemma CalmIsRight(layout: Layout, p: Port, t: ThreadId)
    requires Sound(layout, p) && Woken(p) == {} && t in p.sleepers
    ensures !Satisfied(p.sleepers[t].want, p.state) && Covered(p.sleepers[t].want.mask, p.watchMask)
  {
    assert t !in Woken(p);
  }

  // ---------- what a watcher is told ----------

  ghost predicate IsBit(b: Bits) {
    b != 0 && b & (b - 1) == 0
  }

  predicate Has(state: Bits, b: Bits) {
    state & b != 0
  }

  ghost predicate HasAll(state: Bits, b: Bits) {
    state & b == b
  }

  // The bits of the mask that have the value asked for.
  function MatchingBits(state: Bits, mask: Bits, portState: Bits): Bits {
    (state ^ !portState) & mask
  }

  predicate Matches(state: Bits, mask: Bits, portState: Bits) {
    MatchingBits(state, mask, portState) != 0
  }

  /** A single bit matches exactly when it has the value asked for. */
  lemma MatchIsEquality(b: Bits, state: Bits, s: Bits)
    requires IsBit(b)
    ensures Matches(state, b, s) <==> Has(state, b) == Has(s, b)
  {
    WholeBit(b, state);
    WholeBit(b, s);
    if Has(state, b) == Has(s, b) {
      SameMatches(b, state, s);
    } else {
      OthersDoNot(b, state, s);
    }
  }

  lemma SameMatches(b: Bits, state: Bits, s: Bits)
    requires b != 0
    requires (HasAll(state, b) && HasAll(s, b)) || (!Has(state, b) && !Has(s, b))
    ensures Matches(state, b, s)
  {
    EqualBits(b, state, s);
  }

  lemma EqualBits(b: Bits, x: Bits, y: Bits)
    requires (x & b == b && y & b == b) || (x & b == 0 && y & b == 0)
    ensures (x ^ !y) & b == b
  {}

  lemma OthersDoNot(b: Bits, state: Bits, s: Bits)
    requires (HasAll(state, b) && !Has(s, b)) || (!Has(state, b) && HasAll(s, b))
    ensures !Matches(state, b, s)
  {
    OppositeBits(b, state, s);
  }

  lemma OppositeBits(b: Bits, x: Bits, y: Bits)
    requires (x & b == b && y & b == 0) || (x & b == 0 && y & b == b)
    ensures (x ^ !y) & b == 0
  {}

  /** A change sets the masked bits and keeps the others, and it touches what is watched exactly when
      some watched bit is different afterwards. */
  lemma ChangeMeans(current: Bits, state: Bits, mask: Bits)
    ensures ChangedState(current, state, mask) & mask == state & mask
    ensures ChangedState(current, state, mask) & !mask == current & !mask
  {}

  lemma TouchMeans(a: Bits, b: Bits, watchMask: Bits)
    ensures Touches(a, b, watchMask) <==> !SameUnder(a, b, watchMask)
  {
    var x, y, d := a & watchMask, b & watchMask, (a ^ b) & watchMask;
    MaskedDifference(a, b, watchMask);
    DifferenceIsZero(x, y, d);
  }

  ghost predicate SameUnder(a: Bits, b: Bits, mask: Bits) {
    a & mask == b & mask
  }

  lemma MaskedDifference(a: Bits, b: Bits, m: Bits)
    ensures (a ^ b) & m == (a & m) ^ (b & m)
  {}

  lemma DifferenceIsZero(x: Bits, y: Bits, d: Bits)
    requires d == x ^ y
    ensures d == 0 <==> x == y
  {}

  lemma WholeBit(b: Bits, s: Bits)
    requires IsBit(b)
    ensures HasAll(s, b) <==> Has(s, b)
  {}

  // w asks for the bits of a to be low, besides what state and mask ask for.
  ghost predicate AlsoLow(w: Want, state: Bits, mask: Bits, a: Bits) {
    w.state == state & !a && w.mask == mask | a
  }

  lemma LowIsFound(w: Want, state: Bits, mask: Bits, a: Bits, s: Bits)
    requires AlsoLow(w, state, mask, a) && a != 0 && (HasAll(s, a) <==> Has(s, a))
    ensures FoundAny(w, s, a) <==> !Has(s, a)
  {
    assert Found(w, s) & a == !s & a;
  }

  lemma HighLeavesTheRest(w: Want, state: Bits, mask: Bits, a: Bits, s: Bits)
    requires AlsoLow(w, state, mask, a) && !Has(mask, a) && HasAll(s, a)
    ensures Found(w, s) == MatchingBits(state, mask, s)
  {}

  lemma OutsidePort(layout: Layout, mask: Bits)
    requires !NamesPort(layout, mask)
    ensures !Has(mask, layout.active)
  {}

  lemma WantsAlsoLow(layout: Layout, state: Bits, mask: Bits)
    requires !NamesPort(layout, mask)
    ensures AlsoLow(Wanted(layout, state, mask), state, mask, layout.active)
  {}

  lemma AutomaticMeans(layout: Layout, state: Bits, mask: Bits, s: Bits)
    requires !NamesPort(layout, mask) && IsBit(layout.active)
    ensures FoundAny(Wanted(layout, state, mask), s, layout.active) <==> !Has(s, layout.active)
    ensures Has(s, layout.active) ==> (Satisfied(Wanted(layout, state, mask), s) <==> Matches(state, mask, s))
  {
    WholeBit(layout.active, s);
    WantsAlsoLow(layout, state, mask);
    LowIsFound(Wanted(layout, state, mask), state, mask, layout.active, s);
    if Has(s, layout.active) {
      OutsidePort(layout, mask);
      HighLeavesTheRest(Wanted(layout, state, mask), state, mask, layout.active, s);
    }
  }

  lemma FoundIsSatisfied(w: Want, s: Bits, bits: Bits)
    requires FoundAny(w, s, bits)
    ensures Satisfied(w, s)
  {}

  /** The reply, in the caller's terms. A caller that names the acquired or the active bit is
      answered when one of its bits matches. Any other caller is told of an error exactly when the
      port is inactive, and otherwise answered when one of its bits matches. */
  lemma ReplyMeans(layout: Layout, now: Bits, state: Bits, mask: Bits)
    requires IsBit(layout.active)
    ensures TurnOutcome(layout, now, Wanted(layout, state, mask)) ==
        if !NamesPort(layout, mask) && !Has(now, layout.active) then Returned(IOError, now)
        else if Matches(state, mask, now) then Returned(Success, now)
        else Blocked
  {
    var w := Wanted(layout, state, mask);
    WholeBit(layout.active, now);
    if !NamesPort(layout, mask) {
      AutomaticMeans(layout, state, mask, now);
      if FoundAny(w, now, layout.active) {
        FoundIsSatisfied(w, now, layout.active);
      }
    } else {
      PlainMeans(w, now);
    }
  }

  lemma PlainMeans(w: Want, s: Bits)
    ensures Satisfied(w, s) <==> Matches(w.state, w.mask, s)
  {}

  // ---------- the FTDI instance ----------

  const FTDI := Layout(0x80000000, 0x40000000, 0)

  /** watchStateGated prepares its request with fixed constants. */
  function FtdiWanted(state: Bits, mask: Bits): Want {
    var m := mask & 0xffffefff;
    if mask > 0x3fffffff then Want(state, m, false) else Want(state & 0xbfffffff, m | 0x40000000, true)
  }

  /** It is the general request, made after dropping bit 0x1000 from the mask. */
  lemma FtdiWantedIsWanted(state: Bits, mask: Bits)
    ensures FtdiWanted(state, mask) == Wanted(FTDI, state, mask & 0xffffefff)
  {
    FtdiMask(mask);
  }

  lemma FtdiMask(mask: Bits)
    ensures mask > 0x3fffffff <==> NamesPort(FTDI, mask & 0xffffefff)
  {}

  /** setStateGated: only the holder of the port, or someone acquiring it, may change the state. */
  function FtdiSetState(p: Port, state: Bits, mask: Bits): (Port, bool) {
    if state & FTDI.acquired == 0 && p.state & FTDI.acquired == 0 then (p, false)
    else (AfterChange(p, state, mask), true)
  }

  lemma FtdiSetStateKeepsSound(p: Port, state: Bits, mask: Bits)
    requires Sound(FTDI, p)
    ensures Sound(FTDI, FtdiSetState(p, state, mask).0)
    ensures !FtdiSetState(p, state, mask).1 ==> FtdiSetState(p, state, mask).0 == p
  {
    ChangeKeepsSound(FTDI, p, state, mask);
  }

  // ---------- the port object ----------

  class WatchedPort {
    const layout: Layout
    var state: Bits
    var watchStateMask: Bits
    // The wait queue: every thread inside privateWatchState between two lock holds.
    var sleepers: map<ThreadId, Sleeper>

    ghost function Abs(): Port
      reads this
    {
      Port(state, watchStateMask, sleepers)
    }

    constructor (layout: Layout, state: Bits)
      ensures this.layout == layout && Abs() == Port(state, 0, map[]) && Sound(layout, Abs())
    {
      this.layout, this.state, this.watchStateMask, this.sleepers := layout, state, 0, map[];
    }

    method WakeUp()
      modifies this`sleepers
      ensures sleepers == WakeAll(old(sleepers))
    {
      sleepers := map t | t in sleepers :: sleepers[t].(woken := true);
    }

    method ChangeState(state: Bits, mask: Bits)
      requires Sound(layout, Abs())
      modifies this
      ensures Abs() == AfterChange(old(Abs()), state, mask) && Sound(layout, Abs())
    {
      ChangeKeepsSound(layout, Abs(), state, mask);
      var next := ChangedState(this.state, state, mask);
      var wake := Touches(next, this.state, watchStateMask);
      this.state := next;
      if wake {
        WakeUp();
      }
    }

    method LeaveWatch(t: ThreadId)
      modifies this
      ensures Abs() == Leave(old(Abs()), t) && Gone(t, old(sleepers.Keys))
    {
      sleepers := sleepers - {t};
      watchStateMask := 0;
      WakeUp();
    }

    // Thread t sleeps with this request, or is out of the loop and told of the present state.
    ghost predicate Left(t: ThreadId, w: Want, outcome: Outcome)
      reads this
    {
      match outcome
      case Blocked => t in sleepers && sleepers[t] == Sleeper(w, false)
      case Returned(_, told) => t !in sleepers && told == state
      case GivesUp(_) => t !in sleepers
    }

    // Thread t is out of the loop, the mask is empty, and everyone else is to register again.
    ghost predicate Gone(t: ThreadId, before: set<ThreadId>)
      reads this
    {
      watchStateMask == 0 && sleepers.Keys == before - {t} && forall u :: u in sleepers ==> sleepers[u].woken
    }

    // From the top of the loop to thread_block or to the way out.
    method WatchTurn(t: ThreadId, w: Want) returns (outcome: Outcome)
      modifies this
      ensures Abs() == Turn(old(Abs()), t, w) && outcome == TurnOutcome(layout, old(state), w)
      ensures state == old(state) && Left(t, w, outcome)
      ensures if outcome.Blocked? then watchStateMask == old(watchStateMask) | w.mask && sleepers.Keys == old(sleepers.Keys) + {t}
        else Gone(t, old(sleepers.Keys))
    {
      if Satisfied(w, state) {
        outcome := Returned(if w.automatic && FoundAny(w, state, layout.active) then IOError else Success, state);
        LeaveWatch(t);
      } else {
        watchStateMask := Join(watchStateMask, w.mask);
        sleepers := sleepers[t := Sleeper(w, false)];
        outcome := Blocked;
      }
    }

    method PrivateWatchState(t: ThreadId, wanted: Bits, mask: Bits) returns (outcome: Outcome)
      requires Sound(layout, Abs()) && t !in sleepers
      modifies this
      ensures Abs() == Begin(layout, old(Abs()), t, Wanted(layout, wanted, mask)) && Sound(layout, Abs())
      ensures outcome == TurnOutcome(layout, Join(old(state), layout.silent), Wanted(layout, wanted, mask))
      ensures state == Join(old(state), layout.silent) && Left(t, Wanted(layout, wanted, mask), outcome)
      ensures if outcome.Blocked? then watchStateMask == old(watchStateMask) | sleepers[t].want.mask
        else Gone(t, old(sleepers.Keys))
    {
      ApplyKeepsSound(layout, Abs(), Enter(t, Wanted(layout, wanted, mask)));
      state := Join(state, layout.silent);
      outcome := WatchTurn(t, Wanted(layout, wanted, mask));
    }

    // thread_block has returned THREAD_RESTART and the lock is held again.
    method Resume(t: ThreadId) returns (outcome: Outcome)
      requires Sound(layout, Abs()) && t in sleepers && sleepers[t].woken
      modifies this
      ensures Abs() == Turn(old(Abs()), t, old(sleepers)[t].want) && Sound(layout, Abs())
      ensures outcome == TurnOutcome(layout, old(state), old(sleepers)[t].want)
      ensures state == old(state) && Left(t, old(sleepers)[t].want, outcome)
      ensures if outcome.Blocked? then watchStateMask == old(watchStateMask) | sleepers[t].want.mask
        else Gone(t, old(sleepers.Keys))
    {
      ApplyKeepsSound(layout, Abs(), Restart(t));
      outcome := WatchTurn(t, sleepers[t].want);
    }

    // thread_block has returned anything else, whether or not a wakeup came as well.
    method ResumeInterrupted(t: ThreadId) returns (outcome: Outcome)
      requires Sound(layout, Abs()) && t in sleepers
      modifies this
      ensures Abs() == Leave(old(Abs()), t) && Sound(layout, Abs())
      ensures outcome == GivesUp(Interrupted) && state == old(state) && Gone(t, old(sleepers.Keys))
    {
      ApplyKeepsSound(layout, Abs(), Interrupt(t));
      LeaveWatch(t);
      outcome := GivesUp(Interrupted);
    }

    // The way out of watchStateGated for a woken thread that finds the driver gone.
    method ResumeGone(t: ThreadId) returns (outcome: Outcome)
      requires Sound(layout, Abs()) && t in sleepers && sleepers[t].woken
      modifies this
      ensures Abs() == Leave(old(Abs()), t) && Sound(layout, Abs())
      ensures outcome == GivesUp(DriverGone) && state == old(state) && Gone(t, old(sleepers.Keys))
    {
      ApplyKeepsSound(layout, Abs(), Abandon(t));
      LeaveWatch(t);
      outcome := GivesUp(DriverGone);
    }

    method ClearSleepingThreads()
      requires Sound(layout, Abs())
      modifies this
      ensures Abs() == ClearAll(old(Abs())) && Sound(layout, Abs()) && state == old(state)
      ensures sleepers.Keys == old(sleepers.Keys) && forall u :: u in sleepers ==> sleepers[u].woken
      ensures old(sleepers) != map[] ==> watchStateMask == 0
    {
      ApplyKeepsSound(layout, Abs(), ClearSleepers);
      if |sleepers| > 0 {
        watchStateMask := 0;
        WakeUp();
      }
    }
  }
}
