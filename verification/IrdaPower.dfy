/** Turning IrDA on and off in AppleSCCIrDA.cpp: who may want it, what is allocated for it, and how
    it is undone, with every allocation and every request to the hardware free to fail. */
module IrdaPower {

  datatype Place = In | Out | InUse | Tx | Rx | PortRecord

  // A block of kernel memory, and what it was asked for.
  class Block {
    const size: nat
    ghost const place: Place
    ghost var live: bool

    constructor (size: nat, ghost place: Place)
      ensures this.size == size && this.place == place && live
    {
      this.size, this.place, live := size, place, true;
    }
  }

  // A circular queue: where its memory starts, the size of that, and how many bytes are queued.
  // Without memory the read pointer and the write pointer are both null.
  datatype Ring = Ring(start: Block?, size: nat, inQueue: nat)

  const NO_RING := Ring(null, 0, 0)

  // A byte was moved, could not be, or would have gone through a null pointer.
  datatype Access = Moved | Refused | ThroughNull

  datatype Status = Success | IOError | ExclusiveAccess | Interrupted | NotOpen | Offline | AckImplied | NoSuchState

  // What others are asked for: the provider for its port and its line settings, the system for the
  // clocks, the IrDA object, the serial stream and a place in the power tree.
  datatype Request = HoldPort | Clocks | LineSettings | IrdaObject | SerialStream | PowerTree

  const LAP_PAYLOAD := 4136

  const POWER_OFF := 0
  const POWER_ON := 1

  function One(b: Block?): nat {
    if b == null then 0 else 1
  }

  // ---------- queue calls, with memory or without ----------

  predicate PointersMeet(ring: Ring) {
    ring.start == null || ring.inQueue == 0 || ring.inQueue == ring.size
  }

  method GetByte(ring: Ring) returns (access: Access, rest: Ring)
    ensures access == if ring.inQueue == 0 then Refused else if ring.start == null then ThroughNull else Moved
    ensures rest == if access == Moved then ring.(inQueue := ring.inQueue - 1) else ring
  {
    rest := ring;
    if PointersMeet(ring) && ring.inQueue == 0 {
      return Refused, rest;
    }
    if ring.start == null {
      return ThroughNull, rest;
    }
    access, rest := Moved, ring.(inQueue := ring.inQueue - 1);
  }

  method AddByte(ring: Ring) returns (access: Access, filled: Ring)
    requires ring.start != null ==> ring.inQueue <= ring.size && ring.size > 0
    ensures ring.start == null ==> access == if ring.inQueue == 0 then ThroughNull else Refused
    ensures ring.start != null ==> access == if ring.inQueue == ring.size then Refused else Moved
    ensures filled == if access == Moved then ring.(inQueue := ring.inQueue + 1) else ring
  {
    filled := ring;
    if PointersMeet(ring) && ring.inQueue != 0 {
      return Refused, filled;
    }
    if ring.start == null {
      return ThroughNull, filled;
    }
    access, filled := Moved, ring.(inQueue := ring.inQueue + 1);
  }

  /** RemovefromQueue: it is safe exactly when there is memory, or nothing is queued, or nothing is
      asked for. */
  method RemoveFromRing(ring: Ring, maxSize: nat) returns (safe: bool, received: nat, rest: Ring)
    ensures safe <==> ring.start != null || ring.inQueue == 0 || maxSize == 0
    ensures safe ==> received == (if maxSize < ring.inQueue then maxSize else ring.inQueue)
    ensures safe ==> rest == ring.(inQueue := ring.inQueue - received)
  {
    received, rest := 0, ring;
    while maxSize > received
      invariant received <= maxSize && received <= ring.inQueue && rest == ring.(inQueue := ring.inQueue - received)
      invariant received > 0 ==> ring.start != null
    {
      var access;
      access, rest := GetByte(rest);
      if access == ThroughNull {
        return false, received, rest;
      }
      if access == Refused {
        break;
      }
      received := received + 1;
    }
    safe := true;
  }

  /** AddtoQueue: without memory it is safe unless the queue is empty but of some size. What it counts
      as written need not be: a full queue without memory takes nothing, and all is counted. */
  method AddToRing(ring: Ring, n: nat) returns (safe: bool, written: nat, filled: Ring)
    requires ring.start != null ==> ring.inQueue <= ring.size && ring.size > 0
    ensures safe <==> ring.start != null || n == 0 || ring.inQueue != 0 || ring.size == 0
    ensures safe && ring.start == null ==> filled == ring && written == if ring.inQueue == ring.size then 0 else n
    ensures ring.start != null ==> filled == ring.(inQueue := ring.inQueue + written)
    ensures ring.start != null ==> written == if n < ring.size - ring.inQueue then n else ring.size - ring.inQueue
  {
    written, filled := 0, ring;
    while filled.size != filled.inQueue && n > written
      invariant written <= n
      invariant ring.start != null ==> written <= ring.size - ring.inQueue
      invariant ring.start != null ==> filled == ring.(inQueue := ring.inQueue + written)
      invariant ring.start == null ==> filled == ring && (written > 0 ==> ring.inQueue != 0 && ring.size != ring.inQueue)
      decreases n - written
    {
      var access;
      access, filled := AddByte(filled);
      if access == ThroughNull {
        return false, written, filled;
      }
      written := written + 1;
    }
    safe := true;
  }

  class IrdaDriver {
    // The sizes of a queue and of the port record.
    const ringSize: nat
    const portSize: nat

    var fSCCStarted: bool
    var fPowerState: nat
    var fUserClientStarted: bool
    // An 8-bit counter.
    var fSessions: nat
    var acquired: bool
    var active: bool

    var fIrDAOn: bool
    var fTerminate: bool
    var fIrDA: bool
    var fInBuffer: Block?
    var fOutBuffer: Block?
    var fInUseBuffer: Block?
    var fPort: Block?
    var tx: Ring
    var rx: Ring
    // The state of the provider: whether it holds its port for IrDA, and whether its clocks run.
    var providerAcquired: bool
    var sccEnabled: bool

    // How many blocks were ever allocated, and how many freed.
    ghost var allocations: nat
    ghost var frees: nat
    // How many requests, for memory or to the provider, were ever refused, and what was asked of the
    // provider and the system.
    ghost var refusals: nat
    ghost var asked: seq<Request>

    /** IrDA should be on: the driver is started, the power is on, and someone uses it. */
    predicate Wanted()
      reads this
    {
      fSCCStarted && fPowerState == POWER_ON && (fUserClientStarted || fSessions > 0)
    }

    // The pointer is null, or to a live block allocated for this place and of the size it will be
    // freed with.
    ghost predicate Holds(b: Block?, place: Place, size: nat)
      reads b
    {
      b != null ==> b.live && b.place == place && b.size == size
    }

    // As many blocks are live as there are pointers to them: none is lost.
    ghost predicate Accounted()
      reads this, fInBuffer, fOutBuffer, fInUseBuffer, tx.start, rx.start, fPort
    {
      && Holds(fInBuffer, In, LAP_PAYLOAD) && Holds(fOutBuffer, Out, LAP_PAYLOAD) && Holds(fInUseBuffer, InUse, LAP_PAYLOAD)
      && Holds(tx.start, Tx, tx.size) && Holds(rx.start, Rx, rx.size) && Holds(fPort, PortRecord, portSize)
      && (tx.start != null ==> 0 < tx.size && tx.inQueue <= tx.size)
      && (rx.start != null ==> 0 < rx.size && rx.inQueue <= rx.size) && 0 < ringSize
      && allocations == frees + One(fInBuffer) + One(fOutBuffer) + One(fInUseBuffer) + One(tx.start) + One(rx.start) + One(fPort)
      && fSessions < 256
    }

    ghost predicate AllThere()
      reads this
    {
      && fInBuffer != null && fOutBuffer != null && fInUseBuffer != null
      && tx.start != null && rx.start != null && fIrDA && providerAcquired && sccEnabled
    }

    ghost predicate NothingThere()
      reads this
    {
      && fInBuffer == null && fOutBuffer == null && fInUseBuffer == null
      && tx.start == null && rx.start == null && !fIrDA && !providerAcquired && !sccEnabled
    }

    // As Valid, but the driver may have changed its mind about wanting IrDA.
    ghost predicate Settled()
      reads this, fInBuffer, fOutBuffer, fInUseBuffer, tx.start, rx.start, fPort
    {
      && Accounted() && (fSCCStarted ==> fPort != null) && (fIrDAOn ==> fPort != null)
      && (if fIrDAOn then AllThere() else NothingThere())
      && (fIrDAOn ==> !fTerminate) && (!fIrDAOn && !fTerminate ==> tx == NO_RING)
    }

    /** IrDA is on only while it is wanted. While it is on, everything it needs is there, and while
        it is off, nothing of it is. */
    ghost predicate Valid()
      reads this, fInBuffer, fOutBuffer, fInUseBuffer, tx.start, rx.start, fPort
    {
      Settled() && (fIrDAOn ==> Wanted())
    }

    // IrDA is what the fields ask for, exactly when nothing was refused since.
    ghost predicate AsWanted(refused: nat)
      reads this
    {
      refusals >= refused &&
      (refusals == refused <==>
        (fIrDAOn <==> fSCCStarted && fPowerState == POWER_ON && (fUserClientStarted || fSessions > 0)))
    }

    // ---------- memory ----------

    method Malloc(size: nat, ghost place: Place) returns (b: Block?)
      modifies `allocations, `refusals
      ensures b != null ==> fresh(b) && b.live && b.size == size && b.place == place
      ensures allocations == old(allocations) + One(b) && refusals == old(refusals) + 1 - One(b)
    {
      var noMemory: bool := *;
      if noMemory {
        refusals := refusals + 1;
        return null;
      }
      b := new Block(size, place);
      allocations := allocations + 1;
    }

    // The provider, or anyone else asked for something, may refuse.
    method Ask(ghost request: Request) returns (ok: bool)
      modifies `refusals, `asked
      ensures refusals == old(refusals) + (if ok then 0 else 1) && asked == old(asked) + [request]
    {
      ok := *;
      asked := asked + [request];
      if !ok {
        refusals := refusals + 1;
      }
    }

    // Only a live block may be freed, and with the size it was allocated with.
    method Free(b: Block, size: nat)
      requires b.live && b.size == size
      modifies `frees, b
      ensures !b.live && frees == old(frees) + 1
    {
      b.live := false;
      frees := frees + 1;
    }

    method FreeRingBuffer(ring: Ring) returns (closed: Ring)
      requires ring.start != null ==> ring.start.live && ring.start.size == ring.size
      modifies `frees, ring.start
      ensures closed.start == null && frees == old(frees) + One(ring.start)
      ensures closed == if ring.start == null then ring else Ring(null, 0, ring.inQueue)
    {
      closed := ring;
      if ring.start != null {
        Free(ring.start, ring.size);
        closed := Ring(null, 0, ring.inQueue);
      }
    }

    method AllocateRingBuffer(ring: Ring, size: nat, ghost place: Place) returns (ok: bool, filled: Ring)
      modifies `allocations, `refusals
      ensures ok <==> filled.start != null
      ensures ring.start != null ==> filled == ring && allocations == old(allocations) && refusals == old(refusals)
      ensures ring.start == null ==> filled.size == size && filled.inQueue == 0
      ensures ring.start == null && ok ==> fresh(filled.start) && Holds(filled.start, place, filled.size)
      ensures ring.start == null ==> allocations == old(allocations) + One(filled.start)
      ensures refusals >= old(refusals) && (ok <==> refusals == old(refusals))
    {
      filled := ring;
      if ring.start == null {
        var buffer := Malloc(size, place);
        filled := Ring(buffer, size, 0);
      }
      ok := filled.start != null;
    }

    // ---------- switching on ----------

    // The three payload buffers; if one cannot be had, the others are given back.
    method AllocateBuffers() returns (ok: bool)
      requires Accounted() && fInBuffer == null && fOutBuffer == null && fInUseBuffer == null
      modifies `fInBuffer, `fOutBuffer, `fInUseBuffer, `allocations, `refusals, `frees
      ensures Accounted()
      ensures ok ==> fInBuffer != null && fOutBuffer != null && fInUseBuffer != null
      ensures ok ==> fresh(fInBuffer) && fresh(fOutBuffer) && fresh(fInUseBuffer)
      ensures !ok ==> fInBuffer == null && fOutBuffer == null && fInUseBuffer == null
      ensures refusals >= old(refusals) && (ok <==> refusals == old(refusals))
    {
      fInBuffer := Malloc(LAP_PAYLOAD, In);
      if fInBuffer == null {
        return false;
      }
      fOutBuffer := Malloc(LAP_PAYLOAD, Out);
      if fOutBuffer == null {
        Free(fInBuffer, LAP_PAYLOAD);
        fInBuffer := null;
        return false;
      }
      fInUseBuffer := Malloc(LAP_PAYLOAD, InUse);
      if fInUseBuffer == null {
        Free(fInBuffer, LAP_PAYLOAD);
        Free(fOutBuffer, LAP_PAYLOAD);
        fInBuffer, fOutBuffer := null, null;
        return false;
      }
      ok := true;
    }

    method FreeBuffers()
      requires Accounted()
      modifies `fInBuffer, `fOutBuffer, `fInUseBuffer, `frees, fInBuffer, fOutBuffer, fInUseBuffer
      ensures Accounted() && fInBuffer == null && fOutBuffer == null && fInUseBuffer == null
    {
      if fInBuffer != null {
        Free(fInBuffer, LAP_PAYLOAD);
        fInBuffer := null;
      }
      if fOutBuffer != null {
        Free(fOutBuffer, LAP_PAYLOAD);
        fOutBuffer := null;
      }
      if fInUseBuffer != null {
        Free(fInUseBuffer, LAP_PAYLOAD);
        fInUseBuffer := null;
      }
    }

    twostate predicate NewRings()
      reads this
    {
      (tx.start != null ==> fresh(tx.start)) && (rx.start != null ==> fresh(rx.start))
    }

    // What is queued stays queued, memory or not.
    twostate predicate SameCounts()
      reads this
    {
      tx.inQueue == old(tx.inQueue) && rx.inQueue == old(rx.inQueue)
    }

    method AllocateRings() returns (ok: bool)
      requires Accounted() && tx.start == null && rx.start == null
      modifies `tx, `rx, `allocations, `refusals
      ensures Accounted() && (ok ==> tx.start != null && rx.start != null)
      ensures NewRings() && refusals >= old(refusals) && (ok <==> refusals == old(refusals))
    {
      ok, tx := AllocateRingBuffer(tx, ringSize, Tx);
      if ok {
        ok, rx := AllocateRingBuffer(rx, ringSize, Rx);
      }
    }

    method FreeRings()
      requires Accounted()
      modifies `tx, `rx, `frees, tx.start, rx.start
      ensures Accounted() && tx.start == null && rx.start == null && SameCounts()
    {
      tx := FreeRingBuffer(tx);
      rx := FreeRingBuffer(rx);
    }

    // Any request to the provider may fail; the clocks may already have been switched on by then.
    method SetupDevice() returns (ok: bool)
      modifies `providerAcquired, `sccEnabled, `refusals, `asked
      ensures ok == providerAcquired && (ok ==> sccEnabled)
      ensures refusals >= old(refusals) && (ok <==> refusals == old(refusals))
      ensures old(asked) + [HoldPort] <= asked && (ok ==> asked == old(asked) + [HoldPort, Clocks, LineSettings])
    {
      ok := Ask(HoldPort);
      providerAcquired := ok;
      if ok {
        ok := Ask(Clocks);
        sccEnabled := ok;
        if ok {
          ok := Ask(LineSettings);
        }
      }
      if !ok {
        providerAcquired := false;
      }
    }

    // The device, and then the IrDA object for it.
    method BringUp() returns (ok: bool)
      requires !fIrDA
      modifies `fIrDA, `providerAcquired, `sccEnabled, `refusals, `asked
      ensures old(asked) + [HoldPort] <= asked
      ensures ok ==> asked == old(asked) + [HoldPort, Clocks, LineSettings, IrdaObject]
      ensures if ok then fIrDA && providerAcquired && sccEnabled else !fIrDA && !providerAcquired
      ensures refusals >= old(refusals) && (ok <==> refusals == old(refusals))
    {
      ok := SetupDevice();
      if ok {
        fIrDA := Ask(IrdaObject);
        ok := fIrDA;
        if !ok {
          providerAcquired := false;
        }
      }
    }

    /** configureDevice: it either ends with everything there, or leaves at most the rings behind; and it
        fails exactly when something is refused. */
    method ConfigureDevice() returns (ok: bool)
      requires Accounted() && fPort != null && NothingThere()
      modifies `fInBuffer, `fOutBuffer, `fInUseBuffer, `tx, `rx, `fIrDA, `providerAcquired, `sccEnabled,
        `allocations, `refusals, `asked, `frees
      ensures Accounted() && (ok ==> AllThere()) && NewRings()
      ensures !ok ==> fInBuffer == null && fOutBuffer == null && fInUseBuffer == null && !fIrDA && !providerAcquired
      ensures !ok && asked != old(asked) ==> tx.start == null && rx.start == null
      ensures ok ==> asked == old(asked) + [HoldPort, Clocks, LineSettings, IrdaObject]
      ensures refusals >= old(refusals) && (ok <==> refusals == old(refusals))
    {
      ok := AllocateBuffers();
      if !ok {
        return;
      }
      ok := AllocateRings();
      if !ok {
        FreeBuffers();
        return;
      }
      ok := BringUp();
      if !ok {
        FreeBuffers();
        FreeRings();
      }
    }

    method StopIrda()
      requires Accounted()
      modifies `fIrDA
      ensures Accounted() && !fIrDA
    {
      if fIrDA {
        fIrDA := false;
      }
    }

    method FreeAll()
      requires Accounted()
      modifies `fIrDA, `fInBuffer, `fOutBuffer, `fInUseBuffer, `tx, `rx, `frees, `providerAcquired,
        fInBuffer, fOutBuffer, fInUseBuffer, tx.start, rx.start
      ensures Accounted() && fInBuffer == null && fOutBuffer == null && fInUseBuffer == null
      ensures tx.start == null && rx.start == null && !providerAcquired && !fIrDA && SameCounts()
    {
      StopIrda();
      FreeBuffers();
      providerAcquired := false;
      FreeRings();
    }

    // The half of SetIrDAState that turns IrDA off, from however far turning it on has got.
    method TurnOff()
      requires Accounted() && fPort != null
      modifies `fIrDAOn, `fTerminate, `fInBuffer, `fOutBuffer, `fInUseBuffer, `tx, `rx, `fIrDA,
        `providerAcquired, `sccEnabled, `frees, fInBuffer, fOutBuffer, fInUseBuffer, tx.start, rx.start
      ensures Accounted() && NothingThere() && !fIrDAOn && fTerminate && SameCounts()
    {
      FreeAll();
      fIrDAOn, fTerminate, sccEnabled := false, true, false;
    }

    method SetIrDAState(on: bool) returns (status: Status)
      requires Settled() && (on && !fIrDAOn ==> fPort != null)
      modifies `fIrDAOn, `fTerminate, `fInBuffer, `fOutBuffer, `fInUseBuffer, `tx, `rx, `fIrDA,
        `providerAcquired, `sccEnabled, `allocations, `refusals, `asked, `frees,
        fInBuffer, fOutBuffer, fInUseBuffer, tx.start, rx.start
      ensures Settled() && status in {Success, IOError}
      ensures if status == Success then fIrDAOn == on else on && !old(fIrDAOn) && !fIrDAOn
      ensures fIrDAOn != old(fIrDAOn) || status == IOError ==> fTerminate == !fIrDAOn
      ensures !on ==> SameCounts()
      ensures refusals >= old(refusals) && (status == Success <==> refusals == old(refusals))
    {
      status := Success;
      if on && !fIrDAOn {
        fIrDAOn := true;
        fTerminate := false;
        var ok := ConfigureDevice();
        if !ok {
          TurnOff();
          status := IOError;
        }
      } else if !on && fIrDAOn {
        TurnOff();
      }
    }

    /** CheckIrDAState makes the driver be what it wants to be, unless the device cannot be set up;
        then it says so, and IrDA is off. It is on exactly when the driver is started, the power is on
        and a user client or a session is there, unless something is refused. */
    method CheckIrDAState() returns (status: Status)
      requires Settled()
      modifies `fIrDAOn, `fTerminate, `fInBuffer, `fOutBuffer, `fInUseBuffer, `tx, `rx, `fIrDA,
        `providerAcquired, `sccEnabled, `allocations, `refusals, `asked, `frees,
        fInBuffer, fOutBuffer, fInUseBuffer, tx.start, rx.start
      ensures Valid() && status in {Success, IOError}
      ensures status == Success <==> fIrDAOn == Wanted()
      ensures AsWanted(old(refusals)) && (status == Success <==> refusals == old(refusals))
      ensures !Wanted() ==> SameCounts()
    {
      status := Success;
      var newState := Wanted();
      if newState != fIrDAOn {
        status := SetIrDAState(newState);
      }
    }

    // ---------- the events ----------

    constructor (ringSize: nat, portSize: nat)
      requires ringSize > 0
      ensures Valid() && !fSCCStarted && !fIrDAOn && allocations == 0
      ensures this.ringSize == ringSize && this.portSize == portSize && fSessions == 0 && !acquired
    {
      this.ringSize, this.portSize := ringSize, portSize;
      fSCCStarted, fPowerState, fUserClientStarted, fSessions := false, POWER_OFF, false, 0;
      acquired, active := false, false;
      fIrDAOn, fTerminate, fIrDA := false, false, false;
      fInBuffer, fOutBuffer, fInUseBuffer, fPort := null, null, null, null;
      tx, rx := NO_RING, NO_RING;
      providerAcquired, sccEnabled := false, false;
      allocations, frees, refusals, asked := 0, 0, 0, [];
    }

    // The port record is allocated.
    method AllocatePort()
      requires Valid() && !fSCCStarted && fPort == null
      modifies `fPort, `allocations, `refusals
      ensures Valid() && allocations == old(allocations) + One(fPort) && refusals == old(refusals) + 1 - One(fPort)
      ensures fPort != null ==> fresh(fPort)
    {
      fPort := Malloc(portSize, PortRecord);
    }

    // What start begins with; the queues of an earlier start are gone with its port record.
    method Reset()
      requires Valid() && !fSCCStarted && fPort == null
      modifies `fTerminate, `fUserClientStarted, `fSessions, `fPowerState, `tx, `rx
      ensures Valid() && fPowerState == POWER_OFF && tx == rx == NO_RING
    {
      fTerminate, fUserClientStarted, fSessions, fPowerState := false, false, 0, POWER_OFF;
      tx, rx := NO_RING, NO_RING;
    }

    /** start: the power state is on from the moment the driver joins the power tree, whether or not
        that succeeds. */
    method Start() returns (ok: bool)
      requires Valid() && !fSCCStarted && fPort == null
      modifies `fTerminate, `fUserClientStarted, `fSessions, `fPowerState, `tx, `rx, `fPort, `acquired, `active,
        `allocations, `refusals, `asked, `fSCCStarted
      ensures Valid() && !fIrDAOn && ok == fSCCStarted && (ok ==> fPowerState == POWER_ON)
      ensures frees == old(frees) && allocations == old(allocations) + One(fPort)
      ensures fPort != null ==> !acquired && !active && tx == rx == NO_RING
      ensures fPort == null ==> !ok && fPowerState == POWER_OFF
      ensures ok <==> refusals == old(refusals)
    {
      Reset();
      AllocatePort();
      if fPort == null {
        return false;
      }
      acquired, active := false, false;
      ok := Publish();
    }

    // The rest of start: the lock and the serial stream, and then the power tree.
    method Publish() returns (ok: bool)
      requires Valid() && !fSCCStarted && fPort != null
      modifies `fPowerState, `fSCCStarted, `refusals, `asked
      ensures ok ==> asked == old(asked) + [SerialStream, PowerTree]
      ensures Valid() && ok == fSCCStarted && (ok ==> fPowerState == POWER_ON)
      ensures refusals >= old(refusals) && (ok <==> refusals == old(refusals))
    {
      ok := Ask(SerialStream);
      if ok {
        fPowerState := POWER_ON;
        ok := Ask(PowerTree);
        fSCCStarted := ok;
      }
    }

    method SetIrDAUserClientState(on: bool) returns (status: Status)
      requires Valid()
      modifies this, fInBuffer, fOutBuffer, fInUseBuffer, tx.start, rx.start, fPort
      ensures Valid() && fUserClientStarted == on && fSessions == old(fSessions)
      ensures status in {Success, IOError} && (status == Success <==> fIrDAOn == Wanted())
      ensures AsWanted(old(refusals))
      ensures fSCCStarted && fPowerState == POWER_ON && on ==> (status == Success <==> fIrDAOn)
    {
      fUserClientStarted := on;
      status := CheckIrDAState();
    }

    // One attempt; a caller that may sleep and is woken tries again.
    method AcquirePort(sleep: bool) returns (status: Status)
      requires Valid() && fPort != null
      modifies this, fInBuffer, fOutBuffer, fInUseBuffer, tx.start, rx.start, fPort
      ensures Valid() && acquired
      ensures status == Success <==> !old(acquired)
      ensures fSessions == if status == Success then (old(fSessions) + 1) % 256 else old(fSessions)
      ensures status != Success ==> fIrDAOn == old(fIrDAOn)
      ensures status == Success ==> AsWanted(old(refusals))
    {
      if acquired {
        return if sleep then Interrupted else ExclusiveAccess;
      }
      acquired, active := true, false;
      fSessions := (fSessions + 1) % 256;
      var _ := CheckIrDAState();
      status := Success;
    }

    method ReleasePort() returns (status: Status)
      requires Valid() && fPort != null
      modifies this, fInBuffer, fOutBuffer, fInUseBuffer, tx.start, rx.start, fPort
      ensures Valid() && !acquired && (old(acquired) ==> !active)
      ensures status == if old(acquired) then Success else NotOpen
      ensures fSessions == if old(acquired) then (old(fSessions) + 255) % 256 else old(fSessions)
      ensures !fUserClientStarted && fSessions == 0 ==> !fIrDAOn
      ensures status == Success ==> AsWanted(old(refusals))
    {
      if !acquired {
        return NotOpen;
      }
      acquired, active := false, false;
      fSessions := (fSessions + 255) % 256;
      var _ := CheckIrDAState();
      status := Success;
    }

    method SetPowerState(ordinal: nat) returns (status: Status)
      requires Valid()
      modifies this, fInBuffer, fOutBuffer, fInUseBuffer, tx.start, rx.start, fPort
      ensures Valid()
      ensures status == if ordinal > POWER_ON then NoSuchState else if ordinal == old(fPowerState) then AckImplied else Success
      ensures fPowerState == if ordinal > POWER_ON then old(fPowerState) else ordinal
      ensures fPowerState == POWER_OFF ==> NothingThere()
      ensures status == Success ==> AsWanted(old(refusals))
      ensures fPowerState == POWER_OFF || ordinal > POWER_ON ==> SameCounts()
      ensures acquired == old(acquired) && active == old(active) && fPort == old(fPort)
    {
      if ordinal != POWER_OFF && ordinal != POWER_ON {
        return NoSuchState;
      }
      if ordinal == fPowerState {
        return AckImplied;
      }
      fPowerState := ordinal;
      var _ := CheckIrDAState();
      status := Success;
    }

    // executeEvent for the active bit.
    method Activate(on: bool) returns (status: Status)
      requires Valid() && fPort != null
      modifies `active
      ensures Valid() && status == if acquired then Success else NotOpen
      ensures active == if acquired then on else old(active)
    {
      if !acquired {
        return NotOpen;
      }
      active := on;
      status := Success;
    }

    // While IrDA is on, bytes come in.
    method Receive(n: nat)
      requires Valid() && fIrDAOn
      modifies `rx
      ensures Valid() && rx.start == old(rx.start) && rx.inQueue >= old(rx.inQueue)
      ensures rx.inQueue == if n < rx.size - old(rx.inQueue) then old(rx.inQueue) + n else rx.size
    {
      var safe, written;
      safe, written, rx := AddToRing(rx, n);
    }

    /** The first removal of dequeueData, which tests the active bit and not whether IrDA is on: it is
        safe exactly when IrDA is on, or no byte was left when it went off, or none is asked for. */
    method DequeueData(maxSize: nat) returns (status: Status, safe: bool, received: nat)
      requires Valid() && fPort != null
      modifies `rx
      ensures status == if active then Success else NotOpen
      ensures safe <==> !active || fIrDAOn || old(rx.inQueue) == 0 || maxSize == 0
      ensures safe ==> Valid() && received + rx.inQueue == old(rx.inQueue)
      ensures !active ==> received == 0
      ensures safe && active ==> received == if maxSize < old(rx.inQueue) then maxSize else old(rx.inQueue)
    {
      if !active {
        return NotOpen, true, 0;
      }
      status := Success;
      safe, received, rx := RemoveFromRing(rx, maxSize);
    }

    /** The first addition of enqueueData, which tests fTerminate: always safe, and what it counts is
        queued. */
    method EnqueueData(n: nat) returns (status: Status, safe: bool, written: nat)
      requires Valid() && fPort != null
      modifies `tx
      ensures Valid() && safe && tx.inQueue == old(tx.inQueue) + written
      ensures status == if fTerminate then Offline else if !active then NotOpen else Success
      ensures !fIrDAOn ==> written == 0
      ensures status == Success && fIrDAOn ==>
        written == if n < tx.size - old(tx.inQueue) then n else tx.size - old(tx.inQueue)
    {
      if fTerminate {
        return Offline, true, 0;
      }
      if !active {
        return NotOpen, true, 0;
      }
      status := Success;
      safe, written, tx := AddToRing(tx, n);
    }

    /** It does go wrong: bytes are received, the power goes off, and the next read of the still active
        port goes through a null pointer. */
    method ReadAfterPowerOff(n: nat, maxSize: nat) returns (safe: bool)
      requires Valid() && fIrDAOn && active && fPort != null && rx.inQueue == 0 && n > 0 && maxSize > 0
      modifies this, fInBuffer, fOutBuffer, fInUseBuffer, tx.start, rx.start, fPort
      ensures !safe && fPowerState == POWER_OFF && !fIrDAOn
    {
      Receive(n);
      var _ := SetPowerState(POWER_OFF);
      var status, received;
      status, safe, received := DequeueData(maxSize);
    }

    /** After stop nothing is left: every block ever allocated has been freed, and IrDA cannot come
        back on. */
    method Stop()
      requires Valid()
      modifies this, fInBuffer, fOutBuffer, fInUseBuffer, tx.start, rx.start, fPort
      ensures Valid() && !fIrDAOn && !fSCCStarted && fPort == null && NothingThere()
      ensures allocations == frees
    {
      fSCCStarted := false;
      var _ := CheckIrDAState();
      if fPort != null {
        Free(fPort, portSize);
        fPort := null;
      }
    }
  }
}
