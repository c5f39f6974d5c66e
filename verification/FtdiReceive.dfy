/** The receive path of AppleUSBFTDI.c: a byte ring that takes a whole packet or nothing, backed by
    a ring of 64 completed buffers that are held until their packet fits. The methods run inside
    the command gate, one at a time, except DeviceWrites, which is the device, and StartReads, which
    acquirePort calls after its gated action has returned. */
module FtdiReceive {
  import opened RingQueue
  import opened Sequences

  // A registry property, as a 16-bit number.
  datatype Property = Absent | Value(n: nat)

  /** How many input buffers the driver uses, from the provider's property and its own. */
  function PoolSize(provider: Property, own: Property): (n: nat)
    ensures n <= 64
    ensures provider.Value? && 0 < provider.n <= 64 ==> n == provider.n
    ensures (provider == Absent || provider == Value(0)) && own == Absent ==> n == 4
    ensures (provider == Absent || provider == Value(0)) && own.Value? && own.n <= 64 ==> n == own.n
    ensures n < 64 ==> !(provider.Value? && provider.n > 64)
    ensures provider.Value? && provider.n > 0 ==> n >= 1 && n <= provider.n
    ensures (provider == Absent || provider == Value(0)) && own.Value? && own.n > 64 ==> n == 64
  {
    if provider.Value? && provider.n >= 65 then 64
    else if provider.Value? && provider.n != 0 then provider.n
    else if own.Absent? then 4
    else if own.n <= 64 then own.n
    else 64
  }

  // ---------- input buffers ----------

  class InBuffer {
    var data: seq<byte>
    var count: nat
    var dead: bool
    var held: bool
    // How many reads of this buffer the USB stack has in hand. The driver does not keep this.
    var reading: nat
    // How often the USB stack was asked to read into it.
    ghost var asked: nat
    // The place of this buffer in the order of holding.
    ghost var order: nat

    /** The device may write into a buffer only while its bytes are not waiting to be read, and a
        buffer marked dead is free to be read again: no two of the three at a time. */
    ghost predicate OnePlace()
      reads this
    {
      reading + (if held then 1 else 0) + (if dead then 1 else 0) <= 1
    }

    ghost predicate Idle()
      reads this
    {
      reading == 0 && !held && !dead
    }

    /** It is in one of the three, so nobody has lost it. */
    ghost predicate InUse()
      reads this
    {
      reading + (if held then 1 else 0) + (if dead then 1 else 0) == 1
    }

    // Requests to read, counting the one that is due when it is let go.
    ghost function Turns(): nat
      reads this
    {
      asked + if held then 1 else 0
    }

    // What becomes of a request to read is up to the USB stack.
    method Ask() returns (refused: bool)
      modifies `reading, `asked
      ensures asked == old(asked) + 1 && reading == old(reading) + if refused then 0 else 1
    {
      refused := *;
      asked := asked + 1;
      if !refused {
        reading := reading + 1;
      }
    }

    // Asks the USB stack to fill the buffer; a refusal marks it dead.
    method Read()
      requires Idle()
      modifies `reading, `dead, `asked
      ensures InUse() && asked == old(asked) + 1
    {
      var refused := Ask();
      if refused {
        dead := true;
      }
    }

    // The same from startReads, whatever the buffer is being used for.
    method ReadAnyway(accepted: bool)
      modifies `reading, `dead
      ensures Asked(old(reading), old(dead), accepted)
    {
      if accepted {
        reading := reading + 1;
      } else {
        dead := true;
      }
    }

    ghost predicate Asked(wasReading: nat, wasDead: bool, accepted: bool)
      reads this
    {
      reading == wasReading + (if accepted then 1 else 0) && dead == (wasDead || !accepted)
    }

    // In one place once a read is asked for and answered like this.
    ghost predicate CleanAfter(accepted: bool)
      reads this
    {
      reading + (if accepted then 1 else 0) + (if held then 1 else 0) + (if dead || !accepted then 1 else 0) <= 1
    }

    // The device fills a buffer that is being read.
    method Fill(packet: seq<byte>)
      requires reading > 0
      modifies `data
      ensures data == packet
    {
      data := packet;
    }

    // The same from resurrectRead, which clears the mark when the read is accepted.
    method Resurrect()
      requires OnePlace()
      modifies `reading, `dead, `asked
      ensures OnePlace() && (old(InUse()) ==> InUse()) && (!old(dead) ==> reading == old(reading) && !dead)
      ensures asked == old(asked) + if old(dead) then 1 else 0
    {
      if dead {
        var refused := Ask();
        if !refused {
          dead := false;
        }
      }
    }

    constructor (max: nat)
      ensures Idle() && |data| == max
    {
      data, count, dead, held, reading, asked, order := seq(max, _ => 0), 0, false, false, 0, 0, 0;
    }
  }

  /** A read of a held buffer puts it into two places, whether the USB stack takes it on or not: the
      device may then write over bytes that wait, or the buffer counts as dead. */
  lemma AskedWhileHeld(b: InBuffer, wasReading: nat, wasDead: bool, accepted: bool)
    requires b.held && b.Asked(wasReading, wasDead, accepted)
    ensures !b.OnePlace()
  {}

  method AllocatePool(size: nat, max: nat) returns (buffers: seq<InBuffer>)
    ensures |buffers| == size && fresh(buffers)
    ensures forall i :: 0 <= i < size ==> |buffers[i].data| == max && buffers[i].Idle()
    ensures forall i, j :: 0 <= i < j < size ==> buffers[i] != buffers[j]
  {
    buffers := [];
    for i := 0 to size
      invariant |buffers| == i && fresh(buffers)
      invariant forall k :: 0 <= k < i ==> |buffers[k].data| == max && buffers[k].Idle()
      invariant forall k, j :: 0 <= k < j < i ==> buffers[k] != buffers[j]
    {
      var b := new InBuffer(max);
      buffers := buffers + [b];
    }
  }

  function Flatten(ss: seq<seq<byte>>): seq<byte> {
    if ss == [] then [] else ss[0] + Flatten(ss[1..])
  }

  lemma {:induction false} FlattenAppend(ss: seq<seq<byte>>, s: seq<byte>)
    ensures Flatten(ss + [s]) == Flatten(ss) + s
  {
    if ss == [] {
      assert [s][1..] == [];
    } else {
      FlattenAppend(ss[1..], s);
      assert (ss + [s])[1..] == ss[1..] + [s];
    }
  }

  lemma OneMoreWaiting(queued: seq<byte>, waiting: seq<seq<byte>>, more: seq<byte>)
    ensures queued + Flatten(waiting + [more]) == (queued + Flatten(waiting)) + more
  {
    FlattenAppend(waiting, more);
    Associates(queued, Flatten(waiting), more);
  }

  /** With one buffer of the pool elsewhere, not all of the pool is in s. */
  lemma {:induction false} OneElsewhere<B>(s: seq<B>, pool: set<B>, b: B)
    requires forall i, j :: 0 <= i < j < |s| ==> s[i] != s[j]
    requires forall i :: 0 <= i < |s| ==> s[i] in pool && s[i] != b
    requires b in pool
    ensures |s| < |pool|
  {
    if s != [] {
      var last := s[|s| - 1];
      OneElsewhere(s[..|s| - 1], pool - {last}, b);
    }
  }

  // A packet starts with two status bytes.
  function Payload(data: seq<byte>, count: nat): seq<byte> {
    if 2 <= count <= |data| then data[2..count] else []
  }

  // ---------- the hold ring ----------

  /** The 64 places for completed buffers, the oldest at head and the next one going to tail. When
      they meet, the ring is empty or full, and the places themselves tell which. */
  class HoldRing {
    const slots: array<InBuffer?>
    var head: nat
    var tail: nat
    // The held buffers, oldest first, and the bytes that wait in them.
    ghost var held: seq<InBuffer>
    ghost var waiting: seq<seq<byte>>

    ghost predicate Valid()
      reads this, slots
    {
      && slots.Length == 64 && head < 64 && tail < 64 && |held| == |waiting| <= 64
      && tail == Slot(head, |held|, 64)
      && (forall k :: 0 <= k < 64 ==> slots[Slot(head, k, 64)] == if k < |held| then held[k] else null)
    }

    constructor ()
      ensures Valid() && held == [] && waiting == [] && fresh(slots)
    {
      slots := new InBuffer?[64](_ => null);
      head, tail, held, waiting := 0, 0, [], [];
    }

    method Oldest() returns (b: InBuffer?)
      requires Valid()
      ensures b == if held == [] then null else held[0]
    {
      b := slots[head];
      assert slots[Slot(head, 0, 64)] == b;
    }

    method Put(b: InBuffer, ghost bytes: seq<byte>)
      requires Valid() && |held| < 64
      modifies this, slots
      ensures Valid() && held == old(held) + [b] && waiting == old(waiting) + [bytes]
    {
      slots[tail] := b;
      tail := tail + 1;
      if tail >= 0x40 {
        tail := 0;
      }
      held, waiting := held + [b], waiting + [bytes];
    }

    method ClearOldest()
      requires Valid() && held != []
      modifies this, slots
      ensures Valid() && held == old(held)[1..] && waiting == old(waiting)[1..]
    {
      ghost var was := head;
      slots[head] := null;
      head := head + 1;
      if head > 0x3f {
        head := 0;
      }
      held, waiting := held[1..], waiting[1..];
      assert Slot(head, 63, 64) == was;
      forall k | 0 <= k < 63
        ensures Slot(head, k, 64) == Slot(was, k + 1, 64)
      {}
    }
  }

  // ---------- the receive path ----------

  // A failure may have aborted the pipe, as the driver finds out when it clears it.
  datatype UsbStatus = Succeeded | Aborted | Failed(pipeAborted: bool)

  datatype DequeueStatus = Done | NotOpen | WatchFailed | StillAsleep

  class RxPath {
    const rx: CirQueue
    const hold: HoldRing
    const buffers: seq<InBuffer>
    ghost const pool: set<InBuffer>
    // The packet size.
    const max: nat
    // The port is being stopped, closed or torn down.
    var gone: bool
    var active: bool
    // Everything packets have brought since the path was created, and everything handed out.
    ghost var arrived: seq<byte>
    ghost var delivered: seq<byte>
    // How far the stream had come into the byte ring when bytes were last taken out of it.
    ghost var reach: nat
    ghost var nextOrder: nat

    ghost predicate Rings()
      reads this, rx, rx.buffer, hold, hold.slots
    {
      && (hold.slots as object) != rx.buffer
      && rx.Valid() && hold.Valid() && rx.Capacity() + 2 >= max && |pool| <= 64
    }

    // Held buffers are numbered in the order in which they were put in.
    ghost predicate Held()
      reads this, hold, pool
    {
      && |hold.held| == |hold.waiting| <= nextOrder
      && (forall k :: 0 <= k < |hold.held| ==>
            && hold.held[k] in pool && hold.held[k].held && 3 <= hold.held[k].count <= max
            && hold.waiting[k] == Payload(hold.held[k].data, hold.held[k].count)
            && hold.held[k].order == nextOrder - |hold.held| + k)
    }

    ghost predicate Buffers()
      reads this, hold, pool
    {
      forall b :: b in pool ==>
        && |b.data| == max && b.OnePlace() && (b.held ==> b in hold.held)
    }

    /** The bytes on their way to the reader, oldest first. */
    ghost function Stream(): seq<byte>
      reads rx, hold
    {
      rx.Contents() + Flatten(hold.waiting)
    }

    ghost predicate Ready()
      reads this, rx, rx.buffer, hold, hold.slots, pool
    {
      Rings() && Held() && Buffers()
    }

    // The pool is the numbered buffers, each once.
    ghost predicate Numbered() {
      && pool == (set b | b in buffers)
      && (forall i, j :: 0 <= i < j < |buffers| ==> buffers[i] != buffers[j])
    }

    /** Besides the two rings being in order: bytes are never held back while the byte ring is
        empty, and what has arrived is what was handed out followed by what is on its way. */
    ghost predicate Valid()
      reads this, rx, rx.buffer, hold, hold.slots, pool
    {
      && Ready()
      && NotStalled()
      && arrived == delivered + Stream()
    }

    constructor (capacity: nat, max: nat, provider: Property, own: Property)
      requires capacity > 0 && capacity + 2 >= max
      ensures Valid() && arrived == [] && delivered == [] && |buffers| == PoolSize(provider, own)
      ensures Numbered() && fresh(pool) && forall b :: b in pool ==> b.Idle()
      ensures rx.Capacity() == capacity && this.max == max && !gone && !active
    {
      rx := new CirQueue(capacity);
      hold := new HoldRing();
      var bs := AllocatePool(PoolSize(provider, own), max);
      PoolIsSmall(bs);
      buffers, pool := bs, set b | b in bs;
      this.max, gone, active := max, false, false;
      arrived, delivered, nextOrder, reach := [], [], 0, 0;
    }

    static lemma {:induction false} PoolIsSmall(bs: seq<InBuffer>)
      ensures |set b | b in bs| <= |bs|
    {
      if bs != [] {
        var init := bs[..|bs| - 1];
        PoolIsSmall(init);
        assert (set b | b in bs) == (set b | b in init) + {bs[|bs| - 1]};
      }
    }

    /** The device writes a packet into a buffer it has in hand: nothing on its way is touched. */
    method DeviceWrites(b: InBuffer, packet: seq<byte>)
      requires Valid() && b in pool && b.reading > 0 && |packet| == max
      modifies b`data
      ensures Valid() && b.data == packet && Stream() == old(Stream())
    {
      b.Fill(packet);
    }

    method AddToRxQueue(b: InBuffer, count: nat) returns (added: nat)
      requires rx.Valid() && count <= |b.data|
      modifies rx, rx.buffer
      ensures rx.Valid() && (added == 0 || added == count - 2)
      ensures rx.Contents() == old(rx.Contents()) + if added == 0 then [] else Payload(b.data, count)
      ensures added == 0 <==> count <= 2 || count - 2 > rx.Capacity() - |old(rx.Contents())|
    {
      ghost var before := rx.Contents();
      added := 0;
      var free := rx.FreeSpaceInQueue();
      if count >= 2 && free >= count - 2 {
        while free != 0 && count - 2 > added
          invariant rx.Valid() && added <= count - 2 && free == rx.Capacity() - |rx.Contents()|
          invariant count - 2 - added <= free
          invariant rx.Contents() == before + b.data[2..added + 2]
          decreases count - 2 - added
        {
          var _ := rx.AddByteToQueue(b.data[added + 2]);
          added := added + 1;
          free := rx.FreeSpaceInQueue();
        }
      }
    }

    // The lines at LABEL_11 of dataReadComplete.
    method Hold(b: InBuffer, count: nat)
      requires Ready() && |hold.held| < 64 && b in pool && b.Idle() && 3 <= count <= max
      modifies `nextOrder, hold, hold.slots, b`held, b`count, b`order
      ensures Ready() && b.held && hold.waiting == old(hold.waiting) + [b.data[2..count]]
    {
      b.held := true;
      b.count := count;
      hold.Put(b, b.data[2..count]);
      b.order, nextOrder := nextOrder, nextOrder + 1;
    }

    // The oldest held buffer goes back to the USB stack.
    method Release(b: InBuffer)
      requires Ready() && hold.held != [] && b == hold.held[0]
      modifies hold, hold.slots, b`held, b`count, b`reading, b`dead, b`asked
      ensures Ready() && b.InUse() && hold.held == old(hold.held)[1..] && hold.waiting == old(hold.waiting)[1..]
      ensures !b.held && b.count == 0 && b.asked == old(b.asked) + 1
    {
      b.count := 0;
      b.held := false;
      hold.ClearOldest();
      b.Read();
    }

    ghost predicate OldestFits()
      reads rx, hold
    {
      hold.waiting != [] && |hold.waiting[0]| <= rx.Capacity() - |rx.Contents()|
    }

    twostate predicate NoneLost()
      reads this, pool
    {
      forall b :: b in pool && old(b.InUse()) ==> b.InUse()
    }

    // No buffer is lost, and whoever is let go is asked for once.
    twostate predicate Accounted()
      reads this, pool
    {
      forall b :: b in pool ==> b.Turns() == old(b.Turns()) && (old(b.InUse()) ==> b.InUse())
    }

    // The oldest held packet moves on, if it fits.
    method Admit(b: InBuffer) returns (moved: bool)
      requires Ready() && hold.held != [] && b == hold.held[0]
      modifies hold, hold.slots, b`held, b`count, b`reading, b`dead, b`asked, rx, rx.buffer
      ensures Ready() && Stream() == old(Stream()) && b.InUse() && b.Turns() == old(b.Turns())
      ensures moved <==> old(OldestFits())
      ensures moved ==> |hold.waiting| == |old(hold.waiting)| - 1 && rx.Contents() != [] && b.count == 0
      ensures !moved ==> hold.waiting == old(hold.waiting) && !OldestFits()
    {
      ghost var rest, first, queued := Flatten(hold.waiting[1..]), hold.waiting[0], rx.Contents();
      var added := AddToRxQueue(b, b.count);
      moved := added != 0;
      if moved {
        Release(b);
        Associates(queued, first, rest);
      }
    }

    // One turn of the loop of CheckHold.
    method AdmitNext(b: InBuffer) returns (next: InBuffer?)
      requires Ready() && hold.held != [] && b == hold.held[0]
      modifies hold, hold.slots, pool, rx, rx.buffer
      ensures Ready() && Stream() == old(Stream()) && Accounted()
      ensures next == null ==> !OldestFits() && |hold.waiting| <= |old(hold.waiting)|
      ensures next != null ==> hold.held != [] && next == hold.held[0]
      ensures next != null || |hold.waiting| < |old(hold.waiting)| ==>
        |hold.waiting| == |old(hold.waiting)| - 1 && rx.Contents() != []
    {
      next := null;
      var moved := Admit(b);
      if moved {
        next := hold.Oldest();
      }
    }

    /** CheckHold: held packets move on into the byte ring, oldest first, as long as they fit, and
        their buffers are read again. The stream stays as it is. */
    method CheckHold()
      requires Ready()
      modifies hold, hold.slots, pool, rx, rx.buffer
      ensures Ready() && Stream() == old(Stream()) && !OldestFits() && Accounted()
      ensures |hold.waiting| <= |old(hold.waiting)|
      ensures |hold.waiting| < |old(hold.waiting)| ==> rx.Contents() != []
    {
      ghost var n, stream := |hold.waiting|, Stream();
      var i := hold.Oldest();
      while i != null
        invariant Ready() && Stream() == stream && Accounted()
        invariant |hold.waiting| <= n && (|hold.waiting| < n ==> rx.Contents() != [])
        invariant if i == null then !OldestFits() else hold.held != [] && i == hold.held[0]
        decreases i != null, |hold.held|
      {
        i := AdmitNext(i);
      }
    }

    /** While a buffer of the pool is somewhere else, the hold ring has room, and its two indices
        meet only when it is empty. */
    lemma MeetingMeansEmpty(b: InBuffer)
      requires Ready() && b in pool && !b.held
      ensures |hold.held| < 64 && (hold.head == hold.tail <==> hold.held == [])
    {
      assert forall i, j :: 0 <= i < j < |hold.held| ==> hold.held[i].order != hold.held[j].order;
      OneElsewhere(hold.held, pool, b);
    }

    ghost predicate NotStalled()
      reads rx, hold
    {
      hold.waiting != [] ==> rx.Contents() != []
    }

    // A packet with data goes into the byte ring, unless it has to wait its turn or does not fit.
    method Store(b: InBuffer, count: nat)
      requires Ready() && NotStalled() && b in pool && b.Idle() && 3 <= count <= max
      modifies `nextOrder, hold, hold.slots, b`held, b`count, b`order, rx, rx.buffer
      ensures Ready() && NotStalled() && Stream() == old(Stream()) + b.data[2..count]
    {
      MeetingMeansEmpty(b);
      OneMoreWaiting(rx.Contents(), hold.waiting, b.data[2..count]);
      var added := 0;
      if hold.tail == hold.head {
        added := AddToRxQueue(b, count);
      }
      if added == 0 {
        Hold(b, count);
      }
    }

    method Accept(b: InBuffer, count: nat)
      requires Valid() && b in pool && b.Idle() && 3 <= count <= max
      modifies `nextOrder, `arrived, hold, hold.slots, b`held, b`count, b`order, rx, rx.buffer
      ensures Valid() && arrived == old(arrived) + b.data[2..count]
      ensures Stream() == old(Stream()) + b.data[2..count]
    {
      Associates(delivered, Stream(), b.data[2..count]);
      Store(b, count);
      arrived := arrived + b.data[2..count];
    }

    /** dataReadComplete, for a read the USB stack has finished: exactly the bytes after the two
        status bytes of a successful packet are added to the stream, at its end. */
    method DataReadComplete(b: InBuffer, status: UsbStatus, remaining: nat)
      requires Valid() && b in pool && b.reading > 0 && remaining <= max
      modifies `nextOrder, `arrived, hold, hold.slots, b`held, b`count, b`order, b`reading, b`dead, b`asked, rx, rx.buffer
      ensures Valid() && delivered == old(delivered)
      ensures Stream() == old(Stream()) + Brings(b.data, status, remaining)
      ensures arrived == old(arrived) + Brings(b.data, status, remaining)
      ensures if gone || status in {Aborted, Failed(true)} then b.Idle() else b.InUse()
      ensures b.InUse() ==> b.asked == old(b.asked) + if b.held then 0 else 1
    {
      EndRead(b);
      if gone || status == Aborted || status == Failed(true) {
        return;
      }
      HandlePacket(b, if status == Succeeded then max - remaining else 0);
    }

    // What is done with a completion while the pipe is there; count is 0 after an error.
    method HandlePacket(b: InBuffer, count: nat)
      requires Valid() && b in pool && b.Idle() && count <= max
      modifies `nextOrder, `arrived, hold, hold.slots, b`held, b`count, b`order, b`reading, b`dead, b`asked, rx, rx.buffer
      ensures Valid() && b.InUse() && b.asked == old(b.asked) + if b.held then 0 else 1
      ensures Stream() == old(Stream()) + if count >= 3 then b.data[2..count] else []
      ensures arrived == old(arrived) + if count >= 3 then b.data[2..count] else []
    {
      if count >= 3 {
        Accept(b, count);
      }
      Reissue(b);
    }

    // A free buffer is read again.
    method ReadFree(b: InBuffer)
      requires Valid() && b in pool && b.Idle()
      modifies b`reading, b`dead, b`asked
      ensures Valid() && Stream() == old(Stream()) && b.InUse() && b.asked == old(b.asked) + 1
    {
      b.Read();
    }

    // LABEL_18 of dataReadComplete.
    method Reissue(b: InBuffer)
      requires Valid() && b in pool && b.reading == 0 && !b.dead
      modifies b`reading, b`dead, b`asked
      ensures Valid() && Stream() == old(Stream()) && b.InUse()
      ensures b.asked == old(b.asked) + if b.held then 0 else 1
    {
      if !b.held {
        ReadFree(b);
      }
    }

    // The USB stack is done with a read of the buffer.
    method EndRead(b: InBuffer)
      requires Valid() && b in pool && b.reading > 0
      modifies b`reading
      ensures Valid() && Stream() == old(Stream()) && b.Idle()
    {
      b.reading := b.reading - 1;
    }

    ghost function Brings(data: seq<byte>, status: UsbStatus, remaining: nat): seq<byte>
      reads this
      requires |data| == max && remaining <= max
    {
      if !gone && status == Succeeded && max - remaining >= 3 then data[2..max - remaining] else []
    }

    // So many bytes were taken out as were asked for, or all there were.
    ghost predicate TookAll(count: nat, maxSize: nat)
      reads this
    {
      count == maxSize || |delivered| == reach
    }

    method RemoveBytes(maxSize: nat) returns (taken: seq<byte>)
      requires Ready() && arrived == delivered + Stream()
      modifies `delivered, rx
      ensures Ready() && arrived == delivered + Stream()
      ensures delivered == old(delivered) + taken && taken + Stream() == old(Stream())
      ensures |taken| == Min(maxSize, |old(rx.Contents())|)
    {
      ghost var waiting := Flatten(hold.waiting);
      taken := rx.RemoveFromQueue(maxSize);
      Associates(taken, rx.Contents(), waiting);
      Associates(delivered, taken, Stream());
      delivered := delivered + taken;
    }

    // One removal of dequeueDataGated, after which the freed room may go to held packets.
    method Take(maxSize: nat, before: nat) returns (taken: seq<byte>)
      requires Valid()
      modifies `delivered, `reach, hold, hold.slots, pool, rx, rx.buffer
      ensures Valid() && delivered == old(delivered) + taken && taken + Stream() == old(Stream())
      ensures |taken| == Min(maxSize, |old(rx.Contents())|) && TookAll(|taken|, maxSize) && Accounted()
      ensures taken == [] ==> maxSize == 0 || old(Stream()) == []
      ensures if before + |taken| != 0 then !OldestFits() else hold.held == old(hold.held)
    {
      reach := |delivered| + |rx.Contents()|;
      taken := RemoveBytes(maxSize);
      if before + |taken| != 0 {
        CheckHold();
        RoomForOne();
      }
    }

    // An empty byte ring has room for any packet.
    lemma RoomForOne()
      requires Ready() && !OldestFits()
      ensures hold.waiting != [] ==> rx.Contents() != []
    {
      if hold.waiting != [] {
        assert hold.held[0].count <= max;
      }
    }

    method ResurrectOne(b: InBuffer)
      requires Valid() && b in pool
      modifies b`reading, b`dead, b`asked
      ensures Valid() && Stream() == old(Stream()) && (old(b.InUse()) ==> b.InUse())
      ensures b.asked == old(b.asked) + if old(b.dead) then 1 else 0
    {
      b.Resurrect();
    }

    /** resurrectRead: buffers marked dead are offered to the USB stack again. */
    method ResurrectRead()
      requires Valid() && Numbered()
      modifies pool
      ensures Valid() && Stream() == old(Stream()) && NoneLost()
      ensures forall k :: 0 <= k < |buffers| ==>
        buffers[k].asked == old(buffers[k].asked) + if old(buffers[k].dead) then 1 else 0
    {
      for i := 0 to |buffers|
        invariant Valid() && Stream() == old(Stream()) && NoneLost()
        invariant forall k :: 0 <= k < i ==>
          buffers[k].asked == old(buffers[k].asked) + if old(buffers[k].dead) then 1 else 0
        invariant forall k :: i <= k < |buffers| ==>
          buffers[k].asked == old(buffers[k].asked) && buffers[k].dead == old(buffers[k].dead)
      {
        ResurrectOne(buffers[i]);
      }
    }

    ghost predicate AllInOnePlace()
      reads pool
    {
      forall i :: 0 <= i < |buffers| && buffers[i] in pool ==> buffers[i].OnePlace()
    }

    ghost predicate AllIdle()
      reads pool
    {
      forall b :: b in pool ==> b.Idle()
    }

    // With these answers of the USB stack, every buffer ends up in one place.
    ghost predicate StartsCleanly(answers: seq<bool>)
      reads pool
      requires |answers| == |buffers|
    {
      forall i :: 0 <= i < |buffers| && buffers[i] in pool ==> buffers[i].CleanAfter(answers[i])
    }

    /** startReads, when a port is acquired: which buffers are in one place afterwards depends on what
        they are used for and on the answers. When all are idle everything stays in order. */
    method StartReads(answers: seq<bool>)
      requires Valid() && Numbered() && |answers| == |buffers|
      modifies pool`reading, pool`dead
      ensures gone ==> Valid()
      ensures !gone ==> forall i :: 0 <= i < |buffers| ==>
        buffers[i].Asked(old(buffers[i].reading), old(buffers[i].dead), answers[i])
      ensures !gone ==> (AllInOnePlace() <==> old(StartsCleanly(answers)))
      ensures old(AllIdle()) ==> Valid() && Stream() == old(Stream())
    {
      if gone {
        return;
      }
      for i := 0 to |buffers|
        invariant forall k :: 0 <= k < i ==>
          buffers[k].Asked(old(buffers[k].reading), old(buffers[k].dead), answers[k])
        invariant forall k :: i <= k < |buffers| ==> buffers[k].reading == old(buffers[k].reading)
        invariant forall k :: i <= k < |buffers| ==> buffers[k].dead == old(buffers[k].dead)
      {
        buffers[i].ReadAnyway(answers[i]);
      }
    }

    /** Whatever the USB stack answers, all buffers are in one place afterwards: exactly when all are
        idle before. Nothing in acquirePort makes sure of that: the hold ring outlives the session
        that filled it. */
    lemma CleanWhateverTheAnswers()
      requires Numbered()
      ensures (forall answers: seq<bool> :: |answers| == |buffers| ==> StartsCleanly(answers)) <==> AllIdle()
    {
      var yes := seq(|buffers|, _ => true);
      if StartsCleanly(yes) {
        forall b | b in pool
          ensures b.Idle()
        {
          var i :| 0 <= i < |buffers| && buffers[i] == b;
          assert buffers[i].CleanAfter(yes[i]);
        }
      }
    }

    method SetFlags()
      requires Valid()
      modifies `gone, `active
      ensures Valid()
    {
      gone, active := *, *;
    }

    // A read the USB stack has in hand comes to its end.
    method Arrive(b: InBuffer, packet: seq<byte>, status: UsbStatus, remaining: nat)
      requires Valid() && b in pool && b.reading > 0 && |packet| == max && remaining <= max
      modifies `nextOrder, `arrived, hold, hold.slots, b, rx, rx.buffer
      ensures Valid() && delivered == old(delivered) && old(arrived) <= arrived
    {
      DeviceWrites(b, packet);
      DataReadComplete(b, status, remaining);
    }

    // What other threads do in the command gate while a reader sleeps.
    method Meanwhile()
      requires Valid() && Numbered()
      modifies this, hold, hold.slots, pool, rx, rx.buffer
      ensures Valid() && delivered == old(delivered) && old(arrived) <= arrived
    {
      var n: nat :| 0 <= n;
      for i := 0 to n
        invariant Valid() && delivered == old(delivered) && old(arrived) <= arrived
      {
        var k: nat, packet: seq<byte>, status: UsbStatus, remaining: nat := *, *, *, *;
        if k < |buffers| && buffers[k].reading > 0 && |packet| == max && remaining <= max {
          Arrive(buffers[k], packet, status, remaining);
        } else if k < |buffers| {
          ResurrectRead();
        } else {
          SetFlags();
        }
      }
    }

    method TakeLater(maxSize: nat, before: nat) returns (taken: seq<byte>)
      requires Valid() && Numbered()
      modifies this, hold, hold.slots, pool, rx, rx.buffer
      ensures Valid() && delivered == old(delivered) + taken && old(arrived) <= arrived && |taken| <= maxSize
      ensures TookAll(|taken|, maxSize) && (taken == [] ==> maxSize == 0 || Stream() == [])
    {
      Meanwhile();
      taken := Take(maxSize, before);
    }

    /** dequeueDataGated: what a reader is given is the next part of the stream, without a gap, and
        nothing is lost or handed out twice however the sleeps go. */
    method DequeueData(size: nat, min: nat, wakeups: seq<bool>)
      returns (status: DequeueStatus, data: seq<byte>, ghost slept: nat)
      requires Valid() && Numbered()
      modifies this, hold, hold.slots, pool, rx, rx.buffer
      ensures Valid() && delivered == old(delivered) + data && old(arrived) <= arrived && |data| <= size
      ensures status == NotOpen <==> old(gone) || !old(active)
      ensures status == NotOpen ==> data == []
      ensures status != NotOpen ==> (status == Done <==> min <= |data|)
      ensures status != NotOpen ==> |data| >= Min(size, |old(rx.Contents())|) && TookAll(|data|, size)
      ensures slept <= |wakeups| && forall i :: 0 <= i < slept ==> wakeups[i]
      ensures status == WatchFailed ==> slept < |wakeups| && !wakeups[slept]
      ensures status == StillAsleep ==> slept == |wakeups|
      ensures size > 0 && old(Stream()) != [] && status != NotOpen ==> data != []
    {
      data, slept := [], 0;
      if gone || !active {
        return NotOpen, data, slept;
      }
      data := Take(size, 0);
      var first := data;
      status, data, slept := WaitForMore(size, min, wakeups, first);
      FirstAndRest(old(delivered), first, data);
    }

    // The loop of dequeueDataGated; first is what was taken out on entry.
    method WaitForMore(size: nat, min: nat, wakeups: seq<bool>, first: seq<byte>)
      returns (status: DequeueStatus, data: seq<byte>, ghost slept: nat)
      requires Valid() && Numbered() && |first| <= size
      modifies this, hold, hold.slots, pool, rx, rx.buffer
      ensures Valid() && first <= data && |data| <= size && old(arrived) <= arrived
      ensures old(TookAll(|first|, size)) ==> TookAll(|data|, size)
      ensures delivered == old(delivered) + data[|first|..]
      ensures status != NotOpen && (status == Done <==> min <= |data| || min == 0)
      ensures slept <= |wakeups| && forall i :: 0 <= i < slept ==> wakeups[i]
      ensures status == WatchFailed ==> slept < |wakeups| && !wakeups[slept]
      ensures status == StillAsleep ==> slept == |wakeups|
    {
      data, slept := first, 0;
      var i := 0;
      while min > 0 && |data| < min
        invariant Valid() && first <= data && |data| <= size
        invariant old(TookAll(|first|, size)) ==> TookAll(|data|, size)
        invariant delivered == old(delivered) + data[|first|..] && old(arrived) <= arrived
        invariant slept == i <= |wakeups| && forall k :: 0 <= k < i ==> wakeups[k]
        decreases |wakeups| - i
      {
        if i >= |wakeups| {
          return StillAsleep, data, slept;
        }
        if !wakeups[i] {
          return WatchFailed, data, slept;
        }
        i, slept := i + 1, slept + 1;
        var more := TakeLater(size - |data|, |data|);
        Extends(old(delivered), first, data, more);
        data := data + more;
      }
      status := Done;
    }
  }

  lemma FirstAndRest(taken: seq<byte>, first: seq<byte>, data: seq<byte>)
    requires first <= data
    ensures (taken + first) + data[|first|..] == taken + data
  {}

  lemma Extends(taken: seq<byte>, first: seq<byte>, data: seq<byte>, more: seq<byte>)
    requires first <= data
    ensures (taken + data[|first|..]) + more == taken + (data + more)[|first|..]
  {}

  lemma {:induction false} FlattenLonger(ss: seq<seq<byte>>)
    requires forall k :: 0 <= k < |ss| ==> |ss[k]| >= 1
    ensures |Flatten(ss)| >= |ss|
  {
    if ss != [] {
      FlattenLonger(ss[1..]);
    }
  }

  // Where one or two bytes are when the byte ring takes one.
  lemma OneByte(path: RxPath)
    requires path.Valid() && |path.Stream()| == 1
    ensures path.hold.held == [] && path.rx.Contents() == path.Stream()
  {
    FlattenLonger(path.hold.waiting);
  }

  lemma TwoBytes(path: RxPath)
    requires path.Valid() && |path.Stream()| == 2 && path.rx.Capacity() == 1
    ensures |path.hold.held| == 1 && path.rx.Contents() == path.Stream()[..1]
  {
    FlattenLonger(path.hold.waiting);
  }

  // A packet of one byte.
  method OneBytePacket(path: RxPath, b: InBuffer, x: byte)
    requires path.Valid() && b in path.pool && b.reading == 1 && path.max == 3 && !path.gone
    modifies path`nextOrder, path`arrived, path.hold, path.hold.slots, b, path.rx, path.rx.buffer
    ensures path.Valid() && b.InUse() && path.delivered == old(path.delivered)
    ensures path.arrived == old(path.arrived) + [x] && path.Stream() == old(path.Stream()) + [x]
  {
    path.DeviceWrites(b, [0, 0, x]);
    assert path.Brings(b.data, Succeeded, 0) == [x];
    path.DataReadComplete(b, Succeeded, 0);
  }

  // The first one goes into the byte ring.
  method FirstPacket(path: RxPath, b: InBuffer, x: byte)
    requires path.Valid() && b in path.pool && b.reading == 1 && path.max == 3 && !path.gone
    requires path.arrived == [] && path.Stream() == []
    modifies path`nextOrder, path`arrived, path.hold, path.hold.slots, b, path.rx, path.rx.buffer
    ensures path.Valid() && path.arrived == [x] && path.Stream() == [x] && !b.held
  {
    OneBytePacket(path, b, x);
    OneByte(path);
    assert path.arrived == [x];
  }

  // The second one is held.
  lemma SecondIsHeld(path: RxPath, b: InBuffer, c: InBuffer, x: byte, y: byte)
    requires path.Valid() && path.pool == {b, c} && !b.held && path.max == 3
    requires path.Stream() == [x, y] && path.rx.Capacity() == 1
    ensures path.rx.Contents() == [x] && path.hold.held == [c] && c.held && c.count == 3
  {
    TwoBytes(path);
    assert [x, y][..1] == [x];
    assert path.hold.held[0] in path.pool;
  }

  method SecondPacket(path: RxPath, c: InBuffer, x: byte, y: byte)
    requires path.Valid() && c in path.pool && c.reading == 1 && path.max == 3 && !path.gone
    requires path.arrived == [x] && path.Stream() == [x]
    modifies path`nextOrder, path`arrived, path.hold, path.hold.slots, c, path.rx, path.rx.buffer
    ensures path.Valid() && path.arrived == [x, y] && path.Stream() == [x, y] && c.InUse()
  {
    assert [x] + [y] == [x, y];
    OneBytePacket(path, c, y);
  }

  ghost predicate Small(path: RxPath, b: InBuffer, c: InBuffer)
    reads path
  {
    && path.pool == {b, c} && path.buffers == [b, c] && b != c
    && path.max == 3 && path.rx.Capacity() == 1 && !path.gone
  }

  // Once the second one is held; the other buffer is being read again meanwhile, or marked dead.
  method HeldSecond(path: RxPath, b: InBuffer, c: InBuffer, x: byte, y: byte)
    requires Small(path, b, c) && path.Valid() && c.reading == 1 && !b.held
    requires path.arrived == [x] && path.Stream() == [x]
    modifies path`nextOrder, path`arrived, path.hold, path.hold.slots, c, path.rx, path.rx.buffer
    ensures path.Valid() && path.arrived == [x, y] && path.rx.Contents() == [x]
    ensures path.hold.held == [c] && c.InUse() && c.held && c.count == 3
  {
    SecondPacket(path, c, x, y);
    SecondIsHeld(path, b, c, x, y);
  }

  // Releasing the port aborts the read of the other buffer.
  method ReadsAborted(path: RxPath, b: InBuffer)
    requires path.Valid() && b in path.pool
    modifies b`reading
    ensures path.Valid() && b.reading == 0
  {
    if b.reading > 0 {
      path.EndRead(b);
    }
  }

  // The steps of a reader that takes a byte at a time: the byte ring, and then the oldest held buffer.
  method ReadOut(path: RxPath, x: byte, z: byte) returns (taken: seq<byte>)
    requires path.rx.Valid() && path.hold.Valid() && path.rx.Contents() == [x] && path.rx.Capacity() == 1
    requires path.hold.held != [] && path.hold.held[0].data == [0, 0, z] && path.hold.held[0].count == 3
    modifies path.rx, path.rx.buffer
    ensures taken == [x, z]
  {
    var oldest := path.hold.Oldest();
    var first := path.rx.RemoveFromQueue(1);
    var _ := path.AddToRxQueue(oldest, oldest.count);
    var second := path.rx.RemoveFromQueue(1);
    taken := first + second;
  }

  // The port is acquired again, while c is held; then a packet comes.
  method AcquireAgain(path: RxPath, b: InBuffer, c: InBuffer, packet: seq<byte>)
    requires Small(path, b, c) && path.Valid() && c.held && c.InUse()
    modifies b`reading, b`dead, b`asked, c`reading, c`dead, c`asked, c`data
    ensures path.rx.Valid() && path.hold.Valid() && c.data == packet
  {
    assert path.pool == set x | x in path.buffers;
    path.StartReads([true, true]);
    assert c == path.buffers[1];
    c.Fill(packet);
  }

  // What the reader gets in the session that starts with one byte queued and c held.
  method SecondSession(path: RxPath, b: InBuffer, c: InBuffer, x: byte, z: byte) returns (taken: seq<byte>)
    requires Small(path, b, c) && path.Valid() && path.hold.held == [c] && path.rx.Contents() == [x]
    requires c.held && c.InUse() && c.count == 3
    modifies b`reading, b`dead, b`asked, c`reading, c`dead, c`asked, c`data, path.rx, path.rx.buffer
    ensures taken == [x, z]
  {
    ReadsAborted(path, b);
    AcquireAgain(path, b, c, [0, 0, z]);
    taken := ReadOut(path, x, z);
  }

  /** It does go wrong, with two buffers and a byte ring for one byte: the second of two one-byte
      packets x and y is held; the port is released, which aborts the other read, and acquired again.
      The held buffer is now read into, too, and the next packet overwrites y: the reader gets x and
      then z. */
  method OverwrittenWhileHeld(path: RxPath, b: InBuffer, c: InBuffer, x: byte, y: byte, z: byte)
    returns (taken: seq<byte>)
    requires Small(path, b, c) && path.Valid() && b.reading == 1 && c.reading == 1
    requires path.arrived == [] && path.Stream() == []
    modifies path`nextOrder, path`arrived, path.hold, path.hold.slots, b, c, path.rx, path.rx.buffer
    ensures path.arrived == [x, y] && taken == [x, z]
  {
    FirstPacket(path, b, x);
    HeldSecond(path, b, c, x, y);
    taken := SecondSession(path, b, c, x, z);
  }

  method NewSmall() returns (path: RxPath, b: InBuffer, c: InBuffer)
    ensures Small(path, b, c) && path.Valid() && path.Numbered() && fresh({b, c})
    ensures path.AllIdle() && path.arrived == [] && path.Stream() == []
  {
    path := new RxPath(1, 3, Value(2), Absent);
    b, c := path.buffers[0], path.buffers[1];
    assert path.pool == {b, c};
    assert path.arrived == path.delivered + path.Stream();
  }

  /** And there is such a path. */
  method TwoBuffers() returns (path: RxPath, b: InBuffer, c: InBuffer)
    ensures Small(path, b, c) && path.Valid() && b.reading == c.reading == 1
    ensures path.arrived == [] && path.Stream() == []
  {
    path, b, c := NewSmall();
    path.StartReads([true, true]);
    assert b == path.buffers[0] && c == path.buffers[1];
  }
}
