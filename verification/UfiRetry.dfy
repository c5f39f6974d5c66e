/** Block requests of the floppy driver: IOUFIStorageServices.cpp takes a request from its client,
    hands it to the device object of IOUSBMassStorageUFISubclass.cpp, tries it again when it fails,
    and answers the client; the record that carries it is freed on the way. The bus may complete
    the commands it has in any order, well or badly. */
module UfiRetry {

  datatype Status = Success | NotAttached | Offline | BadArgument | NoResources | Other(code: int)

  datatype Direction = Inward | Outward | Neither

  datatype Answer = None | Answered(status: Status, bytes: nat)

  // The first block and the number of blocks.
  datatype Extent = Extent(block: nat, count: nat)

  // One attempt: what the command asks for, and the block size of the medium at the time.
  datatype Try = Try(sent: Extent, mediumBlockSize: nat)

  const NUMBER_RETRIES := 4
  const ERROR := -536870212

  function Low32(n: nat): nat {
    n % 0x1_0000_0000
  }

  function Low16(n: nat): nat {
    n % 0x1_0000
  }

  // Errors other than these are tried again.
  predicate Final(status: Status) {
    status in {Success, NotAttached, Offline}
  }

  // ---------- what goes out ----------

  /** READ(10) and WRITE(10) have four bytes for the block and two for the count. */
  function OnTheWire(e: Extent): Extent {
    Extent(Low32(e.block), Low16(e.count))
  }

  // A command is built only for a medium, and for a buffer that has room for it; the byte count is
  // an unsigned 32-bit product.
  predicate CanBuild(mediumBlockSize: nat, bufferLength: nat, count: nat) {
    mediumBlockSize != 0 && bufferLength >= Low32(count * mediumBlockSize)
  }

  /** The device is asked for what the client wants exactly when its numbers fit the command. */
  lemma SentIsWanted(e: Extent)
    ensures OnTheWire(e) == e <==> e.block < 0x1_0000_0000 && e.count < 0x1_0000
  {}

  /** They need not: a request for 65536 blocks asks the device for none. */
  lemma NothingIsSent(block: nat)
    ensures OnTheWire(Extent(block, 0x1_0000)).count == 0
  {}

  lemma CutTwice(n: nat)
    ensures Low32(Low32(n)) == Low32(n) && Low16(Low32(n)) == Low16(n)
  {
    var q, low := n / 0x1_0000_0000, Low32(n);
    assert n == q * 0x1_0000_0000 + low;
    Multiples(q * 0x1_0000, low);
  }

  lemma Multiples(a: nat, n: nat)
    ensures Low16(a * 0x1_0000 + n) == Low16(n)
  {
    assert a * 0x1_0000 + n == (a + n / 0x1_0000) * 0x1_0000 + Low16(n);
  }

  /** While the byte count fits into 32 bits, a command is built exactly when there is a medium and the
      buffer has room for all its blocks. */
  lemma BuiltWhenItFits(mediumBlockSize: nat, bufferLength: nat, count: nat)
    requires count * mediumBlockSize < 0x1_0000_0000
    ensures CanBuild(mediumBlockSize, bufferLength, count)
      <==> mediumBlockSize > 0 && count * mediumBlockSize <= bufferLength
  {}

  /** Beyond that the count wraps: 32768 blocks of 128 KB pass for none at all. */
  lemma BuiltBecauseItWraps(bufferLength: nat)
    ensures CanBuild(0x2_0000, bufferLength, 0x8000)
  {}

  /** A command that could not be built is never sent. */
  predicate Built(t: Try, bufferLength: nat) {
    CanBuild(t.mediumBlockSize, bufferLength, t.sent.count)
  }

  // ---------- the record of one request ----------

  class ClientData {
    const direction: Direction
    const bufferLength: nat
    const startingBlock: nat
    const requestedBlockCount: nat
    var retriesLeft: nat
    // What the client asked for, the tries so far, and what the client was told.
    ghost const extent: Extent
    ghost var tries: seq<Try>
    ghost var answer: Answer
    ghost var freed: bool

    constructor (direction: Direction, bufferLength: nat, block: nat, nblks: nat)
      ensures New() && this.direction == direction && this.bufferLength == bufferLength
      ensures extent == Extent(block, nblks)
    {
      this.direction, this.bufferLength := direction, bufferLength;
      startingBlock, requestedBlockCount, retriesLeft := Low32(block), Low32(nblks), NUMBER_RETRIES;
      extent, tries, answer, freed := Extent(block, nblks), [], None, false;
    }

    ghost predicate Kept() {
      startingBlock == Low32(extent.block) && requestedBlockCount == Low32(extent.count)
    }

    ghost predicate New()
      reads this
    {
      Kept() && !freed && answer == None && tries == [] && retriesLeft == NUMBER_RETRIES
    }

    /** All tries have asked for the same: what is left of the client's numbers in a command. */
    ghost predicate Alike()
      reads this
    {
      forall i :: 0 <= i < |tries| ==> tries[i].sent == OnTheWire(extent)
    }

    ghost predicate Open()
      reads this
    {
      && Kept() && Alike() && direction != Neither && !freed && answer == None
      && 1 <= |tries| && |tries| + retriesLeft == NUMBER_RETRIES + 1
      && (forall i :: 0 <= i < |tries| - 1 ==> Built(tries[i], bufferLength))
    }

    // The bus has its command.
    ghost predicate Pending()
      reads this
    {
      Open() && Built(tries[|tries| - 1], bufferLength)
    }

    /** Its last command could not be built: nobody will complete it any more. */
    ghost predicate Stranded()
      reads this
    {
      Open() && !Built(tries[|tries| - 1], bufferLength)
    }

    /** The client has its answer, after at most five tries, and the record is gone. */
    ghost predicate Finished()
      reads this
    {
      && Alike() && freed && answer.Answered? && 1 <= |tries| <= NUMBER_RETRIES + 1
      && (forall i :: 0 <= i < |tries| ==> Built(tries[i], bufferLength))
    }
  }

  // ---------- the two objects ----------

  class StorageServices {
    // Of the device object: the size of the blocks of its medium, zero without one, and the
    // records whose commands the bus has, each to be completed once.
    var mediumBlockSize: nat
    var outstanding: set<ClientData>
    // References taken on this object and on the device object.
    var retains: nat
    var providerRetains: nat
    // Every request that was accepted, and those among them that have no answer yet.
    ghost var requests: set<ClientData>
    ghost var open: set<ClientData>

    /** Each accepted request is with the bus, stranded or finished; and there are as many
        references as requests without an answer. */
    ghost predicate Valid()
      reads this, requests
    {
      && outstanding <= open <= requests && retains == providerRetains == |open|
      && (forall c :: c in requests ==>
            if c in outstanding then c.Pending() else if c in open then c.Stranded() else c.Finished())
    }

    constructor (mediumBlockSize: nat)
      ensures Valid() && requests == outstanding == open == {} && this.mediumBlockSize == mediumBlockSize
    {
      this.mediumBlockSize := mediumBlockSize;
      outstanding, retains, providerRetains, requests, open := {}, 0, 0, {}, {};
    }

    // A medium is inserted, or taken out, at any time.
    method ChangeMedium(blockSize: nat)
      requires Valid()
      modifies `mediumBlockSize
      ensures Valid() && mediumBlockSize == blockSize
    {
      mediumBlockSize := blockSize;
    }

    /** AsyncReadWrite of the device object: whether or not the command could be built, the caller is
        told of success. */
    method AsyncReadWrite(c: ClientData, block: nat, count: nat) returns (status: Status)
      requires c.direction != Neither
      modifies `outstanding, c`tries
      ensures status == Success
      ensures var built := CanBuild(mediumBlockSize, c.bufferLength, Low16(count));
        && c.tries == old(c.tries) + [Try(OnTheWire(Extent(block, count)), mediumBlockSize)]
        && outstanding == if built then old(outstanding) + {c} else old(outstanding)
    {
      var built := CanBuild(mediumBlockSize, c.bufferLength, Low16(count));
      if built {
        outstanding := outstanding + {c};
      }
      c.tries := c.tries + [Try(Extent(Low32(block), Low16(count)), mediumBlockSize)];
      status := Success;
    }

    /** doAsyncReadWrite. The device object refuses nothing that gets as far, so the branch that
        would free the record is never taken. */
    method DoAsyncReadWrite(inactive: bool, memory: bool, direction: Direction, bufferLength: nat, block: nat, nblks: nat)
      returns (status: Status, ghost c: ClientData?)
      requires Valid()
      modifies this
      ensures Valid() && mediumBlockSize == old(mediumBlockSize)
      ensures status == if inactive then NotAttached else if direction == Neither then BadArgument
        else if !memory then NoResources else Success
      ensures status != Success ==> requests == old(requests) && outstanding == old(outstanding) && open == old(open)
      ensures status == Success ==> c != null && fresh(c) && c.extent == Extent(block, nblks)
      ensures status == Success ==> c.tries == [Try(OnTheWire(Extent(block, nblks)), mediumBlockSize)]
      ensures status == Success ==> c.bufferLength == bufferLength && requests == old(requests) + {c} && open == old(open) + {c}
      ensures status == Success ==> (c in outstanding <==> CanBuild(mediumBlockSize, bufferLength, Low16(nblks)))
    {
      c := null;
      if inactive {
        return NotAttached, c;
      }
      if direction == Neither {
        return BadArgument, c;
      }
      if !memory {
        return NoResources, c;
      }
      var data := new ClientData(direction, bufferLength, block, nblks);
      status := Begin(data, block, nblks);
      c := data;
    }

    // The first try of a request.
    method TryFirst(c: ClientData, block: nat, nblks: nat) returns (status: Status)
      requires c.New() && c.direction != Neither && c.extent == Extent(block, nblks)
      modifies `outstanding, c`tries
      ensures status == Success && c.Open() && c.tries == [Try(OnTheWire(Extent(block, nblks)), mediumBlockSize)]
      ensures Built(c.tries[0], c.bufferLength) == CanBuild(mediumBlockSize, c.bufferLength, Low16(nblks))
      ensures outstanding == if Built(c.tries[0], c.bufferLength) then old(outstanding) + {c} else old(outstanding)
    {
      status := AsyncReadWrite(c, block, nblks);
    }

    // All but c is in order; c has been tried once and is counted, but not yet listed.
    ghost predicate AllBut(c: ClientData)
      reads this, requests, c
    {
      && c !in requests && c.Open() && (c in outstanding <==> c.Pending())
      && outstanding - {c} <= open <= requests && retains == providerRetains == |open| + 1
      && (forall d :: d in requests ==>
            if d in outstanding then d.Pending() else if d in open then d.Stranded() else d.Finished())
    }

    ghost method Enlist(c: ClientData)
      requires AllBut(c)
      modifies `requests, `open
      ensures Valid() && requests == old(requests) + {c} && open == old(open) + {c}
    {
      requests, open := requests + {c}, open + {c};
    }

    // The references are taken, and the request is tried for the first time.
    method Begin(c: ClientData, block: nat, nblks: nat) returns (status: Status)
      requires Valid() && c !in requests && c.New() && c.direction != Neither && c.extent == Extent(block, nblks)
      modifies `outstanding, `open, `requests, `retains, `providerRetains, c`tries
      ensures Valid() && status == Success && requests == old(requests) + {c} && open == old(open) + {c}
      ensures c.tries == [Try(OnTheWire(Extent(block, nblks)), mediumBlockSize)]
      ensures c in outstanding <==> CanBuild(mediumBlockSize, c.bufferLength, Low16(nblks))
    {
      retains, providerRetains := retains + 1, providerRetains + 1;
      status := TryFirst(c, block, nblks);
      Enlist(c);
    }

    // The end of AsyncReadWriteComplete: free the record, drop the references, tell the client.
    method Finish(c: ClientData, status: Status, bytes: nat)
      requires Valid() && c in outstanding
      modifies this`outstanding, this`open, this`retains, this`providerRetains, c`answer, c`freed
      ensures Valid() && outstanding == old(outstanding) - {c} && open == old(open) - {c}
      ensures c.answer == Answered(status, bytes)
    {
      c.freed := true;
      outstanding, open := outstanding - {c}, open - {c};
      retains, providerRetains := retains - 1, providerRetains - 1;
      c.answer := Answered(status, bytes);
    }

    // The other end: one try less, and the command goes out again, made from the record.
    method TryAgain(c: ClientData)
      requires Valid() && c in outstanding && c.retriesLeft > 0
      modifies this`outstanding, c`retriesLeft, c`tries
      ensures Valid() && c.retriesLeft == old(c.retriesLeft) - 1
      ensures var built := CanBuild(mediumBlockSize, c.bufferLength, Low16(c.extent.count));
        && c.tries == old(c.tries) + [Try(OnTheWire(c.extent), mediumBlockSize)]
        && outstanding == if built then old(outstanding) else old(outstanding) - {c}
    {
      CutTwice(c.extent.block);
      CutTwice(c.extent.count);
      outstanding := outstanding - {c};
      c.retriesLeft := c.retriesLeft - 1;
      var _ := AsyncReadWrite(c, c.startingBlock, c.requestedBlockCount);
    }

    /** AsyncReadWriteComplete: the request is tried again exactly when its error is not final and
        tries are left; otherwise the client is told what this completion said. */
    method AsyncReadWriteComplete(c: ClientData, status: Status, bytes: nat) returns (again: bool)
      requires Valid() && c in outstanding
      modifies this`outstanding, this`open, this`retains, this`providerRetains, c
      ensures Valid()
      ensures again <==> status != Success && status != NotAttached && status != Offline && old(c.retriesLeft) > 0
      ensures again ==> c.tries == old(c.tries) + [Try(OnTheWire(c.extent), mediumBlockSize)]
      ensures again ==> c.retriesLeft == old(c.retriesLeft) - 1
      ensures again ==> open == old(open) && outstanding - {c} == old(outstanding) - {c}
      ensures again ==> (c in outstanding <==> CanBuild(mediumBlockSize, c.bufferLength, Low16(c.extent.count)))
      ensures !again ==> c.answer == Answered(status, bytes) && c.tries == old(c.tries)
      ensures !again ==> outstanding == old(outstanding) - {c} && open == old(open) - {c}
    {
      again := !Final(status) && c.retriesLeft > 0;
      if again {
        TryAgain(c);
      } else {
        Finish(c, status, bytes);
      }
    }

    /** The completion of a command, as the device object passes it on: of a good one it reports the
        length of the buffer, whatever was asked for. */
    method TaskComplete(c: ClientData, good: bool) returns (again: bool)
      requires Valid() && c in outstanding
      modifies this`outstanding, this`open, this`retains, this`providerRetains, c
      ensures Valid() && (again <==> !good && old(c.retriesLeft) > 0)
      ensures !again ==> c.answer == if good then Answered(Success, c.bufferLength) else Answered(Other(ERROR), 0)
      ensures again ==> (c in outstanding <==> CanBuild(mediumBlockSize, c.bufferLength, Low16(c.extent.count)))
      ensures again ==> c.retriesLeft == old(c.retriesLeft) - 1 && open == old(open) && outstanding - {c} == old(outstanding) - {c}
      ensures !again ==> outstanding == old(outstanding) - {c} && open == old(open) - {c}
    {
      var status := if good then Success else Other(ERROR);
      again := AsyncReadWriteComplete(c, status, if good then c.bufferLength else 0);
    }

    // ---------- over every run ----------

    /** Whatever happened to a request, all its tries have asked the device for the same. */
    lemma TriesAlike(c: ClientData)
      requires Valid() && c in requests
      ensures forall i :: 0 <= i < |c.tries| ==> c.tries[i].sent == OnTheWire(c.extent)
      ensures 1 <= |c.tries| <= 5
    {}

    /** Once the bus has nothing left to complete, a request has its one answer exactly when every
        one of its commands could be built with the medium of that moment; and as many references are
        left as requests without. */
    lemma AllAnswered(c: ClientData)
      requires Valid() && outstanding == {} && c in requests
      ensures c.answer.Answered? <==> c.freed
      ensures c.answer.Answered? <==> forall i :: 0 <= i < |c.tries| ==>
        CanBuild(c.tries[i].mediumBlockSize, c.bufferLength, Low16(c.extent.count))
      ensures retains == providerRetains == |open| && (c in open <==> !c.answer.Answered?)
    {
      if c in open {
        assert !Built(c.tries[|c.tries| - 1], c.bufferLength);
      }
    }
  }

  /** A run in which a request is never answered: its first try fails, the medium is taken out, and
      the second command cannot be built. */
  method Ejected() returns (s: StorageServices, ghost c: ClientData?)
    ensures s.Valid() && s.outstanding == {} && c in s.requests && c.answer == None && s.retains == 1
  {
    s := new StorageServices(512);
    var status;
    status, c := s.DoAsyncReadWrite(false, true, Inward, 512, 0, 1);
    assert c in s.outstanding && c.Pending();
    var data :| data in s.outstanding;
    assert data in s.open && s.open == {c};
    s.ChangeMedium(0);
    var again := s.TaskComplete(data, false);
    assert |{c}| == 1;
  }
}
