/** The circular byte queue shared by the drivers: AddBytetoQueue, GetBytetoQueue, AddtoQueue,
    RemovefromQueue and their relatives (AppleSCCIrDA.cpp and AppleUSBFTDI.c). Pointers are indices
    into the buffer; each method is one use of the queue under its lock. */
module RingQueue {

  type byte = bv8

  datatype QueueStatus = QueueNoError | QueueFull | QueueEmpty

  function Min(a: nat, b: nat): nat {
    if a <= b then a else b
  }

  // The byte k places behind the read pointer.
  function Slot(last: nat, k: nat, size: nat): nat {
    if last + k < size then last + k else last + k - size
  }

  lemma Regroup(taken: seq<byte>, value: byte, rest: seq<byte>, queued: seq<byte>, before: seq<byte>)
    requires [value] + rest == queued && taken + queued == before
    ensures (taken + [value]) + rest == before
  {}

  class CirQueue {
    const buffer: array<byte>
    var nextChar: nat
    var lastChar: nat
    var inQueue: nat
    ghost var contents: seq<byte>

    // The write pointer is inQueue places ahead of the read pointer. When they meet, the queue is
    // empty or full, and only inQueue tells which.
    ghost predicate Valid()
      reads this, buffer
    {
      && 0 < buffer.Length && nextChar < buffer.Length && lastChar < buffer.Length
      && inQueue <= buffer.Length
      && nextChar == Slot(lastChar, inQueue, buffer.Length)
      && |contents| == inQueue
      && (forall k :: 0 <= k < inQueue ==> buffer[Slot(lastChar, k, buffer.Length)] == contents[k])
    }

    /** The bytes in the queue, oldest first. */
    ghost function Contents(): seq<byte>
      reads this
    {
      contents
    }

    ghost function Capacity(): nat {
      buffer.Length
    }

    constructor (size: nat)
      requires size > 0
      ensures Valid() && Contents() == [] && Capacity() == size && fresh(buffer)
    {
      buffer := new byte[size];
      nextChar, lastChar, inQueue, contents := 0, 0, 0, [];
    }

    method AddByteToQueue(value: byte) returns (status: QueueStatus)
      requires Valid()
      modifies this, buffer
      ensures Valid()
      ensures old(inQueue) == Capacity() ==> status == QueueFull && Contents() == old(Contents())
      ensures old(inQueue) < Capacity() ==> status == QueueNoError && Contents() == old(Contents()) + [value]
    {
      if nextChar == lastChar && inQueue != 0 {
        return QueueFull;
      }
      buffer[nextChar] := value;
      nextChar := nextChar + 1;
      inQueue := inQueue + 1;
      if nextChar >= buffer.Length {
        nextChar := 0;
      }
      contents := contents + [value];
      status := QueueNoError;
    }

    method GetByteFromQueue() returns (status: QueueStatus, value: byte)
      requires Valid()
      modifies this
      ensures Valid()
      ensures old(inQueue) == 0 ==> status == QueueEmpty && Contents() == old(Contents())
      ensures old(inQueue) > 0 ==> status == QueueNoError && [value] + Contents() == old(Contents())
    {
      value := 0;
      if nextChar == lastChar && inQueue == 0 {
        return QueueEmpty, value;
      }
      ghost var was := lastChar;
      value := buffer[lastChar];
      lastChar := lastChar + 1;
      inQueue := inQueue - 1;
      if lastChar >= buffer.Length {
        lastChar := 0;
      }
      assert Slot(was, 0, buffer.Length) == was;
      assert forall k :: 0 <= k < inQueue ==> Slot(lastChar, k, buffer.Length) == Slot(was, k + 1, buffer.Length);
      contents := contents[1..];
      status := QueueNoError;
    }

    method FreeSpaceInQueue() returns (n: nat)
      requires Valid()
      ensures n == Capacity() - |Contents()|
    {
      n := buffer.Length - inQueue;
    }

    method UsedSpaceInQueue() returns (n: nat)
      requires Valid()
      ensures n == |Contents()|
    {
      n := inQueue;
    }

    /** Adds as much of the data as there is room for. */
    method AddToQueue(data: seq<byte>) returns (bytesWritten: nat)
      requires Valid()
      modifies this, buffer
      ensures Valid() && bytesWritten == Min(|data|, Capacity() - |old(Contents())|)
      ensures Contents() == old(Contents()) + data[..bytesWritten]
    {
      ghost var before := Contents();
      bytesWritten := 0;
      var free := FreeSpaceInQueue();
      while free != 0 && |data| > bytesWritten
        invariant Valid() && bytesWritten <= |data| && free == Capacity() - |Contents()|
        invariant Contents() == before + data[..bytesWritten]
        decreases |data| - bytesWritten
      {
        var _ := AddByteToQueue(data[bytesWritten]);
        bytesWritten := bytesWritten + 1;
        free := FreeSpaceInQueue();
        assert data[..bytesWritten] == data[..bytesWritten - 1] + [data[bytesWritten - 1]];
      }
    }

    /** Takes out the oldest bytes, at most maxSize of them. */
    method RemoveFromQueue(maxSize: nat) returns (taken: seq<byte>)
      requires Valid()
      modifies this
      ensures Valid() && |taken| == Min(maxSize, |old(Contents())|)
      ensures taken + Contents() == old(Contents())
    {
      ghost var before := Contents();
      taken := [];
      while maxSize > |taken|
        invariant Valid() && |taken| <= maxSize
        invariant taken + Contents() == before
        decreases maxSize - |taken|
      {
        ghost var queued := Contents();
        var status, value := GetByteFromQueue();
        if status != QueueNoError {
          assert Contents() == [];
          break;
        }
        Regroup(taken, value, Contents(), queued, before);
        taken := taken + [value];
      }
    }
  }
}
