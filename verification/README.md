# Verified models of the serial, IrDA and USB drivers

Dafny models of the protocol cores of a family of drivers, each proved against what the code is for:

- **Crc, CrcCheck, CrcErrors**: the CRC-16 (RFC 1662, appendix C.2) and CRC-32 (appendix C.3) of the IrDA framer. The
  table loops compute the bit-at-a-time definition; the two acceptance tests accept exactly the buffers that end in
  their check bytes; any burst of up to 16 bits, any change of two neighbouring bytes and any odd number of flipped bits
  is detected.
- **SirFrame, SirPort**: asynchronous IrLAP framing. What a frame is, what the four-state input parser reports for an
  arbitrary byte stream, and that each undoes the other; the driver object fills its transmit buffer and runs its parser
  in place.
- **RingQueue, PortWatch, PortQueues**: the circular byte queue, the hand-made condition variable on the port's state
  word, and reading and writing through both, with other threads running between any two lock holds of `CheckQueues`.
- **FtdiReceive, FtdiCompletions**: the receive path of the FTDI driver (a byte ring backed by a ring of held USB
  buffers) and the lock-protected list its completions arrive through.
- **DictionaryMerge, CopyMerge, ConfigChoice**: the recursive merge of property dictionaries, in place and on copies
  that may fail to be made, and the choice of a USB configuration.
- **IrdaPower, ModeByte, UfiRetry**: turning IrDA on and off with failing allocations, the mode byte in front of USB
  writes, and the retries of block requests.

Code that changes objects is modelled by classes whose methods make the same changes; their contracts tie the new state
to functions of the old one, and lemmas say what those functions are good for. A step that another thread or the device
may take is a method of its own (or an event, in PortWatch), so a run is any sequence of calls. A ghost history that a
class invariant ties to the real state carries the statements about whole runs: what arrived, was handled, was handed
out, or was sent. Allocation, the USB pipes and the provider succeed or fail at will; ghost counters and
logs of what was asked and refused let a contract say that something fails only when something was refused.

Constants the sources do not define are parameters: the state bits of a port, queue sizes and water marks, the packet
size. `type byte` is an 8-bit and `type word` a 32-bit vector; counters of the source that can wrap do so in the model
(`fICRCError`, `fSessions`, the BOF count of the USB driver, the block numbers of a request).

## What turned out otherwise than expected

- `startReads` of the FTDI driver asks for a read of every input buffer when a port is acquired, although the hold ring
  survives from the session before. Whatever the USB stack answers, every buffer is in one place afterwards exactly when
  all are idle before, neither held, being read nor marked dead (`FtdiReceive.RxPath.CleanWhateverTheAnswers`).
  `FtdiReceive.OverwrittenWhileHeld` is a run in which a held packet is overwritten and the reader gets other bytes than
  arrived. Everything else about the receive path is proved from a state in which every buffer is in one place.
- `CheckQueues` of the IrDA driver samples state and queues, reads the state word again and then writes, in separate
  lock holds. `PortQueues.CheckQueuesKeepsOtherBits` gives the exact condition under which no other bit is undone, and
  `CheckQueuesUndoesAcquire` an input that undoes an acquisition. The queue bits themselves are right afterwards exactly
  when what was sampled, combined with the second reading and the state at the end, is the level by then
  (`PortQueues.QueueBitsAfter`). So a reader may be put to sleep with bytes in its queue, its wakeup lost:
  `PortQueues.SerialPort.SleepsOnByte` is such a run, and `PortQueues.SomePort` a port for it. A reader left asleep has
  an empty queue exactly when the empty bit is right, and it is when nobody else changes the queue or its bits during a
  run of `CheckQueues`; the same holds for a writer and the low-water bit.
- When IrDA takes a block only in part, `SetUpTransmit` does not show the new level of the transmit queue; it is right only
  if it lies on the same side of every mark as before (`PortQueues.SerialPort.SetUpTransmit`).
- The mode byte of the USB IrDA driver is remembered as sent even when the write fails. `ModeByte.InSyncExactly` says
  exactly when the device is in the mode the driver believes in, and `LostChange` shows a run in which it is not.
- Merging a dictionary a second time changes nothing, but it may fail where the first time succeeded:
  `DictionaryMerge.MergeableAgain` gives the exact condition, and `DictionaryMerge.FailsAgain` such a dictionary.
- Merging on copies can report success with part of the source missing: a copy that cannot be made ends the loop over the
  keys, and the reply stays that of the key before. `CopyMerge.CutShortRun` is such a run. While no copy fails, at any
  depth, a true reply means the deep merge (`CopyMerge.TrueWithCopies`); whatever fails, the target is the deep merge
  exactly when everything left undone was there before (`CopyMerge.MergedExactly`). For which two dictionaries a true
  reply can be trusted whatever fails is decided from the dictionaries alone (`CopyMerge.TrustedExactly`).
- Turning IrDA off frees the memory of the queues but keeps the count of queued bytes, and `dequeueData` tests only the
  active bit. With bytes left in the receive queue, the next read goes through a null pointer:
  `IrdaPower.IrdaDriver.DequeueData` says exactly when, and `ReadAfterPowerOff` is such a run. `enqueueData` is always
  safe, because it tests `fTerminate` (`IrdaPower.IrdaDriver.EnqueueData`).
- The floppy commands have four bytes for the block and two for the count, and the device object cuts the client's 64-bit
  numbers to that, at the first try as at every other. The device is asked for what the client wants exactly when the
  block is below 2^32 and the count below 2^16 (`UfiRetry.SentIsWanted`); a request for 65536 blocks asks for none
  (`UfiRetry.NothingIsSent`), and the client is told that its whole buffer was transferred.
- The device object reports success for a command it could not build, because there is no medium or the buffer is too
  short (in a debug build it panics instead). Such a request is never completed, and it keeps two references:
  `UfiRetry.StorageServices.AllAnswered` says exactly which requests are answered, from the block size of the medium at
  each try, and `UfiRetry.Ejected` is a run with one that is not. The branch of `doAsyncReadWrite` for a request the
  device refuses at once is never taken.
- `SetBofCount` of the USB driver is documented to return the count used; above 48 it returns -1, and the count is cut
  to 16 bits first. It divides by the current speed, so a speed of zero is outside its contract.
- `StartTransmit` of the USB driver copies data bytes only when there are control bytes too, but counts them always.
- `parseInputSIR` writes into its buffer without testing the length; `SirPort.SirPort.ParseInputSIR` therefore asks that
  the input fits, and `SirPort.ShortInputFits` says when it surely does.

## Model

| member | source | states |
|---|---|---|
| Crc.CrcConcat | AppleSCCIrDA/AppleSCCIrDA.cpp:4462-4465 | running the CRC over control bytes and then on over data bytes is running it over both together, from any register |
| Crc.BitStepLinear | AppleSCCIrDA/AppleSCCIrDA.cpp:633-640 | one shift of the register is linear over XOR, for any polynomial |
| Crc.ShiftsLinear | AppleSCCIrDA/AppleSCCIrDA.cpp:633-640 | so is any number of shifts |
| Crc.EightShiftsOfClear | AppleSCCIrDA/AppleSCCIrDA.cpp:686-697 | a register with a clear low byte only moves down in eight shifts, whatever the polynomial |
| Crc.TableByteIsEightShifts | AppleSCCIrDA/AppleSCCIrDA.cpp:686-721 | one table look-up does to any register and byte what eight single-bit shifts do |
| Crc.GenCrcTable | AppleSCCIrDA/AppleSCCIrDA.cpp:625-670 | the filled table holds, for every byte, that byte shifted eight times; both polynomials |
| Crc.UpdateCrc | AppleSCCIrDA/AppleSCCIrDA.cpp:686-721 | the table-driven loop returns the register of the bit-at-a-time definition, for any start and any buffer |
| CrcCheck.ShiftsInjective | AppleSCCIrDA/AppleSCCIrDA.cpp:657-670 | different registers stay different under any number of shifts |
| CrcCheck.CrcStays | AppleSCCIrDA/AppleSCCIrDA.cpp:713-721 | the 16-bit register never leaves 16 bits |
| CrcCheck.CrcInjective | AppleSCCIrDA/AppleSCCIrDA.cpp:713-721 | running the same bytes from two registers never brings them together: the update is a bijection |
| CrcCheck.TrailingWord | AppleSCCIrDA/AppleSCCIrDA.cpp:686-697 | up to four bytes at the end act like one word put into the register at once |
| CrcCheck.GoodResidue16 | AppleSCCIrDA/AppleSCCIrDA.cpp:759-771 | the complement of a 16-bit check value runs into the good FCS 0xF0B8 |
| CrcCheck.GoodResidue32 | AppleSCCIrDA/AppleSCCIrDA.cpp:607-608 | all ones run into the constant the driver compares with |
| CrcCheck.CheckCrc16 | AppleSCCIrDA/AppleSCCIrDA.cpp:759-771 | accepts exactly the buffers of two bytes or more that end in the complemented CRC of the rest, low byte first |
| CrcCheck.CheckCrc32 | AppleSCCIrDA/AppleSCCIrDA.cpp:736-744 | comparing the final register with one constant accepts exactly the buffers that end in the complemented CRC of the rest, low byte first |
| CrcCheck.Residue16 | AppleSCCIrDA/AppleSCCIrDA.cpp:759-771 | ending in the check bytes is the same as leaving the register over the whole buffer at 0xF0B8 |
| CrcCheck.Fcs16StartsWithOnes | AppleSCCIrDA/AppleSCCIrDA.cpp:765-766 | starting with all ones means: the check bytes are those of a register that starts clear, over the same bytes with the first two inverted |
| CrcCheck.LeadingZeroShows16 | AppleSCCIrDA/AppleSCCIrDA.cpp:765-766 | a zero byte in front of a payload always changes its check bytes |
| CrcCheck.TooShort32 | AppleSCCIrDA/AppleSCCIrDA.cpp:736-744 | no buffer shorter than four bytes is accepted, although the code does not test the length |
| CrcCheck.Residue32 | AppleSCCIrDA/AppleSCCIrDA.cpp:736-744 | for every buffer, ending in the check bytes is the same as reaching the valid residue |
| CrcCheck.Fcs32StartsWithOnes | AppleSCCIrDA/AppleSCCIrDA.cpp:736-744 | the same for the longer check, over the first four bytes inverted |
| CrcCheck.LeadingZeroShows32 | AppleSCCIrDA/AppleSCCIrDA.cpp:736-744 | here, too, a leading zero byte changes the check bytes |
| CrcErrors.SerialIsRegister | AppleSCCIrDA/AppleSCCIrDA.cpp:657-670 | feeding single bits, low bit first, gives the register of the bytewise CRC |
| CrcErrors.BitOfByte | AppleSCCIrDA/AppleSCCIrDA.cpp:686-697 | bit k of byte i is bit 8 i + k of the bit string |
| CrcErrors.BitsInjective | AppleSCCIrDA/AppleSCCIrDA.cpp:686-697 | different buffers of one length have different bit strings |
| CrcErrors.AcceptedDifference | AppleSCCIrDA/AppleSCCIrDA.cpp:759-771 | two accepted buffers of one length differ by a bit string that leaves an empty register empty |
| CrcErrors.BurstDetected | AppleSCCIrDA/AppleSCCIrDA.cpp:759-771 | of two different buffers whose bits differ only inside 16 consecutive positions, at most one is accepted, wherever the burst lies |
| CrcErrors.NeighboursDetected | AppleSCCIrDA/AppleSCCIrDA.cpp:759-771 | of two different buffers that agree outside two neighbouring bytes, at most one is accepted |
| CrcErrors.OddErrorsDetected | AppleSCCIrDA/AppleSCCIrDA.cpp:759-771 | of two buffers that differ in an odd number of bits, at most one is accepted |
| SirFrame.ParseConcat | AppleSCCIrDA/AppleSCCIrDA.cpp:4253-4354 | how received bytes are cut into chunks makes no difference to what is reported or to the parser |
| SirFrame.NoDelimiterInside | AppleSCCIrDA/AppleSCCIrDA.cpp:4494-4520 | a stuffed body contains neither 0xC0 nor 0xC1 |
| SirFrame.WireBytes | AppleSCCIrDA/AppleSCCIrDA.cpp:4494-4520 | which bytes are escaped, and how, as numbers |
| SirFrame.FrameOnTheWire | AppleSCCIrDA/AppleSCCIrDA.cpp:4418-4479 | a frame is any number of 0xff, a 0xc0, a body without 0xc0 and 0xc1, and a 0xc1 |
| SirFrame.FrameLength | AppleSCCIrDA/AppleSCCIrDA.cpp:4418-4479 | a frame takes at most twice its payload, six bytes and the padding, and fits the transmit buffer when the padding and twice the payload do not exceed 4130 |
| SirFrame.ReadBody | AppleSCCIrDA/AppleSCCIrDA.cpp:4253-4354 | stuffed bytes are read back unstuffed, with nothing reported, from both states inside a frame |
| SirFrame.RoundTrip | AppleSCCIrDA/AppleSCCIrDA.cpp:4253-4354 | reading any frame of a non-empty payload delivers exactly that payload, once, with no error, and leaves the parser at rest |
| SirFrame.ParseKeepsTidy | AppleSCCIrDA/AppleSCCIrDA.cpp:4253-4354 | over any input, nothing is held while the parser looks for a BOF or has just seen one |
| SirFrame.FirstFrame | AppleSCCIrDA/AppleSCCIrDA.cpp:4253-4354 | exactly what is reported when a frame arrives in any of the four states with any partial data; afterwards the parser is always at rest |
| SirFrame.SelfSynchronises | AppleSCCIrDA/AppleSCCIrDA.cpp:4253-4354 | after any garbage, at most the first frame is misread; every later frame is delivered intact and in order |
| SirFrame.UnstuffStuffed | AppleSCCIrDA/AppleSCCIrDA.cpp:4494-4520 | unstuffing undoes stuffing |
| SirFrame.ReportsAreJustified | AppleSCCIrDA/AppleSCCIrDA.cpp:4306-4333 | for an arbitrary stream, each report belongs to its own stretch between a BOF and an EOF, in order and without overlap: a delivered payload is non-empty and is followed by its check bytes in the unstuffed stretch, and an error is counted only for one whose check bytes are wrong |
| SirFrame.DelimitedIsJudged | AppleSCCIrDA/AppleSCCIrDA.cpp:4306-4333 | every stretch that unstuffs is judged by its length and its check bytes, and by nothing else |
| SirPort.ShortInputFits | AppleSCCIrDA/AppleSCCIrDA.cpp:4290-4294 | a chunk no longer than the room left in the buffer never overruns it |
| SirPort.SirPort.ParseInputReset | AppleSCCIrDA/AppleSCCIrDA.cpp:4387-4395 | puts the parser to rest |
| SirPort.SirPort.EndFrame | AppleSCCIrDA/AppleSCCIrDA.cpp:4306-4333 | hands over the payload without its CRC if there is an IrDA object, or counts one error in the 32-bit counter, as the held bytes deserve |
| SirPort.SirPort.ParseInputSIR | AppleSCCIrDA/AppleSCCIrDA.cpp:4253-4354 | the loop over state, length and buffer reports and counts exactly what the parser function says, as long as the input fits the buffer |
| SirPort.SirPort.SIRStuff | AppleSCCIrDA/AppleSCCIrDA.cpp:4494-4520 | writes one stuffed byte, advances pointer and length alike, and touches nothing behind it |
| SirPort.SirPort.PrepareBufferForTransmit | AppleSCCIrDA/AppleSCCIrDA.cpp:4418-4479 | the buffer begins with exactly the frame of control bytes and data bytes, the result is its length, and nothing behind it changes |
| SirPort.SirPort.StartTransmit | AppleSCCIrDA/AppleSCCIrDA.cpp:3810-3835 | gives up a packet being received; fails exactly when there is nothing to send, and otherwise transmits one frame |
| RingQueue.CirQueue.AddByteToQueue | AppleSCCIrDA/AppleSCCIrDA.cpp:991-1019 | appends one byte to the sequence the ring stands for, or reports it full and changes nothing |
| RingQueue.CirQueue.GetByteFromQueue | AppleSCCIrDA/AppleSCCIrDA.cpp:1033-1060 | takes the oldest byte, or reports the queue empty |
| RingQueue.CirQueue.FreeSpaceInQueue | AppleSCCIrDA/AppleSCCIrDA.cpp:1179-1193 | capacity less what is queued |
| RingQueue.CirQueue.AddToQueue | AppleSCCIrDA/AppleSCCIrDA.cpp:1126-1138 | appends as long a prefix of the data as there is room for, and returns its length |
| RingQueue.CirQueue.RemoveFromQueue | AppleSCCIrDA/AppleSCCIrDA.cpp:1152-1165 | removes the oldest bytes, as many as asked for or all there are |
| PortWatch.ApplyKeepsSound | AppleSCCIrDA/AppleSCCIrDA.cpp:4006-4141 | each lock-held step of any thread keeps this: whoever sleeps unwoken is registered in the shared mask and waits for nothing that is there, in spite of the mask being cleared by every leaving thread and of a bit set without a signal |
| PortWatch.RunKeepsSound | AppleSCCIrDA/AppleSCCIrDA.cpp:4006-4141 | so does any interleaving of state changes, watchers, wakeups, interrupts before or after a wakeup, and threads leaving or being cleared away because the driver is gone |
| PortWatch.NoLostWakeup | AppleSCCIrDA/AppleSCCIrDA.cpp:4006-4141 | from a fresh port on, in every reachable state, no sleeping thread has missed its condition |
| PortWatch.StormEnds | AppleSCCIrDA/AppleSCCIrDA.cpp:4118-4133 | although a leaving thread wakes all others, n threads resume at most n (n + 2) times before all are asleep for good or gone |
| PortWatch.CalmIsRight | AppleSCCIrDA/AppleSCCIrDA.cpp:4053-4141 | and then nobody sleeps through what it waits for |
| PortWatch.ReplyMeans | AppleSCCIrDA/AppleSCCIrDA.cpp:4071-4096 | what a watcher is told, in its own terms: an error exactly when it did not ask about the port itself and the port is inactive, success exactly when one of its bits matches |
| PortWatch.MatchIsEquality | AppleSCCIrDA/AppleSCCIrDA.cpp:4078-4083 | a single bit matches exactly when it has the value asked for |
| PortWatch.ChangeMeans | AppleSCCIrDA/AppleSCCIrDA.cpp:4015-4017 | a change sets the masked bits and keeps the others |
| PortWatch.TouchMeans | AppleSCCIrDA/AppleSCCIrDA.cpp:4016-4028 | and it wakes exactly when some watched bit is different afterwards |
| PortWatch.FtdiWantedIsWanted | IOUSBFamily_Decompiled/AppleUSBFTDI.c:2631-2720 | the FTDI driver's request, made with constants, is the general one |
| PortWatch.FtdiSetStateKeepsSound | IOUSBFamily_Decompiled/AppleUSBFTDI.c:2516-2580 | its guarded state change keeps the invariant, and changes nothing when refused |
| PortWatch.WatchedPort.ChangeState | AppleSCCIrDA/AppleSCCIrDA.cpp:4006-4034 | changes the masked bits and wakes all sleepers exactly when a watched bit changed |
| PortWatch.WatchedPort.PrivateWatchState | AppleSCCIrDA/AppleSCCIrDA.cpp:4053-4112 | the way in: the silent bit, the request, and the first turn of the loop |
| PortWatch.WatchedPort.Resume | AppleSCCIrDA/AppleSCCIrDA.cpp:4078-4133 | a woken thread tests again: it sleeps again with its bits in the mask, or leaves with the mask empty and everyone else woken |
| PortWatch.WatchedPort.ResumeInterrupted | AppleSCCIrDA/AppleSCCIrDA.cpp:4118-4133 | an interrupted thread, woken as well or not, leaves, clears the mask, makes the others register again, and its own state word stays as it was |
| PortWatch.WatchedPort.ResumeGone | IOUSBFamily_Decompiled/AppleUSBFTDI.c:2707-2712 | so does a woken thread that finds the driver gone |
| PortWatch.WatchedPort.ClearSleepingThreads | IOUSBFamily_Decompiled/AppleUSBFTDI.c:4060-4072 | a driver that goes away clears the mask and wakes everyone, if anyone sleeps |
| PortQueues.ShowIsShown | AppleSCCIrDA/AppleSCCIrDA.cpp:1289-1345 | after looking at a queue, its four bits say exactly how full it is |
| PortQueues.ShowElsewhere | AppleSCCIrDA/AppleSCCIrDA.cpp:1289-1345 | and no other bit is touched |
| PortQueues.CheckQueuesKeepsOtherBits | AppleSCCIrDA/AppleSCCIrDA.cpp:1276-1351 | exactly when the separate lock holds leave the other bits of the state word as they found them |
| PortQueues.CheckQueuesUndoesAcquire | AppleSCCIrDA/AppleSCCIrDA.cpp:1276-1351 | an acquisition between the first and the second reading is undone, whatever was sampled of the queues |
| PortQueues.AppliedBit | AppleSCCIrDA/AppleSCCIrDA.cpp:1345-1346 | what becomes of any one bit: the computed value where it differs from the second reading, and otherwise whatever it is by then |
| PortQueues.QueueBitsAfter | AppleSCCIrDA/AppleSCCIrDA.cpp:1276-1351 | what the bits of both queues say afterwards, from the sample, the second reading and the state at the end, whatever other threads did |
| PortQueues.RightIfLevelStays | AppleSCCIrDA/AppleSCCIrDA.cpp:1276-1351 | with the bits left alone since the second reading, they are right exactly when the level is on the same side of every mark as when it was sampled |
| PortQueues.ArrivalIsHidden | AppleSCCIrDA/AppleSCCIrDA.cpp:1276-1351 | bytes that arrive in an empty queue, and are shown, before the second reading are hidden again |
| PortQueues.UndisturbedCheckQueues | AppleSCCIrDA/AppleSCCIrDA.cpp:1345-1351 | with nobody in between, the state becomes what was worked out |
| PortQueues.ReaderIsWoken | AppleSCCIrDA/AppleSCCIrDA.cpp:3680-3690 | while the bits show a queue with bytes in it, no thread that waits for it not to be empty is left asleep |
| PortQueues.WriterIsWoken | AppleSCCIrDA/AppleSCCIrDA.cpp:3615-3619 | while they show a queue below its low-water mark, no thread that waits for that is left asleep |
| PortQueues.SerialPort.CheckQueues | AppleSCCIrDA/AppleSCCIrDA.cpp:1276-1351 | with anything happening after each of its readings: exactly when each queue is shown rightly and exactly which other bits survive; both queues are shown rightly when nobody touches them and their bits meanwhile; the wakeup invariant is kept |
| PortQueues.SerialPort.WorkOutQueues | AppleSCCIrDA/AppleSCCIrDA.cpp:1284-1345 | each of the four levels is that of its own moment |
| PortQueues.SerialPort.AddRxBytes | AppleSCCIrDA/AppleSCCIrDA.cpp:1367-1375 | queues what fits, and shows the new level unless another thread interferes |
| PortQueues.SerialPort.Watch | AppleSCCIrDA/AppleSCCIrDA.cpp:3085-3106 | what happens to a thread in `watchState` while others receive, transmit and change bits: it is asleep with its request, not interrupted, and not woken if it had its turn last; or it is out and told of the state it left at, or was interrupted |
| PortQueues.SerialPort.WaitForMore | AppleSCCIrDA/AppleSCCIrDA.cpp:3680-3702 | the loop of a reader, over any sequence of sleeps, interruptions and interference |
| PortQueues.SerialPort.DequeueData | AppleSCCIrDA/AppleSCCIrDA.cpp:3654-3709 | hands out the next bytes of what arrived in order and without a gap, at once all there are room for; succeeds exactly with between min and size of them; the credit returned is for exactly the bytes removed; a watch that fails ends it, and only that; a reader left asleep and unwoken has an empty queue exactly when the empty bit is right, which it is without interference in `CheckQueues`, and then each pass of the loop brings at least one byte and all there are room for |
| PortQueues.SerialPort.SleepsOnByte | AppleSCCIrDA/AppleSCCIrDA.cpp:3654-3690 | a run in which a whole `Add_RXBytes` falls between the sample and the second reading of a reader, and the reader goes to sleep on a queue with a byte in it |
| PortQueues.SerialPort.HandOver | AppleSCCIrDA/AppleSCCIrDA.cpp:3763-3776 | moves as many bytes as IrDA has room for from the queue to IrDA, losing none; the busy bit has been on, so that whoever waits for it is woken, and is off again, and no other bit is changed |
| PortQueues.SerialPort.SetUpTransmit | AppleSCCIrDA/AppleSCCIrDA.cpp:3723-3793 | succeeds exactly when there is nothing to send or IrDA takes the whole block; bytes reach IrDA in the order they were queued; after a block taken in part only the busy bit is touched, and the old display is right exactly if no mark was crossed |
| PortQueues.SerialPort.EnqueueData | AppleSCCIrDA/AppleSCCIrDA.cpp:3583-3637 | what counts as enqueued follows what went before without a gap; the transmitter is started: as much of the queue as IrDA takes at once is handed over in the first pass, and the levels are shown afterwards; a sleeping caller is told of success only when all of it is enqueued, and of failure exactly when a watch failed; a writer left asleep and unwoken has a queue that is not low exactly when the low-water bit is right |
| FtdiReceive.PoolSize | IOUSBFamily_Decompiled/AppleUSBFTDI.c:1173-1205 | how many input buffers are used, case by case: never more than 64, and 4 if nothing is said |
| FtdiReceive.HoldRing.Oldest | IOUSBFamily_Decompiled/AppleUSBFTDI.c:607-607 | the place at the head holds the oldest held buffer, or nothing if none is held, even when the indices meet |
| FtdiReceive.HoldRing.Put | IOUSBFamily_Decompiled/AppleUSBFTDI.c:728-733 | the buffer becomes the newest |
| FtdiReceive.HoldRing.ClearOldest | IOUSBFamily_Decompiled/AppleUSBFTDI.c:619-623 | the oldest goes, the others keep their order |
| FtdiReceive.RxPath.AddToRxQueue | IOUSBFamily_Decompiled/AppleUSBFTDI.c:401-438 | all bytes of a packet behind its two status bytes are queued, or none; none exactly when there are none or they do not fit |
| FtdiReceive.RxPath.CheckHold | IOUSBFamily_Decompiled/AppleUSBFTDI.c:602-626 | moves held packets into the byte ring without changing the stream, until none is held or the oldest does not fit; each of their buffers is asked for once, and none is lost |
| FtdiReceive.RxPath.MeetingMeansEmpty | IOUSBFamily_Decompiled/AppleUSBFTDI.c:717-719 | while a completion is being processed the hold ring has room, and its indices meet exactly when nothing is held |
| FtdiReceive.RxPath.DeviceWrites | IOUSBFamily_Decompiled/AppleUSBFTDI.c:735-742 | what the device writes into a buffer it was given never touches bytes on their way to the reader |
| FtdiReceive.RxPath.DataReadComplete | IOUSBFamily_Decompiled/AppleUSBFTDI.c:698-760 | a successful completion with data adds exactly its bytes after the two status bytes to the end of the stream, every other completion adds nothing; afterwards the buffer is in exactly one place, read again, held or marked dead, unless the pipe is gone |
| FtdiReceive.RxPath.Take | IOUSBFamily_Decompiled/AppleUSBFTDI.c:3668-3672 | takes as many bytes of the ring as are asked for or there are, the next of the stream; then held packets move on: they never wait behind an empty ring; no buffer is lost |
| FtdiReceive.RxPath.ResurrectRead | IOUSBFamily_Decompiled/AppleUSBFTDI.c:4076-4120 | exactly the dead buffers are offered again, once each; that changes nothing of the stream, puts no buffer into two places and loses none |
| FtdiReceive.AskedWhileHeld | IOUSBFamily_Decompiled/AppleUSBFTDI.c:2136-2148 | asking for a read of a held buffer puts it into two places, whatever the answer |
| FtdiReceive.RxPath.StartReads | IOUSBFamily_Decompiled/AppleUSBFTDI.c:2103-2160 | asks for a read of every buffer; from the answers and from what each buffer is used for before, exactly when every buffer is in one place afterwards |
| FtdiReceive.RxPath.CleanWhateverTheAnswers | IOUSBFamily_Decompiled/AppleUSBFTDI.c:2103-2160 | they are, whatever the answers, exactly when all buffers are idle before |
| FtdiReceive.OverwrittenWhileHeld | IOUSBFamily_Decompiled/AppleUSBFTDI.c:2069-2160 | a run over a release and a new acquisition in which a held packet is overwritten and the reader gets a byte that never arrived |
| FtdiReceive.RxPath.DequeueData | IOUSBFamily_Decompiled/AppleUSBFTDI.c:3645-3720 | over any completions and resurrected reads while it sleeps, a reader gets the next part of the stream, each time all there is or it has room for; it succeeds exactly when it has its minimum, and fails exactly at a failed watch; everything that ever arrived is what was handed out followed by what is on its way |
| FtdiCompletions.CompletionList.Append | IOUSBFamily_Decompiled/AppleUSBFTDI.c:892-898 | under the lock, the node becomes the last of the shared chain, and the tail pointer is that node |
| FtdiCompletions.CompletionList.UsbComplete | IOUSBFamily_Decompiled/AppleUSBFTDI.c:872-904 | a completion is recorded once, behind all earlier ones, with its own status; or dropped when none are taken |
| FtdiCompletions.CompletionList.Grab | IOUSBFamily_Decompiled/AppleUSBFTDI.c:647-651 | the whole shared chain becomes the batch, and the shared list is empty |
| FtdiCompletions.CompletionList.TakeNext | IOUSBFamily_Decompiled/AppleUSBFTDI.c:657-658 | the oldest unhandled completion is next, and its node belongs to the work loop alone from then on |
| FtdiCompletions.CompletionList.Handle | IOUSBFamily_Decompiled/AppleUSBFTDI.c:659-681 | handles one report; whatever becomes of its node, completed again or freed, both lists stay as they are |
| FtdiCompletions.CompletionList.HandleCompletions | IOUSBFamily_Decompiled/AppleUSBFTDI.c:629-691 | with completions arriving at any moment, every one is handled exactly once in arrival order, and at the end all that arrived are handled |
| DictionaryMerge.MergedOnAll | IOUSBFamily_Decompiled/AppleUSBMergeNub.c:450-571 | merging key by key gives the deep merge, and succeeds where a merge can |
| DictionaryMerge.MergeTwice | IOUSBFamily_Decompiled/AppleUSBMergeNub.c:450-571 | merging the same source again changes nothing |
| DictionaryMerge.MergeableAgain | IOUSBFamily_Decompiled/AppleUSBMergeNub.c:487-498 | a second merge succeeds exactly when no dictionary of the source is empty, at any depth |
| DictionaryMerge.FailsAgain | IOUSBFamily_Decompiled/AppleUSBMergeNub.c:487-498 | an empty dictionary under a new key merges once and not twice |
| DictionaryMerge.PartlyAgain | IOUSBFamily_Decompiled/AppleUSBMergeNub.c:450-571 | and leaves everything as it is however far it gets |
| DictionaryMerge.MergedPath | IOUSBFamily_Decompiled/AppleUSBMergeNub.c:450-571 | what is found along any path of keys: what the source has where the source decides, and what the target had everywhere else |
| DictionaryMerge.Dict.SetObject | IOUSBFamily_Decompiled/AppleUSBMergeNub.c:517-524 | sets one key or fails and changes nothing |
| CopyMerge.TrueWithCopies | AppleUSBMergeNub/Classes/AppleUSBMergeNub.cpp:261-379 | without a failed copy at any depth, the reply is true exactly when every key can be set and no empty dictionary meets a dictionary, and then the target is the deep merge |
| CopyMerge.CoveredIsMerged | AppleUSBMergeNub/Classes/AppleUSBMergeNub.cpp:303-366 | merging changes nothing exactly when the target has everything the source has |
| CopyMerge.MergedExactly | AppleUSBMergeNub/Classes/AppleUSBMergeNub.cpp:316-370 | whatever fails and in whatever order the keys come, the target is the deep merge exactly when everything left undone was there before |
| CopyMerge.TrustedExactly | AppleUSBMergeNub/Classes/AppleUSBMergeNub.cpp:316-379 | for which two dictionaries a true reply means the deep merge in every run: unless, at some depth, a key that needs a copy can come after another that can be done while something else is missing |
| CopyMerge.AgainByCopies | AppleUSBMergeNub/Classes/AppleUSBMergeNub.cpp:303-370 | a second merge of the same source changes nothing, however far it gets |
| CopyMerge.MergeKey | AppleUSBMergeNub/Classes/AppleUSBMergeNub.cpp:303-371 | one key: set, refused, or not set, or a copy that cannot be made, which leaves the reply as it is |
| CopyMerge.MergeOnCopies | AppleUSBMergeNub/Classes/AppleUSBMergeNub.cpp:256-379 | the reply and the target are those of a possible run, and every possible run can be had; after a failed copy the reply is true exactly when some key was done before it; no other dictionary is changed |
| CopyMerge.CutShortRun | AppleUSBMergeNub/Classes/AppleUSBMergeNub.cpp:316-321 | a run that reports success with a key of the source missing |
| DictionaryMerge.MergeInPlace | IOUSBFamily_Decompiled/IOUSBUserClient.c:375-450 | the in-place form succeeds exactly when no empty dictionary meets a dictionary and every key, at any depth, can be set; it then comes to the deep merge, when no dictionary is shared; keys the source lacks stay as they were even when it fails |
| ConfigChoice.FromPreferredConfiguration | IOUSBFamily_Decompiled/IOUSBCompositeDriver.c:1569-1640 | finds the first configuration with the number the driver prefers or, where it prefers none, the device; reports an unreadable one met before it; a preference of zero finds nothing |
| ConfigChoice.HighestPriority | IOUSBFamily_Decompiled/IOUSBCompositeDriver.c:1711-1731 | no entry that counts has a higher priority, and none above ten counts |
| ConfigChoice.TryEntry | IOUSBFamily_Decompiled/IOUSBCompositeDriver.c:1832-1861 | the first configuration with the wanted interface, or an unreadable one before it |
| ConfigChoice.FromPreferredInterface | IOUSBFamily_Decompiled/IOUSBCompositeDriver.c:1645-1883 | the winner is the first configuration to meet an entry, and every entry of a lower priority number, or earlier in the list with the same, is met by none |
| ConfigChoice.FromPowerRequirements | IOUSBFamily_Decompiled/IOUSBCompositeDriver.c:1888-1944 | the first of the configurations with the greatest need that can be met, in the units of the speed; fails for want of power exactly when no need can be met |
| ConfigChoice.BestIsUnique | IOUSBFamily_Decompiled/IOUSBCompositeDriver.c:1479-1562 | there is never more than one right configuration |
| ConfigChoice.OwnDecides | IOUSBFamily_Decompiled/IOUSBCompositeDriver.c:1582-1597 | where the driver has a property of its own, what the device says makes no difference to what is right |
| ConfigChoice.DeviceStandsIn | IOUSBFamily_Decompiled/IOUSBCompositeDriver.c:1582-1597 | where it has none, the device's stands in for it |
| ConfigChoice.ZeroIsNoPreference | IOUSBFamily_Decompiled/IOUSBCompositeDriver.c:1598-1601 | an own property of zero is no preference at all, and not even the device's counts |
| ConfigChoice.OwnNumberIsChosen | IOUSBFamily_Decompiled/IOUSBCompositeDriver.c:1569-1640 | a preferred number that is there is chosen, whatever else would count |
| ConfigChoice.AbsentIsAny | IOUSBFamily_Decompiled/IOUSBCompositeDriver.c:1790-1840 | an entry without a subclass or protocol asks for any |
| ConfigChoice.SuperSpeedIsDearer | IOUSBFamily_Decompiled/IOUSBCompositeDriver.c:1920-1922 | what can be met at super speed can be met at any other, with a quarter of the supply |
| ConfigChoice.FindPreferredConfiguration | IOUSBFamily_Decompiled/IOUSBCompositeDriver.c:1479-1562 | for a device that is there, succeeds exactly when there is a right configuration, and returns it |
| IrdaPower.IrdaDriver.AllocateRingBuffer | AppleSCCIrDA/AppleSCCIrDA.cpp:3941-3959 | a queue has memory afterwards, or the allocation failed |
| IrdaPower.IrdaDriver.FreeRingBuffer | AppleSCCIrDA/AppleSCCIrDA.cpp:3915-3927 | its memory is freed if it has any, with the size it was allocated with; the count of queued bytes stays |
| IrdaPower.RemoveFromRing | AppleSCCIrDA/AppleSCCIrDA.cpp:1152-1165 | taking bytes out is safe exactly when there is memory, or nothing is queued, or nothing is asked for |
| IrdaPower.AddToRing | AppleSCCIrDA/AppleSCCIrDA.cpp:1126-1138 | putting bytes in without memory is safe unless the queue is empty but of some size; if anything is queued all of the data is counted as written and none is |
| IrdaPower.IrdaDriver.SetupDevice | AppleSCCIrDA/AppleSCCIrDA.cpp:2621-2701 | asks for the port, the clocks and the line settings in that order, fails exactly when one is refused, and holds the port exactly when it succeeded |
| IrdaPower.IrdaDriver.ConfigureDevice | AppleSCCIrDA/AppleSCCIrDA.cpp:2715-2847 | everything is there, or something was refused, all buffers are given back and no block is lost |
| IrdaPower.IrdaDriver.SetIrDAState | AppleSCCIrDA/AppleSCCIrDA.cpp:1623-1695 | IrDA is as asked for, or could not be turned on and is off; on means all is there, off means nothing is |
| IrdaPower.IrdaDriver.CheckIrDAState | AppleSCCIrDA/AppleSCCIrDA.cpp:1591-1609 | unless something is refused, IrDA is on exactly when the driver is started, the power is on and a user client or a session is there; it is never on otherwise |
| IrdaPower.IrdaDriver.Start | AppleSCCIrDA/AppleSCCIrDA.cpp:1875-1978 | a started driver has its power on, its port record allocated and cleared, and IrDA off; a start that fails in the power set-up leaves the power state on |
| IrdaPower.IrdaDriver.SetIrDAUserClientState | AppleSCCIrDA/AppleSCCIrDA.cpp:1569-1577 | records the wish; with the driver started and the power on, asking for IrDA succeeds exactly when it is on afterwards |
| IrdaPower.IrdaDriver.AcquirePort | AppleSCCIrDA/AppleSCCIrDA.cpp:2891-2965 | a session more, modulo 256, exactly when the port was free; IrDA is then as wanted unless something is refused |
| IrdaPower.IrdaDriver.ReleasePort | AppleSCCIrDA/AppleSCCIrDA.cpp:2979-3002 | a session less; IrDA is then as wanted, and off when nobody is left |
| IrdaPower.IrdaDriver.SetPowerState | AppleSCCIrDA/AppleSCCIrDA.cpp:2424-2441 | with the power off, nothing is allocated and the provider is let go, but the counts of queued bytes and the active bit are as before; with the power back on, IrDA is as wanted unless something is refused |
| IrdaPower.IrdaDriver.DequeueData | AppleSCCIrDA/AppleSCCIrDA.cpp:3654-3672 | exactly when the first removal of a read goes through a null pointer: the port is active, IrDA is off, bytes were left, and some are asked for |
| IrdaPower.IrdaDriver.EnqueueData | AppleSCCIrDA/AppleSCCIrDA.cpp:3590-3606 | the first addition of a write is always safe, and what it counts is queued |
| IrdaPower.IrdaDriver.ReadAfterPowerOff | AppleSCCIrDA/AppleSCCIrDA.cpp:2424-2441 | a run in which it happens: bytes are received, the power goes off, and the port is read |
| IrdaPower.IrdaDriver.Stop | AppleSCCIrDA/AppleSCCIrDA.cpp:2029-2056 | nothing is left, and as many blocks have been freed as were ever allocated, each while it was live |
| ModeByte.CombinedApart | AppleUSBIrDA/AppleUSBIrDA.cpp:3202-3203 | the two codes can be read back from the mode byte, and it is never zero |
| ModeByte.InSyncExactly | AppleUSBIrDA/AppleUSBIrDA.cpp:3202-3205 | over any run of writes, lost or not, exactly when the device is in the mode the driver believes in |
| ModeByte.AlwaysInSync | AppleUSBIrDA/AppleUSBIrDA.cpp:2127-2130 | while writes arrive, the device is in the driver's mode at every write, whatever mode it started in |
| ModeByte.LostChange | AppleUSBIrDA/AppleUSBIrDA.cpp:3202-3205 | a run with one lost write after which the device stays in its old mode |
| ModeByte.IrdaUsb.StartIrDA | AppleUSBIrDA/AppleUSBIrDA.cpp:2127-2130 | the mode is 9600 with the code for 48 BOFs, and nothing is taken for known of the device |
| ModeByte.IrdaUsb.SetBofCount | AppleUSBIrDA/AppleUSBIrDA.cpp:785-818 | the code set stands for the least supported count that is enough at 115200, or for 48 with the reply -1 |
| ModeByte.GreaterIsFewer | AppleUSBIrDA/AppleUSBIrDA.cpp:785-818 | a greater BOF code stands for fewer BOFs, from 48 down to none |
| ModeByte.SameDuration | AppleUSBIrDA/AppleUSBIrDA.cpp:785-818 | a count is adjusted so that the BOFs take as long at 115200 as asked for at the current rate |
| ModeByte.CutTo16 | AppleUSBIrDA/AppleUSBIrDA.cpp:785-818 | and cut to a signed 16-bit number |
| ModeByte.IrdaUsb.SetSpeed | AppleUSBIrDA/AppleUSBIrDA.cpp:832-894 | one write of one byte announces the new mode |
| ModeByte.RatesInOrder | AppleUSBIrDA/AppleUSBIrDA.cpp:832-894 | the nine supported rates have the codes 1 to 9, slowest first, and no other has one |
| ModeByte.FasterIsGreater | AppleUSBIrDA/AppleUSBIrDA.cpp:832-894 | a faster rate has a greater code |
| ModeByte.IrdaUsb.StartTransmit | AppleUSBIrDA/AppleUSBIrDA.cpp:3192-3229 | the length and every byte of what is sent, including the case in which data bytes are counted but not copied |
| ModeByte.IrdaUsb.InSync | AppleUSBIrDA/AppleUSBIrDA.cpp:3192-3229 | in every state of the driver in which no write was lost since the start, the device is in its mode |
| UfiRetry.SentIsWanted | IOUSBMassStorageClass/IOUSBMassStorageUFISubclass.cpp:1733-1760 | the device is asked for the client's blocks exactly when their numbers fit the command |
| UfiRetry.NothingIsSent | IOUSBMassStorageClass/IOUSBMassStorageUFISubclass.cpp:1829-1855 | a request for 65536 blocks asks for none |
| UfiRetry.CutTwice | IOUSBMassStorageClass/IOUFIStorageServices.cpp:419-426 | numbers kept in 32 bits for the retries lose nothing that the command would not have lost |
| UfiRetry.BuiltWhenItFits | IOUSBMassStorageClass/IOUSBMassStorageUFISubclass.cpp:2643-2740 | while the byte count fits into 32 bits, a command is built exactly when there is a medium and the buffer holds all its blocks |
| UfiRetry.BuiltBecauseItWraps | IOUSBMassStorageClass/IOUSBMassStorageUFISubclass.cpp:2643-2740 | beyond that the count wraps, and a command for 4 GB is built for any buffer |
| UfiRetry.StorageServices.AsyncReadWrite | IOUSBMassStorageClass/IOUSBMassStorageUFISubclass.cpp:1913-1953 | sends a command exactly when it can be built, and reports success either way |
| UfiRetry.StorageServices.DoAsyncReadWrite | IOUSBMassStorageClass/IOUFIStorageServices.cpp:369-436 | exactly which requests are accepted; an accepted one has been tried once, and the bus has it exactly when its command could be built |
| UfiRetry.StorageServices.AsyncReadWriteComplete | IOUSBMassStorageClass/IOUFIStorageServices.cpp:280-338 | a request is tried again exactly while its error is not final and tries are left, and otherwise answered with what this completion said |
| UfiRetry.StorageServices.TaskComplete | IOUSBMassStorageClass/IOUSBMassStorageUFISubclass.cpp:137-182 | of a good command the client is told the length of its buffer, of a bad one after the last try an error |
| UfiRetry.StorageServices.TriesAlike | IOUSBMassStorageClass/IOUFIStorageServices.cpp:280-338 | over every run, each of the one to five tries of a request asks the device for the same blocks |
| UfiRetry.StorageServices.AllAnswered | IOUSBMassStorageClass/IOUFIStorageServices.cpp:51-53 | once the bus has nothing in hand, a request has been answered and freed exactly when at each try there was a medium whose blocks fit the buffer, and as many references are left as requests without an answer |
| UfiRetry.Ejected | IOUSBMassStorageClass/IOUSBMassStorageUFISubclass.cpp:1733-1770 | a run in which a request is never answered: its first try fails and the medium is gone before the second |

## Left out

- Hardware: register set-up of the serial chip, the DTR line, sleeps, USB pipe calls and calls into the provider are successes or failures at will.
- The FIR parser (empty in the source), `requestEvent`, `executeEvent`, `nextEvent`, event logging and property publishing: they hold no state of interest.
- The baud rates of the FTDI driver: the contents of its table are missing from the source.
- IrDAComm, IrLAP and IrCOMM: what they are handed is recorded; what they do with it is not part of this model.
- The real lock and thread calls: a stretch under a lock is one step. SCC `acquirePort` tests and sets the acquired bit in two lock holds, so no exclusion between threads is claimed for it.
- SirPort.SirPort.ParseInputSIR: asks that the input fits the buffer, because the source does not test it.
- PortQueues.SerialPort.CheckQueues: of the other threads, what they do to the queues, the state bits and who is woken is modelled; their own watching is in PortWatch.
- PortQueues.SerialPort.DequeueData: other readers, and writers that add to the transmit queue meanwhile, are not modelled, and the passes of its loop are a finite script, behind which it may still be running.
- PortQueues.SerialPort.SetUpTransmit: from its test of the busy flag to handing over the block it is one step, so no exclusion between transmitting threads is claimed; a block IrDA takes only in part counts as handed over, as in the source, where the rest is dropped.
- PortQueues.SerialPort.EnqueueData: a second writer is not modelled: `AddtoQueue` tests for room and adds in two lock holds, so of two writers at once one may count a byte that found the queue full. Null arguments are left out; the passes of its loop are a finite script.
- FtdiReceive.RxPath.DequeueData: the restart of a paused sender (XON) at the end is left out.
- FtdiReceive.RxPath.DataReadComplete: the two status bytes are not kept, and the shortcut for packets without data, taken before the list of completions, is left out.
- FtdiReceive.RxPath.StartReads: the flag that reads have been started, which a release of the port clears, is left out; the method is one start.
- FtdiCompletions.CompletionList.HandleCompletions: a bound on the completions that arrive while it runs stands for the fact that they end at some time; without it the loop need not end.
- CopyMerge.MergeOnCopies: null arguments, for which the source returns false, are left out.
- DictionaryMerge.MergeInPlace: the outermost level of the user client's merge, which copies one level before merging in place, is left out, as is in-place merging of shared dictionaries.
- ConfigChoice.FromPreferredInterface: a list of 256 entries or more, on which the source does not end, is excluded; whether a configuration has an interface is a parameter.
- PortWatch.WatchedPort.ResumeGone: that the FTDI driver clears bit 0x1000 of the caller's state word on every way out is left out.
- IrdaPower.IrdaDriver.DequeueData: is the first removal, without the loop that waits for more; a test for null is not in the source, so the model stops where it would be needed.
- IrdaPower.IrdaDriver.AcquirePort: is one attempt; a caller that sleeps tries again when woken.
- IrdaPower.IrdaDriver.Start: what other parts of start allocate (thread calls, the user-client nub, the lock) is left out, and so is a second start without a stop, which would lose the port record of the first.
- ModeByte.IrdaUsb.SetSpeed: the completion of the write is part of the write.
- UfiRetry: synchronous requests, media messages and failures to set up a command task are left out.
