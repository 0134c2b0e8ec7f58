# HDLGameInstaller: a verified model

HDLGameInstaller puts PlayStation 2 games on a hard disk: from the disc drive or over the network a game reaches a
ring of memory banks, the banks are written through the `hdl:` device, and that device spreads the game over the
partitions of an APA disk. This project models that path and what stands round it, and proves what it keeps.

| file | models |
|---|---|
| `Common.dfy`, `Logs.dfy` | bytes, 32-bit words, joined and patched sequences; which thread made which steps |
| `Banks.dfy` | the ring of banks of `io.c` |
| `WriteRing.dfy`, `ReadRing.dfy` | both directions of `io.c` and of `WriteGame`/`ReadGame` as steps of two threads in any interleaving |
| `WriteLive.dfy`, `ReadLive.dfy` | their progress: what can still happen, where runs end, and what keeps them from ending |
| `WriteClose.dfy`, `ReadClose.dfy` | the same with a second thread that ends the game while the first may still be transferring it |
| `ReadStream.dfy` | what one connection of a game read delivers, whatever the game |
| `IoWrite.dfy`, `IoRead.dfy` | the same functions as they are written, loop by loop, with the other thread moving in between |
| `ClientRing.dfy` | the write side of the Windows client's `io.c`, one bank a transfer, as steps of two threads |
| `HdlfsTable.dfy` | `hdlfs_format`: the slice table |
| `HdlfsFlat.dfy`, `Hdlfs.dfy` | mount, seek and transfer of `hdlfs/main.c` over `ioctl2Transfer`, as one flat array |
| `EndToEnd.dfy`, `EndToEndRead.dfy` | both joined: network to disk and disk to network |
| `ApaSizes.dfy`, `ApaAppend.dfy`, `ApaFree.dfy` | `hddAddPartitionHere`: fillers, alignment, the partition list, free blocks |
| `Sizing.dfy` | `GetPartSize` and `CreateAndFormatPartition` |
| `Slots.dfy` | file slots of the APA driver and partition headers |
| `Sessions.dfy`, `ServerHandlers.dfy` | client sessions of the server and the installation lock |
| `Retrieve.dfy`, `RetrieveLive.dfy`, `RetrieveLoops.dfy` | the client's retry and reconnect loops over such connections, and the file its ring makes of them |
| `OsdArea.dfy` | the attribute area of a game's partition |
| `FontAtlas.dfy` | glyph packing and lookup |
| `SettingsText.dfy`, `SettingsFile.dfy` | the settings printer and parser |
| `WordWrap.dfy` | line breaking in place |

Threads are modelled by steps: each access to shared state (a semaphore operation, the command byte, a counted
wake-up, a disk transfer) is one atomic step, and any step that is possible may come next. The classes of `IoWrite`,
`IoRead` and `ServerHandlers` hold the same state in fields; between two of a thread's own steps they call a method
whose contract allows the other threads anything they can do (`ThreadRuns`, `ProducerRuns`, `ConsumerRuns`,
`OthersRun`), and `Valid()` says that everything so far is a run of the step machine. `Made` is the list of the
steps one side has made, so that a function's contract can say which steps it makes and in which order.

Disks, sockets, memory and passwords answer as they like. Where one answer is wanted it is a parameter; where there are
many they are given beforehand, numbered in the order in which they are asked for (`Drive.fails`, `Session.network` and
`device`, `Copier.world`, the `driver` of `CreatePartitions`), and the object counts how many it has used. So a contract
can say that an operation fails exactly if what it asked did, and `SomeIn` that something did between two counts.

## What the proofs brought to light

Each of these is stated with its exact condition in the table below.

- When the I/O thread of `io.c` meets `-EIO` under `IO_THREAD_CMD_WRITE` it ends without an acknowledgement, and
  `IOEndWrite` waits for ever (`WriteLive.DeadMeansEndWriteNeverReturns`, `WriteLive.DeathIsReachable`).
- When it meets `-EIO` while reading, the banks of that transfer are lost. With banks left the thread goes on from
  wherever the failed transfer left the device: the failure goes unnoticed, and a read that ends well has then sent
  something else (`ReadLive.SkippingGoesUnnoticed`, `ReadRing.DoneMeansAllSent`). Without one it ends, and `IOEndRead`
  waits for ever (`ReadLive.DeadMeansEndReadNeverReturns`).
- `io.c` repeats a transfer that runs past the end of the game. So a write or a read in which nothing has failed can end
  well if and only if the request lies in the game (`EndToEnd.Install`, `EndToEndRead.Retrieve`); otherwise it hangs.
  If the thread that transfers a game also ends it, this and the above are the only ways either side can hang
  (`EveryRunEnds` of both rings).
- Each of those repeats moves the 16-bit slice number of the `hdl:` device on. With nothing that looks like a slice behind
  its table it comes back to 0 after 65,536 of them at most, and the next repeat overwrites the start of the game
  (`Hdlfs.ComeRound`).
- `CleanupClientConnection` ends a game from the server thread as soon as the control connection is gone, while the data
  thread may still be transferring it. Both put their commands into one byte. If the game has room for the request,
  `IOEndWrite` can then return if and only if the I/O thread has seen the end command, or lives and the command is still
  there; the data thread's next `IOSignalWriteDone` or `IOReadAdvance` overwrites it, and the server thread waits for ever
  although nothing has failed (`EndReturnsIff` and `EndIsOverwritten` of `WriteClose` and `ReadClose`).
- `MountOpenGame` compares the result of the seek with the offset cast to a signed int; the offset 2^32 - 22 reads as
  `-EINVAL`, so for that one value the refused seek passes and the transfer starts at sector 0 (`EndToEnd.OpenAt`).
- The space check of `hddAddPartitionHere` is right exactly when the rounded-up end plus the partition stays below
  2^32 sectors; otherwise it always lets the partition through, and rounded up to 2^32 the new partition lands on
  sector 0 (`SpaceCheckIsRightIff`, `SpaceCheckFails`).
- `IOEndWrite` of the Windows client reports OK in every run: its `writeFile` answers a failed write with 0
  (`HDLGManClient/system.c:96-101`), which `IOExecWriteNext` takes for a success. The file is complete exactly in the
  runs in which no write failed (`ClientRing.CompleteIffNoWriteFailed`, `ClientRing.FailureGoesUnseen`).
- So a retrieved copy is right for every game exactly when no write to the file failed, no block used up all its attempts
  with a good last reconnection, and the console had passed over nothing before the last byte of a block that was kept; the
  copier is told of none of these (`Retrieve.CopyIsRightIff`, `RetrieveLive.ShiftedCopyCompletes`).
- The installation lock can come back if and only if no opening of a game failed before its task was noted, no I/O thread
  hung, and no data thread put its command over an end command; otherwise every later request is refused
  (`Sessions.LockCanComeBackIff`, `Sessions.GoneMeansBusyForEver`). One disk error while a game is written is enough, or
  one control connection that breaks at the wrong moment (`Sessions.HolderCanHang`, `Sessions.EndCanBeOverwritten`).
- If the end command is seen in time, the data thread of the game that was ended works on, beside the next game's or the
  menu's installation, on the one ring (`Sessions.OldThreadStillWorks`). Neither this nor the overwriting can happen in a
  run in which no connection is cleaned up while its data thread is at work (`Sessions.GuardedRuns`); two threads can come
  to use the ring exactly when a data thread has been left at work like that (`Sessions.TwoUsersCanMeetIff`).
- A removal that fails half-way leaves a partition without its subs (`Slots.Driver.Remove`), and one that succeeds may
  have left subs behind whose headers could not be read (`Slots.SubsGoneIff`).
- Glyphs can pass the bottom edge of an atlas once one of them was taller than the glyph that opened its row
  (`InsideIffSafe`, `TallerSpoils`, `BottomCanBePassed`).
- Slots and headers of the APA driver part ways exactly when `HDIOC_SWAPTMP` is used on an open partition
  (`Slots.Driver.SwapTemp`).

## Model

| member | source | states |
|---|---|---|
| Banks.SlotIsRemainder | io.c:65 | the pointers of the ring move by the remainder that `io.c` computes |
| WriteRing.StepInv | io.c:35-258 | every step of either thread keeps the whole invariant: tokens, queue of unwritten blocks in ring order, contents of the file, sizes, control, wake-ups |
| WriteRing.TokensConserved | io.c:176-200 | free, filled, claimed and held banks and those being returned always add up to `nbufs`, and no semaphore passes its maximum |
| WriteRing.NoUnwrittenBankOverwritten | io.c:243-258 | the bank being filled is none of those whose block is still to be written, and each of those still holds its block |
| WriteRing.FileIsInSubmissionOrder | io.c:43-68 | at every moment the file is the submitted blocks in submission order up to some block, a prefix of what was received, all but the last block full |
| WriteRing.EndWriteOkMeansAllWritten | io.c:140-148 | when `IOEndWrite` reports OK nothing submitted is missing, and a complete game is in the file byte for byte |
| WriteRing.MergedBanks | io.c:48-58 | adjacent banks, all full but the last, read as one stretch of memory are their blocks joined |
| WriteRing.MergingIsRightIff | io.c:44-61 | one transfer of several banks equals their transfers one by one, whatever else the banks hold, if and only if all blocks but the last are full |
| WriteRing.MergedTransfer | io.c:44-61 | the one merged transfer carries exactly the claimed blocks in order, as bank-by-bank transfers would |
| WriteLive.SomeStepPossible | io.c:126-174 | over a file with a given room some thread can make a real step until `IOEndWrite` returns, unless the producer waits for a thread that is dead or repeats a transfer that does not fit |
| WriteLive.DeadAndBlockedIsStuck | io.c:134-139 | with a dead thread and a waiting producer no step is possible any more |
| WriteLive.OverrunAndBlockedIsStuck | io.c:60-62 | while the producer waits for a transfer that does not fit nothing changes until the drive fails |
| WriteLive.DeathIsReachable | io.c:134-139 | a run of one sector after which the thread is dead and `IOEndWrite` waits |
| WriteLive.CanEndWellIff | io.c:60-62 | a game write in which nothing has failed can still end well, if and only if the file has room for the whole game |
| WriteLive.DeadMeansEndWriteNeverReturns | io.c:134-139 | once the thread died under `IO_THREAD_CMD_WRITE`, `IOEndWrite` returns on no continuation |
| WriteLive.RunIsFinite | io.c:35-161 | every step but a repeated transfer uses up work, so a run is no longer than the work it started with |
| WriteLive.EveryRunEnds | HDLGameSvr.c:839-868 | if the writing thread ends the game itself: at most 2100 steps a sector and 20 more, and no others if the file has room for the game, else repeats of a transfer; a run that can go no further has let `IOEndWrite` return, or its thread is dead or repeats a transfer for which there is no room |
| WriteClose.EndReturnsIff | HDLGameSvr.c:492-502 | `IOEndWrite` called by the server thread, whatever the data thread is doing, never returns once the end command is overwritten unseen or the I/O thread dead; otherwise it still can, if the file has room for the request |
| WriteClose.OverwrittenBySubmitting | io.c:249-258 | only the command of `IOSignalWriteDone` takes the end command away |
| WriteClose.EndIsOverwritten | io.c:163-174 | a run in which nothing fails and `IOEndWrite` never returns: a block is handed on between its command and the I/O thread's waking |
| ReadClose.EndReturnsIff | HDLGameSvr.c:492-502 | `IOEndRead` called by the server thread never returns once the end command is overwritten unseen or the I/O thread dead; otherwise it still can wherever the last transfer did not fail and the file holds the request |
| ReadClose.OverwrittenByAdvancing | io.c:297-303 | only the command of `IOReadAdvance` takes the end command away |
| ReadClose.EndIsOverwritten | io.c:163-174 | a run in which nothing fails and `IOEndRead` never returns |
| IoWrite.Took | io.c:35-258 | a step made where the code stands is a step of the machine: the invariant and the measure carry over |
| IoWrite.ThreadKeepsProducer | io.c:126-161 | whatever the I/O thread does alone leaves the producer's variables and submissions as they are |
| IoWrite.ProducerKeepsThread | io.c:243-258 | whatever the producer does alone leaves the I/O thread's variables and the file as they are |
| IoWrite.Session.IOWriteInit | io.c:176-230 | starts a session in the machine's initial state |
| IoWrite.Session.IOGetNextWrBuffer | io.c:243-247 | takes a free bank, one step, or waits because there is none |
| IoWrite.Session.ReceiveData | HDLGameSvr.c:218-246 | fills the bank with what the recvs bring, piece by piece, and gives it up with `-EPIPE` exactly when one of them brings nothing |
| IoWrite.Session.IOSignalWriteDone | io.c:249-258 | makes exactly four steps in this order, whatever the thread does in between: submit the bank, signal it, set the command, wake the thread |
| IoWrite.Session.CheckIOStatus | HDLGameSvr.c:852-859 | one look at the state: `-EIO` exactly when the thread has met an error, otherwise the sectors are counted down |
| IoWrite.Session.WriteGame | HDLGameSvr.c:839-868 | runs until it waits for a bank or is done; what was received is what was submitted, all requested sectors at result 0, and no less than that after an error; `-EPIPE` exactly when the last recv brought nothing, `-EIO` only after the thread's error, and no other error |
| IoWrite.Session.IOEndWrite | io.c:312-318 | sets the end command, wakes the thread and waits for its acknowledgement; OK means the file holds everything submitted, and a complete game entirely |
| IoWrite.Session.AwaitAck | io.c:169-174 | the wait itself: takes the acknowledgement if it is there, or can be called again |
| IoWrite.Session.MergeBanks | io.c:48-58 | claims one filled bank a turn, those that follow in memory, without wrapping round, until none is filled or the ring ends |
| IoWrite.Session.FinishTransfer | io.c:64-68 | one write, one move of the read pointer, and one signal for every bank written |
| IoWrite.Session.RepeatTransfer | io.c:60-62 | repeats the transfer exactly as long as the device answers with an error other than `-EIO`, one step of the machine a repeat; the result is the device's last answer, all that was to be written if that is no error |
| IoWrite.Session.IOExecWriteNext | io.c:35-72 | 0 when no bank was filled, the bytes written, or `-EIO`, as the device has answered last, with exactly the thread's steps that go with each; any other error means that the transfer is still being repeated |
| IoWrite.Session.IOThread | io.c:126-161 | sleeps only without a pending wake-up, still repeats a transfer after an error of the device's, or has exited: after `-EIO`, or with the acknowledgement as its last step and, if nothing failed, all blocks in the file; there is an error exactly when the device's last answer was `-EIO` |
| IoWrite.Session.DrainAndAcknowledge | io.c:140-148 | writes until no bank is filled or `-EIO`, then acknowledges; without an error, that is unless the device has answered `-EIO`, every block submitted is in the file |
| ReadRing.StepInv | io.c:74-154 | every step of either thread keeps the invariant of the read side |
| ReadRing.TokensConserved | io.c:84-116 | free, filled, claimed and held banks, those being handed over and those lost to failed transfers always add up to `nbufs` |
| ReadRing.NoUnsentBankOverwritten | io.c:283-303 | a transfer touches neither the bank being sent from nor one whose block is still to be taken |
| ReadRing.StoreAcrossPieces | io.c:88-109 | one read over several banks puts each bank's piece into it and leaves the other banks alone |
| ReadRing.CutFlattens | io.c:94-105 | the pieces of a transfer joined are the transfer |
| ReadRing.BlocksInOrder | io.c:283-295 | blocks come out all but the last full, in the order of the file as long as no failed transfer passed over anything; no more than requested is sent |
| ReadRing.HeldBlockIsNext | HDLGameSvr.c:912-925 | the bank ReadGame sends from holds the bytes that come next in the file, if nothing was passed over |
| ReadRing.DoneMeansAllSent | HDLGameSvr.c:903-940 | a read that ended well has sent as many bytes as were requested: the requested ones if no failed transfer passed over anything, and others if one did, unless the file has the same byte in both places |
| ReadRing.SentOfImage | io.c:107-121 | what has been sent are bytes of the file in order, each as far behind its place as failed transfers had passed over before it was read |
| ReadStream.AlikeRun | io.c:74-161 | which steps are possible, and where each byte read comes from, does not depend on what is in the file |
| ReadStream.StreamIsShifted | HDLGameSvr.c:903-940 | what one connection delivers are bytes of the game, each behind its place by the same shift for every game of that length, and the shifts never shrink |
| ReadLive.SkippingGoesUnnoticed | io.c:107-121 | a run in which a transfer fails half-way, the thread goes on, and ReadGame ends with result 0 |
| ReadRing.NoLostWakeup | io.c:149-154 | sectors left, thread asleep, no wake-up pending: then no bank is free, and a waiting ReadGame finds every bank that is not lost filled |
| ReadLive.SomeStepPossible | io.c:297-326 | until `IOEndRead` returns some thread can make a real step, unless the consumer waits for a thread that is dead or repeats a transfer past the end of the file |
| ReadLive.DeadMeansEndReadNeverReturns | io.c:149-154 | once the thread has ended after `-EIO` `IOEndRead` returns on no continuation |
| ReadLive.DeadAndBlockedIsStuck | io.c:149-154 | with a dead thread and a waiting consumer no step is possible any more |
| ReadLive.OverrunAndBlockedIsStuck | io.c:108-110 | while the consumer waits for a transfer past the end of the file nothing changes until the drive fails |
| ReadLive.DeathIsReachable | io.c:149-154 | a run at whose first transfer the thread dies, ReadGame waiting |
| ReadLive.CanEndWellIff | io.c:108-110 | a game read whose connection stands and whose last transfer did not fail can still end well, if and only if the file holds the request and what was passed over |
| ReadLive.EveryRunEnds | HDLGameSvr.c:903-940 | if the reading thread ends the game itself: at most 2112 steps a sector and 25 more, and 12 a sector and 10 more for each bank lost, besides repeats of transfers past the end; a run that can go no further has let `IOEndRead` return, or its thread is dead or repeats such a transfer |
| IoRead.ThreadKeepsConsumer | io.c:126-161 | whatever the I/O thread does alone leaves ReadGame's variables and output as they are |
| IoRead.ConsumerKeepsThread | io.c:283-303 | whatever ReadGame does alone leaves the I/O thread's variables and what was read as they are |
| IoRead.Session.IOReadInit | io.c:232-240 | starts a session in the machine's initial state, with one wake-up |
| IoRead.Session.IOReadNext | io.c:283-295 | takes the next filled bank, one step, or waits because there is none |
| IoRead.Session.SendBlock | HDLGameSvr.c:914-921 | sends the whole block, in the pieces the sends take, and leaves with `-EPIPE` exactly when one of them takes nothing |
| IoRead.Session.FinishBlock | HDLGameSvr.c:923-933 | one look at the state: `-EIO` exactly when the thread has reported an error, otherwise the sectors are counted down |
| IoRead.Session.IOReadAdvance | io.c:297-303 | gives the bank back, sets the command and wakes the thread, in this order |
| IoRead.Session.ReadGame | HDLGameSvr.c:903-940 | runs until it waits for a block or is done; result 0 means as many bytes as requested were sent, the requested ones if nothing was passed over; `-EPIPE` exactly when the last send took nothing, `-EIO` only after the thread's error, and no other error |
| IoRead.Session.IOEndRead | io.c:320-326 | sets the end command, wakes the thread and waits for its acknowledgement; it returns only when the thread has reported no error |
| IoRead.Session.AwaitAck | io.c:169-174 | the wait itself: takes the acknowledgement if it is there, or can be called again |
| IoRead.Session.MergeBanks | io.c:93-105 | claims one free bank a turn without wrapping round, until none is free, the ring ends or no sector is left |
| IoRead.Session.FinishTransfer | io.c:112-118 | one read, one move of the write pointer, and one signal for every bank read into |
| IoRead.Session.RepeatTransfer | io.c:108-110 | repeats the transfer exactly as long as the device answers with an error other than `-EIO`, or the file ends before it; the result is that answer, or all that was to be read |
| IoRead.Session.FailTransfer | io.c:108-121 | after `-EIO`, and only then, the transfer's banks are lost, and the file stands as far on as the device has moved it, short of the transfer's end |
| IoRead.Session.ReadOnce | io.c:83-121 | one round with exactly its steps: nothing to do because no sector is left or no bank free, read, failed for good, or still repeating, as the device has answered |
| IoRead.Session.IOExecReadNext | io.c:74-124 | reads ahead, failed transfers or not, until sectors or free banks run out; its result is that of the last transfer |
| IoRead.Session.IOThread | io.c:126-161 | sleeps only without a pending wake-up, still repeats a transfer after an error, or has exited with the report of an error, exactly if the device's last answer was `-EIO`, or the acknowledgement as its last step |
| ClientRing.StepInv | HDLGManClient/io.c:32-137 | every step of either thread keeps tokens, queue, contents of the file, control and wake-ups in order |
| ClientRing.TokensConserved | HDLGManClient/io.c:38-51 | between two blocks every bank is free, filled or in transfer, also after failed writes |
| ClientRing.FileIsInSubmissionOrder | HDLGManClient/io.c:38-51 | the file is what the writes have kept of the submitted blocks, in submission order |
| ClientRing.EventIsEnough | HDLGManClient/io.c:91-130 | an event that counts nothing loses no wake-up: a thread asleep without it has no filled bank to write |
| ClientRing.WaitingProducerIsServed | HDLGManClient/io.c:91-137 | a producer waiting for a bank or for the acknowledgement can go on, or the I/O thread can |
| ClientRing.CompleteIffNoWriteFailed | HDLGManClient/io.c:274-280 | `IOEndWrite` reports OK in every run; the file then is the submitted blocks if and only if no write of the run failed |
| ClientRing.FailureGoesUnseen | HDLGManClient/system.c:96-101 | a run whose only write fails: `IOEndWrite` reports OK over an empty file |
| ClientRing.StateIsAlwaysOk | HDLGManClient/io.c:290-293 | `IOGetStatus` never tells of an error |
| ClientRing.FillingIsByCalls | HDLGManClient/io.c:203-219 | banks, pointer and blocks are what the producer's calls make of them, whatever the I/O thread does in between |
| ClientRing.AlikeRun | HDLGManClient/io.c:32-137 | what either thread can do does not depend on the data |
| HdlfsTable.Format | hdlfs/main.c:83-153 | succeeds if and only if every slice passes the checks, the partitions hold the game and the write succeeds; then the table is the prefix-sum table, with zeros behind it |
| HdlfsTable.BeforeIsWhatFits | hdlfs/main.c:111-133 | partitions are filled in order: what lies before one is all that fits, up to the game |
| HdlfsTable.FormatCoversIffCapacity | hdlfs/main.c:141-143 | the partitions are refused for their size exactly when they cannot hold the game |
| HdlfsTable.OnlyTheLastSliceIsPartial | hdlfs/main.c:123-133 | every partition before one that is used is used to its end |
| HdlfsTable.SlicesTile | hdlfs/main.c:120-133 | each sector of the game lies in exactly one slice |
| Hdlfs.FormattedTable | hdlfs/main.c:111-133 | what format writes for partitions apart on the disk is a table the driver can serve, with no 32-bit overflow |
| HdlfsFlat.ReadIsFlat | hdlfs/main.c:199-217 | reading the disk where the slice table says is reading the flat game |
| HdlfsFlat.WriteIsFlat | hdlfs/main.c:199-217 | writing there is writing the flat game, and changes no other byte of it |
| HdlfsFlat.AddressesAreDistinct | hdlfs/main.c:120-121 | distinct bytes of the game have distinct places on the disk |
| Hdlfs.Drive.TransferWrite | apa-hdl/src/hdd_fio.c:218-238 | refuses out-of-range transfers with the driver's error numbers, otherwise stores at partition start plus sector, all of it or, with `-EIO` exactly if the drive fails this transfer, a first part |
| Hdlfs.Drive.TransferRead | apa-hdl/src/hdd_fio.c:218-238 | the same checks, and the bytes from that place, or `-EIO` exactly if the drive fails this transfer |
| Hdlfs.Drive.GuardIff | apa-hdl/src/hdd_fio.c:220-230 | the driver's checks pass exactly inside the partition and behind what is reserved there |
| Hdlfs.Descriptor.GuardPasses | apa-hdl/src/hdd_fio.c:218-235 | transfers the device asks for inside a slice always pass the driver's checks; past the last slice they never do |
| Hdlfs.Descriptor.Mount | hdlfs/main.c:415-417 | a mounted game stands at its first sector |
| Hdlfs.Descriptor.LseekSet | hdlfs/main.c:243-280 | seeks to any sector of the game and refuses every other position, negative ones included |
| Hdlfs.Descriptor.NextTransfer | hdlfs/main.c:199-215 | the next piece lies in one partition and moves on exactly at a slice's end; past the end the 16-bit slice number moves on unless the memory there looks like a slice, and comes round to 0 |
| Hdlfs.Descriptor.Write | hdlfs/main.c:173-231 | stores the data at the cursor of the flat game as far as the transfer got; no byte outside the game's slices changes; `-EIO` exactly if the drive failed, and otherwise `-ENODEV` exactly for running past its end; from the start of the game if the slice number comes round, and says when |
| Hdlfs.Descriptor.Read | hdlfs/main.c:173-231 | returns the flat game from the cursor on as far as the transfer got, or from its start if the slice number comes round; `-EIO` exactly if the drive failed |
| Hdlfs.Serve | hdlfs/main.c:173-280 | any sequence of seeks and transfers answers as a cursor over one flat array does, as long as fewer than 65,536 less the partitions were refused past its end; some reply tells of a failure exactly if the drive failed |
| Hdlfs.ServeOne | hdlfs/main.c:173-280 | every single request does, with the cursor back at 0 if the slice number has come round |
| Hdlfs.ComeRound | hdlfs/main.c:199-205 | a sector written again and again past the end is stored at the start of the game in the end |
| EndToEnd.PayloadIsNext | io.c:43-61 | the pending transfer carries whole sectors, the received bytes that follow those in the file |
| EndToEnd.OpenAt | HDLGameSvr.c:702-703 | opens at the offset if and only if it is 0, inside the game, or the one value that reads as the error number |
| EndToEnd.TransferOnDisk | io.c:60-62 | one transfer on the device: a failure exactly if the drive failed, a write exactly if all was stored, otherwise a repeat; afterwards disk and ring are in step, unless the slice number comes round; nothing outside the game changes in any case |
| EndToEnd.Install | HDLGameSvr.c:839-868 | for every schedule, slice table and drive behaviour: every scheduled step that is possible is made, each transfer as the device answers it, so that one fails exactly if the drive does; nothing outside the game changes; the flat game gets a prefix of the received bytes at its offset and nothing else, and an OK end of a complete game means all of them, always for a request that fits and otherwise until the slice number comes round; a run in which nothing failed can end well if and only if the request fits, and is bounded then |
| EndToEndRead.TransferOnDisk | io.c:108-110 | what the device brings is what the ring puts in its banks, a failure exactly if the drive failed and a repeat only for running past the end; device and ring stay in step after failures too, unless the slice number comes round |
| EndToEndRead.Retrieve | HDLGameSvr.c:903-940 | for every schedule and every request: every scheduled step that is possible is made, and a transfer fails exactly if the drive does; what is sent is a prefix of the flat game from the offset on, unless a failed transfer passed over something, and all requested sectors at a good end; which can be reached if and only if the request, and what was passed over, lies in the game |
| ApaSizes.FillerIsLargest | apa-hdl/src/hdd.c:128-144 | a filler is the largest smaller size that divides its start |
| ApaSizes.FillerFits | apa-hdl/src/hdd.c:127-145 | a filler ends no later than the place aimed at, on a multiple of twice its length |
| ApaSizes.FillersGrow | apa-hdl/src/hdd.c:127-145 | each filler is larger than the one before |
| ApaSizes.FillersAlign | apa-hdl/src/hdd.c:107-145 | the fillers end exactly on the list end rounded up to the partition's size, each the largest that fits, strictly growing |
| ApaAppend.PartitionsApart | apa-hdl/src/hdd.c:109-150 | partitions of a list in order do not overlap |
| ApaAppend.AppendOne | apa-hdl/src/hdd.c:131-138 | one more aligned partition behind the end keeps the circular doubly linked tiling and every other partition |
| ApaAppend.SpaceCheckIsRightIff | apa-hdl/src/hdd.c:109-115 | the 32-bit space check is right if and only if the needed end stays below 2^32; from there on it never refuses |
| ApaAppend.SpaceCheckFails | apa-hdl/src/hdd.c:113-115 | a disk and a size for which it lets through what does not fit, to be put at sector 0 |
| ApaAppend.Disk.PickFiller | apa-hdl/src/hdd.c:128-144 | the inner loop finds the filler |
| ApaAppend.Disk.LinkBehind | apa-hdl/src/hdd.c:131-137 | the header and the three links written for one more partition |
| ApaAppend.Disk.AddFillers | apa-hdl/src/hdd.c:126-145 | the nested loops end, with exactly the fillers above behind the old list |
| ApaAppend.Disk.LastSector | apa-hdl/src/hdd_fio.c:350-359 | the walk along the list ends at its last partition |
| ApaAppend.Disk.AddPartitionHere | apa-hdl/src/hdd.c:91-157 | a fitting free block is chosen, the one `ApaFree.FirstFitIsFirst` describes, to be cut and taken as `ApaFree.InsertPartition` does, or `-ENOSPC` leaves the list alone, or the list grows by the fillers and, exactly if its header can be filled in, the partition at the rounded-up end, and stays in order; what happens where the space check is wrong is stated too |
| ApaFree.FirstFitIsFirst | apa-hdl/src/hdd.c:102-106 | a free block is chosen if and only if one slot of that size or larger names one, and then from the first such slot |
| ApaFree.FirstFitIsSmallest | apa-hdl/src/hdd.c:102-106 | after the walk that is so if and only if the list holds a free block with room, and none with room is smaller |
| ApaFree.HalvedIsList | apa-hdl/src/hdd.c:103-106 | cutting a free block in two keeps the circular doubly linked tiling and its end |
| ApaFree.Walk | apa-hdl/src/hdd_fio.c:350-359 | the walk finds the last partition, offers only free blocks of the list, each under its size, and offers one of every size there is |
| ApaFree.InsertPartition | apa-hdl/src/hdd.c:103-106 | a free block is cut to the size asked for and taken; the list stays in order, every other partition stays as it was, and what is cut off is free |
| ApaFree.AddPartition | apa-hdl/src/hdd_fio.c:737-749 | one addition: into the smallest free block with room if and only if the list has one, otherwise refused if and only if the disk has no room behind the end, and else at the rounded-up end; a partition of exactly that size stands where none was in use, everything else is as it was, and fillers and rests are free |
| ApaFree.AddInTurn | apa-hdl/src/hdd_fio.c:327-336 | any number of additions, on disks safely below 2^32 sectors, each coming to what `ApaFree.AddPartition` says of the list as it then stands: each that reports success has made a new partition of exactly the size asked for, still there at the end and apart from all others; the list stays in order and every partition in use stays |
| Sizing.GetPartSize | system.c:507-551 | stops at the first size that offers what is wanted or reaches the disk's limit, one less if that is not taken tightly, or takes the size asked for |
| Sizing.SettledWastesLittle | system.c:529-546 | the size settled on wastes less than 128 MB, and every smaller one is too small and below the disk's limit |
| Sizing.SettledIsTight | system.c:529-546 | the smallest size that offers what is wanted is settled on if less than 128 MB of it would be spare and no smaller one reaches the limit; it is never more than one below the first that is large enough or reaches the limit |
| Sizing.LimitIsPassedIff | system.c:514-531 | for every limit when the size settled on passes it: only if the limit is below the reserved area, or between two sizes, the larger of which is taken tightly and needed, or below the smallest |
| Sizing.ListedLimitIsKept | system.c:514-531 | a limit that is one of the listed sizes is never passed |
| Sizing.CreateSlice | system.c:612-617 | the first request is for the size settled on; then sizes are tried downwards one at a time exactly as long as the driver finds no space; `-ENOSPC` remains only when the smallest was refused |
| Sizing.CreatePartitions | system.c:590-621 | whatever the driver answers: each slice is asked for what those before it leave over, all requests are accounted for, and it fails only with the driver's last answer; success means at most 65 slices that cover the game, all full but the last, with less than 128 MB spare in that |
| Sizing.FormatAccepts | hdlfs/main.c:111-143 | such slices pass every check of the formatting if and only if all partitions start below 2^31 |
| Sizing.CreateAndFormatPartition | system.c:565-653 | once the partitions are made, formatting fails only for a start at 2^31 or beyond or a failed write |
| Slots.SlotsHaveOwnHeaders | apa-hdl/src/hdd_fio.c:172-188 | two open slots are never of one partition |
| Slots.SwapBreaksIffOpen | apa-hdl/src/hdd_fio.c:876-893 | swapping two names keeps slots and headers in agreement if and only if neither partition is open |
| Slots.Driver.GetFileSlot | apa-hdl/src/hdd_fio.c:172-188 | `-EBUSY` exactly for a name that is open, `-EMFILE` exactly when all slots are taken otherwise |
| Slots.Driver.Open | apa-hdl/src/hdd_fio.c:340-390 | the answer for every case, and success in all others; an opened slot is writable as asked and says what its header says, and no second slot can be opened for the name; a partition is made exactly if there is none and one is asked for, new and without subs |
| Slots.Driver.AddSub | apa-hdl/src/hdd_fio.c:706-765 | the sub becomes the last in slot and header alike, up to 64 of them; every error leaves both alone |
| Slots.Driver.DeleteLastSub | apa-hdl/src/hdd_fio.c:767-793 | the last sub goes from slot and header alike |
| Slots.Driver.Remove | apa-hdl/src/hdd_fio.c:394-434 | the answer for every case: removes a partition that is not open, and no other; once the password was right an error leaves that one partition without its subs, any earlier one all as it was |
| Slots.SubsGoneIff | apa-hdl/src/hdd_fio.c:421-434 | the subs count as deleted if and only if no deletion that was made failed and the first sub's header could be read: one whose header could not be read before is left behind unseen |
| Slots.Driver.Rename | apa-hdl/src/hdd_fio.c:437-488 | the answer for every case: renames a partition that is not open, keeping names distinct, if the password is right |
| Slots.Driver.SwapTemp | apa-hdl/src/hdd_fio.c:859-897 | the answer for every case: the two names change places, and the agreement survives if and only if neither of the two partitions is open |
| Sessions.StepInv | HDLGameSvr.c:449-530 | every step, those inside `EndInstallation` one by one, keeps the lock's tokens conserved and each client and the I/O thread in order |
| Sessions.OneInstallerAtATime | HDLGameSvr.c:806-836 | the lock's count never passes 1; a client that has a game holds the lock alone, so no other client has or opens one and the menu does not install; nor is the lock free while the menu does |
| Sessions.NoTaskBeforeVersion | HDLGameSvr.c:1416-1450 | whoever has a task or is opening a game has passed the version check |
| Sessions.GameEndsIff | HDLGameSvr.c:449-477 | whoever ends a game, its data thread, its server thread or the command that opened it, gets past its wait and gives the lock back if and only if the I/O thread has seen the end command |
| Sessions.TokenIsThereIff | HDLGameSvr.c:814-831 | the lock's token is free or held by somebody, who may hang, if and only if no opening failed before its task was noted |
| Sessions.LockCanComeBackIff | HDLGameSvr.c:449-530 | the lock can still come back if and only if no such opening failed, no I/O thread hung, a client's or the menu's, and no end command was overwritten; one of these can happen once at most |
| Sessions.GoneMeansBusyForEver | HDLGameSvr.c:743-772 | after any of these every request to open a game is refused and the menu waits for ever |
| Sessions.AstrayStep | HDLGameSvr.c:585-588 | a data thread comes to work without its game exactly by a cleaning up of its connection while it is at work |
| Sessions.GuardedRuns | HDLGameSvr.c:585-588 | in runs without such a cleaning up one thread at most uses the ring and no end command is overwritten: the lock can come back exactly when no opening failed and no I/O thread hung |
| Sessions.TwoUsersCanMeetIff | HDLGameSvr.c:839-868 | while the lock can come back, two threads can come to use the one ring without further such cleaning up if and only if a data thread is left at work already |
| Sessions.TokenCanBeLost | HDLGameSvr.c:822-831 | a shortest run that loses the token |
| Sessions.HolderCanHang | HDLGameSvr.c:449-530 | a run after which a client's game can be neither closed nor cleaned up |
| Sessions.EndCanBeOverwritten | HDLGameSvr.c:492-502 | a run in which nothing fails and the lock is gone: the server thread waits in `CleanupClientConnection` |
| Sessions.OldThreadStillWorks | HDLGameSvr.c:839-868 | a run, with one client slot, that ends with an old data thread at work beside the menu's installation |
| ServerHandlers.OthersKeep | HDLGameSvr.c:492-530 | other threads leave a client's session alone, but for its own data thread, which may close its game while no command is served |
| ServerHandlers.Sys.OpenGame | HDLGameSvr.c:806-836 | `-EBUSY` if the client has a task or the lock is not free, and nothing has changed; else the error that opening came to; else a game is open and the lock taken if the connection is made and the data thread at rest, and -1 if not, the lock given back or the wait for the I/O thread on |
| ServerHandlers.Sys.AwaitFailing | HDLGameSvr.c:449-477 | that wait: over once the I/O thread has seen the end command, with the task gone |
| ServerHandlers.Sys.EndInstallation | HDLGameSvr.c:449-477 | after its wait: gives the lock back, and the I/O thread is gone, exactly when the client has a game |
| ServerHandlers.Sys.CloseGame | HDLGameSvr.c:479-490 | called with nobody holding the client's `StateSemaID`: ends its game, or blocks because the I/O thread has not seen the end command |
| ServerHandlers.Sys.AwaitClosing | HDLGameSvr.c:485 | that wait: over with the lock free and the task gone; never blocked for a client whose game was ended already |
| ServerHandlers.Sys.CleanupClientConnection | HDLGameSvr.c:492-530 | called whatever the data thread is doing: the client's slot is free again, and its lock given back if it held it, or blocks because the I/O thread has not seen the end command; a data thread at work is still at work |
| ServerHandlers.Sys.AwaitCleanup | HDLGameSvr.c:498-502 | that wait, while the data thread and everybody else go on |
| ServerHandlers.Sys.HandlePacket | HDLGameSvr.c:1416-1536 | what every command comes to, before and after the version is verified: until then no command changes a task or the lock, and afterwards an opening one succeeds as `OpenGame` does |
| ServerHandlers.Sys.FinishInMenu | system.c:769-777 | the menu's installation ends its I/O and gives the lock back, or waits because the I/O thread has not seen the end command |
| ServerHandlers.Sys.LockForMenu | menu.c:1886-1890 | the menu has the lock and no client holds it, or it waits |
| Retrieve.BlockIsRight | HDLGManClient/install-main.c:403-440 | a block that came in within its attempts, with nothing passed over before its last byte, is the game's block, over whichever connection it came |
| Retrieve.CopyIsPrefix | HDLGManClient/install-main.c:388-453 | as long as all blocks are such, the blocks put in the ring are the game so far: nothing is lost or duplicated, whatever broke in between |
| Retrieve.BadBlockSpoils | HDLGManClient/install-main.c:407-443 | the first block given up on, or before whose last byte the console had passed over something, spoils the copy of a game that is zero but for that byte |
| Retrieve.CopyIsRightIff | HDLGManClient/install-main.c:388-500 | the file of a completed copy is right for all games and all memory of the banks if and only if no block was given up on, nothing was passed over before the last byte of a block, and no write to the file failed, for every interleaving with the ring's I/O thread and on the console |
| Retrieve.FinishesForAll | HDLGManClient/install-main.c:388-500 | whether a copy completes depends on breaks, failures and interleaving, not on the game |
| Retrieve.NextBlockRepeats | HDLGManClient/install-main.c:429-443 | after a block given up on the next one is filled with its data |
| Retrieve.ShiftGoesUnseen | HDLGManClient/install-main.c:403-440 | a connection over which all blocks come in, half a kilobyte too far on, because a drive failed on the console |
| RetrieveLive.EveryCourseFinishes | HDLGManClient/install-main.c:388-500 | every complete course of attempts belongs to a run of the copier's ring in which no write fails and `IOEndWrite` returns |
| RetrieveLive.ShiftedCopyCompletes | HDLGManClient/install-main.c:388-500 | a copy that completes with no block given up on and no failed write, and is wrong |
| RetrieveLoops.Copier.ReadGame | HDLGManClient/install-main.c:404 | what arrives goes into the bank: all of the block, or less than it exactly if the connection breaks or ends before |
| RetrieveLoops.Copier.Recover | HDLGManClient/install-main.c:410-440 | a connection is opened again, by the console's own answer, unless the console reports another error, or five attempts to reach it, or to open the game, have failed |
| RetrieveLoops.Copier.ReadBlock | HDLGManClient/install-main.c:403-440 | up to three attempts into one bank, each bringing what the connection brings and over one reopened at the block's own sector, as exactly these calls; it gives up only for the reasons `Recover` does |
| RetrieveLoops.Copier.RetrieveThread | HDLGManClient/install-main.c:388-453 | calls the ring exactly as the fates of its blocks say, and these are what the connections brought; result 0 means that each block was got or given up on, and nothing but the user or the console prevents it |
| OsdArea.SpotsAreApart | OSD.c:727-796 | installed files are aligned, pairwise apart, clear of the table and of the game information |
| OsdArea.SpotIsFirst | OSD.c:760-766 | a file goes to the first place behind the files before it that is clear of the game information |
| OsdArea.TableRoundTrip | OSD.c:798-820 | the entries written to the table are read back |
| OsdArea.LaidNext | OSD.c:769-788 | one more file in its place leaves those before it and everything else alone |
| OsdArea.EntryLeadsToFile | OSD.c:822-852 | every entry leads to what was installed under its index, the cloned delete icon to the view icon |
| OsdArea.Handle.Write | apa-hdl/src/hdd_fio.c:190-216 | a write past the end of the area is cut there; `-EIO` exactly if the drive fails it |
| OsdArea.Handle.Lseek | apa-hdl/src/hdd_fio.c:554-586 | positions are whole sectors inside the area |
| OsdArea.Handle.InstallOSDFile | OSD.c:727-796 | succeeds if and only if the file fits or may be missing, and the drive does not fail, and then has put it in its place; `-EINVAL` exactly for one that is missing, otherwise `-EIO` |
| OsdArea.Handle.InstallOSDFiles | OSD.c:854-894 | succeeds if and only if every file can be installed and the drive does not fail; then every file is in place, the table tells where and nothing else changed; the game information survives in every case |
| OsdArea.Handle.InstallAndRead | OSD.c:822-894 | reading any index back returns what was installed, if every file can be installed and the drive does not fail |
| FontAtlas.AllocInRows | font.c:346-396 | one more glyph does |
| FontAtlas.GlyphsStandInRows | font.c:314-403 | whatever comes, the frontiers do what can be said of the glyphs alone: each goes right behind the one before it if the row has room for it, else to the left edge below all others if there is room, else nowhere |
| FontAtlas.AllocKeepsLayout | font.c:314-403 | one more glyph overlaps none before it and stays inside the right edge |
| FontAtlas.CellsNeverOverlap | font.c:314-403 | so for any sequence of glyphs whose first one fits |
| FontAtlas.LayoutIsShort | font.c:314-403 | frontiers and cells stay within 16-bit numbers |
| FontAtlas.InsideIffSafe | font.c:346-396 | the next glyph of any size stays inside the bottom edge if and only if no frontier claims room below it |
| FontAtlas.TallerSpoils | font.c:361-363 | placing a glyph keeps that so if and only if it is no taller than its row's first or no row is left |
| FontAtlas.NoneTallerStaysInside | font.c:346-396 | without a taller glyph all cells stay inside the bottom edge |
| FontAtlas.BottomCanBePassed | font.c:361-396 | three glyphs the last of which passes it by 89 pixels |
| FontAtlas.Font.AtlasAlloc | font.c:314-403 | the frontiers and the glyph list move as the packing above says |
| FontAtlas.Font.UploadGlyph | font.c:416-461 | the first atlas with room takes the glyph, as the packing says; it fails if and only if none has room |
| FontAtlas.Font.FindGlyph | font.c:470-479 | finds the glyph of a character if there is one |
| FontAtlas.Font.GetGlyph | font.c:463-498 | succeeds if and only if the character has a glyph, or is known and loaded and some atlas has room; it is uploaded once, keeps its one glyph and is found from then on |
| SettingsText.StrToUlDec | settings.c:88-96 | an octet printed in decimal is read back, up to what follows it |
| SettingsText.StrToLSigned | settings.c:151-152 | a link mode printed with its sign is read back in base 0 |
| SettingsText.StrToLOtherBases | settings.c:151-152 | a link mode in octal or hexadecimal is read as well, and one too large for 32 bits is cut |
| SettingsFile.NetAddrQuad | settings.c:81-109 | four printed octets are read back |
| SettingsFile.SplitsIff | settings.c:175-209 | any line has a key and a value if and only if it can be read as space, key, space, equals sign, space, value, in one way only |
| SettingsFile.LinesAreAll | settings.c:173-213 | the lines of any text are all its longest stretches without a break, however many breaks of either kind stand between |
| SettingsFile.AssignsIff | settings.c:111-166 | a line assigns something if and only if its value can be read for its key, and otherwise nothing |
| SettingsFile.AssignInTurn | settings.c:173-213 | an unreadable line ends the reading, and those before it count |
| SettingsFile.ReadPairs | settings.c:168-216 | reading printed lines assigns their pairs in order |
| SettingsFile.SettingsRoundTrip | settings.c:359-388 | printed settings are read back whatever they were before, if and only if the flags were 0 or 1 |
| SettingsFile.Runtime.ParseNetAddr | settings.c:81-109 | all four octets or the old address and an error |
| SettingsFile.Runtime.ParseLine | settings.c:111-166 | assigns the one setting a line names |
| SettingsFile.Runtime.ParseSettings | settings.c:168-216 | assigns line by line up to the first that cannot be read |
| SettingsFile.Runtime.WriteSettings | settings.c:359-385 | the text is the eight pairs, one a line |
| SettingsFile.Runtime.WriteAndRead | settings.c:168-388 | settings written and read back by a program with any other settings are the same if and only if the flags were 0 or 1 |
| WordWrap.NoBreakNeeded | UI.c:126-136 | in a text whose lines fit no break is made |
| WordWrap.BreakIsForced | UI.c:129-136 | a break is made only where line and next word do not fit together, counting one more space |
| WordWrap.BreakLongLanguageString | UI.c:99-148 | only spaces become newlines; afterwards every line is narrower than the limit or has no space; a text that was so already is unchanged |

## Left out

- WriteRing: after `-EIO` only what is on the disk is stated; the tokens of the failed transfer are not given back, as in the code.
- IoWrite.Session: waiting is modelled by returning `blocked`, and the endless repetition of a transfer by returning after a given number of repeats; `AwaitAck`, `IOGetNextWrBuffer` and `RepeatTransfer` can be called again.
- Banks: one buffer of `nbufs` equal banks; `IORead`, which copies a bank out, and the allocation of the buffers are left out.
- ClientRing: its functions are modelled as the steps they make, not as code over fields; its read side and its negative results, which `writeFile` never returns, are left out; a failed write may keep any part of its bank but not all of it.
- Hdlfs.Descriptor.LseekSet: `SEEK_CUR` and `SEEK_END` look the slice up from the argument, not from the target, and are not modelled, nor is the descriptor's `size`.
- Hdlfs.Descriptor: the memory behind the slice table is taken not to change during a call.
- Hdlfs.Descriptor.Mount: the partition is open and the table read from it already; a write that fails stores whole sectors from the start of its piece.
- Hdlfs: opening, closing, unmounting, access modes and the game's title, flags and other metadata.
- EndToEndRead.Retrieve: a read is followed up to the point where the slice number comes round.
- ApaAppend: `apaDelete`, the header cache, the journal and passwords are not part of this model, and of `apaInsertPartition` and `apaAddEmptyBlock` only what `ApaFree.dfy` says; a size of 0, on which the code divides by zero, is excluded.
- ApaAppend.Disk.AddPartitionHere: what becomes of a free block is stated for `ApaFree.AddPartition`.
- Sizing.CreateAndFormatPartition: the removal of partitions after a failure is left out.
- Sizing: the driver is taken to grant the sizes asked for; opening a partition that existed already is not modelled.
- Slots: directory handles, how passwords are compared, and the second drive.
- ServerHandlers.Sys.EndInstallation: closing and unmounting, and the memory of the session; the end command before it and its wait are in its callers.
- WriteClose, ReadClose: what a data thread does to semaphores and banks that `IOEnd` and `IOFree` have taken from under it, and what two threads on one ring do to its contents.
- WriteClose.EndReturnsIff: in a file without room for the request it depends on the transfer being made whether the thread comes to see the end command; that is not stated.
- ReadClose.EndReturnsIff: after a failed transfer it depends on the banks left whether the thread comes to see the end command; that is not stated.
- ServerHandlers: memory of the sessions, packets and payloads, commands that touch neither task nor lock, and client slots that stay taken when a thread cannot be started.
- Retrieve: each connection has a run of the console's ring of its own, over the game from its first sector on, as it has wherever no data thread is left at work (`Sessions.GuardedRuns`); what two of them make of one ring is not followed.
- Retrieve: window calls, progress, the closing of the game, and the installer's direction, where a send counts as done before it arrives.
- OsdArea: failing memory, and the contents of the icon files.
- FontAtlas: failing memory, and rendering; a glyph's character is noted together with its place.
- SettingsFile.Runtime.ParseSettings: the cuts the parser makes in its buffer are not written back, and a buffer without a line leaves the result as it happened to be, a parameter here.
- WordWrap: the text is a sequence of decoded characters; multi-byte encoding and its errors are left out.
- Drawing, menus, pads, dialogs, network configuration, disc reading and PNG or FreeType code.
