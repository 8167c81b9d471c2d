# Vehicle tracker firmware: a Dafny model

The firmware of a vehicle tracker receives GPS sentences, watches geofences, keeps files that must
survive a power cut, queues packets for the network, counts passengers by their RFID cards, and
supervises itself. This project models the stateful components behind these functions and proves
what each promises over every input or every run. Code that updates state in place is a class with
that state, or an array; each method is proved against a specification function, and the theorems
are about runs of that function.

| File | Component | Main results |
|---|---|---|
| `Framing.dfy`, `GpsThread.dfy` | receive buffer of the GPS thread | frames do not depend on how the stream was chunked; nothing is lost, except exactly when the buffer fills up without a frame |
| `Geofence.dfy` | entry and exit events of 100 fences | when and what a fence reports, exactly; alternation and spacing of events; convergence within D + 3 calls, which is tight |
| `Division.dfy`, `Crc16.dfy`, `Record.dfy` | table-driven CRC-16 and the stored record | the table method is division by x^16+x^12+x^5+1, the generator of ITU-T Recommendation V.41, section 2; which two-byte damage is noticed, exactly |
| `Storage.dfy` | save with backup, load, recover, file copy | crash safety at every point of a save; a successful load never returns a mixture, over any number of saves, loads and crashes |
| `Sender.dfy` | send queue, sender and retry loop | exact counters, packet conservation, no use of freed memory, when order is kept, exactly; when the size limit is kept, exactly |
| `Rfid.dfy` | RFID boarding table | the partly scanned array refines a map; passenger count; 30 seconds between on and off |
| `LinkedFifo.dfy` | linked list with tail pointer | the heap structure refines a queue under every sequence of operations |
| `Watchdog.dfy` | thread supervision | exactly when the device is powered off; when that means long silence; a silent thread is caught |
| `GpsJump.dfy` | filter for jumping positions | which fix is refused, exactly; at most three refusals in a row |
| `Trip.dfy` | trip distances | one pass computes the largest rise; when a reboot is invisible, exactly |
| `Escalation.dfy`, `LogHistory.dfy` | critical errors and their log | the action of every error, the final level within 16; the newest records, newest first |
| `Debounce.dfy` | ignition and power inputs | when a callback runs, exactly |
| `RateLimit.dfy` | sensor event limiter | when an event is permitted, exactly; the largest burst, and for which settings it is bounded |

`dafny verify dfyconfig.toml` checks everything.

## What the code does differently from what one expects

* A save torn by a crash leaves a short file. `storage_load_file` reports it as a read error and does
  not look at the backup, however good it is: recovery starts only when the file is missing or its CRC
  is wrong (`Storage.TornSaveIsNotRecovered`).
* The stored CRC has its low byte first, so damage that straddles the last data byte and the first CRC
  byte is not a burst for the CRC. Exactly one such damage goes unnoticed (`Record.TwoByteDamage`).
* A read that first succeeds on the third attempt is reported as a failure (`Storage.FileSystem.ReadRecord`).
* A full pipe evicts one packet per add, whatever the sizes. The limit of 2 MB is therefore kept
  exactly for packets of up to 419 bytes; in general the queued bytes reach 5001 times the largest
  packet and never more (`Sender.LimitKeptIff`, `Sender.LimitKeptUpTo419`).
* A failed packet of an opcode other than the two fifo ones goes back to the tail, and is dropped
  without being freed when that write fails (`Sender.LossesAre`). Order is kept exactly when no packet
  goes back behind another one or is dropped (`Sender.OrderThroughoutIff`).
* A thread that kicks between the second and the third late check has only its limit left, not 8
  seconds more. Without reconfiguration this can happen exactly when checks may come a limit or more
  apart (`Watchdog.SilenceIff`); raising the limit meanwhile allows it too
  (`Watchdog.RaisedLimitPowersOff`).
* The boarding table compares times modulo 2^32, so a clock that goes back between boarding and exit
  lets a card get off early, exactly as `Rfid.TakenOffIff` says. A failed clock, which reads as 0, is
  one such case (`Rfid.FailedClockSkipsNothing`).
* A reboot forgets the last reported trip distance; this shows exactly when the next total falls short
  of the base plus that distance (`Trip.ResumeIsExactIff`).
* With `over_speed_limit_time` 0 a refused event does not end a burst (`RateLimit.LimitsIff`).
* `insert_log_history` never shortens its file (`LogHistory.LongLogKeepsTail`).

## Model

| member | source | states |
|---|---|---|
| `Framing.FrameEndIff` | base/thread-gps.c:82-90 | a frame ends at e exactly when e is just behind the first LF that follows the first `$GPGGA` of the text, stated on the characters themselves |
| `Framing.SplitIsTheOnlyCut` | base/thread-gps.c:76-134 | a stream has exactly one cut into frames (each ending with the first LF behind the first `$GPGGA`) with no complete frame left over, and the recursive split computes it |
| `Framing.FrameEndLocal` | base/thread-gps.c:82-90 | a frame that is complete stays the first frame whatever is received behind it |
| `Framing.SplitAppend` | base/thread-gps.c:385-390 | cutting what has arrived and going on with the rest gives the cut of the whole |
| `GpsThread.GpsReader.constructor` | base/thread-gps.c:44-55 | the zeroed static buffer and the start offsets satisfy the buffer invariant |
| `GpsThread.GpsReader.StrStr` | base/thread-gps.c:82 | `strstr` stops at the first NUL; because everything behind the text is kept zero, it finds exactly the first tag of the text, or none |
| `GpsThread.GpsReader.StrNChr` | util/tools.c:39-50 | the first occurrence of a character within a length, or none |
| `GpsThread.GpsReader.CheckNullData` | base/thread-gps.c:223-237 | in place: exactly the NULs among the bytes just received become spaces, no other byte changes |
| `GpsThread.GpsReader.ClearFrom` | base/thread-gps.c:126 | the `memset`: bytes from an offset up to the capacity are zero, all others unchanged |
| `GpsThread.GpsReader.MoveDown` | base/thread-gps.c:123 | the `memmove`: the bytes behind the frame are now in front, even where the ranges overlap |
| `GpsThread.GpsReader.Wait` | base/thread-gps.c:92-113 | no frame: the text is kept, or thrown away when it fills the buffer; the zero tail is restored in both cases |
| `GpsThread.GpsReader.Cut` | base/thread-gps.c:114-131 | the frame handed on and the text kept are together the old text, and the zero tail is restored |
| `GpsThread.GpsReader.FindDelimiter` | base/thread-gps.c:81-90 | the LF behind the first tag, exactly where the first frame ends, or -1 when no frame is complete |
| `GpsThread.GpsReader.SpliteGpsContext` | base/thread-gps.c:76-134 | result 1 exactly when a frame is complete; which bytes are parsed, which stay pending, and the invariant of the buffer |
| `GpsThread.GpsReader.Receive` | base/thread-gps.c:355-358 | the received bytes, NULs replaced, are appended to the pending text |
| `GpsThread.GpsReader.CutFrames` | base/thread-gps.c:385-409 | the inner loop hands on exactly the frames of the greedy split and keeps its remainder |
| `GpsThread.GpsReader.OnRead` | base/thread-gps.c:316-409 | one pass of the thread on the memory buffer equals one step of the reference on plain strings |
| `GpsThread.Listen` | base/thread-gps.c:300-409 | so does every sequence of passes |
| `GpsThread.ChunkIndependence` | base/thread-gps.c:76-409 | as long as no buffer is thrown away, frames and leftover are those of one greedy split of the whole stream, for every chunking |
| `GpsThread.SameStreamSameFrames` | base/thread-gps.c:76-409 | two chunkings of one stream give the same frames |
| `GpsThread.StreamConserved` | base/thread-gps.c:76-409 | frames and leftover together are the stream, each frame is one frame, and the leftover holds none |
| `GpsThread.FramesAreSentences` | base/thread-gps.c:76-409 | every frame of every run, with or without thrown-away text, ends with the first LF behind its first `$GPGGA` |
| `GpsThread.ThrownAwayIff` | base/thread-gps.c:96-104 | text is lost exactly when a read fills the buffer to its last byte and no frame is complete |
| `GpsThread.PendingIs` | base/thread-gps.c:96-109 | what is pending after a read: nothing when text was thrown away, else all that follows the last frame |
| `GpsThread.RunAppend` | base/thread-gps.c:76-409 | a run is the run of its first part followed by the run of the rest from what is pending, so framing goes on behind a thrown-away buffer |
| `Geofence.FenceTable.constructor` | util/geofence-v2.c:25-40 | all fences disabled, outside, not held |
| `Geofence.FenceTable.SetSetup` | util/geofence-v2.c:308-316 | only the setup of a valid index changes; status and hold counter are kept |
| `Geofence.FenceTable.GetNotification` | util/geofence-v2.c:161-218 | the status becomes the side the distance calls for, and the side is returned only if the kind of the fence reports it |
| `Geofence.FenceTable.GetGeofenceNotification` | util/geofence-v2.c:222-262 | the scanning loop with its early return equals the reference step: fences before the first one that fires are passed, that one fires, later ones are untouched |
| `Geofence.EventIsLowest` | util/geofence-v2.c:227-261 | an event names fence k and a side exactly when k is the lowest fence that is enabled, not held, has a known distance on the other side of its range than its status, and is of a kind that reports this |
| `Geofence.CallIs` | util/geofence-v2.c:139-262 | the status and hold counter of every fence after a call, by its distance and range; a failed distance or unknown kind changes no status |
| `Geofence.ReportsAreRight` | util/geofence-v2.c:139-262 | over any run every report says In exactly when the distance of its call was within the range of the fence, else Out |
| `Geofence.ReportsOfFence` | util/geofence-v2.c:161-262 | over any run, from any status and hold counter: an entry-and-exit fence never reports a side twice in a row, nor first the side it was on; entry-only fences report only In, exit-only ones only Out; two reports of one fence are at least 4 calls apart |
| `Geofence.StepTowardsAgreement` | util/geofence-v2.c:222-262 | each call either reports, removing one disagreement, or moves every held fence one scan closer |
| `Geofence.Settled` | util/geofence-v2.c:196-215 | once every fence agrees with unchanged distances, nothing is reported any more |
| `Geofence.Convergence` | util/geofence-v2.c:222-262 | with D disagreeing fences and unchanged distances, D + 3 calls bring all fences into agreement and end all reports |
| `Geofence.ConvergenceAfterRun` | util/geofence-v2.c:222-262 | the same from wherever a run has led, with a condition on the hold counters of its first table only |
| `Geofence.SettledSides` | util/geofence-v2.c:139-262 | after convergence every enabled fence of a known kind with a known distance is In exactly when the distance is within its range, else Out |
| `Geofence.ConvergenceIsTight` | util/geofence-v2.c:222-262 | for every number D of disagreeing fences there is a table for which D + 2 calls do not suffice |
| `Geofence.HoldBound` | util/geofence-v2.h:16 | over any run hold counters never exceed the wait of 3 scans |
| `Crc16.TableEntry` | util/crc16.c:3-20 | each of the 256 table entries is the remainder of its index |
| `Crc16.ShortEntry` | util/crc16.c:3-20 | only entries 0x00 and 0x89 have no high byte, which is what makes the blind spot of the stored record the only one |
| `Crc16.ByteInIsDivision` | util/crc16.c:27-29 | one loop iteration takes the check bits of a message to those of the message with the byte appended |
| `Crc16.CrcIsDivision` | util/crc16.c:22-32 | for every buffer the loop computes the remainder of the polynomial division by x^16+x^12+x^5+1 |
| `Crc16.Crc16Get` | util/crc16.c:22-32 | the imperative loop returns that remainder |
| `Crc16.StepsLinear` | util/crc16.c:22-32 | the register is linear under exclusive or |
| `Division.RemainderLinear` | util/crc16.c:3-20 | the reference division is linear |
| `Division.BurstInjective` | util/crc16.c:22-32 | messages of one length that differ within 16 adjacent bits have different remainders |
| `Division.CodewordEven` | util/crc16.c:22-32 | a message with its check bits always holds an even number of ones |
| `Crc16.TwoByteBurst` | util/crc16.c:22-32 | buffers that differ at most in two adjacent bytes have equal CRCs exactly when they are equal |
| `Record.AcceptsIffEncoded` | util/storage.c:95-105 | a record is accepted exactly when it is the stored form of its own data |
| `Record.TwoByteDamage` | util/storage.c:95-105 | damage within two adjacent bytes, anywhere in data and CRC, is accepted exactly in the blind spot: last data byte changed by 0x89 and low CRC byte by 0xA1 |
| `Record.Straddle` | util/storage.c:145-149 | the blind spot in terms of the two bytes changed |
| `Record.OddDamage` | util/storage.c:95-105 | damage that flips an odd number of bits is never accepted |
| `Storage.FileSystem.OpenTrunc` | util/storage.c:139-142 | opening for writing empties the file, or changes nothing |
| `Storage.FileSystem.Write` | util/tools.c:196-215 | a write that may be short or fail appends a prefix of its bytes, and so does every state in between |
| `Storage.FileSystem.WriteAll` | util/tools.c:196-215 | the loop around it appends everything, or fails having appended a prefix |
| `Storage.FileSystem.Copy` | util/tools.c:161-240 | `tools_cp` makes an exact copy or fails; every state in between is untouched or holds a prefix of the source |
| `Storage.FileSystem.Overwrite` | util/storage.c:139-152 | every state in between holds some of the data, then some of its CRC |
| `Storage.FileSystem.SaveFile` | util/storage.c:132-153 | backup, then record; the ignored results do not widen the set of states a crash can leave |
| `Storage.FileSystem.ReadRecord` | util/storage.c:66-93 | for the outcomes of the three attempts: success exactly when the first or the second is a full read; a full read on the third returns the error of the second, otherwise the error is that of the third |
| `Storage.FileSystem.LoadFile` | util/storage.c:55-111 | success exactly for a record that was read in the first two attempts and is accepted, the CRC error exactly for one that is not, otherwise the error of the attempts; on failure the output stays zero |
| `Storage.FileSystem.StorageLoadFile` | util/storage.c:113-130 | recovery from the backup for a missing file and for a CRC error; on any device a file that is there and is not read, or is read and accepted, stays as it is, and so does everything when there is no backup; the two loads have independent faults |
| `Storage.SaveThenLoad` | util/storage.c:113-153 | an undisturbed save is read back |
| `Storage.CrashDuringSave` | util/storage.c:132-153 | after a crash at any point of saving b over a the load returns a, b or the read error; a short file is not recovered even when the backup is good |
| `Storage.TornSaveIsNotRecovered` | util/storage.c:123-150 | for every length at which the new record can be cut off there is such a state, with all of the older record in the backup, and the load reports the read error |
| `Storage.LostFile` | util/storage.c:117-121 | after saving a, then b, losing the file makes the load return a and restore it |
| `Storage.DamagedFile` | util/storage.c:123-127 | so does damage within two adjacent bytes, except for the blind spot, which loads the damaged data |
| `Storage.OddDamagedFile` | util/storage.c:123-127 | so does any damage of odd weight, without exception |
| `Storage.RunKeepsGenuine` | util/storage.c:113-153 | through any number of saves, loads and crashes both files hold part of a block that was saved |
| `Storage.NeverAMixture` | util/storage.c:113-153 | hence a load that succeeds returns one saved block, whole |
| `Sender.ToolsChecksumXor` | util/tools.c:140-149 | the exclusive or of the bytes, the first byte being read even for length 0 |
| `Sender.XorChanges` | util/tools.c:140-149 | the checksum of one byte is that byte, and changing any byte by d changes the checksum by d |
| `Sender.ChecksumNotices` | util/tools.c:140-149 | a single changed byte changes the checksum exactly when it is among those checked |
| `Sender.SendLane.constructor` | util/pipe.c:20-28 | an empty lane |
| `Sender.SendLane.Evict` | util/pipe.c:82-104 | a full pipe gives up and frees exactly its oldest packet |
| `Sender.SendLane.PipeAddData` | util/pipe.c:64-118 | a full pipe gives up its oldest packet, even if the write then fails; the packet is appended exactly when the write succeeds |
| `Sender.SendLane.PipeReAddData` | util/pipe.c:120-160 | the same for a packet put back; when the write fails it is dropped without being freed |
| `Sender.SendLane.PipeRead` | util/pipe.c:197-219 | the oldest packet and the counters without it, or -1 for an empty pipe |
| `Sender.SendLane.PipeCheckCsumData` | util/pipe.c:182-195 | 0 exactly when the payload in memory has the checksum of the packet |
| `Sender.SendLane.SenderAddDataToBuffer` | base/sender.c:86-130 | the packet is accepted, or freed by the producer when the write fails |
| `Sender.SendLane.NetworkTake` | base/sender.c:256-288 | the oldest packet goes in flight, or is rejected and freed when its checksum differs |
| `Sender.SendLane.TxData` | base/sender.c:132-159 | a sent packet is freed; a failed one goes to the tail, or is retried for the two fifo opcodes |
| `Sender.LaneCounted` | util/pipe.c:64-219 | after any run of adds, reads, re-adds, failures and memory damage from the empty lane, `num` and `size` are exact, `num` is at most 5001, and `size` fits 32 bits |
| `Sender.MemoryIsOwned` | base/sender.c:86-296 | after any such run no payload was read or freed after it was freed, and the payloads in memory are exactly those of the packets queued, in flight or leaked, one for each |
| `Sender.SizeBoundReached` | util/pipe.h:7-8 | for every packet size m a run of adds of at most m bytes that reaches 5001 packets of m bytes |
| `Sender.LimitKeptIff` | util/pipe.c:64-118 | every run whose adds are at most m bytes stays within PIPE_MAX_SIZE and some slack exactly when 5001 * m does |
| `Sender.LimitKeptUpTo419` | util/pipe.h:7-8 | the limit is kept, or exceeded by at most one packet, exactly for packets of up to 419 bytes |
| `Sender.Conservation` | base/sender.c:86-296 | over any run every accepted packet is in exactly one of queued, in flight, sent, evicted, rejected, leaked |
| `Sender.AcceptedAndSent` | base/sender.c:86-159 | an action accepts a packet exactly when it is an add whose write succeeds, with its opcode, size and a sound payload, and sends the packet in flight exactly when it is a successful transmission |
| `Sender.EvictionsAre` | util/pipe.c:82-104 | over any run the evicted packets are exactly the oldest ones at adds and re-adds with more than 5000 packets or more than 2 MB queued, one each |
| `Sender.StaysInFlightIff` | model/alloc2/alloc2_nettool.c:22-63 | a packet stays in flight exactly after a failed transmission of opcode 0x92 or 0x93 |
| `Sender.NothingLost` | util/pipe.c:182-195 | while payloads are not altered and writes of re-adds succeed, the checksum branch is unreachable and nothing leaks |
| `Sender.LossesAre` | base/sender.c:132-296 | over any run the leaked packets are exactly those of failed attempts, other than the fifo opcodes, whose write back failed, and the rejected ones exactly those read with a changed payload |
| `Sender.DamagedPayloadIsRejected` | base/sender.c:281-288 | a queued packet with any single byte damaged among those to be sent is rejected by the next read |
| `Sender.EmptyLane` | util/pipe.c:20-28 | the state after `pipe_init` is a start for the run lemmas |
| `Sender.OrderKeptIff` | base/sender.c:139-156 | an attempt keeps the line of sent, in-flight and queued packets in accept order exactly when it succeeds, or has a fifo opcode, or goes back to an otherwise empty queue |
| `Sender.OrderThroughoutIff` | base/sender.c:86-296 | over any run, on either pipe, the line is in accept order throughout exactly when every attempt is of that kind |
| `Sender.FifoOrder` | model/alloc2/alloc2_nettool.c:22-63 | hence on the fifo pipe sent, in flight and queued packets are always the accept sequence with only evicted and rejected ones removed |
| `Sender.FailedSendIsOvertaken` | base/sender.c:139-156 | on the other pipe a failed packet ends up behind everything queued |
| `Sender.SendPacketLoop` | model/alloc2/netcom.c:241-632 | the retry loop returns the first result that ends it; never a negative one for the two fifo opcodes |
| `Sender.AttemptsAreSendPacket` | model/alloc2/netcom.c:614-632 | the single attempts of the lane are the turns of that loop |
| `Rfid.RfidTable.constructor` | board/rfidtool.c:187-189 | the static table holds no card |
| `Rfid.RfidTable.Search` | board/rfidtool.c:197-222 | the slot of the card within the scanned part, or the first unused slot, with all slots before it in use |
| `Rfid.RfidTable.CheckPassenser` | board/rfidtool.c:190-281 | scanning only `max_idx + 2` slots gives the result, and the new set of boarded cards, that a map from card to boarding time gives |
| `Rfid.BoardedSize` | board/rfidtool.c:187-281 | at most one card per slot; the map holds 1000 cards exactly when every slot is taken |
| `Rfid.BoardedSince` | board/rfidtool.c:190-281 | every boarded card has a read that put it on board, its entry is the time of that read, and its reads since were skipped |
| `Rfid.TakenOffIff` | board/rfidtool.c:253-270 | a boarded card gets off exactly 30 seconds or more after its entry, or when the clock has gone back by at most 2^32 - 30 seconds |
| `Rfid.OffIff` | board/rfidtool.c:190-281 | over any run the same of the clock at the exit read and at the read that put the card on board; no other read matters |
| `Rfid.OffThirtySecondsAfterOn` | board/rfidtool.c:253-270 | a card gets off only after the read that put it on board, and 30 seconds later or more exactly when the clock has not gone back between the two |
| `Rfid.FailedClockSkipsNothing` | util/tools.c:53-88 | a failed clock, reported as 0, at the exit: exactly which entry times let the card off; at the boarding: off at any read from kernel time 30 on |
| `Rfid.PassengerCount` | board/rfidtool.c:190-281 | cards on board = reported boardings - reported exits - boardings reported while the table was full |
| `LinkedFifo.ListInstance.Add` | util/list.c:21-58 | the sequence of payloads grows by one at its end; head, tail and count stay consistent |
| `LinkedFifo.ListInstance.Pop` | util/list.c:60-105 | the first payload is returned and removed; -1 exactly for an empty list |
| `LinkedFifo.ListInstance.DelAll` | util/list.c:107-132 | terminates with the empty list, having freed every payload once, in order |
| `LinkedFifo.ListInstance.GetNum` | util/list.c:134-142 | the number of payloads |
| `LinkedFifo.Drive` | util/list.c:21-142 | the list in memory behaves as a queue under every sequence of operations |
| `LinkedFifo.FirstInFirstOut` | util/list.c:21-105 | popped payloads followed by queued ones are the added ones, in order |
| `Watchdog.WatchdogTable.constructor` | base/watchdog.c:44-68 | no watchdog started, default limits |
| `Watchdog.WatchdogTable.SetCurKtime` | base/watchdog.c:72-97 | a kick records a positive time, any other time is refused |
| `Watchdog.WatchdogTable.SetInitKtime` | base/watchdog.c:99-104 | a watchdog is disabled, its count of silent checks stays |
| `Watchdog.WatchdogTable.SetLimit` | base/watchdog.c:106-113 | only the limit changes |
| `Watchdog.WatchdogTable.WatchdogProcess` | base/watchdog.c:115-216 | the loop equals the reference check, including the minimum of 4 seconds between checks and the unsigned comparison |
| `Watchdog.LateIsExpired` | base/watchdog.c:141-163 | in every reachable state the test on the stored time holds exactly when the thread was started and none of its kicks came less than its limit before |
| `Watchdog.PowerOffIff` | base/watchdog.c:115-216 | for every run of kicks, checks, disabling and reconfiguration: the device is powered off exactly when some thread was late at three checks with none in between that it passed |
| `Watchdog.NoFalseAlarm` | base/watchdog.c:115-216 | no power-off if at every effective check every started thread has kicked less than its limit before |
| `Watchdog.PowerOffMeansSilence` | base/watchdog.c:115-216 | while a watchdog counts, checks come less than its limit apart and the limit is not raised: then a power-off means some thread was silent for its limit plus 8 seconds, whatever was disabled |
| `Watchdog.SilenceIff` | base/watchdog.c:115-216 | without reconfiguration, every power-off comes after a silence of limit + 8 seconds exactly when the gap between checks is less than each limit |
| `Watchdog.LateKickPowersOff` | base/watchdog.c:115-216 | for every limit and every gap at least as large, a run from the constructed table that powers off earlier |
| `Watchdog.RaisedLimitPowersOff` | base/watchdog.c:106-113 | for every raise of a limit above 4 seconds, the smallest gap, while its watchdog counts: such a run, steady at every other event |
| `Watchdog.FutureKickExpires` | base/watchdog.c:115-216 | a kick stamped after the time sampled by the check counts as expired exactly when difference and limit together fit the 32-bit range |
| `Watchdog.SilentThreadIsCaught` | base/watchdog.c:115-216 | a thread that stops at k is caught by k + limit + 3 * (gap + 3) when the check is called every `gap` seconds |
| `GpsJump.GpsTool.CheckDistance` | base/gpstool.c:1216-1368 | acceptance and the new state of the filter, for every order of the tests in the code |
| `GpsJump.GpsTool.RestartCheckDistance` | base/gpstool.c:1554-1557 | only the flag of the first fix is cleared |
| `GpsJump.RefusedIff` | base/gpstool.c:1216-1368 | which active fix is refused, by distances, elapsed time, limits, and the flags and counter of the filter; the speed test as a product, without division of the distance |
| `GpsJump.FartherIsRefused` | base/gpstool.c:1216-1368 | a farther fix of the same time is refused where a nearer one is |
| `GpsJump.NextIs` | base/gpstool.c:1216-1368 | what every input does to the filter, by its verdict |
| `GpsJump.CounterIsErrors` | base/gpstool.c:1216-1368 | over any run from the start the counter is the number of refusals since a fix was last stored |
| `GpsJump.AtMostThreeRefusals` | base/gpstool.c:1216-1368 | under any interleaving of fixes, inactive fixes and restarts at most three active fixes in a row are refused, and the counter stays within 0..3 |
| `GpsJump.ThreeRefusalsHappen` | base/gpstool.c:1308-1330 | three in a row do happen |
| `GpsJump.FourthFixIsAccepted` | base/gpstool.c:1308-1330 | after a run that ends with three refusals in a row the next active fix is accepted wherever it is |
| `GpsJump.LastWasAccepted` | base/gpstool.c:1423-1428 | the stored last valid fix is the newest one that the run accepted and could measure, and the initial one if there is none |
| `Trip.TripMeter.ChkKeyonSectionDistance` | model/alloc2/alloc2_daily_info.c:147-167 | one update of base and last distance |
| `Trip.TripMeter.InitKeyonSectionDistance` | model/alloc2/alloc2_daily_info.c:169-175 | a new base, nothing reported yet, and the same total as previous total |
| `Trip.TripMeter.GetDiffDistancePrev` | model/alloc2/alloc2_daily_info.c:180-197 | the increase since the previous total, never negative |
| `Trip.SectionIsLargestRise` | model/alloc2/alloc2_daily_info.c:147-167 | for positive totals the one-pass update returns the largest rise between any two totals, the earlier one first, since the base |
| `Trip.DiffSumIsClimb` | model/alloc2/alloc2_daily_info.c:180-197 | the returned distances sum up to all increases between neighbouring totals |
| `Trip.ClimbCoversRise` | model/alloc2/alloc2_daily_info.c:147-197 | that sum bounds every rise, and is the net distance when totals never fall |
| `Trip.TripMeter.Resume` | model/alloc2/alloc2_daily_info.c:492-520 | save, power off, boot and load keep base and previous total, and forget the last reported distance |
| `Trip.ResumeIsExactIff` | model/alloc2/alloc2_daily_info.c:492-520 | a reboot is invisible to all later results of `chk_keyon_section_distance` and `get_diff_distance_prev`, in any order and whatever the totals, exactly when the first total asked for the section distance reaches the base plus the last reported distance |
| `Trip.ResumeOfRisingTotals` | model/alloc2/alloc2_daily_info.c:492-520 | in particular when totals never fall |
| `Escalation.ErrorState.Count` | base/error.c:219-275 | the counters and the action, including the fall-through from exit to reboot |
| `Escalation.ErrorState.CheckWorkingProperly` | base/error.c:286-301 | once per process a device that has been up for ten minutes starts counting afresh |
| `Escalation.ErrorState.ErrorCritical` | base/error.c:173-284 | the action taken, and the data file afterwards |
| `Escalation.RankRises` | base/error.c:219-275 | each exit or reboot error raises 4 * no_reboot + no_exit, at most to 15, or ends in the final level and clears the counters |
| `Escalation.ActionIs` | base/error.c:219-275 | the action every error takes and the rank it leaves: every fourth exit error reboots, the sixteenth is final, reboot errors count four; a final error always resets, a logged one changes nothing |
| `Escalation.FinalWithinSixteen` | base/error.c:219-275 | any 16 critical errors in a row, in any mix, reach the final level |
| `Escalation.ExitsReachFinal` | base/error.c:219-275 | exit errors alone, from a clean file: the n-th (from 0) exits, reboots for n = 3, 7, 11, and is final for n = 15, and so on in turns of 16 |
| `Escalation.RebootsReachFinal` | base/error.c:219-275 | reboot errors alone, from a clean file: three reboots, then final, and so on |
| `LogHistory.LogFile.InsertLogHistory` | base/error.c:34-85 | the file after the read and the two writes |
| `LogHistory.InsertKeepsNewest` | base/error.c:34-85 | a log of at most `max_count` records, even torn within its last one, becomes the new record followed by the newest old ones |
| `LogHistory.LogHoldsNewest` | base/error.c:34-85 | after any number of inserts the file holds the newest `max_count` records, newest first |
| `LogHistory.LongLogKeepsTail` | base/error.c:34-85 | a file longer than `max_count` records is never cut: what lies beyond stays |
| `Debounce.ButtonPower.constructor` | base/thread-btn-pwr.c:398-452 | the states both lines report at start |
| `Debounce.ButtonPower.CheckBtnPwrEvent` | base/thread-btn-pwr.c:133-168 | an edge of either direction restarts the hold of its own line only |
| `Debounce.ButtonPower.CheckIgnOnOff` | base/thread-btn-pwr.c:183-282 | whether a callback runs, and the new state of the ignition line |
| `Debounce.ButtonPower.CheckPwrOnOff` | base/thread-btn-pwr.c:284-378 | the same for the power source |
| `Debounce.CallbacksAlternate` | base/thread-btn-pwr.c:183-378 | callbacks of a line alternate and are at least the hold time apart |
| `Debounce.FiresIff` | base/thread-btn-pwr.c:183-378 | a callback runs exactly when the poll reads the new level and nothing in the last hold time spoke for the old one: no edge, no poll of the old level, no failed reading after the hold had run out |
| `RateLimit.GpioTiming.GetGpioSendTiming` | model/alloc2/alloc2_senario.c:659-753 | the permission, and the new state |
| `RateLimit.PermittedIff` | model/alloc2/alloc2_senario.c:659-753 | a call is permitted exactly when it is due, read off the earlier calls: after a refusal from the limit time on, otherwise after 60 s or while the burst has less than its share |
| `RateLimit.BurstsAreBounded` | model/alloc2/alloc2_senario.c:659-753 | a burst of sent events, each less than 60 s after the one before, has at most 2 * over_speed_limit_km + 1 members |
| `RateLimit.BoundIsReached` | model/alloc2/alloc2_senario.c:659-753 | a run that reaches this bound, for every setting |
| `RateLimit.LimitTimeZero` | model/alloc2/alloc2_senario.c:690-706 | with a limit time of 0 a burst exceeds the bound |
| `RateLimit.LimitsIff` | model/alloc2/alloc2_senario.c:659-753 | the settings bound every burst exactly when the limit time is not 0 |

## Left out

- GpsThread.GpsReader.OnRead: takes a chunk of at most `will_read_size` bytes, although base/thread-gps.c:316 offers the receiver the whole buffer size; longer reads are outside the model, as are the read-error counters and the skip counter.
- GpsThread.GpsReader.constructor: models the first `gps_init`; a second call, which resets the offsets without clearing the buffer, is not modelled.
- Geofence.FenceTable.GetGeofenceNotification: distances are integers supplied for each fence; the haversine formula and the saving of the status after an event are not modelled, nor is the overflow of a hold counter after 2^31 quiet scans.
- Storage.FileSystem.Write: interrupted and zero-length writes, which `tools_cp` repeats, are not modelled; a write that reports an error may have stored any part of its bytes.
- Storage.FileSystem.StorageLoadFile: the waiting for a file to appear (three tries, a second apart) is one test.
- Sender.SendLane.PipeAddData: the capacity of the kernel pipe is the parameter `writeOk`; a partial read of a pipe record is not modelled, and `make_packet` is a parameter.
- Sender.SendLane.TxData: one transmission is one step; each C function is atomic, so races between producers and the network thread on the unlocked counters are not modelled.
- Sender.NothingLost: says nothing when the write of a re-add fails or memory changes; `Sender.LossesAre` says exactly what is lost then.
- Storage.DamagedFile: the load returns the older block only outside the blind spot; `Record.TwoByteDamage` states that exception exactly.
- Rfid.RfidTable.CheckPassenser: a card id is four bytes; other values of `len_uid` are not modelled.
- Watchdog.WatchdogTable.WatchdogProcess: the work of the power-off is the flag `flag_wd_mutex`; the debug configuration with 20-second limits is not modelled.
- Watchdog.SilenceIff: limits are below 0x30000000 seconds (25 years), so that the runs that show the failure end before the clock reaches 2^31; that a smaller gap gives the silence holds for all limits.
- GpsJump.GpsTool.CheckDistance: distances come with the fix as integers; resetting the receiver and the loading of the stored fix at start are not modelled.
- Trip.TripMeter.Resume: the record is stored and read back; a failing store, and the per-day maximum `get_daily_info__daily_distance`, are not modelled.
- Escalation.ErrorState.ErrorCritical: the data file can be written; `Missing` stands for a file that cannot be read. LEDs, messages and the restart itself are not modelled.
- LogHistory.LogFile.InsertLogHistory: the file can be opened, read and written; running out of memory is not modelled.
- Debounce.ButtonPower.CheckIgnOnOff: the time is read once per poll, and a callback does not change the line.
- RateLimit.BurstsAreBounded: settings are constant during the run and times do not go back.
- Each file that holds an unresolved merge conflict is modelled in its first half.
- Sockets, FTP, HTTP, UART, GPIO, LEDs, SMS commands, packet builders, configuration files and log output: input and output without state of their own.
- `tools_strnstr` and the validation helpers: single searches or tests with nothing to relate them to.
- Threads, priorities and mutexes: every C function, or every named step of it, is atomic.
