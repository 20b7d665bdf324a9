# Work buffers, time base and cruncher control of the distributed.net client

A Dafny model of the client's stateful core, with proofs.

- **Work buffers.** A packet lives in an in- or out-buffer of its contest: a growable pointer array used as a stack
  (`MemBuffers`) or a file of fixed-size slots in which an all-zero slot is free (`Records`, `SlotFile`, `Disk`). On
  these sit the routed put and get with cross-saving of misfiled packets (`Routing`, `Buffers`), fetch and flush
  (`Fetch`, `Flush`), import and checkpoint recovery (`Import`, `Checkpoint`), and the update check and retry delays
  (`UpdatePolicy`). For every exit of every loop the laws say which packets are where and which are lost, and why: to
  which failed operation a loss answers, or that the code itself loses it, as an import does after a read error.
- **Time base.** The tick conversion (`TickConversion`), the counter behind a test-and-set lock as a state machine
  whose steps interleave in any order (`TickClock`), and timeval and summary arithmetic (`Timevals`).
- **Cruncher control.** The suspend and exit flags between the main loop and any number of crunchers, again as
  interleaved steps (`Crunchers`), and the timeslice controller (`Timeslice`).
- **Codecs.** Base64 (`Base64`) and the time limit's `h:mm` (`TimeLimit`).

`Machine` defines 32- and 64-bit wrap-around and C's division. Code that works in place is a method over a class, an
array or a linked list, proved equal to a function of the old state; what the code promises is proved about those
functions as lemmas, for every pattern of errors, with what a run without errors promises on top ("clean": no operation
of that very call met an error). As a method and its function could share a mistake, the laws are stated on fields,
numbers, packets and times rather than through the helper functions both use.
Buffer files are named by an index into one sequence of files, so that two names may stand for the same file. I/O
errors, the allocator's answers, polls of the exit trigger, clock readings and what other clients do to shared files are
parameters that range over all possibilities. Fetch, flush and import are modelled over the slot files, without the
flag by which the public file layer refuses remote buffers (common/buffpub.cpp:88-93).

Where the code does not do what its comments suggest, the model follows the code, a lemma gives the input, and another
says exactly when the property holds: `Buffers.ReachesIff` (a get that misses a packet), `Import.ImportIsWholeIff`,
`Import.ImportNeverEndsIff`, `Checkpoint.CrashAndRecover`, `TickConversion.ConversionIsExactIff`,
`TickConversion.GoesBackAtHorizon`, `TickClock.AnswerIsNormalIff`, `Timeslice.AverageRateIsExactIff`,
`Timeslice.MeasuredIsExactIff`, `Timevals.AddNowIsWrongOnlyInPlace`, `Crunchers.CanStillBeginIff` and
`TimeLimit.WrittenComesBackIff`.

## Model

| member | source | states |
|---|---|---|
| Records.SwitchByteOrder | common/buffpub.cpp:181-251 | The conversion written step by step, with `dest` possibly the source record itself, leaves in `dest` the pure conversion of the old source. |
| Records.SwapWork | common/buffpub.cpp:205-249 | The field-by-field loop over the work area reverses exactly the declared fields, whatever the contest's layout. |
| Records.StoredFieldValue | common/buffpub.cpp:181-251 | Every number a contest declares in its work area is stored in network order: both kinds of host write the same bytes for the same value. |
| Records.SwapFieldsInvolution | common/buffpub.cpp:205-249 | Swapping the fields of a work area twice gives it back, for any layout that covers it. |
| Records.SwitchRoundTrip | common/buffpub.cpp:181-251 | Host form to stored form and back is the identity up to NUL-terminating the id for handled contests; any other contest comes back as 0xff. |
| Records.SwitchThrice | common/buffpub.cpp:181-251 | A record that was read from a file survives being stored and read again unchanged, whatever its contest. |
| Records.SwitchKeepsFields | common/buffpub.cpp:181-251 | What a conversion leaves alone, field by field: the first 63 bytes of the id, the state, processor, system, build and core; the last byte of the id becomes 0; contests 4 to 6 stay, any other becomes 255 with its work untouched. |
| Records.StoredKeepsFields | common/buffpub.cpp:181-353 | What a reader gets back of a stored record, field by field, its work included. |
| Records.SwitchedIsNotBlank | common/buffpub.cpp:275-287 | A converted record is never all zero, so a stored packet is never taken for a free slot (handled contest numbers are not 0). |
| Records.BlankIsAllZero | common/buffpub.cpp:265-266 | The record that marks a free slot is zero in every byte of every field. |
| SlotFile.PutAddsOne | common/buffpub.cpp:256-304 | A put adds exactly one packet to the bag the file stands for, also when counting makes it prefer the last free slot. |
| SlotFile.PutGrowsOnlyWhenFull | common/buffpub.cpp:264-294 | A put lengthens the file only if no slot is free, and then by one. |
| SlotFile.TargetSlotIs | common/buffpub.cpp:264-284 | A put goes to the first free slot if nobody asks for the count, and to the last one otherwise. |
| SlotFile.GetTakesFirst | common/buffpub.cpp:308-353 | A get removes the first packet in slot order and leaves the others in order; it finds none exactly when the file holds none. |
| SlotFile.GetZapsOnlyBlanks | common/buffpub.cpp:317-344 | The file is emptied only when no packet is left in it. |
| SlotFile.PacketCount | common/buffpub.cpp:357-405 | The number of packets is the number of slots that are not blank. |
| SlotFile.RunConservesPackets | common/buffpub.cpp:256-353 | Over every run of puts and gets: packets put = packets got + packets in the file, and the file is never longer than the peak number of packets it held since it was last emptied. |
| SlotFile.GetAfterRun | common/buffpub.cpp:256-353 | After any run a get succeeds exactly when more was put than got, and yields one of the difference. |
| Disk.ScanForSlot | common/buffpub.cpp:264-284 | The scan loop finds the slot to overwrite and the number of live records passed, or reports the read error it met. |
| Disk.BufferFiles.PutFileRecord | common/buffpub.cpp:256-304 | Succeeds exactly when no fault hits the reads it makes or the write; then one file changes, by one slot, and the reported count is all packets now in it; otherwise nothing changes. |
| Disk.PutFailsIff | common/buffpub.cpp:256-304 | A put fails if and only if the file cannot be opened or written, or a record it passes cannot be read: any one if it counts, else one with no free slot before it. |
| Disk.BufferFiles.GetFileRecord | common/buffpub.cpp:308-353 | Result code, record, new file and reported count for every fault pattern; the count is that of the fetched packet's own contest, 0 if counting fails. |
| Disk.GetFailsIff | common/buffpub.cpp:308-353 | A get fails if and only if the file cannot be opened, or a record with only free slots before it cannot be read, or there is a packet and the file cannot be written; else it finds nothing exactly in a file of free slots. |
| Disk.BufferFiles.CountFileRecords | common/buffpub.cpp:357-405 | Counts the packets and the stats units of one contest, or fails with both 0. |
| Disk.CountFailsIff | common/buffpub.cpp:357-405 | A count fails if and only if the file cannot be opened or a record cannot be read. |
| Disk.CountOne | common/buffpub.cpp:380-395 | What one packet counts for: one if it is of the contest, and its units if it is rated. |
| Disk.StatsByBag | common/buffpub.cpp:357-405 | The units of a file depend on its bag of packets only. |
| Disk.EqualUnits | common/buffpub.cpp:380-395 | Equally rated packets are worth their number times the rating. |
| Routing.MatchesByCodes | common/buffbase.cpp:261-277 | By the numbers: a packet belongs in an in-buffer if and only if its contest is at most 6 and its code 0, in an out-buffer if and only if its code is 1 or 2. |
| Routing.HeldPut | common/buffpub.cpp:256-304 | Over all files together, a put into any one of them adds exactly its packet. |
| Routing.HeldGet | common/buffpub.cpp:308-353 | Over all files together, a get from any one of them removes exactly the packet it returns. |
| Buffers.Client.PutBufferRecord | common/buffbase.cpp:245-309 | Succeeds exactly when the packet is recognised and this one operation meets no error that matters. By the numbers: without an error, contests 0 to 6 with code 0 go to their in-buffer, with 1 or 2 to their out-buffer, one packet more is there and its count is the answer; any other packet gets -1 and changes nothing. |
| Buffers.SavedByCodes | common/buffbase.cpp:245-309 | The same law of the specification function. |
| Buffers.SaveReadsAll | common/buffbase.cpp:276-309 | Storing counts the whole file, so any record of it that cannot be read makes it fail. |
| Buffers.Client.TakeOne | common/buffbase.cpp:356-438 | One pass of the file loop: found, stopped, or a misfit cross-saved or dropped, with the state after each. |
| Buffers.Client.GetBufferRecord | common/buffbase.cpp:318-448 | The loop over polls, gets and cross-puts terminates, with the answer and state of the search the laws below are about. |
| Buffers.SearchSifts | common/buffbase.cpp:356-438 | For every error pattern and exit: what was taken came off the front of the buffer, in order; every other buffer gained exactly the saved strays that belong in it; none went back into this one; what was returned or dropped is in no file; all else is as before. |
| Buffers.SearchPassesMisfits | common/buffbase.cpp:356-438 | Only misfits are passed, and a packet returned is of the contest and direction asked for and survives being stored. |
| Buffers.SearchDropsOnFault | common/buffbase.cpp:392-431 | To each recognised packet dropped belongs a different operation of this search, a put that met an I/O error. |
| Buffers.SearchFinds | common/buffbase.cpp:370-447 | If no operation of the search met an error, no recognised packet is dropped, the count returned is what the buffer then holds of the contest, and without a break a packet is returned if and only if one can be reached. |
| Buffers.GetBufferKeeps | common/buffbase.cpp:318-448 | Over all files, before = after + returned + dropped; files that are no local buffer are untouched; recognised drops answer to failed puts. |
| Buffers.GetByCodes | common/buffbase.cpp:356-438 | By the numbers: a get without an error returns the packet at the front if and only if it is of the contest and its code is 0, or 1 or 2, as the buffer asks; a front packet of another kind is passed, saved elsewhere if its contest is at most 6 and its code at most 2, and dropped otherwise. |
| Buffers.UncountedIsNone | common/buffbase.cpp:370-447 | A get after which the rest cannot be counted reports 0, and the search stops there. |
| Buffers.GetBufferFinds | common/buffbase.cpp:318-448 | The whole call, clean and not interrupted, succeeds if and only if the reachability condition holds of the buffer. |
| Buffers.ReachesIff | common/buffbase.cpp:370-447 | The reachability condition in closed form: some matching packet has, for each packet ahead of it, another of that packet's contest still behind. |
| Buffers.GoodPacketHidden | common/buffbase.cpp:370-447 | The `while (count)` corner: one misfiled packet, alone of its contest, hides the good packet behind it. |
| MemBuffers.MemTable.Put | common/buffbase.cpp:106-146 | Pushes one packet, or changes nothing but the capacity; succeeds exactly when the record can be allocated and there is room after the attempt to grow; no other buffer changes. |
| MemBuffers.MemTable.Get | common/buffbase.cpp:148-173 | Pops the last packet; the count is the new height. |
| MemBuffers.MemTable.PutBufferRecord | common/buffbase.cpp:245-309 | On memory buffers, by the numbers: contests 0 to 6 with code 0 go on their in-buffer's stack, with 1 or 2 on their out-buffer's, and the answer is its new height; refused exactly if no record can be allocated or the stack is full and cannot grow; every other packet gets -1; no other stack changes. |
| MemBuffers.PushedByCodes | common/buffbase.cpp:245-309 | The same law of the specification function. |
| MemBuffers.MemTable.SortOne | common/buffbase.cpp:356-438 | One pass of the memory loop: found, stopped, or a misfit pushed where it belongs if that is another buffer and the push is granted. |
| MemBuffers.MemTable.GetBufferRecord | common/buffbase.cpp:318-448 | The loop terminates with the answer and table of the search the laws below are about; an unknown contest changes nothing. |
| MemBuffers.SearchMemSorts | common/buffbase.cpp:356-438 | What was taken was on top of its stack, in order; every other stack gained exactly the strays that belong on it; none went back on this one; the table stays well-formed, whatever the allocator answers. |
| MemBuffers.SearchMemPassesMisfits | common/buffbase.cpp:356-438 | Only misfits are passed; a packet returned was asked for and its count is the height left; nothing found without a break means the whole stack was searched. |
| MemBuffers.SearchMemAccounts | common/buffbase.cpp:356-438 | Every misfit is saved or dropped, and each recognised one dropped has its own packet number at which an allocation was refused or its buffer held 20000 packets. |
| Fetch.UnitsToFetch | common/buffbase.cpp:685-706 | Nothing to fetch exactly when the threshold is met and there is a packet for every cruncher; below the threshold the difference is asked for; above it, a hundredfold of the packets the crunchers lack. |
| Fetch.NothingNeededIffMet | common/buffbase.cpp:668-710 | Clean, 0 comes out exactly when the buffer is full or the capped threshold and the crunchers are satisfied. |
| Fetch.UncountedNeedsNothing | common/buffbase.cpp:668-710 | A buffer that cannot be counted, the first or the second time, needs nothing, and nor does a full one, which is counted only once. |
| Fetch.ReComputeUnitsToFetch | common/buffbase.cpp:668-710 | The value and the operations it costs for every error pattern: a buffer that cannot be counted needs nothing. |
| Fetch.FetchOne | common/buffbase.cpp:803-843 | One packet from the remote file into the local buffer it belongs in, or back where it came from, with the reason for the end of the loop. |
| Fetch.FetchContest | common/buffbase.cpp:788-906 | The loop terminates for every remote file, the client's own buffers included, with the end, packet count and state of the fetch the laws below are about. |
| Fetch.FetchConserves | common/buffbase.cpp:788-906 | Over every exit and error pattern, and for any remote file, the contest's own buffers included: for each file involved, before + moved into it = after + moved out of it + lost, and all files together keep their packets but the lost one; every packet moved went to the buffer it belongs in; at most one is lost, only when the very last operation, putting it back, met an error. |
| Fetch.RefusalMeaning | common/buffbase.cpp:803-843 | Each refusal ties to the packet or the operation: no packet left, a read error, a packet of another contest, or a local put that failed; the packet is back in the remote file unless that last put failed too. |
| Fetch.FetchEnds | common/buffbase.cpp:788-906 | Clean, what each end means: the in-buffer has enough, or the last packet covered the last need computed, or the remote file has no more of the contest; the trigger was pulled; the remote file is empty, or holds a packet of another contest, or one this build does not recognise. |
| Fetch.FetchFitsDemand | common/buffbase.cpp:788-906 | Clean, from a separate file of the contest's work, with packets rated alike: a satisfied fetch leaves the in-buffer full, or with units up to the threshold or its cap, or the remote file without such packets; and before the last packet it moved, the in-buffer was not full and lacked units or a packet for some cruncher. |
| Fetch.LastCoversIff | common/buffbase.cpp:866-880 | For packets not rated alike: the last packet makes the in-buffer reach its threshold if and only if it is rated as those before it, or the rated units do so alone. |
| Fetch.FetchFromRemote | common/buffbase.cpp:788-906 | From a file that is not one of the contest's buffers and holds only its work, the loop detection never fires and the packets moved are those from the front, unless a put fails. |
| Fetch.FetchOfOwnBufferEnds | common/buffbase.cpp:862-880 | If the remote file is the in-buffer itself, the loop detection ends the fetch after at most 5 moves. |
| Fetch.LoopFoundLate | common/buffbase.cpp:845-864 | The loop detection does not fire before the fourth packet that did not make the in-buffer grow. |
| Flush.FlushContest | common/buffbase.cpp:965-1023 | The loop terminates whatever counts other clients cause it to see (after every packet, warnings left or the last count goes down), with the end, count and state of the flush the laws below are about. |
| Flush.FlushConserves | common/buffbase.cpp:965-1023 | Over every exit, error pattern and behaviour of other clients: all files + what departed + dropped + lost = before + what arrived, where arrivals and departures are summed over the other clients' own turns. |
| Flush.FlushAccounts | common/buffbase.cpp:965-1023 | Only matching packets are moved; a recognised one is dropped, or the remote put given up, only if a put of this flush failed; at most one packet is lost, only when the last two operations, the remote put and the put back, both failed. |
| Flush.FlushAlone | common/buffbase.cpp:965-1023 | Clean and with no other client: nothing is lost, the loop detection does not fire, and "drained" means that no packet of the contest is left in the out-buffer, or that none could be reached when it was last searched. |
| Flush.FlushLoopFoundLate | common/buffbase.cpp:990-1012 | The loop detection does not fire before the fourth packet after which the out-buffer had not become smaller. |
| Flush.FlushMovesAll | common/buffbase.cpp:965-1023 | An out-buffer of finished work of its contest is then moved whole and in order, unless the flush is interrupted. |
| Flush.FlushSends | common/buffbase.cpp:976-989 | To a remote file that is none of the client's buffers, and without other clients, exactly the packets moved arrive, for every exit and error pattern. |
| Import.OneContestNeverTrips | common/buffbase.cpp:614-625 | The shrink test never fires on a file of one contest. |
| Import.InterleavedContestsTrip | common/buffbase.cpp:614-625 | It does fire on a file of two contests, although every get shrinks that file. |
| Import.ImportFileRecords | common/buffbase.cpp:587-660 | From any source file on which the loop ends, the client's own buffers included, end, result and state are those of the passes the laws below are about; a missing file changes nothing. |
| Import.ImportEnds | common/buffbase.cpp:604-648 | The loop ends on every file that is none of the client's buffers, after at most one pass more than it has packets. |
| Import.ImportLaw | common/buffbase.cpp:587-660 | For every error pattern and each end: a front part of the source's packets is in the buffers they belong in and all else is where it was, less what the end names. Read to the end, nothing is lost; a read error loses every packet not yet moved, because the source is emptied, or none if nothing was moved; the shrink test loses the packet it stopped at; a failed put loses the packet only if the last operation, putting it back, failed too. Clean, the shrink test stops it exactly on files that trip the test, and a refused packet goes back into the source. |
| Import.ImportIsWholeIff | common/buffbase.cpp:604-648 | Clean, everything is imported and nothing lost if and only if every packet is recognised and the order of contests does not trip the shrink test. |
| Import.ImportNeverEndsIff | common/buffbase.cpp:604-648 | From any file, one of the client's own buffers included, and without errors, the import repeats for ever if and only if the source's slots make it circle: a sweep over them in which a packet that belongs in the source goes to its last free slot, until one is put back where it was with no other of its contest behind it. |
| Import.CirclesClosed | common/buffbase.cpp:604-648 | With no free slot behind the packets, that is so if and only if some packet that belongs in the source is the last of its contest there and nothing ahead of it ends the loop before. |
| Import.OwnPacketsCircle | common/buffbase.cpp:604-648 | A buffer with only packets that belong in it, its free slots anywhere, makes it circle if and only if there is exactly one. |
| Import.FreeSlotsDecide | common/buffbase.cpp:604-648 | In general the free slots matter: two files of three slots with the same packets in the same order, of which one circles and the other does not. |
| Import.ImportOfOwnBufferLoses | common/buffbase.cpp:614-640 | A first packet that belongs in the source and comes back in front of, or into, its own contest's packets: at the second pass the shrink test fires and loses one of them. |
| Import.ImportOfOwnPackets | common/buffbase.cpp:604-648 | So importing one of the client's own buffers never ends with one packet in it, and with more loses exactly one at the second pass. |
| Checkpoint.SnapshotIsRecognised | common/checkpt.cpp:84-118 | The snapshot has one packet for each problem that can be saved, each recognised and unfinished if the contests are handled by this build. |
| Checkpoint.SaveProblems | common/checkpt.cpp:71-120 | The state after a refresh, for every error pattern. |
| Checkpoint.RefreshHolds | common/checkpt.cpp:71-120 | The file then holds, in order, exactly the packets whose put succeeded, without a free slot, and no other file has changed. |
| Checkpoint.RefreshIsSnapshot | common/checkpt.cpp:71-120 | Clean, those are the whole snapshot. |
| Checkpoint.RefreshSavesFields | common/checkpt.cpp:71-120 | Clean, field by field: the k-th packet in the file has the work, contest, processor and core of the k-th problem that is loaded and could be retrieved, the stamp's system, build and first 63 bytes of id, and is unfinished. |
| Checkpoint.CheckpointAction | common/checkpt.cpp:34-124 | OPEN, REFRESH and CLOSE: the state after each, and that an OPEN empties the file whatever became of its packets. |
| Checkpoint.RecoveryKeeps | common/checkpt.cpp:34-124 | For every error pattern: a recovery after a refresh brings back a front part of what the refresh saved, each packet into the buffer it belongs in; every other file is as before the refresh and the checkpoint is empty. |
| Checkpoint.CrashAndRecover | common/checkpt.cpp:34-124 | Clean, refresh, crash and open by a new client bring back the whole snapshot, losing nothing, if and only if every packet of it is recognised and their order does not trip the shrink test; then as many as problems that could be saved, with all their fields, and with one contest always. |
| UpdatePolicy.CheckExpiry | common/buffbase.cpp:1363-1416 | The lazily computed expiry marks give every project the answer computed afresh would. |
| UpdatePolicy.WantsByState | common/buffbase.cpp:1363-1450 | What a project wants, by its state: nothing if unsupported, disabled or not permitted; closed, only when a scheduled update is due; suspended, fetches only after a quarter of an hour; fetches when empty, or below the threshold if topping off. |
| UpdatePolicy.WantsOfTable | common/buffbase.cpp:1330-1362 | All projects count, or the one asked for by number. |
| UpdatePolicy.BufferCheckIfUpdateNeeded | common/buffbase.cpp:1299-1466 | The short-circuit loop equals a plain existential over the projects: each requested direction if and only if some eligible project needs it, or both if either does in either-or mode. |
| UpdatePolicy.RetryState.BufferUpdate | common/buffbase.cpp:1050-1292 | The fields after a call, and whether it was turned away, by clock readings and outcome. |
| UpdatePolicy.OutcomeOfCall | common/buffbase.cpp:1066-1292 | In any run, a call that is not turned away does what the configuration and the transfer make of it. |
| UpdatePolicy.WithoutClock | common/buffbase.cpp:1066-1270 | A failing clock never turns a call away and leaves a failure as it was. |
| UpdatePolicy.UpdateTimeIsLastTransfer | common/buffbase.cpp:1250-1256 | Over every run with a working clock the update time is that of the last transfer, or 0. |
| UpdatePolicy.DelaySchedule | common/buffbase.cpp:1257-1263 | After k failures in a row the delay is 30*2^(k-1) seconds up to k = 7 and 3600 from then on. |
| UpdatePolicy.BackoffTracksFailures | common/buffbase.cpp:1250-1269 | Over every run with a working clock the failure mark is set exactly while attempts fail (a clock of 0 does not confuse it), and delay and time are those of the failures so far. |
| UpdatePolicy.AttemptsAreSpaced | common/buffbase.cpp:1066-1071 | A call is turned away if and only if it comes less than the k-th delay after the k-th failure. |
| UpdatePolicy.SuccessResets | common/buffbase.cpp:1250-1269 | After a transfer the next call is not turned away whenever it comes, and a failure then starts again at 30 seconds. |
| TickConversion.Clks2tv | common/clitime.cpp:341-355 | The machine arithmetic, in a word of either size and at every rate from 10 to 1000000; it equals the overflow-free conversion if and only if neither the left-over ticks of all wraps nor the seconds leave the word. |
| TickConversion.FitsBeforeHorizon | common/clitime.cpp:341-355 | In tick counts: at every exact rate the machine's time is the exact one up to the horizon, which is the smaller of the rate and the number of wraps whose left-over ticks fit in the word. |
| TickConversion.GoesBackAtHorizon | common/clitime.cpp:341-355 | The bound is tight: at the horizon the time goes back. |
| TickConversion.ConversionIsExact | common/clitime.cpp:341-355 | sec*1000000 + usec = (wraps*W + ticks) * (1000000/hz), and 0 <= usec < 2000000. |
| TickConversion.ConversionIsExactIff | common/clitime.cpp:336-355 | Among the rates from 10 to 1000000, those at which no conversion loses anything are exactly the multiples of 10 that divide a million. |
| TickConversion.PerTickIsNearest | common/clitime.cpp:354 | A tick is taken for the nearest whole number of microseconds, at any rate. |
| TickConversion.LexLessIsOrder | common/clitime.cpp:315-320 | Times are compared by a strict total order, which for normalised ones is that of their microseconds. |
| TickConversion.ConversionIsMonotone | common/clitime.cpp:341-355 | A later reading gives a lexicographically later (sec, usec), across any number of wraps, although usec may pass 999999. |
| TickConversion.MachineWords | common/clitime.cpp:348-349 | Both sizes of an unsigned long satisfy the condition on the tick range (2^32 and 2^64 end in 6). |
| TickConversion.ConvertedAtWrap | common/clitime.cpp:341-355 | At the moment of a wrap the microseconds are normalised. |
| TickClock.ComparisonFindsWraps | common/clitime.cpp:494-498 | Comparing tick counts finds the wrap if and only if less than 2^32 ticks have passed. |
| TickClock.StepIsSafe | common/clitime.cpp:484-502 | Each atomic step of any thread keeps the clock's invariant. |
| TickClock.RunIsSafe | common/clitime.cpp:484-502 | So does every interleaving of any number of threads. |
| TickClock.LockProtectsWrapCount | common/clisync.h:221-258 | Over every interleaving at most one thread is between lock and unlock, and while none is, the wrap count and last ticks are those of the last reading. |
| TickClock.UndisturbedCall | common/clitime.cpp:484-502 | A call that is not interrupted returns the true counter, split into wraps and ticks, and leaves the lock free: the guarded steps do lead to a result. |
| TickClock.TimesNeverGoBack | common/clitime.cpp:484-502 | The times returned are in order of the lock, never decrease, and differ by exactly the ticks between the readings. |
| TickClock.ReturnedNeverGoesBack | common/clitime.cpp:484-502 | The same of the 32-bit values actually returned, for every reading before the horizon. |
| TickClock.Horizons | common/clitime.cpp:341-355 | On 32 bits the horizon is 1000 wraps of a millisecond counter but 4441 wraps, 220 days, of a microsecond counter. |
| TickClock.MonotonicClock.CliGetMonotonicClock | common/clitime.cpp:484-502 | The branch as one thread runs it returns the machine's conversion of the true unbounded counter, the exact one before the horizon, and keeps the class invariant. |
| TickClock.ClientClock.CliClock | common/clitime.cpp:290-330 | When it succeeds and fails, what base it keeps, and that it returns the time since that base, or one microsecond on the first call; without a place for the answer it only takes the base. |
| TickClock.SinceIsExact | common/clitime.cpp:321-327 | The time since the base is exact, with seconds not negative. |
| TickClock.AnswerIsReturned | common/clitime.cpp:321-349 | Before the horizon the answers these laws speak of are those of the machine's arithmetic. |
| TickClock.AnswerIsNormalIff | common/clitime.cpp:321-349 | By tick counts: the microseconds of an answer are a million or more exactly when the reading carries over a second and the base does not and is not later within its second; negative exactly the other way round; else normalised. |
| TickClock.EarlyBaseNeverNegative | common/clitime.cpp:294-349 | With a base taken before the first wrap they are never negative. |
| TickClock.SlowReadingsExceed | common/clitime.cpp:321-349 | A millisecond counter, readings less than a wrap apart: an answer with 1886000 microseconds. |
| TickClock.LateReadingsFallBelow | common/clitime.cpp:321-349 | The same counter with a base after the first wrap: an answer with -1000 microseconds. |
| TickClock.CliClockStepsBackOnlyAtFirst | common/clitime.cpp:290-330 | Readings never step back except from the first to one taken in the same tick. |
| Timevals.CliTimerAdd | common/clitime.cpp:865-888 | With any of the three pointers null or aliased, the result is the specified sum. |
| Timevals.CliTimerDiff | common/clitime.cpp:894-928 | With any of the three pointers null or aliased, the result is the specified difference. |
| Timevals.DiffIsAbsolute | common/clitime.cpp:894-928 | The difference of normalised times is normalised, symmetric, and the absolute difference in microseconds. |
| Timevals.SumIsExact | common/clitime.cpp:879-885 | The sum loses nothing, and is normalised for times that are not negative. |
| Timevals.SumOfDiff | common/clitime.cpp:865-928 | The smaller time plus the difference is the larger time. |
| Timevals.AddNowIsWrongOnlyInPlace | common/clitime.cpp:869-885 | "Now plus x" fails if and only if x is the result cell itself and not already the current time. |
| Timevals.ContestInfo.CliAddContestInfoSummaryData | common/clicdata.cpp:254-279 | The static entry after a call, every field; an unknown contest or a null time gives -1 and changes nothing. |
| Timevals.CarryIsExact | common/clicdata.cpp:265-269 | The two-word addition with carry is addition modulo 2^64. |
| Timevals.SummaryConserves | common/clicdata.cpp:254-279 | Over any sequence of calls no microsecond and no block is lost, usec <= 1000000, iterations are the total modulo 2^64 and units modulo 2^32. |
| Timevals.FullSecondStands | common/clicdata.cpp:273-277 | The bound usec = 1000000 is reached: the carry test leaves a full second standing. |
| Crunchers.RunIsConsistent | common/clirun.cpp:399-447 | In every interleaving: who may have which flag, for each point of the main loop and of each cruncher. |
| Crunchers.FlagsAtLoopHead | common/clirun.cpp:1876-1893 | At the head of the main loop every cruncher's do_suspend equals wasPaused and none has do_exit. |
| Crunchers.PauseIsPassedOn | common/clirun.cpp:1876-1893 | From any reachable head of the main loop and in every interleaving: after one turn that finds the client paused or not, wasPaused and every do_suspend say so. |
| Crunchers.QuitIsPassedOn | common/clirun.cpp:1876-2073 | Likewise, a turn that finds it has to quit ends with every do_exit set and every do_suspend clear. |
| Crunchers.RequestIsTakenUp | common/clirun.cpp:2043-2057 | Likewise, a request that needs the crunchers stopped has them all told so and is then waiting; any other is served at once. |
| Crunchers.SuspendedFlagIsHonest | common/clirun.cpp:399-447 | is_suspended is clear exactly around a run, or while the thread is starting; a running cruncher is never marked exited. |
| Crunchers.LeftAloneItWorks | common/clirun.cpp:403-447 | A cruncher that is told nothing and finds its problem ready begins a run every six steps of its own. |
| Crunchers.NoRunWithoutProblem | common/clirun.cpp:408-428 | One that never finds it ready begins no run but the one it was launching. |
| Crunchers.AtMostOneRunOnceSuspended | common/clirun.cpp:403-447 | While do_suspend stays set, whatever else is done, a cruncher begins at most one more run, and none unless it had passed the test. |
| Crunchers.CanStillBeginIff | common/clirun.cpp:408-443 | The bound is tight: a further run is possible if and only if the cruncher was between the test and the run. |
| Crunchers.AtMostOneRunOnceExiting | common/clirun.cpp:403-447 | Once do_exit is set a cruncher begins at most one more run for ever, though do_suspend is cleared right after. |
| Crunchers.LeavingPausedBound | common/clirun.cpp:1288-1312 | Because do_exit is stored before do_suspend is cleared, a client that leaves while paused lets a cruncher begin at most one run, or two if it was launching one. |
| Crunchers.SuspendedBecomesQuiet | common/clirun.cpp:2053-2057 | A suspended cruncher is idle with is_suspended set after at most four steps of its own, so the wait ends if ProblemRun returns. |
| Crunchers.WaitEnds | common/clirun.cpp:2053-2057 | Once all crunchers are quiet the wait ends after one look at each, in every interleaving. |
| Crunchers.ServedOnlyAfterWait | common/clirun.cpp:2053-2063 | In every run, while an exclusive request is served, each cruncher has been found suspended since the wait last began anew. |
| Crunchers.ServedRequestIsUndone | common/clirun.cpp:2063-2067 | After the service the loop is back at its head and every do_suspend is what it was before the request. |
| Crunchers.ToldToExitIsGone | common/clirun.cpp:403-720 | A cruncher told to exit is gone after at most six steps of its own, suspended or not. |
| Crunchers.ModeRunDisturbance | common/clirun.cpp:2043-2067 | While a benchmark, test or configuration runs, each cruncher begins at most one run. |
| Crunchers.WaitDoesNotExcludeARun | common/clirun.cpp:2047-2063 | A concrete run: the wait is over, the request is being served, and a cruncher starts. |
| Crunchers.FlagAllThreads | common/clirun.cpp:1288-1312 | The walk over the linked list, undisturbed: 's', 0 and 'x' set every entry's flags and leave the others; 'c' fails if and only if some entry is not suspended. |
| Timeslice.ElapsedMicros | common/clirun.cpp:482-502 | The machine arithmetic on any two pairs of 32-bit seconds and microseconds gives the specified run time, or the no-use mark. |
| Timeslice.MeasuredIsExactIff | common/clirun.cpp:484-502 | For a clock that did not step back, the measured time is true if and only if it fits in 32 bits; between there and 4295 s it wraps to less than 32704 us, and from there on it is of no use; so is a step back, unless the seconds wrapped. |
| Timeslice.Controller.FineTune | common/clirun.cpp:541-654 | One round of the controller, finished or not, for either kind of contest, is the specified change of the four fields. |
| Timeslice.RoundsThatTuneNothing | common/clirun.cpp:541-654 | A round without a usable time changes nothing; one that ends the problem raises the best slice only; one of RC5-72 changes the slice only. |
| Timeslice.Controller.AdjustSlice | common/clirun.cpp:593-642 | The statement sequence, wrap-around included, is the specified step and rounding, for either build and with the fast rise for graphics processors. |
| Timeslice.BumpAims | common/clirun.cpp:606-613 | The fast rise aims at the largest slice that fits the time at the rate of the last run, cut at 32 bits. |
| Timeslice.RoundedIsNearest | common/clirun.cpp:633-642 | Rounding gives the nearest positive multiple of the increment and never passes a multiple from below. |
| Timeslice.IncrementWrapsIff | common/clirun.cpp:617-618 | Adding the increment overflows if and only if slice and increment are both 0x80000000, and then does no harm. |
| Timeslice.AdjustedIsMultiple | common/clirun.cpp:593-642 | For an increment not above the maximum every round gives a positive multiple of it, at most max + half of it. |
| Timeslice.EveryRoundIsMultiple | common/clirun.cpp:593-642 | So it stays over any number of rounds and any run times. |
| Timeslice.LongRunFalls | common/clirun.cpp:625-642 | For every increment and kind of system: after a run that was too long the slice is the positive multiple of the increment nearest to three quarters of it, or a quarter of that, but the minimum; from three increments up, and above the minimum, it is smaller. |
| Timeslice.LongRunShrinksIff | common/clirun.cpp:625-642 | A multiple shrinks if and only if more than half an increment is taken off. |
| Timeslice.ShortRunRises | common/clirun.cpp:597-642 | After a run that was too short it is the multiple nearest to the aimed-at, incremented or doubled slice, but the maximum, and not below the old one. |
| Timeslice.GoodRunStays | common/clirun.cpp:597-642 | A run near its target leaves a multiple alone. |
| Timeslice.EnvelopeIsKept | common/clirun.cpp:594-632 | At a steady rate, 3/4*hi < run time < 2*lo is kept, measured times being whole microseconds. |
| Timeslice.RunTimeSettles | common/clirun.cpp:594-632 | From any slice of at least 100 whose run can be timed, the run time is in that envelope after finitely many rounds, for good. |
| Timeslice.UnclampedRatesOfRc572 | common/clirun.cpp:594-632 | For the RC5-72 row, exactly at which rates the clamps cannot bind. |
| Timeslice.AveragesFitIff | common/clirun.cpp:562-568 | The sliding averages never overflow an int over any number of rounds if and only if slices and run times are bounded by 143165591. |
| Timeslice.OgrRoundsKeepAverages | common/clirun.cpp:555-589 | Over all rounds the controller's state is those averages; each slice is within the table's bounds or unchanged, and it is the clamped quotient of the averages whenever that fits in 32 bits. |
| Timeslice.SlidIsMean | common/clirun.cpp:565-566 | In range, a step is the weighted mean rounded down and lies between its inputs. |
| Timeslice.AverageRateIsExactIff | common/clirun.cpp:573-584 | The slice is in [min, max]; it is the clamped quotient if and only if that fits in 32 bits or what is left of it is still at or above max. |
| Timeslice.OgrRunIsRounds | common/clirun.cpp:555-589 | A run in which each round uses the slice the round before chose is one of the rounds these laws speak of. |
| Timeslice.CutQuotient | common/clirun.cpp:573-584 | Such a run from the table's start: after rounds of 16 and 6225 microseconds the 32-bit cut gives a slice of 8852191 where the average rate calls for more than the maximum. |
| Timeslice.OptimalIsBestFinished | common/clirun.cpp:430-439 | Over any rounds, the slice a new problem starts with is the largest one a problem has finished with, or the table's if none was larger. |
| Base64.Encode | common/base64.cpp:22-66 | Result, whole output buffer and terminating NUL, for every input and room, error case included. |
| Base64.AlphabetIs | common/base64.cpp:13-20 | The alphabet in order, and the padding character. |
| Base64.QuadIsNumber | common/base64.cpp:34-46 | Four letters are the digits, most significant first, of the number that three bytes are. |
| Base64.KnownEncodings | common/base64.cpp:22-66 | The examples of section 10 of RFC 4648. |
| Base64.EncodedSize | common/base64.cpp:22-66 | 4*ceil(n/3) characters. |
| Base64.EncodedAlphabet | common/base64.cpp:13-66 | Only letters and padding, and padding only in the last two places. |
| Base64.DecoderTable | common/base64.cpp:77-80 | The table built in reverse order is the inverse of the alphabet for all 256 characters. |
| Base64.Decode | common/base64.cpp:69-141 | Result, whole output buffer and NUL, as one function of the old text, whether the buffers are two arrays or the same one, with enough room or not. |
| Base64.ReadingSize | common/base64.cpp:82-132 | What has been written never passes what has been read. |
| Base64.RoundTrip | common/base64.cpp:22-141 | Decoding an encoding gives back every byte sequence. |
| Base64.EncodingIsInjective | common/base64.cpp:22-66 | Different data have different encodings. |
| Base64.ForeignCharactersAreIgnored | common/base64.cpp:113-131 | Characters outside the alphabet make no difference anywhere in a text. |
| Base64.TruncationIsDetected | common/base64.cpp:84-112 | An encoding cut short at k is refused if and only if k is inside a quad and more is missing than the second of two padding characters; between quads it gives the data up to there. |
| Base64.InPlaceAlwaysHasRoom | common/base64.cpp:69-141 | At most three quarters of a text come out, so its own buffer always has room. |
| TimeLimit.ParseTimestring | common/confrwv.cpp:475-531 | The character loop, with its early returns, computes the specified meaning of every text, old-style hours included. |
| TimeLimit.TimesAreSpelled | common/confrwv.cpp:475-531 | The grammar, both ways: accepted if and only if spaces, at most three fields between colons (the first of at most seven digits, the others of at most two), spaces, and in range. |
| TimeLimit.DecimalHours | common/confrwv.cpp:502-522 | The old style: two digits after the point are hundredths of an hour, any zeros after them are skipped. |
| TimeLimit.SecondsOutOfRange | common/confrwv.cpp:527-528 | The error value is returned for 596524 hours, 60 minutes or 60 seconds and more, and for nothing else. |
| TimeLimit.SpacesAre | common/confrwv.cpp:480-481 | The six characters that are skipped as white space. |
| TimeLimit.SecondsSign | common/confrwv.cpp:527-530 | The value fits in an int if and only if it is at most 596523:14:07; above, it comes out negative. |
| TimeLimit.PrintedParses | common/confrwv.cpp:548-549 | What the parser makes of any printed number of minutes. |
| TimeLimit.TimeLimitEntry.Write | common/confrwv.cpp:535-553 | The entry after a write, negative values and the unstored default included. |
| TimeLimit.TimeLimitEntry.Read | common/confrwv.cpp:554-573 | The minutes read, by entry, default and elapsed time. |
| TimeLimit.WrittenComesBackIff | common/confrwv.cpp:535-573 | Writing and reading back gives the same minutes if and only if they are at most 35791393, or are the default and either not stored or not 35791394. |
| TimeLimit.NoLimitStaysNone | common/confrwv.cpp:559-571 | A stored 0 stays 0, which stands for no limit, however long the client has run. |
| TimeLimit.ReadCoversRemaining | common/confrwv.cpp:559-571 | With elapsed time taken off, the result is the least number of minutes that covers the rest, and never 0. |

## Left out

- Import.ImportLaw: for a source that is none of the client's own buffers; the code does not check that, and what happens otherwise is `Import.ImportNeverEndsIff` and `Import.ImportOfOwnPackets`, without I/O errors. `Import.ImportFileRecords` itself takes any source on which the loop ends, since a method has to terminate.
- Checkpoint.CrashAndRecover: for a checkpoint file that is none of the client's own buffers, for the same reason.
- Buffers.SearchSifts: distinct buffers must have distinct files (`Routing.Names`); the code only refuses to work when the in- and out-buffer prefixes are identical, and then no such condition is asked.
- Buffers.SearchFinds: a packet behind the last stray of a contest is not found; the early stop is the code's, and the lemma says exactly when it bites.
- Fetch.ReComputeUnitsToFetch: on files; fetch, flush and import with memory buffers behind the same put and get are not repeated.
- Fetch.FetchContest: one contest of BufferFetchFile; the loop over contests, the accumulated counts and the sign of the return code add nothing to it.
- Flush.FlushContest: one contest of BufferFlushFile, likewise; what other clients do is arbitrary except that they do not remove a file, and they act before each get and before each put, not within one.
- UpdatePolicy.RetryState.BufferUpdate: which update method is tried, and the network, are the two parameters "configured" and "transfers".
- TickConversion.Clks2tv: rates below 10 or above a million, which the code excludes or divides by zero at.
- TickClock.RunIsSafe: assumes that locked readings are less than 2^32 ticks apart and the first is below 2^32, which no code checks; steps are sequentially consistent.
- TickClock.AnswerIsNormalIff: for the rates at which a conversion is exact and for counts before the horizon (`TickClock.AnswerIsReturned`), like all laws of that clock.
- Crunchers.SuspendedFlagIsHonest: a new thread has hasexited set until common/clirun.cpp:399 and is_suspended clear until the line after, without a run; the start-up phases are kept apart for that.
- Timeslice.RunTimeSettles: for a rate that is constant and at which the table's bounds cannot bind, without an increment, as the envelope is no invariant otherwise.
- Base64.Encode: the encoded length must fit in an int; beyond 1.6 GB the code's length arithmetic overflows.
- Base64.Decode: characters are unsigned; where char is signed, characters from 128 on index before the decoder table. Buffers are two arrays or one, not overlapping at an offset.
- TimeLimit.TimeLimitEntry.Write: the return value of the profile writer, and an entry cut to the 63 characters of the buffer, are not modelled.
- Counting and "buffer full" questions on memory buffers (common/buffbase.cpp:179-220 and 505-536, where "full" tests the capacity and not the count) would only add easy members.
- Torn writes, file locking, paths, suffixes and the file-name tables: a file is an array of slots and an operation on it happens at once or fails.
- Progress percentages, logging, event posting and the rate of each contest's core in stats units, which is a parameter.
- Network update, mail, lurk, menus, command line, selcore, benchmarks, CPU detection and core tables.
- ProblemRun is a step that takes any time and has any result; LoadSaveProblems is what a cruncher finds when it looks for its problem.
- Crunchers run by polling instead of as threads, restarts of the NetWare thread, and platform code for threads and yielding.
- The initialisation of the clock's lock, and the platforms' other clock sources.
- EBCDIC conversion on OS/390.
- The hostname list of the configuration file, whose bracket handling has no clean round trip.
