# Verified models of the debugger's core

This project models the parts of tt-exalens whose correctness is hardest to see from the code,
and proves what they promise. One module models one component.

* **Native stack walker** (`DieTree`, `TailCallSearch`, `Callstack`, `TailCallBridge`, `Backtrace`). DWARF
  entries are a table from offset to entry. The depth-first search for tail calls is sound, finds
  exactly the reachable targets within its depth, and expands each function once; tail calls are
  reconstructed exactly when the call-site information leads from the function that was called to the
  one on the stack; the walk over a physical frame and the one over a reconstructed frame agree; and a
  whole callstack keeps every physical frame.
* **GDB stub** (`ProcessIds`, `GdbStub`, `GdbStubSafety`, `GdbSchedule`, `GdbAllStop`, `GdbListing`,
  `GdbCalm`, `GdbRaces`, `GdbDetach`, `GdbReports`, `GdbFindings`, `GdbAnswers`, `GdbServer`,
  `Watchpoints`, `Nibbles`). Packets are steps of a state machine over cores that can stop or enter
  reset at any access. A run keeps all attached cores stopped between packets exactly when no packet
  meets a reset at the wrong access, which the schedule of events tells beforehand; without resets and
  new ELFs it always does. Detaching everything disarms and frees the cores; a watch reports exactly the
  cores it finds in reset or halted, once and in order; process ids are stable and never reissued; the
  watchpoint registers refine an abstract table.
* **GDB packets** (`Packets`, `PacketReader`, `PacketSplits`). Writing and reading are inverse, for
  payloads, hex numbers and whole deliveries; a packet that arrives in two parts never comes back as it
  was sent.
* **Byte access over word devices** (`ByteMemory`, `Transfers`, `UnalignedAccess`, `RiscDebugMemory`).
  Both read-modify-write algorithms refine a byte array, and retries and failover after partial failures
  have the effect of one clean operation and happen exactly when they should.
* **Memory map and its walks** (`IntervalMap`, `MemoryMap`, `MemoryWalks`, `ChunkedSearch`). The index
  agrees with a linear scan, the safety check decides safety, reads and writes partition a request, and
  a chunked search equals a search of the whole range.
* **Core control** (`PrivateWindow`, `EntryPoint`, `Registers`, `BitArithmetic`) and **debug bus**
  (`DebugBus`, `Bits`). An access through the private-memory window puts a core back exactly when
  nothing goes wrong, an entry point that is set is reached, and a signal has one value however it is
  read.

Where the code changes state step by step, the model is a class or a loop that is proved equal to a
function, and the theorems are about that function; where the code only computes, it is functions.

## Where the code differs from its documentation

* `find_tail_call_chain` gives up below depth 64, so a target is missed when a row of 65 or more functions
  lies in between (`DepthLimitIsTight`). It can even miss a target two calls away: a long first branch
  marks the function in between when it is too deep to be searched (`NearTargetIsMissed`).
* The vCont action 'S' is compared with the code of 'R': 'S' is refused and 'R' steps
  (`ttexalens/gdb/gdb_server.py:705`). 't' is always refused, as non-stop mode is never enabled.
* All-stop is lost when a core enters reset at an access that raises while another attached core is
  running: while the actions of a vCont packet are applied (`ResetWhileApplyingLeavesACoreRunning`), between the
  two questions of its final halt loop (`ResetWhileStoppingLeavesACoreRunning`), and while everything is
  detached, which then leaves the threads attached (`ResetWhileDetachingLeavesACoreRunning`). These are all
  the ways, together with the next one (`EveryRunKeepsAllStop`).
* Detaching a thread resumes its core even if another attached thread stands for it (`DetachReleases`).
* When the final halt loop raises, the first stop report is not sent as the reply of that packet; it
  is glued in front of the next reply (`ReportsAreDeliveredOnce`).
* z2 and z3 can remove an access watchpoint (`RemoveSparesAccess` says exactly when they do not).
* The reader compares checksum digits with numbers and so accepts almost every checksum (`ReadFramed`).
* The payload of a packet split over two deliveries never comes back (`SplitPayloadNeverComesBack`). The packet
  is lost (`SplitPacketIsLost`) or, worse, accepted as a shorter message (`SplitPacketIsTruncated`).
* An exception inside the private-memory window leaves a core that was in reset out of it
  (`CoreStateComesBackUnlessResetIsLost`).
* An odd jump distance is encoded without its lowest bit, and the core then misses the requested
  address (`CoreReachesWhatWasSet`). On a core without a start register, going back to the default leaves
  the jump where it is, so the core still ends at the old address (`JumpStaysBehind`).

## Model

| member | source | states |
|---|---|---|
| DieTree.CallSitesComplete | ttexalens/cpp/elf/callstack.cpp:213-224 | the walk over children finds a call site (standard or GNU) exactly when walking outwards from the site, past lexical blocks and inlined subroutines only, arrives at the scope |
| DieTree.CallSitesAscend | ttexalens/cpp/elf/callstack.cpp:213-224 | call sites and tail-call sites are listed in document order, that is by ascending offset, where the entries are stored that way |
| DieTree.TailCallsExact | ttexalens/cpp/elf/callstack.cpp:199-207 | filtering keeps exactly the call sites whose tail-call flag, standard first and GNU second, is set or is no boolean |
| DieTree.CollectTailCallSites | ttexalens/cpp/elf/callstack.cpp:213-224 | the recursive walk appends the tail-call sites of a scope in document order and keeps what was collected before |
| DieTree.FirstReturningTo | ttexalens/cpp/elf/callstack.cpp:229-245 | the call site found returns to the given address and no earlier one does; none is found only when no site returns there |
| DieTree.FindCallSiteByReturnPc | ttexalens/cpp/elf/callstack.cpp:229-245 | the recursive search with its early exits returns that first call site of the whole scope |
| DieTree.FindEnclosingSubprogram | ttexalens/cpp/elf/callstack.cpp:189-194 | the outward walk ends at the innermost subprogram around the entry, or at none |
| DieTree.EnclosingIsInnermost | ttexalens/cpp/elf/callstack.cpp:189-194 | the walk outwards ends at a subprogram if and only if that is the innermost one the entry is or lies below, and at none only where there is none |
| TailCallSearch.FoundChainIsSimplePath | ttexalens/cpp/elf/callstack.cpp:259-284 | a chain that is found is a real path of tail calls from the start to the target, through pairwise distinct functions other than the target, and has at most 65 sites |
| TailCallSearch.EachFunctionExpandedOnce | ttexalens/cpp/elf/callstack.cpp:259-284 | no function has its call sites collected twice, apart from the function the search starts from |
| TailCallSearch.FindsExactlyTheReachable | ttexalens/cpp/elf/callstack.cpp:259-284 | when no chain of tail calls from the start through pairwise distinct functions other than the target is longer than 64, the search succeeds if and only if the target can be reached |
| TailCallSearch.FewFunctionsSuffice | ttexalens/cpp/elf/callstack.cpp:259-284 | that is so in particular when tail calls lead to at most 64 functions other than the target |
| TailCallSearch.DepthLimitIsTight | ttexalens/cpp/elf/callstack.cpp:259-263 | a target n calls down a row is found if and only if 1 <= n <= 65, although it is reachable for every n |
| TailCallSearch.NearTargetIsMissed | ttexalens/cpp/elf/callstack.cpp:259-284 | a target two calls away is missed when an earlier branch of 64 functions marks the function in between |
| TailCallSearch.SearchSound | ttexalens/cpp/elf/callstack.cpp:259-284 | the same soundness for any visited set and depth: intermediate functions are fresh and the chain fits what is left of the depth |
| TailCallSearch.SearchExhausts | ttexalens/cpp/elf/callstack.cpp:259-284 | a search that fails leaves every function it marked without an unmarked or final call, as long as no simple chain exceeds the depth |
| TailCallSearch.CallGraphRepresents | ttexalens/cpp/elf/callstack.cpp:249-257 | every subprogram is in the graph searched, with its tail-call sites and the functions they invoke, and nothing else is |
| TailCallSearch.ChainSearch.Find | ttexalens/cpp/elf/callstack.cpp:259-284 | the search with its pushed and popped chain and its shared visited set does what the function on the graph says: on failure the chain is as it was |
| TailCallSearch.ChainSearch.ScanSites | ttexalens/cpp/elf/callstack.cpp:266-283 | the same for the loop over the sites of one function, resumed at any of them |
| Callstack.ShownIsInlinedAncestors | ttexalens/cpp/elf/callstack.cpp:138-174 | the walk reports exactly those enclosing scopes that are no lexical blocks |
| Callstack.ShownCountsInlined | ttexalens/cpp/elf/callstack.cpp:154-174 | the number of entries is the number of inlined ancestors plus one |
| Callstack.ShownGoesOutwards | ttexalens/cpp/elf/callstack.cpp:154-174 | entries go from the inside out, all but the last are inlined, and the last is the function around them |
| Callstack.EntriesByPosition | ttexalens/cpp/elf/callstack.cpp:150-173 | only the innermost entry has an address, and the line of each outer entry is where the entry inside it was inlined |
| Callstack.AppendFrameCallstack | ttexalens/cpp/elf/callstack.cpp:135-184 | the walk over a physical frame appends exactly these entries and returns the function it ends at |
| Callstack.AppendTailCallFrame | ttexalens/cpp/elf/callstack.cpp:304-374 | the walk over one reconstructed tail call appends nothing, one entry, or one per inlined function, at the reported and looked-up addresses in 64-bit arithmetic |
| Callstack.WalksAgree | ttexalens/cpp/elf/callstack.cpp:135-184 | the two walks report the same names, addresses and shifted lines exactly when the address is covered by a function, by a block or an inlined function inside one, or by nothing |
| Callstack.BridgeIsPath | ttexalens/cpp/elf/callstack.cpp:378-410 | the reconstructed calls are a simple path from the function that was called to the one that is on the stack |
| Callstack.AppendTailCallFrames | ttexalens/cpp/elf/callstack.cpp:378-416 | all early exits append nothing, and otherwise the frames of that path are appended innermost first |
| Callstack.InnermostFirstLast | ttexalens/cpp/elf/callstack.cpp:412-415 | putting frames innermost first starts with the last one |
| TailCallBridge.CalledFromExactly | ttexalens/cpp/elf/callstack.cpp:386-405 | the function that was called is found if and only if the first call site which returns to the wrapped address, in the innermost subprogram around the byte before it, names it |
| TailCallBridge.NothingToBridge | ttexalens/cpp/elf/callstack.cpp:378-405 | nothing is appended unless the function on the stack is a subprogram and another one than was called |
| TailCallBridge.BridgedExactlyWhenReachable | ttexalens/cpp/elf/callstack.cpp:378-410 | otherwise a bridge is a simple path of at most 65 tail calls from the function that was called to the one on the stack, and there is one if and only if the latter can be reached, for chains that fit the depth |
| TailCallBridge.FramesExactlyWhenReachable | ttexalens/cpp/elf/callstack.cpp:378-416 | the frames appended are those of such a path, innermost first, or none |
| TailCallBridge.TailFrameByAddress | ttexalens/cpp/elf/callstack.cpp:304-374 | a synthetic frame reports the return address, or else the call address, where the image is loaded, and has the line and the names of what covers the byte before the return, or the call |
| TailCallBridge.FrameByAddress | ttexalens/cpp/elf/callstack.cpp:135-184 | a physical frame reports its address and line in its innermost entry, its CFA in all, and the names of the functions around the address |
| Backtrace.PhysicalFramesRemain | ttexalens/cpp/elf/callstack.cpp:437-491 | whatever is expanded or reconstructed, the entries with an address and a CFA are the physical frames up to the last one wanted, each once and in order |
| Backtrace.LimitCutsTheEnd | ttexalens/cpp/elf/callstack.cpp:449-450 | with a limit the callstack is a prefix of the one without, and is shorter only when it has at least that many entries |
| Backtrace.LimitStopsAtOnce | ttexalens/cpp/elf/callstack.cpp:449-450 | no frame is visited once the limit is reached |
| Backtrace.GetCallstack | ttexalens/cpp/elf/callstack.cpp:437-491 | the loop over frames with its exits at the wanted function, at a missing CFA or return address and at the limit builds this callstack, and looks for tail calls only between frames of one image |
| Backtrace.WalkFrameByFrame | ttexalens/cpp/elf/callstack.cpp:437-491 | the whole callstack frame by frame: it ends at a frame without CFA or return address or in the function asked for, and tail calls are put in only before a caller in the same image |
| ProcessIds.SnapshotIdsAreDistinct | ttexalens/gdb/gdb_server.py:107-155 | every running core is listed, and two cores never share an id in one snapshot |
| ProcessIds.IdsAreStable | ttexalens/gdb/gdb_server.py:117-129 | a core that runs the same ELF in consecutive snapshots keeps its id |
| ProcessIds.FirstIdsCountFromOne | ttexalens/gdb/gdb_server.py:117-129 | the first snapshot numbers the running cores from 1 on |
| ProcessIds.IdsAreNeverReissued | ttexalens/gdb/gdb_server.py:107-155 | over a whole run an id always stands for the same core and the same ELF path |
| ProcessIds.RefreshValid | ttexalens/gdb/gdb_server.py:107-155 | a snapshot keeps the table valid and never takes back an id |
| ProcessIds.ProcessTable.AvailableProcesses | ttexalens/gdb/gdb_server.py:107-155 | the loop that builds a snapshot, with its counter and its two dictionaries, equals the function the three theorems are about |
| GdbStub.LeftmostByPosition | ttexalens/gdb/gdb_server.py:692-755 | a thread gets the action of the first clause that matches it |
| GdbStub.LeftmostOfNone | ttexalens/gdb/gdb_server.py:681-685 | a thread that no clause matches keeps no action |
| GdbServer.GdbServer.ParseVCont | ttexalens/gdb/gdb_server.py:681-755 | the loop with its dictionary and its break gives every attached thread its leftmost action, and refuses the packet exactly when a clause up to the break is not acceptable |
| GdbServer.GdbServer.ApplyActions | ttexalens/gdb/gdb_server.py:767-793 | applying the actions resumes halted threads that have one and watches them and those that run already |
| GdbServer.GdbServer.WatchCores | ttexalens/gdb/gdb_server.py:795-855 | polling goes on until a core reports or the user interrupts |
| GdbServer.GdbServer.StopCores | ttexalens/gdb/gdb_server.py:863-866 | every watched core out of reset is halted again |
| GdbServer.GdbServer.QueueReports | ttexalens/gdb/gdb_server.py:856-861 | all reports and the closing one are queued in reverse and the first is taken off |
| GdbServer.GdbServer.VCont | ttexalens/gdb/gdb_server.py:678-866 | the whole packet: a pending report first, then parsing, missing threads, actions, watch and final halt |
| GdbServer.GdbServer.Attach | ttexalens/gdb/gdb_server.py:626-674 | attaching with its snapshots, checks and halt |
| GdbServer.GdbServer.Detach | ttexalens/gdb/gdb_server.py:280-297 | detaching one thread |
| GdbServer.GdbServer.DetachAll | ttexalens/gdb/gdb_server.py:298-313 | detaching everything |
| GdbServer.GdbServer.ChangeWatchpoints | ttexalens/hardware/baby_risc_debug.py:340-352 | a change of watchpoints asks whether the core is halted, halts it, changes the slots and resumes it if it was running |
| GdbStubSafety.HandleKeeps | ttexalens/gdb/gdb_server.py:220-866 | one packet keeps the state valid, and an exception in any packet but a watchpoint packet means that an attached core entered reset; what it does to all-stop is said by HandleKeepsExactly |
| GdbStubSafety.AttachKeeps | ttexalens/gdb/gdb_server.py:626-674 | attaching adds at most one thread, whose core is halted or in reset, and keeps the others stopped |
| GdbStubSafety.VContKeeps | ttexalens/gdb/gdb_server.py:678-866 | resuming, watching and stopping again keep the threads, leave every attached core stopped unless they raise, and raise only when an attached core enters reset |
| GdbStubSafety.DetachKeeps | ttexalens/gdb/gdb_server.py:277-297 | detaching removes that thread and no other, and keeps the others stopped if it releases nothing or raises |
| GdbStubSafety.DetachReleases | ttexalens/gdb/gdb_server.py:280-297 | an available thread is left running with all its watchpoint slots disabled, and the others stay stopped if and only if none of them stands for the same core |
| GdbStubSafety.DetachAllKeeps | ttexalens/gdb/gdb_server.py:298-313 | detaching everything leaves no thread attached unless it raises, which it does only when an attached core enters reset |
| GdbStubSafety.ReleaseEvolves | ttexalens/gdb/gdb_server.py:284-296 | releasing leaves none of the slots enabled and the core running, without disturbing another core, or raises because the core is in reset |
| GdbStubSafety.WatchpointsKeep | ttexalens/gdb/gdb_server.py:1015-1216 | inserting and removing watchpoints, which halts and resumes a running core, keeps every attached core stopped, also when it raises |
| GdbStubSafety.WatchpointsSpareRest | ttexalens/hardware/baby_risc_debug.py:340-352 | no core that is halted or in reset is resumed by a change of watchpoints, whatever happens during it |
| GdbStubSafety.WatchpointsRestore | ttexalens/hardware/baby_risc_debug.py:340-352 | a change that succeeds leaves the slots as asked, and a core running that was running and was not stopped by an event |
| GdbSchedule.RoundFollows | ttexalens/gdb/gdb_server.py:767-866 | the schedule of events decides beforehand whether applying actions, watching and stopping raises, and which cores are halted after it |
| GdbSchedule.ReleaseAllFollows | ttexalens/gdb/gdb_server.py:298-313 | the same for detaching everything |
| GdbSchedule.ReleaseFollows | ttexalens/gdb/gdb_server.py:284-296 | the same for releasing one core |
| GdbSchedule.RestByPlan | ttexalens/gdb/gdb_server.py:767-866 | a core is at rest exactly when it is not going by the plan or was stopped by an event since it was last set or seen running |
| GdbAllStop.VContKeepsExactly | ttexalens/gdb/gdb_server.py:678-866 | a vCont packet that starts a watch raises exactly when an access falls on a reset, and leaves all attached cores stopped exactly when none that is going then is left unstopped; any other vCont packet leaves the device alone |
| GdbAllStop.FailsByReset | ttexalens/gdb/gdb_server.py:767-866 | such a packet fails only at the reset of an attached core, and otherwise stops every core |
| GdbAllStop.DetachAllKeepsExactly | ttexalens/gdb/gdb_server.py:298-313 | detaching everything raises exactly when its plan fails; then the threads stay attached, and all-stop holds exactly when no core set running before is left running |
| GdbAllStop.DetachKeepsExactly | ttexalens/gdb/gdb_server.py:280-297 | detaching one thread loses all-stop exactly when it releases a core that another attached thread stands for |
| GdbAllStop.HandleKeepsExactly | ttexalens/gdb/gdb_server.py:220-866 | any packet keeps all-stop if and only if it is harmless by the state and the events that are due |
| GdbAllStop.EveryRunKeepsAllStop | ttexalens/gdb/gdb_server.py:220-866 | over every run, all-stop holds between any two packets if and only if every packet is harmless where it comes |
| GdbListing.SettledIsListed | ttexalens/gdb/gdb_server.py:107-155 | a thread whose core runs on with the ELF it was last listed with is listed under the same id again |
| GdbCalm.CalmRunsKeepAllStop | ttexalens/gdb/gdb_server.py:220-866 | a stub that starts over a device where no core enters reset and no ELF is loaded keeps all-stop, whatever the client sends |
| GdbRaces.ResetWhileApplyingLeavesACoreRunning | ttexalens/gdb/gdb_server.py:767-793 | a core that enters reset while actions are applied leaves another attached one running, for any number of slots |
| GdbRaces.ResetWhileStoppingLeavesACoreRunning | ttexalens/gdb/gdb_server.py:863-866 | so does one that enters reset between the two questions of the final halt loop |
| GdbRaces.ResetWhileDetachingLeavesACoreRunning | ttexalens/gdb/gdb_server.py:298-313 | so does one that enters reset while everything is detached, and all threads stay attached |
| GdbDetach.ReleaseAllFrees | ttexalens/gdb/gdb_server.py:298-313 | each thread that is available when its turn comes has its core freed for good: no slot enabled, and running unless a breakpoint or reset was due |
| GdbDetach.DetachAllFrees | ttexalens/gdb/gdb_server.py:298-313 | so each attached thread that is available when the packet comes is freed, if its core neither enters reset nor gets another ELF meanwhile |
| GdbReports.QueueDrainsInOrder | ttexalens/gdb/gdb_server.py:686-690 | while reports are queued, packets deliver them in order and change nothing else, whatever they ask for |
| GdbReports.ReportsAreDeliveredOnce | ttexalens/gdb/gdb_server.py:856-866 | the reports of every watch that starts are sent once each and in order, one per packet; exactly when stopping the cores raises, the first is glued to the second or stays in the writer |
| GdbReports.WatchBegins | ttexalens/gdb/gdb_server.py:767-793 | a watch starts, and then has something to report, exactly when applying the actions does not raise |
| GdbFindings.PollFinds | ttexalens/gdb/gdb_server.py:811-855 | one poll reports a core as exited if and only if it is in reset when asked that, and as stopped if and only if it is halted when asked that |
| GdbFindings.PollFindsOnce | ttexalens/gdb/gdb_server.py:811-855 | no core is reported twice as the same |
| GdbFindings.WatchFinds | ttexalens/gdb/gdb_server.py:795-855 | every watch ends in the first round in which something is found or the user interrupts, and reports what is found in that round |
| GdbReports.VContReportsFindings | ttexalens/gdb/gdb_server.py:795-861 | a vCont packet reports these findings and closes the list with T05; if there are none it reports S02 |
| GdbAnswers.AttachAnswers | ttexalens/gdb/gdb_server.py:626-674 | attaching succeeds if and only if the process is listed, not attached yet, and its core can be halted, and is an error otherwise |
| GdbAnswers.ActionLetters | ttexalens/gdb/gdb_server.py:700-728 | 'c' and 'C' continue, 's' and 'R' step, every other letter is refused |
| GdbAnswers.RefusedExactly | ttexalens/gdb/gdb_server.py:692-755 | the packet is refused if and only if some clause has a bad letter or a thread that is not attached, and no clause before it is for all threads |
| GdbAnswers.VContAnswers | ttexalens/gdb/gdb_server.py:678-766 | with nothing queued, the packet is refused, told of the first attached thread that is not listed, or starts a watch, each exactly when it should |
| GdbAnswers.VContResumes | ttexalens/gdb/gdb_server.py:767-793 | the only commands that let cores run are the actions of the leftmost clauses for attached threads, continue or step as asked |
| Watchpoints.SettingOneSlot | ttexalens/hardware/baby_risc_debug.py:460-466 | writing the setting of slot i puts the value at bits 4i to 4i+3 of the register, as a number, and leaves the seven other slots alone |
| Watchpoints.SettingsByNumber | ttexalens/hardware/baby_risc_debug.py:60-65 | the settings are 8, 9, 10 and 11 for program counter, read, write and access, and are read back by number |
| Watchpoints.SlotByNumber | ttexalens/hardware/baby_risc_debug.py:206-214 | a slot is enabled exactly when its four bits are 8 or more, and its kind is their lower two bits |
| Nibbles.WithNibbleSetsOne | ttexalens/hardware/baby_risc_debug.py:464-465 | clearing through the shifted mask and adding the shifted value sets one field of a register of any width |
| Watchpoints.SettingDecodes | ttexalens/hardware/baby_risc_debug.py:206-214 | the written setting of each kind is read back as enabled and of that kind |
| Watchpoints.InsertRefines | ttexalens/gdb/gdb_server.py:1079-1216 | inserting adds the entry unless one answers for it already, and is refused only when there is none and no slot is free |
| Watchpoints.RemoveRefines | ttexalens/gdb/gdb_server.py:1015-1078 | removing takes away one entry that answers for the packet, and changes nothing when there is none |
| Watchpoints.AddressIsNeeded | ttexalens/gdb/gdb_server.py:1079-1216 | a packet without an address changes nothing |
| Watchpoints.RemoveSparesAccess | ttexalens/gdb/gdb_server.py:1035-1062 | removing a read or write watchpoint spares an access watchpoint at its address if and only if one of the asked kind sits in a lower slot |
| Watchpoints.BreakpointsAreInsertedMinusRemoved | ttexalens/gdb/gdb_server.py:1015-1216 | over any mix of packets the enabled program-counter slots are the inserted and not yet removed addresses, and no kind and address is there twice |
| Watchpoints.WatchpointHardware.UpdateSetting | ttexalens/hardware/baby_risc_debug.py:460-466 | the read-modify-write of the settings register changes one slot, keeps the other lanes, writes while the core is halted, and restores the halted state |
| Watchpoints.WatchpointHardware.SetWatchpoint | ttexalens/hardware/baby_risc_debug.py:468-483 | both registers are written while the core is halted, the address is in place before the slot is enabled, and then the four bits of that slot are the number of its kind |
| Watchpoints.WatchpointHardware.InsertWatchpoint | ttexalens/gdb/gdb_server.py:1079-1216 | the packet down to the registers does what the table says: at most the lowest free slot is programmed, with its number and address, and at no moment on the way is a slot enabled at an address that was not asked for |
| Watchpoints.WatchpointHardware.RemoveWatchpoint | ttexalens/gdb/gdb_server.py:1015-1078 | the packet down to the registers does what the table says, and at no moment on the way is an entry enabled that was not enabled before |
| ByteMemory.WholeWriteHidesAttempts | ttexalens/umd_device.py:294-315 | a whole write after any partial ones gives what a single clean write gives |
| ByteMemory.PieceIsPart | ttexalens/umd_device.py:247-292 | an interrupted piece of a write is an interrupted write |
| ByteMemory.MergedWrite | ttexalens/umd_device.py:256-273 | reading a word, changing some of its bytes and writing it back writes just those bytes |
| Transfers.RetrySucceeds | ttexalens/umd_device.py:294-315 | on a remote device, after any failure but a timeout, if one of the ethernet cores answers and no later transfer aborts, the access succeeds, also as seen from above the restarts |
| Transfers.RetryNeedsACore | ttexalens/umd_device.py:294-315 | it fails if none of the ethernet cores answers |
| Transfers.NoThirdAttempt | ttexalens/umd_device.py:294-315 | it fails with the error of the second attempt if that fails |
| Transfers.OneAttempt | ttexalens/umd_device.py:306-315 | there is exactly one attempt when it works or times out, and on simulated and local devices |
| Transfers.LocalStartsOver | ttexalens/umd_device.py:359-376 | on a local device a bus error starts the access over and any other error ends it |
| Transfers.RemoteStartsOver | ttexalens/umd_device.py:359-376 | on a remote device a bus error in the second attempt does |
| Transfers.SucceedsAtOnce | ttexalens/umd_device.py:359-376 | an access whose transfers work succeeds with no further transfer |
| Transfers.TransfersByWords | ttexalens/umd_device.py:185-292 | an access makes one transfer for all whole words in its range, and one more to read, and another to write, each word it only enters or leaves |
| Transfers.OverNocsStopsAtFirst | ttexalens/device.py:177-196 | the NOCs are tried up to the first that does not time out, whose result is the result |
| UnalignedAccess.PhasesAreAligned | ttexalens/umd_device.py:206-222 | after the first phase the whole words are aligned and the word of the rest lies inside the device |
| UnalignedAccess.UmdDevice.ReadUnaligned | ttexalens/umd_device.py:185-222 | the three phases read exactly the addressed bytes, ask only for aligned words, and end with the first transfer that aborts |
| UnalignedAccess.UmdDevice.WriteUnaligned | ttexalens/umd_device.py:247-292 | the three phases write exactly the addressed bytes, or end with the first transfer that aborts and some of them written and no others |
| UnalignedAccess.UmdDevice.WriteWithEthRetry | ttexalens/umd_device.py:294-315 | a retry over another ethernet core is made exactly as `Transfers` says, and after any partial failure has the effect of one clean write |
| UnalignedAccess.UmdDevice.ReadWithEthRetry | ttexalens/umd_device.py:224-245 | a retry is made exactly as `Transfers` says, and a read that succeeds returns the addressed bytes |
| UnalignedAccess.UmdDevice.NocWrite | ttexalens/umd_device.py:359-376 | starting over after a reset of the device, any number of times, has the effect of one clean write, and it starts over and ends exactly as `Transfers` says |
| UnalignedAccess.UmdDevice.NocRead | ttexalens/umd_device.py:326-343 | the same for reading |
| UnalignedAccess.CyclicIsDistinct | ttexalens/device.py:173-180 | one round through the NOCs in cyclic order visits none twice |
| UnalignedAccess.Device.TryNocs | ttexalens/device.py:173-196 | the NOCs are tried in cyclic order, each at most once and as far as `Transfers` says, and only one that succeeded becomes active |
| UnalignedAccess.Device.WithNocFailover | ttexalens/device.py:168-196 | an operation that succeeds has the effect of one clean operation whatever failed before, and a timeout is raised only after every NOC |
| RiscDebugMemory.BytesOfWord | ttexalens/hardware/risc_debug.py:204-207 | four bytes survive being made a little-endian word |
| RiscDebugMemory.DebugMemory.ReadMemoryBytes | ttexalens/hardware/risc_debug.py:184-208 | the word-wise loop reads exactly the addressed bytes |
| RiscDebugMemory.DebugMemory.WriteMemoryBytes | ttexalens/hardware/risc_debug.py:210-255 | the word-wise prefix, loop and suffix write exactly the addressed bytes and no others |
| RiscDebugMemory.BothWritesAgree | ttexalens/hardware/risc_debug.py:210-255 | a write over the NOC and one through the debug hardware leave the same memory |
| IntervalMap.CheckDecidesDisjointness | ttexalens/memory_map.py:50-60 | for intervals that are not empty, the check of neighbours passes if and only if no two intervals share an address |
| IntervalMap.SortKeepsDisjointness | ttexalens/memory_map.py:50-52 | sorting neither creates nor hides an overlap |
| IntervalMap.IntervalMap.Create | ttexalens/memory_map.py:50-62 | a map is built exactly when no interval reaches into the next |
| IntervalMap.IntervalMap.BisectRight | ttexalens/memory_map.py:64-66 | the binary search splits the intervals at the address |
| IntervalMap.IntervalMap.Find | ttexalens/memory_map.py:68-82 | with any cached interval, the lookup equals a linear scan |
| IntervalMap.IntervalMap.FindAll | ttexalens/memory_map.py:68-82 | so does every lookup of any sequence |
| IntervalMap.IntervalMap.FindNext | ttexalens/memory_map.py:84-89 | the next interval is the one with the least start above the address |
| IntervalMap.OnlyOneContains | ttexalens/memory_map.py:74-81 | an address lies in at most one interval |
| IntervalMap.GapIsUnmapped | ttexalens/memory_map.py:84-89 | where a lookup fails, nothing is mapped up to the next start |
| MemoryMap.MemoryMap.InitializeBlocks | ttexalens/memory_map.py:104-125 | a name that is taken is refused, overlaps are refused per space, and otherwise each space holds exactly the blocks that have an address there |
| MemoryMap.IntervalsBySpace | ttexalens/memory_map.py:115-121 | each space holds an interval if and only if it is that of a block with that address in that space |
| MemoryMap.RulesByAccess | ttexalens/memory_map.py:22-32 | a block can be read unless it forbids it and written only if it allows it, by a fixed answer or a test of address and size |
| MemoryMap.RangeGrows | ttexalens/device.py:243-265 | a safe range extended by a piece of one block is safe if and only if that piece is |
| MemoryMap.RangeFails | ttexalens/device.py:246-278 | a piece that is not safe makes the whole range unsafe |
| MemoryMap.ValidateAccess | ttexalens/device.py:228-280 | an access is accepted if and only if every byte is in an accessible block and each block allows its share; otherwise the address reported starts the lowest failing piece |
| MemoryWalks.PieceIsInOneRegion | ttexalens/cli_commands/read.py:130-181 | the next piece lies inside one block or one gap |
| MemoryWalks.Target.SafeSize | ttexalens/cli_commands/read.py:93-105 | a safe command is refused exactly when the address is unknown or, in safe mode, its piece is not safe |
| MemoryWalks.Target.UnsafeSize | ttexalens/cli_commands/read.py:133-172 | an unsafe command takes the rest of the block or of the gap |
| MemoryWalks.Target.Read | ttexalens/cli_commands/read.py:70-87 | the pieces are not empty and partition the request, together they are the requested bytes, and each reaches the end of its region or of the request; a safe read completes if and only if all of it is permitted, and otherwise stops at the first piece that is refused |
| MemoryWalks.Target.Write | ttexalens/cli_commands/write.py:95-109 | the same for writing: the pieces together are one write of the data, up to where it stops |
| MemoryWalks.GetSearchRanges | ttexalens/cli_commands/search-memory.py:103-163 | the ranges partition the span from the start to the end address or the first gap, one block each |
| ChunkedSearch.HitsExact | ttexalens/cli_commands/search-memory.py:88-100 | the list of matches contains an address if and only if the pattern is there |
| ChunkedSearch.HitsAscend | ttexalens/cli_commands/search-memory.py:88-100 | the list of matches is ascending and has no duplicates |
| ChunkedSearch.FindInData | ttexalens/cli_commands/search-memory.py:88-100 | the loop finds all matches, overlapping ones included, or the first so many |
| ChunkedSearch.ChunkAddsTheRest | ttexalens/cli_commands/search-memory.py:189-216 | with the kept tail, each chunk yields exactly the matches that could not be seen before |
| ChunkedSearch.TailOfTail | ttexalens/cli_commands/search-memory.py:216-217 | keeping the tail of an extended tail is keeping the tail of everything read |
| ChunkedSearch.SearchInRange | ttexalens/cli_commands/search-memory.py:166-220 | for every read size, pattern and short reads, the search returns the first so many of all matches in the range, or in the part up to where a read fails or returns nothing |
| ChunkedSearch.ReadsToTheEnd | ttexalens/cli_commands/search-memory.py:189-220 | when no read fails or returns nothing, however short the reads are, that part is the whole range |
| ChunkedSearch.ReadingFailsThere | ttexalens/cli_commands/search-memory.py:189-220 | a read that fails or returns nothing, before the range is done, ends the search at its address |
| Packets.FlipInverts | ttexalens/gdb/gdb_communication.py:365-376 | escaping is undone by flipping again, and leaves no special byte |
| Packets.FlipIsExclusiveOr | ttexalens/gdb/gdb_communication.py:173-175 | the flip is the exclusive or with 0x20 |
| Packets.EscapedHidesFraming | ttexalens/gdb/gdb_communication.py:365-379 | nothing in an escaped payload looks like a start, an end or a run-length mark |
| Packets.EscapedByByte | ttexalens/gdb/gdb_communication.py:365-379 | '$', '#', '*' and '}' are escaped with '}' and a flipped bit, and no other byte is |
| Packets.PacketOnTheWire | ttexalens/gdb/gdb_communication.py:425-438 | a packet is '$', the escaped payload, '#', and the sum of the escaped bytes modulo 256 as two digits |
| Packets.DigitsByCharacter | ttexalens/gdb/gdb_communication.py:403-409 | digits are written in upper case and read in both cases |
| Packets.HexDigitsDenote | ttexalens/gdb/gdb_communication.py:398-409 | the digits written denote the number, are as many as asked for, and have no other padding |
| Packets.ParsingInvertsAppending | ttexalens/gdb/gdb_communication.py:259-270 | parsing gives back every number with every padding and stops behind it |
| Packets.GdbMessageParser.ParseHex | ttexalens/gdb/gdb_communication.py:259-270 | the loop reads the whole run of digits, or nothing when there is none |
| Packets.GdbMessageWriter.AppendChar | ttexalens/gdb/gdb_communication.py:365-379 | a byte is added to the payload, and the wire form and the checksum follow |
| Packets.GdbMessageWriter.AppendHex | ttexalens/gdb/gdb_communication.py:398-409 | the recursive writer appends the digits to the payload |
| Packets.GdbMessageWriter.Send | ttexalens/gdb/gdb_communication.py:425-438 | the packet on the wire carries the payload and the sum of its wire bytes modulo 256, and the next one starts empty |
| PacketReader.ReadFramed | ttexalens/gdb/gdb_communication.py:146-227 | a packet that arrives whole is accepted if and only if neither checksum byte equals the value of the digit that belongs there; a rejected one is answered and skipped |
| PacketReader.ScanReadsEscaped | ttexalens/gdb/gdb_communication.py:162-188 | scanning an escaped payload collects the payload and sums up its wire bytes |
| PacketReader.AcksByCharacter | ttexalens/gdb/gdb_communication.py:146-160 | acknowledgements are '+' and '-' |
| PacketReader.OneDeliveryIsReadBack | ttexalens/gdb/gdb_communication.py:146-227 | everything sent in one delivery is read back in order with no byte left |
| PacketReader.EverythingSentIsReadBack | ttexalens/gdb/gdb_communication.py:137-227 | the same for any grouping of whole packets and acknowledgements into deliveries |
| PacketSplits.SplitPayloadNeverComesBack | ttexalens/gdb/gdb_communication.py:137-227 | wherever a packet is split into two deliveries, its payload is not what the reader returns |
| PacketSplits.ComesBackExactlyWhenWhole | ttexalens/gdb/gdb_communication.py:137-227 | a payload comes back if and only if its packet arrives whole |
| PacketSplits.ScanEnd | ttexalens/gdb/gdb_communication.py:162-188 | a scan that reaches the end mark has collected no more than the wire bytes it used up |
| PacketSplits.SplitPacketIsLost | ttexalens/gdb/gdb_communication.py:137-144 | one split packet that is lost |
| PacketSplits.SplitPacketIsTruncated | ttexalens/gdb/gdb_communication.py:137-144 | one split packet that is accepted as a shorter message |
| PacketReader.GdbInputStream.EnsureInputBuffer | ttexalens/gdb/gdb_communication.py:137-144 | a refill replaces the buffer |
| PacketReader.GdbInputStream.ReadMessage | ttexalens/gdb/gdb_communication.py:146-227 | the reader with its buffer, its loop and its recursion equals the function the theorems are about, exceptions included |
| PacketReader.PayloadsComeBack | ttexalens/gdb/gdb_communication.py:146-227 | writer and reader together return every sequence of payloads |
| PrivateWindow.CoreStateComesBackUnlessResetIsLost | ttexalens/hardware/baby_risc_debug.py:596-623 | for a body that leaves the cores alone, the core is running, halted or in reset as before if and only if it was out of reset, or obeys or wakes up halted and the body does not raise; the reset register is the same then, and the flags of the other cores always are |
| PrivateWindow.BodySeesLoopingCore | ttexalens/hardware/baby_risc_debug.py:604-617 | while the body runs, a core that was in reset is out of it with the word 0x6F at its start address, and nothing else is different |
| PrivateWindow.StartWordComesBack | ttexalens/hardware/baby_risc_debug.py:604-623 | memory is what the body left, except that the start word has its first value again, however the body ends |
| PrivateWindow.DisobedientCoreIsGivenUp | ttexalens/hardware/baby_risc_debug.py:614-623 | a core that does not halt is given up before the body runs, with memory as it was and its reset released |
| PrivateWindow.WritesArriveExceptAtTheStart | ttexalens/hardware/baby_risc_debug.py:604-623 | writes through the window arrive as without it, except those to the start word |
| PrivateWindow.WritingThroughTheWindow | ttexalens/hardware/baby_risc_debug.py:596-623 | a normal access that only writes changes nothing else |
| PrivateWindow.BabyRiscDebug.EnsureHalted | ttexalens/hardware/baby_risc_debug.py:340-352 | the core is halted for the body and resumed if it ran, also when the body raises |
| PrivateWindow.BabyRiscDebug.EnsurePrivateMemoryAccess | ttexalens/hardware/baby_risc_debug.py:596-623 | the sequence of register and memory writes equals the function the theorems are about |
| Registers.WithFlagSetsOne | ttexalens/hardware/baby_risc_debug.py:532-541 | changing the reset register with masks and shifts gives one flag the value and keeps the other 31 |
| Registers.FlagPutBack | ttexalens/hardware/baby_risc_debug.py:532-541 | clearing or setting a flag and putting the old one back gives the same 32-bit register |
| Registers.AddingSetsOne | ttexalens/hardware/baby_risc_info.py:74-80 | or with the bit sets one flag and keeps 31 |
| Registers.RemovingClearsOne | ttexalens/hardware/baby_risc_info.py:86-93 | and with the complement clears one flag and keeps 31 |
| Registers.MaskingTestsOne | ttexalens/hardware/baby_risc_info.py:52-57 | and with the bit is zero exactly when the flag is clear |
| BitArithmetic.OrIntoGap | ttexalens/elf_loader.py:46-61 | or puts a field into a gap of any width at any place of any number by adding it |
| Bits.LowestBitIsLowest | ttexalens/debug_bus_signal_store.py:291 | the length of the mask combined with its negation is the position of the lowest set bit |
| Bits.NegationSharesTheLowest | ttexalens/debug_bus_signal_store.py:291 | a number and its negation share exactly that bit |
| Bits.NegationAddsUp | ttexalens/debug_bus_signal_store.py:291 | a number and its negation add up to the power of two at their width |
| DebugBus.OnePartAgrees | ttexalens/debug_bus_signal_store.py:90-97 | a one-part signal cut out of a sample equals its direct read, for every mask, place and words |
| DebugBus.PartsAgree | ttexalens/debug_bus_signal_store.py:90-97 | a signal of several parts is its parts at their places, shifted down to the lowest bit any of them uses |
| DebugBus.PartsExactly | ttexalens/debug_bus_signal_store.py:490-512 | the parts of a base name in a group are the signals with the group's two selectors and that base name |
| DebugBus.BaseNameEndsAtSlash | ttexalens/debug_bus_signal_store.py:165-167 | the base name ends before the first slash |
| DebugBus.BuildGroup | ttexalens/debug_bus_signal_store.py:490-512 | the loop stores one mask and shift for each base name that has a part in the group, and collects the part names |
| DebugBus.CreateInitialization | ttexalens/debug_bus_signal_store.py:473-519 | every group is stored under its name and nothing else is |
| DebugBus.ConfigIsInjective | ttexalens/debug_bus_signal_store.py:250-252 | no two selections share a control word |
| DebugBus.ConfigJoinsFields | ttexalens/debug_bus_signal_store.py:251 | the control word is its fields put together with or |
| DebugBus.DebugBusSignalStore.ReadSignalGroupUnsafe | ttexalens/debug_bus_signal_store.py:463-470 | the loop over the four words assembles the sample |
| DebugBus.DebugBusSignalStore.SampleByBit | ttexalens/debug_bus_signal_store.py:463-470 | bit i of a sample is bit i % 32 of word i / 32 of the group |
| DebugBus.DebugBusSignalStore.ReadSignal | ttexalens/debug_bus_signal_store.py:265-291 | the masked word is shifted down by the trailing zeros of the mask |
| DebugBus.DebugBusSignalStore.SampleAndSignalAgree | ttexalens/debug_bus_signal_store.py:463-470 | sampling the group and reading a one-part signal directly give the same value |
| EntryPoint.DecodingInvertsEncoding | ttexalens/elf_loader.py:29-61 | exactly the legal offsets and registers are encoded, and decoding by the J-type format returns the register and the offset, the offset unchanged if and only if it is even |
| EntryPoint.JumpJoinsFields | ttexalens/elf_loader.py:46-61 | the word of the instruction is what the extracted fields give when shifted and put together with or |
| EntryPoint.JumpToSelf | ttexalens/hardware/baby_risc_debug.py:611-612 | the word written to let a core loop is the jump by zero |
| EntryPoint.CoreReachesWhatWasSet | ttexalens/hardware/baby_risc_info.py:48-93 | after a successful setting the core reaches the address by the register or by one jump, if and only if there is a register or the distance to jump is even |
| EntryPoint.SettingFailsExactlyWhen | ttexalens/hardware/baby_risc_info.py:66-93 | each way to fail has its exact condition, and changes neither the start register nor memory |
| EntryPoint.SettingSparesTheRest | ttexalens/hardware/baby_risc_info.py:66-93 | no other flag of the enable register and no other word changes, and setting nothing makes the start address the default again |
| EntryPoint.JumpStaysBehind | ttexalens/hardware/baby_risc_info.py:66-75 | without a start register, setting nothing or the default after an address writes nothing: the jump to that address stays in the start word |
| EntryPoint.BabyRiscInfo.GetCodeStartAddress | ttexalens/hardware/baby_risc_info.py:48-64 | the start address is the register when it is there and enabled, else the default |
| EntryPoint.BabyRiscInfo.SetCodeStartAddress | ttexalens/hardware/baby_risc_info.py:66-93 | the register and memory writes equal the function the theorems are about |

## Left out

- CalmRunsKeepAllStop: takes the order in which cores are listed to name each core once.
- DetachAllFrees: is about threads whose core keeps its ELF; a core that gets another one is no longer listed under the thread's id, and the code passes it over.
- CoreStateComesBackUnlessResetIsLost: takes a body that does not itself reset, halt or resume cores; `StartWordComesBack` does not need this.
- NocWrite: assumes that the device keeps its memory over the reset that is recovered from.
- Unwinding itself: the frames it finds, with their CFAs and return addresses, are a finite sequence given to `GetCallstack`. The collection of variables.
- DWARF parsing, line tables and lookups by address; they are parameters of an image.
- Events that take a core out of reset or resume it without the stub; a snapshot of processes is taken at one moment, and watched cores are polled in the order they were added, where the code iterates over a set.
- The text of stop replies, which watchpoint was hit, and the assertion about it.
- The other packets, among them P, G, m, M, X and the paged replies; fixed-length hex fields; the unescaped writer; a writer that is not cleared after an exception, for packets other than vCont.
- ComesBackExactlyWhenWhole: is about one packet in two deliveries with nothing behind it; packets in more pieces are not considered.
- The variants of read, write and search for private addresses of a core, which are the same loops over another map, and the access through the private-memory window they use for unknown addresses.
- Matches that lie across two memory blocks: the search looks at one range at a time, and so does the model.
- Callbacks, warnings, traces and timeouts; DMA transfers, which take the place of NOC transfers above a size.
- Enable masks have one bit, as all of them do in the source.
- Start addresses are not negative, and a core without a start register has 32-bit addresses that do not wrap around.
- L1 sampling of signal groups, whose samples come from hardware.
- Coordinates, ELF files, register files, floating point formats, coverage, command line and user interface.
