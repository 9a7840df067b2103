# A verified model of the rv906 test harness

The repository simulates an RV64 core. Around the simulated core stands a C++ harness: an AXI4-Lite style fabric with
bursts (crossbar, master and slave state machines, a width converter, a pipelined memory controller, a sparse paged
memory), a golden model of instruction fetch, byte-level loaders over the memory, and a JTAG driver. This project models
that harness in Dafny and proves what its parts promise each other.

## Layout

| file | models |
|---|---|
| `Axi.dfy` | the channel bundles and their reset values |
| `Slave.dfy`, `Master.dfy` | the two burst state machines |
| `Crossbar.dfy` | arbitration and ownership tables |
| `ReadFabric.dfy`, `WriteFabric.dfy` | masters, crossbar and slaves stepped together |
| `ReadLatency.dfy` | how long reads take when all masters read one slave |
| `ReadStall.dfy`, `WriteRefusal.dfy` | what a device that stalls or refuses in a burst does to the fabric |
| `MemFabric.dfy` | the read fabric with the memory controller as one of its slaves |
| `ReadAfterWrite.dfy` | both fabrics over one memory controller |
| `Runs.dfy` | runs of a transition relation |
| `ExtMem.dfy` (module `Memory`), `Arith.dfy` | the paged memory and the arithmetic its proofs need |
| `MemCtl.dfy` | the memory controller, alone and with the memory |
| `Uart.dfy`, `UartPath.dfy` | the width converter, and the whole path from bus master to UART |
| `Immediates.dfy`, `Ras.dfy`, `Iss.dfy`, `IssWalk.dfy`, `IssPredict.dfy` | the golden fetch model |
| `Assembly.dfy` | an assembler for the control transfers, against which its decoding is proved |
| `Space.dfy` | the 64-bit address space over the memory, with wrap-around |
| `TestBench.dfy`, `Argv.dfy` | the device-tree copy and the write system call, and the argv block |
| `Jtag.dfy` | the JTAG scan sequences against a TAP controller |
| `Queues.dfy` | the two ring buffers |

`dafny verify dfyconfig.toml` checks everything.

## How it is modelled

Each state machine appears twice. A pure function gives one step on values (`Slave.ReadStep`, `Crossbar.Step`,
`MemCtl.Step`, `Iss.Step`, ...). A class with the source's registers as fields has methods that update them in place, and
each method ensures that its new state is that function of the old one. The theorems are about runs of the step functions:
sequences of cycles of any length with arbitrary inputs.

What the harness cannot see becomes an input. A device's answers (`devReadSetup`, `devRead`, `devWriteSetup`, `devWrite`)
are per-cycle inputs and the calls made to it are outputs. The core's requests, the instruction image and the contents of
JTAG data registers are inputs too.

Assumptions about the surroundings:

- One crossbar cycle runs the masters' `fsm`, then `connectChannel`, then the slaves' `fsm`. The repository's own files do
  not instantiate `CTRL`, so this order is an assumption. The UART path and the memory follow `RVProcTest.cpp:2213-2243`
  and `io/ExtMem.h:118-123`.
- A master keeps `valid` up until it is accepted (section A3.2 of ARM IHI 0022) and has one outstanding transaction per
  direction.
- In the fabric theorems devices stay ready in a read burst once they have been, and accept the beats of a burst write;
  single-beat writes they may refuse for as long as they like. These conditions are exact. A read is released by the
  crossbar if and only if its device did not stall (`ReadStall.ReleasedIffSteady`); after a stall of any length and with
  any data the master keeps the slave, and its next read goes there (`ReadStall.StalledReadFails`). A burst write ends
  if and only if none of its beats is refused (`WriteRefusal.EndsIffUnrefused`). `ReadStall.MidBurstReached` and
  `WriteRefusal.BurstReached` show that every configuration reaches states in which this matters. `MemCtl.SteadyDevice`
  shows that the memory controller meets both conditions, and `MemFabric` joins it to the fabric.

Where the code and its comments differ, the model follows the code:

- `m1_iss.h` speaks of a 16-entry call stack; the stack is unbounded and 16 only triggers a message.
- `shift_dr` is described as shifting `din` in; it drives zero in place of the top bit. `Jtag.ScanRoundTrip` states
  exactly when `din` is loaded, and `Jtag.DmiDelivery` what this means for a debug module request.
- `pass_elf_args` accepts any address, but word writes go to the aligned word. `Argv.PointersRightIff` states exactly
  when the stored pointers point to their strings.
- The device-tree loop copies to the start of the page of `dtb_addr`. `TestBench.BlobInPlaceIffAligned` states exactly
  when the blob ends up at `dtb_addr`.
- `IOBuf::update` clears `full` when a full buffer is read and written at once. `Queues.TruthfulUnlessFullExchange`
  states that this is the only such case, and `Queues.FlagsTruthfulIff` when the flags are right over whole runs.

## Model

| member | source | states |
|---|---|---|
| `ReadFabric.ReadsEndToEnd` | io/RVProc_io.h:565-881 | in every reachable state of masters and slaves: a finished read of length len made exactly len+1 device reads, all at the slave its address decodes to, and the master latched exactly their values in order, each with an OKAY response; an unfinished one has latched a prefix; an idle master drives the reset values |
| `ReadFabric.NoStrayReads` | io/RVProc_io.h:757-881 | every device read in every run belongs to exactly one connected, busy master whose operation decodes to that slave |
| `ReadFabric.ConnectReads` | io/RVProc_io.h:818-839 | given what masters and slaves drive, `connectChannel` leaves the tables and the masters' channel ends as the cycle of the fabric says, and shows each slave what its step in that cycle sees |
| `ReadFabric.ServedReadCompletes` | io/RVProc_io.cpp:156-178 | a read that owns a slave with a ready device is finished and delivered after exactly its rank in cycles, at most len+4 |
| `ReadLatency.ReadsDeliveredInTime` | io/RVProc_io.h:787-881 | when all masters read one slave with a ready device in bursts of at most most+1 beats, every read, waiting or served, is delivered within (masters+1)*(most+3)+1 cycles |
| `ReadStall.ReleasedIffSteady` | io/RVProc_io.h:579-603 | from getting the slave to the end of the operation, for any device answers: the crossbar has released the slave, and everything is delivered, if and only if the device never stalled in mid-burst; otherwise the master still owns the slave |
| `ReadStall.StalledReadFails` | io/RVProc_io.h:840-855 | after a stall of any length, with any data, the master stays connected to the slave until and in the cycle in which it starts its next read, whose address is put before that slave whatever it decodes to |
| `ReadStall.HeldEnds` | io/RVProc_io.cpp:156-178 | after a stall the master is done after exactly its remaining count plus one cycles, whatever the device answers, and still owns the slave |
| `ReadStall.UnfairRunHolds` | io/RVProc_io.h:565-881 | the assumption of the read theorems is exact: after a run that is fair but for its last cycle, every continuation soon has a master that is done and still owns its slave |
| `ReadStall.FairRunReleases` | io/RVProc_io.h:565-881 | its partner: in a fair run a master that is done owns no slave |
| `ReadStall.StallDoublesBeat` | io/RVProc_io.h:579-603 | the data of a one-cycle stall: the master latches the beat before it twice, which goes unnoticed in the data if and only if the device returns that beat again |
| `ReadStall.MidBurstReached` | io/RVProc_io.h:565-605 | in every configuration a fair run of two cycles from reset reaches a mid-burst state, for any master and any read of two beats or more |
| `ReadFabric.LinkBusyStep` | io/RVProc_io.cpp:156-178 | one connected cycle of master, channel, slave and device keeps every beat accounted for, and the slave is idle again when the crossbar releases it |
| `WriteFabric.WritesEndToEnd` | io/RVProc_io.h:606-881 | in every reachable state: a finished write made exactly len+1 accepted device writes at the decoded slave, of exactly the words the master took from the core in order, and the master saw the response that slave raised; the word a busy master offers is the one it took last, marked last exactly if it is word len; an idle master drives the reset values |
| `WriteFabric.ReadyAfterOkay` | io/RVProc_io.cpp:179-214 | in every cycle of every run, a busy master tells the core to go on if and only if its write is over in this cycle and the response its slave raised is OKAY |
| `WriteFabric.ReadyWhenOver` | io/RVProc_io.cpp:179-214 | in any run with devices that never fault, a busy master tells the core to go on exactly in the cycle in which its write is over |
| `WriteFabric.NoStrayWrites` | io/RVProc_io.h:757-881 | every device write in every run belongs to exactly one connected, busy master whose operation decodes to that slave |
| `WriteFabric.ConnectWrites` | io/RVProc_io.h:818-839 | the same for the write direction |
| `WriteFabric.ServedWriteCompletes` | io/RVProc_io.cpp:179-214 | a write that owns a slave is finished with all its words written after exactly its rank in cycles, at most len+4 |
| `WriteFabric.LinkBusyStep` | io/RVProc_io.cpp:179-214 | one connected cycle keeps the offered word the next one to be written, each word written once, also when the device refuses a single-beat write |
| `WriteRefusal.EndsIffUnrefused` | io/RVProc_io.h:638-656 | from any state of a burst write, in any run long enough, for any device answers: the operation ends if and only if no beat is refused in the cycles it needs, and then in exactly that time with everything delivered |
| `WriteRefusal.RefusedWriteFails` | io/RVProc_io.h:638-656 | after a refused beat, the last one or not, master and slave hang in every later state and the crossbar keeps them connected |
| `WriteRefusal.RefusedRunHangs` | io/RVProc_io.h:606-881 | the assumption of the write theorems is exact: after a run in which only the last cycle refuses a beat of a burst, some master is busy for ever in every continuation |
| `WriteRefusal.RefusalSkipsWord` | io/RVProc_io.h:638-656 | the data of a refusal: the next word is written in place of the refused one |
| `WriteRefusal.BurstReached` | io/RVProc_io.h:606-635 | in every configuration one cycle from reset reaches a state in which a burst write waits for its first beat |
| `ReadAfterWrite.ReadsSeeWrites` | io/ExtMem.h:56-123 | through both directions of the crossbar, in any run: when a write to memory is finished and a read of memory starts afterwards, then at every common address the reader latches the writer's byte, or the last byte logged for this address between the two beats, so the writer's byte unless it was overwritten |
| `ReadAfterWrite.RunFormed` | io/ExtMem.h:118-123 | every state of every run is well formed, so the run can go on |
| `ReadAfterWrite.FullInvStep` | io/ExtMem.h:118-123 | one cycle of both fabrics, the controller and memory keeps all invariants, and the log of changes gives the reference memory |
| `MemFabric.MemoryReadsEndToEnd` | io/ExtMem.h:56-123 | in every reachable state of fabric, controller and memory, from any memory and with any writes and host accesses: a finished read that decodes to the memory latched len+1 beats, and beat k carries in its lanes the bytes at addr + (k << size) of the reference memory of the cycle it was read in; without host accesses after the first beat that is one memory for the whole burst |
| `MemFabric.RunGoesOn` | io/ExtMem.h:118-123 | every run of fabric, controller and memory can go on, whatever the next inputs are |
| `MemFabric.JointInvStep` | io/ExtMem.h:118-123 | one cycle of fabric, controller and memory keeps the invariants of all three and the match between the fabric's slave and the controller |
| `Crossbar.OwnershipAlways` | io/RVProc_io.h:763-881 | after any run from reset the master and slave tables are mutually inverse, and in the next cycle no slave is connected to two masters nor a master to two slaves |
| `Crossbar.OwnershipMatching` | io/RVProc_io.h:840-880 | a cycle with any mix of grants and releases keeps the tables inverse |
| `Crossbar.GrantsExactlyOne` | io/RVProc_io.h:763-800 | a free requested slave grants exactly one of its requesters, any other slave none |
| `Crossbar.NearestIsGranted` | io/RVProc_io.h:787-800 | if a cycle grants a free slave, then to the idle master asking for it that is nearest to the round-robin pointer, counting upwards and around |
| `Crossbar.BoundedWaiting` | io/RVProc_io.h:787-810 | while all requests go to one slave, a waiting master sees at most MC-1 grants to others, more exactly the distance of the round-robin pointer |
| `Crossbar.Ctrl.Arbitrate` | io/RVProc_io.h:787-800 | the two loops find a requester exactly if there is one, and newly grant the requester nearest to the pointer, counting upwards and around, and no other |
| `Crossbar.Ctrl.CheckRequests` | io/RVProc_io.h:763-786 | exactly the idle masters with a valid address for a free slave request it |
| `Crossbar.Ctrl.UpdateStat` | io/RVProc_io.h:840-880 | the table writes of a grant and of a release |
| `Crossbar.Ctrl.ConnectChannel` | io/RVProc_io.h:818-839 | the loops perform one step of the tables, connected ends see each other, all other ends are reset |
| `Slave.ReadBurstAccounting` | io/RVProc_io.h:565-605 | for any device and master: a read of length len completes after exactly len+1 successful device reads, every beat is OKAY, `last` marks exactly the final one, an untaken last beat is held without another device read; otherwise the channel shows its reset values, and the address is acknowledged for one cycle |
| `Slave.ReadAcceptedOnce` | io/RVProc_io.h:565-605 | for any device and master: no address is accepted twice, because a new burst is set up only after the master has withdrawn the address of the last one, and the slave waits for exactly that |
| `Slave.WriteBurstAccounting` | io/RVProc_io.h:606-673 | for any device and master: the response rises exactly with the (len+1)-th accepted beat, is an error exactly if the device reports a fault then, and is held until taken; when address and data are acknowledged |
| `Slave.WriteAcceptedOnce` | io/RVProc_io.h:606-673 | for any device and master: no address is accepted twice; a write ends exactly when its response has been taken and its address was withdrawn before the response rose or is down now, so a withdrawal in between is forgotten |
| `Slave.SlaveFsm.FsmRead` | io/RVProc_io.h:565-605 | the in-place machine performs one read step and leaves the write side alone |
| `Slave.SlaveFsm.FsmWrite` | io/RVProc_io.h:606-673 | the in-place machine performs one write step and leaves the read side alone |
| `Master.MasterFsm.Fsm` | io/RVProc_io.cpp:100-222 | one call is one step of the read half or of the write half, never of both; the core may go on exactly if no operation is under way and a write that ended had no bad response |
| `Master.MasterFsm.AwaitRead` | io/RVProc_io.cpp:156-178 | the read wait state: what is latched and when the operation ends |
| `Master.MasterFsm.AwaitWrite` | io/RVProc_io.cpp:179-214 | the write wait state: the next word offered, the acknowledgements noted, when the operation ends, and that the core may go on exactly if it ends with OKAY both latched and, if shown, on the channel |
| `MemCtl.PipelinedReads` | io/ExtMem.h:56-123 | after any run of controller and memory, from any contents of memory and with any host accesses between the cycles, beat j of an aligned burst carries in its lanes the bytes at addr + (j << size) that memory held in the cycle with this address on the pins, and memory then had every write beat accepted and every host write made so far |
| `MemCtl.HostWriteKeptIff` | testbench/TestBench.cpp:320-323 | a byte the host writes is in memory after the next cycle if and only if no write beat on the registered pins covers it, or that beat has the same byte there |
| `MemCtl.HostStep` | testbench/TestBench.cpp:320-323 | host accesses keep the invariant between controller, memory and reference memory |
| `MemCtl.WriteBeatApplied` | io/ExtMem.h:76-95 | an accepted write beat j changes exactly the bytes of its lanes at addr + (j << size) |
| `MemCtl.PortExclusion` | io/ExtMem.h:56-116 | in every cycle of every run reads and writes never share the port, and a read burst ends with exactly len+1 beats and len+1 read chip selects |
| `MemCtl.RefusedReadGoesFirst` | io/ExtMem.h:56-82 | a refused read is accepted before the next write starts |
| `MemCtl.WaitingWriteGoesFirst` | io/ExtMem.h:56-82 | while a write that waited during a read is not accepted, no further read is set up |
| `MemCtl.SteadyDevice` | io/ExtMem.h:63-95 | in every reachable state the controller stays ready in a burst, accepts every write beat and never answers a write with an error |
| `MemCtl.Controller.StepCycle` | io/ExtMem.h:118-123 | the in-place controller performs one step and drives the pins it registered |
| `Memory.SlotInjective` | io/ExtMem.h:190-200 | two addresses share a (bucket, key) slot if and only if they share a page, for both page-table layouts |
| `Memory.FlatRefinement` | io/ExtMem.h:190-258 | after any bus accesses, word and byte writes and word reads, every address holds the last byte written there, or what it held before: zero in an empty memory |
| `Memory.ReadsSeeLastWrites` | io/ExtMem.h:246-258 | every bus read and every word read returns the last bytes written |
| `Memory.UpdateKeeps` | io/ExtMem.h:246-258 | an update changes no pin but, if it reads, the addressed lanes of the data |
| `Memory.ExtMem.MemUpdate` | io/ExtMem.h:157-165 | an update performs the access on the pins on the paged store |
| `Memory.ExtMem.ReadMem` | testbench/TestBench.cpp:38-41 | a word read returns the eight bytes of the aligned word and changes no byte |
| `Memory.ExtMem.WriteMem` | testbench/TestBench.cpp:42-45 | a word write changes exactly the eight bytes of the aligned word |
| `Memory.ExtMem.WriteByte` | testbench/TestBench.cpp:46-49 | a byte write changes exactly that byte |
| `Uart.LaneRoundTrip` | io/RVProc_io.h:883-893 | a byte put on its bus lane and taken off again is the same byte, and it is the addressed one |
| `Uart.LanesReadBack` | io/RVProc_io.h:883-893 | a byte put on the bus is read back at every address that shares its lane of eight, and zero at the others |
| `Uart.Converter.Fsm` | io/RVProc_io.h:895-1048 | the five in-place channel registers perform one converter step |
| `UartPath.ExactlyOnceReads` | io/RVProc_io.h:895-1048 | in every run, device reads match the requests one for one and in order, and answer k is OKAY, marked last, and carries the byte of call k in the addressed lane; without an answer the channel shows its reset values |
| `UartPath.ReadsCompleteInTime` | RVProcTest.cpp:2213-2243 | a read is answered within five cycles if the master is ready for it |
| `UartPath.ExactlyOnceWrites` | io/RVProc_io.h:895-1048 | in every run, device writes match the requests one for one and in order with the addressed byte of the word, in a beat marked last, each with one OKAY response |
| `UartPath.WritesCompleteInTime` | RVProcTest.cpp:2213-2243 | a write is answered within five cycles if the master offers the data and is ready for the response |
| `Immediates.SextIsTwosComplement` | m1_iss.h:151-155 | `sext` is two's-complement extension for every width from 1 to 64 |
| `Immediates.DecodeEncodeB` | m1_iss.h:158-165 | decoding an encoded even branch offset in range returns it, whatever the other instruction bits |
| `Immediates.EncodeDecodeB` | m1_iss.h:158-165 | every decoded branch offset is even and in range, and encoding it gives the instruction's own offset bits |
| `Immediates.DecodeEncodeJ` | m1_iss.h:168-175 | the same for jumps |
| `Immediates.EncodeDecodeJ` | m1_iss.h:168-175 | the same for jumps, backwards |
| `Immediates.DecodeEncodeCj` | m1_iss.h:178-189 | the same for compressed jumps |
| `Immediates.EncodeDecodeCj` | m1_iss.h:178-189 | the same for compressed jumps, backwards |
| `Immediates.DecodeEncodeCb` | m1_iss.h:192-200 | the same for compressed branches |
| `Immediates.EncodeDecodeCb` | m1_iss.h:192-200 | the same for compressed branches, backwards |
| `Ras.RingAgainstStack` | m1_iss.h:242-267 | after any pushes and pops, also of the empty stack, the ring predicts the value of the op that last wrote the slot of the top entry; that op is the entry's own push if and only if the depth since then never exceeded its position plus 4 |
| `Ras.OriginAndWriterExist` | m1_iss.h:313-347 | the push and the last writer that statement speaks of exist and are unique |
| `Ras.ShallowReturnsPredicted` | m1_iss.h:242-267 | a return within that depth is predicted right |
| `Ras.NestedReturns` | m1_iss.h:242-267 | after n >= 4 nested calls the j-th return is predicted as v(n-1 - j mod 4), from any earlier ring contents |
| `Ras.RasView.Push` | m1_iss.h:262-266 | the in-place ring performs a push |
| `Ras.RasView.Pop` | m1_iss.h:251-256 | the in-place ring performs a pop and returns its prediction |
| `Iss.Walker.Next` | m1_iss.h:353-403 | one call returns the entry at pc and performs one step of the walk; `Assembly` states what a step does for every instruction |
| `Iss.Walker.Pop` | m1_iss.h:334-347 | a pop returns the top, or the fall-through on an empty stack, and always polls the ring |
| `IssWalk.CallReturnMatching` | m1_iss.h:313-441 | in any walk, also while the image changes: a return that matches a call by balance continues behind the call, with the stack as it was |
| `IssWalk.EvenAddresses` | m1_iss.h:131-200 | from an even start every emitted pc and every stacked address is even |
| `IssWalk.DecodeProper` | m1_iss.h:353-441 | for every image and pc: no instruction both pushes and pops, each falls through to the next in memory, the sentinel leads to itself |
| `IssWalk.PredictorIndependence` | m1_iss.h:313-403 | two walks whose starts differ only in the predictor emit the same entries forever |
| `IssWalk.SentinelForever` | m1_iss.h:353-403 | once the sentinel is emitted and stays in the image, every entry is that one, the stack is unchanged and prefix_count is the number of entries before it |
| `IssPredict.ReturnFlagExact` | m1_iss.h:334-347 | at every return of any walk, pc is the address its origin pushed, the prediction is what the last writer of its slot pushed, the flag tells whether they differ, and both are one push if and only if the depth since never exceeded the entry's position plus 4 |
| `IssPredict.ShallowReturnUnflagged` | m1_iss.h:334-347 | a return within that depth is never flagged as mispredicted |
| `IssPredict.EmptyReturnFallsThrough` | m1_iss.h:334-347 | a return on the empty stack falls through, and the flag compares that with the ring's leftover |
| `Assembly.ClassifiesTransfers` | m1_iss.h:373-403 | every assembled branch, jal and jalr is taken for what it is: its offset, a call through x1, a return through x1 |
| `Assembly.OnlyTransfersTransfer` | m1_iss.h:373-403 | every other 32-bit word falls through: a word that does not is exactly one assembled control transfer |
| `Assembly.WalksTransfer` | m1_iss.h:353-403 | a step at any assembled branch, jal or jalr in any image emits that word and goes where the instruction says: branch offset if the parity is odd, jump offset, landing pad, return address; calls push the address behind them, returns pop and compare with the ring |
| `Assembly.WalksPast` | m1_iss.h:353-403 | a step at any other 32-bit word emits it and goes on behind it, leaving stack and predictor alone |
| `Assembly.ClassifiesCompressed` | m1_iss.h:406-441 | the same for c.j, c.beqz, c.bnez, c.jr and c.jalr |
| `Assembly.OnlyCompressedTransfers` | m1_iss.h:406-441 | every other halfword falls through |
| `Assembly.WalksCompressed` | m1_iss.h:406-441 | the same as for 32-bit transfers, for c.j, c.beqz, c.bnez, c.jr and c.jalr |
| `Assembly.WalksPastCompressed` | m1_iss.h:406-441 | a step at any other halfword emits it and goes on behind it |
| `Assembly.TakenIffOddParity` | m1_iss.h:136-145 | a branch is taken if and only if an odd number of the address bits 7 to 4 are set |
| `Assembly.LandingPadAhead` | m1_iss.h:131-134 | for every pc the landing pad is 64-byte aligned, chosen by address bits 7 and 6, and at most 256 bytes ahead unless it wraps around |
| `TestBench.WriteOut` | testbench/TestBench.cpp:294-308 | the loop ends and outputs exactly the bytes at [arg1, arg1+arg2) in order, for any alignment |
| `TestBench.CopyBlob` | testbench/TestBench.cpp:169-183 | the blob lies in order from the start of the page of dtb_addr on, around the end of the address space if need be, and nothing else changes |
| `TestBench.BlobInPlaceIffAligned` | testbench/TestBench.cpp:169-183 | every blob ends up at dtb_addr if and only if dtb_addr is page aligned |
| `Argv.PassElfArgs` | testbench/TestBench.cpp:398-454 | for any address: the block has argc, argv, one pointer per string, a null pointer and the terminated strings, of the program's base name followed by the arguments, and nothing outside it changes; at an 8-aligned address, without embedded NULs, a program decodes a list from it if and only if it is that one |
| `Argv.NoOverlap` | testbench/TestBench.cpp:420-446 | no header word, pointer slot or string of the block overlaps another |
| `Argv.ArgvRoundTrip` | testbench/TestBench.cpp:398-454 | for an 8-aligned address, a program decodes a list from the block if and only if it is the list that was passed |
| `Argv.PointersRightIff` | testbench/TestBench.cpp:420-446 | for any address, every stored pointer points to its string if and only if the address is 8-aligned or the first string is empty |
| `Argv.BaseName` | testbench/TestBench.cpp:407-416 | the program name is the longest suffix without a slash |
| `Jtag.TlrReachesIdle` | RVProcTest.cpp:146-151 | `tlr` reaches Run-Test/Idle from any state, with the reset instruction selected |
| `Jtag.WriteIrShifts` | RVProcTest.cpp:157-165 | from Run-Test/Idle, `write_ir` leaves the five bits of ir in the shift register in Exit1-IR, the wash bit and the captured value shifted out |
| `Jtag.ShiftDrReads` | RVProcTest.cpp:172-186 | on a register of any width, TDO shows the captured bits in order and then the bits sent in |
| `Jtag.ShiftDrUpdates` | RVProcTest.cpp:172-186 | on a register of any width, the pending instruction takes effect, exactly one register write happens, of the bits left in the register, and the TAP ends in Run-Test/Idle |
| `Jtag.ScanRoundTrip` | RVProcTest.cpp:157-186 | a whole access selects ir, returns the captured register bit for bit, and loads din if and only if its top bit is zero |
| `Jtag.DmiDelivery` | RVProcTest.cpp:189-194 | a debug module request arrives, under instruction 10001, with its operation modulo 4, its address modulo 512 and the rest of the operation or-ed bit by bit into its data, so intact if and only if op < 4 and addr < 512 |
| `Jtag.Port.Step` | dut.cpp:66-97 | one TCK cycle in place: rising edge, falling edge, then TDO is sampled |
| `Jtag.Driver.Tlr` | RVProcTest.cpp:146-151 | the loop drives that sequence and ends in Run-Test/Idle |
| `Jtag.Driver.WriteIr` | RVProcTest.cpp:157-165 | the loop drives the bits of ir from the least significant on |
| `Jtag.Driver.ShiftDr` | RVProcTest.cpp:172-186 | the loop drives the scan sequence and returns the word of the bits TDO showed |
| `Jtag.Driver.DmiScan` | RVProcTest.cpp:189-194 | from Run-Test/Idle the captured register is returned and the request delivered |
| `Queues.FirstInFirstOut` | io/RVProc_io.h:52-80 | over every run, popped items followed by queued items are exactly the accepted ones in order, never more than the capacity queued |
| `Queues.Fifo.Push` | io/RVProc_io.h:58-65 | a push appends, or is dropped when the ring is full |
| `Queues.Fifo.Pop` | io/RVProc_io.h:66-76 | a pop returns and removes the oldest item, and changes nothing when empty |
| `Queues.FlagsAlwaysTruthful` | io/RVProc_io.h:86-105 | for every capacity, after any run that never reads it empty nor writes it full, the flags equal (count > 0) and (count == capacity) |
| `Queues.TruthfulUnlessFullExchange` | io/RVProc_io.h:94-103 | one update keeps the flags truthful if and only if it does not read and write a full buffer at once |
| `Queues.FlagsTruthfulIff` | io/RVProc_io.h:86-105 | over whole runs that may exchange on a full buffer, the flags are truthful if and only if the last update that read or wrote was not such an exchange; then only `full` is wrong |
| `Queues.IoBuf.Update` | io/RVProc_io.h:94-103 | the in-place registers perform one update |

## Left out

- Channel wires for protection, burst type, strobes, interrupts and the mutex: they do not steer the machines modelled here.
- `RV_AXI4L` (the wide-bus wrapper), its strobe switch for 512-bit data and the 64-on-32 variant.
- Device registers behind `devRead` and `devWrite`, `Mutex`, `NoDev`, `device/ttysrv`, `testbench/fdt`, `testbench/load_elf` and argument parsing.
- The memory variant without `DONT_CLEAR_BIT_31`, and unaligned or page-crossing bus accesses.
- The read and the write direction of `CTRL` run the same code on separate tables; the controller is modelled once, for either direction. The status updates and the channel connections of `connectChannel`, which do not touch each other's data, are two loops in the model.
- Starvation freedom with several requested slaves: the round-robin pointer is shared by all of them. How long a master waits is bounded only when all requests go to one slave, and the cycle bound is stated for reads.
- Bursts and several outstanding transactions through the width converter, and write data that precedes its address.
- A master has one state machine for reads and writes and does one operation at a time; in the models of the fabrics its two halves run independently, which allows more runs, not fewer.
- The device methods of the memory controller are split into the answer given and the effect on the registers.
- Register widths of the crossbar: table indices and the round-robin register are 8-bit in this build (C2Rdef.h:23, io/RVProc_io.h:743-762), so at most 256 masters and slaves can be told apart, and burst lengths are declared with 4 bits; the model's are unbounded. The theorems about the memory controller, whose counters depend on the width, are for bursts of at most sixteen beats.
- Addresses in the fabric and the controller are unbounded; the fetch model, the loops of the testbench and the debug request word wrap at 64 bits.
- Argv.ArgvRoundTrip: is stated for an 8-aligned address; for others only what the stored pointers point to is characterised, not what a program with a misaligned stack pointer makes of the header.
- Argv.PassElfArgs: asks that the block is not longer than the address space.
- TestBench.CopyBlob: asks for a blob shorter than 2^32 bytes, because its size is a 32-bit word.
- Jtag.Driver.ShiftDr: lengths above 64 are excluded, because the source shifts a 64-bit word by the bit index.
- Queues.IoBuf.Update: capacities above 256 are excluded, because the pointers are 8-bit registers; the stored data are left out.
- The depth message of the call stack, the disassembly strings and the counters that only feed printed reports.
- The debug module scripts, the polling of the debug module after a scan, and the RTL behind the JTAG pins.
