# BOOM-HLS core: a verified model

This project models one cycle of the out-of-order core as the C++ model steps it, and proves what its
machinery amounts to. `boom_core_step` runs ten modules over one state: counters, branch resolution,
load/store unit, frontend, decode, rename, reorder-buffer allocation, issue, execute and commit. The
main result is that all of it, with any number of uops in flight, refines a machine that executes one
instruction at a time, in every run without the three hazards the core leaves to its environment.

The core appears twice. `BoomCore` and `CoreParts` are the imperative form: objects over arrays, one
method per module, with the source's loops. Every method is proved to take the abstract state to the
value of a stage function of the old state (`Pipeline`), so each result about runs of the stage
functions is a result about the object. `History` adds to a run what only a proof looks at: every uop
allocated with its result, its fate, the memory requests by program position, the packets decoded.
The sequential machine appears in most proofs as a `Course`: the machine over time with the result of each
instruction, tied to a program only where a packet is matched with the program's word.

Where to look:

| file | content |
|---|---|
| `Types`, `Decode`, `Execute`, `Pipeline` | the value types, the decoder, the per-uop result function, the stages and the step |
| `CoreParts`, `BoomCore` | the same in place, on arrays |
| `IssueQueue`, `RobWindow`, `Frames`, `Flow`, `Residency` | the issue queue, the circular buffer as a queue, what each stage leaves alone, the structural invariant of every run |
| `RobFifo`, `MemOrder`, `Reports`, `MemoryView`, `RenameMaps`, `Fetch` | properties of every run: bounded FIFO, memory order and handshake, the report register, what loads see, register maps and free list, fetch path |
| `Reference`, `Refinement`, `HazardFree`, `DrainedRuns`, `LoadFree` | the sequential machine, the agreement stage by stage, the refinement with uops overlapping, runs that fetch only into an empty buffer, and load-free programs, which are such runs by themselves |
| `Steps`, `Traps`, `Progress`, `Throughput` | one step seen from its boundaries, exceptions in every run, the step in which the oldest uop leaves, two cycles per instruction |
| `Environment`, `Undrained`, `Operands`, `Scarcity` | a prompt environment and the concrete runs: overlap without hazards, what each hazard does, a trapped core that revives, the fewest free registers |
| `InstructionSet` | the part of RV64I the core implements, in machine operators and bytes: meaning, encoding, commit record, memory request |
| `Isa`, `Accesses`, `Instructions`, `Deviations` | computations, jumps and branches; loads and stores; every instruction word; and exactly when the core is right for the instructions it does not execute as RV64I says |
| `Memory`, `IdealMem`, `RoundTrip` | the byte memory, its in-place form, and the store/load round trip |
| `AxiMemory`, `SimpleMemory` | the burst memory of the trace runner and its conservation laws |

Terms. A run is a function from step numbers to the state before the step and its input, from reset and
without end; a result about `run(n)` is about the state after n steps of any run. A step's input says which
output streams have room and what stands at the head of each input stream, so back-pressure, latency, loss,
duplication and reordering are arbitrary unless a result says otherwise. An honest instruction memory answers only
requests written in earlier steps, with their address and the program's word; responses under other ids
may carry anything. An honest data memory answers a load with its beat of the memory after the stores
requested before it, in either data field of the message or in both, or with an exception, at any time, any number
of times. A run is orderly if no redirect is taken
with a uop still in the buffer. It is hazard-free if it is orderly, no packet finds the buffer full, none that
takes a register finds the free list short, and no uop depends on a register that an unanswered load has yet
to write; it is drained if no packet is accepted while an older uop is in the buffer. Honest drained runs are
proved hazard-free, and load-free programs drained;
`Undrained` and `Operands` show honest runs with the second or the third hazard that leave the machine's path.

`dafny verify dfyconfig.toml` checks the whole project.

## Model

| member | source | states |
|---|---|---|
| `BoomCore.BoomCoreState.constructor` | include/boom_state.hpp:148-173 | the state built in arrays is the reset state; the parts and arrays are all new and do not overlap |
| `BoomCore.BoomCoreState.Advance` | src/boom_core_step.cpp:131-149 | one step updated in place, module by module, takes the abstract state to the value of the pure step on the old state |
| `BoomCore.BoomCoreState.AdvanceAll` | src/boom_core_step.cpp:131-149 | any number of steps from reset reach the state the sequence of stage functions reaches on those inputs |
| `History.EveryInputHasRun` | src/boom_core_step.cpp:131-149 | every sequence of inputs begins a run, which passes through those states: the results about runs below are about the object |
| `BoomCore.Simulate` | src/boom_core_step.cpp:131-149 | a core built and stepped through any inputs ends in the core state a run with these inputs has reached |
| `BoomCore.BoomCoreState.BranchModule` | src/branch.cpp:7-18 | last step's result becomes a redirect exactly if it mispredicted and was a control uop |
| `BoomCore.BoomCoreState.CsrModule` | src/csr.cpp:7-9 | the cycle counter advances by one and nothing else changes |
| `BoomCore.BoomCoreState.LsuModule` | src/lsu.cpp:123-169 | response, enqueue and load issue in that order, or the clearing of the handshake on a flush |
| `BoomCore.BoomCoreState.Respond` | src/lsu.cpp:129-152 | a response with the pending id completes the entry that awaits it, writes its register unless it reports an exception, and ends the handshake |
| `BoomCore.BoomCoreState.Enqueue` | src/lsu.cpp:72-121 | the last memory result settles its entry: a store completes, a load waits with its address |
| `BoomCore.BoomCoreState.TryIssueLoad` | src/lsu.cpp:46-70 | a load is sent exactly if its address is known, it is unsent, none is pending, no older store is in the buffer and the stream has room |
| `BoomCore.BoomCoreState.IssueLoads` | src/lsu.cpp:164-168 | the loop from the head sends at most one load, the first that may go |
| `CoreParts.ReorderBuffer.HasOlderStore` | src/lsu.cpp:24-34 | the circular loop computes the search predicate that OlderStoreExact characterises |
| `BoomCore.BoomCoreState.FrontendModule` | src/frontend.cpp:8-91 | reset, redirect, flush, request, response and packet, in the source's order |
| `BoomCore.BoomCoreState.DecodeModule` | src/decode.cpp:95-223 | a valid packet is decoded unless a flush is pending |
| `BoomCore.BoomCoreState.RenameModule` | src/rename.cpp:7-48 | recovery from the committed map on a redirect, then the renaming of the decoded uop |
| `CoreParts.RegisterMaps.Recover` | src/rename.cpp:17-22 | the copy loop makes the speculative map equal to the committed one |
| `CoreParts.RegisterMaps.RenameOne` | src/rename.cpp:24-47 | sources, stale mapping and the register taken from the free list, the map updated in place |
| `CoreParts.RegisterMaps.Commit` | src/boom_core_step.cpp:111-121 | the destination becomes architectural and the register it replaces goes to the tail of the free list |
| `BoomCore.BoomCoreState.RobAllocate` | src/boom_core_step.cpp:18-36 | a renamed uop is dropped if the buffer is full and otherwise becomes a fresh busy entry at the tail, knowing its slot |
| `CoreParts.IssueUnit.Grant` | src/issue.cpp:30-38 | the loop grants the first ready slot and no other |
| `CoreParts.IssueUnit.Gather` | src/issue.cpp:40-46 | the temporary array holds the surviving slots in order, then empty ones |
| `CoreParts.IssueUnit.Collapse` | src/issue.cpp:40-48 | the queue is the surviving slots in order, with count and tail to match |
| `BoomCore.BoomCoreState.IssueModule` | src/issue.cpp:7-49 | dispatch, select and collapse, or the emptying of the queue on a flush |
| `BoomCore.BoomCoreState.ExecuteModule` | src/execute.cpp:10-79 | the issued uop's result on its source registers, written back unless it is a load |
| `BoomCore.BoomCoreState.CompleteResult` | src/boom_core_step.cpp:49-57 | a result that touches no memory ends its entry's wait and passes on its exception |
| `BoomCore.BoomCoreState.RetireCall` | src/boom_core_step.cpp:63-68 | ECALL leaves the buffer and reports success exactly if a0 is zero |
| `BoomCore.BoomCoreState.Send` | src/boom_core_step.cpp:72-95 | the head store's request carries its address, data, size and mask under the next id |
| `BoomCore.BoomCoreState.Retire` | src/boom_core_step.cpp:96-124 | one commit: record, counter, architectural map, free list, trace and head |
| `BoomCore.BoomCoreState.RobCommitModule` | src/boom_core_step.cpp:38-127 | flush on a redirect, otherwise completion and what the head calls for |
| `CoreParts.ReorderBuffer.Flush` | src/boom_core_step.cpp:42-47 | the loop invalidates every entry and resets the pointers |
| `Decode.DecodeInst` | src/decode.cpp:95-223 | whatever the word: opcode 0 is never produced, only the two implemented queues are used, memory and control flags agree with the opcode, and only ECALL and illegal words raise an exception |
| `IssueQueue.IssuesOldestReady` | src/issue.cpp:18-48 | for any packed queue and readiness pattern: the issued uop is the first ready one of queue ++ dispatched, and the new queue is that sequence without it; a full queue is unaffected by dispatch |
| `IssueQueue.IssuesDispatched` | src/issue.cpp:18-48 | from an empty queue the dispatched uop issues at once and the queue is empty again |
| `Residency.UopsFlowThrough` | src/issue.cpp:18-48 | in every run the issue queue is empty at every step boundary and the uop allocated in a step is the one issued and executed in it |
| `Residency.RunIsSound` | src/boom_core_step.cpp:18-127 | in every run the buffer holds the youngest uops allocated, in order, each entry in one of the few states its uop can be in |
| `Residency.HeadActs` | src/boom_core_step.cpp:59-95 | what commit does at the head depends on the oldest uop, its answer and the room for a store, and on nothing else: a memory access just executed waits |
| `Steps.OldestActs` | src/boom_core_step.cpp:131-149 | in a step without a redirect the oldest uop reaches commit as the load/store unit left it, whatever the step executes behind it |
| `RobWindow.PushWindow` | src/boom_core_step.cpp:26-34 | allocation appends to the head-to-tail window and keeps validity exact on it |
| `RobWindow.PopWindow` | src/boom_core_step.cpp:124-124 | retirement removes the first element of the window |
| `RobFifo.RobIsBoundedFifo` | src/boom_core_step.cpp:22-124 | in every run: valid entries are exactly the window, at most 32; allocated = committed + retired ECALLs + flushed + resident; instret = number of commits; the records list the committed uops in allocation order with their own address, data and mask |
| `RobFifo.BufferIsQueue` | src/boom_core_step.cpp:22-124 | in every run a redirect step empties the buffer and retires nothing; any other step puts the uop it executed at the back and takes at most the front one out, which counts as retired unless it is an ECALL |
| `RobFifo.TraceIsComplete` | src/boom_core_step.cpp:122-122 | as long as the trace stream has room it is the list of commits |
| `MemOrder.OlderStoreExact` | src/lsu.cpp:24-34 | the search is true exactly when a program-older store is in the window |
| `MemOrder.MemoryIsLinearised` | src/boom_core_step.cpp:72-95 | in every run requests leave in program order, at most one per uop, carrying what it computed at execute and the uop's buffer slot; a store request belongs to a committed uop, and every committed memory uop has one |
| `MemOrder.ResponsesReachTheirRequester` | src/lsu.cpp:129-152 | in every run, under any responses: a register is written only for the still-resident load its id was issued for, and with the beat the message carries, in whichever field; an answer to a flushed load changes neither registers nor buffer, even if its slot is reused |
| `MemOrder.AtMostOneOutstanding` | src/lsu.cpp:46-70 | in every run at most one load is sent and unanswered, and it is the one the unit remembers |
| `Reports.LastStoreIsReported` | src/boom_core_step.cpp:93-93 | in every run the register that reports to the host holds the datum of the last store requested |
| `MemoryView.LoadsSeeOlderStores` | src/lsu.cpp:46-70 | in every run, with no hypothesis on fetching: the memory before any request in the stream is the memory after exactly the committed stores older than its uop |
| `RenameMaps.RenamingIsSound` | src/rename.cpp:17-43 | at every boundary of a safe run: speculative map = committed map overlaid with in-flight destinations, stale registers are the mappings just before, both maps injective, tail = head + count - 1 modulo 52, and free, committed, in-flight and discarded registers are 1 to 50, each once |
| `RenameMaps.CommittedMapIsHistory` | src/boom_core_step.cpp:111-112 | in every run, whatever was dropped, flushed or discarded, the committed map is what the committed uops alone make of an empty one, in program order |
| `Fetch.RenamingStaysSound` | include/boom_state.hpp:44-51 | the same whenever, with an honest instruction memory, every packet that takes a register finds a free buffer entry and two free slots |
| `Fetch.RenamingNeedsRoom` | src/rename.cpp:35-43 | that is necessary: in such a run what a step leaves after renaming a uop that takes a register is sound if and only if the packet found both |
| `Fetch.RedirectRecovers` | src/rename.cpp:17-22 | in every run a redirect step ends with the buffer empty, and with an honest instruction memory with the speculative map equal to the committed one |
| `Fetch.NoWrongPathPacket` | src/frontend.cpp:24-88 | under any latency and any stale responses, packets start at 0x10040 and each is the program's word at the successor of the previous one, always a multiple of four |
| `Fetch.PacketAnswersNewest` | src/frontend.cpp:53-77 | an accepted response answers the newest request, made in an earlier step |
| `HazardFree.HazardFreeRefinesMachine` | src/boom_core_step.cpp:131-149 | in every honest hazard-free run, any number of uops in flight, any latency, faults included: the commit records are the sequential machine's after as many instructions as have left the buffer; registers and memory agree; each uop in flight behind nothing stopped is the machine's instruction at its place, and the next fetch address is the machine's after them |
| `HazardFree.IgnoredSources` | src/execute.cpp:21-79 | which operands cannot matter: JAL, LUI, AUIPC, ECALL, illegal words, SRLW and SRLIW depend on neither source; loads, JALR, immediate operations other than SLTIU, and ADDW, SLLW and SRAW not on the second |
| `Refinement.SourceValue` | src/rename.cpp:28-29 | a source read through the speculative map is the machine's register after all uops in flight, unless an unanswered load has yet to write it |
| `DrainedRuns.PipelineRefinesMachine` | src/boom_core_step.cpp:131-149 | every honest drained run is hazard-free, with at most one uop in flight, so it refines the sequential machine with no further hypothesis |
| `Refinement.AnswerIsLoaded` | src/lsu.cpp:138-146 | what an honest FIFO memory answers to any load in flight is the load's value in the memory after all requests so far |
| `DrainedRuns.DrainedRegisters` | include/boom_state.hpp:44-51 | drained runs discard no register and keep at least 19 slots counted free; fewer than 20 if and only if all 31 registers are mapped and the uop in flight has taken one more |
| `LoadFree.LoadFreeRefines` | src/boom_core_step.cpp:18-149 | a program without loads and reserved stores drains the pipeline by itself under any instruction latency, refines the machine, and sends only stores |
| `LoadFree.LoadFreeRegisters` | include/boom_state.hpp:44-51 | such a program discards no register, and at least 20 slots are counted at every boundary unless the head has trapped |
| `Scarcity.NineteenIsReached` | src/decode.cpp:216-216 | a load-free program that reaches 19 after 64 steps with prompt fetches: each register written once, then an illegal word that takes a register |
| `Traps.TrapEndsOnRedirect` | src/boom_core_step.cpp:42-70 | in every run a core in the exception state leaves it in the next step if and only if the uop executed in the last step redirects |
| `Traps.TrapIsForGood` | src/frontend.cpp:33-37 | in every run, if it does not, no continuation whatever allocates, commits or retires anything, or leaves the exception state |
| `Traps.NothingAfterTrap` | src/boom_core_step.cpp:61-70 | in honest drained runs it never does: after a trap nothing commits or retires, and nothing is sent, ever again |
| `Undrained.TrappedCoreRevives` | src/boom_core_step.cpp:42-47 | a run with honest memories in which it does: the head traps, a jump executed in the same step discards it, and another instruction commits |
| `Undrained.FaultingRun` | tb/differential/hls_prefix_trace_tb.cpp:204-213 | that run exists: fetches answered in the next step and, in the fourth step, an exception for the load |
| `Progress.StoreCommitsWithRoom` | src/boom_core_step.cpp:73-95 | orderly runs, with anything behind it in flight: the oldest uop, if it is a store, has committed if and only if some step since had room for its request |
| `Progress.LoadCommitsWhenAnswered` | src/lsu.cpp:46-152 | orderly runs, with anything behind it in flight: the oldest uop, if it is an unanswered load, is sent in the first step with room unless it has been, and leaves in the first later step that answers its id; if the answer is an exception the core traps in that step for good |
| `Progress.OthersActAtOnce` | src/boom_core_step.cpp:49-70 | every run: a uop that touches no memory leaves in the first step that finds it oldest, or traps in it if it is an illegal word, unless that step takes a redirect |
| `Progress.EcallReports` | src/boom_core_step.cpp:63-70 | every run: the step that retires an ECALL reports success exactly if a0 in the speculative map is zero, a trap otherwise; in honest hazard-free runs, with nothing in flight stopped and no unanswered load to write a0, that is the machine's a0 after everything in flight; with nothing behind the ECALL both conditions hold |
| `Progress.HazardFreeIsOrderly` | src/boom_core_step.cpp:42-47 | hazard-free runs are orderly, and honest drained ones are |
| `Undrained.DrainingIsNeeded` | src/boom_core_step.cpp:42-47 | the redirect hazard: a concrete run with honest memories in which a jump behind an unanswered load discards it, and the commit records are those of no run of the machine |
| `Undrained.OverlapIsCovered` | src/lsu.cpp:46-70 | its first four steps are hazard-free and not drained, with the load and the jump in flight together |
| `Environment.PromptRun` | tb/differential/hls_prefix_trace_tb.cpp:204-213 | the run of any program with every fetch answered in the next step, as the driver does, and no load answered: the concrete results are about it |
| `Operands.OperandsMatter` | src/rename.cpp:32-33 | the operand hazard: a concrete honest run in which only the last step has a hazard, its uop reads the destination of an unanswered load, and unless that load reads zero its result is not the machine's |
| `Throughput.TwoCyclesPerInstruction` | src/frontend.cpp:48-88 | with every fetch answered in the next step and a program that only computes, branches and jumps: cycle = steps and instret = half of them, for every number of steps |
| `Instructions.InstructionExecutes` | src/execute.cpp:32-67 | for all operands, immediates and memories: the machine's step on an encoded computation, jump, branch, load or store has the architectural effect on registers, pc and every byte of memory, and reports it in its record, if and only if a taken transfer's target is a multiple of four and a load takes only zeros from beyond its aligned doubleword; in any case it commits and goes to the word its target lies in |
| `Instructions.MachineFollowsMeaning` | src/decode.cpp:121-199 | the sequential machine after one more instruction is the instruction's meaning, with its report appended |
| `Instructions.AccessRequested` | src/execute.cpp:60-67 | an encoded load or store asks for the access at its base register plus its offset, of 1, 2, 4 or 8 bytes with a mask bit each, sign- or zero-extended, with its datum |
| `Instructions.OtherWordsExecute` | src/decode.cpp:200-216 | the machine stops at exactly the illegal words and passes exactly the ECALLs; fences and privileged instructions only go on, and a CSR instruction writes zero |
| `Instructions.DecodedFlags` | src/decode.cpp:121-216 | loads, stores and fences go to the memory queue and everything else to the other; the load, store, branch and jump flags are those of the opcode field |
| `Instructions.OtherFunct7` | src/decode.cpp:183-199 | function codes that RV64I leaves undefined act like code zero in register operations |
| `Instructions.OtherShiftRight` | src/decode.cpp:173-181 | any nonzero upper part of a right shift's immediate makes it arithmetic |
| `Accesses.LoadTakes` | src/lsu.cpp:16-22 | a load at any address takes the bytes from there on that lie in the same aligned doubleword, extended |
| `Accesses.LoadExact` | src/lsu.cpp:16-22 | that is what the instruction set asks if and only if the remaining bytes are zero |
| `Accesses.StoreWrites` | tb/differential/hls_prefix_trace_tb.cpp:110-115 | after a store every byte in its range and not below the base is the datum's, and every other byte is as before |
| `Isa.Sra64Is` | src/execute.cpp:42-42 | the arithmetic shift is the one-place sign-keeping shift repeated |
| `Isa.SraLow` | src/execute.cpp:48-48 | the 32-bit arithmetic shift is the 64-bit one of the sign-extended word |
| `Isa.AddLow` | src/execute.cpp:45-46 | 32-bit sums and differences are the low words of the 64-bit ones |
| `Deviations.ShiftRightImmediate` | src/decode.cpp:166-175 | SRLI is right if and only if the amount is below 32, the operand is not negative, or x0 is the destination |
| `Deviations.UpperImmediate` | src/execute.cpp:58-59 | LUI and AUIPC are right if and only if bit 31 of the immediate is clear or x0 is the destination |
| `Deviations.AddWord` | src/execute.cpp:45-45 | ADDW is right if and only if the second operand's low word is zero or x0 is the destination |
| `Deviations.ShiftLeftWord` | src/execute.cpp:47-47 | SLLW is right if and only if the amount or the low word shifted is zero, or x0 is the destination |
| `Deviations.ShiftRightSignedWord` | src/execute.cpp:48-48 | SRAW is right if and only if the amount is zero, or the low word is all zeros or all ones, or x0 is the destination |
| `Deviations.ShiftRightWordRegister` | src/execute.cpp:69-69 | SRLW, for which there is no case, is right if and only if the whole low word is shifted out or x0 is the destination |
| `Deviations.ShiftRightWordImmediate` | src/execute.cpp:69-69 | SRLIW is right if and only if the whole low word is shifted out or x0 is the destination |
| `Deviations.Multiply` | src/execute.cpp:49-49 | MUL writes the product of the operands truncated to signed words; it is right if and only if the cross terms with what is dropped cancel modulo 2^32, or x0 is the destination |
| `Deviations.CompareUnsignedImmediate` | src/execute.cpp:39-39 | SLTIU is right if and only if its operand does not lie between the immediate and the register the immediate's low bits name, or x0 is the destination |
| `RoundTrip.LoadAfterStore` | src/lsu.cpp:8-22 | loading after a write of the same width gives the stored low bytes, sign- or zero-extended, for every address at or above the base, datum and width within a beat |
| `RoundTrip.LoadReadsBytes` | src/lsu.cpp:16-22 | a load within a beat returns the bytes at its own address, extended |
| `RoundTrip.SignExtendIsTwosComplement` | src/lsu.cpp:10-14 | two's-complement extension at every width from 1 to 64 |
| `Memory.ImageLayout` | tb/differential/hls_prefix_trace_tb.cpp:87-92 | the image's k-th byte is at base + k; past its end, and below the base, every byte is zero |
| `Memory.OtherBytesUnchanged` | tb/differential/hls_prefix_trace_tb.cpp:103-115 | a write changes no byte outside its range, wherever it lies |
| `Memory.InsideWritten` | tb/differential/hls_prefix_trace_tb.cpp:110-115 | within its range at or above the base, byte k of the range is byte k of the datum |
| `IdealMem.ByteVector.LoadByte` | tb/differential/hls_prefix_trace_tb.cpp:87-92 | zero below the base and past the end, else the byte |
| `IdealMem.ByteVector.LoadBeat` | tb/differential/hls_prefix_trace_tb.cpp:94-101 | the accumulating loop gives the aligned little-endian beat |
| `IdealMem.ByteVector.StoreByte` | tb/differential/hls_prefix_trace_tb.cpp:103-108 | the vector grows as needed and one byte changes; nothing below the base |
| `IdealMem.ByteVector.Store` | tb/differential/hls_prefix_trace_tb.cpp:110-115 | the loop writes the datum's bytes, 1, 2, 4 or 8 of them |
| `AxiMemory.WritesAreConserved` | reference/verilator_trace/standalone_boom_trace.cpp:180-228 | over any ticks: accepted write addresses = responses enqueued + the one in flight, with ids in order; data beats taken, then those to come, are the beats announced, each at its address and of its width of 1, 2, 4 or 8 bytes; responses enqueued = taken + waiting |
| `AxiMemory.ReadsHoldLatestBytes` | reference/verilator_trace/standalone_boom_trace.cpp:200-205 | each accepted read enqueues exactly len + 1 beats in FIFO order with its id, last only on the final one, every byte of its bus word in the lane of its place, the latest strobed one at acceptance |
| `AxiMemory.BytesAreLatest` | reference/verilator_trace/standalone_boom_trace.cpp:275-282 | the byte at an address is the one the youngest enabled lane wrote there |
| `AxiMemory.ReadLane` | reference/verilator_trace/standalone_boom_trace.cpp:243-251 | lane i of a read beat is the byte at the one address x of its bus word with x % word == i, the one kept or zero |
| `AxiMemory.ReadAfterStore` | reference/verilator_trace/standalone_boom_trace.cpp:275-282 | at byte addresses: a store beat puts lane x % word of its datum at each strobed address x of its range, a later read returns it there, and every other byte reads as before |
| `AxiMemory.WatchRecords` | reference/verilator_trace/standalone_boom_trace.cpp:263-273 | the watched doubleword is recorded byte by byte exactly when a beat in its bus word leaves it nonzero |
| `SimpleMemory.SimpleMemory.constructor` | reference/verilator_trace/standalone_boom_trace.cpp:116-122 | a memory just built has no traffic |
| `SimpleMemory.SimpleMemory.ReadWord` | reference/verilator_trace/standalone_boom_trace.cpp:243-251 | the loop joins the first lanes of the bus word, at most eight |
| `SimpleMemory.SimpleMemory.ReadDouble` | reference/verilator_trace/standalone_boom_trace.cpp:253-261 | the loop joins eight bytes |
| `SimpleMemory.SimpleMemory.UpdateTohost` | reference/verilator_trace/standalone_boom_trace.cpp:263-273 | a write over the watched word records its value unless it is zero |
| `SimpleMemory.SimpleMemory.WriteWord` | reference/verilator_trace/standalone_boom_trace.cpp:275-282 | the loop writes exactly the enabled lanes: each strobed byte address of the beat then holds its byte of the datum |
| `SimpleMemory.SimpleMemory.PushBurst` | reference/verilator_trace/standalone_boom_trace.cpp:200-205 | the loop enqueues the burst behind what is waiting |
| `SimpleMemory.SimpleMemory.Step` | reference/verilator_trace/standalone_boom_trace.cpp:180-228 | one tick in place is the tick function that the conservation laws are proved about |

## Left out

- Runs with hazards: outside hazard-free runs only ordering, handshake, buffer, committed-map, trap and fetch-path properties are proved, because the core keeps no source readiness, drops a packet that finds the buffer full, and discards older uops on a redirect.
- HazardFree.HazardFreeRefinesMachine: a fault reported by the data memory does not stop the sequential machine, and an illegal instruction stops it only when counted; nothing is claimed of the results of uops behind either, which never commit while it is in the buffer.
- Progress.EcallReports: with younger uops in flight the flags are those of a later a0, because the core reads it through the speculative map; while an unanswered load has yet to write a0, or behind a stopped uop, no machine value is compared with it.
- Progress.StoreCommitsWithRoom: like the other results of Progress, is about the oldest uop in flight; when a younger one becomes the oldest follows by applying them to those before it.
- Fetch.RenamingNeedsRoom: is about the state after renaming; a commit in the same step can put back a register that makes up for one handed out twice.
- LoadFree.LoadFreeRefines: asks that the data request stream has room for every store; with back-pressure a store can still be waiting when the next packet arrives, and a redirect then discards it.
- RoundTrip.LoadAfterStore: the sizes are those the decoder emits, 0 to 3, and the access stays within its 8-byte beat; Accesses.LoadTakes says what an access across beats reads.
- Instructions.InstructionExecutes: SRLI by 32 or more, SLTIU, LUI, AUIPC, MUL and the word instructions of Deviations are not among its instructions, because the core executes them differently; their exact conditions are there.
- Reserved-width loads and stores: their entry never stops being busy, so such a program makes no progress past them; the refinement covers these runs, load-free programs exclude them.
- CSR instructions: the core writes zero to their destination and changes no CSR; that is what is proved, and nothing is compared with the instruction set.
- Fetch and transaction ids are unbounded naturals; the 32-bit counters of the source wrap after 2^32 requests.
- The busy table, branch snapshots, load and store queue arrays, exception causes, privilege and CSR contents other than cycle and instret are written but never read by the step, and are not modelled.
- Floating-point maps and registers, caches, translation and prediction are declared but take no part in the step.
- Array reads by an index taken from data (a physical register, a logical register, a slot) are guarded in the model; out of range a read gives the default and a write does nothing, where the source would read outside the array.
- The streams' own capacity of 1024: each step is told whether a write finds room.
- The AXI memory's hex loader, its warning on a missing last, and a read length of 2^32 - 1, on which the source's loop does not end.
- SimpleMemory.SimpleMemory.WriteWord: the lanes of a beat are those from the address's offset for the beat's width; the source's shift is undefined for an offset of 64 or more, on buses wider than that.
- src/boom_all.cpp, src/boom_core_merged.cpp, src/boom_core_top.cpp, src/rob.cpp, src/commit.cpp, directives, reports, comparators and test drivers: older copies, stubs or file handling.
