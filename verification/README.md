# RV32IM core and SoC: a verified model

This project models the five-stage RV32IM core of this repository, its two blocking
protocol units, its multiplier and divider, and the memory side of the SoC (TCM,
data demultiplexer, machine timer with its two driver routines, UART), and proves
what the design is for.

One clock edge is one step. Each unit that the RTL updates edge by edge is a class
whose fields are the registers and whose `Tick` is proved equal to a pure next-state
function; the properties are proved about those functions. Units that are only
combinational (hazards, forwarding, decode, execute) are functions.

The main results, in order of difficulty:

1. **Refinement.** For every program, every memory latency, backpressure, MTIP pattern
   and trap timing, the MEM/WB commit stream is the run of a machine that executes one
   instruction, or takes one trap, at a time (`Refinement.RunRefinesIsa`), and the data
   requests the memory accepts are that machine's accesses, once each, in order, none
   from a wrong path (`Refinement.RequestsAreProgramOrder`). The invariant behind both is
   `Invariant.Inv`, fourteen conjuncts over all pipeline registers and both ports.
2. **The SoC keeps its part.** The TCM and demultiplexer satisfy every assumption that
   result makes about memory (`Soc.SocKeepsPromises`), so the SoC refines a sequential
   machine that owns its memory: each load sees the stores before it in program order
   (`SocMemory.SocRefinesMemoryMachine`, from any reset `SocMemory.BootRefines`), and at
   the level of bytes that memory is little-endian (`SocMemory.LoadStoreIsByteAccess`).
3. **Bounded progress.** If no wait on a port exceeds `n` cycles, every window longer
   than a bound in `n` alone contains a retirement or trap (`Progress.BoundedProgress`,
   and for the SoC `SocProgress.SocProgresses`).
4. **Arithmetic and protocols.** Divider and multiplier are the ISA functions; fetch
   delivers consecutive PCs; requests are stable; reset drains old answers.
5. **SoC devices.** Byte memory, exactly-once answers, race-free 64-bit timer access,
   serial round trip for every clock ratio of at least four.

The reference machine (`isa.dfy`) shares the decoder, ALU, branch and CSR tables with
the pipeline; the proof is about order, ownership and timing, not about encodings.

Reading order: `rv32_types`, `bits`, `decoder`, `csr_file`, `div_unit`, `mul_unit`, `if_stage`,
`lsu`, `pipeline_stages`, `rv32_core`, `core_top`; then `isa`, `staged`, `system`,
`invariant`; the step proofs `operands`, `lsu_link`, `drain_chain`, `packets`,
`ex_step`; then `refinement`, `progress`, `properties`, `reachable`, `isa_properties`, `csr_laws`; and the SoC:
`tcm`, `mem_demux`, `soc`, `soc_memory`, `soc_progress`, `mtimer`, `timer_software`,
`uart`. Proofs use `hide` to keep definitions they do not need out of the solver's sight.

Assumptions on the environment, all stated as `requires`:

- A memory answers each accepted request once, in order, and never without one
  (`System.Env`); for the SoC this is proved, not assumed.
- Instruction words come from a fixed program: no store replaces code that is then
  fetched (`FetchOrder.FetchEnv`, `Soc.CodeIntact`; for the SoC `SocMemory.BootRunsMemory`
  asks only that accepted stores miss code); Zifencei is out of the core's scope.
- Nothing is accepted on the data port while reset is high (`System.Env`). The
  demultiplexer guarantees it; `Properties.ResetNeedsQuietPort` says exactly when the LSU
  needs it, and `Properties.ResetAcceptanceLosesTrack` gives the run that shows it does.
- `RESET_VECTOR` is word aligned, and so is the TCM base, with the array inside the address
  space (`Soc.TcmFits`).
- The three peripheral apertures are disjoint where an address's owner is named
  (`MemDemux.Disjoint`); the source refuses to elaborate otherwise.
- Reads of `mcycle[h]` and `mip` return values the sequential machine is told, because
  they depend on timing; so does the cycle at which MTIP is sampled.

Words are integers in `[0, 2^32)`; every wrap-around is a written-out remainder, and the
bitwise operations are defined bit by bit. `mstatus` and `mie` are held as their writable bits, since every update path
of the source forces the other bits to constants.

## Model

| member | source | states |
|---|---|---|
| Reachability.CoreRefinesIsa | rtl/core/rv32_core.sv:146-257 | From every reachable state (power-on, reset, any run), every reset-free run shows on the trace port exactly the events of a sequential run, ends in its PC, registers and CSRs, and its accepted data requests are that run's accesses, in order and once each |
| Reachability.CoreProgresses | rtl/core/pipeline_ctrl.sv:65-219 | From every reachable state something retires or traps within a bound that depends only on how long the memories make a port wait |
| Reachability.ReachableStates | rtl/core/pipeline_ctrl.sv:141-203 | In every reachable state: exactly one offender while draining and none otherwise, with an empty IF/ID behind it; aligned fetch, commit, mtvec and mepc; a busy unit has its packet; an interrupt traps only while enabled |
| Refinement.RunRefinesIsa | rtl/core/rv32_core.sv:146-257 | For every run without reset, whatever the memory and interrupt timing, the trace port shows exactly the events of a sequential run from the abstract state, one event per instruction or trap, and ends in that run's PC, registers and CSRs |
| Refinement.RequestsAreProgramOrder | rtl/core/rv32_core.sv:440-526 | The data requests accepted over a run, after those already in flight, are the sequential run's accesses in program order and once each, followed by those still in flight: stores are never speculative, lost, repeated or reordered |
| SocMemory.SocRefinesMemoryMachine | rtl/soc/soc_tcm_top.sv:95-191 | With TCM, demultiplexer and core wired together, the retirement trace is that of a sequential machine reading and writing its own memory; only peripheral answers and timing are told to it; the TCM array stays that memory plus the accesses in flight |
| SocMemory.BootRefines | rtl/soc/soc_tcm_top.sv:95-191 | The same from any reset, at any moment: execution starts at the reset vector on the memory the reset found, and with nothing in flight the array equals the sequential machine's memory |
| SocMemory.BootRunsMemory | rtl/soc/soc_tcm_top.sv:95-191 | From any reset, as long as no store is to code, the program the SoC runs is the little-endian words the TCM's bytes held at the reset, each at its own address |
| SocMemory.SeparateStep | rtl/soc/rv32_tcm.sv:72-100 | A store outside code leaves every instruction's bytes, so the next fetch is again the program's word |
| Soc.FetchesBytes | rtl/soc/rv32_tcm.sv:57-70 | After each cycle the instruction port holds the little-endian word of the TCM's bytes at the address fetched in it, an access fault where there is none, or nothing when nothing was fetched |
| Tcm.FetchIsLittleEndian | rtl/soc/rv32_tcm.sv:40-70 | A fetch is answered with the four bytes at its address, least significant first, and with an error if and only if the address is misaligned or its word is not wholly in the memory |
| Tcm.WriteMissesCode | rtl/soc/rv32_tcm.sv:72-100 | A write to another word leaves an instruction's bytes as they were |
| SocMemory.LoadStoreIsByteAccess | rtl/core/lsu.sv:63-206 | A load or store of the sequential machine on the TCM is an access of a little-endian byte memory: it faults with cause 4 or 6 if and only if the address is not a multiple of the access size, with 5 or 7 if and only if it is aligned and outside the memory, carrying the address; otherwise same extended value and same bytes afterwards |
| Soc.SocKeepsPromises | rtl/soc/soc_tcm_top.sv:69-191 | Every cycle of the SoC meets each assumption the core's proof makes about its two memories, and keeps the ports' bookkeeping exact |
| Progress.BoundedProgress | rtl/core/pipeline_ctrl.sv:65-219 | If neither port waits more than n cycles for acceptance or answer, every reset-free window longer than 7n + 49 cycles commits an instruction or trap, from every state of the invariant |
| Progress.ProgressStep | rtl/core/pipeline_ctrl.sv:65-219 | In a cycle without a commit the distance to the next one, over fetch, hazards, multiplier and divider steps and memory waits, strictly decreases |
| SocProgress.SocProgresses | rtl/soc/soc_tcm_top.sv:129-191 | The SoC commits in every window longer than Bound(n), where n bounds how long a peripheral keeps one request waiting; the TCM adds no wait |
| SocProgress.SocIsRun | rtl/soc/soc_tcm_top.sv:95-144 | Every reset-free run of the SoC is a run of the core under conforming, prompt memories with the same trace |
| Refinement.InvStep | rtl/core/rv32_core.sv:561-608 | Every clock edge keeps the whole invariant: precise traps, program order of PCs, packet contents, operand snapshots, CSR order, interrupt state, unit ownership, port bookkeeping |
| Refinement.InvReset | rtl/core/rv32_core.sv:562-608 | One reset cycle from any state with accounted ports, requests in flight or not, establishes the invariant at the reset vector |
| Refinement.RunKeepsInv | rtl/core/rv32_core.sv:561-608 | The invariant holds after every run, with resets of any length anywhere in it |
| Refinement.PowerOnRun | rtl/core/rv32_core.sv:561-608 | From an arbitrary power-on state whose ports are accounted for, any run that begins with reset ends in the invariant |
| Refinement.CommitIsStep | rtl/core/rv32_core.sv:146-150 | A valid MEM/WB packet is one sequential step in full (trace event, next PC, registers, CSRs, bus access); a bubble changes nothing |
| Refinement.RequestsConserved | rtl/core/lsu.sv:156-206 | One edge moves data requests along without losing, repeating or reordering any |
| Staged.StagedIsIsa | rtl/core/ex_stage.sv:93-332 | ID, EX, MEM and WB composed without overlap, hazards or forwarding compute exactly the sequential machine's step, traps and interrupts included |
| Properties.PreciseTraps | rtl/core/pipeline_ctrl.sv:141-203 | `trap_drain_q` is set exactly when one exception packet is in ID/EX, EX/MEM or MEM/WB, there is never a second one, and every younger slot is a bubble |
| DrainChain.DrainStep | rtl/core/pipeline_ctrl.sv:112-218 | The same kept by each edge, including an older load or store faulting during the drain and replacing the first offender |
| DrainChain.ChainStep | rtl/core/rv32_core.sv:259-357 | Each packet is followed by its program-order successor through every stall, flush and redirect, and the oldest uncommitted PC moves only by a commit |
| Properties.InterruptBoundary | rtl/core/rv32_core.sv:300-358 | A fault-free instruction leaves ID as itself exactly when not all of MTIP, MIE and MTIE hold after the committing packet, and as the timer packet otherwise; no older writer of the enables is then in flight |
| Properties.InterruptEnabled | rtl/core/csr_file.sv:72-78 | A timer packet in flight implies MTIP was seen and both enables are set in committed state until it traps |
| CsrLaws.InterruptTakenIff | rtl/core/csr_file.sv:72-78 | The sequential machine takes the timer interrupt if and only if MTIP, MIE and MTIE are set and the instruction at the PC has no fetch, decode, ECALL or EBREAK exception |
| CsrLaws.HandlerReads | rtl/core/csr_file.sv:215-224 | After any trap mepc reads the trapped PC, mcause the code with bit 31 for an interrupt, mtval the value, mstatus the old MIE in MPIE with MIE clear; execution is at mtvec with the registers unchanged |
| CsrLaws.FrontCauses | rtl/core/id_stage.sv:97-114 | Fetch faults, illegal instructions, ECALL and EBREAK trap with causes 1, 2, 11 and 3 and their values, in that order of priority |
| CsrLaws.ExecuteCauses | rtl/core/ex_stage.sv:257-319 | An executed instruction traps if and only if its CSR access is illegal (2), its access is misaligned (4 or 6) or fails on the bus (5 or 7), or it transfers to a misaligned target (0), each with its value |
| CsrLaws.TracesInstruction | rtl/core/rv32_core.sv:240-257 | The trace shows the fetched word at its PC, or zero for a fetch fault or an interrupt |
| Packets.IssueIsStaged | rtl/core/rv32_core.sv:305-358 | What ID hands on is the decoded instruction over the post-commit registers, or the timer packet exactly when MTIP and the post-commit MIE and MTIE bits are all set |
| Operands.OperandsCorrect | rtl/core/forwarding_unit.sv:32-57 | In every reachable state the forwarded operands are the youngest older producer's value, and each ID/EX snapshot equals the register file entry |
| ExStep.FiredOperands | rtl/core/rv32_core.sv:572-588 | When a packet fires its operands are the registers after every older instruction has committed, although it was decoded earlier and may have been held |
| ExStep.FiredIsStaged | rtl/core/ex_stage.sv:257-327 | The whole EX/MEM packet that fires is the one the unpipelined stages produce in program-order registers and CSRs |
| ExStep.HeldOperands | rtl/core/rv32_core.sv:572-588 | A packet held by a memory or unit wait keeps both operand values while producers commit and leave the forwarding network |
| Operands.RefreshKeepsSnapshot | rtl/core/rv32_core.sv:579-587 | The refresh keeps a held snapshot equal to the register file across a commit |
| Operands.BypassReadsCommitted | rtl/core/id_stage.sv:60-81 | Decoding beside a committing packet equals decoding after its commit |
| Packets.SafeStep | rtl/core/hazard_unit.sv:88-128 | The interlocks keep every packet in ID/EX free of a load still in EX/MEM, of older writers of the CSR it reads or returns to, of uncounted retirements, and of pending enable writers |
| ExStep.CsrReadsProgramOrder | rtl/core/hazard_unit.sv:108-127 | A CSR instruction in EX reads, and MRET returns to, the state left by all older instructions, `mcycle` and `mip` excepted |
| CsrFile.ReadUnaffected | rtl/core/csr_file.sv:196-274 | An update changes the read of another CSR only by writing that state, by MRET for mstatus, or by counting for minstret |
| IsaProperties.PipelineMinstret | rtl/core/csr_file.sv:205-269 | Over any run, the committed minstret grows by exactly the retirements on the trace port, modulo 2^64, when nothing writes it |
| IsaProperties.MinstretSinceWrite | rtl/core/csr_file.sv:231-267 | After an explicit write of either half, minstret is the written value plus the retirements since, the write itself not counted |
| IsaProperties.MinstretCounts | rtl/core/csr_file.sv:205-213 | Over any sequential run minstret counts retirements and not traps |
| IsaProperties.InterruptRoundTrip | rtl/core/csr_file.sv:215-229 | A timer interrupt, any handler that leaves mepc and mstatus alone, and MRET resume the interrupted PC with interrupts enabled as before |
| IsaProperties.MaskedStep | rtl/core/csr_file.sv:74-78 | With MIE clear no step takes the timer interrupt |
| IsaProperties.RunAligned | rtl/core/csr_file.sv:253-259 | Every PC of every sequential run is four-byte aligned, as are mtvec and mepc |
| CsrLaws.WriteStores | rtl/core/csr_file.sv:241-273 | Every stored CSR reads back the legal part of the value written to it |
| CsrLaws.WriteStoresEach | rtl/core/csr_file.sv:241-273 | By number: mscratch, mtval and each minstret half read back the value; mtvec and mepc its word-aligned part; mie its bit 7; mstatus its bits 3 and 7 beside MPP; mcause bit 31 and the low five bits |
| CsrLaws.CsrInstructionStores | rtl/core/ex_stage.sv:205-255 | A legal CSR instruction returns the old value and leaves the operand, the old value with the operand's bits set, or with them cleared, bit for bit and legalised; a form that does not write moves only the retirement count |
| CsrLaws.WriteThenRead | rtl/core/csr_file.sv:101-273 | A CSR write followed by a read instruction of the same register delivers the legalised value |
| CsrLaws.WritesIff | rtl/core/ex_stage.sv:205-255 | CSRRW and CSRRWI always write; the set and clear forms write unless their source field is zero |
| CsrLaws.IllegalIff | rtl/core/csr_file.sv:80-194 | A CSR access is illegal if and only if the register is not one of the eighteen implemented, or it writes one whose address marks it read-only |
| CsrLaws.ResetReads | rtl/core/csr_file.sv:276-287 | After reset both enables are clear, mtvec is the aligned trap vector, mstatus has only MPP, and every other stored CSR reads zero |
| CsrLaws.FixedReads | rtl/core/csr_file.sv:106-187 | misa is RV32IM, the identity registers are zero, mip shows MTIP in bit 7, and the two halves of mcycle are the counter |
| CsrLaws.McycleCounts | rtl/core/csr_file.sv:205-235 | mcycle counts every cycle modulo 2^64 while nothing writes it |
| IsaProperties.WriteReadStable | rtl/core/csr_file.sv:241-273 | Writing back what was read changes nothing, so what a write leaves is a fixed point |
| Bits.WordBits | rtl/core/ex_stage.sv:223-246 | Each bit of a bitwise result is the combination of the operands' bits |
| IsaProperties.WriteFrame | rtl/core/csr_file.sv:241-268 | A CSR write shows in no other CSR's read |
| Properties.OnceInMemCommits | rtl/core/pipeline_ctrl.sv:152-179 | A packet in EX/MEM is never squashed: it waits there, with no commit behind it, or moves to MEM/WB |
| Properties.DataRequestStable | rtl/core/lsu.sv:152-168 | A data request belongs to the packet in EX/MEM, nothing else is outstanding, and until accepted it is offered again with the same address, direction, data and strobes |
| Properties.RedirectCarriedOut | rtl/core/ex_stage.sv:321-326 | Every accepted redirect is the selected action of its own cycle, never masked by a drain; fetch stands at its aligned target and the younger slots are empty |
| Properties.EveryPcAligned | rtl/core/if_stage.sv:183-212 | Every fetch, pipeline and saved PC is four-byte aligned in every reachable state |
| Properties.MretNeverMisaligned | rtl/core/ex_stage.sv:261-267 | MRET never raises a misaligned-target or any other new exception |
| Properties.MduOwned | rtl/core/ex_stage.sv:153-203 | A busy multiplier or divider works for the fault-free packet in ID/EX, never both at once, and its answer is the ISA function of that packet's operands |
| ExStep.MduStep | rtl/core/ex_stage.sv:153-203 | Every squash, kill, trap and hold keeps that ownership |
| Properties.ResetNeedsQuietPort | rtl/core/lsu.sv:156-158 | Across a reset edge the LSU stays in step with the port if and only if no saved, unsent request is accepted, unanswered, in that cycle |
| Properties.ResetAcceptanceLosesTrack | rtl/core/lsu.sv:222-228 | Such an acceptance is possible and leaves an answer the idle LSU does not expect |
| LsuLink.LsuStep | rtl/core/lsu.sv:208-294 | Every edge keeps the LSU's state tied to the packet in EX/MEM or to one stale answer to drop |
| LsuLink.AnswerIsOwn | rtl/core/lsu.sv:166-206 | A response handed to EX/MEM is the result of that packet's own request |
| LsuLink.RequestStable | rtl/core/lsu.sv:156-164 | An unaccepted request stays offered and unchanged; a load's zero store data makes its write lanes zero throughout |
| FetchOrder.ConsecutivePcs | rtl/core/if_stage.sv:70-262 | Between kills the packets taken are those of consecutive PCs from where fetch stands, no gap, repeat or loss, each with the word of its own PC |
| FetchOrder.AfterRedirect | rtl/core/if_stage.sv:183-190 | After a redirect they start at its target; nothing requested or buffered before is delivered |
| FetchOrder.FromReset | rtl/core/if_stage.sv:264-283 | After reset at any moment they start at the reset vector |
| FetchOrder.NothingStale | rtl/core/if_stage.sv:130-181 | Over any run and under any memory behaviour, nothing requested before a flush, redirect or reset is delivered after it |
| FetchOrder.FreshStep | rtl/core/if_stage.sv:169-283 | One edge: a buffered packet or a request not marked stale always dates from after the last kill, and so does every delivery |
| FetchOrder.FetchRequestStable | rtl/core/if_stage.sv:119-130 | An unaccepted fetch is offered again at the same address through flushes and redirects, and a second is never outstanding |
| FetchOrder.FetchStep | rtl/core/if_stage.sv:70-262 | Every edge keeps the fetch invariant: a buffered packet implies the idle state, and the saved, requested and next PCs stay in step |
| IfStage.Fetcher.Tick | rtl/core/if_stage.sv:70-296 | The ordered overriding assignments of one edge produce the next state and outputs of the case-by-case specification |
| IfStage.Fetcher.Outputs | rtl/core/if_stage.sv:83-167 | Request, address, liveness of a response and delivered packet as the specification defines them |
| Lsu.LoadStoreUnit.Tick | rtl/core/lsu.sv:208-294 | One edge of the IDLE, BUSY, RESP machine, reset drain included |
| CoreTop.Core.Tick | rtl/core/rv32_core.sv:561-608 | Registers and sub-units updated in place by reset, flush, enable, hold and refresh give the core's next state and request outputs |
| CsrFile.CsrRegisters.Tick | rtl/core/csr_file.sv:196-298 | The prioritised update of CSRs and counters, explicit counter writes suppressing the implicit count |
| CsrFile.CsrNextTrap | rtl/core/csr_file.sv:215-224 | A committing trap is trap entry of the privileged ISA, section 3.1.6.1, with nothing counted |
| CsrFile.CsrNextRetire | rtl/core/csr_file.sv:205-269 | A committing instruction counts once, returns from a trap, or writes one CSR |
| DivUnit.ExactlyThirtyTwoSteps | rtl/core/div_unit.sv:92-160 | A launched division that takes no shortcut stays in RUN for exactly 32 steps and then holds the result of section 7.2 |
| DivUnit.DivKeepsOk | rtl/core/div_unit.sv:114-165 | For all operations and operands the response is the section 7.2 result, whichever path led to it |
| DivUnit.LaunchOk | rtl/core/div_unit.sv:115-141 | Divide by zero, signed overflow and small magnitude give the section 7.2 result at once; otherwise the loop starts in its invariant |
| DivUnit.LoopStep | rtl/core/div_unit.sv:69-80 | Each restoring step keeps: read dividend bits = quotient bits times divisor plus remainder, remainder below divisor; the 32-bit subtraction after the 33-bit compare loses nothing |
| DivUnit.TruncCharacterised | rtl/core/div_unit.sv:82-83 | The reference quotient and remainder recompose the dividend, with the remainder smaller than the divisor and signed as the dividend |
| DivUnit.TruncUnique | rtl/core/div_unit.sv:82-83 | They are the only pair that does |
| DivUnit.Divider.Tick | rtl/core/div_unit.sv:92-167 | One edge of the divider's registers |
| MulUnit.ProductIsIsa | rtl/core/mul_unit.sv:42-67 | The selected half of the 33-by-33-bit product truncated to 64 bits is the section 7.1 result of all four operations |
| MulUnit.MulKeepsOk | rtl/core/mul_unit.sv:89-108 | The response is that result for the operands captured at launch |
| MulUnit.Multiplier.Tick | rtl/core/mul_unit.sv:75-115 | One edge of the multiplier's registers |
| Tcm.ByteMemory | rtl/soc/rv32_tcm.sv:72-100 | Over any sequence of byte, half-word and word accesses, aligned or not, in range or not, LSU lanes and TCM strobes give the values, faults and contents of a little-endian byte memory |
| Tcm.WordStepRefines | rtl/core/lsu.sv:108-150 | The same for one access |
| Lsu.MisalignedIff | rtl/core/lsu.sv:63-75 | An access is misaligned if and only if its address is not a multiple of its size |
| Tcm.FaultChangesNothing | rtl/core/lsu.sv:127-150 | A faulting access leaves memory unchanged |
| Tcm.Memory.Tick | rtl/soc/rv32_tcm.sv:57-100 | Both ports of the array at one edge, read before write |
| MemDemux.AnsweredExactlyOnce | rtl/soc/rv32_mem_demux.sv:124-208 | Over any run, resets included, the answers delivered are those of the slaves whose apertures the accepted requests' addresses are in, once each and in order |
| MemDemux.FabricStep | rtl/soc/rv32_mem_demux.sv:157-208 | A slave has an answer exactly when it owns the pending request, every request is answered in the next cycle by the slave whose aperture its address is in, even into reset, and nothing is accepted during reset |
| MemDemux.OverlapExact | rtl/soc/rv32_mem_demux.sv:50-79 | The elaboration-time overlap test holds if and only if some address matches both regions |
| MemDemux.OfferedToOwner | rtl/soc/rv32_mem_demux.sv:81-169 | With disjoint apertures a request is offered to the timer, UART or GPIO if and only if its address matches that aperture, and to the TCM if and only if it matches none |
| MemDemux.SelectIsOwner | rtl/soc/rv32_mem_demux.sv:81-90 | The priority decode routes an address to a slave if and only if the address belongs to it |
| MemDemux.ApertureIsRange | rtl/soc/rv32_mem_demux.sv:50-56 | An aperture that ignores the low k address bits is exactly the 2^k bytes from its base |
| MemDemux.DefaultMap | rtl/soc/rv32_mem_demux.sv:14-19 | The default apertures are disjoint and are the 64-KiB ranges at 0x02000000, 0x10000000 and 0x10010000; everything else is TCM |
| MemDemux.ReadyIff | rtl/soc/rv32_mem_demux.sv:157-160 | Outside reset the core is ready exactly when the slave its request belongs to is, also while an older request is being answered |
| MemDemux.TcmIsFallback | rtl/soc/rv32_mem_demux.sv:82-83 | The TCM gets an address if and only if no aperture claims it, disjoint or not |
| MemDemux.Demux.Tick | rtl/soc/rv32_mem_demux.sv:81-208 | One cycle of the demultiplexer, outputs and owner |
| SocMemory.MemInvStep | rtl/soc/rv32_tcm.sv:72-100 | Each cycle keeps the array equal to program-order memory plus the accesses in flight, each already given the answer of the memory in front of it |
| SocMemory.SocResets | rtl/soc/rv32_mem_demux.sv:181-187 | One reset cycle, at any moment, leaves LSU and fetch idle with nothing outstanding and the array untouched, so no old response can meet a new request |
| SocMemory.SocPowersOn | rtl/soc/soc_tcm_top.sv:69-191 | From power-on with neither port's unit waiting for an answer, one reset cycle establishes every invariant whatever the other registers hold |
| MemDemux.FabricResets | rtl/soc/rv32_mem_demux.sv:181-187 | A reset cycle accepts nothing and clears the owner and every response, from any state |
| SocMemory.AccessFirst | rtl/core/lsu.sv:152-164 | The request an instruction makes does not depend on the answer it gets |
| TimerSoftware.MtimeRead | sw/bsp/rv32_soc.c:3-16 | With the timer ticking and other traffic between accesses, a returned value is the true 64-bit time at the low read; an attempt is repeated exactly when its two high reads differ |
| TimerSoftware.TwoTriesSuffice | sw/bsp/rv32_soc.c:9-13 | Two attempts suffice when six accesses span fewer than 2^32 cycles |
| TimerSoftware.FailsOnCarry | sw/bsp/rv32_soc.c:9-13 | An attempt fails if and only if a carry into the high word falls inside it |
| TimerSoftware.SinglePassTears | sw/bsp/rv32_soc.c:10-15 | Without the check, two reads one tick apart can join to a value 2^32 too small |
| TimerSoftware.CompareNeverEarly | sw/bsp/rv32_soc.c:18-29 | During the three-write sequence, with any cycles between, MTIP is high only if the time has reached the old or the new compare value; at the end the new value is installed and MTIP is high exactly when the time has reached it |
| TimerSoftware.MtimecmpWrite | sw/bsp/rv32_soc.c:18-29 | The routine performs that sequence on the timer |
| TimerSoftware.DirectWritesAreEarly | sw/bsp/rv32_soc.c:20-23 | Writing the low half directly can raise MTIP before either value is reached |
| TimerSoftware.ReadsTime | rtl/soc/rv32_mtimer.sv:105-116 | A read of either half returns it as of acceptance and disturbs nothing |
| TimerSoftware.MtipExact | rtl/soc/rv32_mtimer.sv:44-71 | While software leaves both registers alone, MTIP is high after k cycles if and only if k ticks have brought the time to the compare value |
| TimerSoftware.TicksModulo | rtl/soc/rv32_mtimer.sv:68-71 | mtime counts its cycles modulo 2^64 |
| TimerSoftware.ReadsCompare | rtl/soc/rv32_mtimer.sv:51-65 | A read of either half of mtimecmp returns it |
| TimerSoftware.FaultsOtherwise | rtl/soc/rv32_mtimer.sv:47-66 | Any access that is not an aligned word of one of the four registers is answered with an error and changes neither |
| Mtimer.WriteKeepsOtherHalf | rtl/soc/rv32_mtimer.sv:73-91 | A write to one half of mtime or mtimecmp leaves the other half exactly as it was, the tick of that edge included |
| Mtimer.Timer.Tick | rtl/soc/rv32_mtimer.sv:68-118 | One edge of the timer's registers |
| Uart.SerialRoundTrip | rtl/soc/rv32_uart.sv:153-275 | With the output wired to the input, for every clock ratio of at least four, every byte sequence and gap, the bytes popped, held and on the wire are the bytes sent, in order, and no error flag rises, provided each byte is popped by the time the next completes |
| Uart.ReadsWhatWasWritten | rtl/soc/rv32_uart.sv:104-151 | At the bus, the words read from RXDATA are the low bytes written to TXDATA, in order |
| Uart.FrameReceived | rtl/soc/rv32_uart.sv:183-275 | On any line and with any software activity, a frame is sampled at half a bit time plus whole bit times from the falling edge; the byte is kept unless one is still held, which alone raises overrun and leaves the held byte; the framing flag rises exactly for a low stop bit; flags fall only when software clears them |
| Uart.FalseStart | rtl/soc/rv32_uart.sv:210-228 | A line high again at the middle of the start bit returns the receiver to idle with nothing received |
| Uart.DeviceReceives | rtl/soc/rv32_uart.sv:278-314 | The device's receiver is that one, fed by the two-flop synchroniser |
| Uart.WireCarries | rtl/soc/rv32_uart.sv:153-181 | The line carries a low start bit, the stored value's bits 0 to 7 in that order, and a high stop bit, one bit time each |
| Uart.RegisterBits | rtl/soc/rv32_uart.sv:104-137 | STATUS, RXDATA and TXDATA show each flag and the byte in their documented bits |
| Uart.SoftwareReaches | rtl/soc/rv32_uart.sv:100-151 | Reading RXDATA pops exactly when a byte is held, writing STATUS clears exactly the flags whose bits are set, and nothing else reaches the receiver |
| Uart.UartFaults | rtl/soc/rv32_uart.sv:100-140 | Exactly the accesses outside the register map or of the wrong shape are answered with an error |
| Uart.RxStep | rtl/soc/rv32_uart.sv:183-275 | The receiver samples each bit half a bit time into it, takes no false start, and sees a high stop bit |
| Uart.TxStep | rtl/soc/rv32_uart.sv:153-181 | The shift register holds the frame bits still to be sent, bit by bit for the age of the frame, and a byte is accepted only after the frame before it has ended |
| Uart.WidthsKept | rtl/soc/rv32_uart.sv:153-275 | Bit and baud counters stay within their registers for any input |
| Uart.TxFreesUp | rtl/soc/rv32_uart.sv:140-143 | A store held back by a busy transmitter waits at most one frame |
| Uart.Device.Tick | rtl/soc/rv32_uart.sv:278-328 | One edge of the UART's registers |

## Left out

- Decoder, immediate, ALU and branch tables are shared between pipeline and reference machine and are not proof targets themselves.
- Performance counters, the completion mailbox, GPIO registers: easy claims; GPIO appears only as a slave that answers one cycle after it accepts.
- FPGA top level, reset synchroniser, constraints, FreeRTOS, CoreMark, assembly start-up and trap code, tools and testbenches.
- X-propagation, uninitialised registers (arbitrary values here), self-modifying code, FENCE.I.
- Refinement.RunRefinesIsa: is over runs without reset; across a reset `Refinement.InvReset` and `SocMemory.BootRefines` restart it, and what was in flight is dropped as in the RTL.
- Refinement.PowerOnRun: assumes the ports' bookkeeping is accurate before the first reset cycle, since nothing in the RTL could make it so.
- Soc.TcmFits: a TCM base that is not word aligned is outside the model; the RTL does not check for one and would index the array by the offset's upper bits.
- SocMemory.SocRefinesMemoryMachine: peripheral answers and MTIP are inputs, so the timer and UART models are composed with it only through their bus behaviour.
- Uart.SerialRoundTrip: is about a loopback on one clock; the two-flop synchroniser is modelled as two registers without metastability, and clock mismatch between two devices is not modelled.
- TimerSoftware.MtimeRead: takes the cycles between accesses as an input list, so its retry loop is bounded by that list; it assumes no 64-bit wrap and no software write of mtime in between.
- The four-state behaviour of `unique case` defaults and the unreachable default branches of the state machines.
