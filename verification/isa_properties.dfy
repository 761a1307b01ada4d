/** Run-level properties of the sequential machine, which the pipeline inherits by
    refinement: alignment, exact retirement counting, interrupt round trips, CSR laws. */
module IsaProperties {
  import opened Rv32Types
  import opened Decoder
  import opened CsrFile
  import opened Lsu
  import opened FetchOrder
  import opened Isa
  import opened System
  import opened Invariant
  import opened Refinement

  // ----- which CSR a step writes

  /** The decoded instruction of a step that gets past fetch faults, decode faults and interrupts. */
  function Executed(prog: Program, a: Arch, o: Oracle): Option<Decoded> {
    var f := prog(a.pc);
    if f.err || Decode(f.rdata).illegal || f.rdata == INSN_ECALL || f.rdata == INSN_EBREAK || (o.mtip && a.csr.mie && a.csr.mtie) then None
    else Some(Decode(f.rdata))
  }

  /** The CSR address and value an instruction writes, if it writes one. */
  function UpdateOf(a: Arch, insn: Word, dec: Decoded, o: Oracle): Option<(Word, Word)> {
    var (addr, cmd) := (CsrAddrOf(insn), dec.ctrl.csrCmd);
    var writes := CommandWrites(cmd, dec.rs1);
    if !writes || AccessIllegal(cmd, writes, addr) then None
    else Some((addr, NewCsrValue(cmd, dec.rs1, Source(a.regs, dec.ctrl.usesRs1, dec.rs1), CsrValue(a.csr, addr, o.timing))))
  }

  function CsrUpdate(prog: Program, a: Arch, o: Oracle): Option<(Word, Word)> {
    var x := Executed(prog, a, o);
    if x.Some? then UpdateOf(a, prog(a.pc).rdata, x.value, o) else None
  }

  predicate MretStep(prog: Program, a: Arch, o: Oracle) {
    Executed(prog, a, o).Some? && Executed(prog, a, o).value.ctrl.isMret
  }

  predicate Traps(prog: Program, a: Arch, o: Oracle) { IsaStep(prog, a, o).ev.trap.Some? }

  /** What a step does to CSRs and PC: a trap, an MRET, or a retirement with one update. */
  predicate Kinds(a: Arch, r: IsaResult, u: Option<(Word, Word)>, mret: bool) {
    (u.Some? ==> r.ev.trap.None? && !mret) &&
    match r.ev.trap
    case Some(x) => r.next.csr == TrapEntry(a.csr, a.pc, x) && r.next.pc == a.csr.mtvec && r.next.regs == a.regs && !mret
    case None =>
      && r.next.csr == (if mret then Retired(TrapReturn(a.csr), None) else Retired(a.csr, u))
      && (mret ==> r.next.pc == a.csr.mepc && r.next.regs == a.regs)
  }

  lemma ExecuteKinds(a: Arch, insn: Word, dec: Decoded, o: Oracle)
    requires CtrlOk(dec.ctrl)
    ensures Kinds(a, Execute(a, insn, dec, o), UpdateOf(a, insn, dec, o), dec.ctrl.isMret)
    ensures Execute(a, insn, dec, o).ev.pc == a.pc
  {
    hide CsrAddrOf, CsrValue, NewCsrValue, Source, Retired, TrapEntry, TrapReturn, Alu, MduFn, BranchTaken, BranchTarget,
         Misaligned, StoreStrobe, StoreLanes, LoadResult, BusRequest, Implemented, Writable;
  }

  lemma StepKinds(prog: Program, a: Arch, o: Oracle)
    ensures Kinds(a, IsaStep(prog, a, o), CsrUpdate(prog, a, o), MretStep(prog, a, o))
    ensures IsaStep(prog, a, o).ev.pc == a.pc
  {
    hide Decode, Execute, UpdateOf, IrqOn, TrapEntry, Retired, TrapReturn, CtrlOk;
    DecodeCtrlOk(prog(a.pc).rdata);
    if Executed(prog, a, o).Some? {
      ExecuteKinds(a, prog(a.pc).rdata, Decode(prog(a.pc).rdata), o);
    }
  }

  // ----- alignment over runs

  lemma StepAligned(prog: Program, a: Arch, o: Oracle)
    requires CsrWf(a.csr) && Aligned4(a.pc)
    ensures CsrWf(IsaStep(prog, a, o).next.csr) && Aligned4(IsaStep(prog, a, o).next.pc)
  {
    hide IsaStep, CsrUpdate, MretStep, CsrWf, Aligned4;
    StepKinds(prog, a, o);
    NextPcAligned(prog, a, o);
    KindsWf(a, IsaStep(prog, a, o), CsrUpdate(prog, a, o), MretStep(prog, a, o));
  }

  lemma KindsWf(a: Arch, r: IsaResult, u: Option<(Word, Word)>, mret: bool)
    requires CsrWf(a.csr) && Aligned4(a.pc) && Kinds(a, r, u, mret)
    ensures CsrWf(r.next.csr)
  {
    hide SetLow, SetHigh, Inc64, Bit, McauseBits, McauseOf;
  }

  lemma NextPcAligned(prog: Program, a: Arch, o: Oracle)
    requires CsrWf(a.csr) && Aligned4(a.pc)
    ensures Aligned4(IsaStep(prog, a, o).next.pc)
  {
    AlignedStep(a.pc);
    hide Decode, CsrAddrOf, CsrValue, NewCsrValue, Source, Retired, TrapEntry, TrapReturn, Alu, MduFn, BranchTaken, BranchTarget,
         Misaligned, StoreStrobe, StoreLanes, LoadResult, BusRequest, Implemented, Writable, Add32;
  }

  /** Every PC of every run is four-byte aligned, and so are `mtvec` and `mepc`. */
  lemma {:induction false} RunAligned(prog: Program, a: Arch, os: seq<Oracle>)
    requires CsrWf(a.csr) && Aligned4(a.pc)
    ensures CsrWf(SeqEnd(prog, a, os).csr) && Aligned4(SeqEnd(prog, a, os).pc)
    ensures forall e :: e in SeqTrace(prog, a, os) ==> Aligned4(e.pc)
    decreases |os|
  {
    if os != [] {
      StepAligned(prog, a, os[0]);
      StepKinds(prog, a, os[0]);
      hide IsaStep, CsrWf, Aligned4, Kinds, CsrUpdate, MretStep;
      RunAligned(prog, IsaStep(prog, a, os[0]).next, os[1..]);
    }
  }

  // ----- exact retirement counting

  function Retirements(t: seq<Event>): nat {
    if t == [] then 0 else (if t[0].trap.None? then 1 else 0) + Retirements(t[1..])
  }

  /** No step of a run writes either half of `minstret`. */
  predicate CountsOnly(prog: Program, a: Arch, os: seq<Oracle>)
    decreases |os|
  {
    os == [] ||
    (var u := CsrUpdate(prog, a, os[0]);
     !(u.Some? && IsMinstret(u.value.0)) && CountsOnly(prog, IsaStep(prog, a, os[0]).next, os[1..]))
  }

  lemma CountStep(prog: Program, a: Arch, o: Oracle)
    ensures var r, u := IsaStep(prog, a, o), CsrUpdate(prog, a, o);
      r.next.csr.minstret ==
        if r.ev.trap.Some? then a.csr.minstret
        else if u.Some? && u.value.0 == CSR_MINSTRET then SetLow(a.csr.minstret, u.value.1)
        else if u.Some? && u.value.0 == CSR_MINSTRETH then SetHigh(a.csr.minstret, u.value.1)
        else Inc64(a.csr.minstret)
  {
    StepKinds(prog, a, o);
    hide IsaStep, CsrUpdate, MretStep, SetLow, SetHigh, Inc64, Bit, McauseBits, McauseOf, AlignDown4;
  }

  /** The value an explicit write installs: the write takes the place of its own retirement's count. */
  function Written(m: U64, addr: Word, v: Word): U64 { if addr == CSR_MINSTRET then SetLow(m, v) else SetHigh(m, v) }

  lemma IncMod(m: U64, n: nat)
    ensures (Inc64(m) + n) % TWO64 == (m + (1 + n)) % TWO64
  {
  }

  /** `minstret` is the exact number of retirements since the last explicit write, modulo
      2^64: traps count nothing, every retirement counts one. */
  lemma {:induction false} MinstretCounts(prog: Program, a: Arch, os: seq<Oracle>)
    requires CountsOnly(prog, a, os)
    ensures SeqEnd(prog, a, os).csr.minstret == (a.csr.minstret + Retirements(SeqTrace(prog, a, os))) % TWO64
    decreases |os|
  {
    hide IsaStep, CsrUpdate, MretStep, Inc64;
    if os != [] {
      CountStep(prog, a, os[0]);
      var next := IsaStep(prog, a, os[0]).next;
      MinstretCounts(prog, next, os[1..]);
      var t := SeqTrace(prog, a, os);
      assert t[1..] == SeqTrace(prog, next, os[1..]);
      IncMod(a.csr.minstret, Retirements(t[1..]));
    }
  }

  /** After an explicit write of either half, the counter is the value written plus the
      retirements since, modulo 2^64. */
  lemma MinstretSinceWrite(prog: Program, a: Arch, w: Oracle, os: seq<Oracle>)
    requires var u := CsrUpdate(prog, a, w); u.Some? && IsMinstret(u.value.0)
    requires CountsOnly(prog, IsaStep(prog, a, w).next, os)
    ensures var (u, next) := (CsrUpdate(prog, a, w).value, IsaStep(prog, a, w).next);
      SeqEnd(prog, next, os).csr.minstret ==
      (Written(a.csr.minstret, u.0, u.1) + Retirements(SeqTrace(prog, next, os))) % TWO64
  {
    CountStep(prog, a, w);
    StepKinds(prog, a, w);
    MinstretCounts(prog, IsaStep(prog, a, w).next, os);
    hide IsaStep, CsrUpdate, MretStep, CountsOnly, SeqEnd, SeqTrace, SetLow, SetHigh, Inc64, TrapEntry, Retired, TrapReturn;
  }

  /** The same, seen on the pipeline: over any run, whatever the memory and interrupt
      timing, the committed counter is the number of retirements on the trace port. */
  lemma PipelineMinstret(y: Sys, ins: seq<Rv32Core.CoreIn>, p: Rv32Core.Params, prog: Program)
    requires Inv(y, prog) && RunEnv(y, ins, p, prog) && NoReset(ins)
    requires CountsOnly(prog, Abs(y), Oracles(y, ins, p))
    ensures RunEnd(y, ins, p).core.csr.minstret == (y.core.csr.minstret + Retirements(Trace(y, ins, p))) % TWO64
  {
    hide Inv, RunEnv, Trace, Oracles, SeqTrace, SeqEnd, RunEnd, CountsOnly, OldestPc;
    RunRefinesIsa(y, ins, p, prog);
    MinstretCounts(prog, Abs(y), Oracles(y, ins, p));
  }

  // ----- interrupt round trip

  /** A step of an interrupt handler: no trap, no MRET, and nothing saved overwritten. */
  predicate HandlerStep(prog: Program, a: Arch, o: Oracle) {
    var u := CsrUpdate(prog, a, o);
    && !Traps(prog, a, o) && !MretStep(prog, a, o)
    && (u.Some? ==> u.value.0 != CSR_MSTATUS && u.value.0 != CSR_MEPC)
  }

  predicate Handler(prog: Program, a: Arch, os: seq<Oracle>)
    decreases |os|
  {
    os == [] || (HandlerStep(prog, a, os[0]) && Handler(prog, IsaStep(prog, a, os[0]).next, os[1..]))
  }

  lemma HandlerStepKeeps(prog: Program, a: Arch, o: Oracle)
    requires HandlerStep(prog, a, o)
    ensures var c := IsaStep(prog, a, o).next.csr; c.mie == a.csr.mie && c.mpie == a.csr.mpie && c.mepc == a.csr.mepc
  {
    StepKinds(prog, a, o);
    hide IsaStep, CsrUpdate, MretStep, SetLow, SetHigh, Inc64, Bit, McauseBits, AlignDown4;
  }

  lemma {:induction false} HandlerKeeps(prog: Program, a: Arch, os: seq<Oracle>)
    requires Handler(prog, a, os)
    ensures var c := SeqEnd(prog, a, os).csr; c.mie == a.csr.mie && c.mpie == a.csr.mpie && c.mepc == a.csr.mepc
    decreases |os|
  {
    if os != [] {
      HandlerStepKeeps(prog, a, os[0]);
      hide IsaStep, HandlerStep;
      HandlerKeeps(prog, IsaStep(prog, a, os[0]).next, os[1..]);
    }
  }

  /** With interrupts globally off, no step takes the timer interrupt, however long MTIP stays high. */
  lemma MaskedStep(prog: Program, a: Arch, o: Oracle)
    requires !a.csr.mie
    ensures var t := IsaStep(prog, a, o).ev.trap; t.Some? ==> !t.value.isInterrupt
  {
    hide Decode, CsrAddrOf, CsrValue, NewCsrValue, Source, Retired, TrapEntry, TrapReturn, Alu, MduFn, BranchTaken, BranchTarget,
         Misaligned, StoreStrobe, StoreLanes, LoadResult, BusRequest, Implemented, Writable;
  }

  /** A timer interrupt, any handler that leaves `mepc` and `mstatus` alone, and the final
      MRET: execution resumes at the interrupted instruction with interrupts enabled again. */
  lemma InterruptRoundTrip(prog: Program, a: Arch, o: Oracle, os: seq<Oracle>, last: Oracle)
    requires IsaStep(prog, a, o).ev.trap == Some(TIMER_EXC)
    requires Handler(prog, IsaStep(prog, a, o).next, os)
    requires MretStep(prog, SeqEnd(prog, IsaStep(prog, a, o).next, os), last)
    ensures var entry := IsaStep(prog, a, o).next;
      var done := IsaStep(prog, SeqEnd(prog, entry, os), last).next;
      && entry.pc == a.csr.mtvec && !entry.csr.mie && entry.regs == a.regs
      && done.pc == a.pc && done.csr.mie == a.csr.mie && done.csr.mpie
      && done.regs == SeqEnd(prog, entry, os).regs
  {
    var entry := IsaStep(prog, a, o).next;
    StepKinds(prog, a, o);
    HandlerKeeps(prog, entry, os);
    StepKinds(prog, SeqEnd(prog, entry, os), last);
    hide IsaStep, CsrUpdate, MretStep, Handler, SeqEnd, Inc64;
  }

  // ----- CSR writes

  /** Writable registers whose value does not depend on timing. */
  predicate Stored(addr: Word) {
    Writable(addr) && addr != CSR_MISA && addr != CSR_MIP && !IsMcycle(addr)
  }

  /** What is read back is a legal value: writing it again changes nothing. */
  lemma WriteReadStable(c: CsrArch, addr: Word, v: Word, timing: Word)
    requires Stored(addr)
    ensures var w := WriteField(c, addr, v);
      WriteField(w, addr, CsrValue(w, addr, timing)) == w
  {
    HalvesBack(c.minstret, v);
    EnableBits(Bit(v, MSTATUS_MIE), Bit(v, MSTATUS_MPIE));
    TimerBit(Bit(v, MIE_MTIE));
    CauseBits(v);
    AlignTwice(v);
    hide SetLow, SetHigh, Low, High, Bit, McauseBits, AlignDown4, MstatusValue, MieValue;
  }

  lemma HalvesBack(m: U64, v: Word)
    ensures Low(SetLow(m, v)) == v && High(SetHigh(m, v)) == v
    ensures SetLow(SetLow(m, v), v) == SetLow(m, v) && SetHigh(SetHigh(m, v), v) == SetHigh(m, v)
  {
  }

  lemma EnableBits(mie: bool, mpie: bool)
    ensures Bit(MstatusValue(mie, mpie), MSTATUS_MIE) == mie && Bit(MstatusValue(mie, mpie), MSTATUS_MPIE) == mpie
  {
  }

  lemma TimerBit(mtie: bool)
    ensures Bit(MieValue(mtie), MIE_MTIE) == mtie
  {
  }

  lemma CauseBits(v: Word)
    ensures McauseBits(McauseBits(v)) == McauseBits(v)
  {
  }

  lemma AlignTwice(v: Word)
    ensures AlignDown4(AlignDown4(v)) == AlignDown4(v)
  {
  }

  /** A write shows in no other register's reads, the counter's two halves apart. */
  lemma WriteFrame(c: CsrArch, addr: Word, v: Word, other: Word, timing: Word)
    requires other != addr
    ensures CsrValue(WriteField(c, addr, v), other, timing) == CsrValue(c, other, timing)
  {
    HalfFrame(c.minstret, v);
    hide SetLow, SetHigh, Low, High, Bit, McauseBits, AlignDown4, MstatusValue, MieValue;
  }

  lemma HalfFrame(m: U64, v: Word)
    ensures High(SetLow(m, v)) == High(m) && Low(SetHigh(m, v)) == Low(m)
  {
  }
}
