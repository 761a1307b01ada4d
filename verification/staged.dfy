/** The pipeline's stage functions composed without overlap, hazards or
    forwarding, and the proof that the composition is the reference machine. */
module Staged {
  import opened Rv32Types
  import opened Bits
  import opened Decoder
  import opened DivUnit
  import opened MulUnit
  import opened CsrFile
  import opened IfStage
  import opened Lsu
  import opened PipelineStages
  import opened FetchOrder
  import opened Isa

  /** The packet ID makes of the instruction at `pc`. */
  function StagedE(prog: Program, pc: Word, regs: Regs, irqOn: bool, mtip: bool): IdEx {
    var id := IdPacket(PacketAt(prog, pc), regs, MEM_WB_BUBBLE);
    if mtip && irqOn && !id.exc.valid then TimerPacket(pc) else id
  }

  /** The packet EX makes of it, reading CSRs from `csr`. */
  function StagedM(e: IdEx, csr: CsrArch, timing: Word): ExMem {
    ExPacket(e, e.rs1Value, e.rs2Value,
             if e.ctrl.csrCmd.CsrNone? then 0 else CsrValue(csr, CsrAddrOf(e.insn), timing), csr.mepc,
             if IsMdu(e) then MduFn(e.ctrl.mduOp, e.rs1Value, e.rs2Value) else 0)
  }

  /** The LSU's answer for the access of `m`. */
  function Answer(m: ExMem, rdata: Word, err: bool): LsuOut {
    if Misaligned(m.memSize, m.exResult) then LsuOut(true, 0, MisalignedExc(m.memCmd, m.exResult), 0, 0)
    else
      LsuOut(true, LoadResult(m.memCmd, m.exResult, m.memSize, m.loadUnsigned, rdata, err),
             AccessExc(m.memCmd, m.exResult, err),
             if m.memCmd.MemStore? then StoreStrobe(m.memSize, m.exResult) else 0,
             if m.memCmd.MemStore? then StoreLanes(m.memSize, m.exResult, m.storeData) else 0)
  }

  /** The bus request the access of `m` makes, if it makes one. */
  function RequestOf(m: ExMem): Option<MemReq> {
    if MemIsMemory(m) && !Misaligned(m.memSize, m.exResult) then
      Some(BusRequest(m.memCmd, m.exResult, StoreStrobe(m.memSize, m.exResult),
                      StoreLanes(m.memSize, m.exResult, m.storeData)))
    else None
  }

  function StagedW(m: ExMem, rdata: Word, err: bool): MemWb {
    if MemIsMemory(m) then MemoryPacket(m, Answer(m, rdata, err)) else PlainPacket(m)
  }

  /** What the trace port shows of a commit. */
  function TraceOf(w: MemWb): Event {
    Event(w.pc, w.insn, if WbTrap(w) then Some(w.exc) else None,
          if WbRegWrite(w) then Some((w.rd, w.wbData)) else None,
          w.memAddr, w.memWstrb, w.memWdata,
          if WbRetire(w) && w.control then Some((w.controlTaken, w.controlTarget)) else None)
  }

  /** PC of the instruction after a commit. */
  function PcAfter(w: MemWb, mtvec: Word): Word {
    if WbTrap(w) then AlignDown4(mtvec)
    else if w.controlTaken then w.controlTarget
    else Add32(w.pc, 4)
  }

  /** Trace, next state and access of a commit packet. */
  function CommitResult(a: Arch, w: MemWb, access: Option<MemReq>): IsaResult {
    IsaResult(Arch(PcAfter(w, a.csr.mtvec), RegsAfter(a.regs, w), CsrAfter(a.csr, w)), TraceOf(w), access)
  }

  function StagedResult(prog: Program, a: Arch, o: Oracle): IsaResult {
    var m := StagedM(StagedE(prog, a.pc, a.regs, IrqOn(a.csr), o.mtip), a.csr, o.timing);
    CommitResult(a, StagedW(m, o.rdata, o.err), RequestOf(m))
  }

  lemma AlignedFix(v: Word)
    requires Aligned4(v)
    ensures AlignDown4(v) == v
  {
  }

  /** An exception packet commits as a trap, whatever stage it came from. */
  lemma TrapCommit(a: Arch, e: IdEx, m: ExMem, o: Oracle)
    requires CsrWf(a.csr) && Aligned4(a.pc) && e.valid && e.exc.valid && e.ctrl == ZERO_CTRL && e.pc == a.pc
    requires m == StagedM(e, a.csr, o.timing)
    ensures CommitResult(a, StagedW(m, o.rdata, o.err), RequestOf(m)) == TakeTrap(a, e.insn, e.exc, 0, None)
  {
    var w := StagedW(m, o.rdata, o.err);
    assert w.exc == e.exc && w.pc == a.pc && w.insn == e.insn;
    CsrNextTrap(a.csr, CommitPorts(w), e.exc);
    AlignedFix(a.csr.mtvec);
    hide CsrNext, TrapEntry, Alu, CsrValue;
  }

  /** A decoded, fault-free packet with its operands read from the registers of `a`. */
  predicate Operands(e: IdEx, a: Arch, insn: Word, dec: Decoded) {
    e == IdEx(true, a.pc, insn, dec.rs1, dec.rs2, dec.rd, Source(a.regs, dec.ctrl.usesRs1, dec.rs1),
              Source(a.regs, dec.ctrl.usesRs2, dec.rs2), dec.imm, dec.ctrl, NO_EXC)
  }

  function Commit(a: Arch, m: ExMem, o: Oracle): IsaResult {
    CommitResult(a, StagedW(m, o.rdata, o.err), RequestOf(m))
  }

  lemma CsrCommit(a: Arch, e: IdEx, insn: Word, dec: Decoded, o: Oracle)
    requires CsrWf(a.csr) && Aligned4(a.pc) && CtrlOk(dec.ctrl) && !dec.ctrl.csrCmd.CsrNone?
    requires Operands(e, a, insn, dec)
    ensures Commit(a, StagedM(e, a.csr, o.timing), o) == CsrInstruction(a, insn, dec, o)
  {
    var m := StagedM(e, a.csr, o.timing);
    var w := StagedW(m, o.rdata, o.err);
    hide CsrValue, Source, Or32, AndNot32, CsrNext, TrapEntry, Retired, Alu, Implemented, Writable, CsrAddrOf;
    assert !MemIsMemory(m) && RequestOf(m) == None;
    if m.exc.valid {
      CsrNextTrap(a.csr, CommitPorts(w), m.exc);
      AlignedFix(a.csr.mtvec);
    } else {
      CsrNextRetire(a.csr, CommitPorts(w));
    }
  }

  lemma MretCommit(a: Arch, e: IdEx, insn: Word, dec: Decoded, o: Oracle)
    requires CsrWf(a.csr) && CtrlOk(dec.ctrl) && dec.ctrl.isMret && dec.ctrl.csrCmd.CsrNone?
    requires Operands(e, a, insn, dec)
    ensures Commit(a, StagedM(e, a.csr, o.timing), o) ==
            Retire(a, insn, dec, 0, Retired(TrapReturn(a.csr), None), Some((true, a.csr.mepc)))
  {
    var m := StagedM(e, a.csr, o.timing);
    var w := StagedW(m, o.rdata, o.err);
    hide Source, CsrNext, Retired, TrapReturn, Alu;
    assert !m.exc.valid && !MemIsMemory(m);
    CsrNextRetire(a.csr, CommitPorts(w));
  }

  lemma TransferCommit(a: Arch, e: IdEx, insn: Word, dec: Decoded, o: Oracle)
    requires CsrWf(a.csr) && Aligned4(a.pc) && CtrlOk(dec.ctrl) && !dec.ctrl.branchKind.BrNone? && !dec.ctrl.isMret
    requires Operands(e, a, insn, dec)
    ensures Commit(a, StagedM(e, a.csr, o.timing), o) == Transfer(a, insn, dec)
  {
    var m := StagedM(e, a.csr, o.timing);
    var w := StagedW(m, o.rdata, o.err);
    hide Source, CsrNext, Retired, TrapEntry, Alu, BranchTaken, BranchTarget;
    assert !MemIsMemory(m);
    if m.exc.valid {
      CsrNextTrap(a.csr, CommitPorts(w), m.exc);
      AlignedFix(a.csr.mtvec);
    } else {
      CsrNextRetire(a.csr, CommitPorts(w));
      assert dec.ctrl.regWrite ==> w.wbData == Add32(a.pc, 4);
    }
  }

  lemma MemoryCommit(a: Arch, e: IdEx, insn: Word, dec: Decoded, o: Oracle)
    requires CsrWf(a.csr) && Aligned4(a.pc) && CtrlOk(dec.ctrl) && IsMemory(dec.ctrl.memCmd)
    requires Operands(e, a, insn, dec)
    ensures Commit(a, StagedM(e, a.csr, o.timing), o) == MemoryAccess(a, insn, dec, o)
  {
    var m := StagedM(e, a.csr, o.timing);
    var w := StagedW(m, o.rdata, o.err);
    assert m.exResult == Add32(e.rs1Value, dec.imm) && MemIsMemory(m) && m.storeData == e.rs2Value;
    MisalignedIff(m.memSize, m.exResult);
    hide Source, CsrNext, Retired, TrapEntry, Alu, Misaligned, SizeOf, StoreStrobe, StoreLanes, BusRequest, ExtractLoad;
    if w.exc.valid {
      CsrNextTrap(a.csr, CommitPorts(w), w.exc);
      AlignedFix(a.csr.mtvec);
    } else {
      CsrNextRetire(a.csr, CommitPorts(w));
    }
  }

  lemma IntegerCommit(a: Arch, e: IdEx, insn: Word, dec: Decoded, o: Oracle)
    requires CsrWf(a.csr) && CtrlOk(dec.ctrl) && dec.ctrl.csrCmd.CsrNone? && !dec.ctrl.isMret
    requires dec.ctrl.branchKind.BrNone? && dec.ctrl.memCmd.MemNone?
    requires Operands(e, a, insn, dec)
    ensures Commit(a, StagedM(e, a.csr, o.timing), o) == Integer(a, insn, dec)
  {
    var m := StagedM(e, a.csr, o.timing);
    var w := StagedW(m, o.rdata, o.err);
    hide Source, CsrNext, Retired, Alu, MduFn;
    assert !m.exc.valid && !MemIsMemory(m) && m.wbSel.WbExResult?;
    assert IsMdu(e) <==> !dec.ctrl.mduOp.MduNone?;
    CsrNextRetire(a.csr, CommitPorts(w));
  }

  lemma ExecuteCommit(a: Arch, e: IdEx, insn: Word, dec: Decoded, o: Oracle)
    requires CsrWf(a.csr) && Aligned4(a.pc) && CtrlOk(dec.ctrl) && Operands(e, a, insn, dec)
    ensures Commit(a, StagedM(e, a.csr, o.timing), o) == Execute(a, insn, dec, o)
  {
    hide Commit, StagedM, CsrInstruction, Retire, Transfer, MemoryAccess, Integer, Operands;
    if !dec.ctrl.csrCmd.CsrNone? { CsrCommit(a, e, insn, dec, o); }
    else if dec.ctrl.isMret { MretCommit(a, e, insn, dec, o); }
    else if !dec.ctrl.branchKind.BrNone? { TransferCommit(a, e, insn, dec, o); }
    else if IsMemory(dec.ctrl.memCmd) { MemoryCommit(a, e, insn, dec, o); }
    else { IntegerCommit(a, e, insn, dec, o); }
  }

  /** Without overlap the stages compute exactly the reference machine's step. */
  lemma StagedIsIsa(prog: Program, a: Arch, o: Oracle)
    requires CsrWf(a.csr) && Aligned4(a.pc)
    ensures StagedResult(prog, a, o) == IsaStep(prog, a, o)
  {
    var e := StagedE(prog, a.pc, a.regs, IrqOn(a.csr), o.mtip);
    var m := StagedM(e, a.csr, o.timing);
    var dec := Decode(prog(a.pc).rdata);
    DecodeCtrlOk(prog(a.pc).rdata);
    if e.exc.valid {
      hide Decode, StagedM, TakeTrap, CommitResult, StagedW, RequestOf, Execute;
      TrapCommit(a, e, m, o);
    } else {
      hide Decode, StagedM, TakeTrap, CommitResult, StagedW, RequestOf, Execute, CtrlOk;
      ExecuteCommit(a, e, prog(a.pc).rdata, dec, o);
    }
  }
}
