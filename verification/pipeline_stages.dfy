/** Combinational stages of the core: id_stage.sv, hazard_unit.sv,
    forwarding_unit.sv, ex_stage.sv, and the MEM/WB construction of rv32_core.sv. */
module PipelineStages {
  import opened Rv32Types
  import opened Bits
  import opened Decoder
  import opened CsrFile
  import opened Lsu

  // ----- commit signals of MEM/WB

  predicate WbTrap(w: MemWb) { w.valid && w.exc.valid }
  predicate WbRetire(w: MemWb) { w.valid && !w.exc.valid }
  predicate WbRegWrite(w: MemWb) { WbRetire(w) && w.regWrite && w.rd != 0 }

  function CommitPorts(w: MemWb): CsrPorts {
    CsrPorts(WbRetire(w) && w.csrWrite, w.csrAddr, w.csrWdata, WbRetire(w), WbRetire(w) && w.isMret,
             WbTrap(w), w.pc, w.exc.isInterrupt, w.exc.cause, w.exc.tval)
  }

  function RegsAfter(regs: Regs, w: MemWb): Regs {
    if WbRegWrite(w) then WriteReg(regs, w.rd, w.wbData) else regs
  }

  function CsrAfter(c: CsrArch, w: MemWb): CsrArch { CsrNext(c, CommitPorts(w)) }

  // ----- ID

  /** Register operand with the explicit WB-to-ID bypass; unused operands read zero. */
  function IdOperand(uses: bool, rs: Reg, regs: Regs, w: MemWb): Word {
    if !uses then 0
    else if WbRegWrite(w) && w.rd == rs then w.wbData
    else ReadReg(regs, rs)
  }

  /** Exception found while decoding; a fetch exception comes first. */
  function IdExc(d: IfId, illegal: bool): Exc {
    if d.exc.valid then d.exc
    else if illegal then SyncExc(EXC_ILLEGAL_INSN, d.insn)
    else if d.insn == INSN_ECALL then SyncExc(EXC_ECALL_M, 0)
    else if d.insn == INSN_EBREAK then SyncExc(EXC_BREAKPOINT, d.pc)
    else d.exc
  }

  function IdPacket(d: IfId, regs: Regs, w: MemWb): IdEx {
    if !d.valid then ID_EX_BUBBLE
    else
      var dec := Decode(d.insn);
      var e := IdExc(d, dec.illegal);
      if e.valid then IdEx(true, d.pc, d.insn, dec.rs1, dec.rs2, dec.rd, 0, 0, dec.imm, ZERO_CTRL, e)
      else IdEx(true, d.pc, d.insn, dec.rs1, dec.rs2, dec.rd,
                IdOperand(dec.ctrl.usesRs1, dec.rs1, regs, w), IdOperand(dec.ctrl.usesRs2, dec.rs2, regs, w),
                dec.imm, dec.ctrl, e)
  }

  /** The synthetic packet that replaces an interrupted instruction. */
  function TimerPacket(pc: Word): IdEx {
    ID_EX_BUBBLE.(valid := true, pc := pc, exc := TIMER_EXC)
  }

  // ----- interrupt-state interlock and hazards

  predicate IrqStateAddr(addr: Word) { addr == CSR_MSTATUS || addr == CSR_MIE }

  predicate IdExIrqWriter(e: IdEx) {
    e.valid && !e.exc.valid
    && (e.ctrl.isMret || (CommandWrites(e.ctrl.csrCmd, e.rs1) && IrqStateAddr(CsrAddrOf(e.insn))))
  }

  predicate ExMemIrqWriter(m: ExMem) {
    m.valid && !m.exc.valid && (m.isMret || (m.csrWrite && IrqStateAddr(m.csrAddr)))
  }

  predicate IrqStateWait(e: IdEx, m: ExMem) { IdExIrqWriter(e) || ExMemIrqWriter(m) }

  predicate RawMatch(e: IdEx, uses: bool, rs: Reg) {
    e.valid && !e.exc.valid && e.ctrl.regWrite && e.ctrl.memCmd.MemLoad? && e.rd != 0 && uses && e.rd == rs
  }

  predicate LoadUse(id: IdEx, e: IdEx) {
    id.valid && (RawMatch(e, id.ctrl.usesRs1, id.rs1) || RawMatch(e, id.ctrl.usesRs2, id.rs2))
  }

  predicate IdExCsrWriter(e: IdEx) { e.valid && !e.exc.valid && CommandWrites(e.ctrl.csrCmd, e.rs1) }
  predicate ExMemCsrWriter(m: ExMem) { m.valid && !m.exc.valid && m.csrWrite }

  predicate CsrDependency(id: IdEx, e: IdEx, m: ExMem) {
    var addr := CsrAddrOf(id.insn);
    id.valid &&
    (|| (!id.ctrl.csrCmd.CsrNone?
         && ((IdExCsrWriter(e) && AddressesConflict(addr, CsrAddrOf(e.insn)))
             || (ExMemCsrWriter(m) && AddressesConflict(addr, m.csrAddr))))
     || (id.ctrl.isMret
         && ((IdExCsrWriter(e) && CsrAddrOf(e.insn) == CSR_MEPC) || (ExMemCsrWriter(m) && m.csrAddr == CSR_MEPC)))
     || (!id.ctrl.csrCmd.CsrNone? && IsMinstret(addr)
         && ((e.valid && !e.exc.valid) || (m.valid && !m.exc.valid))))
  }

  // ----- EX

  /** Value EX/MEM can forward; a load has none yet. */
  function ExMemValue(m: ExMem): Word {
    match m.wbSel
    case WbExResult => m.exResult
    case WbPc4 => Add32(m.pc, 4)
    case WbCsr => m.csrOld
    case WbLoad => 0
  }

  predicate ExMemForwards(m: ExMem) {
    m.valid && m.regWrite && !m.exc.valid && m.rd != 0 && !m.wbSel.WbLoad?
  }

  function ForwardSel(e: IdEx, uses: bool, rs: Reg, m: ExMem, w: MemWb): FwdSel {
    if !(e.valid && !e.exc.valid) then FwdRegfile
    else if ExMemForwards(m) && uses && m.rd == rs then FwdExMem
    else if WbRegWrite(w) && uses && w.rd == rs then FwdMemWb
    else FwdRegfile
  }

  function Forward(e: IdEx, uses: bool, rs: Reg, snapshot: Word, m: ExMem, w: MemWb): Word {
    match ForwardSel(e, uses, rs, m, w)
    case FwdExMem => ExMemValue(m)
    case FwdMemWb => w.wbData
    case FwdRegfile => snapshot
  }

  function ForwardA(e: IdEx, m: ExMem, w: MemWb): Word { Forward(e, e.ctrl.usesRs1, e.rs1, e.rs1Value, m, w) }
  function ForwardB(e: IdEx, m: ExMem, w: MemWb): Word { Forward(e, e.ctrl.usesRs2, e.rs2, e.rs2Value, m, w) }

  /** MDU work attached to a packet; an incoming exception launches nothing. */
  predicate IsMdu(e: IdEx) { (IsMul(e.ctrl.mduOp) || IsDiv(e.ctrl.mduOp)) && !e.exc.valid }

  function AluResult(e: IdEx, a: Word, b: Word): Word {
    var x := match e.ctrl.opASel case OpARs1 => a case OpAPc => e.pc case OpAZero => 0;
    var y := match e.ctrl.opBSel case OpBRs2 => b case OpBImm => e.imm;
    Alu(e.ctrl.aluOp, x, y)
  }

  function CsrWdata(cmd: CsrCmd, rs1: Reg, a: Word, old_value: Word): Word {
    match cmd
    case CsrNone => 0
    case CsrRw => a
    case CsrRs => Or32(old_value, a)
    case CsrRc => AndNot32(old_value, a)
    case CsrRwi => rs1
    case CsrRsi => Or32(old_value, rs1)
    case CsrRci => AndNot32(old_value, rs1)
  }

  predicate IsControl(c: Ctrl) { !c.branchKind.BrNone? || c.isMret }

  predicate ControlTaken(e: IdEx, a: Word, b: Word) { e.ctrl.isMret || BranchTaken(e.ctrl.branchKind, a, b) }

  function ControlTarget(e: IdEx, a: Word, mepc: Word): Word {
    if e.ctrl.isMret then mepc else BranchTarget(e.ctrl.branchKind, e.pc, e.imm, a)
  }

  /** Exception a packet carries out of EX; one attached earlier comes first. */
  function ExExc(e: IdEx, a: Word, b: Word, mepc: Word): Exc {
    var addr := CsrAddrOf(e.insn);
    if e.exc.valid then e.exc
    else if AccessIllegal(e.ctrl.csrCmd, CommandWrites(e.ctrl.csrCmd, e.rs1), addr) then
      SyncExc(EXC_ILLEGAL_INSN, e.insn)
    else if IsControl(e.ctrl) && ControlTaken(e, a, b) && !Aligned4(ControlTarget(e, a, mepc)) then
      SyncExc(EXC_INST_ADDR_MISALIGNED, ControlTarget(e, a, mepc))
    else e.exc
  }

  /** The EX/MEM packet for operand values `a` and `b`, CSR read data, and MDU result. */
  function ExPacket(e: IdEx, a: Word, b: Word, csrValue: Word, mepc: Word, mduResult: Word): ExMem {
    var isCsr := !e.ctrl.csrCmd.CsrNone?;
    var x := ExExc(e, a, b, mepc);
    ExMem(true, e.pc, e.insn, e.rd,
          e.ctrl.regWrite && !x.valid, e.ctrl.wbSel,
          if IsMdu(e) then mduResult else AluResult(e, a, b), b,
          if x.valid then MemNone else e.ctrl.memCmd, e.ctrl.memSize, e.ctrl.loadUnsigned,
          if isCsr then CsrAddrOf(e.insn) else 0,
          CommandWrites(e.ctrl.csrCmd, e.rs1) && !x.valid,
          if isCsr then CsrWdata(e.ctrl.csrCmd, e.rs1, a, csrValue) else 0,
          if isCsr then csrValue else 0,
          e.ctrl.isMret && !x.valid,
          IsControl(e.ctrl), ControlTaken(e, a, b), ControlTarget(e, a, mepc), x)
  }

  // ----- MEM

  predicate MemIsMemory(m: ExMem) { m.valid && !m.exc.valid && IsMemory(m.memCmd) }

  /** MEM/WB packet of an instruction without a memory access. */
  function PlainPacket(m: ExMem): MemWb {
    MemWb(true, m.pc, m.insn, m.rd, m.regWrite && !m.exc.valid, ExMemValue(m),
          m.csrWrite && !m.exc.valid, m.csrAddr, m.csrWdata, m.isMret && !m.exc.valid,
          false, 0, 0, 0, m.control, m.controlTaken, m.controlTarget, m.exc)
  }

  /** MEM/WB packet of a completed load or store. */
  function MemoryPacket(m: ExMem, o: LsuOut): MemWb {
    var ok := !o.exception.valid;
    MemWb(true, m.pc, m.insn, m.rd, m.regWrite && ok, if m.memCmd.MemLoad? then o.loadData else 0,
          false, 0, 0, false,
          m.memCmd.MemStore? && ok, m.exResult, if ok then o.traceWstrb else 0, if ok then o.traceWdata else 0,
          m.control, m.controlTaken, m.controlTarget, o.exception)
  }

  function MemPacket(m: ExMem, o: LsuOut): MemWb {
    if !m.valid then MEM_WB_BUBBLE
    else if !MemIsMemory(m) then PlainPacket(m)
    else if o.rspValid then MemoryPacket(m, o)
    else MEM_WB_BUBBLE
  }
}
