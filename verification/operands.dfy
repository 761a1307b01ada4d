/** Operand correctness: forwarding, the WB-to-ID bypass, the load-use stall and
    the refresh of held packets together deliver the architectural register. */
module Operands {
  import opened Rv32Types
  import opened Decoder
  import opened DivUnit
  import opened CsrFile
  import opened IfStage
  import opened Lsu
  import opened PipelineStages
  import opened Rv32Core
  import opened FetchOrder
  import opened Isa
  import opened Staged
  import opened System
  import opened Invariant

  /** The snapshot of a packet equals the register file entry. */
  predicate SnapshotOk(uses: bool, rs: Reg, v: Word, regs: Regs) {
    v == Source(regs, uses, rs)
  }

  lemma StagedSnapshot(prog: Program, pc: Word, regs: Regs, irqOn: bool, mtip: bool)
    ensures var e := StagedE(prog, pc, regs, irqOn, mtip);
      !e.exc.valid ==> SnapshotOk(e.ctrl.usesRs1, e.rs1, e.rs1Value, regs)
                       && SnapshotOk(e.ctrl.usesRs2, e.rs2, e.rs2Value, regs)
  {
    hide Decode;
  }

  /** The value EX uses for one operand, stated without the forwarding network. */
  function OperandView(uses: bool, rs: Reg, regs: Regs, m: ExMem, w: MemWb): Word {
    if uses && ExMemForwards(m) && m.rd == rs then ExMemValue(m)
    else Source(RegsAfter(regs, w), uses, rs)
  }

  /** Forwarding picks the youngest producer of the snapshot's register. */
  lemma ForwardIsView(e: IdEx, uses: bool, rs: Reg, v: Word, regs: Regs, m: ExMem, w: MemWb)
    requires e.valid && !e.exc.valid && SnapshotOk(uses, rs, v, regs)
    ensures Forward(e, uses, rs, v, m, w) == OperandView(uses, rs, regs, m, w)
  {
  }

  /** A plain EX/MEM packet commits the value it forwards. */
  lemma PlainCommitsForwarded(m: ExMem, o: LsuOut)
    requires m.valid && !MemIsMemory(m)
    ensures WbRegWrite(MemPacket(m, o)) == ((m.regWrite && !m.exc.valid) && m.rd != 0 && m.valid)
    ensures MemPacket(m, o).rd == m.rd && MemPacket(m, o).wbData == ExMemValue(m)
  {
  }

  /** When EX/MEM moves on, the operand a held or fired packet sees is the register
      after every older instruction has committed. */
  lemma ViewAfterMove(e: IdEx, uses: bool, rs: Reg, regs: Regs, m: ExMem, w: MemWb, o: LsuOut)
    requires MFacts(m) && (MemIsMemory(m) ==> o.rspValid)
    requires m.valid && !m.exc.valid && m.memCmd.MemLoad? && m.rd != 0 && uses ==> m.rd != rs
    ensures OperandView(uses, rs, regs, m, w) ==
            Source(RegsAfter(RegsAfter(regs, w), MemPacket(m, o)), uses, rs)
  {
    hide LoadResult;
    if m.valid && !MemIsMemory(m) { PlainCommitsForwarded(m, o); }
  }

  /** While EX/MEM waits for memory it forwards nothing, so the view only absorbs MEM/WB. */
  lemma ViewAfterWait(uses: bool, rs: Reg, regs: Regs, m: ExMem, w: MemWb)
    requires MFacts(m) && MemIsMemory(m)
    ensures OperandView(uses, rs, RegsAfter(regs, w), m, MEM_WB_BUBBLE) == OperandView(uses, rs, regs, m, w)
  {
  }

  /** The refresh keeps the snapshot equal to the register file across a commit. */
  lemma RefreshKeepsSnapshot(e: IdEx, regs: Regs, w: MemWb)
    requires e.valid
    requires SnapshotOk(e.ctrl.usesRs1, e.rs1, e.rs1Value, regs) && SnapshotOk(e.ctrl.usesRs2, e.rs2, e.rs2Value, regs)
    ensures SnapshotOk(e.ctrl.usesRs1, e.rs1, Refresh(e, w).rs1Value, RegsAfter(regs, w))
    ensures SnapshotOk(e.ctrl.usesRs2, e.rs2, Refresh(e, w).rs2Value, RegsAfter(regs, w))
  {
  }

  /** Decoding beside a committing packet reads the registers after the commit. */
  lemma BypassReadsCommitted(d: IfId, regs: Regs, w: MemWb)
    ensures IdPacket(d, regs, w) == IdPacket(d, RegsAfter(regs, w), MEM_WB_BUBBLE)
  {
    hide Decode;
    var dec := Decode(d.insn);
    BypassOperand(dec.ctrl.usesRs1, dec.rs1, regs, w);
    BypassOperand(dec.ctrl.usesRs2, dec.rs2, regs, w);
  }

  lemma BypassOperand(uses: bool, rs: Reg, regs: Regs, w: MemWb)
    ensures IdOperand(uses, rs, regs, w) == IdOperand(uses, rs, RegsAfter(regs, w), MEM_WB_BUBBLE)
  {
  }

  /** A held packet is the same instruction with its operands re-read. */
  lemma RefreshIsStaged(prog: Program, e: IdEx, regs: Regs, w: MemWb, irqOn: bool, mtip: bool)
    requires e.valid && e == StagedE(prog, e.pc, regs, irqOn, mtip)
    ensures Refresh(e, w) == StagedE(prog, e.pc, RegsAfter(regs, w), irqOn, mtip)
  {
    StagedSnapshot(prog, e.pc, regs, irqOn, mtip);
    StagedSnapshot(prog, e.pc, RegsAfter(regs, w), irqOn, mtip);
    StagedShape(prog, e.pc, regs, RegsAfter(regs, w), irqOn, mtip);
    if e.exc.valid {
      StagedExcCtrl(prog, e.pc, regs, irqOn, mtip);
    } else {
      RefreshKeepsSnapshot(e, regs, w);
    }
    hide StagedE, RegsAfter, Source;
  }

  /** Only the operand values of a staged packet depend on the registers. */
  lemma StagedShape(prog: Program, pc: Word, r1: Regs, r2: Regs, irqOn: bool, mtip: bool)
    ensures var a, b := StagedE(prog, pc, r1, irqOn, mtip), StagedE(prog, pc, r2, irqOn, mtip);
      a.(rs1Value := 0, rs2Value := 0) == b.(rs1Value := 0, rs2Value := 0)
  {
    hide Decode;
  }

  lemma StagedExcCtrl(prog: Program, pc: Word, regs: Regs, irqOn: bool, mtip: bool)
    ensures var e := StagedE(prog, pc, regs, irqOn, mtip);
      e.exc.valid ==> e.ctrl == ZERO_CTRL && e.rs1Value == 0 && e.rs2Value == 0
  {
    hide Decode;
  }

  /** Both operands of the packet in ID/EX, in any state of the invariant. */
  lemma OperandsCorrect(y: Sys, prog: Program)
    requires Inv(y, prog) && y.core.e.valid && !y.core.e.exc.valid
    ensures FwdA(y.core) == OperandView(y.core.e.ctrl.usesRs1, y.core.e.rs1, y.core.regs, y.core.m, y.core.w)
    ensures FwdB(y.core) == OperandView(y.core.e.ctrl.usesRs2, y.core.e.rs2, y.core.regs, y.core.m, y.core.w)
    ensures SnapshotOk(y.core.e.ctrl.usesRs1, y.core.e.rs1, y.core.e.rs1Value, y.core.regs)
    ensures SnapshotOk(y.core.e.ctrl.usesRs2, y.core.e.rs2, y.core.e.rs2Value, y.core.regs)
  {
    var s := y.core;
    StagedSnapshot(prog, s.e.pc, s.regs, IrqOn(s.csr), y.tipE);
    hide StagedE, SpecM, StagedW, RegsAfter, CsrAfter, FetchInv, DrainOk, ChainOk, AlignedOk,
         CsrSafe, NoLoadUse, IrqSafe, MduOk, LsuOk, OperandView, Forward, SnapshotOk;
    ForwardIsView(s.e, s.e.ctrl.usesRs1, s.e.rs1, s.e.rs1Value, s.regs, s.m, s.w);
    ForwardIsView(s.e, s.e.ctrl.usesRs2, s.e.rs2, s.e.rs2Value, s.regs, s.m, s.w);
  }
}
