/** The invariant of the running core, one predicate per concern. */
module Invariant {
  import opened Rv32Types
  import opened Decoder
  import opened DivUnit
  import opened MulUnit
  import opened CsrFile
  import opened IfStage
  import opened Lsu
  import opened PipelineStages
  import opened Rv32Core
  import opened FetchOrder
  import opened Isa
  import opened Staged
  import opened System

  // ----- precise traps

  /** The drain flag holds exactly while an exception packet is in flight, and
      nothing younger than that packet is. */
  predicate DrainOk(d: IfId, e: IdEx, m: ExMem, w: MemWb, drain: bool) {
    && (drain <==> (e.valid && e.exc.valid) || (m.valid && m.exc.valid) || WbTrap(w))
    && (e.valid && e.exc.valid ==> !d.valid)
    && (m.valid && m.exc.valid ==> !d.valid && !e.valid)
    && (WbTrap(w) ==> !d.valid && !e.valid && !m.valid)
  }

  // ----- program order of PCs

  function HeadD(s: CoreState): Word { if s.d.valid then s.d.pc else FetchPc(s.fe) }
  function HeadE(s: CoreState): Word { if s.e.valid then s.e.pc else HeadD(s) }
  function HeadM(s: CoreState): Word { if s.m.valid then s.m.pc else HeadE(s) }

  /** PC of the oldest instruction that has not committed. */
  function OldestPc(s: CoreState): Word { if s.w.valid then s.w.pc else HeadM(s) }

  function SuccM(m: ExMem): Word { if m.controlTaken then m.controlTarget else Add32(m.pc, 4) }
  function SuccW(w: MemWb): Word { if w.controlTaken then w.controlTarget else Add32(w.pc, 4) }

  /** Every in-flight packet is followed by its successor in program order. */
  predicate ChainOk(s: CoreState) {
    && (s.d.valid && !s.drain ==> FetchPc(s.fe) == Add32(s.d.pc, 4))
    && (s.e.valid && !s.e.exc.valid ==> HeadD(s) == Add32(s.e.pc, 4))
    && (s.m.valid && !s.m.exc.valid ==> HeadE(s) == SuccM(s.m))
    && (WbRetire(s.w) ==> HeadM(s) == SuccW(s.w))
  }

  /** Every PC in the pipeline, and every target about to be used, is aligned. */
  predicate AlignedOk(s: CoreState) {
    && (s.d.valid ==> Aligned4(s.d.pc))
    && (s.e.valid ==> Aligned4(s.e.pc))
    && (s.m.valid ==> Aligned4(s.m.pc))
    && (s.w.valid ==> Aligned4(s.w.pc))
  }

  // ----- what each packet holds

  predicate DOk(prog: Program, d: IfId) { d.valid ==> d == PacketAt(prog, d.pc) }

  predicate EOk(prog: Program, e: IdEx, regs: Regs, csr: CsrArch, tipE: bool) {
    e.valid ==> e == StagedE(prog, e.pc, regs, IrqOn(csr), tipE)
  }

  function SpecM(prog: Program, pc: Word, regs: Regs, csr: CsrArch, tag: Tag): ExMem {
    StagedM(StagedE(prog, pc, regs, IrqOn(csr), tag.mtip), csr, tag.timing)
  }

  predicate MOk(prog: Program, m: ExMem, regs: Regs, csr: CsrArch, tag: Tag) {
    m.valid ==> m == SpecM(prog, m.pc, regs, csr, tag)
  }

  function TxnRdata(t: Option<Txn>): Word { if t.Some? then t.value.rdata else 0 }
  function TxnErr(t: Option<Txn>): bool { t.Some? && t.value.err }
  function TxnReq(t: Option<Txn>): Option<MemReq> { if t.Some? then Some(t.value.req) else None }

  predicate WOk(prog: Program, w: MemWb, regs: Regs, csr: CsrArch, tag: Tag, txn: Option<Txn>) {
    if w.valid then
      var m := SpecM(prog, w.pc, regs, csr, tag);
      w == StagedW(m, TxnRdata(txn), TxnErr(txn)) && TxnReq(txn) == RequestOf(m)
    else txn == None
  }

  // ----- operands, CSR order, interrupt state

  /** No operand in ID/EX depends on a load still in EX/MEM. */
  predicate NoLoadUse(e: IdEx, m: ExMem) {
    e.valid && !e.exc.valid && m.valid && !m.exc.valid && m.memCmd.MemLoad? && m.rd != 0 ==>
      !(e.ctrl.usesRs1 && e.rs1 == m.rd) && !(e.ctrl.usesRs2 && e.rs2 == m.rd)
  }

  predicate WbCsrWriter(w: MemWb) { WbRetire(w) && w.csrWrite }

  predicate MemWbIrqWriter(w: MemWb) {
    WbRetire(w) && (w.isMret || (w.csrWrite && IrqStateAddr(w.csrAddr)))
  }

  /** A CSR reader or MRET in ID/EX has no older uncommitted writer of what it reads. */
  predicate CsrSafe(e: IdEx, m: ExMem, w: MemWb) {
    var addr := CsrAddrOf(e.insn);
    && (e.valid && !e.exc.valid && !e.ctrl.csrCmd.CsrNone? ==>
          && (ExMemCsrWriter(m) ==> !AddressesConflict(addr, m.csrAddr))
          && (WbCsrWriter(w) ==> !AddressesConflict(addr, w.csrAddr))
          && (IsMinstret(addr) ==> !(m.valid && !m.exc.valid) && !WbRetire(w)))
    && (e.valid && !e.exc.valid && e.ctrl.isMret ==>
          && (ExMemCsrWriter(m) ==> m.csrAddr != CSR_MEPC)
          && (WbCsrWriter(w) ==> w.csrAddr != CSR_MEPC))
  }

  /** A packet in ID/EX was let in only after every older writer of the enable bits left EX/MEM. */
  predicate IrqSafe(e: IdEx, m: ExMem, w: MemWb) {
    e.valid ==> !ExMemIrqWriter(m) && !MemWbIrqWriter(w)
  }

  // ----- ownership of the blocking units

  /** The multiplier and divider work only for the packet in ID/EX, on its operands. */
  ghost predicate MduOk(s: CoreState) {
    && (!s.mul.phase.MulIdle? ==>
          s.e.valid && !s.e.exc.valid && IsMul(s.e.ctrl.mduOp) && MulOk(s.mul, s.e.ctrl.mduOp, FwdA(s), FwdB(s)))
    && (!s.div.phase.DivIdle? ==>
          s.e.valid && !s.e.exc.valid && IsDiv(s.e.ctrl.mduOp) && DivOk(s.div, s.e.ctrl.mduOp, FwdA(s), FwdB(s)))
  }

  /** The LSU works only for the packet in EX/MEM, or drops a response from before a reset. */
  predicate LsuOk(l: LsuState, m: ExMem, dmOut: Option<MemReq>) {
    && (dmOut.Some? <==> l.phase.LsuBusy? && l.requestSent)
    && match l.phase
       case LsuIdle => true
       case LsuBusy => if l.discard then l.requestSent else
         && RequestOf(m).Some?
         && l.cmd == m.memCmd && l.size == m.memSize && l.loadUnsigned == m.loadUnsigned && l.addr == m.exResult
         && (m.memCmd.MemStore? ==> l.storeWstrb == StoreStrobe(m.memSize, m.exResult)
                                    && l.storeWdata == StoreLanes(m.memSize, m.exResult, m.storeData))
         && (m.memCmd.MemLoad? ==> l.storeWstrb == 0 && l.storeWdata == 0)
         && (dmOut.Some? ==> dmOut == RequestOf(m))
       case LsuResp =>
         && MemIsMemory(m) && Misaligned(m.memSize, m.exResult) && l.cmd == m.memCmd
         && l.loadData == 0 && l.exception == MisalignedExc(m.memCmd, m.exResult)
         && l.storeWstrb == 0 && l.storeWdata == 0
  }

  ghost predicate Inv(y: Sys, prog: Program) {
    var s := y.core;
    && CsrWf(s.csr)
    && FetchInv(s.fe, y.imOut, prog)
    && DrainOk(s.d, s.e, s.m, s.w, s.drain)
    && ChainOk(s)
    && AlignedOk(s)
    && DOk(prog, s.d)
    && EOk(prog, s.e, s.regs, s.csr, y.tipE)
    && MOk(prog, s.m, RegsAfter(s.regs, s.w), CsrAfter(s.csr, s.w), y.tagM)
    && WOk(prog, s.w, s.regs, s.csr, y.tagW, y.txnW)
    && NoLoadUse(s.e, s.m)
    && CsrSafe(s.e, s.m, s.w)
    && IrqSafe(s.e, s.m, s.w)
    && MduOk(s)
    && LsuOk(s.lsu, s.m, y.dmOut)
  }

  // ----- facts about packets that follow from what they hold

  /** A load's write data matters nowhere: for the bus request it is zero. */
  predicate EFacts(e: IdEx) {
    e.valid ==> CtrlOk(e.ctrl) && (e.exc.valid ==> e.ctrl == ZERO_CTRL)
                && (e.ctrl.memCmd.MemLoad? ==> e.rs2Value == 0)
  }

  predicate MFacts(m: ExMem) {
    m.valid ==>
      && (m.exc.valid ==> !m.regWrite && m.memCmd.MemNone? && !m.csrWrite && !m.isMret)
      && (!m.exc.valid ==>
            && (m.memCmd.MemLoad? <==> m.wbSel.WbLoad?)
            && (m.memCmd.MemLoad? ==> m.storeData == 0)
            && (m.memCmd.MemStore? ==> !m.regWrite)
            && (!m.memCmd.MemNone? ==> !m.csrWrite && !m.isMret && !m.control && !m.controlTaken)
            && (m.controlTaken ==> m.control && Aligned4(m.controlTarget))
            && (m.csrWrite ==> !m.isMret))
  }

  predicate WFacts(w: MemWb) {
    WbRetire(w) ==> (w.controlTaken ==> w.control && Aligned4(w.controlTarget)) && (w.csrWrite ==> !w.isMret)
  }

  lemma StagedEFacts(prog: Program, pc: Word, regs: Regs, irqOn: bool, mtip: bool)
    ensures StagedE(prog, pc, regs, irqOn, mtip).valid && EFacts(StagedE(prog, pc, regs, irqOn, mtip))
    ensures StagedE(prog, pc, regs, irqOn, mtip).pc == pc
  {
    DecodeCtrlOk(PacketAt(prog, pc).insn);
    hide Decode, CtrlOk;
    assert CtrlOk(ZERO_CTRL) by { ZeroCtrlOk(); }
    LoadUsesNoRs2(Decode(PacketAt(prog, pc).insn).ctrl);
  }

  lemma ZeroCtrlOk()
    ensures CtrlOk(ZERO_CTRL)
  {
  }

  lemma LoadUsesNoRs2(c: Ctrl)
    requires CtrlOk(c)
    ensures c.memCmd.MemLoad? ==> !c.usesRs2
  {
  }

  lemma StagedMFacts(e: IdEx, a: Word, b: Word, csrValue: Word, mepc: Word, r: Word)
    requires e.valid && EFacts(e) && (e.ctrl.memCmd.MemLoad? ==> b == 0)
    ensures MFacts(ExPacket(e, a, b, csrValue, mepc, r))
  {
    hide Alu, AccessIllegal, CsrWdata, BranchTarget, Signed;
  }

  lemma SpecMFacts(prog: Program, pc: Word, regs: Regs, csr: CsrArch, tag: Tag)
    ensures SpecM(prog, pc, regs, csr, tag).valid && MFacts(SpecM(prog, pc, regs, csr, tag))
    ensures SpecM(prog, pc, regs, csr, tag).pc == pc
  {
    StagedEFacts(prog, pc, regs, IrqOn(csr), tag.mtip);
    var e := StagedE(prog, pc, regs, IrqOn(csr), tag.mtip);
    hide StagedE, EFacts, MFacts, MduFn, CsrValue, Alu, CsrWdata;
    StagedMFacts(e, e.rs1Value, e.rs2Value,
                 if e.ctrl.csrCmd.CsrNone? then 0 else CsrValue(csr, CsrAddrOf(e.insn), tag.timing), csr.mepc,
                 if IsMdu(e) then MduFn(e.ctrl.mduOp, e.rs1Value, e.rs2Value) else 0) by { ELoad(e); }
  }

  lemma ELoad(e: IdEx)
    requires e.valid && EFacts(e)
    ensures e.ctrl.memCmd.MemLoad? ==> e.rs2Value == 0
  {
  }

  lemma StagedWFacts(m: ExMem, rdata: Word, err: bool)
    requires m.valid && MFacts(m)
    ensures StagedW(m, rdata, err).valid && WFacts(StagedW(m, rdata, err)) && StagedW(m, rdata, err).pc == m.pc
  {
    hide Misaligned, LoadResult, StoreStrobe, StoreLanes;
  }

  /** The packet facts hold in every state of the invariant. */
  lemma InvFacts(y: Sys, prog: Program)
    requires Inv(y, prog)
    ensures EFacts(y.core.e) && MFacts(y.core.m) && WFacts(y.core.w)
  {
    var s := y.core;
    StagedEFacts(prog, s.e.pc, s.regs, IrqOn(s.csr), y.tipE);
    SpecMFacts(prog, s.m.pc, RegsAfter(s.regs, s.w), CsrAfter(s.csr, s.w), y.tagM);
    SpecMFacts(prog, s.w.pc, s.regs, s.csr, y.tagW);
    StagedWFacts(SpecM(prog, s.w.pc, s.regs, s.csr, y.tagW), TxnRdata(y.txnW), TxnErr(y.txnW));
    hide EFacts, MFacts, WFacts, StagedE, SpecM, StagedW, RegsAfter, CsrAfter, FetchInv, DrainOk, ChainOk, AlignedOk,
         CsrSafe, NoLoadUse, IrqSafe, MduOk, LsuOk;
    if !s.e.valid { NoEFacts(s.e); }
    if !s.m.valid { NoMFacts(s.m); }
    if !s.w.valid { NoWFacts(s.w); }
  }

  lemma NoEFacts(e: IdEx) requires !e.valid ensures EFacts(e) {}
  lemma NoMFacts(m: ExMem) requires !m.valid ensures MFacts(m) {}
  lemma NoWFacts(w: MemWb) requires !w.valid ensures WFacts(w) {}
}
