/** Every packet in the pipeline stays the staged result for its own program-order
    state: operands, CSR reads, MDU results, memory answers, interrupt enables. */
module Packets {
  import opened Rv32Types
  import opened Decoder
  import opened DivUnit
  import opened MulUnit
  import opened CsrFile
  import opened IfStage
  import opened Lsu
  import opened PipelineStages
  import opened Rv32Core
  import opened FetchOrder
  import opened Isa
  import opened Staged
  import opened System
  import opened Invariant
  import opened Operands
  import opened LsuLink
  import opened DrainChain

  // ----- commits that leave a view unchanged

  lemma BubbleCommits(regs: Regs, c: CsrArch)
    ensures RegsAfter(regs, MEM_WB_BUBBLE) == regs && CsrAfter(c, MEM_WB_BUBBLE) == c
  {
  }

  /** A commit that is neither a trap nor an enable-bit writer leaves the enables alone. */
  lemma IrqOnKept(c: CsrArch, w: MemWb)
    requires !WbTrap(w) && !MemWbIrqWriter(w)
    ensures IrqOn(CsrAfter(c, w)) == IrqOn(c)
  {
    IrqOnUnaffected(c, CommitPorts(w));
    hide CsrNext;
  }

  /** `w2` came from `m`: it writes no more than `m` was seen to write. */
  predicate Moved(m: ExMem, w2: MemWb) {
    && (MemWbIrqWriter(w2) ==> ExMemIrqWriter(m))
    && (WbCsrWriter(w2) ==> ExMemCsrWriter(m) && w2.csrAddr == m.csrAddr)
    && (WbRetire(w2) ==> m.valid && !m.exc.valid)
  }

  /** `m2` came from `e`: it writes no more than `e` was seen to write. */
  predicate Entered(e: IdEx, m2: ExMem) {
    m2.valid ==>
      && (ExMemIrqWriter(m2) ==> IdExIrqWriter(e))
      && (ExMemCsrWriter(m2) ==> IdExCsrWriter(e) && m2.csrAddr == CsrAddrOf(e.insn))
      && (!m2.exc.valid && m2.memCmd.MemLoad? ==> e.ctrl.memCmd.MemLoad? && e.ctrl.regWrite && m2.rd == e.rd)
      && (!m2.exc.valid ==> e.valid && !e.exc.valid)
  }

  lemma WriterMoves(m: ExMem, o: LsuOut)
    requires MFacts(m)
    ensures Moved(m, MemPacket(m, o))
  {
    hide ExMemValue;
  }

  lemma WriterEnters(e: IdEx, a: Word, b: Word, v: Word, mepc: Word, r: Word)
    requires e.valid && EFacts(e)
    ensures Entered(e, ExPacket(e, a, b, v, mepc, r))
  {
    hide AluResult, CsrWdata, BranchTaken, BranchTarget, AccessIllegal, CsrAddrOf;
  }

  lemma SafeAfterIssue(id: IdEx, e: IdEx, m: ExMem, m2: ExMem, w2: MemWb)
    requires Entered(e, m2) && Moved(m, w2) && !IrqStateWait(e, m)
    requires id.valid && !id.exc.valid ==> !LoadUse(id, e) && !CsrDependency(id, e, m)
    ensures NoLoadUse(id, m2) && CsrSafe(id, m2, w2) && IrqSafe(id, m2, w2)
  {
    hide AddressesConflict, CsrAddrOf, IrqStateAddr, CommandWrites;
  }

  /** Same instruction, possibly with refreshed operands. */
  predicate SameInsn(e: IdEx, f: IdEx) {
    f.valid == e.valid && f.exc == e.exc && f.ctrl == e.ctrl && f.insn == e.insn && f.rs1 == e.rs1 && f.rs2 == e.rs2
  }

  lemma SafeAfterHold(e: IdEx, f: IdEx, m: ExMem, w: MemWb, m2: ExMem, w2: MemWb)
    requires NoLoadUse(e, m) && CsrSafe(e, m, w) && IrqSafe(e, m, w) && SameInsn(e, f)
    requires (m2 == m && w2 == MEM_WB_BUBBLE) || (m2 == EX_MEM_BUBBLE && Moved(m, w2))
    ensures NoLoadUse(f, m2) && CsrSafe(f, m2, w2) && IrqSafe(f, m2, w2)
  {
    hide AddressesConflict, CsrAddrOf, IrqStateAddr, CommandWrites;
  }

  lemma SafeEmpty(e: IdEx, m: ExMem, w: MemWb)
    requires !e.valid
    ensures NoLoadUse(e, m) && CsrSafe(e, m, w) && IrqSafe(e, m, w)
  {
  }

  // ----- a CSR read in EX is the program-order read

  lemma TimingRead(c: CsrArch, mcycle: U64, mtip: bool, addr: Word)
    ensures CsrRead(c, mcycle, mtip, addr) == CsrValue(c, addr, CsrRead(c, mcycle, mtip, addr))
  {
    assert MipBits(MipValue(mtip)) == MipValue(mtip);
    hide MipValue, MipBits, MstatusValue, MieValue, Low, High;
  }

  /** No commit between the read and its program-order point changes what is read. */
  lemma ReadKept(c: CsrArch, w: MemWb, addr: Word, t: Word)
    requires !WbTrap(w)
    requires addr == CSR_MSTATUS ==> !MemWbIrqWriter(w)
    requires WbCsrWriter(w) ==> !AddressesConflict(addr, w.csrAddr)
    requires IsMinstret(addr) ==> !WbRetire(w)
    ensures CsrValue(CsrAfter(c, w), addr, t) == CsrValue(c, addr, t)
  {
    ReadUnaffected(c, CommitPorts(w), addr, t, t, MipBits(t));
    hide CsrNext, ReadTable;
  }

  lemma MepcKept(c: CsrArch, w: MemWb)
    requires !WbTrap(w) && (WbCsrWriter(w) ==> w.csrAddr != CSR_MEPC)
    ensures CsrAfter(c, w).mepc == c.mepc
  {
    hide AlignDown4, Inc64, SetLow, SetHigh, McauseBits, McauseOf, Bit;
  }

  // ----- MEM/WB

  lemma WStep(y: Sys, i: CoreIn, p: Params, prog: Program)
    requires Inv(y, prog) && !i.rst
    ensures var t := Next(y.core, i, p); WOk(prog, t.w, t.regs, t.csr, y.tagM, TxnOf(y, i))
  {
    var s := y.core;
    assert MOk(prog, s.m, RegsAfter(s.regs, s.w), CsrAfter(s.csr, s.w), y.tagM);
    assert WbTrap(s.w) ==> !s.m.valid;
    ActionMeans(s, i);
    Shapes(s, i, p);
    CommitsState(s, i, p);
    if !MemWait(s, i) { MemOutMeans(s, i); }
    if !WbTrap(s.w) && !MemWait(s, i) && s.m.valid { MemStageStep(y, i, prog); }
    hide Inv, SelectAction, Next, MemPacket, MemException, SpecM, StagedW, RegsAfter, CsrAfter, RequestOf;
  }

  lemma CommitsState(s: CoreState, i: CoreIn, p: Params)
    requires !i.rst
    ensures Next(s, i, p).regs == RegsAfter(s.regs, s.w) && Next(s, i, p).csr == CsrAfter(s.csr, s.w)
    ensures Next(s, i, p).mul == MulNext(s.mul, MulWires(s, i)) && Next(s, i, p).div == DivNext(s.div, DivWires(s, i))
  {
  }

  // ----- ID/EX

  lemma EStep(y: Sys, i: CoreIn, p: Params, prog: Program)
    requires Inv(y, prog) && !i.rst
    ensures var t := Next(y.core, i, p); EOk(prog, t.e, t.regs, t.csr, SysNext(y, i, p).tipE)
  {
    var s := y.core;
    assert EOk(prog, s.e, s.regs, s.csr, y.tipE) && DOk(prog, s.d) && IrqSafe(s.e, s.m, s.w);
    assert DrainOk(s.d, s.e, s.m, s.w, s.drain);
    ActionMeans(s, i);
    Shapes(s, i, p);
    CommitsState(s, i, p);
    RefreshMeans(s.e, s.w);
    if s.e.valid {
      IrqOnKept(s.csr, s.w);
      RefreshIsStaged(prog, s.e, s.regs, s.w, IrqOn(s.csr), y.tipE);
    }
    if s.d.valid && !s.drain && !IrqStateWait(s.e, s.m) { IssueIsStaged(s, i, prog); }
    IdOutMeans(s, i);
    TipNext(y, i, p);
    hide Inv, SelectAction, Next, SysNext, MemPacket, MemWait, MemException, StagedE, RegsAfter, CsrAfter, IdOut, Refresh,
         ExMemIrqWriter, MemWbIrqWriter, IrqStateWait, IdException, IdInterrupt, IdHazard, Redirect, ExWait, ExException;
  }

  lemma TipNext(y: Sys, i: CoreIn, p: Params)
    ensures SysNext(y, i, p).tipE == if Issues(SelectAction(y.core, i)) then i.mtip else y.tipE
    ensures SysNext(y, i, p).tagM == if SelectAction(y.core, i).ActMemWait? then y.tagM else Tag(y.tipE, CsrData(y.core, i))
    ensures SysNext(y, i, p).tagW == y.tagM && SysNext(y, i, p).txnW == TxnOf(y, i)
    ensures SysNext(y, i, p).core == Next(y.core, i, p)
  {
    hide SelectAction, Next, CsrData, TxnOf;
  }

  /** A packet let into ID/EX decodes its word, or is the timer interrupt exactly
      when MTIP and the program-order enables say so. */
  lemma IssueIsStaged(s: CoreState, i: CoreIn, prog: Program)
    requires !i.rst && DOk(prog, s.d) && s.d.valid && !s.drain && !IrqStateWait(s.e, s.m)
    ensures var after := CsrAfter(s.csr, s.w);
      && IdOut(s, i) == StagedE(prog, s.d.pc, RegsAfter(s.regs, s.w), after.mie && after.mtie, i.mtip)
      && IrqOn(after) == (after.mie && after.mtie)
  {
    BypassReadsCommitted(s.d, s.regs, s.w);
    hide RegsAfter, CsrAfter, IrqStateWait, Decode, IdOperand;
  }

  /** Interlocks at the boundary make the next packet safe from everything ahead of it. */
  lemma SafeStep(y: Sys, i: CoreIn, p: Params, prog: Program)
    requires Inv(y, prog) && !i.rst
    ensures var t := Next(y.core, i, p);
      NoLoadUse(t.e, t.m) && CsrSafe(t.e, t.m, t.w) && IrqSafe(t.e, t.m, t.w)
  {
    var s := y.core;
    InvFacts(y, prog);
    assert NoLoadUse(s.e, s.m) && CsrSafe(s.e, s.m, s.w) && IrqSafe(s.e, s.m, s.w);
    assert DrainOk(s.d, s.e, s.m, s.w, s.drain);
    ActionMeans(s, i);
    Shapes(s, i, p);
    RefreshMeans(s.e, s.w);
    IdOutMeans(s, i);
    WriterMoves(s.m, LsuNow(s, i));
    if !WbTrap(s.w) && !MemWait(s, i) && !MemException(s, i) {
      ExOutMeans(s, i);
      if ExFire(s, i) { WriterEnters(s.e, FwdA(s), FwdB(s), CsrData(s, i), s.csr.mepc, MduResult(s)); }
    }
    var t, act := Next(s, i, p), SelectAction(s, i);
    assert SameInsn(s.e, Refresh(s.e, s.w));
    hide Inv, Next, SelectAction, NoLoadUse, CsrSafe, IrqSafe, EFacts, MFacts, WFacts, IdOut, ExOut, MemPacket, Refresh, LsuNow,
         MemWait, MemException, ExFire, ExWait, ExException, ExPacket, Redirect, IrqStateWait, Moved, SameInsn, WbTrap,
         CsrData, FwdA, FwdB, MduResult, RedirectTarget, LoadUse, CsrDependency, FetchOut, FetchWires;
    if !t.e.valid {
      SafeEmpty(t.e, t.m, t.w);
    } else if Holds(act) {
      SafeAfterHold(s.e, t.e, s.m, s.w, t.m, t.w);
    } else {
      SafeAfterIssue(t.e, s.e, s.m, t.m, t.w);
    }
  }
}
